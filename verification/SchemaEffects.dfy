/** What the generated conversion script does to a database: every column keeps its name and its data. */
module SchemaEffects {
  import opened Text
  import opened SchemaConversion
  import opened SchemaReading

  datatype Value = Null | Text(text: string)

  /** A column: its type, and its value in each row of the table. */
  datatype Cells = Cells(columnType: string, values: seq<Value>)

  datatype Table = Table(size: nat, columns: map<string, Cells>)

  type Database = map<string, Table>

  function WithColumns(db: Database, table: string, columns: map<string, Cells>): Database
    requires table in db
  {
    db[table := db[table].(columns := columns)]
  }

  /**
   One command; `None` when the server rejects it. Dropping and creating indexes and constraints leaves columns
   and data alone.
   */
  function Exec(db: Database, c: Command): Option<Database> {
    match c
    case DropObjects(_) => Some(db)
    case Verbatim(_) => Some(db)
    case AlterColumn(t, n, y) =>
      if t !in db || n !in db[t].columns then None
      else Some(WithColumns(db, t, db[t].columns[n := db[t].columns[n].(columnType := y)]))
    case AddText(t, n) =>
      if t !in db || n in db[t].columns then None
      else Some(WithColumns(db, t, db[t].columns[n := Cells("ntext", seq(db[t].size, _ => Null))]))
    case CopyColumn(t, target, source) =>
      if t !in db || target !in db[t].columns || source !in db[t].columns then None
      else
        var copied := db[t].columns[target].(values := db[t].columns[source].values);
        Some(WithColumns(db, t, db[t].columns[target := copied]))
    case DropColumn(t, n) =>
      if t !in db || n !in db[t].columns then None
      else Some(WithColumns(db, t, db[t].columns - {n}))
    case RenameColumn(t, n, m) =>
      if t !in db || n !in db[t].columns || m in db[t].columns then None
      else Some(WithColumns(db, t, (db[t].columns - {n})[m := db[t].columns[n]]))
  }

  function ExecAll(db: Database, commands: seq<Command>): Option<Database>
    decreases |commands|
  {
    if commands == [] then Some(db)
    else
      match Exec(db, commands[0])
      case None => None
      case Some(next) => ExecAll(next, commands[1..])
  }

  lemma {:induction false} ExecConcat(db: Database, a: seq<Command>, b: seq<Command>)
    ensures ExecAll(db, a + b) == if ExecAll(db, a).None? then None else ExecAll(ExecAll(db, a).value, b)
    decreases |a|
  {
    if a == [] {
      assert a + b == b;
    } else {
      assert (a + b)[1..] == a[1..] + b;
      if Exec(db, a[0]).Some? {
        ExecConcat(Exec(db, a[0]).value, a[1..], b);
      }
    }
  }

  // ---------- one column ----------

  /** Same tables, same column names, same data; types may differ. */
  ghost predicate SameData(a: Database, b: Database) {
    && a.Keys == b.Keys
    && forall t :: t in a ==>
         && a[t].size == b[t].size && a[t].columns.Keys == b[t].columns.Keys
         && forall n :: n in a[t].columns ==> a[t].columns[n].values == b[t].columns[n].values
  }

  /** The type a column has after a line of the script about it. */
  function TypeAfter(c: Column, before: string): string {
    if c.Column? && "nvarchar" <= c.columnType then c.columnType
    else if c.Column? && "ntext" <= c.columnType then "ntext"
    else before
  }

  /** Only this column's type may have changed, as the line says. */
  ghost predicate TypesAfter(a: Database, b: Database, table: string, c: Column) {
    forall t, n :: t in a && n in a[t].columns && t in b && n in b[t].columns ==>
      b[t].columns[n].columnType
      == if t == table && c.Column? && n == c.name then TypeAfter(c, a[t].columns[n].columnType)
         else a[t].columns[n].columnType
  }

  /** The column is there, and the name of its temporary column is free. */
  predicate Convertible(db: Database, table: string, c: Column) {
    c.Column? && ("nvarchar" <= c.columnType || "ntext" <= c.columnType) ==>
      && table in db && c.name in db[table].columns
      && ("ntext" <= c.columnType ==> c.name + "_tmp" !in db[table].columns)
  }

  lemma {:induction false} TemporaryDiffers(name: string)
    ensures Temporary(name) != name
  {
    assert |Temporary(name)| == |name| + 4;
  }

  lemma {:induction false} WithTwice(db: Database, table: string, x: map<string, Cells>, y: map<string, Cells>)
    requires table in db
    ensures WithColumns(WithColumns(db, table, x), table, y) == WithColumns(db, table, y)
  {
  }

  /** The four commands for a text column, one after the other. */
  lemma {:induction false} TextColumn(db: Database, table: string, name: string)
    requires table in db && name in db[table].columns && Temporary(name) !in db[table].columns
    ensures var end := ExecAll(db, [AddText(table, Temporary(name)), CopyColumn(table, Temporary(name), name),
                                    DropColumn(table, name), RenameColumn(table, Temporary(name), name)]);
            var converted := Cells("ntext", db[table].columns[name].values);
            end == Some(WithColumns(db, table, db[table].columns[name := converted]))
  {
    TemporaryDiffers(name);
    var tmp, cols := Temporary(name), db[table].columns;
    var c1, c2 := AddText(table, tmp), CopyColumn(table, tmp, name);
    var c3, c4 := DropColumn(table, name), RenameColumn(table, tmp, name);
    var cells := Cells("ntext", cols[name].values);
    var d1 := WithColumns(db, table, cols[tmp := Cells("ntext", seq(db[table].size, _ => Null))]);
    var d2 := WithColumns(db, table, cols[tmp := cells]);
    var d3 := WithColumns(db, table, (cols - {name})[tmp := cells]);
    var d4 := WithColumns(db, table, cols[name := cells]);
    assert Exec(db, c1) == Some(d1);
    assert Exec(d1, c2) == Some(d2) by {
      WithTwice(db, table, d1[table].columns, cols[tmp := cells]);
      assert d1[table].columns[tmp := cells] == cols[tmp := cells];
    }
    assert Exec(d2, c3) == Some(d3) by {
      WithTwice(db, table, d2[table].columns, (cols - {name})[tmp := cells]);
      assert cols[tmp := cells] - {name} == (cols - {name})[tmp := cells];
    }
    assert Exec(d3, c4) == Some(d4) by {
      WithTwice(db, table, d3[table].columns, cols[name := cells]);
      assert ((cols - {name})[tmp := cells] - {tmp})[name := cells] == cols[name := cells];
    }
    FourSteps(db, d1, d2, d3, d4, c1, c2, c3, c4);
  }

  lemma {:induction false} FourSteps(db: Database, d1: Database, d2: Database, d3: Database, d4: Database,
                                     c1: Command, c2: Command, c3: Command, c4: Command)
    requires Exec(db, c1) == Some(d1) && Exec(d1, c2) == Some(d2)
    requires Exec(d2, c3) == Some(d3) && Exec(d3, c4) == Some(d4)
    ensures ExecAll(db, [c1, c2, c3, c4]) == Some(d4)
  {
    assert [c1, c2, c3, c4][1..] == [c2, c3, c4];
    assert [c2, c3, c4][1..] == [c3, c4];
    assert [c3, c4][1..] == [c4];
    assert [c4][1..] == [];
    assert ExecAll(d4, []) == Some(d4);
    assert ExecAll(d3, [c4]) == Some(d4);
    assert ExecAll(d2, [c3, c4]) == Some(d4);
  }

  /** A column's commands run exactly when it is convertible; then all data stays and only its type changes. */
  lemma {:induction false} ColumnConverted(db: Database, table: string, c: Column)
    ensures var end := ExecAll(db, ColumnCommands(table, c));
            && (end.Some? <==> Convertible(db, table, c))
            && (end.Some? ==> SameData(db, end.value) && TypesAfter(db, end.value, table, c))
  {
    if c.IsVarchar() {
      assert c.columnType[1] == "nvarchar"[1] && "nvarchar"[1] != "ntext"[1];
      var a := AlterColumn(table, c.name, c.columnType);
      assert [a][1..] == [];
      assert Exec(db, a).Some? ==> ExecAll(Exec(db, a).value, []) == Exec(db, a);
      if Convertible(db, table, c) {
        Retyped(db, table, c, c.columnType);
      }
    } else if c.IsText() {
      if Convertible(db, table, c) {
        TextColumn(db, table, c.name);
        Retyped(db, table, c, "ntext");
      } else {
        NotConvertible(db, table, c.name);
      }
    }
  }

  lemma {:induction false} Retyped(db: Database, table: string, c: Column, columnType: string)
    requires c.Column? && table in db && c.name in db[table].columns
    requires columnType == TypeAfter(c, db[table].columns[c.name].columnType)
    ensures var cells := Cells(columnType, db[table].columns[c.name].values);
            var end := WithColumns(db, table, db[table].columns[c.name := cells]);
            SameData(db, end) && TypesAfter(db, end, table, c)
  {
  }

  lemma {:induction false} NotConvertible(db: Database, table: string, name: string)
    requires table !in db || name !in db[table].columns || Temporary(name) in db[table].columns
    ensures ExecAll(db, [AddText(table, Temporary(name)), CopyColumn(table, Temporary(name), name),
                         DropColumn(table, name), RenameColumn(table, Temporary(name), name)]) == None
  {
    TemporaryDiffers(name);
    var c1, c2, c3, c4 := AddText(table, Temporary(name)), CopyColumn(table, Temporary(name), name),
                          DropColumn(table, name), RenameColumn(table, Temporary(name), name);
    assert [c1, c2, c3, c4][1..] == [c2, c3, c4];
    if Exec(db, c1).Some? {
      assert Exec(Exec(db, c1).value, c2) == None;
    }
  }

  // ---------- one table ----------

  /** The columns a table's lines speak of. */
  function ColumnsOf(lines: seq<string>): seq<Column> {
    if lines == [] then []
    else
      var line := Unindented(lines[0]);
      (if StartsWith(line, CREATE_TABLE) then [] else [ColumnOf(line)]) + ColumnsOf(lines[1..])
  }

  predicate AllConvertible(db: Database, table: string, columns: seq<Column>) {
    forall i :: 0 <= i < |columns| ==> Convertible(db, table, columns[i])
  }

  /** The type of a column after all lines: the latest line about it decides. */
  function FinalType(columns: seq<Column>, name: string, before: string): string {
    if columns == [] then before
    else
      var isIt := columns[0].Column? && columns[0].name == name;
      FinalType(columns[1..], name, if isIt then TypeAfter(columns[0], before) else before)
  }

  ghost predicate FinalTypes(a: Database, b: Database, table: string, columns: seq<Column>) {
    forall t, n :: t in a && n in a[t].columns && t in b && n in b[t].columns ==>
      b[t].columns[n].columnType
      == if t == table then FinalType(columns, n, a[t].columns[n].columnType) else a[t].columns[n].columnType
  }

  lemma {:induction false} SameDataConvertible(a: Database, b: Database, table: string, columns: seq<Column>)
    requires SameData(a, b)
    ensures AllConvertible(a, table, columns) <==> AllConvertible(b, table, columns)
  {
    assert forall c: Column :: Convertible(a, table, c) <==> Convertible(b, table, c);
  }

  /** The lines after the header: the commands run exactly when every column is convertible. */
  lemma {:induction false} LinesConverted(db: Database, command: string, lines: seq<string>, table: string)
    requires TableName(command) == Some(table)
    ensures TableCommands(command, lines, table).Some?
    ensures var end := ExecAll(db, TableCommands(command, lines, table).value);
            && (end.Some? <==> AllConvertible(db, table, ColumnsOf(lines)))
            && (end.Some? ==> SameData(db, end.value) && FinalTypes(db, end.value, table, ColumnsOf(lines)))
    decreases |lines|
  {
    if lines != [] {
      var line, rest := Unindented(lines[0]), lines[1..];
      LinesConverted(db, command, rest, table);
      var tail := TableCommands(command, rest, table).value;
      if StartsWith(line, CREATE_TABLE) {
        ExecConcat(db, [DropObjects(table)], tail);
        assert [DropObjects(table)][1..] == [];
        assert [] + ColumnsOf(rest) == ColumnsOf(rest);
      } else {
        var c := ColumnOf(line);
        ExecConcat(db, ColumnCommands(table, c), tail);
        ColumnConverted(db, table, c);
        assert [c] + ColumnsOf(rest) == ColumnsOf(lines);
        assert ColumnsOf(lines)[0] == c && ColumnsOf(lines)[1..] == ColumnsOf(rest);
        if Convertible(db, table, c) {
          var mid := ExecAll(db, ColumnCommands(table, c)).value;
          LinesConverted(mid, command, rest, table);
          SameDataConvertible(db, mid, table, ColumnsOf(rest));
          OneMoreColumn(db, mid, table, ColumnsOf(lines), tail);
        } else {
          assert !Convertible(db, table, ColumnsOf(lines)[0]);
        }
      }
    }
  }

  lemma {:induction false} OneMoreColumn(db: Database, mid: Database, table: string, columns: seq<Column>,
                                         tail: seq<Command>)
    requires columns != [] && Convertible(db, table, columns[0])
    requires SameData(db, mid) && TypesAfter(db, mid, table, columns[0])
    requires AllConvertible(db, table, columns[1..]) <==> AllConvertible(mid, table, columns[1..])
    requires var end := ExecAll(mid, tail);
             && (end.Some? <==> AllConvertible(mid, table, columns[1..]))
             && (end.Some? ==> SameData(mid, end.value) && FinalTypes(mid, end.value, table, columns[1..]))
    ensures var end := ExecAll(mid, tail);
            && (end.Some? <==> AllConvertible(db, table, columns))
            && (end.Some? ==> SameData(db, end.value) && FinalTypes(db, end.value, table, columns))
  {
    assert forall i :: 1 <= i < |columns| ==> columns[i] == columns[1..][i - 1];
    assert AllConvertible(db, table, columns) <==> AllConvertible(db, table, columns[1..]);
  }

  // ---------- the whole script ----------

  predicate IsCreate(command: string) {
    StartsWith(command, CREATE_TABLE)
  }

  /** What a command of the original script asks of the database. */
  predicate Ready(db: Database, command: string) {
    IsCreate(command) && TableName(command).Some? ==>
      AllConvertible(db, TableName(command).value, ColumnsOf(SplitOn(command, NEWLINE)))
  }

  lemma {:induction false} CommandConverted(db: Database, command: string)
    requires CommandsFor(command).Some?
    ensures var end := ExecAll(db, CommandsFor(command).value);
            && (end.Some? <==> Ready(db, command))
            && (end.Some? ==> SameData(db, end.value))
            && (end.Some? && IsCreate(command) ==>
                  TableName(command).Some?
                  && FinalTypes(db, end.value, TableName(command).value, ColumnsOf(SplitOn(command, NEWLINE))))
  {
    if IsCreate(command) {
      HeaderFirst(command);
      var lines := SplitOn(command, NEWLINE);
      LinesConverted(db, command, lines, TableName(command).value);
    } else {
      assert [Verbatim(command)][1..] == [];
      assert ExecAll(db, []) == Some(db);
    }
  }

  /**
   The commands that are meant, for any schema script that does not make the generator throw. They run to the end
   exactly when every column to be converted is there and no column is called like a text column plus "_tmp"; then
   every table has the columns it had, with the data they had.
   */
  lemma {:induction false} CommandsKeepData(db: Database, commands: seq<string>)
    requires Script(commands).Some?
    ensures var end := ExecAll(db, Script(commands).value);
            && (end.Some? <==> forall i :: 0 <= i < |commands| ==> Ready(db, commands[i]))
            && (end.Some? ==> SameData(db, end.value))
  {
    if commands != [] {
      var front, rest := CommandsFor(commands[0]).value, Script(commands[1..]).value;
      CommandConverted(db, commands[0]);
      ExecConcat(db, front, rest);
      if Ready(db, commands[0]) {
        var mid := ExecAll(db, front).value;
        CommandsKeepData(mid, commands[1..]);
        forall command
          ensures Ready(db, command) <==> Ready(mid, command)
        {
          if IsCreate(command) && TableName(command).Some? {
            SameDataConvertible(db, mid, TableName(command).value, ColumnsOf(SplitOn(command, NEWLINE)));
          }
        }
        ReadyAll(db, mid, commands);
      }
    }
  }

  lemma {:induction false} ReadyAll(db: Database, mid: Database, commands: seq<string>)
    requires commands != [] && Ready(db, commands[0])
    requires forall command :: Ready(db, command) <==> Ready(mid, command)
    ensures (forall i :: 0 <= i < |commands| ==> Ready(db, commands[i]))
            <==> (forall i :: 0 <= i < |commands[1..]| ==> Ready(mid, commands[1..][i]))
  {
    assert forall i :: 1 <= i < |commands| ==> commands[i] == commands[1..][i - 1];
  }


  /** Running a script statement by statement, each for what its text says. */
  function ExecTexts(db: Database, texts: seq<string>): Option<Database> {
    ExecAll(db, Meanings(texts))
  }

  /**
   The same of the text that the generator leaves, read word by word, for tables and columns whose names need no
   brackets.
   */
  lemma {:induction false} ScriptKeepsData(db: Database, commands: seq<string>)
    requires Emitted(commands).Some? && forall i :: 0 <= i < |commands| ==> NamesPlain(commands[i])
    ensures var end := ExecTexts(db, Emitted(commands).value);
            && (end.Some? <==> forall i :: 0 <= i < |commands| ==> Ready(db, commands[i]))
            && (end.Some? ==> SameData(db, end.value))
  {
    ScriptReadable(commands);
    CommandsKeepData(db, commands);
  }
}
