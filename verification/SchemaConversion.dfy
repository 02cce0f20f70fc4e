/** The generator that turns a schema script into a script converting text columns to Unicode types. */
module SchemaConversion {
  import opened Text

  const NEWLINE := "\r\n"
  const CREATE_TABLE := "create table"

  // ---------- text ----------

  /** The first occurrence of `part` at or after `from`, or -1. */
  function IndexOf(s: string, part: string, from: nat): (i: int)
    requires from <= |s|
    ensures i == -1 || (from <= i <= |s| && StartsWith(s[i..], part))
    ensures forall j :: from <= j < (if i == -1 then |s| + 1 else i) ==> !StartsWith(s[j..], part)
    decreases |s| - from
  {
    if StartsWith(s[from..], part) then from
    else if from == |s| then -1
    else IndexOf(s, part, from + 1)
  }

  /** Splitting at every occurrence of a separator. */
  function SplitOn(s: string, sep: string): seq<string>
    requires sep != ""
    decreases |s|
  {
    var i := IndexOf(s, sep, 0);
    if i < 0 then [s]
    else
      assert |sep| <= |s[i..]|;
      [s[..i]] + SplitOn(s[i + |sep|..], sep)
  }

  predicate IsIndent(c: char) {
    c == ' ' || c == '\t'
  }

  // ---------- generating ----------

  datatype Command =
    | DropObjects(table: string)
    | AlterColumn(table: string, column: string, columnType: string)
    | AddText(table: string, column: string)
    | CopyColumn(table: string, target: string, source: string)
    | DropColumn(table: string, column: string)
    | RenameColumn(table: string, column: string, newName: string)
    | Verbatim(text: string)

  function Render(c: Command): string {
    match c
    case DropObjects(t) => "hm_drop_table_objects '" + t + "'"
    case AlterColumn(t, n, y) => "ALTER TABLE " + t + " ALTER COLUMN " + n + " " + y
    case AddText(t, n) => "ALTER TABLE " + t + " ADD " + n + " ntext"
    case CopyColumn(t, a, b) => "UPDATE " + t + " SET " + a + " = " + b
    case DropColumn(t, n) => "ALTER TABLE " + t + " DROP COLUMN " + n
    case RenameColumn(t, n, m) => "sp_rename '" + t + "." + n + "', '" + m + "', 'COLUMN'"
    case Verbatim(text) => text
  }

  function RenderAll(commands: seq<Command>): (r: seq<string>)
    ensures |r| == |commands| && forall i :: 0 <= i < |r| ==> r[i] == Render(commands[i])
  {
    seq(|commands|, i requires 0 <= i < |commands| => Render(commands[i]))
  }

  lemma {:induction false} RenderConcat(a: seq<Command>, b: seq<Command>)
    ensures RenderAll(a + b) == RenderAll(a) + RenderAll(b)
  {
  }

  function Temporary(column: string): string {
    column + "_tmp"
  }

  /** The name between `create table ` and the next blank or line end; `None` where the extraction throws. */
  function TableName(command: string): Option<string> {
    var start := IndexOf(command, CREATE_TABLE, 0) + |CREATE_TABLE| + 1;
    if start + 1 > |command| then None
    else
      var e1, e2 := IndexOf(command, " ", start + 1), IndexOf(command, NEWLINE, start + 1);
      var end := if e1 < e2 then e1 else e2;
      if end < start || end > |command| then None else Some(command[start..end])
  }

  /** A line that is not a header, read as a column name and a type. */
  datatype Column = NoColumn | Column(name: string, columnType: string) {
    predicate IsVarchar() {
      Column? && StartsWith(columnType, "nvarchar")
    }

    predicate IsText() {
      Column? && StartsWith(columnType, "ntext")
    }
  }

  function ColumnOf(line: string): Column {
    var words := Split(line, ' ');
    if |words| < 2 then NoColumn else Column(words[0], words[1])
  }

  /** A text column is converted by way of a temporary column. */
  function ColumnCommands(table: string, c: Column): seq<Command> {
    if c.IsVarchar() then [AlterColumn(table, c.name, c.columnType)]
    else if c.IsText() then
      [AddText(table, Temporary(c.name)), CopyColumn(table, Temporary(c.name), c.name),
       DropColumn(table, c.name), RenameColumn(table, Temporary(c.name), c.name)]
    else []
  }

  function Unindented(line: string): string {
    TrimStart(IsIndent, line)
  }

  /** The commands for one line, and the table name after it; `None` where the generator throws. */
  function LineCommands(command: string, line: string, table: string): Option<(seq<Command>, string)> {
    if StartsWith(line, CREATE_TABLE) then
      match TableName(command)
      case None => None
      case Some(name) => Some(([DropObjects(name)], name))
    else Some((ColumnCommands(table, ColumnOf(line)), table))
  }

  /** The commands for the remaining lines of a table, the name read so far being `table`. */
  function TableCommands(command: string, lines: seq<string>, table: string): Option<seq<Command>>
    decreases |lines|
  {
    if lines == [] then Some([])
    else
      match LineCommands(command, Unindented(lines[0]), table)
      case None => None
      case Some((front, name)) => Prepend(front, TableCommands(command, lines[1..], name))
  }

  function Prepend(front: seq<Command>, rest: Option<seq<Command>>): Option<seq<Command>> {
    if rest.None? then None else Some(front + rest.value)
  }

  function CommandsFor(command: string): Option<seq<Command>> {
    if StartsWith(command, "if") then Some([])
    else if StartsWith(command, CREATE_TABLE) then TableCommands(command, SplitOn(command, NEWLINE), "")
    else if StartsWith(command, "create index") || StartsWith(command, "create clustered index")
         || StartsWith(command, "alter table") then Some([Verbatim(command)])
    else Some([])
  }

  function Script(commands: seq<string>): Option<seq<Command>> {
    if commands == [] then Some([])
    else
      match CommandsFor(commands[0])
      case None => None
      case Some(front) => Prepend(front, Script(commands[1..]))
  }

  /** The texts of the script that comes out; `None` where the generator throws. */
  function Emitted(commands: seq<string>): Option<seq<string>> {
    match Script(commands)
    case None => None
    case Some(meant) => Some(RenderAll(meant))
  }

  /** The generator. `ok` is false where it throws, and then no script is written. */
  class Parser {
    var outCommands: seq<string>

    constructor ()
      ensures outCommands == []
    {
      outCommands := [];
    }

    /** The text of the commands for one column, as the generator writes it. */
    method ColumnTexts(table: string, c: Column) returns (texts: seq<string>)
      ensures texts == RenderAll(ColumnCommands(table, c))
    {
      if c.IsVarchar() {
        return ["ALTER TABLE " + table + " ALTER COLUMN " + c.name + " " + c.columnType];
      }
      if c.IsText() {
        var add := "ALTER TABLE " + table + " ADD " + c.name + "_tmp ntext";
        assert add == Render(AddText(table, Temporary(c.name)));
        var copy := "UPDATE " + table + " SET " + c.name + "_tmp = " + c.name;
        assert copy == Render(CopyColumn(table, Temporary(c.name), c.name));
        var drop := "ALTER TABLE " + table + " DROP COLUMN " + c.name;
        var rename := "sp_rename '" + table + "." + c.name + "_tmp', '" + c.name + "', 'COLUMN'";
        assert rename == Render(RenameColumn(table, Temporary(c.name), c.name));
        return [add, copy, drop, rename];
      }
      return [];
    }

    method ParseLine(command: string, line: string, table: string) returns (ok: bool, texts: seq<string>, name: string)
      ensures var r := LineCommands(command, line, table);
              ok == r.Some? && (ok ==> texts == RenderAll(r.value.0) && name == r.value.1)
    {
      ok, texts, name := true, [], table;
      if StartsWith(line, CREATE_TABLE) {
        var found := TableName(command);
        if found.None? {
          ok := false;
          return;
        }
        name := found.value;
        texts := ["hm_drop_table_objects '" + name + "'"];
      } else {
        texts := ColumnTexts(table, ColumnOf(line));
      }
    }

    method ParseCreateTable(command: string) returns (ok: bool)
      modifies this
      ensures var r := TableCommands(command, SplitOn(command, NEWLINE), "");
              ok == r.Some? && (ok ==> outCommands == old(outCommands) + RenderAll(r.value))
    {
      var lines := SplitOn(command, NEWLINE);
      var tableName := "";
      ghost var goal := TableCommands(command, lines, tableName);
      ghost var done := [];
      var i := 0;
      assert lines[0..] == lines;
      PrependNothing(goal);
      while i < |lines|
        invariant 0 <= i <= |lines|
        invariant outCommands == old(outCommands) + RenderAll(done)
        invariant goal == Prepend(done, TableCommands(command, lines[i..], tableName))
      {
        ghost var rest := lines[i..];
        assert rest[0] == lines[i] && rest[1..] == lines[i + 1..];
        var texts, name;
        ok, texts, name := ParseLine(command, Unindented(lines[i]), tableName);
        if !ok {
          return;
        }
        ghost var added := LineCommands(command, Unindented(rest[0]), tableName).value.0;
        Associate(old(outCommands), RenderAll(done), texts);
        outCommands := outCommands + texts;
        RenderConcat(done, added);
        PrependTwice(done, added, TableCommands(command, rest[1..], name));
        done := done + added;
        tableName := name;
        i := i + 1;
      }
      ok := true;
      assert done + [] == done;
    }

    method ExtractCommand(command: string) returns (ok: bool)
      modifies this
      ensures var r := CommandsFor(command);
              ok == r.Some? && (ok ==> outCommands == old(outCommands) + RenderAll(r.value))
    {
      ok := true;
      if StartsWith(command, "if") {
        return;
      }
      if StartsWith(command, CREATE_TABLE) {
        ok := ParseCreateTable(command);
        return;
      }
      if StartsWith(command, "create index") || StartsWith(command, "create clustered index")
         || StartsWith(command, "alter table") {
        outCommands := outCommands + [command];
        assert [command] == RenderAll([Verbatim(command)]);
      }
    }

    /** The script is lower-cased and cut at blank lines; the commands come out in the order of the script. */
    method Run(fold: CaseMap, text: string) returns (ok: bool)
      modifies this
      ensures var r := Emitted(SplitOn(Fold(fold, text), NEWLINE + NEWLINE));
              ok == r.Some? && (ok ==> outCommands == r.value)
    {
      outCommands := [];
      ghost var done := [];
      var commands := SplitOn(Fold(fold, text), NEWLINE + NEWLINE);
      ghost var goal := Script(commands);
      var i := 0;
      assert commands[0..] == commands;
      PrependNothing(goal);
      while i < |commands|
        invariant 0 <= i <= |commands|
        invariant outCommands == RenderAll(done)
        invariant goal == Prepend(done, Script(commands[i..]))
      {
        ghost var rest := commands[i..];
        assert rest[0] == commands[i] && rest[1..] == commands[i + 1..];
        ok := ExtractCommand(commands[i]);
        if !ok {
          return;
        }
        ghost var added := CommandsFor(rest[0]).value;
        PrependTwice(done, added, Script(rest[1..]));
        RenderConcat(done, added);
        done := done + added;
        i := i + 1;
      }
      ok := true;
      assert done + [] == done;
    }
  }

  lemma {:induction false} Associate(a: seq<string>, b: seq<string>, c: seq<string>)
    ensures a + b + c == a + (b + c)
  {
  }

  lemma {:induction false} PrependNothing(rest: Option<seq<Command>>)
    ensures Prepend([], rest) == rest
  {
    if rest.Some? {
      assert [] + rest.value == rest.value;
    }
  }

  lemma {:induction false} PrependTwice(a: seq<Command>, b: seq<Command>, rest: Option<seq<Command>>)
    ensures Prepend(a, Prepend(b, rest)) == Prepend(a + b, rest)
  {
    if rest.Some? {
      assert a + (b + rest.value) == a + b + rest.value;
    }
  }

  /** The first line of a create-table command is its header. */
  lemma {:induction false} HeaderFirst(command: string)
    requires StartsWith(command, CREATE_TABLE)
    ensures SplitOn(command, NEWLINE) != []
    ensures StartsWith(Unindented(SplitOn(command, NEWLINE)[0]), CREATE_TABLE)
    ensures !StartsWith(command, "if")
  {
    var i := IndexOf(command, NEWLINE, 0);
    assert forall k :: 0 <= k < |CREATE_TABLE| ==> command[k] == CREATE_TABLE[k];
    if i >= 0 {
      assert NEWLINE[0] == '\r' && command[i..][0] == '\r';
      assert command[i] == '\r';
      assert forall k :: 0 <= k < |CREATE_TABLE| ==> CREATE_TABLE[k] != '\r';
      assert i >= |CREATE_TABLE|;
    }
    var first := SplitOn(command, NEWLINE)[0];
    assert first == if i < 0 then command else command[..i];
    assert first[0] == CREATE_TABLE[0] == 'c';
    assert CREATE_TABLE <= first;
  }

  // ---------- what is read from the script ----------

  predicate Occurs(s: string, part: string) {
    exists i :: 0 <= i <= |s| && StartsWith(s[i..], part)
  }

  /** Looking behind `front` is looking in `back`. */
  lemma {:induction false} IndexBehind(front: string, back: string, part: string, from: nat)
    requires from <= |front| && part != ""
    requires forall j :: from <= j < |front| ==> !StartsWith((front + back)[j..], part)
    ensures IndexOf(front + back, part, from)
            == if Occurs(back, part) then |front| + IndexOf(back, part, 0) else -1
    ensures Occurs(back, part) ==> IndexOf(back, part, 0) >= 0
  {
    var s := front + back;
    assert forall j :: 0 <= j <= |back| ==> s[|front| + j..] == back[j..];
    var i := IndexOf(s, part, from);
    if i >= 0 {
      assert back[i - |front|..] == s[i..];
    }
  }

  lemma {:induction false} NotAt(s: string, j: nat)
    requires j < |s| && s[j] != ' ' && s[j] != '\r'
    ensures !StartsWith(s[j..], " ") && !StartsWith(s[j..], NEWLINE)
  {
    assert s[j..][0] == s[j] && NEWLINE[0] == '\r';
  }

  /**
   The table of a header is the name between `create table ` and the next blank or line end. Both must follow it
   somewhere; otherwise the generator throws.
   */
  lemma {:induction false} TableNameIs(name: string, tail: string)
    requires name != "" && ' ' !in name && '\r' !in name
    requires tail == "" || StartsWith(tail, " ") || StartsWith(tail, "\r\n")
    ensures TableName("create table " + name + tail)
            == if Occurs(tail, " ") && Occurs(tail, "\r\n") then Some(name) else None
  {
    var front := "create table " + name;
    var command := front + tail;
    assert command[0..] == command && command[..12] == CREATE_TABLE;
    assert IndexOf(command, CREATE_TABLE, 0) == 0;
    forall j | 14 <= j < |front|
      ensures !StartsWith(command[j..], " ") && !StartsWith(command[j..], NEWLINE)
    {
      assert command[j] == name[j - 13];
      NotAt(command, j);
    }
    IndexBehind(front, tail, " ", 14);
    IndexBehind(front, tail, NEWLINE, 14);
    assert command[13..|front|] == name;
    if StartsWith(tail, " ") {
      assert tail[0..] == tail && IndexOf(tail, " ", 0) == 0;
    } else if StartsWith(tail, NEWLINE) {
      assert tail[0..] == tail && IndexOf(tail, NEWLINE, 0) == 0;
    }
  }

  /** A column is the first two words of its line, indented by blanks or tabs; the rest of the line does not matter. */
  lemma {:induction false} ColumnIs(indent: string, name: string, columnType: string, rest: string)
    requires forall i :: 0 <= i < |indent| ==> indent[i] == ' ' || indent[i] == '\t'
    requires name != "" && ' ' !in name && name[0] != '\t' && ' ' !in columnType
    ensures ColumnOf(Unindented(indent + (name + [' '] + (columnType + [' '] + rest)))) == Column(name, columnType)
    ensures ColumnOf(Unindented(indent + (name + [' '] + columnType))) == Column(name, columnType)
    ensures ColumnOf(Unindented(indent + name)) == NoColumn
  {
    var long, short := name + [' '] + (columnType + [' '] + rest), name + [' '] + columnType;
    assert long[0] == name[0] && short[0] == name[0];
    TrimStartIs(IsIndent, indent, long);
    TrimStartIs(IsIndent, indent, short);
    TrimStartIs(IsIndent, indent, name);
    FirstWords(name, columnType, rest);
  }

  lemma {:induction false} FirstWords(name: string, columnType: string, rest: string)
    requires ' ' !in name && ' ' !in columnType
    ensures ColumnOf(name + [' '] + (columnType + [' '] + rest)) == Column(name, columnType)
    ensures ColumnOf(name + [' '] + columnType) == Column(name, columnType) && ColumnOf(name) == NoColumn
  {
    SplitHead(name, ' ', columnType + [' '] + rest);
    SplitHead(columnType, ' ', rest);
    SplitHead(name, ' ', columnType);
    assert Find(columnType, ' ') == |columnType| && Find(name, ' ') == |name|;
  }

  /** The script is cut at its separators: what comes before the first one is the first command. */
  lemma {:induction false} SplitOnHead(s: string, sep: string, rest: string)
    requires sep != "" && forall j :: 0 <= j < |s| ==> !StartsWith((s + sep + rest)[j..], sep)
    ensures SplitOn(s + sep + rest, sep) == [s] + SplitOn(rest, sep)
  {
    var text := s + sep + rest;
    assert text[|s|..] == sep + rest;
    assert IndexOf(text, sep, 0) == |s|;
    assert text[..|s|] == s && text[|s| + |sep|..] == rest;
  }

  lemma {:induction false} SplitOnNone(s: string, sep: string)
    requires sep != "" && !Occurs(s, sep)
    ensures SplitOn(s, sep) == [s]
  {
  }

  /** Commands that make no table are passed on as they are if they create an index or alter a table, or left out. */
  lemma {:induction false} OtherCommands(command: string)
    requires !("create table" <= command)
    ensures CommandsFor(command)
            == if "create index" <= command || "create clustered index" <= command || "alter table" <= command
               then Some([Verbatim(command)]) else Some([])
  {
    assert StartsWith(command, "if") ==> command[0] == 'i';
    assert "create index"[0] == 'c' && "create clustered index"[0] == 'c' && "alter table"[0] == 'a';
  }

  /** A table comes out with the procedure that drops what depends on it in front. */
  lemma {:induction false} TableFirst(command: string)
    requires StartsWith(command, CREATE_TABLE) && CommandsFor(command).Some?
    ensures TableName(command).Some? && CommandsFor(command).value != []
    ensures RenderAll(CommandsFor(command).value)[0] == "hm_drop_table_objects '" + TableName(command).value + "'"
  {
    HeaderFirst(command);
  }
}
