/** What the statements of a generated script say, read from their text word by word. */
module SchemaReading {
  import opened Text
  import opened SchemaConversion

  /** The text inside one pair of single quotes that `tail` follows; `None` if it is not so written. */
  function Quoted(word: string, tail: string): Option<string> {
    if |word| >= 2 + |tail| && word[0] == '\'' && word[|word| - |tail| - 1] == '\'' && EndsWith(word, tail)
       && '\'' !in word[1..|word| - |tail| - 1]
    then Some(word[1..|word| - |tail| - 1]) else None
  }

  /**
   A statement by its words: the table and column that are altered, the column that is set and the one it is set
   from, the old and the new name. Whatever else there is stands for itself.
   */
  function Meaning(text: string): Command {
    WordsMean(Split(text, ' '), text)
  }

  function WordsMean(w: seq<string>, text: string): Command {
    if |w| == 2 && w[0] == "hm_drop_table_objects" && Quoted(w[1], "").Some? then
      DropObjects(Quoted(w[1], "").value)
    else if |w| == 7 && w[0] == "ALTER" && w[1] == "TABLE" && w[3] == "ALTER" && w[4] == "COLUMN" then
      AlterColumn(w[2], w[5], w[6])
    else if |w| == 6 && w[0] == "ALTER" && w[1] == "TABLE" && w[3] == "ADD" && w[5] == "ntext" then
      AddText(w[2], w[4])
    else if |w| == 6 && w[0] == "ALTER" && w[1] == "TABLE" && w[3] == "DROP" && w[4] == "COLUMN" then
      DropColumn(w[2], w[5])
    else if |w| == 6 && w[0] == "UPDATE" && w[2] == "SET" && w[4] == "=" then
      CopyColumn(w[1], w[3], w[5])
    else if |w| == 4 && w[0] == "sp_rename" && w[3] == "'COLUMN'" && Quoted(w[1], ",").Some? && Quoted(w[2], ",").Some?
    then Renaming(Quoted(w[1], ",").value, Quoted(w[2], ",").value, text)
    else Verbatim(text)
  }

  /** The first name is a table and a column with a dot between them. */
  function Renaming(path: string, newName: string, text: string): Command {
    var parts := Split(path, '.');
    if |parts| == 2 then RenameColumn(parts[0], parts[1], newName) else Verbatim(text)
  }

  function Meanings(texts: seq<string>): (r: seq<Command>)
    ensures |r| == |texts| && forall i :: 0 <= i < |r| ==> r[i] == Meaning(texts[i])
  {
    seq(|texts|, i requires 0 <= i < |texts| => Meaning(texts[i]))
  }

  // ---------- every emitted statement says what is meant ----------

  /** A name that needs no brackets: no blank, no dot, no quote. */
  predicate IsName(s: string) {
    ' ' !in s && '.' !in s && '\'' !in s
  }

  /** The command can be read back from its text. */
  predicate IsReadable(c: Command) {
    match c
    case DropObjects(t) => IsName(t)
    case AlterColumn(t, n, y) => ' ' !in t && ' ' !in n && ' ' !in y
    case AddText(t, n) => ' ' !in t && ' ' !in n
    case CopyColumn(t, a, b) => ' ' !in t && ' ' !in a && ' ' !in b
    case DropColumn(t, n) => ' ' !in t && ' ' !in n
    case RenameColumn(t, n, m) => IsName(t) && IsName(n) && IsName(m)
    case Verbatim(text) => StartsWith(text, "create ") || StartsWith(text, "alter ")
  }

  /** Words, each with the blank that follows it. */
  function Phrase(words: seq<string>): string {
    if words == [] then "" else words[0] + " " + Phrase(words[1..])
  }

  ghost predicate AreWords(words: seq<string>) {
    forall i :: 0 <= i < |words| ==> ' ' !in words[i]
  }

  lemma {:induction false} Associate(a: string, b: string, c: string)
    ensures a + b + c == a + (b + c)
  {
  }

  /** What splitting at blanks does, and all that is needed of it. */
  ghost predicate IsSplitter(split: string -> seq<string>) {
    && (forall word :: ' ' !in word ==> split(word) == [word])
    && (forall word, rest :: ' ' !in word ==> split(word + " " + rest) == [word] + split(rest))
  }

  lemma {:induction false} SplitWord(word: string, rest: string)
    requires ' ' !in word
    ensures Split(word + " " + rest, ' ') == [word] + Split(rest, ' ')
    ensures Split(word, ' ') == [word]
  {
    SplitHead(word, ' ', rest);
    assert word + " " + rest == word + [' '] + rest;
    assert Find(word, ' ') == |word|;
  }

  lemma {:induction false} SplitsWords() returns (split: string -> seq<string>)
    ensures IsSplitter(split) && forall text :: split(text) == Split(text, ' ')
  {
    split := text => Split(text, ' ');
    forall word | ' ' !in word
      ensures split(word) == [word]
    {
      SplitWord(word, "");
    }
    forall word, rest | ' ' !in word
      ensures split(word + " " + rest) == [word] + split(rest)
    {
      SplitWord(word, rest);
    }
  }

  lemma {:induction false} SplitPhrase(split: string -> seq<string>, words: seq<string>, rest: string)
    requires IsSplitter(split) && AreWords(words)
    ensures split(Phrase(words) + rest) == words + split(rest)
  {
    if words == [] {
      assert Phrase(words) + rest == rest;
    } else {
      SplitPhrase(split, words[1..], rest);
      Associate(words[0] + " ", Phrase(words[1..]), rest);
      assert split(words[0] + " " + (Phrase(words[1..]) + rest)) == [words[0]] + split(Phrase(words[1..]) + rest);
      assert words + split(rest) == [words[0]] + (words[1..] + split(rest));
    }
  }

  /** A name, and behind it a blank and a phrase. */
  lemma {:induction false} SplitName(split: string -> seq<string>, name: string, words: seq<string>, rest: string)
    requires IsSplitter(split) && ' ' !in name && AreWords(words)
    ensures split(name + (" " + Phrase(words)) + rest) == [name] + (words + split(rest))
  {
    SplitPhrase(split, words, rest);
    Regroup(name, " ", Phrase(words), rest);
    assert split(name + " " + (Phrase(words) + rest)) == [name] + split(Phrase(words) + rest);
  }

  lemma {:induction false} Regroup(a: string, b: string, c: string, d: string)
    ensures a + (b + c) + d == a + b + (c + d)
  {
  }

  lemma {:induction false} Nest(a: string, b: string, c: string, d: string)
    ensures a + b + c + d == a + (b + c + d)
  {
  }

  /** The words of a text that is a phrase, a name, a phrase and a name. */
  lemma {:induction false} FourPieces(split: string -> seq<string>, first: seq<string>, name: string,
                                      second: seq<string>, last: string)
    requires IsSplitter(split) && AreWords(first) && ' ' !in name && AreWords(second) && ' ' !in last
    ensures split(Phrase(first) + name + (" " + Phrase(second)) + last) == first + ([name] + (second + [last]))
  {
    SplitName(split, name, second, last);
    Nest(Phrase(first), name, " " + Phrase(second), last);
    SplitPhrase(split, first, name + (" " + Phrase(second)) + last);
  }

  lemma {:induction false} SixPieces(split: string -> seq<string>, first: seq<string>, name: string,
                                     second: seq<string>, other: string, third: seq<string>, last: string)
    requires IsSplitter(split) && AreWords(first) && AreWords(second) && AreWords(third)
    requires ' ' !in name && ' ' !in other && ' ' !in last
    ensures split(Phrase(first) + name + (" " + Phrase(second)) + other + (" " + Phrase(third)) + last)
            == first + ([name] + (second + ([other] + (third + [last]))))
  {
    var tail := other + (" " + Phrase(third)) + last;
    SplitName(split, other, third, last);
    SplitName(split, name, second, tail);
    Nest(Phrase(first) + name + (" " + Phrase(second)), other, " " + Phrase(third), last);
    Nest(Phrase(first), name, " " + Phrase(second), tail);
    SplitPhrase(split, first, name + (" " + Phrase(second)) + tail);
  }

  lemma {:induction false} Phrases()
    ensures Phrase([]) == "" && Phrase(["ALTER", "TABLE"]) == "ALTER TABLE " && Phrase(["UPDATE"]) == "UPDATE "
    ensures Phrase(["ALTER", "COLUMN"]) == "ALTER COLUMN " && Phrase(["DROP", "COLUMN"]) == "DROP COLUMN "
    ensures Phrase(["ADD"]) == "ADD " && Phrase(["SET"]) == "SET " && Phrase(["="]) == "= "
    ensures AreWords(["ALTER", "TABLE"]) && AreWords(["UPDATE"]) && AreWords(["ALTER", "COLUMN"])
    ensures AreWords(["DROP", "COLUMN"]) && AreWords(["ADD"]) && AreWords(["SET"]) && AreWords(["="])
  {
    OnePhrase("UPDATE");
    OnePhrase("ADD");
    OnePhrase("SET");
    OnePhrase("=");
    TwoPhrase("ALTER", "TABLE");
    TwoPhrase("ALTER", "COLUMN");
    TwoPhrase("DROP", "COLUMN");
  }

  lemma {:induction false} OnePhrase(a: string)
    ensures Phrase([a]) == a + " "
  {
    assert [a][1..] == [];
    assert a + " " + "" == a + " ";
  }

  lemma {:induction false} TwoPhrase(a: string, b: string)
    ensures Phrase([a, b]) == a + " " + (b + " ")
  {
    assert [a, b][1..] == [b];
    OnePhrase(b);
  }

  // The same of `Split`.

  lemma {:induction false} FourWords(first: seq<string>, name: string, second: seq<string>, last: string)
    requires AreWords(first) && ' ' !in name && AreWords(second) && ' ' !in last
    ensures Split(Phrase(first) + name + (" " + Phrase(second)) + last, ' ') == first + ([name] + (second + [last]))
  {
    var split := SplitsWords();
    FourPieces(split, first, name, second, last);
  }

  lemma {:induction false} SixWords(first: seq<string>, name: string, second: seq<string>, other: string,
                                    third: seq<string>, last: string)
    requires AreWords(first) && AreWords(second) && AreWords(third)
    requires ' ' !in name && ' ' !in other && ' ' !in last
    ensures Split(Phrase(first) + name + (" " + Phrase(second)) + other + (" " + Phrase(third)) + last, ' ')
            == first + ([name] + (second + ([other] + (third + [last]))))
  {
    var split := SplitsWords();
    SixPieces(split, first, name, second, other, third, last);
  }

  lemma {:induction false} TwoWords(verb: string, q: string, t: string)
    requires ' ' !in verb && ' ' !in q && ' ' !in t
    ensures Split((verb + " " + q) + t + q, ' ') == [verb, q + t + q]
  {
    var split := SplitsWords();
    Associate(verb + " ", q, t);
    Associate(verb + " ", q + t, q);
    assert split(verb + " " + (q + t + q)) == [verb] + split(q + t + q);
  }

  lemma {:induction false} RenameWords(verb: string, q: string, path: string, end: string, newName: string,
                                       last: string)
    requires ' ' !in verb && ' ' !in q && ' ' !in path && ' ' !in end && ' ' !in newName && ' ' !in last
    ensures Split((verb + " " + q) + path + (end + " " + q) + newName + (end + " " + last), ' ')
            == [verb, q + path + end, q + newName + end, last]
  {
    var split := SplitsWords();
    RenamePieces(split, verb, q, path, end, newName, last);
  }

  /** The two quoted names, each a word. */
  lemma {:induction false} RenamePieces(split: string -> seq<string>, verb: string, q: string, path: string,
                                        end: string, newName: string, last: string)
    requires IsSplitter(split)
    requires ' ' !in verb && ' ' !in q && ' ' !in path && ' ' !in end && ' ' !in newName && ' ' !in last
    ensures split((verb + " " + q) + path + (end + " " + q) + newName + (end + " " + last))
            == [verb, q + path + end, q + newName + end, last]
  {
    var w1, w2 := q + path + end, q + newName + end;
    RenameHead(verb, " ", q, path, end);
    RenameTail(verb + " ", w1 + " ", q, newName, end, " ", last);
    assert split(w2 + " " + last) == [w2] + split(last);
    assert split(w1 + " " + (w2 + " " + last)) == [w1] + split(w2 + " " + last);
    assert split(verb + " " + (w1 + " " + (w2 + " " + last))) == [verb] + split(w1 + " " + (w2 + " " + last));
    assert [verb] + ([w1] + ([w2] + [last])) == [verb, w1, w2, last];
  }

  lemma {:induction false} RenameHead(verb: string, blank: string, q: string, path: string, end: string)
    ensures (verb + blank + q) + path + (end + blank + q) == verb + blank + (q + path + end + blank + q)
  {
  }

  lemma {:induction false} RenameTail(a: string, b: string, q: string, m: string, end: string, blank: string,
                                      last: string)
    ensures a + (b + q) + m + (end + blank + last) == a + (b + (q + m + end + blank + last))
  {
  }

  // ---------- statement by statement ----------

  lemma {:induction false} ReadsDropObjects(t: string)
    requires IsName(t)
    ensures Meaning(Render(DropObjects(t))) == DropObjects(t)
  {
    var verb, word := "hm_drop_table_objects", "'" + t + "'";
    assert verb + " " + "'" == "hm_drop_table_objects '";
    TwoWords(verb, "'", t);
    QuotedEnds(t);
  }

  lemma {:induction false} QuotedEnds(s: string)
    requires '\'' !in s
    ensures Quoted("'" + s + "'", "") == Some(s)
  {
    var w := "'" + s + "'";
    assert w[1..|w| - 1] == s && w[|w|..] == "";
  }

  lemma {:induction false} ReadsAlter(t: string, n: string, y: string)
    requires ' ' !in t && ' ' !in n && ' ' !in y
    ensures Meaning(Render(AlterColumn(t, n, y))) == AlterColumn(t, n, y)
  {
    Phrases();
    SixWords(["ALTER", "TABLE"], t, ["ALTER", "COLUMN"], n, [], y);
    assert " " + Phrase(["ALTER", "COLUMN"]) == " ALTER COLUMN " && " " + Phrase([]) == " ";
    Seven("ALTER", "TABLE", t, "ALTER", "COLUMN", n, y);
    AlterMeans(t, n, y, Render(AlterColumn(t, n, y)));
  }

  lemma {:induction false} Seven(a: string, b: string, c: string, d: string, e: string, f: string, g: string)
    ensures [a, b] + ([c] + ([d, e] + ([f] + ([] + [g])))) == [a, b, c, d, e, f, g]
  {
  }

  lemma {:induction false} AlterMeans(t: string, n: string, y: string, text: string)
    ensures WordsMean(["ALTER", "TABLE", t, "ALTER", "COLUMN", n, y], text) == AlterColumn(t, n, y)
  {
  }

  lemma {:induction false} ReadsAdd(t: string, n: string)
    requires ' ' !in t && ' ' !in n
    ensures Meaning(Render(AddText(t, n))) == AddText(t, n)
  {
    Phrases();
    SixWords(["ALTER", "TABLE"], t, ["ADD"], n, [], "ntext");
    assert " " + Phrase(["ADD"]) == " ADD " && " " + Phrase([]) == " ";
    Associate("ALTER TABLE " + t + " ADD " + n, " ", "ntext");
    assert " " + "ntext" == " ntext";
    SixWithOne("ALTER", "TABLE", t, "ADD", n, "ntext");
    AddMeans(t, n, Render(AddText(t, n)));
  }

  lemma {:induction false} SixWithOne(a: string, b: string, c: string, d: string, e: string, f: string)
    ensures [a, b] + ([c] + ([d] + ([e] + ([] + [f])))) == [a, b, c, d, e, f]
  {
  }

  lemma {:induction false} AddMeans(t: string, n: string, text: string)
    ensures WordsMean(["ALTER", "TABLE", t, "ADD", n, "ntext"], text) == AddText(t, n)
  {
  }

  lemma {:induction false} ReadsDrop(t: string, n: string)
    requires ' ' !in t && ' ' !in n
    ensures Meaning(Render(DropColumn(t, n))) == DropColumn(t, n)
  {
    Phrases();
    FourWords(["ALTER", "TABLE"], t, ["DROP", "COLUMN"], n);
    assert " " + Phrase(["DROP", "COLUMN"]) == " DROP COLUMN ";
    SixWithTwo("ALTER", "TABLE", t, "DROP", "COLUMN", n);
    DropMeans(t, n, Render(DropColumn(t, n)));
  }

  lemma {:induction false} SixWithTwo(a: string, b: string, c: string, d: string, e: string, f: string)
    ensures [a, b] + ([c] + ([d, e] + [f])) == [a, b, c, d, e, f]
  {
  }

  lemma {:induction false} DropMeans(t: string, n: string, text: string)
    ensures WordsMean(["ALTER", "TABLE", t, "DROP", "COLUMN", n], text) == DropColumn(t, n)
  {
  }

  lemma {:induction false} ReadsCopy(t: string, a: string, b: string)
    requires ' ' !in t && ' ' !in a && ' ' !in b
    ensures Meaning(Render(CopyColumn(t, a, b))) == CopyColumn(t, a, b)
  {
    Phrases();
    SixWords(["UPDATE"], t, ["SET"], a, ["="], b);
    assert " " + Phrase(["SET"]) == " SET " && " " + Phrase(["="]) == " = ";
    assert ["UPDATE"] + ([t] + (["SET"] + ([a] + (["="] + [b])))) == ["UPDATE", t, "SET", a, "=", b];
    CopyMeans(t, a, b, Render(CopyColumn(t, a, b)));
  }

  lemma {:induction false} CopyMeans(t: string, a: string, b: string, text: string)
    ensures WordsMean(["UPDATE", t, "SET", a, "=", b], text) == CopyColumn(t, a, b)
  {
  }

  lemma {:induction false} ReadsRename(t: string, n: string, m: string)
    requires IsName(t) && IsName(n) && IsName(m)
    ensures Meaning(Render(RenameColumn(t, n, m))) == RenameColumn(t, n, m)
  {
    var path, text := t + "." + n, Render(RenameColumn(t, n, m));
    RenameWords("sp_rename", "'", path, "',", m, "'COLUMN'");
    RenameRendered(t, n, m);
    RenameMeans(t, n, m, text);
  }

  lemma {:induction false} RenameRendered(t: string, n: string, m: string)
    ensures Render(RenameColumn(t, n, m))
            == ("sp_rename" + " " + "'") + (t + "." + n) + ("'," + " " + "'") + m + ("'," + " " + "'COLUMN'")
  {
    RenameText("sp_rename '", t, ".", n, "', '", m, "', 'COLUMN'");
    assert "sp_rename" + " " + "'" == "sp_rename '" && "'," + " " + "'" == "', '";
    assert "'," + " " + "'COLUMN'" == "', 'COLUMN'";
  }

  lemma {:induction false} RenameText(a: string, t: string, dot: string, n: string, b: string, m: string, c: string)
    ensures a + t + dot + n + b + m + c == a + (t + dot + n) + b + m + c
  {
    Nest(a, t, dot, n);
  }

  lemma {:induction false} RenameMeans(t: string, n: string, m: string, text: string)
    requires IsName(t) && IsName(n) && IsName(m)
    ensures WordsMean(["sp_rename", "'" + (t + "." + n) + "',", "'" + m + "',", "'COLUMN'"], text)
            == RenameColumn(t, n, m)
  {
    var path := t + "." + n;
    QuotedIs(path);
    QuotedIs(m);
    SplitDot(t, n);
  }

  lemma {:induction false} SplitDot(t: string, n: string)
    requires '.' !in t && '.' !in n
    ensures Split(t + "." + n, '.') == [t, n]
  {
    SplitHead(t, '.', n);
    assert t + "." + n == t + ['.'] + n && Find(n, '.') == |n|;
  }

  lemma {:induction false} QuotedIs(s: string)
    requires '\'' !in s
    ensures Quoted("'" + s + "',", ",") == Some(s)
  {
    var w := "'" + s + "',";
    assert w[|w| - 1..] == "," && w[1..|w| - 2] == s;
  }

  lemma {:induction false} ReadsVerbatim(text: string)
    requires StartsWith(text, "create ") || StartsWith(text, "alter ")
    ensures Meaning(text) == Verbatim(text)
  {
    if StartsWith(text, "create ") {
      FirstWord("create", text);
    } else {
      FirstWord("alter", text);
    }
    OtherWordsMean(Split(text, ' '), text);
  }

  lemma {:induction false} FirstWord(word: string, text: string)
    requires ' ' !in word && StartsWith(text, word + " ")
    ensures Split(text, ' ')[0] == word
  {
    var rest := text[|word| + 1..];
    assert text == word + " " + rest;
    SplitWord(word, rest);
  }

  lemma {:induction false} OtherWordsMean(w: seq<string>, text: string)
    requires w != [] && (w[0] == "create" || w[0] == "alter")
    ensures WordsMean(w, text) == Verbatim(text)
  {
  }

  /** Every readable command is read back from its text. */
  lemma {:induction false} ReadsBack(c: Command)
    requires IsReadable(c)
    ensures Meaning(Render(c)) == c
  {
    match c
    case DropObjects(t) => ReadsDropObjects(t);
    case AlterColumn(t, n, y) => ReadsAlter(t, n, y);
    case AddText(t, n) => ReadsAdd(t, n);
    case CopyColumn(t, a, b) => ReadsCopy(t, a, b);
    case DropColumn(t, n) => ReadsDrop(t, n);
    case RenameColumn(t, n, m) => ReadsRename(t, n, m);
    case Verbatim(text) => ReadsVerbatim(text);
  }

  lemma {:induction false} ReadsAllBack(commands: seq<Command>)
    requires forall i :: 0 <= i < |commands| ==> IsReadable(commands[i])
    ensures Meanings(RenderAll(commands)) == commands
  {
    forall i | 0 <= i < |commands|
      ensures Meaning(Render(commands[i])) == commands[i]
    {
      ReadsBack(commands[i]);
    }
  }


  // ---------- the whole script ----------

  /** The table of the command, and the columns it is to convert, have names that need no brackets. */
  predicate NamesPlain(command: string) {
    StartsWith(command, CREATE_TABLE) && TableName(command).Some? ==>
      IsName(TableName(command).value) && AllNamesPlain(SplitOn(command, NEWLINE))
  }

  predicate AllNamesPlain(lines: seq<string>) {
    forall i :: 0 <= i < |lines| ==> NamePlain(ColumnOf(Unindented(lines[i])))
  }

  predicate NamePlain(c: Column) {
    c.IsVarchar() || c.IsText() ==> IsName(c.name)
  }

  predicate AllReadable(commands: seq<Command>) {
    forall i :: 0 <= i < |commands| ==> IsReadable(commands[i])
  }

  lemma {:induction false} ColumnReadable(table: string, line: string)
    requires IsName(table) && NamePlain(ColumnOf(line))
    ensures AllReadable(ColumnCommands(table, ColumnOf(line)))
  {
    JoinSplit(line, ' ');
  }

  lemma {:induction false} LinesReadable(command: string, lines: seq<string>, table: string)
    requires TableName(command) == Some(table) && IsName(table) && AllNamesPlain(lines)
    ensures TableCommands(command, lines, table).Some? && AllReadable(TableCommands(command, lines, table).value)
    decreases |lines|
  {
    if lines != [] {
      LinesReadable(command, lines[1..], table);
      if !StartsWith(Unindented(lines[0]), CREATE_TABLE) {
        ColumnReadable(table, Unindented(lines[0]));
      }
    }
  }

  lemma {:induction false} CommandReadable(command: string)
    requires CommandsFor(command).Some? && NamesPlain(command)
    ensures AllReadable(CommandsFor(command).value)
  {
    if StartsWith(command, CREATE_TABLE) {
      HeaderFirst(command);
      LinesReadable(command, SplitOn(command, NEWLINE), TableName(command).value);
    } else if StartsWith(command, "alter table") {
      assert command[..6] == "alter table"[..6] == "alter ";
    } else if StartsWith(command, "create index") {
      assert command[..7] == "create index"[..7] == "create ";
    } else if StartsWith(command, "create clustered index") {
      assert command[..7] == "create clustered index"[..7] == "create ";
    }
  }

  /** Reading the script that comes out gives the commands that were meant. */
  lemma {:induction false} ScriptReadable(commands: seq<string>)
    requires Script(commands).Some? && forall i :: 0 <= i < |commands| ==> NamesPlain(commands[i])
    ensures AllReadable(Script(commands).value)
    ensures Emitted(commands).Some? && Meanings(Emitted(commands).value) == Script(commands).value
  {
    if commands != [] {
      CommandReadable(commands[0]);
      ScriptReadable(commands[1..]);
    }
    ReadsAllBack(Script(commands).value);
  }
}
