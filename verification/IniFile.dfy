/** The profile editor itself: its loops over the lines, and what a call does to its files. */
module IniFile {
  import opened Text
  import opened Blocks
  import opened Sections
  import opened IniLines
  import opened IniText

  // ---------- one call on one file ----------

  /** The file after a request; the editor rewrites it only when the request changes a line. */
  function FileAfter(fold: CaseMap, codec: Codec, file: Option<seq<byte>>, request: Request): Option<seq<byte>> {
    var doc := Read(codec, file);
    match Apply(Ini(fold), doc.lines, request.AsEdit(fold))
    case None => file
    case Some(lines) => Some(Write(codec, doc.(lines := lines)))
  }

  /** The search loop of the editor: the first line in `list[from..to]` that passes the test, or `to`. */
  method Scan<T>(p: T -> bool, list: seq<T>, from: nat, to: nat) returns (i: nat)
    requires from <= to <= |list|
    ensures i == from + First(p, list[from..to])
  {
    ghost var part := list[from..to];
    i := from;
    while i < to
      invariant from <= i <= to
      invariant NoneOf(p, part[..i - from])
    {
      assert list[i] == part[i - from];
      if p(list[i]) {
        break;
      }
      i := i + 1;
    }
    FirstIs(p, part, i - from);
  }

  /** The editor's test for the header of a section. */
  predicate MatchesHeader(fold: CaseMap, section: string, line: string) {
    Fold(fold, TrimLine(line)) == Fold(fold, HeaderLine(section))
  }

  /** The editor's test for a line that assigns a key. */
  predicate MatchesKey(fold: CaseMap, key: string, line: string) {
    Fold(fold, KeyOf(line)) == Fold(fold, key)
  }

  lemma {:induction false} KeyFound(fold: CaseMap, lines: seq<string>, from: nat, to: nat, key: string, index: nat)
    requires key != "" && from <= to <= |lines|
    requires index == from + First(line => MatchesKey(fold, key, line), lines[from..to])
    ensures index < to ==> IsAssignment(fold, lines[index], key)
    ensures forall i :: from <= i < index ==> !IsAssignment(fold, lines[i], key)
  {
    FirstInPart(line => MatchesKey(fold, key, line), lines, from, to, index);
    if index < to {
      AssignsIff(fold, lines[index], key);
    }
    forall i | from <= i < index
      ensures !IsAssignment(fold, lines[i], key)
    {
      AssignsIff(fold, lines[i], key);
    }
  }

  class ProfileStore {
    const fold: CaseMap
    const codec: Codec
    var files: map<string, seq<byte>>

    constructor (fold: CaseMap, codec: Codec, files: map<string, seq<byte>>)
      ensures this.fold == fold && this.codec == codec && this.files == files
    {
      this.fold, this.codec, this.files := fold, codec, files;
    }

    function FileAt(path: string): Option<seq<byte>>
      reads this
    {
      if path in files then Some(files[path]) else None
    }

    /** The line that opens the section, or -1. */
    method FindSection(lines: seq<string>, section: string) returns (index: int)
      ensures var i := First(Opener(Ini(fold), NameOf(fold, section)), lines);
              index == if i == |lines| then -1 else i
    {
      index := Scan(line => MatchesHeader(fold, section, line), lines, 0, |lines|);
      assert lines[0..|lines|] == lines;
      forall j | 0 <= j < |lines|
        ensures MatchesHeader(fold, section, lines[j]) <==> Opener(Ini(fold), NameOf(fold, section))(lines[j])
      {
        OpensIff(fold, lines[j], section);
      }
      FirstSame(line => MatchesHeader(fold, section, line), Opener(Ini(fold), NameOf(fold, section)), lines);
      if index == |lines| {
        index := -1;
      }
    }

    /** The first header after line `start`, or the end of the file. */
    method SectionEnd(lines: seq<string>, start: nat) returns (end: nat)
      requires start < |lines|
      ensures end == start + 1 + First(IsHeader, lines[start + 1..])
    {
      end := Scan(IsHeader, lines, start + 1, |lines|);
    }

    /** The line of `lines[from..to]` that assigns the key, or -1. */
    method FindKey(lines: seq<string>, from: nat, to: nat, key: string) returns (index: int)
      requires from <= to <= |lines|
      ensures var j := First(Assigner(Ini(fold), NameOf(fold, key)), lines[from..to]);
              index == if j == to - from then -1 else from + j
      ensures key != "" && index >= 0 ==> IsAssignment(fold, lines[index], key)
      ensures key != "" ==>
                forall i :: from <= i < (if index < 0 then to else index) ==> !IsAssignment(fold, lines[i], key)
    {
      index := Scan(line => MatchesKey(fold, key, line), lines, from, to);
      FirstSame(line => MatchesKey(fold, key, line), Assigner(Ini(fold), NameOf(fold, key)), lines[from..to]);
      if key != "" {
        KeyFound(fold, lines, from, to, key, index);
      }
      if index == to {
        index := -1;
      }
    }

    /** Where a new key goes: before the blank lines that close the section. */
    method InsertionPoint(lines: seq<string>, start: nat, end: nat) returns (at: nat)
      requires start < end <= |lines|
      ensures at == start + 1 + StemLength(IsBlank, lines[start + 1..end])
    {
      ghost var body := lines[start + 1..end];
      at := end;
      while at > start + 1 && IsBlank(lines[at - 1])
        invariant start + 1 <= at <= end
        invariant forall j :: at - start - 1 <= j < |body| ==> IsBlank(body[j])
      {
        assert body[at - start - 2] == lines[at - 1];
        at := at - 1;
      }
      assert at > start + 1 ==> body[at - start - 2] == lines[at - 1];
      StemIs(IsBlank, body, at - start - 1);
    }

    /** What follows the first `=`, trimmed, without one pair of quotes. */
    method ParseValue(line: string) returns (value: string)
      ensures value == ValueOf(line)
    {
      var eq := Find(line, '=');
      value := if eq == |line| then "" else Trim(IsWhiteSpace, line[eq + 1..]);
      if |value| >= 2 && (value[0] == '"' || value[0] == '\'') && value[|value| - 1] == value[0] {
        value := value[1..|value| - 1];
      }
    }

    /** The request, in a section that starts at line `start`; the lines to write back, if any. */
    method EditSection(lines: seq<string>, request: Request, start: nat) returns (changed: Option<seq<string>>)
      requires start < |lines| && start == First(Opener(Ini(fold), NameOf(fold, request.section)), lines)
      ensures changed == Apply(Ini(fold), lines, request.AsEdit(fold))
    {
      ghost var sc, edit := Ini(fold), request.AsEdit(fold);
      var end := SectionEnd(lines, start);
      if request.key.None? {
        DropInside(sc, lines, edit, start, end);
        return Some(lines[..start] + lines[end..]);
      }
      var keyLine := FindKey(lines, start + 1, end, request.key.value);
      if request.value.None? {
        CutInside(sc, lines, edit, start, end, keyLine);
        return if keyLine < 0 then None else Some(lines[..keyLine] + lines[keyLine + 1..]);
      }
      var entry := KeyLine(request.key.value, request.value.value);
      if keyLine >= 0 {
        ReplaceInside(sc, lines, edit, start, end, keyLine);
        return Some(lines[keyLine := entry]);
      }
      var at := InsertionPoint(lines, start, end);
      InsertInside(sc, lines, edit, start, end, at);
      return Some(lines[..at] + [entry] + lines[at..]);
    }

    /** The request, on all lines of a file; the lines to write back, if any. */
    method EditLines(lines: seq<string>, request: Request) returns (changed: Option<seq<string>>)
      ensures changed == Apply(Ini(fold), lines, request.AsEdit(fold))
    {
      var start := FindSection(lines, request.section);
      if start >= 0 {
        changed := EditSection(lines, request, start);
        return;
      }
      NotFound(Ini(fold), lines, request.AsEdit(fold));
      if !request.IsWrite() {
        return None;
      }
      var grown := lines;
      if |lines| > 0 && !IsBlank(lines[|lines| - 1]) {
        grown := grown + [""];
      }
      assert grown == lines + Gap(Ini(fold), lines);
      grown := grown + [HeaderLine(request.section)];
      grown := grown + [KeyLine(request.key.value, request.value.value)];
      return Some(grown);
    }

    /** Without a section the call is the flush idiom of the API it replaces, and does nothing. */
    method WritePrivateProfileString(section: Option<string>, key: Option<string>, value: Option<string>, path: string)
      returns (ok: bool)
      modifies this
      ensures ok
      ensures section.None? ==> files == old(files)
      ensures section.Some? ==>
                FileAt(path) == FileAfter(fold, codec, old(FileAt(path)), Request(section.value, key, value))
      ensures forall p :: p != path ==> FileAt(p) == old(FileAt(p))
    {
      ok := true;
      if section.Some? {
        var doc := Read(codec, FileAt(path));
        var changed := EditLines(doc.lines, Request(section.value, key, value));
        if changed.Some? {
          files := files[path := Write(codec, doc.(lines := changed.value))];
        }
      }
    }

    method GetValue(section: string, key: string, default: string, path: string) returns (value: string)
      ensures value == match Value(fold, Read(codec, FileAt(path)).lines, section, key)
                       case None => default
                       case Some(v) => v
    {
      var lines := Read(codec, FileAt(path)).lines;
      if path !in files {
        FirstNone(Opener(Ini(fold), NameOf(fold, section)), lines);
        NoSection(fold, lines, section, key);
        return default;
      }
      var start := FindSection(lines, section);
      if start < 0 {
        NoSection(fold, lines, section, key);
        return default;
      }
      var end := SectionEnd(lines, start);
      var line := FindKey(lines, start + 1, end, key);
      ValueAt(fold, lines, section, key, start, end, line);
      if line < 0 {
        return default;
      }
      value := ParseValue(lines[line]);
    }

    /** The caller's buffer holds as much of the value as fits before a terminator. */
    method GetPrivateProfileString(section: string, key: string, default: Option<string>, size: nat, path: string)
      returns (text: string, length: nat)
      ensures length == |text|
      ensures size > 0 ==> length < size
      ensures var full := match Value(fold, Read(codec, FileAt(path)).lines, section, key)
                          case None => (if default.None? then "" else default.value)
                          case Some(v) => v;
              text <= full && (text == full <==> size == 0 || |full| < size)
              && (text != full ==> length == size - 1)
    {
      text := GetValue(section, key, if default.None? then "" else default.value, path);
      if size > 0 && |text| >= size {
        text := text[..size - 1];
      }
      length := |text|;
    }
  }

  // ---------- index edits are body edits ----------

  lemma {:induction false} LookupAt<T>(sc: Scheme<T>, list: seq<T>, section: Name, key: Name, start: nat, end: nat)
    requires start < |list| && start == First(Opener(sc, section), list)
    requires end == start + 1 + First(sc.header, list[start + 1..])
    ensures var j := First(Assigner(sc, key), list[start + 1..end]);
            Lookup(sc, list, section, key) == if j == end - start - 1 then None else Some(list[start + 1 + j])
  {
    assert list[start + 1..][..end - start - 1] == list[start + 1..end];
  }

  lemma {:induction false} NoSection(fold: CaseMap, lines: seq<string>, section: string, key: string)
    requires First(Opener(Ini(fold), NameOf(fold, section)), lines) == |lines|
    ensures Value(fold, lines, section, key) == None
  {
  }

  lemma {:induction false} ValueAt(fold: CaseMap, lines: seq<string>, section: string, key: string, start: nat,
                                   end: nat, line: int)
    requires start < |lines| && start == First(Opener(Ini(fold), NameOf(fold, section)), lines)
    requires end == start + 1 + First(IsHeader, lines[start + 1..])
    requires var j := First(Assigner(Ini(fold), NameOf(fold, key)), lines[start + 1..end]);
             line == if j == end - start - 1 then -1 else start + 1 + j
    ensures Value(fold, lines, section, key) == if line < 0 then None else Some(ValueOf(lines[line]))
  {
    LookupAt(Ini(fold), lines, NameOf(fold, section), NameOf(fold, key), start, end);
  }

  lemma {:induction false} NotFound<T>(sc: Scheme<T>, list: seq<T>, edit: Edit<T>)
    requires First(Opener(sc, edit.section), list) == |list|
    ensures !edit.Set? ==> Apply(sc, list, edit) == None
    ensures edit.Set? ==> Apply(sc, list, edit) == Some(list + Gap(sc, list) + [edit.header] + [edit.entry])
  {
  }

  /** The edit falls in the section that starts at line `start` and ends before line `end`. */
  ghost predicate Within<T>(sc: Scheme<T>, list: seq<T>, edit: Edit<T>, start: nat, end: nat) {
    && start < |list| && start == First(Opener(sc, edit.section), list)
    && end == start + 1 + First(sc.header, list[start + 1..])
  }

  lemma {:induction false} DropInside<T>(sc: Scheme<T>, list: seq<T>, edit: Edit<T>, start: nat, end: nat)
    requires edit.DropSection? && Within(sc, list, edit, start, end)
    ensures Apply(sc, list, edit) == Some(list[..start] + list[end..])
  {
  }

  lemma {:induction false} CutInside<T>(sc: Scheme<T>, list: seq<T>, edit: Edit<T>, start: nat, end: nat, at: int)
    requires edit.DropKey? && Within(sc, list, edit, start, end)
    requires var j := First(Assigner(sc, edit.key), list[start + 1..end]);
             at == if j == end - start - 1 then -1 else start + 1 + j
    ensures Apply(sc, list, edit) == if at < 0 then None else Some(list[..at] + list[at + 1..])
  {
    if at >= 0 {
      CutIndex(list, start + 1, end, at);
    }
  }

  lemma {:induction false} ReplaceInside<T>(sc: Scheme<T>, list: seq<T>, edit: Edit<T>, start: nat, end: nat, at: nat)
    requires edit.Set? && Within(sc, list, edit, start, end)
    requires start < at < end && at == start + 1 + First(Assigner(sc, edit.key), list[start + 1..end])
    ensures Apply(sc, list, edit) == Some(list[at := edit.entry])
  {
    ApplyWithin(sc, list, edit, start, end);
    PutIndex(list, start + 1, end, at, edit.entry);
  }

  lemma {:induction false} InsertInside<T>(sc: Scheme<T>, list: seq<T>, edit: Edit<T>, start: nat, end: nat, at: nat)
    requires edit.Set? && Within(sc, list, edit, start, end)
    requires First(Assigner(sc, edit.key), list[start + 1..end]) == end - start - 1
    requires at == start + 1 + StemLength(sc.blank, list[start + 1..end])
    ensures Apply(sc, list, edit) == Some(list[..at] + [edit.entry] + list[at..])
  {
    ApplyWithin(sc, list, edit, start, end);
    InsertBody(sc, list[start + 1..end], edit);
    InsertIndex(list, start + 1, end, at, edit.entry);
  }

  lemma {:induction false} InsertBody<T>(sc: Scheme<T>, body: seq<T>, edit: Edit<T>)
    requires edit.Set? && First(Assigner(sc, edit.key), body) == |body|
    ensures var at := StemLength(sc.blank, body);
            EditBody(sc, body, edit) == Some(body[..at] + [edit.entry] + body[at..])
  {
  }

  lemma {:induction false} ApplyWithin<T>(sc: Scheme<T>, list: seq<T>, edit: Edit<T>, start: nat, end: nat)
    requires !edit.DropSection? && Within(sc, list, edit, start, end)
    ensures Apply(sc, list, edit)
            == match EditBody(sc, list[start + 1..end], edit)
               case None => None
               case Some(body) => Some(list[..start + 1] + body + list[end..])
  {
  }

  lemma {:induction false} CutIndex<T>(list: seq<T>, from: nat, to: nat, at: nat)
    requires from <= at < to <= |list|
    ensures var body := list[from..to];
            list[..from] + (body[..at - from] + body[at - from + 1..]) + list[to..] == list[..at] + list[at + 1..]
  {
  }

  lemma {:induction false} PutIndex<T>(list: seq<T>, from: nat, to: nat, at: nat, x: T)
    requires from <= at < to <= |list|
    ensures list[..from] + list[from..to][at - from := x] + list[to..] == list[at := x]
  {
  }

  lemma {:induction false} InsertIndex<T>(list: seq<T>, from: nat, to: nat, at: nat, x: T)
    requires from <= at <= to <= |list|
    ensures var body := list[from..to];
            list[..from] + (body[..at - from] + [x] + body[at - from..]) + list[to..] == list[..at] + [x] + list[at..]
  {
  }
}
