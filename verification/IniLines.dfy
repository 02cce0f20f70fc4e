/**
 The profile editor's view of a file as a list of lines: which line opens a section, which line
 holds a key, and what one edit does to the list.
 */
module IniLines {
  import opened Text
  import opened Blocks
  import opened Sections

  // ---------- one line ----------

  function TrimLine(line: string): string {
    Trim(IsWhiteSpace, line)
  }

  predicate IsBlank(line: string) {
    TrimLine(line) == ""
  }

  /** The line ends the section before it. */
  predicate IsHeader(line: string) {
    var t := TrimLine(line);
    t != "" && t[0] == '[' && t[|t| - 1] == ']'
  }

  function Inner(s: string): string {
    if |s| >= 2 then s[1..|s| - 1] else ""
  }

  /** The name between the brackets of a header, case-folded. */
  function SectionOf(fold: CaseMap, line: string): Name {
    Name(Inner(Fold(fold, TrimLine(line))))
  }

  /** The key a line assigns, or "" for a comment, a bracketed line or a line without `=`. */
  function KeyOf(line: string): string {
    var t := TrimStart(IsWhiteSpace, line);
    if t != "" && (t[0] == ';' || t[0] == '#' || t[0] == '[') then ""
    else
      var eq := Find(t, '=');
      if eq == |t| then "" else Trim(IsWhiteSpace, t[..eq])
  }

  function KeyNameOf(fold: CaseMap, line: string): Name {
    NameOf(fold, KeyOf(line))
  }

  /** Drops one pair of matching enclosing quotes. */
  function Unquote(value: string): string {
    if |value| >= 2 && (value[0] == '"' || value[0] == '\'') && value[|value| - 1] == value[0]
    then value[1..|value| - 1] else value
  }

  /** What a reader gets back from a value that was written. */
  function Normal(value: string): string {
    Unquote(Trim(IsWhiteSpace, value))
  }

  function ValueOf(line: string): string {
    var eq := Find(line, '=');
    if eq == |line| then "" else Normal(line[eq + 1..])
  }

  function KeyLine(key: string, value: string): string {
    key + "=" + value
  }

  function HeaderLine(section: string): string {
    "[" + section + "]"
  }

  /** A key that survives being written as `key=value` and parsed again. */
  predicate CleanKey(key: string) {
    && Trimmed(IsWhiteSpace, key)
    && '=' !in key
    && (key != "" ==> key[0] != ';' && key[0] != '#' && key[0] != '[')
  }

  /** Written lines parse back to the key they were written for exactly when the key is clean. */
  lemma {:induction false} KeySurvives(key: string, value: string)
    ensures KeyOf(KeyLine(key, value)) == key <==> CleanKey(key)
  {
    var line := KeyLine(key, value);
    KeyOfClean(line);
    if CleanKey(key) {
      TrimFixed(IsWhiteSpace, key);
      TrimStartSuffix(IsWhiteSpace, line);
      assert line[|key|] == '=';
      assert TrimStart(IsWhiteSpace, line) == line;
      assert Find(line, '=') == |key| && line[..|key|] == key;
    }
  }

  /** A written line is never mistaken for a header, and carries the value it was written with. */
  lemma {:induction false} KeyLineShape(key: string, value: string)
    requires CleanKey(key)
    ensures KeyOf(KeyLine(key, value)) == key
    ensures !IsHeader(KeyLine(key, value)) && !IsBlank(KeyLine(key, value))
    ensures ValueOf(KeyLine(key, value)) == Normal(value)
  {
    var line := KeyLine(key, value);
    KeySurvives(key, value);
    assert line[|key|] == '=';
    assert forall i :: 0 <= i < |key| ==> line[i] == key[i];
    assert Find(line, '=') == |key| && line[|key| + 1..] == value;
    TrimStartSuffix(IsWhiteSpace, line);
    assert TrimStart(IsWhiteSpace, line) == line;
    TrimEndPrefix(IsWhiteSpace, line);
    assert line[0] != '[';
  }

  predicate IsQuote(c: char) {
    c == '"' || c == '\''
  }

  /** One pair of quotes goes, with the white space around it, and what is inside stays as it is. */
  lemma {:induction false} NormalQuoted(lead: string, quote: char, value: string, trail: string)
    requires AllSpace(IsWhiteSpace, lead) && AllSpace(IsWhiteSpace, trail) && IsQuote(quote)
    ensures Normal(lead + ([quote] + value + [quote]) + trail) == value
  {
    TrimIs(IsWhiteSpace, lead, [quote] + value + [quote], trail);
  }

  /** A value that is not in a pair of quotes loses only the white space around it. */
  lemma {:induction false} NormalPlain(lead: string, value: string, trail: string)
    requires AllSpace(IsWhiteSpace, lead) && AllSpace(IsWhiteSpace, trail)
    requires value != "" && Trimmed(IsWhiteSpace, value)
    requires |value| == 1 || value[0] != value[|value| - 1] || !IsQuote(value[0])
    ensures Normal(lead + value + trail) == value
  {
    TrimIs(IsWhiteSpace, lead, value, trail);
  }

  /** White space alone is no value. */
  lemma {:induction false} NormalBlank(value: string)
    requires AllSpace(IsWhiteSpace, value)
    ensures Normal(value) == ""
  {
    TrimStartIs(IsWhiteSpace, value, "");
    assert value + "" == value;
  }

  // ---------- the syntax of a profile file ----------

  /** Names are compared ignoring case: the scheme works on folded names. */
  function Ini(fold: CaseMap): Scheme<string> {
    Scheme(IsHeader, line => SectionOf(fold, line), line => KeyNameOf(fold, line), IsBlank, "")
  }

  lemma {:induction false} IniSane(fold: CaseMap)
    ensures Ini(fold).Sane()
  {
  }

  /** The editor's own test for a header, a case-blind comparison of the trimmed line with `[section]`. */
  lemma {:induction false} OpensIff(fold: CaseMap, line: string, section: string)
    ensures Fold(fold, TrimLine(line)) == Fold(fold, HeaderLine(section))
            <==> Opener(Ini(fold), NameOf(fold, section))(line)
  {
    var t := TrimLine(line);
    var f, g := Fold(fold, t), Fold(fold, HeaderLine(section));
    assert g[0] == '[' && g[|g| - 1] == ']';
    assert g[1..|g| - 1] == Fold(fold, section);
    if |t| >= 2 {
      assert f[0] == fold(t[0]) && f[|f| - 1] == fold(t[|t| - 1]);
      assert IsHeader(line) <==> f[0] == '[' && f[|f| - 1] == ']';
      assert f == [f[0]] + f[1..|f| - 1] + [f[|f| - 1]];
      assert g == [g[0]] + g[1..|g| - 1] + [g[|g| - 1]];
    } else {
      assert !IsHeader(line);
    }
  }

  /** The line is `key = value`, with white space around the key and no comment sign before it. */
  ghost predicate IsShape(line: string, lead: string, name: string, trail: string, value: string) {
    && line == lead + name + trail + "=" + value
    && AllSpace(IsWhiteSpace, lead) && AllSpace(IsWhiteSpace, trail)
    && CleanKey(name) && name != ""
  }

  ghost predicate IsAssignment(fold: CaseMap, line: string, key: string) {
    exists lead, name, trail, value :: IsShape(line, lead, name, trail, value) && Fold(fold, name) == Fold(fold, key)
  }

  /** The key that the editor finds in a line is the one of its shape. */
  lemma {:induction false} ShapeKey(line: string, lead: string, name: string, trail: string, value: string)
    requires IsShape(line, lead, name, trail, value)
    ensures KeyOf(line) == name
  {
    var t := name + trail + "=" + value;
    assert line == lead + t && t[0] == name[0];
    TrimStartIs(IsWhiteSpace, lead, t);
    var eq := |name| + |trail|;
    assert t[eq] == '=' && forall i :: 0 <= i < eq ==> t[i] == if i < |name| then name[i] else trail[i - |name|];
    assert Find(t, '=') == eq && t[..eq] == name + trail;
    assert (name + trail)[0] == name[0];
    assert TrimStart(IsWhiteSpace, name + trail) == name + trail;
    TrimEndIs(IsWhiteSpace, name, trail);
  }

  lemma {:induction false} KeyShape(line: string) returns (lead: string, trail: string, value: string)
    requires KeyOf(line) != ""
    ensures IsShape(line, lead, KeyOf(line), trail, value)
  {
    var t := TrimStart(IsWhiteSpace, line);
    var eq := Find(t, '=');
    lead := TrimStartSplits(IsWhiteSpace, line);
    TrimStartSuffix(IsWhiteSpace, line);
    assert eq > 0 && t[..eq][0] == t[0];
    assert TrimStart(IsWhiteSpace, t[..eq]) == t[..eq];
    trail := TrimEndSplits(IsWhiteSpace, t[..eq]);
    value := t[eq + 1..];
    KeyOfClean(line);
    Reassembled(lead, t, eq, KeyOf(line), trail);
  }

  lemma {:induction false} Reassembled(lead: string, t: string, eq: nat, name: string, trail: string)
    requires eq < |t| && t[eq] == '=' && t[..eq] == name + trail
    ensures lead + t == lead + name + trail + "=" + t[eq + 1..]
  {
    assert t == t[..eq] + "=" + t[eq + 1..];
  }

  lemma {:induction false} KeyOfClean(line: string)
    ensures CleanKey(KeyOf(line))
  {
    var t := TrimStart(IsWhiteSpace, line);
    var eq := Find(t, '=');
    TrimStartSuffix(IsWhiteSpace, line);
    TrimIsPart(IsWhiteSpace, t[..eq]);
    if KeyOf(line) != "" {
      assert TrimStart(IsWhiteSpace, t[..eq]) == t[..eq];
      TrimEndPrefix(IsWhiteSpace, t[..eq]);
      assert KeyOf(line)[0] == t[0];
    }
  }

  /** The editor's comparison of keys finds exactly the lines that assign the key, case and white space aside. */
  lemma {:induction false} AssignsIff(fold: CaseMap, line: string, key: string)
    requires key != ""
    ensures Fold(fold, KeyOf(line)) == Fold(fold, key) <==> IsAssignment(fold, line, key)
  {
    if Fold(fold, KeyOf(line)) == Fold(fold, key) {
      var lead, trail, value := KeyShape(line);
    }
    if lead, name, trail, value :| IsShape(line, lead, name, trail, value) && Fold(fold, name) == Fold(fold, key) {
      ShapeKey(line, lead, name, trail, value);
    }
  }

  /** The value of such a line is what follows its `=`. */
  lemma {:induction false} ShapeValue(line: string, lead: string, name: string, trail: string, value: string)
    requires IsShape(line, lead, name, trail, value)
    ensures ValueOf(line) == Normal(value)
  {
    var front := lead + name + trail;
    assert line == front + "=" + value;
    assert line[|front|] == '=' && forall i :: 0 <= i < |front| ==> line[i] == front[i];
    assert '=' !in front;
    assert Find(line, '=') == |front| && line[|front| + 1..] == value;
  }

  /** A line that starts with a semicolon, a number sign or a bracket, white space aside, assigns nothing. */
  lemma {:induction false} CommentUnnamed(lead: string, mark: char, rest: string)
    requires AllSpace(IsWhiteSpace, lead) && (mark == ';' || mark == '#' || mark == '[')
    ensures KeyOf(lead + ([mark] + rest)) == ""
  {
    TrimStartIs(IsWhiteSpace, lead, [mark] + rest);
  }

  /** A section of one line, spelled out. */
  lemma {:induction false} ReadsAssignment(fold: CaseMap, section: string, lead: string, key: string, trail: string,
                                           value: string)
    requires AllSpace(IsWhiteSpace, lead) && AllSpace(IsWhiteSpace, trail) && key != "" && CleanKey(key)
    ensures Value(fold, ["[" + section + "]", lead + key + trail + "=" + value], section, key) == Some(Normal(value))
  {
    var h, x := HeaderLine(section), lead + key + trail + "=" + value;
    HeaderLineName(fold, section);
    ShapeKey(x, lead, key, trail, value);
    ShapeValue(x, lead, key, trail, value);
    ShapeNoHeader(x, lead, key, trail, value);
    BlockIs(Opener(Ini(fold), NameOf(fold, section)), IsHeader, [h, x], 0, 2);
    assert [h, x][1..2] == [x];
    FirstIs(Assigner(Ini(fold), NameOf(fold, key)), [x], 0);
  }

  lemma {:induction false} ShapeNoHeader(line: string, lead: string, name: string, trail: string, value: string)
    requires IsShape(line, lead, name, trail, value)
    ensures !IsHeader(line)
  {
    var t := name + trail + "=" + value;
    assert line == lead + t && t[0] == name[0];
    TrimStartIs(IsWhiteSpace, lead, t);
    TrimEndPrefix(IsWhiteSpace, t);
  }

  lemma {:induction false} BlankUnnamed(line: string)
    requires IsBlank(line)
    ensures KeyOf(line) == ""
  {
    TrimStartSuffix(IsWhiteSpace, line);
    TrimEndPrefix(IsWhiteSpace, TrimStart(IsWhiteSpace, line));
  }

  /** A key that is not clean is the key of no line. */
  lemma {:induction false} UncleanNeverFound(fold: CaseMap, line: string, key: string)
    requires !CleanKey(key)
    ensures Fold(fold, KeyOf(line)) != Fold(fold, key)
  {
    if Fold(fold, KeyOf(line)) == Fold(fold, key) {
      KeyOfClean(line);
      CleanFolded(fold, KeyOf(line), key);
    }
  }

  lemma {:induction false} CleanFolded(fold: CaseMap, a: string, b: string)
    requires Fold(fold, a) == Fold(fold, b) && CleanKey(a)
    ensures CleanKey(b)
  {
    forall i | 0 <= i < |b| && IsMark(b[i])
      ensures a[i] == b[i]
    {
      assert fold(b[i]) == b[i] && fold(a[i]) == Fold(fold, a)[i] == Fold(fold, b)[i];
    }
  }

  lemma {:induction false} HeaderLineName(fold: CaseMap, section: string)
    ensures Opener(Ini(fold), NameOf(fold, section))(HeaderLine(section))
  {
    TrimFixed(IsWhiteSpace, HeaderLine(section));
    OpensIff(fold, HeaderLine(section), section);
  }

  /** A request to the editor, names as the caller spells them; no value deletes the key, no key the section. */
  datatype Request = Request(section: string, key: Option<string>, value: Option<string>)
  {
    function AsEdit(fold: CaseMap): Edit<string> {
      match (key, value)
      case (None, _) => DropSection(NameOf(fold, section))
      case (Some(k), None) => DropKey(NameOf(fold, section), NameOf(fold, k))
      case (Some(k), Some(v)) => Set(NameOf(fold, section), NameOf(fold, k), HeaderLine(section), KeyLine(k, v))
    }

    predicate IsWrite() {
      key.Some? && value.Some?
    }

    predicate Clean() {
      IsWrite() ==> CleanKey(key.value)
    }
  }

  lemma {:induction false} CleanRequest(fold: CaseMap, request: Request)
    requires request.Clean()
    ensures request.AsEdit(fold).Clean(Ini(fold))
  {
    if request.IsWrite() {
      KeyLineShape(request.key.value, request.value.value);
      HeaderLineName(fold, request.section);
    }
  }

  /** What the reader returns for a section and a key of the file. */
  function Value(fold: CaseMap, lines: seq<string>, section: string, key: string): Option<string> {
    match Lookup(Ini(fold), lines, NameOf(fold, section), NameOf(fold, key))
    case None => None
    case Some(line) => Some(ValueOf(line))
  }

  // ---------- what the editor guarantees, in its own terms ----------

  /**
   After a write the reader returns the value, trimmed and without one pair of enclosing quotes, exactly if the
   key is clean; a key that is not clean is never found.
   */
  lemma {:induction false} WriteReadsBack(fold: CaseMap, lines: seq<string>, section: string, key: string,
                                          value: string)
    ensures Value(fold, After(Ini(fold), lines, Request(section, Some(key), Some(value)).AsEdit(fold)), section, key)
            == if CleanKey(key) then Some(Normal(value)) else None
  {
    var request := Request(section, Some(key), Some(value));
    var after := After(Ini(fold), lines, request.AsEdit(fold));
    if CleanKey(key) {
      CleanRequest(fold, request);
      IniSane(fold);
      ReadBack(Ini(fold), lines, request.AsEdit(fold));
      KeyLineShape(key, value);
    } else if Lookup(Ini(fold), after, NameOf(fold, section), NameOf(fold, key)).Some? {
      LookupAssigns(Ini(fold), after, NameOf(fold, section), NameOf(fold, key));
      UncleanNeverFound(fold, Lookup(Ini(fold), after, NameOf(fold, section), NameOf(fold, key)).value, key);
    }
  }

  /** The line a write brings in. */
  function WrittenLine(request: Request): string
    requires request.IsWrite()
  {
    KeyLine(request.key.value, request.value.value)
  }

  /** The line written is an entry, is read under this name, and nothing before it in its section is. */
  predicate TakesName(fold: CaseMap, lines: seq<string>, request: Request, section: string, key: string) {
    Takes(Ini(fold), lines, request.AsEdit(fold), NameOf(fold, section), NameOf(fold, key))
  }

  /** The line written is itself the header of this section, and stands before the first section of that name. */
  predicate HidesName(fold: CaseMap, lines: seq<string>, request: Request, section: string) {
    Hides(Ini(fold), lines, request.AsEdit(fold), NameOf(fold, section))
  }

  /** The blank line put before a new section is read under this name. */
  predicate LeaksTo(fold: CaseMap, lines: seq<string>, request: Request, section: string, key: string) {
    LeaksBlank(Ini(fold), lines, request.AsEdit(fold), NameOf(fold, section), NameOf(fold, key))
  }

  /** The line written is itself a header, and cuts off the blank line that was read under this name. */
  predicate CutsOffName(fold: CaseMap, lines: seq<string>, request: Request, section: string, key: string) {
    CutsOff(Ini(fold), lines, request.AsEdit(fold), NameOf(fold, section), NameOf(fold, key))
  }

  /** The section of the request ends with blank lines. */
  predicate HasTail(fold: CaseMap, lines: seq<string>, request: Request) {
    Tail(Ini(fold), lines, request.AsEdit(fold)) != []
  }

  /** What the reader returns after a request for any name that the request is not for. */
  function ValueAfter(fold: CaseMap, lines: seq<string>, request: Request, section: string,
                      key: string): Option<string> {
    if TakesName(fold, lines, request, section, key) then Some(ValueOf(WrittenLine(request)))
    else if LeaksTo(fold, lines, request, section, key) then Some("")
    else if HidesName(fold, lines, request, section) then
      if key == "" && HasTail(fold, lines, request) then Some("") else None
    else if CutsOffName(fold, lines, request, section, key) then None
    else Value(fold, lines, section, key)
  }

  lemma {:induction false} RequestSteers(fold: CaseMap, lines: seq<string>, request: Request)
    ensures Steers(Ini(fold), lines, request.AsEdit(fold))
  {
    if request.IsWrite() {
      KeySurvives(request.key.value, request.value.value);
      if !CleanKey(request.key.value) {
        forall x | x in lines
          ensures KeyNameOf(fold, x) != NameOf(fold, request.key.value)
        {
          UncleanNeverFound(fold, x, request.key.value);
        }
      }
    }
  }

  /**
   What a request does to all other names, the empty keys included, whatever its own key and whatever duplicates the
   file has. A clean request can only leak a blank line, to an empty key. A key that is not clean writes a line that
   is read as something else: as an entry under another name, or as a header.
   */
  lemma {:induction false} OtherNamesKept(fold: CaseMap, lines: seq<string>, request: Request, section: string,
                                          key: string)
    requires Fold(fold, request.section) != Fold(fold, section)
             || (request.key.Some? && Fold(fold, request.key.value) != Fold(fold, key))
    ensures Value(fold, After(Ini(fold), lines, request.AsEdit(fold)), section, key)
            == ValueAfter(fold, lines, request, section, key)
    ensures key != "" ==>
              && !LeaksTo(fold, lines, request, section, key) && !CutsOffName(fold, lines, request, section, key)
              && (TakesName(fold, lines, request, section, key) ==> Value(fold, lines, section, key).None?)
    ensures request.Clean() ==>
              && !TakesName(fold, lines, request, section, key) && !HidesName(fold, lines, request, section)
              && !CutsOffName(fold, lines, request, section, key)
  {
    var sc, edit, x, k := Ini(fold), request.AsEdit(fold), NameOf(fold, section), NameOf(fold, key);
    IniSane(fold);
    if request.IsWrite() {
      WriteDecides(fold, lines, request, section, key);
      if request.Clean() {
        KeyLineShape(request.key.value, request.value.value);
      }
      if key != "" && TakesName(fold, lines, request, section, key) {
        TakenWasFree(fold, lines, request, section, key);
      }
    } else if request.key.Some? {
      DropKeyFrame(sc, lines, edit, x, k);
    } else {
      DropSectionFrame(sc, lines, edit, x);
    }
  }

  /** A write decides what is read under every name, the one it is for included. */
  lemma {:induction false} WriteDecides(fold: CaseMap, lines: seq<string>, request: Request, section: string,
                                        key: string)
    requires request.IsWrite()
    ensures Value(fold, After(Ini(fold), lines, request.AsEdit(fold)), section, key)
            == ValueAfter(fold, lines, request, section, key)
  {
    var sc, edit, x, k := Ini(fold), request.AsEdit(fold), NameOf(fold, section), NameOf(fold, key);
    IniSane(fold);
    HeaderLineName(fold, request.section);
    RequestSteers(fold, lines, request);
    BlankValue("");
    if IsHeader(WrittenLine(request)) {
      HeaderSteers(fold, lines, request);
      BlanksUnnamed(fold);
      SetHides(sc, lines, edit, x, k);
      TailValue(fold, lines, request, key);
    } else {
      SetTakes(sc, lines, edit, x, k);
    }
  }

  /** A name that is not empty, and not the one written for, is only taken when it had no value. */
  lemma {:induction false} TakenWasFree(fold: CaseMap, lines: seq<string>, request: Request, section: string,
                                        key: string)
    requires key != "" && TakesName(fold, lines, request, section, key)
    requires Fold(fold, request.key.value) != Fold(fold, key)
    ensures Value(fold, lines, section, key).None?
  {
    RequestSteers(fold, lines, request);
    BlanksUnnamed(fold);
    ReadInTail(Ini(fold), lines, request.AsEdit(fold), NameOf(fold, section), NameOf(fold, key));
    TailFound(Ini(fold), lines, request.AsEdit(fold), NameOf(fold, key));
  }

  lemma {:induction false} BlankValue(line: string)
    requires IsBlank(line)
    ensures ValueOf(line) == ""
  {
    var lead := TrimStartSplits(IsWhiteSpace, line);
    TrimStartSuffix(IsWhiteSpace, line);
    TrimEndPrefix(IsWhiteSpace, TrimStart(IsWhiteSpace, line));
    assert lead == line;
  }

  /** What is read under any name in the blank lines that close the section. */
  lemma {:induction false} TailValue(fold: CaseMap, lines: seq<string>, request: Request, key: string)
    ensures var found := Pick(Assigner(Ini(fold), NameOf(fold, key)), Tail(Ini(fold), lines, request.AsEdit(fold)));
            && (found.Some? <==> key == "" && HasTail(fold, lines, request))
            && (found.Some? ==> ValueOf(found.value) == "")
  {
    var tail := Tail(Ini(fold), lines, request.AsEdit(fold));
    BlanksUnnamed(fold);
    TailFound(Ini(fold), lines, request.AsEdit(fold), NameOf(fold, key));
    if tail != [] {
      BlankValue(tail[0]);
    }
    assert NameOf(fold, key) == NO_NAME <==> key == "";
  }

  lemma {:induction false} BlanksUnnamed(fold: CaseMap)
    ensures forall x :: IsBlank(x) ==> KeyNameOf(fold, x) == NO_NAME
  {
    forall x | IsBlank(x)
      ensures KeyNameOf(fold, x) == NO_NAME
    {
      BlankUnnamed(x);
    }
  }

  lemma {:induction false} HeaderSteers(fold: CaseMap, lines: seq<string>, request: Request)
    requires request.IsWrite() && IsHeader(WrittenLine(request))
    ensures forall x :: x in lines ==> KeyNameOf(fold, x) != NameOf(fold, request.key.value)
  {
    if CleanKey(request.key.value) {
      KeyLineShape(request.key.value, request.value.value);
    }
    forall x | x in lines
      ensures KeyNameOf(fold, x) != NameOf(fold, request.key.value)
    {
      UncleanNeverFound(fold, x, request.key.value);
    }
  }

  /** The first happens: a key with `=` in it, such as `a=b`, is read as the key before the `=`. */
  lemma {:induction false} TakenName(fold: CaseMap, section: string, name: string, rest: string, value: string)
    requires CleanKey(name) && name != ""
    ensures TakesName(fold, [], Request(section, Some(name + "=" + rest), Some(value)), section, name)
  {
    assert KeyLine(name + "=" + rest, value) == KeyLine(name, rest + "=" + value);
    KeyLineShape(name, rest + "=" + value);
  }

  /** So does the second: the key `[a` with the value `b]` hides a section `a=b` that follows. */
  lemma {:induction false} HiddenName(fold: CaseMap, section: string, a: string, b: string)
    requires Fold(fold, section) != Fold(fold, a + "=" + b)
    ensures var other := a + "=" + b;
            var request := Request(section, Some("[" + a), Some(b + "]"));
            HidesName(fold, [HeaderLine(section), HeaderLine(other)], request, other)
  {
    var other := a + "=" + b;
    assert KeyLine("[" + a, b + "]") == HeaderLine(other);
    HeaderLineName(fold, section);
    HeaderLineName(fold, other);
  }

  /**
   When the empty key of a section, which reads as the first line of the section that assigns no key, keeps its value
   through a write: no blank line leaks to it; if the line written is read under it, then as the blank line that was;
   no header cuts its blank line off; and if a header hides the section, it reads as the blanks behind that header.
   */
  lemma {:induction false} EmptyKeyKept(fold: CaseMap, lines: seq<string>, request: Request, section: string)
    requires request.IsWrite()
    requires Fold(fold, request.section) != Fold(fold, section) || request.key.value != ""
    ensures Value(fold, After(Ini(fold), lines, request.AsEdit(fold)), section, "") == Value(fold, lines, section, "")
            <==> && !LeaksTo(fold, lines, request, section, "") && !CutsOffName(fold, lines, request, section, "")
                 && (TakesName(fold, lines, request, section, "") ==>
                       ValueOf(WrittenLine(request)) == "" && HasTail(fold, lines, request))
                 && (HidesName(fold, lines, request, section) ==>
                       Value(fold, lines, section, "") == if HasTail(fold, lines, request) then Some("") else None)
  {
    WriteDecides(fold, lines, request, section, "");
    RequestSteers(fold, lines, request);
    assert NameOf(fold, "") == NO_NAME;
    if TakesName(fold, lines, request, section, "") || CutsOffName(fold, lines, request, section, "") {
      EmptyKeyTail(fold, lines, request, section);
    }
  }

  /** If no line before the closing blanks is without a key, the empty key reads as the first of those blanks. */
  lemma {:induction false} EmptyKeyTail(fold: CaseMap, lines: seq<string>, request: Request, section: string)
    requires request.IsWrite() && request.key.value != ""
    requires TakesName(fold, lines, request, section, "") || CutsOffName(fold, lines, request, section, "")
    ensures Value(fold, lines, section, "") == if HasTail(fold, lines, request) then Some("") else None
  {
    RequestSteers(fold, lines, request);
    TailValue(fold, lines, request, "");
    ReadInTail(Ini(fold), lines, request.AsEdit(fold), NameOf(fold, section), NO_NAME);
  }

  /** A line read as a comment takes the empty key from the blank line that had it. */
  lemma {:induction false} EmptyKeyTaken(fold: CaseMap, section: string, comment: string, value: string)
    requires '=' !in comment
    ensures var lines, request := [HeaderLine(section), ""], Request(section, Some(";" + comment), Some(value));
            && Value(fold, lines, section, "") == Some("")
            && Value(fold, After(Ini(fold), lines, request.AsEdit(fold)), section, "") == Some(Normal(value))
  {
    var lines, request := [HeaderLine(section), ""], Request(section, Some(";" + comment), Some(value));
    var sc, x := Ini(fold), NameOf(fold, section);
    HeaderLineName(fold, section);
    BlockIs(Opener(sc, x), sc.header, lines, 0, 2);
    assert lines[1..2] == [""];
    BlankValue("");
    CommentLine(comment, value);
    assert TakesName(fold, lines, request, section, "");
    WriteDecides(fold, lines, request, section, "");
  }

  lemma {:induction false} CommentLine(comment: string, value: string)
    requires '=' !in comment
    ensures var line := KeyLine(";" + comment, value);
            KeyOf(line) == "" && !IsHeader(line) && ValueOf(line) == Normal(value)
  {
    var line := KeyLine(";" + comment, value);
    assert line[0] == ';' && line[1 + |comment|] == '=';
    assert forall i :: 0 < i <= |comment| ==> line[i] == comment[i - 1];
    assert Find(line, '=') == 1 + |comment| && line[|comment| + 2..] == value;
    TrimStartSuffix(IsWhiteSpace, line);
    assert TrimStart(IsWhiteSpace, line) == line;
    TrimEndPrefix(IsWhiteSpace, line);
  }

  /** Such leaks exist: any write to a new section leaks into a file of one section and one key. */
  lemma {:induction false} EmptyKeyLeak(fold: CaseMap, section: string, key: string, value: string, request: Request)
    requires CleanKey(key) && key != "" && request.IsWrite()
    requires Fold(fold, request.section) != Fold(fold, section)
    ensures LeaksBlank(Ini(fold), [HeaderLine(section), KeyLine(key, value)], request.AsEdit(fold),
                       NameOf(fold, section), NO_NAME)
  {
    KeyLineShape(key, value);
    HeaderLineName(fold, section);
    LeakExample(Ini(fold), HeaderLine(section), KeyLine(key, value), NameOf(fold, section), request.AsEdit(fold));
  }

  // ---------- repeated and minimal writes ----------

  function Repeated(fold: CaseMap, lines: seq<string>, request: Request, n: nat): seq<string> {
    if n == 0 then lines else After(Ini(fold), Repeated(fold, lines, request, n - 1), request.AsEdit(fold))
  }

  lemma {:induction false} UncleanGrows(fold: CaseMap, lines: seq<string>, request: Request)
    requires request.IsWrite() && !CleanKey(request.key.value)
    requires First(Opener(Ini(fold), NameOf(fold, request.section)), lines) < |lines|
    ensures |After(Ini(fold), lines, request.AsEdit(fold))| == |lines| + 1
  {
    forall x | x in lines
      ensures KeyNameOf(fold, x) != NameOf(fold, request.key.value)
    {
      UncleanNeverFound(fold, x, request.key.value);
    }
    SetGrows(Ini(fold), lines, request.AsEdit(fold));
  }

  /** Repeating a write changes nothing exactly if its key is clean; otherwise every repeat adds a line. */
  lemma {:induction false} RepeatedWrites(fold: CaseMap, lines: seq<string>, request: Request, n: nat)
    requires request.IsWrite() && n > 0
    ensures var once, all := Repeated(fold, lines, request, 1), Repeated(fold, lines, request, n);
            if CleanKey(request.key.value) then all == once else |all| == |once| + n - 1
  {
    assert Repeated(fold, lines, request, 0) == lines;
    if n > 1 {
      RepeatedWrites(fold, lines, request, n - 1);
      WrittenTwice(fold, Repeated(fold, lines, request, n - 2), request);
    }
  }

  lemma {:induction false} WrittenTwice(fold: CaseMap, lines: seq<string>, request: Request)
    requires request.IsWrite()
    ensures var once := After(Ini(fold), lines, request.AsEdit(fold));
            var twice := After(Ini(fold), once, request.AsEdit(fold));
            if CleanKey(request.key.value) then twice == once else |twice| == |once| + 1
  {
    HeaderLineName(fold, request.section);
    SectionThere(Ini(fold), lines, request.AsEdit(fold));
    if CleanKey(request.key.value) {
      CleanRequest(fold, request);
      IniSane(fold);
      SetTwice(Ini(fold), lines, request.AsEdit(fold));
    } else {
      UncleanGrows(fold, After(Ini(fold), lines, request.AsEdit(fold)), request);
    }
  }

  lemma {:induction false} BlankIff(line: string)
    ensures IsBlank(line) <==> AllSpace(IsWhiteSpace, line)
  {
    if AllSpace(IsWhiteSpace, line) {
      TrimStartIs(IsWhiteSpace, line, "");
      assert line + "" == line;
    }
    if IsBlank(line) {
      var lead := TrimStartSplits(IsWhiteSpace, line);
      TrimStartSuffix(IsWhiteSpace, line);
      TrimEndPrefix(IsWhiteSpace, TrimStart(IsWhiteSpace, line));
    }
  }

  ghost predicate HasKey(fold: CaseMap, line: string, key: string) {
    Fold(fold, KeyOf(line)) == Fold(fold, key)
  }

  ghost predicate NoneHasKey(fold: CaseMap, lines: seq<string>, key: string) {
    forall i :: 0 <= i < |lines| ==> !HasKey(fold, lines[i], key)
  }

  ghost predicate AllWhite(lines: seq<string>) {
    forall i :: 0 <= i < |lines| ==> AllSpace(IsWhiteSpace, lines[i])
  }

  /** The section is `p + gone + q`: `gone` is its first line with the key, or nothing before its last blanks. */
  ghost predicate IsPlace(fold: CaseMap, p: seq<string>, gone: seq<string>, q: seq<string>, key: string) {
    && NoneHasKey(fold, p, key)
    && if gone == [] then
         NoneHasKey(fold, q, key) && AllWhite(q) && (p != [] ==> !AllSpace(IsWhiteSpace, p[|p| - 1]))
       else |gone| == 1 && HasKey(fold, gone[0], key)
  }

  /** The whole effect of any write on the lines, whatever its key. */
  ghost predicate IsMinimal(fold: CaseMap, lines: seq<string>, request: Request, after: seq<string>,
                            front: seq<string>, gone: seq<string>, back: seq<string>)
    requires request.IsWrite()
  {
    var line := request.key.value + "=" + request.value.value;
    && lines == front + gone + back
    && match Body(Ini(fold), lines, NameOf(fold, request.section))
       case None =>
         var gap := if lines != [] && !AllSpace(IsWhiteSpace, lines[|lines| - 1]) then [""] else [];
         gone == back == [] && after == lines + gap + ["[" + request.section + "]"] + [line]
       case Some(body) =>
         && after == front + [line] + back
         && exists p, q :: body == p + gone + q && EndsInside(Ini(fold), p, q, front, back)
              && IsPlace(fold, p, gone, q, request.key.value)
  }

  lemma {:induction false} PlaceIs(fold: CaseMap, body: seq<string>, p: seq<string>, gone: seq<string>, q: seq<string>,
                                   key: string)
    requires PutAt(Assigner(Ini(fold), NameOf(fold, key)), IsBlank, body, p, gone, q)
    ensures body == p + gone + q && IsPlace(fold, p, gone, q, key)
  {
    var has := Assigner(Ini(fold), NameOf(fold, key));
    NoneHas(fold, p, key);
    if gone == [] {
      PutAtNone(has, IsBlank, body, p, q);
      NoneHas(fold, q, key);
      forall i | 0 <= i < |q|
        ensures AllSpace(IsWhiteSpace, q[i])
      {
        BlankIff(q[i]);
      }
      if p != [] {
        BlankIff(p[|p| - 1]);
      }
    }
  }

  lemma {:induction false} NoneHas(fold: CaseMap, lines: seq<string>, key: string)
    requires NoneOf(Assigner(Ini(fold), NameOf(fold, key)), lines)
    ensures NoneHasKey(fold, lines, key)
  {
    forall i | 0 <= i < |lines|
      ensures !HasKey(fold, lines[i], key)
    {
      assert !Assigner(Ini(fold), NameOf(fold, key))(lines[i]);
    }
  }

  /**
   Every write is a minimal edit of the lines: it replaces one line of its section that has the key, or else inserts
   one before the blank lines that close the section, or appends an optional blank line, a header and the line.
   */
  lemma {:induction false} WriteIsMinimal(fold: CaseMap, lines: seq<string>, request: Request)
      returns (front: seq<string>, gone: seq<string>, back: seq<string>)
    requires request.IsWrite()
    ensures IsMinimal(fold, lines, request, After(Ini(fold), lines, request.AsEdit(fold)), front, gone, back)
  {
    front, gone, back := SetIsMinimal(Ini(fold), lines, request.AsEdit(fold));
    match Body(Ini(fold), lines, NameOf(fold, request.section))
    case None =>
      if lines != [] {
        BlankIff(lines[|lines| - 1]);
      }
    case Some(body) =>
      var p, q :| EndsInside(Ini(fold), p, q, front, back)
                  && PutAt(Assigner(Ini(fold), NameOf(fold, request.key.value)), IsBlank, body, p, gone, q);
      PlaceIs(fold, body, p, gone, q, request.key.value);
  }
}
