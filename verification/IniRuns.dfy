/** Whole runs of the profile editor on one file: each request reads the file, edits its lines and writes it back. */
module IniRuns {
  import opened Text
  import opened Sections
  import opened IniLines
  import opened IniText
  import opened IniFile

  /** Names and values without line breaks, and a value without a trailing carriage return. */
  predicate Unbroken(request: Request) {
    '\n' !in request.section && (request.IsWrite() ==> '\n' !in request.key.value && Plain(request.value.value))
  }

  /** Besides, a key that parses back. */
  predicate Proper(request: Request) {
    request.Clean() && Unbroken(request)
  }

  function Edits(fold: CaseMap, requests: seq<Request>): (r: seq<Edit<string>>)
    ensures |r| == |requests|
    ensures forall i :: 0 <= i < |r| ==> r[i] == requests[i].AsEdit(fold)
  {
    seq(|requests|, i requires 0 <= i < |requests| => requests[i].AsEdit(fold))
  }

  function FileRun(fold: CaseMap, codec: Codec, file: Option<seq<byte>>, requests: seq<Request>): Option<seq<byte>> {
    if requests == [] then file
    else FileAfter(fold, codec, FileRun(fold, codec, file, requests[..|requests| - 1]), requests[|requests| - 1])
  }

  /** The document the request would write, if any, survives the encoder and keeps its mark. */
  predicate StepDurable(fold: CaseMap, codec: Codec, file: Option<seq<byte>>, request: Request) {
    var doc := Read(codec, file);
    match Apply(Ini(fold), doc.lines, request.AsEdit(fold))
    case None => true
    case Some(lines) => Durable(codec, doc.(lines := lines))
  }

  predicate RunDurable(fold: CaseMap, codec: Codec, file: Option<seq<byte>>, requests: seq<Request>) {
    requests != [] ==>
      var front := requests[..|requests| - 1];
      && RunDurable(fold, codec, file, front)
      && StepDurable(fold, codec, FileRun(fold, codec, file, front), requests[|requests| - 1])
  }

  // ---------- one request ----------

  lemma {:induction false} ReadAllPlain(codec: Codec, file: Option<seq<byte>>)
    ensures AllPlain(Read(codec, file).lines)
  {
    match file
    case None =>
    case Some(bytes) => ReadsPlain(codec.decode(Detect(bytes), bytes[|Preamble(Detect(bytes))|..]));
  }

  lemma {:induction false} WrittenPlain(request: Request)
    requires Unbroken(request)
    ensures request.IsWrite() ==>
              && Plain(HeaderLine(request.section))
              && Plain(KeyLine(request.key.value, request.value.value))
  {
  }

  lemma {:induction false} StaysPlain(fold: CaseMap, lines: seq<string>, request: Request)
    requires Unbroken(request) && AllPlain(lines)
    ensures AllPlain(After(Ini(fold), lines, request.AsEdit(fold)))
  {
    var edit := request.AsEdit(fold);
    var after := After(Ini(fold), lines, edit);
    forall i | 0 <= i < |after|
      ensures Plain(after[i])
    {
      WrittenPlain(request);
      AfterElements(Ini(fold), lines, edit, after[i]);
    }
  }

  /** What the next reader of the file sees: the edited lines, or one blank line in place of none. */
  lemma {:induction false} NextRead(fold: CaseMap, codec: Codec, file: Option<seq<byte>>, request: Request)
    requires Unbroken(request) && StepDurable(fold, codec, file, request)
    ensures var doc := Read(codec, file);
            var lines := After(Ini(fold), doc.lines, request.AsEdit(fold));
            var next := Read(codec, FileAfter(fold, codec, file, request));
            next == doc.(lines := if lines == [] && doc.lines != [] then [""] else lines)
  {
    var doc := Read(codec, file);
    var edit := request.AsEdit(fold);
    ReadAllPlain(codec, file);
    StaysPlain(fold, doc.lines, request);
    match Apply(Ini(fold), doc.lines, edit)
    case None =>
    case Some(lines) =>
      ReadWrite(codec, doc.(lines := lines));
      EmptyStays(Ini(fold), doc.lines, edit);
  }

  lemma {:induction false} EmptyStays<T>(sc: Scheme<T>, list: seq<T>, edit: Edit<T>)
    ensures Apply(sc, list, edit) == Some([]) ==> list != []
  {
  }

  /**
   Repeating a write leaves the bytes of the file unchanged exactly if its key is clean; otherwise every repeat adds
   a line to the file.
   */
  lemma {:induction false} WriteTwice(fold: CaseMap, codec: Codec, file: Option<seq<byte>>, request: Request)
    requires Unbroken(request) && request.IsWrite() && StepDurable(fold, codec, file, request)
    requires CleanKey(request.key.value) || StepDurable(fold, codec, FileAfter(fold, codec, file, request), request)
    ensures var once := FileAfter(fold, codec, file, request);
            var twice := FileAfter(fold, codec, once, request);
            && (twice == once <==> CleanKey(request.key.value))
            && (!CleanKey(request.key.value) ==> |Read(codec, twice).lines| == |Read(codec, once).lines| + 1)
  {
    var doc, sc, edit := Read(codec, file), Ini(fold), request.AsEdit(fold);
    var once := FileAfter(fold, codec, file, request);
    WrittenTwice(fold, doc.lines, request);
    NextRead(fold, codec, file, request);
    WriteLeavesLines(fold, doc.lines, request);
    SetWrites(sc, doc.lines, edit);
    SetWrites(sc, Read(codec, once).lines, edit);
    if !CleanKey(request.key.value) {
      NextRead(fold, codec, once, request);
    }
  }

  lemma {:induction false} WriteLeavesLines(fold: CaseMap, lines: seq<string>, request: Request)
    requires request.IsWrite()
    ensures After(Ini(fold), lines, request.AsEdit(fold)) != []
  {
    HeaderLineName(fold, request.section);
    SectionThere(Ini(fold), lines, request.AsEdit(fold));
  }

  lemma {:induction false} SetWrites<T>(sc: Scheme<T>, list: seq<T>, edit: Edit<T>)
    requires edit.Set?
    ensures Apply(sc, list, edit).Some?
  {
  }

  // ---------- runs ----------

  ghost predicate Agrees(sc: Scheme<string>, lines: seq<string>, start: seq<string>, edits: seq<Edit<string>>) {
    forall section, key :: key != NO_NAME ==>
      Lookup(sc, lines, section, key) == Expected(sc, start, edits, section, key)
  }

  /** One request more, on lines that agree with the map so far. */
  lemma {:induction false} AgreesStep(sc: Scheme<string>, lines: seq<string>, start: seq<string>,
                                      edits: seq<Edit<string>>)
    requires sc.Sane() && WellFormed(sc, lines) && edits != [] && edits[|edits| - 1].Clean(sc)
    requires Agrees(sc, lines, start, edits[..|edits| - 1])
    ensures Agrees(sc, After(sc, lines, edits[|edits| - 1]), start, edits)
    ensures WellFormed(sc, After(sc, lines, edits[|edits| - 1]))
  {
    StaysWellFormed(sc, lines, edits[|edits| - 1]);
    forall section, key | key != NO_NAME
      ensures Lookup(sc, After(sc, lines, edits[|edits| - 1]), section, key) == Expected(sc, start, edits, section, key)
    {
      OneMore(sc, start, lines, edits, section, key);
    }
  }

  lemma {:induction false} AgreesBlank(sc: Scheme<string>, start: seq<string>, edits: seq<Edit<string>>)
    requires sc.Sane() && Agrees(sc, [], start, edits)
    ensures Agrees(sc, [sc.gap], start, edits)
    ensures WellFormed(sc, [sc.gap])
  {
    OnlyBlank(sc);
    forall section, key | key != NO_NAME
      ensures Lookup(sc, [sc.gap], section, key) == Expected(sc, start, edits, section, key)
    {
      assert Lookup(sc, [], section, key) == Expected(sc, start, edits, section, key);
    }
  }

  /**
   The file is a persistent map. After any sequence of requests on a well-formed file, every name reads as the
   latest request for it left it (case aside), the file is well-formed, and it keeps the encoding and the
   newline style it had.
   */
  lemma {:induction false} FileRefinesMap(fold: CaseMap, codec: Codec, file: Option<seq<byte>>, requests: seq<Request>)
    requires WellFormed(Ini(fold), Read(codec, file).lines)
    requires forall i :: 0 <= i < |requests| ==> Proper(requests[i])
    requires RunDurable(fold, codec, file, requests)
    ensures var start, end := Read(codec, file), Read(codec, FileRun(fold, codec, file, requests));
            && WellFormed(Ini(fold), end.lines)
            && Agrees(Ini(fold), end.lines, start.lines, Edits(fold, requests))
            && end.encoding == start.encoding && end.newline == start.newline
  {
    if requests != [] {
      var front, last := requests[..|requests| - 1], requests[|requests| - 1];
      FileRefinesMap(fold, codec, file, front);
      FileStep(fold, codec, file, requests);
    }
  }

  lemma {:induction false} FileStep(fold: CaseMap, codec: Codec, file: Option<seq<byte>>, requests: seq<Request>)
    requires requests != [] && Proper(requests[|requests| - 1])
    requires RunDurable(fold, codec, file, requests)
    requires var mid := Read(codec, FileRun(fold, codec, file, requests[..|requests| - 1]));
             && WellFormed(Ini(fold), mid.lines)
             && Agrees(Ini(fold), mid.lines, Read(codec, file).lines, Edits(fold, requests[..|requests| - 1]))
    ensures var mid := Read(codec, FileRun(fold, codec, file, requests[..|requests| - 1]));
            var end := Read(codec, FileRun(fold, codec, file, requests));
            && WellFormed(Ini(fold), end.lines)
            && Agrees(Ini(fold), end.lines, Read(codec, file).lines, Edits(fold, requests))
            && end.encoding == mid.encoding && end.newline == mid.newline
  {
    var front, last := requests[..|requests| - 1], requests[|requests| - 1];
    var current := FileRun(fold, codec, file, front);
    var sc, edits := Ini(fold), Edits(fold, requests);
    assert edits[..|edits| - 1] == Edits(fold, front);
    CleanRequest(fold, last);
    IniSane(fold);
    AgreesStep(sc, Read(codec, current).lines, Read(codec, file).lines, edits);
    NextRead(fold, codec, current, last);
    if After(sc, Read(codec, current).lines, last.AsEdit(fold)) == [] {
      AgreesBlank(sc, Read(codec, file).lines, edits);
    }
  }

  // ---------- the same, as a caller sees it ----------

  /** The request is about this section and key, case aside. */
  predicate About(fold: CaseMap, request: Request, section: string, key: string) {
    && Fold(fold, request.section) == Fold(fold, section)
    && (request.key.None? || Fold(fold, request.key.value) == Fold(fold, key))
  }

  /** The value of the latest request about the name: trimmed and unquoted, none if it was a deletion. */
  function Latest(fold: CaseMap, lines: seq<string>, requests: seq<Request>, section: string,
                  key: string): Option<string> {
    if requests == [] then Value(fold, lines, section, key)
    else
      var last := requests[|requests| - 1];
      if !About(fold, last, section, key) then Latest(fold, lines, requests[..|requests| - 1], section, key)
      else if last.IsWrite() then Some(Normal(last.value.value))
      else None
  }

  lemma {:induction false} ExpectedIsLatest(fold: CaseMap, lines: seq<string>, requests: seq<Request>, section: string,
                                            key: string)
    requires forall i :: 0 <= i < |requests| ==> Proper(requests[i])
    ensures Latest(fold, lines, requests, section, key)
            == match Expected(Ini(fold), lines, Edits(fold, requests), NameOf(fold, section), NameOf(fold, key))
               case None => None
               case Some(line) => Some(ValueOf(line))
  {
    if requests != [] {
      var front, last := requests[..|requests| - 1], requests[|requests| - 1];
      ExpectedIsLatest(fold, lines, front, section, key);
      var edits := Edits(fold, requests);
      assert edits[..|edits| - 1] == Edits(fold, front);
      assert edits[|edits| - 1] == last.AsEdit(fold);
      SameTarget(fold, last, section, key);
      if last.IsWrite() {
        KeyLineShape(last.key.value, last.value.value);
      }
    }
  }

  lemma {:induction false} SameTarget(fold: CaseMap, request: Request, section: string, key: string)
    ensures About(fold, request, section, key)
            <==> request.AsEdit(fold).Touches(NameOf(fold, section), NameOf(fold, key))
  {
  }

  /** After any run, a reader of any name gets the latest value written for it, or nothing if it was deleted. */
  lemma {:induction false} ReaderSeesLatest(fold: CaseMap, codec: Codec, file: Option<seq<byte>>,
                                            requests: seq<Request>, section: string, key: string)
    requires WellFormed(Ini(fold), Read(codec, file).lines)
    requires forall i :: 0 <= i < |requests| ==> Proper(requests[i])
    requires RunDurable(fold, codec, file, requests)
    requires key != ""
    ensures Value(fold, Read(codec, FileRun(fold, codec, file, requests)).lines, section, key)
            == Latest(fold, Read(codec, file).lines, requests, section, key)
  {
    FileRefinesMap(fold, codec, file, requests);
    var start, end := Read(codec, file).lines, Read(codec, FileRun(fold, codec, file, requests)).lines;
    ExpectedIsLatest(fold, start, requests, section, key);
    assert NameOf(fold, key) != NO_NAME;
    assert Lookup(Ini(fold), end, NameOf(fold, section), NameOf(fold, key))
        == Expected(Ini(fold), start, Edits(fold, requests), NameOf(fold, section), NameOf(fold, key));
  }

  // ---------- runs within the repertoire of the encoding ----------

  /** The repertoire has the characters the editor itself writes. */
  predicate HasMarks(ok: Repertoire) {
    ok('[') && ok(']') && ok('=') && ok('\r') && ok('\n')
  }

  /** What the request writes consists of characters of the repertoire. */
  ghost predicate Representable(ok: Repertoire, request: Request) {
    request.IsWrite() ==>
      InRepertoire(ok, request.section) && InRepertoire(ok, request.key.value) && InRepertoire(ok, request.value.value)
  }

  ghost predicate AllWritable(ok: Repertoire, requests: seq<Request>) {
    forall i :: 0 <= i < |requests| ==> Proper(requests[i]) && Representable(ok, requests[i])
  }

  lemma {:induction false} StaysInRepertoire(ok: Repertoire, fold: CaseMap, lines: seq<string>, request: Request)
    requires HasMarks(ok) && Representable(ok, request) && AllInRepertoire(ok, lines)
    ensures AllInRepertoire(ok, After(Ini(fold), lines, request.AsEdit(fold)))
  {
    var edit := request.AsEdit(fold);
    var after := After(Ini(fold), lines, edit);
    forall i | 0 <= i < |after|
      ensures InRepertoire(ok, after[i])
    {
      WrittenInRepertoire(ok, request);
      AfterElements(Ini(fold), lines, edit, after[i]);
    }
  }

  lemma {:induction false} WrittenInRepertoire(ok: Repertoire, request: Request)
    requires HasMarks(ok) && Representable(ok, request)
    ensures request.IsWrite() ==>
              && InRepertoire(ok, HeaderLine(request.section))
              && InRepertoire(ok, KeyLine(request.key.value, request.value.value))
  {
  }

  /** A file with an encoding mark: every run on it is durable, and it keeps its mark. */
  lemma {:induction false} MarkedFileDurable(ok: Repertoire, fold: CaseMap, codec: Codec, file: Option<seq<byte>>,
                                             requests: seq<Request>)
    requires !Read(codec, file).encoding.Ansi? && Faithful(codec, Read(codec, file).encoding, ok) && HasMarks(ok)
    requires AllInRepertoire(ok, Read(codec, file).lines) && AllWritable(ok, requests)
    ensures RunDurable(fold, codec, file, requests)
    ensures var end := Read(codec, FileRun(fold, codec, file, requests));
            end.encoding == Read(codec, file).encoding && AllInRepertoire(ok, end.lines)
  {
    if requests != [] {
      var front, last := requests[..|requests| - 1], requests[|requests| - 1];
      MarkedFileDurable(ok, fold, codec, file, front);
      var current := FileRun(fold, codec, file, front);
      var doc := Read(codec, current);
      StaysInRepertoire(ok, fold, doc.lines, last);
      match Apply(Ini(fold), doc.lines, last.AsEdit(fold)) {
        case None =>
        case Some(lines) =>
          TextInRepertoire(ok, lines, doc.newline);
          MarkDetected(doc.encoding, codec.encode(doc.encoding, TextOf(lines, doc.newline)));
      }
      NextRead(fold, codec, current, last);
    }
  }

  predicate IsStart(text: string) {
    text != "" && (text[0] == '[' || text[0] == '\r' || text[0] == '\n')
  }

  /** An unmarked text of the repertoire that starts with a header or a line break does not look marked. */
  ghost predicate PlainStart(codec: Codec, ok: Repertoire) {
    forall text :: InRepertoire(ok, text) && IsStart(text) ==> Detect(codec.encode(Ansi, text)) == Ansi
  }

  predicate IsOpening(line: string) {
    line == "" || line[0] == '['
  }

  /** The lines of a file that the editor made itself. */
  ghost predicate OwnLines(lines: seq<string>) {
    && (lines != [] ==> IsOpening(lines[0]))
    && (forall x :: x in lines && IsHeader(x) ==> IsOpening(x))
  }

  lemma {:induction false} StaysOwn(fold: CaseMap, lines: seq<string>, request: Request)
    requires Proper(request) && OwnLines(lines)
    ensures OwnLines(After(Ini(fold), lines, request.AsEdit(fold)))
  {
    var edit := request.AsEdit(fold);
    CleanRequest(fold, request);
    FirstElementKept(Ini(fold), lines, edit, IsOpening);
    forall x | x in After(Ini(fold), lines, edit) && IsHeader(x)
      ensures IsOpening(x)
    {
      AfterElements(Ini(fold), lines, edit, x);
    }
  }

  lemma {:induction false} OwnTextStart(lines: seq<string>, newline: Newline)
    requires OwnLines(lines)
    ensures IsStart(TextOf(lines, newline))
  {
    var n := newline.Chars();
    if lines == [] {
      assert TextOf(lines, newline) == n;
    } else {
      var rest := if |lines| == 1 then "" else TextOf(lines[1..], newline);
      TextStep(lines, newline, rest);
    }
  }

  /** A file the editor creates: every run that starts without a file is durable. */
  lemma {:induction false} NewFileDurable(ok: Repertoire, fold: CaseMap, codec: Codec, requests: seq<Request>)
    requires Faithful(codec, Ansi, ok) && PlainStart(codec, ok) && HasMarks(ok) && AllWritable(ok, requests)
    ensures RunDurable(fold, codec, None, requests)
    ensures var doc := Read(codec, FileRun(fold, codec, None, requests));
            doc.encoding == Ansi && OwnLines(doc.lines) && AllInRepertoire(ok, doc.lines)
  {
    if requests != [] {
      var front, last := requests[..|requests| - 1], requests[|requests| - 1];
      NewFileDurable(ok, fold, codec, front);
      var current := FileRun(fold, codec, None, front);
      OwnStepDurable(ok, fold, codec, current, last);
      NextRead(fold, codec, current, last);
    }
  }

  lemma {:induction false} OwnStepDurable(ok: Repertoire, fold: CaseMap, codec: Codec, file: Option<seq<byte>>,
                                          request: Request)
    requires Faithful(codec, Ansi, ok) && PlainStart(codec, ok) && HasMarks(ok)
    requires Proper(request) && Representable(ok, request)
    requires var doc := Read(codec, file);
             doc.encoding == Ansi && OwnLines(doc.lines) && AllInRepertoire(ok, doc.lines)
    ensures StepDurable(fold, codec, file, request)
    ensures var after := After(Ini(fold), Read(codec, file).lines, request.AsEdit(fold));
            OwnLines(after) && AllInRepertoire(ok, after)
  {
    var doc := Read(codec, file);
    StaysOwn(fold, doc.lines, request);
    StaysInRepertoire(ok, fold, doc.lines, request);
    match Apply(Ini(fold), doc.lines, request.AsEdit(fold))
    case None =>
    case Some(lines) =>
      OwnTextStart(lines, doc.newline);
      TextInRepertoire(ok, lines, doc.newline);
      MarkDetected(Ansi, codec.encode(Ansi, TextOf(lines, doc.newline)));
  }

  /** From nothing, any run of requests makes a file that reads as the map the requests describe. */
  lemma {:induction false} NewFileIsMap(ok: Repertoire, fold: CaseMap, codec: Codec, requests: seq<Request>,
                                        section: string, key: string)
    requires Faithful(codec, Ansi, ok) && PlainStart(codec, ok) && HasMarks(ok) && AllWritable(ok, requests)
    requires key != ""
    ensures Value(fold, Read(codec, FileRun(fold, codec, None, requests)).lines, section, key)
            == Latest(fold, [], requests, section, key)
    ensures Read(codec, FileRun(fold, codec, None, requests)).encoding == Ansi
    ensures Read(codec, FileRun(fold, codec, None, requests)).newline.Chars() == "\r\n"
  {
    NewFileDurable(ok, fold, codec, requests);
    IniSane(fold);
    OnlyBlank(Ini(fold));
    FileRefinesMap(fold, codec, None, requests);
    ReaderSeesLatest(fold, codec, None, requests, section, key);
  }

  /** A code page that replaces the characters it lacks meets all that is asked of an encoder. */
  lemma {:induction false} CodePageSuffices()
    ensures Faithful(CodePage(), Ansi, IsLatin) && PlainStart(CodePage(), IsLatin) && HasMarks(IsLatin)
  {
    CodePageFaithful(Ansi);
    forall text | IsStart(text)
      ensures Detect(CodePage().encode(Ansi, text)) == Ansi
    {
      assert CodePage().encode(Ansi, text)[0] == ByteOf(text[0]);
    }
  }
}
