/** Between the bytes of a profile file and its lines: encoding marks, newline styles, splitting and joining. */
module IniText {
  import opened Text

  newtype byte = x: int | 0 <= x < 256

  datatype Encoding = Ansi | Utf16 | Utf8

  datatype Newline = CrLf | Lf {
    function Chars(): string {
      if CrLf? then "\r\n" else "\n"
    }
  }

  /** The encoders and decoders of the runtime, mark excluded. */
  datatype Codec = Codec(encode: (Encoding, string) -> seq<byte>, decode: (Encoding, seq<byte>) -> string)

  /** What the editor keeps of a file while it works on it. */
  datatype Document = Document(lines: seq<string>, encoding: Encoding, newline: Newline)

  function Preamble(encoding: Encoding): seq<byte> {
    match encoding
    case Ansi => []
    case Utf16 => [0xFF, 0xFE]
    case Utf8 => [0xEF, 0xBB, 0xBF]
  }

  function Detect(bytes: seq<byte>): Encoding {
    if Preamble(Utf16) <= bytes then Utf16
    else if Preamble(Utf8) <= bytes then Utf8
    else Ansi
  }

  predicate HasCrLf(text: string) {
    exists i :: 0 < i < |text| && text[i - 1] == '\r' && text[i] == '\n'
  }

  function NewlineOf(text: string): Newline {
    if !HasCrLf(text) && '\n' in text then Lf else CrLf
  }

  predicate IsCr(c: char) {
    c == '\r'
  }

  function StripAll(parts: seq<string>): (r: seq<string>)
    ensures |r| == |parts|
  {
    if parts == [] then [] else [TrimEnd(IsCr, parts[0])] + StripAll(parts[1..])
  }

  /** A trailing newline leaves an empty last part, which is dropped. */
  function LinesOf(text: string): seq<string> {
    var parts := StripAll(Split(text, '\n'));
    if parts[|parts| - 1] == "" then parts[..|parts| - 1] else parts
  }

  function TextOf(lines: seq<string>, newline: Newline): string {
    Join(lines, newline.Chars()) + newline.Chars()
  }

  /** Reading: a file that does not exist is an empty ANSI document. */
  function Read(codec: Codec, file: Option<seq<byte>>): Document {
    match file
    case None => Document([], Ansi, CrLf)
    case Some(bytes) =>
      var encoding := Detect(bytes);
      var text := codec.decode(encoding, bytes[|Preamble(encoding)|..]);
      Document(LinesOf(text), encoding, NewlineOf(text))
  }

  function Write(codec: Codec, doc: Document): seq<byte> {
    Preamble(doc.encoding) + codec.encode(doc.encoding, TextOf(doc.lines, doc.newline))
  }

  // ---------- lines and text ----------

  /** A line that survives being written and read. */
  predicate Plain(line: string) {
    '\n' !in line && (line != "" ==> line[|line| - 1] != '\r')
  }

  ghost predicate AllPlain(lines: seq<string>) {
    forall i :: 0 <= i < |lines| ==> Plain(lines[i])
  }

  lemma {:induction false} StripPlain(x: string)
    requires Plain(x)
    ensures TrimEnd(IsCr, x) == x
    ensures TrimEnd(IsCr, x + "\r") == x
  {
    var y := x + "\r";
    assert y[..|y| - 1] == x;
  }

  lemma {:induction false} SplitLine(x: string, newline: Newline, rest: string)
    requires Plain(x)
    ensures StripAll(Split(x + newline.Chars() + rest, '\n')) == [x] + StripAll(Split(rest, '\n'))
  {
    var line := if newline.CrLf? then x + "\r" else x;
    StripPlain(x);
    assert x + newline.Chars() + rest == line + "\n" + rest;
    assert "\n" == ['\n'];
    SplitHead(line, '\n', rest);
    assert ([line] + Split(rest, '\n'))[1..] == Split(rest, '\n');
  }

  /** The parts of a written text are the lines and one empty part. */
  lemma {:induction false} SplitText(lines: seq<string>, newline: Newline)
    requires lines != [] && AllPlain(lines)
    ensures StripAll(Split(TextOf(lines, newline), '\n')) == lines + [""]
  {
    var rest := if |lines| == 1 then "" else TextOf(lines[1..], newline);
    TextStep(lines, newline, rest);
    SplitLine(lines[0], newline, rest);
    if |lines| == 1 {
      NoParts(rest);
    } else {
      SplitText(lines[1..], newline);
    }
    Cons(lines, StripAll(Split(rest, '\n')));
  }

  lemma {:induction false} NoParts(rest: string)
    requires rest == ""
    ensures StripAll(Split(rest, '\n')) == [""]
  {
  }

  lemma {:induction false} Cons(lines: seq<string>, tail: seq<string>)
    requires lines != [] && tail == lines[1..] + [""]
    ensures [lines[0]] + tail == lines + [""]
  {
  }

  lemma {:induction false} TextStep(lines: seq<string>, newline: Newline, rest: string)
    requires lines != [] && rest == if |lines| == 1 then "" else TextOf(lines[1..], newline)
    ensures TextOf(lines, newline) == lines[0] + newline.Chars() + rest
  {
  }

  lemma {:induction false} LinesOfText(lines: seq<string>, newline: Newline)
    requires AllPlain(lines)
    ensures LinesOf(TextOf(lines, newline)) == if lines == [] then [""] else lines
  {
    if lines == [] {
      assert TextOf(lines, newline) == TextOf([""], newline);
      SplitText([""], newline);
      assert [""] + [""] == ["", ""];
    } else {
      SplitText(lines, newline);
    }
  }

  /** Whatever is read consists of plain lines. */
  lemma {:induction false} StripAllPlain(parts: seq<string>)
    requires forall i :: 0 <= i < |parts| ==> '\n' !in parts[i]
    ensures AllPlain(StripAll(parts))
  {
    if parts != [] {
      TrimEndPrefix(IsCr, parts[0]);
      StripAllPlain(parts[1..]);
    }
  }

  lemma {:induction false} SplitNoNewline(s: string)
    ensures forall i :: 0 <= i < |Split(s, '\n')| ==> '\n' !in Split(s, '\n')[i]
    decreases |s|
  {
    var i := Find(s, '\n');
    if i < |s| {
      SplitNoNewline(s[i + 1..]);
    }
  }

  lemma {:induction false} ReadsPlain(text: string)
    ensures AllPlain(LinesOf(text))
    ensures text != "" && text[|text| - 1] == '\n' ==> LinesOf(text) != []
  {
    SplitNoNewline(text);
    StripAllPlain(Split(text, '\n'));
    if text != "" && text[|text| - 1] == '\n' {
      assert Find(text, '\n') < |text|;
    }
  }

  // ---------- any text ----------

  predicate OnlyReturns(s: string) {
    forall i :: 0 <= i < |s| ==> s[i] == '\r'
  }

  /** The line is the stretch without the carriage returns that close it. */
  ghost predicate IsStripped(stretch: string, line: string) {
    && line <= stretch && (forall i :: |line| <= i < |stretch| ==> stretch[i] == '\r')
    && (line != "" ==> line[|line| - 1] != '\r')
  }

  lemma {:induction false} StripAt(parts: seq<string>, i: nat)
    requires i < |parts|
    ensures IsStripped(parts[i], StripAll(parts)[i])
  {
    if i == 0 {
      TrimEndPrefix(IsCr, parts[0]);
      var trail := TrimEndSplits(IsCr, parts[0]);
      assert forall k :: |parts[0]| - |trail| <= k < |parts[0]| ==> parts[0][k] == trail[k - |parts[0]| + |trail|];
    } else {
      StripAt(parts[1..], i - 1);
    }
  }

  /**
   What is read from any text, whatever its newlines: the stretches between its line feeds, in order, each without
   the carriage returns that close it; all of them but the last, which counts only if something is left of it.
   */
  lemma {:induction false} LinesRead(text: string) returns (stretches: seq<string>)
    ensures stretches != [] && text == Join(stretches, "\n")
    ensures forall i :: 0 <= i < |stretches| ==> '\n' !in stretches[i]
    ensures var lines := LinesOf(text);
            && |stretches| - 1 <= |lines| <= |stretches|
            && (|lines| == |stretches| <==> !OnlyReturns(stretches[|stretches| - 1]))
            && forall i :: 0 <= i < |lines| ==> IsStripped(stretches[i], lines[i])
  {
    stretches := Split(text, '\n');
    JoinSplit(text, '\n');
    assert "\n" == ['\n'];
    forall i | 0 <= i < |stretches|
      ensures IsStripped(stretches[i], StripAll(stretches)[i])
    {
      StripAt(stretches, i);
    }
  }

  /** Those stretches are the only ones. */
  lemma {:induction false} StretchesUnique(stretches: seq<string>, others: seq<string>)
    requires stretches != [] && others != [] && Join(stretches, "\n") == Join(others, "\n")
    requires forall i :: 0 <= i < |stretches| ==> '\n' !in stretches[i]
    requires forall i :: 0 <= i < |others| ==> '\n' !in others[i]
    ensures stretches == others
  {
    assert "\n" == ['\n'];
    SplitJoin(stretches, '\n');
    SplitJoin(others, '\n');
  }

  /** Lines that are each ended, and a last one that is not. */
  function Unended(lines: seq<string>, newline: Newline, last: string): string {
    if lines == [] then last else lines[0] + newline.Chars() + Unended(lines[1..], newline, last)
  }

  lemma {:induction false} UnendedIs(lines: seq<string>, newline: Newline, last: string)
    requires lines != []
    ensures Unended(lines, newline, last) == TextOf(lines, newline) + last
  {
    var rest := if |lines| == 1 then "" else TextOf(lines[1..], newline);
    TextStep(lines, newline, rest);
    if |lines| > 1 {
      UnendedIs(lines[1..], newline, last);
    } else {
      assert lines[1..] == [];
    }
  }

  /** A text that ends without a newline has its last line all the same. */
  lemma {:induction false} UnendedLine(lines: seq<string>, newline: Newline, last: string)
    requires AllPlain(lines) && Plain(last) && last != ""
    ensures LinesOf(Unended(lines, newline, last)) == lines + [last]
    ensures lines != [] ==> LinesOf(TextOf(lines, newline) + last) == lines + [last]
  {
    UnendedParts(lines, newline, last);
    if lines != [] {
      UnendedIs(lines, newline, last);
    }
    assert (lines + [last])[|lines|] != "";
  }

  lemma {:induction false} UnendedParts(lines: seq<string>, newline: Newline, last: string)
    requires AllPlain(lines) && Plain(last)
    ensures StripAll(Split(Unended(lines, newline, last), '\n')) == lines + [last]
  {
    if lines == [] {
      OneStretch(last);
    } else {
      UnendedParts(lines[1..], newline, last);
      SplitLine(lines[0], newline, Unended(lines[1..], newline, last));
      OneInFront(lines, last);
    }
  }

  lemma {:induction false} OneInFront(lines: seq<string>, last: string)
    requires lines != []
    ensures lines + [last] == [lines[0]] + (lines[1..] + [last])
  {
  }

  lemma {:induction false} OneStretch(last: string)
    requires Plain(last)
    ensures StripAll(Split(last, '\n')) == [last]
  {
    assert Find(last, '\n') == |last|;
    StripPlain(last);
    assert [last][1..] == [];
  }

  /** The style is a bare line feed only if there is one and no line feed follows a carriage return. */
  lemma {:induction false} StyleRead(text: string)
    ensures NewlineOf(text) == Lf
            <==> '\n' in text && forall i :: 0 < i < |text| && text[i] == '\n' ==> text[i - 1] != '\r'
  {
  }

  /** The marks: two bytes for UTF-16, three for UTF-8, nothing for the code page; the text starts behind them. */
  lemma {:induction false} MarksRead(codec: Codec, bytes: seq<byte>)
    ensures var doc := Read(codec, Some(bytes));
            var (encoding, skip) :=
              if |bytes| >= 2 && bytes[0] == 0xFF && bytes[1] == 0xFE then (Utf16, 2)
              else if |bytes| >= 3 && bytes[0] == 0xEF && bytes[1] == 0xBB && bytes[2] == 0xBF then (Utf8, 3)
              else (Ansi, 0);
            doc.encoding == encoding && doc.lines == LinesOf(codec.decode(encoding, bytes[skip..]))
  {
  }

  // ---------- newline styles ----------

  lemma {:induction false} CrLfHead(x: string, rest: string)
    requires Plain(x) && !HasCrLf(rest)
    ensures !HasCrLf(x + "\n" + rest)
  {
    var s := x + "\n" + rest;
    forall i | 0 < i < |s|
      ensures !(s[i - 1] == '\r' && s[i] == '\n')
    {
      if i > |x| + 1 {
        assert s[i - 1] == rest[i - |x| - 2] && s[i] == rest[i - |x| - 1];
      }
    }
  }

  lemma {:induction false} NoCrLf(lines: seq<string>)
    requires lines != [] && AllPlain(lines)
    ensures !HasCrLf(TextOf(lines, Lf))
  {
    if |lines| == 1 {
      CrLfHead(lines[0], "");
      assert TextOf(lines, Lf) == lines[0] + "\n" + "";
    } else {
      NoCrLf(lines[1..]);
      CrLfHead(lines[0], TextOf(lines[1..], Lf));
      assert TextOf(lines, Lf) == lines[0] + "\n" + TextOf(lines[1..], Lf);
    }
  }

  /** The newline style of a written text is detected again. */
  lemma {:induction false} NewlineKept(lines: seq<string>, newline: Newline)
    requires AllPlain(lines)
    ensures NewlineOf(TextOf(lines, newline)) == newline
  {
    var text := TextOf(lines, newline);
    assert text[|text| - 1] == '\n';
    if newline.Lf? {
      if lines == [] {
        assert text == TextOf([""], Lf);
        NoCrLf([""]);
      } else {
        NoCrLf(lines);
      }
    } else {
      assert text[|text| - 2] == '\r' && text[|text| - 1] == '\n';
    }
  }

  // ---------- the round trip ----------

  /** The encoder keeps this text, and an unmarked file of it does not look marked. */
  predicate Durable(codec: Codec, doc: Document) {
    var text := TextOf(doc.lines, doc.newline);
    && codec.decode(doc.encoding, codec.encode(doc.encoding, text)) == text
    && Detect(Write(codec, doc)) == doc.encoding
  }

  lemma {:induction false} ReadWrite(codec: Codec, doc: Document)
    requires Durable(codec, doc) && AllPlain(doc.lines)
    ensures Read(codec, Some(Write(codec, doc))) == doc.(lines := if doc.lines == [] then [""] else doc.lines)
  {
    var text := TextOf(doc.lines, doc.newline);
    assert Write(codec, doc)[|Preamble(doc.encoding)|..] == codec.encode(doc.encoding, text);
    LinesOfText(doc.lines, doc.newline);
    NewlineKept(doc.lines, doc.newline);
  }

  /**
   Reading back what was written yields the same lines, newline style and encoding exactly when there is a
   line, every line is plain, and an unmarked file does not happen to start with the bytes of a mark.
   */
  lemma {:induction false} RoundTrip(codec: Codec, doc: Document)
    requires var text := TextOf(doc.lines, doc.newline);
             codec.decode(doc.encoding, codec.encode(doc.encoding, text)) == text
    ensures Read(codec, Some(Write(codec, doc))) == doc
            <==> doc.lines != [] && AllPlain(doc.lines)
                 && (doc.encoding.Ansi? ==> Detect(codec.encode(Ansi, TextOf(doc.lines, doc.newline))).Ansi?)
  {
    var text := TextOf(doc.lines, doc.newline);
    var bytes := Write(codec, doc);
    MarkDetected(doc.encoding, codec.encode(doc.encoding, text));
    if Detect(bytes) == doc.encoding {
      assert bytes[|Preamble(doc.encoding)|..] == codec.encode(doc.encoding, text);
      assert text[|text| - 1] == '\n';
      ReadsPlain(text);
      if doc.lines != [] && AllPlain(doc.lines) {
        ReadWrite(codec, doc);
      }
    }
  }

  lemma {:induction false} MarkDetected(encoding: Encoding, body: seq<byte>)
    ensures Detect(Preamble(encoding) + body) == if encoding.Ansi? then Detect(body) else encoding
  {
    assert Preamble(Ansi) + body == body;
    if encoding.Utf8? {
      assert (Preamble(Utf8) + body)[0] == 0xEF;
    }
  }

  // ---------- what an encoding can hold ----------

  /** The characters an encoding has; a code page replaces all others. */
  type Repertoire = char -> bool

  ghost predicate InRepertoire(ok: Repertoire, s: string) {
    forall i :: 0 <= i < |s| ==> ok(s[i])
  }

  ghost predicate AllInRepertoire(ok: Repertoire, lines: seq<string>) {
    forall i :: 0 <= i < |lines| ==> InRepertoire(ok, lines[i])
  }

  /** Decoding undoes encoding on every text that consists of the encoding's own characters. */
  ghost predicate Faithful(codec: Codec, encoding: Encoding, ok: Repertoire) {
    forall text :: InRepertoire(ok, text) ==> codec.decode(encoding, codec.encode(encoding, text)) == text
  }

  lemma {:induction false} TextInRepertoire(ok: Repertoire, lines: seq<string>, newline: Newline)
    requires AllInRepertoire(ok, lines) && ok('\r') && ok('\n')
    ensures InRepertoire(ok, TextOf(lines, newline))
  {
    if lines != [] {
      var rest := if |lines| == 1 then "" else TextOf(lines[1..], newline);
      if |lines| > 1 {
        TextInRepertoire(ok, lines[1..], newline);
      }
      TextStep(lines, newline, rest);
      ConcatInRepertoire(ok, lines[0], newline.Chars());
      ConcatInRepertoire(ok, lines[0] + newline.Chars(), rest);
    }
  }

  lemma {:induction false} ConcatInRepertoire(ok: Repertoire, a: string, b: string)
    requires InRepertoire(ok, a) && InRepertoire(ok, b)
    ensures InRepertoire(ok, a + b)
  {
  }

  // ---------- a code page ----------

  predicate IsLatin(c: char) {
    c as int < 256
  }

  /** One byte per character, and a question mark for a character without one. */
  function ByteOf(c: char): byte {
    if IsLatin(c) then (c as int) as byte else 0x3F
  }

  function CharOf(b: byte): char {
    (b as int) as char
  }

  function BytesOf(text: string): (r: seq<byte>)
    ensures |r| == |text| && forall i :: 0 <= i < |text| ==> r[i] == ByteOf(text[i])
  {
    seq(|text|, i requires 0 <= i < |text| => ByteOf(text[i]))
  }

  function CharsOf(bytes: seq<byte>): (r: string)
    ensures |r| == |bytes| && forall i :: 0 <= i < |bytes| ==> r[i] == CharOf(bytes[i])
  {
    seq(|bytes|, i requires 0 <= i < |bytes| => CharOf(bytes[i]))
  }

  function CodePage(): Codec {
    Codec((_, text) => BytesOf(text), (_, bytes) => CharsOf(bytes))
  }

  lemma {:induction false} CodePageFaithful(encoding: Encoding)
    ensures Faithful(CodePage(), encoding, IsLatin)
  {
    forall text | InRepertoire(IsLatin, text)
      ensures CharsOf(BytesOf(text)) == text
    {
      assert forall i :: 0 <= i < |text| ==> CharOf(ByteOf(text[i])) == text[i];
    }
  }

  /** Unmarked files that look marked exist: any whose first line starts with the two characters of a mark's bytes. */
  lemma {:induction false} FalseMark(lines: seq<string>, newline: Newline)
    requires lines != [] && |lines[0]| >= 2 && lines[0][0] == '\U{FF}' && lines[0][1] == '\U{FE}'
    ensures var doc := Document(lines, Ansi, newline);
            Read(CodePage(), Some(Write(CodePage(), doc))).encoding == Utf16
  {
    StartsLikeFirst(lines, newline);
    var text := TextOf(lines, newline);
    var bytes := Write(CodePage(), Document(lines, Ansi, newline));
    assert bytes == BytesOf(text);
    LooksUtf16(text);
    EncodingDetected(CodePage(), bytes);
  }

  lemma {:induction false} StartsLikeFirst(lines: seq<string>, newline: Newline)
    requires lines != []
    ensures lines[0] <= TextOf(lines, newline)
  {
    TextStep(lines, newline, if |lines| == 1 then "" else TextOf(lines[1..], newline));
  }

  lemma {:induction false} LooksUtf16(text: string)
    requires |text| >= 2 && text[0] == '\U{FF}' && text[1] == '\U{FE}'
    ensures Detect(BytesOf(text)) == Utf16
  {
  }

  lemma {:induction false} EncodingDetected(codec: Codec, bytes: seq<byte>)
    ensures Read(codec, Some(bytes)).encoding == Detect(bytes)
  {
  }
}
