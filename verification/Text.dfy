/** Strings as the tools and the server see them: case maps, trimming, searching and splitting. */
module Text {

  datatype Option<+T> = None | Some(value: T)

  /** A case-folded name. */
  datatype Name = Name(text: string)

  const NO_NAME := Name("")

  /** White space and the ASCII characters that are not letters: no case map of the runtime moves or produces one. */
  predicate IsMark(c: char) {
    (c < 128 as char && !('a' <= c <= 'z') && !('A' <= c <= 'Z')) || IsWhiteSpace(c)
  }

  ghost predicate KeepsMarks(f: char -> char) {
    forall c {:trigger f(c)} :: IsMark(c) || IsMark(f(c)) ==> f(c) == c
  }

  /** A character-by-character case map: upper-casing for an ordinal comparison, lower-casing for a file name. */
  type CaseMap = f: char -> char | KeepsMarks(f) witness (c: char) => c

  /** Characters that trimming removes. */
  type SpaceClass = char -> bool

  function Fold(fold: CaseMap, s: string): (r: string)
    ensures |r| == |s|
    ensures forall i :: 0 <= i < |s| ==> r[i] == fold(s[i])
  {
    seq(|s|, i requires 0 <= i < |s| => fold(s[i]))
  }

  function NameOf(fold: CaseMap, s: string): Name {
    Name(Fold(fold, s))
  }

  lemma {:induction false} FoldConcat(fold: CaseMap, a: string, b: string)
    ensures Fold(fold, a + b) == Fold(fold, a) + Fold(fold, b)
  {
  }

  /** `Char.IsWhiteSpace`, the class that `String.Trim` removes. */
  predicate IsWhiteSpace(c: char) {
    || '\t' <= c <= '\r'
    || c == ' ' || c == '\U{85}' || c == '\U{A0}' || c == '\U{1680}'
    || '\U{2000}' <= c <= '\U{200A}'
    || c == '\U{2028}' || c == '\U{2029}' || c == '\U{202F}' || c == '\U{205F}' || c == '\U{3000}'
  }

  /** Of the ASCII characters: blank, tab, line feed, vertical tab, form feed and carriage return, and no other. */
  lemma {:induction false} AsciiWhite(c: char)
    requires c as int < 128
    ensures IsWhiteSpace(c) <==> c as int == 32 || c as int in {9, 10, 11, 12, 13}
  {
  }

  function TrimStart(space: SpaceClass, s: string): string {
    if s != "" && space(s[0]) then TrimStart(space, s[1..]) else s
  }

  function TrimEnd(space: SpaceClass, s: string): string {
    if s != "" && space(s[|s| - 1]) then TrimEnd(space, s[..|s| - 1]) else s
  }

  function Trim(space: SpaceClass, s: string): string {
    TrimEnd(space, TrimStart(space, s))
  }

  /** Neither end is a character of the class. */
  predicate Trimmed(space: SpaceClass, s: string) {
    s != "" ==> !space(s[0]) && !space(s[|s| - 1])
  }

  lemma {:induction false} TrimStartSuffix(space: SpaceClass, s: string)
    ensures var r := TrimStart(space, s);
            |r| <= |s| && r == s[|s| - |r|..] && (r != "" ==> !space(r[0]))
  {
    if s != "" && space(s[0]) {
      TrimStartSuffix(space, s[1..]);
    }
  }

  lemma {:induction false} TrimEndPrefix(space: SpaceClass, s: string)
    ensures var r := TrimEnd(space, s);
            && |r| <= |s| && r == s[..|r|] && (r != "" ==> !space(r[|r| - 1]))
            && (s != "" && !space(s[0]) ==> r != "")
  {
    if s != "" && space(s[|s| - 1]) {
      TrimEndPrefix(space, s[..|s| - 1]);
    }
  }

  ghost predicate AllSpace(space: SpaceClass, s: string) {
    forall i :: 0 <= i < |s| ==> space(s[i])
  }

  /** Trimming at the start is dropping characters of the class up to the first other one. */
  lemma {:induction false} TrimStartSplits(space: SpaceClass, s: string) returns (lead: string)
    ensures s == lead + TrimStart(space, s) && AllSpace(space, lead)
  {
    if s != "" && space(s[0]) {
      var rest := TrimStartSplits(space, s[1..]);
      lead := [s[0]] + rest;
    } else {
      lead := "";
    }
  }

  lemma {:induction false} TrimStartIs(space: SpaceClass, lead: string, rest: string)
    requires AllSpace(space, lead) && (rest != "" ==> !space(rest[0]))
    ensures TrimStart(space, lead + rest) == rest
  {
    if lead == "" {
      assert lead + rest == rest;
    } else {
      assert (lead + rest)[1..] == lead[1..] + rest;
      TrimStartIs(space, lead[1..], rest);
    }
  }

  lemma {:induction false} TrimEndSplits(space: SpaceClass, s: string) returns (trail: string)
    ensures s == TrimEnd(space, s) + trail && AllSpace(space, trail)
  {
    if s != "" && space(s[|s| - 1]) {
      var rest := TrimEndSplits(space, s[..|s| - 1]);
      trail := rest + [s[|s| - 1]];
    } else {
      trail := "";
    }
  }

  lemma {:induction false} TrimEndIs(space: SpaceClass, rest: string, trail: string)
    requires AllSpace(space, trail) && (rest != "" ==> !space(rest[|rest| - 1]))
    ensures TrimEnd(space, rest + trail) == rest
  {
    if trail == "" {
      assert rest + trail == rest;
    } else {
      assert (rest + trail)[..|rest + trail| - 1] == rest + trail[..|trail| - 1];
      TrimEndIs(space, rest, trail[..|trail| - 1]);
    }
  }

  /** Trimming takes off the characters of the class around a trimmed string, and nothing else. */
  lemma {:induction false} TrimIs(space: SpaceClass, lead: string, s: string, trail: string)
    requires AllSpace(space, lead) && AllSpace(space, trail) && s != "" && Trimmed(space, s)
    ensures Trim(space, lead + s + trail) == s
  {
    assert lead + s + trail == lead + (s + trail) && (s + trail)[0] == s[0];
    TrimStartIs(space, lead, s + trail);
    TrimEndIs(space, s, trail);
  }

  /** Trimming yields a contiguous part of its argument, with both ends solid. */
  lemma {:induction false} TrimIsPart(space: SpaceClass, s: string)
    ensures Trimmed(space, Trim(space, s))
    ensures |Trim(space, s)| <= |s|
    ensures forall c :: c in Trim(space, s) ==> c in s
  {
    TrimStartSuffix(space, s);
    TrimEndPrefix(space, TrimStart(space, s));
  }

  /** Trimming is the identity exactly on trimmed strings. */
  lemma {:induction false} TrimFixed(space: SpaceClass, s: string)
    ensures Trim(space, s) == s <==> Trimmed(space, s)
  {
    TrimIsPart(space, s);
  }

  /** The index of the first `c`, or `|s|` when there is none. */
  function Find(s: string, c: char): (i: nat)
    ensures i <= |s|
    ensures i < |s| ==> s[i] == c
    ensures forall j :: 0 <= j < i ==> s[j] != c
  {
    if s == "" || s[0] == c then 0 else 1 + Find(s[1..], c)
  }

  predicate StartsWith(s: string, prefix: string) {
    prefix <= s
  }

  predicate EndsWith(s: string, suffix: string) {
    |suffix| <= |s| && s[|s| - |suffix|..] == suffix
  }

  /** The decimal digits of `n`, as a `%d` or `%u` conversion prints them. */
  function Decimal(n: nat): (r: string)
    ensures r != ""
    ensures forall i :: 0 <= i < |r| ==> '0' <= r[i] <= '9'
  {
    var last := ['0' + (n % 10) as char];
    if n < 10 then last else Decimal(n / 10) + last
  }

  lemma {:induction false} DecimalInjective(m: nat, n: nat)
    requires Decimal(m) == Decimal(n)
    ensures m == n
  {
    var p, q := Decimal(m), Decimal(n);
    assert p[|p| - 1] == '0' + (m % 10) as char && q[|q| - 1] == '0' + (n % 10) as char;
    assert m % 10 == n % 10;
    if m >= 10 && n >= 10 {
      assert Decimal(m / 10) == p[..|p| - 1] && Decimal(n / 10) == q[..|q| - 1];
      DecimalInjective(m / 10, n / 10);
    }
  }

  /** Splitting at every occurrence of one character. */
  function Split(s: string, c: char): (parts: seq<string>)
    ensures |parts| >= 1
  {
    var i := Find(s, c);
    if i == |s| then [s] else [s[..i]] + Split(s[i + 1..], c)
  }

  /** `string.Join`. */
  function Join(parts: seq<string>, sep: string): string {
    if parts == [] then ""
    else if |parts| == 1 then parts[0]
    else parts[0] + sep + Join(parts[1..], sep)
  }


  lemma {:induction false} SplitHead(x: string, c: char, rest: string)
    requires c !in x
    ensures Split(x + [c] + rest, c) == [x] + Split(rest, c)
  {
    var s := x + [c] + rest;
    assert s[|x|] == c && forall j :: 0 <= j < |x| ==> s[j] == x[j];
    assert Find(s, c) == |x|;
    assert s[..|x|] == x && s[|x| + 1..] == rest;
  }

  /** Splitting undoes joining, for parts without the separator. */
  lemma {:induction false} SplitJoin(parts: seq<string>, c: char)
    requires parts != [] && forall i :: 0 <= i < |parts| ==> c !in parts[i]
    ensures Split(Join(parts, [c]), c) == parts
  {
    if |parts| == 1 {
      assert Find(parts[0], c) == |parts[0]|;
    } else {
      SplitHead(parts[0], c, Join(parts[1..], [c]));
      SplitJoin(parts[1..], c);
      assert parts == [parts[0]] + parts[1..];
    }
  }

  /** And joining undoes splitting: every string is its parts, none of which has the separator. */
  lemma {:induction false} JoinSplit(s: string, c: char)
    ensures Join(Split(s, c), [c]) == s
    ensures forall i :: 0 <= i < |Split(s, c)| ==> c !in Split(s, c)[i]
    decreases |s|
  {
    var i := Find(s, c);
    if i < |s| {
      JoinSplit(s[i + 1..], c);
      assert Split(s, c)[1..] == Split(s[i + 1..], c);
      assert s == s[..i] + [c] + s[i + 1..];
    }
  }

  /** The number that decimal digits stand for. */
  function Number(digits: string): nat
    requires forall i :: 0 <= i < |digits| ==> '0' <= digits[i] <= '9'
  {
    if digits == "" then 0 else 10 * Number(digits[..|digits| - 1]) + (digits[|digits| - 1] - '0') as nat
  }

  /** The digits of a number stand for it, and have no leading zero. */
  lemma {:induction false} DecimalNumber(n: nat)
    ensures Number(Decimal(n)) == n
    ensures Decimal(n)[0] == '0' ==> n == 0
  {
    var d := Decimal(n);
    if n >= 10 {
      DecimalNumber(n / 10);
      assert d[..|d| - 1] == Decimal(n / 10);
    }
  }
}
