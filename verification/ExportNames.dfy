/** From folder names, which are IMAP data, to directory names that are legal and unique among siblings. */
module ExportNames {
  import opened Text

  const FORBIDDEN := "\\/:*?\"<>|"

  predicate IsForbidden(c: char) {
    c in FORBIDDEN
  }

  function Neutral(c: char): char {
    if IsForbidden(c) then '_' else c
  }

  function Neutralised(s: string): (r: string)
    ensures |r| == |s|
    ensures forall i :: 0 <= i < |s| ==> r[i] == Neutral(s[i])
  {
    seq(|s|, i requires 0 <= i < |s| => Neutral(s[i]))
  }

  predicate AllDots(s: string) {
    forall i :: 0 <= i < |s| ==> s[i] == '.'
  }

  /** A directory name that stays where it is put: no separator or other forbidden character, not only dots. */
  predicate IsSegment(s: string) {
    !AllDots(s) && forall i :: 0 <= i < |s| ==> !IsForbidden(s[i])
  }

  function Sanitized(space: SpaceClass, name: string): string {
    var r := Trim(space, Neutralised(name));
    if AllDots(r) then "_" else r
  }

  /** A sanitised name has none of the characters that Windows refuses, is not empty and is not only dots. */
  lemma {:induction false} SanitizedIsSegment(space: SpaceClass, name: string)
    ensures IsSegment(Sanitized(space, name))
    ensures IsLegalName(Sanitized(space, name))
  {
    SanitizedIsClean(space, name);
    SegmentIsLegal(Sanitized(space, name));
  }

  /** The characters that Windows refuses in a name. */
  predicate IsRefused(c: char) {
    c == '\\' || c == '/' || c == ':' || c == '*' || c == '?' || c == '"' || c == '<' || c == '>' || c == '|'
  }

  /** The name has none of them, and something else than dots. */
  predicate IsLegalName(s: string) {
    (forall i :: 0 <= i < |s| ==> !IsRefused(s[i])) && exists i :: 0 <= i < |s| && s[i] != '.'
  }

  lemma {:induction false} ForbiddenIsRefused(c: char)
    ensures IsForbidden(c) <==> IsRefused(c)
  {
  }

  lemma {:induction false} SegmentIsLegal(s: string)
    requires IsSegment(s)
    ensures IsLegalName(s)
  {
    forall i | 0 <= i < |s|
      ensures !IsRefused(s[i])
    {
      ForbiddenIsRefused(s[i]);
    }
  }

  /** The characters that are refused become underscores and all others stay, white space at the ends aside. */
  lemma {:induction false} SanitizedKeepsRest(space: SpaceClass, name: string)
    requires Trimmed(space, name) && !space('_') && exists i :: 0 <= i < |name| && name[i] != '.'
    ensures |Sanitized(space, name)| == |name|
    ensures forall i :: 0 <= i < |name| ==> Sanitized(space, name)[i] == if IsRefused(name[i]) then '_' else name[i]
  {
    var r := Neutralised(name);
    TrimFixed(space, r);
    var k :| 0 <= k < |name| && name[k] != '.';
    assert r[k] != '.';
    forall i | 0 <= i < |name|
      ensures IsForbidden(name[i]) <==> IsRefused(name[i])
    {
      ForbiddenIsRefused(name[i]);
    }
  }

  /** A name of nothing but dots, or of nothing at all, becomes an underscore. */
  lemma {:induction false} SanitizedDots(space: SpaceClass, lead: string, dots: string, trail: string)
    requires AllSpace(space, lead) && AllSpace(space, trail) && !space('.')
    requires forall i :: 0 <= i < |dots| ==> dots[i] == '.'
    requires forall c :: space(c) ==> !IsRefused(c)
    ensures Sanitized(space, lead + dots + trail) == "_"
  {
    var name := lead + dots + trail;
    forall i | 0 <= i < |name|
      ensures Neutral(name[i]) == name[i]
    {
      ForbiddenIsRefused(name[i]);
    }
    assert Neutralised(name) == name;
    if dots != "" {
      TrimIs(space, lead, dots, trail);
    } else {
      TrimStartIs(space, name, "");
      assert name + "" == name;
    }
  }

  lemma {:induction false} SanitizedIsClean(space: SpaceClass, name: string)
    ensures IsSegment(Sanitized(space, name))
  {
    TrimIsPart(space, Neutralised(name));
    var r := Trim(space, Neutralised(name));
    assert forall i :: 0 <= i < |r| ==> r[i] in Neutralised(name);
    assert "_"[0] == '_';
  }

  /** Sanitising twice is sanitising once, and it changes exactly the names that need it. */
  lemma {:induction false} SanitizedFixed(space: SpaceClass, name: string)
    requires !space('_')
    ensures Sanitized(space, Sanitized(space, name)) == Sanitized(space, name)
    ensures Sanitized(space, name) == name <==> IsSegment(name) && Trimmed(space, name)
  {
    var r := Sanitized(space, name);
    SanitizedIsSegment(space, name);
    TrimIsPart(space, Neutralised(name));
    SegmentKept(space, r);
    if IsSegment(name) && Trimmed(space, name) {
      SegmentKept(space, name);
    }
  }

  lemma {:induction false} SegmentKept(space: SpaceClass, s: string)
    requires IsSegment(s) && Trimmed(space, s)
    ensures Sanitized(space, s) == s
  {
    assert Neutralised(s) == s;
    TrimFixed(space, s);
  }

  /** The source's own steps: replace each forbidden character in turn, trim, then look for a non-dot. */
  method Sanitize(space: SpaceClass, name: string) returns (r: string)
    ensures r == Sanitized(space, name)
  {
    r := name;
    var k := 0;
    while k < |FORBIDDEN|
      invariant 0 <= k <= |FORBIDDEN|
      invariant |r| == |name|
      invariant forall i :: 0 <= i < |name| ==> r[i] == if name[i] in FORBIDDEN[..k] then '_' else name[i]
    {
      r := Replace(r, FORBIDDEN[k], '_');
      assert FORBIDDEN[..k + 1] == FORBIDDEN[..k] + [FORBIDDEN[k]];
      k := k + 1;
    }
    assert FORBIDDEN[..k] == FORBIDDEN;
    assert r == Neutralised(name);
    r := Trim(space, r);
    var allDots := r != "";
    var i := 0;
    while i < |r|
      invariant 0 <= i <= |r|
      invariant allDots ==> forall j :: 0 <= j < i ==> r[j] == '.'
      invariant !allDots ==> r == "" || !AllDots(r)
    {
      if r[i] != '.' {
        allDots := false;
        break;
      }
      i := i + 1;
    }
    if r == "" || allDots {
      r := "_";
    }
  }

  function Replace(s: string, from: char, to: char): (r: string)
    ensures |r| == |s|
    ensures forall i :: 0 <= i < |s| ==> r[i] == if s[i] == from then to else s[i]
  {
    seq(|s|, i requires 0 <= i < |s| => if s[i] == from then to else s[i])
  }

  // ---------- sibling clashes ----------

  /** The name a file manager gives a clashing copy. */
  function Candidate(base: string, suffix: nat): string {
    base + " (" + Decimal(suffix) + ")"
  }

  lemma {:induction false} FoldMarks(fold: CaseMap, s: string)
    requires forall i :: 0 <= i < |s| ==> IsMark(s[i])
    ensures Fold(fold, s) == s
  {
  }

  lemma {:induction false} CandidateLowered(fold: CaseMap, base: string, suffix: nat)
    ensures Fold(fold, Candidate(base, suffix)) == Fold(fold, base) + " (" + Decimal(suffix) + ")"
  {
    FoldConcat(fold, base + " (" + Decimal(suffix), ")");
    FoldConcat(fold, base + " (", Decimal(suffix));
    FoldConcat(fold, base, " (");
    FoldMarks(fold, " (");
    FoldMarks(fold, ")");
    FoldMarks(fold, Decimal(suffix));
  }

  /** Candidates for different suffixes differ even after lowering, and from the name itself. */
  lemma {:induction false} CandidatesDiffer(fold: CaseMap, base: string, m: nat, n: nat)
    ensures Fold(fold, Candidate(base, m)) == Fold(fold, Candidate(base, n)) ==> m == n
    ensures Fold(fold, Candidate(base, m)) != Fold(fold, base)
  {
    CandidateLowered(fold, base, m);
    CandidateLowered(fold, base, n);
    var low := Fold(fold, base);
    if low + " (" + Decimal(m) + ")" == low + " (" + Decimal(n) + ")" {
      var s := low + " (" + Decimal(m) + ")";
      assert s[|low| + 2..|s| - 1] == Decimal(m);
      var t := low + " (" + Decimal(n) + ")";
      assert t[|low| + 2..|t| - 1] == Decimal(n);
      DecimalInjective(m, n);
    }
  }

  predicate Taken(fold: CaseMap, used: set<string>, name: string) {
    Fold(fold, name) in used
  }

  /** The lowered names of the candidates below `n`, with the name itself. */
  function Tried(fold: CaseMap, base: string, n: nat): set<string>
    requires n >= 2
  {
    if n == 2 then {Fold(fold, base)} else Tried(fold, base, n - 1) + {Fold(fold, Candidate(base, n - 1))}
  }

  lemma {:induction false} TriedSize(fold: CaseMap, base: string, n: nat)
    requires n >= 2
    ensures |Tried(fold, base, n)| == n - 1
    ensures forall x :: x in Tried(fold, base, n) ==>
              x == Fold(fold, base) || exists m :: 2 <= m < n && x == Fold(fold, Candidate(base, m))
  {
    if n > 2 {
      TriedSize(fold, base, n - 1);
      var x := Fold(fold, Candidate(base, n - 1));
      if x in Tried(fold, base, n - 1) {
        CandidatesDiffer(fold, base, n - 1, n - 1);
        var m :| 2 <= m < n - 1 && x == Fold(fold, Candidate(base, m));
        CandidatesDiffer(fold, base, n - 1, m);
      }
    }
  }

  lemma {:induction false} SubsetSize<T>(a: set<T>, b: set<T>)
    requires a <= b
    ensures |a| <= |b|
  {
    if x :| x in a {
      SubsetSize(a - {x}, b - {x});
    }
  }

  /** The pigeonhole: `n - 2` clashing candidates and the name itself are `n - 1` different used names. */
  lemma {:induction false} Pigeonhole(fold: CaseMap, used: set<string>, base: string, n: nat)
    requires n >= 2 && Taken(fold, used, base)
    requires forall m :: 2 <= m < n ==> Taken(fold, used, Candidate(base, m))
    ensures n - 1 <= |used|
  {
    TriedSize(fold, base, n);
    SubsetSize(Tried(fold, base, n), used);
  }

  /** The least free suffix from `n` on. */
  function FreeFrom(fold: CaseMap, used: set<string>, base: string, n: nat): (r: nat)
    requires n >= 2 && Taken(fold, used, base)
    requires forall m :: 2 <= m < n ==> Taken(fold, used, Candidate(base, m))
    ensures n <= r && !Taken(fold, used, Candidate(base, r))
    ensures forall m :: 2 <= m < r ==> Taken(fold, used, Candidate(base, m))
    decreases |used| + 2 - n
  {
    Pigeonhole(fold, used, base, n);
    if Taken(fold, used, Candidate(base, n)) then FreeFrom(fold, used, base, n + 1) else n
  }

  /** The directory name given to a folder whose sanitised name is `base`, among siblings that took `used`. */
  function UniqueName(fold: CaseMap, used: set<string>, base: string): (r: string)
    ensures !Taken(fold, used, r)
  {
    if !Taken(fold, used, base) then base else Candidate(base, FreeFrom(fold, used, base, 2))
  }

  lemma {:induction false} CandidateIsSegment(base: string, suffix: nat)
    requires IsSegment(base)
    ensures IsSegment(Candidate(base, suffix))
  {
    var c, d := Candidate(base, suffix), Decimal(suffix);
    assert c[|base| + 1] == '(';
    forall i | 0 <= i < |c|
      ensures !IsForbidden(c[i])
    {
      assert c[i] == if i < |base| then base[i] else if i == |base| then ' ' else if i == |base| + 1 then '('
                     else if i < |c| - 1 then d[i - |base| - 2] else ')';
    }
  }

  lemma {:induction false} UniqueNameIsSegment(fold: CaseMap, used: set<string>, base: string)
    requires IsSegment(base)
    ensures IsSegment(UniqueName(fold, used, base))
  {
    if Taken(fold, used, base) {
      CandidateIsSegment(base, FreeFrom(fold, used, base, 2));
    }
  }

  /** The unbounded search of the source: it ends, after at most as many candidates as there are used names. */
  method PickName(fold: CaseMap, used: set<string>, base: string) returns (name: string, tries: nat)
    ensures name == UniqueName(fold, used, base)
    ensures tries <= |used|
  {
    name, tries := base, 0;
    if Taken(fold, used, base) {
      var suffix := 2;
      while true
        invariant suffix == tries + 2
        invariant forall m :: 2 <= m < suffix ==> Taken(fold, used, Candidate(base, m))
        decreases |used| + 2 - suffix
      {
        Pigeonhole(fold, used, base, suffix);
        var candidate := Candidate(base, suffix);
        tries := tries + 1;
        if !Taken(fold, used, candidate) {
          name := candidate;
          break;
        }
        suffix := suffix + 1;
      }
      assert FreeFrom(fold, used, base, 2) == suffix;
    }
  }
}
