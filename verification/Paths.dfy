/** Joining path parts: a part that is rooted starts over. */
module Paths {
  import opened Text

  predicate IsSeparator(c: char) {
    c == '\\' || c == '/'
  }

  /** `Path.IsPathRooted` of the .NET Framework: any character before the colon will do. */
  predicate IsRooted(p: string) {
    (p != "" && IsSeparator(p[0])) || (|p| >= 2 && p[1] == ':')
  }

  function Separator(path: string): string
    requires path != ""
  {
    var last := path[|path| - 1];
    if IsSeparator(last) || last == ':' then "" else "\\"
  }

  /** One more part. */
  function Append(path: string, part: string): string {
    if part == "" then path
    else if IsRooted(part) || path == "" then part
    else path + Separator(path) + part
  }

  function Combined(parts: seq<string>): string {
    if parts == [] then "" else Append(Combined(parts[..|parts| - 1]), parts[|parts| - 1])
  }

  /** The loop over a string builder; a null part throws. */
  method Combine(parts: seq<Option<string>>) returns (result: Option<string>)
    ensures result.None? <==> exists i :: 0 <= i < |parts| && parts[i].None?
    ensures result.Some? ==>
              result.value == Combined(seq(|parts|, i requires 0 <= i < |parts| && parts[i].Some? => parts[i].value))
  {
    var path := "";
    ghost var done := [];
    var k := 0;
    while k < |parts|
      invariant 0 <= k <= |parts| && |done| == k
      invariant forall i :: 0 <= i < k ==> parts[i] == Some(done[i])
      invariant path == Combined(done)
    {
      if parts[k].None? {
        return None;
      }
      var part := parts[k].value;
      if part == "" {
      } else if IsRooted(part) {
        path := part;
      } else {
        if path != "" {
          var last := path[|path| - 1];
          if last != '\\' && last != '/' && last != ':' {
            path := path + "\\";
          }
        }
        path := path + part;
      }
      done := done + [part];
      assert done[..k] + [part] == done && done[..|done| - 1] == done[..k];
      k := k + 1;
    }
    assert done == seq(|parts|, i requires 0 <= i < |parts| && parts[i].Some? => parts[i].value);
    return Some(path);
  }

  // ---------- laws ----------

  /** The one way a grouping matters: a lone colon, joined to a part that starts with a colon, looks rooted. */
  predicate IsFalseDrive(b: string, c: string) {
    b == ":" && c != "" && c[0] == ':' && !IsRooted(c)
  }

  lemma {:induction false} AppendRooted(b: string, c: string)
    requires b != "" && c != "" && !IsRooted(c)
    ensures IsRooted(Append(b, c)) <==> IsRooted(b) || IsFalseDrive(b, c)
    ensures |Append(b, c)| > |b| && Append(b, c)[..|b|] == b
    ensures Separator(Append(b, c)) == Separator(c)
  {
    var r := Append(b, c);
    assert r[0] == b[0];
    assert |b| >= 2 ==> r[1] == b[1];
    assert r[|r| - 1] == c[|c| - 1];
  }

  lemma {:induction false} Regrouped(a: string, s: string, b: string, t: string, c: string)
    ensures a + s + b + t + c == a + s + (b + t + c)
  {
  }

  /** Joining is associative exactly when it does not build such a drive behind something else. */
  lemma {:induction false} AppendAssociative(a: string, b: string, c: string)
    ensures Append(Append(a, b), c) == Append(a, Append(b, c)) <==> a == "" || !IsFalseDrive(b, c)
  {
    if b != "" && c != "" && !IsRooted(c) {
      AppendRooted(b, c);
      if a != "" && !IsRooted(b) {
        AppendRooted(a, b);
        Regrouped(a, Separator(a), b, Separator(b), c);
      }
    }
  }

  ghost predicate AnyRooted(parts: seq<string>) {
    exists i :: 0 <= i < |parts| && IsRooted(parts[i])
  }

  /** A combination with a rooted part is rooted. */
  lemma {:induction false} RootedCombined(parts: seq<string>)
    requires AnyRooted(parts)
    ensures IsRooted(Combined(parts))
  {
    var front, last := parts[..|parts| - 1], parts[|parts| - 1];
    if !IsRooted(last) {
      var i :| 0 <= i < |parts| && IsRooted(parts[i]);
      assert IsRooted(front[i]);
      RootedCombined(front);
      if last != "" {
        AppendRooted(Combined(front), last);
      }
    }
  }

  /** Behind a path, parts of which none is rooted are simply joined on. */
  lemma {:induction false} Joined(xs: seq<string>, ys: seq<string>)
    requires Combined(xs) != "" && !AnyRooted(ys)
    ensures var x, y := Combined(xs), Combined(ys);
            Combined(xs + ys) == if y == "" then x else x + Separator(x) + y
  {
    if ys == [] {
      assert xs + ys == xs;
    } else {
      var front, last := ys[..|ys| - 1], ys[|ys| - 1];
      assert (xs + ys)[..|xs + ys| - 1] == xs + front;
      AnyRootedStep(ys);
      Joined(xs, front);
      var x, y := Combined(xs), Combined(front);
      if y != "" && last != "" {
        JoinedStep(x, y, last);
      }
    }
  }

  lemma {:induction false} JoinedStep(x: string, y: string, last: string)
    requires x != "" && y != "" && last != "" && !IsRooted(last)
    ensures Append(x + Separator(x) + y, last) == x + Separator(x) + Append(y, last)
  {
    var mid := x + Separator(x) + y;
    assert mid[|mid| - 1] == y[|y| - 1];
    Regrouped(x, Separator(x), y, Separator(y), last);
  }

  /** Only what follows the last rooted part matters: with a rooted part, what is before them does not. */
  lemma {:induction false} StartedOver(xs: seq<string>, ys: seq<string>)
    requires AnyRooted(ys)
    ensures Combined(xs + ys) == Combined(ys)
  {
    var front, last := ys[..|ys| - 1], ys[|ys| - 1];
    assert (xs + ys)[..|xs + ys| - 1] == xs + front;
    AnyRootedStep(ys);
    if !IsRooted(last) {
      StartedOver(xs, front);
      RootedCombined(front);
    }
  }

  /** The parts that are not empty. */
  function NonEmpty(parts: seq<string>): (r: seq<string>)
    ensures forall i :: 0 <= i < |r| ==> r[i] != "" && r[i] in parts
  {
    if parts == [] then []
    else
      NonEmpty(parts[..|parts| - 1]) + if parts[|parts| - 1] == "" then [] else [parts[|parts| - 1]]
  }

  /** Empty parts are units: they can be left out wherever they stand. */
  lemma {:induction false} EmptyPartsDrop(parts: seq<string>)
    ensures Combined(parts) == Combined(NonEmpty(parts))
  {
    if parts != [] {
      var front, last := parts[..|parts| - 1], parts[|parts| - 1];
      EmptyPartsDrop(front);
      if last == "" {
        assert NonEmpty(parts) == NonEmpty(front);
      } else {
        assert NonEmpty(parts)[..|NonEmpty(parts)| - 1] == NonEmpty(front);
      }
    }
  }

  /** The parts only look rooted once they are joined: the first two that are not empty build a false drive. */
  predicate StartsFalseDrive(parts: seq<string>) {
    var p := NonEmpty(parts);
    |p| >= 2 && IsFalseDrive(p[0], p[1])
  }

  /** What the combination of parts that are not rooted looks like. */
  lemma {:induction false} LooksRooted(parts: seq<string>)
    requires !AnyRooted(parts)
    ensures IsRooted(Combined(parts)) <==> StartsFalseDrive(parts)
    ensures NonEmpty(parts) == [] <==> Combined(parts) == ""
    ensures |NonEmpty(parts)| == 1 ==> Combined(parts) == NonEmpty(parts)[0]
    ensures |NonEmpty(parts)| >= 2 ==> |Combined(parts)| >= 2
  {
    if parts != [] {
      var front, last := parts[..|parts| - 1], parts[|parts| - 1];
      AnyRootedStep(parts);
      LooksRooted(front);
      if last != "" && Combined(front) != "" {
        AppendRooted(Combined(front), last);
      }
    }
  }

  /** The same, spelled out: a part that starts with a separator, or has a colon second, starts over. */
  lemma {:induction false} StartsOver(xs: seq<string>, part: string, ys: seq<string>)
    requires part != "" && (part[0] == '\\' || part[0] == '/' || (|part| >= 2 && part[1] == ':'))
    ensures Combined(xs + ([part] + ys)) == Combined([part] + ys)
  {
    assert IsRooted(([part] + ys)[0]);
    StartedOver(xs, [part] + ys);
  }

  /** Any other part is joined on, with one separator unless what is there ends with one or with a colon. */
  lemma {:induction false} JoinedOn(xs: seq<string>, part: string)
    requires part != "" && part[0] != '\\' && part[0] != '/' && (|part| >= 2 ==> part[1] != ':')
    ensures var path := Combined(xs);
            Combined(xs + [part])
            == if path == "" then part
               else if path[|path| - 1] == '\\' || path[|path| - 1] == '/' || path[|path| - 1] == ':' then path + part
               else path + "\\" + part
  {
    assert (xs + [part])[..|xs|] == xs;
  }

  /**
   Any regrouping of the parts gives the same path, unless the second group only looks rooted: `Combined` of a
   concatenation is the join of the two combinations exactly when it does not.
   */
  lemma {:induction false} CombinedConcat(xs: seq<string>, ys: seq<string>)
    ensures Combined(xs + ys) == Append(Combined(xs), Combined(ys))
            <==> NonEmpty(xs) == [] || AnyRooted(ys) || !StartsFalseDrive(ys)
  {
    NothingCombined(xs);
    if AnyRooted(ys) {
      StartedOver(xs, ys);
      RootedCombined(ys);
    } else {
      LooksRooted(ys);
      if Combined(xs) != "" {
        Joined(xs, ys);
      } else {
        EmptyFront(xs, ys);
      }
    }
  }

  lemma {:induction false} NothingCombined(parts: seq<string>)
    ensures Combined(parts) == "" <==> NonEmpty(parts) == []
  {
    if parts != [] {
      NothingCombined(parts[..|parts| - 1]);
    }
  }

  lemma {:induction false} EmptyFront(xs: seq<string>, ys: seq<string>)
    requires Combined(xs) == ""
    ensures Combined(xs + ys) == Combined(ys)
  {
    if ys == [] {
      assert xs + ys == xs;
    } else {
      assert (xs + ys)[..|xs + ys| - 1] == xs + ys[..|ys| - 1];
      EmptyFront(xs, ys[..|ys| - 1]);
    }
  }

  lemma {:induction false} AnyRootedStep(parts: seq<string>)
    requires parts != []
    ensures AnyRooted(parts) <==> AnyRooted(parts[..|parts| - 1]) || IsRooted(parts[|parts| - 1])
  {
    var front := parts[..|parts| - 1];
    if AnyRooted(front) {
      var i :| 0 <= i < |front| && IsRooted(front[i]);
      assert IsRooted(parts[i]);
    }
    if AnyRooted(parts) {
      var i :| 0 <= i < |parts| && IsRooted(parts[i]);
      assert i < |front| ==> IsRooted(front[i]);
    }
  }

  /** Such groups exist. */
  lemma {:induction false} FalseDriveExists(tail: string)
    requires tail == "" || tail[0] != ':'
    ensures var ys := [":", ":" + tail];
            !AnyRooted(ys) && StartsFalseDrive(ys) && Combined(["x"] + ys) != Append("x", Combined(ys))
  {
    var ys := [":", ":" + tail];
    NothingEmpty(ys);
    NothingEmpty(["x"]);
    CombinedConcat(["x"], ys);
    assert ["x"][..0] == [] && Combined(["x"]) == "x";
  }

  lemma {:induction false} NothingEmpty(parts: seq<string>)
    requires forall i :: 0 <= i < |parts| ==> parts[i] != ""
    ensures NonEmpty(parts) == parts
  {
    if parts != [] {
      NothingEmpty(parts[..|parts| - 1]);
    }
  }
}
