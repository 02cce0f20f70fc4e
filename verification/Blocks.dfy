/**
 Searching a list that is cut into blocks. A block starts at an element that satisfies `opens` and runs up
 to the next element that satisfies `ends`; every opening element also ends the block before it.
 */
module Blocks {
  import opened Text

  /** The index of the first element that satisfies `p`, or `|s|`. */
  function First<T>(p: T -> bool, s: seq<T>): (i: nat)
    ensures i <= |s|
    ensures i < |s| ==> p(s[i])
    ensures forall j :: 0 <= j < i ==> !p(s[j])
  {
    if s == [] || p(s[0]) then 0 else 1 + First(p, s[1..])
  }

  /** The first element that satisfies `p`. */
  function Pick<T>(p: T -> bool, s: seq<T>): Option<T> {
    var i := First(p, s);
    if i == |s| then None else Some(s[i])
  }

  ghost predicate NoneOf<T>(p: T -> bool, s: seq<T>) {
    forall j :: 0 <= j < |s| ==> !p(s[j])
  }

  /** The length of `s` without its trailing elements that satisfy `p`. */
  function StemLength<T>(p: T -> bool, s: seq<T>): (n: nat)
    ensures n <= |s|
    ensures forall j :: n <= j < |s| ==> p(s[j])
    ensures n > 0 ==> !p(s[n - 1])
  {
    if s != [] && p(s[|s| - 1]) then StemLength(p, s[..|s| - 1]) else |s|
  }

  lemma {:induction false} StemIs<T>(p: T -> bool, s: seq<T>, n: nat)
    requires n <= |s| && (forall j :: n <= j < |s| ==> p(s[j])) && (n > 0 ==> !p(s[n - 1]))
    ensures StemLength(p, s) == n
  {
  }

  lemma {:induction false} FirstIs<T>(p: T -> bool, s: seq<T>, i: nat)
    requires i <= |s| && NoneOf(p, s[..i]) && (i < |s| ==> p(s[i]))
    ensures First(p, s) == i
  {
    assert forall j :: 0 <= j < i ==> s[j] == s[..i][j];
  }

  /** What the search in a part of a list says about the list. */
  lemma {:induction false} FirstInPart<T>(p: T -> bool, s: seq<T>, from: nat, to: nat, i: nat)
    requires from <= to <= |s| && i == from + First(p, s[from..to])
    ensures i < to ==> p(s[i])
    ensures forall j :: from <= j < i ==> !p(s[j])
  {
    var part := s[from..to];
    assert i < to ==> part[i - from] == s[i];
    forall j | from <= j < i
      ensures !p(s[j])
    {
      assert part[j - from] == s[j];
    }
  }

  lemma {:induction false} FirstSame<T>(p: T -> bool, q: T -> bool, s: seq<T>)
    requires forall j :: 0 <= j < |s| ==> (p(s[j]) <==> q(s[j]))
    ensures First(p, s) == First(q, s)
  {
    FirstIs(q, s, First(p, s));
  }

  /** The search stops in `a` if something there satisfies `p`, and otherwise continues in `b`. */
  lemma {:induction false} FirstConcat<T>(p: T -> bool, a: seq<T>, b: seq<T>)
    ensures First(p, a + b) == if First(p, a) < |a| then First(p, a) else |a| + First(p, b)
    ensures Pick(p, a + b) == if First(p, a) < |a| then Pick(p, a) else Pick(p, b)
  {
    var i, k := First(p, a), First(p, b);
    FirstIs(p, a + b, if i < |a| then i else |a| + k);
  }

  lemma {:induction false} FirstNone<T>(p: T -> bool, s: seq<T>)
    ensures NoneOf(p, s) <==> First(p, s) == |s|
    ensures NoneOf(p, s) <==> Pick(p, s) == None
  {
  }

  /** An element that does not satisfy `p` is invisible to the search. */
  lemma {:induction false} PickSkips<T>(p: T -> bool, a: seq<T>, x: T, b: seq<T>)
    requires !p(x)
    ensures Pick(p, a + [x] + b) == Pick(p, a + b)
  {
    assert a + [x] + b == a + ([x] + b);
    FirstConcat(p, a, [x] + b);
    FirstConcat(p, [x], b);
    FirstConcat(p, a, b);
  }

  lemma {:induction false} PickFound<T>(p: T -> bool, a: seq<T>, x: T, b: seq<T>)
    requires NoneOf(p, a) && p(x)
    ensures First(p, a + [x] + b) == |a|
    ensures Pick(p, a + [x] + b) == Some(x)
  {
    FirstIs(p, a + [x] + b, |a|);
  }

  /** The block that the first opening element starts, that element excluded. */
  function Block<T>(opens: T -> bool, ends: T -> bool, s: seq<T>): Option<seq<T>> {
    var i := First(opens, s);
    if i == |s| then None else Some(s[i + 1..][..First(ends, s[i + 1..])])
  }

  /** Nothing in `a` opens the block, `h` does, `b` is its contents and `c` is what follows. */
  ghost predicate Around<T>(opens: T -> bool, ends: T -> bool, a: seq<T>, h: T, b: seq<T>, c: seq<T>) {
    && NoneOf(opens, a)
    && opens(h)
    && NoneOf(ends, b)
    && (c != [] ==> ends(c[0]))
  }

  /** The block is the stretch between its opening element and the next end. */
  lemma {:induction false} BlockIs<T>(opens: T -> bool, ends: T -> bool, s: seq<T>, start: nat, end: nat)
    requires start < end <= |s|
    requires forall j :: 0 <= j < start ==> !opens(s[j])
    requires opens(s[start])
    requires forall j :: start < j < end ==> !ends(s[j])
    requires end < |s| ==> ends(s[end])
    ensures First(opens, s) == start
    ensures First(ends, s[start + 1..]) == end - start - 1
    ensures Block(opens, ends, s) == Some(s[start + 1..end])
  {
    FirstIs(opens, s, start);
    FirstIs(ends, s[start + 1..], end - start - 1);
    assert s[start + 1..][..end - start - 1] == s[start + 1..end];
  }

  lemma {:induction false} BlockAround<T>(opens: T -> bool, ends: T -> bool, a: seq<T>, h: T, b: seq<T>, c: seq<T>)
    requires Around(opens, ends, a, h, b, c)
    ensures First(opens, a + [h] + b + c) == |a|
    ensures Block(opens, ends, a + [h] + b + c) == Some(b)
  {
    var s := a + [h] + b + c;
    assert forall j :: |a| < j < |a| + 1 + |b| ==> s[j] == b[j - |a| - 1];
    BlockIs(opens, ends, s, |a|, |a| + 1 + |b|);
    assert s[|a| + 1..|a| + 1 + |b|] == b;
  }

  /** Every list with an opening element splits around the block it starts. */
  lemma {:induction false} Locate<T>(opens: T -> bool, ends: T -> bool, s: seq<T>)
      returns (a: seq<T>, h: T, b: seq<T>, c: seq<T>)
    requires First(opens, s) < |s|
    ensures s == a + [h] + b + c
    ensures |a| == First(opens, s) && |b| == First(ends, s[|a| + 1..])
    ensures Around(opens, ends, a, h, b, c)
  {
    var i := First(opens, s);
    var rest := s[i + 1..];
    var n := First(ends, rest);
    a, h, b, c := s[..i], s[i], rest[..n], rest[n..];
    SplitAt(s, i, n);
    assert forall j :: 0 <= j < |b| ==> b[j] == rest[j];
    assert c != [] ==> c[0] == rest[n];
  }

  lemma {:induction false} SplitAt<T>(s: seq<T>, i: nat, n: nat)
    requires i < |s| && n <= |s| - i - 1
    ensures s == s[..i] + [s[i]] + s[i + 1..][..n] + s[i + 1..][n..]
  {
  }

  /** A block that starts in `a` ends there too, at the latest at the element that follows. */
  lemma {:induction false} BlockInFront<T>(opens: T -> bool, ends: T -> bool, a: seq<T>, rest: seq<T>)
    requires rest != [] ==> ends(rest[0])
    requires First(opens, a) < |a|
    ensures Block(opens, ends, a + rest) == Block(opens, ends, a)
  {
    var start := First(opens, a);
    var tail := a[start + 1..];
    var end := start + 1 + First(ends, tail);
    assert forall j :: start < j < end ==> a[j] == tail[j - start - 1];
    assert end < |a| ==> a[end] == tail[end - start - 1];
    BlockIs(opens, ends, a, start, end);
    BlockPrefix(opens, ends, a, rest, start, end);
  }

  lemma {:induction false} BlockPrefix<T>(opens: T -> bool, ends: T -> bool, a: seq<T>, rest: seq<T>, start: nat,
                                          end: nat)
    requires start < end <= |a|
    requires forall j :: 0 <= j < start ==> !opens(a[j])
    requires opens(a[start])
    requires forall j :: start < j < end ==> !ends(a[j])
    requires if end < |a| then ends(a[end]) else rest != [] ==> ends(rest[0])
    ensures Block(opens, ends, a + rest) == Some(a[start + 1..end])
  {
    BlockIs(opens, ends, a + rest, start, end);
    assert (a + rest)[start + 1..end] == a[start + 1..end];
  }

  lemma {:induction false} BlockBehind<T>(opens: T -> bool, ends: T -> bool, front: seq<T>, rest: seq<T>)
    requires NoneOf(opens, front)
    ensures Block(opens, ends, front + rest) == Block(opens, ends, rest)
  {
    FirstNone(opens, front);
    FirstConcat(opens, front, rest);
    var k := First(opens, rest);
    if k < |rest| {
      assert (front + rest)[|front| + k + 1..] == rest[k + 1..];
    }
  }

  /** The block of another opener never reaches into this one: it is found before it or after it. */
  lemma {:induction false} OtherBlock<T>(ends: T -> bool, a: seq<T>, h: T, b: seq<T>, c: seq<T>, other: T -> bool)
    requires ends(h) && !other(h) && NoneOf(other, b)
    ensures Block(other, ends, a + [h] + b + c)
            == if First(other, a) < |a| then Block(other, ends, a) else Block(other, ends, c)
  {
    if First(other, a) < |a| {
      assert a + [h] + b + c == a + ([h] + b + c);
      BlockInFront(other, ends, a, [h] + b + c);
    } else {
      NoneConcat(other, a, h, b);
      BlockBehind(other, ends, a + [h] + b, c);
    }
  }

  /** Where a block is found in a list that is cut at `h`. */
  lemma {:induction false} BlockAnywhere<T>(opens: T -> bool, ends: T -> bool, a: seq<T>, h: T, b: seq<T>, c: seq<T>)
    requires ends(h) && NoneOf(ends, b) && NoneOf(opens, b) && (c != [] ==> ends(c[0]))
    ensures Block(opens, ends, a + [h] + b + c)
            == if First(opens, a) < |a| then Block(opens, ends, a)
               else if opens(h) then Some(b)
               else Block(opens, ends, c)
    ensures First(opens, a + [h] + b + c) > |a| <==> First(opens, a) == |a| && !opens(h)
  {
    assert a + [h] + b + c == a + ([h] + b + c);
    FirstConcat(opens, a, [h] + b + c);
    if First(opens, a) < |a| {
      BlockInFront(opens, ends, a, [h] + b + c);
    } else if opens(h) {
      FirstNone(opens, a);
      BlockAround(opens, ends, a, h, b, c);
    } else {
      OtherBlock(ends, a, h, b, c, opens);
    }
  }

  lemma {:induction false} NoneConcat<T>(p: T -> bool, a: seq<T>, h: T, b: seq<T>)
    requires First(p, a) == |a| && !p(h) && NoneOf(p, b)
    ensures NoneOf(p, a + [h] + b)
  {
  }

  lemma {:induction false} Regroup<T>(a: seq<T>, h: T, p: seq<T>, x: seq<T>, q: seq<T>, c: seq<T>)
    ensures a + [h] + (p + x + q) + c == (a + [h] + p) + x + (q + c)
  {
  }

  // ---------- changing one element ----------

  /** Replaces the first element that satisfies `p`, or else inserts before the trailing elements that satisfy `pad`. */
  function Put<T>(p: T -> bool, pad: T -> bool, s: seq<T>, x: T): seq<T> {
    var j := First(p, s);
    if j < |s| then s[j := x]
    else
      var at := StemLength(pad, s);
      s[..at] + [x] + s[at..]
  }

  /** Removes the first element that satisfies `p`. */
  function Cut<T>(p: T -> bool, s: seq<T>): Option<seq<T>> {
    var j := First(p, s);
    if j == |s| then None else Some(s[..j] + s[j + 1..])
  }

  /** What `Put` did: `gone` is what stood where `x` is now. */
  ghost predicate PutAt<T>(p: T -> bool, pad: T -> bool, s: seq<T>, front: seq<T>, gone: seq<T>, back: seq<T>) {
    && s == front + gone + back
    && NoneOf(p, front)
    && if First(p, s) < |s| then |gone| == 1 && p(gone[0])
       else
         && gone == []
         && (forall j :: 0 <= j < |back| ==> pad(back[j]))
         && (front != [] ==> !pad(front[|front| - 1]))
  }

  /** An element is inserted only where nothing gives way, neither before it nor behind it. */
  lemma {:induction false} PutAtNone<T>(p: T -> bool, pad: T -> bool, s: seq<T>, front: seq<T>, back: seq<T>)
    requires PutAt(p, pad, s, front, [], back)
    ensures NoneOf(p, back)
  {
    FirstNone(p, s);
    forall j | 0 <= j < |back|
      ensures !p(back[j])
    {
      assert back[j] == s[|front| + j];
    }
  }

  lemma {:induction false} PutSplit<T>(p: T -> bool, pad: T -> bool, s: seq<T>, x: T)
      returns (front: seq<T>, gone: seq<T>, back: seq<T>)
    ensures PutAt(p, pad, s, front, gone, back)
    ensures Put(p, pad, s, x) == front + [x] + back
  {
    var j := First(p, s);
    if j < |s| {
      front, gone, back := s[..j], [s[j]], s[j + 1..];
      assert s[j := x] == front + [x] + back;
    } else {
      var at := StemLength(pad, s);
      front, gone, back := s[..at], [], s[at..];
    }
  }

  lemma {:induction false} PutFound<T>(p: T -> bool, pad: T -> bool, s: seq<T>, x: T)
    requires p(x)
    ensures Pick(p, Put(p, pad, s, x)) == Some(x)
    ensures Put(p, pad, Put(p, pad, s, x), x) == Put(p, pad, s, x)
  {
    var front, gone, back := PutSplit(p, pad, s, x);
    PickFound(p, front, x, back);
    assert (front + [x] + back)[|front| := x] == front + [x] + back;
  }

  lemma {:induction false} PutFrame<T>(p: T -> bool, pad: T -> bool, s: seq<T>, x: T, other: T -> bool)
    requires !other(x) && forall j :: 0 <= j < |s| && p(s[j]) ==> !other(s[j])
    ensures Pick(other, Put(p, pad, s, x)) == Pick(other, s)
  {
    var front, gone, back := PutSplit(p, pad, s, x);
    PickSkips(other, front, x, back);
    if gone != [] {
      assert gone[0] == s[|front|];
      assert s == front + [gone[0]] + back;
      PickSkips(other, front, gone[0], back);
    } else {
      assert s == front + back;
    }
  }

  lemma {:induction false} PutInserts<T>(p: T -> bool, pad: T -> bool, s: seq<T>, x: T)
      returns (front: seq<T>, back: seq<T>)
    requires NoneOf(p, s)
    ensures s == front + back && Put(p, pad, s, x) == front + [x] + back
    ensures forall j :: 0 <= j < |back| ==> pad(back[j])
    ensures |front| == StemLength(pad, s)
  {
    var at := StemLength(pad, s);
    front, back := s[..at], s[at..];
    FirstNone(p, s);
    forall j | 0 <= j < |back|
      ensures pad(back[j])
    {
      assert back[j] == s[at + j];
    }
  }

  /** An element put where nothing gives way is found at `other` exactly if nothing before its place is. */
  lemma {:induction false} PutReads<T>(p: T -> bool, pad: T -> bool, s: seq<T>, x: T, other: T -> bool)
    requires NoneOf(p, s)
    ensures Pick(other, Put(p, pad, s, x))
            == if other(x) && First(other, s) >= StemLength(pad, s) then Some(x) else Pick(other, s)
  {
    var front, back := PutInserts(p, pad, s, x);
    ReadBetween(other, front, x, back);
  }

  lemma {:induction false} ReadBetween<T>(p: T -> bool, a: seq<T>, x: T, b: seq<T>)
    ensures Pick(p, a + [x] + b) == if p(x) && First(p, a + b) >= |a| then Some(x) else Pick(p, a + b)
  {
    FirstConcat(p, a, b);
    FirstConcat(p, a, [x] + b);
    FirstConcat(p, [x], b);
    assert a + [x] + b == a + ([x] + b);
  }

  lemma {:induction false} CutFrame<T>(p: T -> bool, s: seq<T>, other: T -> bool)
    requires forall j :: 0 <= j < |s| && p(s[j]) ==> !other(s[j])
    ensures Cut(p, s).Some? ==> Pick(other, Cut(p, s).value) == Pick(other, s)
  {
    var j := First(p, s);
    if j < |s| {
      assert s == s[..j] + [s[j]] + s[j + 1..];
      PickSkips(other, s[..j], s[j], s[j + 1..]);
    }
  }

  lemma {:induction false} PutNone<T>(p: T -> bool, pad: T -> bool, s: seq<T>, x: T, other: T -> bool)
    requires !other(x) && NoneOf(other, s)
    ensures NoneOf(other, Put(p, pad, s, x))
  {
    var r, at := Put(p, pad, s, x), StemLength(pad, s);
    forall k | 0 <= k < |r|
      ensures !other(r[k])
    {
      if First(p, s) == |s| {
        assert r[k] == if k < at then s[k] else if k == at then x else s[k - 1];
      }
    }
  }

  // ---------- unique names ----------

  /** No two elements that satisfy `p` have the same `id`. */
  ghost predicate Distinct<T>(p: T -> bool, id: T -> Name, s: seq<T>) {
    forall i, j :: 0 <= i < j < |s| ==> Apart(p, id, s[i], s[j])
  }

  predicate Apart<T>(p: T -> bool, id: T -> Name, x: T, y: T) {
    p(x) && p(y) ==> id(x) != id(y)
  }

  /** Replacing a stretch by unnamed elements keeps names unique. */
  lemma {:induction false} DistinctReplace<T>(p: T -> bool, id: T -> Name, a: seq<T>, b: seq<T>, b': seq<T>, c: seq<T>)
    requires Distinct(p, id, a + b + c) && NoneOf(p, b')
    ensures Distinct(p, id, a + b' + c)
  {
    var s, r := a + b + c, a + b' + c;
    forall i, j | 0 <= i < j < |r|
      ensures Apart(p, id, r[i], r[j])
    {
      if p(r[i]) && p(r[j]) {
        assert forall k :: |a| <= k < |a| + |b'| ==> r[k] == b'[k - |a|];
        var i' := if i < |a| then i else i - |b'| + |b|;
        var j' := if j < |a| then j else j - |b'| + |b|;
        assert s[i'] == r[i] && s[j'] == r[j];
        assert Apart(p, id, s[i'], s[j']);
      }
    }
  }

  /** With unique names, the name of one element is not the name of any behind it. */
  lemma {:induction false} NoneBehind<T>(p: T -> bool, id: T -> Name, a: seq<T>, h: T, rest: seq<T>, same: T -> bool)
    requires Distinct(p, id, a + [h] + rest) && p(h)
    requires forall x :: same(x) ==> p(x) && id(x) == id(h)
    ensures NoneOf(same, rest)
  {
    var s := a + [h] + rest;
    forall j | 0 <= j < |rest|
      ensures !same(rest[j])
    {
      assert s[|a|] == h && s[|a| + 1 + j] == rest[j];
      assert Apart(p, id, s[|a|], s[|a| + 1 + j]);
    }
  }

  lemma {:induction false} DistinctCut<T>(p: T -> bool, id: T -> Name, a: seq<T>, h: T, b: seq<T>, c: seq<T>)
    requires Distinct(p, id, a + [h] + b + c)
    ensures Distinct(p, id, a + c)
  {
    assert a + [h] + b + c == a + ([h] + b) + c && a + [] + c == a + c;
    DistinctReplace(p, id, a, [h] + b, [], c);
  }

  /** `p` selects the elements named like `x`. */
  ghost predicate Selects<T>(p: T -> bool, has: T -> bool, id: T -> Name, s: seq<T>, x: T) {
    has(x) ==> forall j :: 0 <= j < |s| ==> (p(s[j]) <==> has(s[j]) && id(s[j]) == id(x))
  }

  lemma {:induction false} PutDistinct<T>(p: T -> bool, pad: T -> bool, s: seq<T>, x: T, has: T -> bool, id: T -> Name)
    requires Distinct(has, id, s) && Selects(p, has, id, s, x)
    ensures Distinct(has, id, Put(p, pad, s, x))
  {
    var r, at := Put(p, pad, s, x), StemLength(pad, s);
    var k := First(p, s);
    forall i, j | 0 <= i < j < |r|
      ensures Apart(has, id, r[i], r[j])
    {
      var i' := if k < |s| || i < at then i else i - 1;
      var j' := if k < |s| || j < at then j else j - 1;
      var spot := if k < |s| then k else at;
      assert i != spot ==> r[i] == s[i'];
      assert j != spot ==> r[j] == s[j'];
      if k < |s| || (i != at && j != at) {
        assert Apart(has, id, s[i'], s[j']);
      }
    }
  }

  /** With unique names, removing the first element of a name removes the name. */
  lemma {:induction false} CutGone<T>(p: T -> bool, s: seq<T>, has: T -> bool, id: T -> Name, name: Name)
    requires Distinct(has, id, s)
    requires forall j :: 0 <= j < |s| && p(s[j]) ==> has(s[j]) && id(s[j]) == name
    ensures Cut(p, s).Some? ==> NoneOf(p, Cut(p, s).value)
  {
    var k := First(p, s);
    if k < |s| {
      var r := s[..k] + s[k + 1..];
      forall j | 0 <= j < |r|
        ensures !p(r[j])
      {
        assert r[j] == if j < k then s[j] else s[j + 1];
        assert j >= k ==> Apart(has, id, s[k], s[j + 1]);
      }
    }
  }
}
