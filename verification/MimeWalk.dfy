/** The budgeted traversal of a parsed message: a depth limit, and one part budget shared by the whole walk. */
module MimeWalk {

  const MAX_DEPTH: int := 8
  const MAX_PARTS: nat := 256

  /** A parsed body: its content, the message re-parsed from it if it encapsulates one, and its parts. */
  datatype Tree<T> = NoTree | Tree(content: T, nested: Tree<T>, parts: seq<Tree<T>>)

  // ---------- the reference: cut the tree, list it, take a prefix ----------

  /** The tree without anything below `levels` levels. */
  function Cut<T>(tree: Tree<T>, levels: int): Tree<T>
    decreases tree, 0
  {
    if tree.NoTree? || levels <= 0 then NoTree
    else Tree(tree.content, Cut(tree.nested, levels - 1), CutAll(tree.parts, levels - 1))
  }

  function CutAll<T>(trees: seq<Tree<T>>, levels: int): (r: seq<Tree<T>>)
    ensures |r| == |trees|
    decreases trees, 0
  {
    if trees == [] then [] else [Cut(trees[0], levels)] + CutAll(trees[1..], levels)
  }

  /** A body, then the message it encapsulates, then its parts in order. */
  function Preorder<T>(tree: Tree<T>): seq<T>
    decreases tree, 0
  {
    if tree.NoTree? then [] else [tree.content] + Preorder(tree.nested) + PreorderAll(tree.parts)
  }

  function PreorderAll<T>(trees: seq<Tree<T>>): seq<T>
    decreases trees, 0
  {
    if trees == [] then [] else Preorder(trees[0]) + PreorderAll(trees[1..])
  }

  function Take<T>(s: seq<T>, n: int): seq<T> {
    if n <= 0 then [] else if n >= |s| then s else s[..n]
  }

  /** What a walk that enters at `depth` with `visited` parts behind it is to visit. */
  function Visits<T>(tree: Tree<T>, depth: int, visited: nat): seq<T> {
    Take(Preorder(Cut(tree, MAX_DEPTH + 1 - depth)), MAX_PARTS - visited)
  }

  function VisitsAll<T>(trees: seq<Tree<T>>, depth: int, visited: nat): seq<T> {
    Take(PreorderAll(CutAll(trees, MAX_DEPTH + 1 - depth)), MAX_PARTS - visited)
  }

  /** Taking from a concatenation is taking from the first part, and with what is left from the second. */
  lemma {:induction false} TakeConcat<T>(a: seq<T>, b: seq<T>, n: int)
    ensures Take(a + b, n) == Take(a, n) + Take(b, n - |Take(a, n)|)
  {
    if 0 < n < |a| {
      assert (a + b)[..n] == a[..n];
    } else if |a| <= n < |a + b| {
      assert (a + b)[..n] == a + b[..n - |a|];
    }
  }

  lemma {:induction false} TakeSize<T>(s: seq<T>, n: int)
    ensures |Take(s, n)| <= if n <= 0 then 0 else n
    ensures n > 0 && |Take(s, n)| < n ==> Take(s, n) == s
  {
  }

  /** The budget is threaded through siblings: what one visits, the next has less of. */
  lemma {:induction false} VisitsStep<T>(trees: seq<Tree<T>>, depth: int, visited: nat)
    requires trees != []
    ensures var first := Visits(trees[0], depth, visited);
            VisitsAll(trees, depth, visited) == first + VisitsAll(trees[1..], depth, visited + |first|)
  {
    var levels := MAX_DEPTH + 1 - depth;
    var c := CutAll(trees, levels);
    assert c[1..] == CutAll(trees[1..], levels);
    TakeConcat(Preorder(c[0]), PreorderAll(c[1..]), MAX_PARTS - visited);
  }

  /** A visit of a body: itself, then what its message visits, then what its parts visit. */
  lemma {:induction false} VisitsNode<T>(tree: Tree<T>, depth: int, visited: nat)
    requires tree.Tree? && depth <= MAX_DEPTH && visited < MAX_PARTS
    ensures var inner := Visits(tree.nested, depth + 1, visited + 1);
            Visits(tree, depth, visited)
            == [tree.content] + inner + VisitsAll(tree.parts, depth + 1, visited + 1 + |inner|)
  {
    var levels, n := MAX_DEPTH + 1 - depth, MAX_PARTS - visited;
    var a, b := Preorder(Cut(tree.nested, levels - 1)), PreorderAll(CutAll(tree.parts, levels - 1));
    TakeNode(tree.content, a, b, n);
  }

  lemma {:induction false} TakeNode<T>(x: T, a: seq<T>, b: seq<T>, n: int)
    requires n > 0
    ensures Take([x] + a + b, n) == [x] + Take(a, n - 1) + Take(b, n - 1 - |Take(a, n - 1)|)
  {
    var inner := Take(a, n - 1);
    assert [x] + a + b == [x] + (a + b);
    TakeConcat([x], a + b, n);
    TakeConcat(a, b, n - 1);
    assert [x] + (inner + Take(b, n - 1 - |inner|)) == [x] + inner + Take(b, n - 1 - |inner|);
  }

  lemma {:induction false} VisitsNothing<T>(tree: Tree<T>, depth: int, visited: nat)
    requires tree.NoTree? || depth > MAX_DEPTH || visited >= MAX_PARTS
    ensures Visits(tree, depth, visited) == []
  {
  }

  lemma {:induction false} VisitsNothingAll<T>(trees: seq<Tree<T>>, depth: int, visited: nat)
    requires visited >= MAX_PARTS || trees == []
    ensures VisitsAll(trees, depth, visited) == []
  {
  }

  lemma {:induction false} Glue<T>(start: seq<T>, x: T, inner: seq<T>, rest: seq<T>)
    ensures start + [x] + inner + rest == start + ([x] + inner + rest)
  {
  }

  lemma {:induction false} Associate<T>(a: seq<T>, b: seq<T>, c: seq<T>)
    ensures a + (b + c) == a + b + c
  {
  }

  // ---------- the traversal ----------

  /** A body object. Its iterator over its parts is a field of its own, moved by FindFirstPart and FindNextPart. */
  class Body<T(!new)> {
    ghost const tree: Tree<T>
    ghost const repr: set<Body<T>>
    const content: T
    const nested: Body?<T>
    const parts: seq<Body<T>>
    var find: nat

    constructor (content: T, nested: Body?<T>, parts: seq<Body<T>>)
      requires nested != null ==> nested.Valid()
      requires forall i :: 0 <= i < |parts| ==> parts[i].Valid() && (nested != null ==> parts[i].repr !! nested.repr)
      requires forall i, j :: 0 <= i < j < |parts| ==> parts[i].repr !! parts[j].repr
      ensures Valid() && this.content == content && this.nested == nested && this.parts == parts
    {
      this.content, this.nested, this.parts, this.find := content, nested, parts, 0;
      this.tree := Tree(content, if nested == null then NoTree else nested.tree,
                        seq(|parts|, i requires 0 <= i < |parts| => parts[i].tree));
      this.repr := {this} + (if nested == null then {} else nested.repr)
                   + (set b, i | 0 <= i < |parts| && b in parts[i].repr :: b);
      new;
    }

    /** The objects below form a tree: no body is reachable in two ways. */
    ghost predicate Valid()
      decreases tree
    {
      && tree.Tree? && this in repr && content == tree.content
      && (if nested == null then tree.nested.NoTree?
          else nested.tree == tree.nested && nested.repr <= repr - {this} && nested.tree.Tree? && nested.Valid())
      && |parts| == |tree.parts|
      && (forall i :: 0 <= i < |parts| ==>
            && parts[i].tree == tree.parts[i] && parts[i].repr <= repr - {this} && parts[i].Valid()
            && (nested != null ==> parts[i].repr !! nested.repr))
      && (forall i, j :: 0 <= i < j < |parts| ==> parts[i].repr !! parts[j].repr)
    }

    method FindFirstPart() returns (part: Body?<T>)
      modifies this`find
      ensures if parts == [] then part == null else part == parts[0] && find == 1
    {
      find := 0;
      part := FindNextPart();
    }

    method FindNextPart() returns (part: Body?<T>)
      modifies this`find
      ensures if old(find) < |parts| then part == parts[old(find)] && find == old(find) + 1
              else part == null && find == old(find)
    {
      if find < |parts| {
        part := parts[find];
        find := find + 1;
      } else {
        part := null;
      }
    }
  }

  /** The traversal; `trace` collects the contents in the order they are exercised. */
  class Traversal<T(!new)> {
    var trace: seq<T>

    constructor ()
      ensures trace == []
    {
      trace := [];
    }

    ghost function TreeOf(body: Body?<T>): Tree<T> {
      if body == null then NoTree else body.tree
    }

    ghost function ReprOf(body: Body?<T>): set<Body<T>> {
      if body == null then {} else body.repr
    }

    /**
     Visits exactly the first `MAX_PARTS - visitedSoFar` bodies, in preorder, of the tree cut below the depth
     limit, and returns the running total.
     */
    method ExerciseBody(body: Body?<T>, depth: int, visitedSoFar: nat) returns (visited: nat)
      requires body != null ==> body.Valid()
      modifies this, ReprOf(body)
      ensures trace == old(trace) + Visits(TreeOf(body), depth, visitedSoFar)
      ensures visited == visitedSoFar + |Visits(TreeOf(body), depth, visitedSoFar)|
      decreases TreeOf(body), 1
    {
      if body == null || depth > MAX_DEPTH || visitedSoFar >= MAX_PARTS {
        VisitsNothing(TreeOf(body), depth, visitedSoFar);
        return visitedSoFar;
      }
      ghost var tree, start := body.tree, trace;
      visited := visitedSoFar + 1;
      trace := trace + [body.content];
      ghost var inner := Visits(tree.nested, depth + 1, visited);
      if body.nested != null {
        visited := ExerciseBody(body.nested, depth + 1, visited);
      } else {
        VisitsNothing(tree.nested, depth + 1, visited);
      }
      assert trace == start + [tree.content] + inner;
      ghost var rest := VisitsAll(tree.parts, depth + 1, visited);
      visited := ExerciseParts(body, depth + 1, visited);
      VisitsNode(tree, depth, visitedSoFar);
      Glue(start, tree.content, inner, rest);
    }

    /** The loop over the parts of a body, driven by the iterator the body keeps. */
    method ExerciseParts(body: Body<T>, depth: int, visitedSoFar: nat) returns (visited: nat)
      requires body.Valid()
      modifies this, body.repr
      ensures trace == old(trace) + VisitsAll(body.tree.parts, depth, visitedSoFar)
      ensures visited == visitedSoFar + |VisitsAll(body.tree.parts, depth, visitedSoFar)|
      decreases body.tree, 0
    {
      ghost var trees := body.tree.parts;
      ghost var goal := trace + VisitsAll(trees, depth, visitedSoFar);
      ghost var i := 0;
      visited := visitedSoFar;
      var part := body.FindFirstPart();
      assert trees[0..] == trees;
      while part != null
        invariant 0 <= i <= |body.parts|
        invariant if i < |body.parts| then part == body.parts[i] && body.find == i + 1 else part == null
        invariant goal == trace + VisitsAll(trees[i..], depth, visited)
        invariant visited + |old(trace)| == visitedSoFar + |trace|
        decreases |body.parts| - i
      {
        if visited >= MAX_PARTS {
          break;
        }
        VisitsStep(trees[i..], depth, visited);
        assert trees[i..][0] == trees[i] && trees[i..][1..] == trees[i + 1..];
        ghost var first := Visits(trees[i], depth, visited);
        Associate(trace, first, VisitsAll(trees[i + 1..], depth, visited + |first|));
        visited := ExerciseBody(part, depth, visited);
        part := body.FindNextPart();
        i := i + 1;
      }
      VisitsNothingAll(trees[i..], depth, visited);
    }
  }

  /** The result never exceeds the budget, and the budget is used up if the cut tree is large enough. */
  lemma {:induction false} VisitsBound<T>(tree: Tree<T>, depth: int, visited: nat)
    ensures var total := visited + |Visits(tree, depth, visited)|;
            && total <= (if visited > 256 then visited else 256)
            && (total < 256 ==> Visits(tree, depth, visited) == Preorder(Cut(tree, 9 - depth)))
  {
    TakeSize(Preorder(Cut(tree, 9 - depth)), 256 - visited);
  }
}
