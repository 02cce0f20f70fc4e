/**
 When the export can succeed at all. A file system does not let a file and a directory have one name, and a folder
 can be called like a message file of its parent, such as "7.eml".
 */
module ExportObstruction {
  import opened Text
  import opened ExportNames
  import opened Export
  import opened ExportTheorems

  /** The path needs a directory where the file is. */
  predicate IsOnPath(file: string, path: string) {
    file + "\\" <= path
  }

  /** The file of `a` stands where the path of `b` needs a directory, case aside. */
  predicate Obstructs(lower: CaseMap, a: Copy, b: Copy) {
    IsOnPath(Fold(lower, a.target), Fold(lower, b.target))
  }

  ghost predicate NoneObstruct(lower: CaseMap, a: seq<Copy>, b: seq<Copy>) {
    forall x, y :: x in a && y in b ==> !Obstructs(lower, x, y)
  }

  /** No folder with mail in or below it is named like a message file of its parent; `own` are the parent's messages. */
  predicate Clear(n: Naming, own: seq<Option<Message>>, folders: seq<Folder>, used: set<string>)
    decreases folders
  {
    folders == [] ||
    match folders[0]
    case NoFolder => Clear(n, own, folders[1..], used)
    case Folder(_, messages, children) =>
      var low := Fold(n.lower, DirectoryName(n, used, folders[0]));
      && (MessagesOf(messages) + AllMessages(children) != [] ==> !NamesFile(n.lower, own, low))
      && Clear(n, messages, children, {})
      && Clear(n, own, folders[1..], used + {low})
  }

  /** Some message of the folder has this (lowered) file name. */
  predicate NamesFile(lower: CaseMap, own: seq<Option<Message>>, name: string) {
    exists m :: m in MessagesOf(own) && FileName(lower, m) == name
  }

  // ---------- pairs of copies ----------

  lemma {:induction false} PrefixOfFile(directory: string, t: string, file: string)
    requires '\\' !in file && |directory| < |t|
    ensures !(t + "\\" <= directory + "\\" + file)
  {
    var p, q := directory + "\\" + file, t + "\\";
    assert q[|t|] == '\\';
    assert forall i :: |directory| < i < |p| ==> p[i] == file[i - |directory| - 1];
  }

  /** What could obstruct a message file of `here`: nothing below `here`. */
  lemma {:induction false} NothingObstructsFile(lower: CaseMap, here: string, m: Message, x: Copy, y: Copy)
    requires y.target == Target(here, m) && |here| < |x.target|
    ensures !Obstructs(lower, x, y)
  {
    TargetLowered(lower, here, m);
    PrefixOfFile(Fold(lower, here), Fold(lower, x.target), FileName(lower, m));
  }

  lemma {:induction false} PrefixSegments(directory: string, file: string, s: string, tail: string)
    requires '\\' !in file && '\\' !in s
    ensures directory + "\\" + file + "\\" <= Join3(directory, s, tail) <==> file == s
  {
    var p, q := directory + "\\" + file + "\\", Join3(directory, s, tail);
    var d := |directory| + 1;
    assert forall k :: 0 <= k < |s| ==> q[d + k] == s[k];
    assert q[d + |s|] == '\\';
    assert forall k :: 0 <= k < |file| ==> p[d + k] == file[k];
    assert p[d + |file|] == '\\';
    if p <= q {
      assert forall k :: 0 <= k < |p| ==> p[k] == q[k];
      assert |file| == |s|;
      assert forall k :: 0 <= k < |s| ==> file[k] == s[k];
    }
    if file == s {
      assert q == p + tail;
    }
  }

  /** A message file of a folder obstructs what is under a segment of it exactly when it has that name. */
  lemma {:induction false} FileObstructs(lower: CaseMap, here: string, m: Message, segment: string, x: Copy, y: Copy)
    requires x.target == Target(here, m) && UnderSegment(lower, here, segment, y) && '\\' !in segment
    ensures Obstructs(lower, x, y) <==> FileName(lower, m) == segment
  {
    TargetLowered(lower, here, m);
    var tail :| Fold(lower, y.target) == Join3(Fold(lower, here), segment, tail);
    PrefixSegments(Fold(lower, here), FileName(lower, m), segment, tail);
  }

  lemma {:induction false} PrefixDiffers(directory: string, s: string, t: string, x: string, y: string)
    requires '\\' !in s && '\\' !in t && s != t
    ensures !(Join3(directory, s, x) + "\\" <= Join3(directory, t, y))
  {
    var p, q := Join3(directory, s, x) + "\\", Join3(directory, t, y);
    if p <= q {
      var rest := q[|p|..];
      assert q == p + rest == Join3(directory, s, x + "\\" + rest);
      SegmentsDiffer(directory, s, t, x + "\\" + rest, y);
    }
  }

  lemma {:induction false} UnderNoObstruct(lower: CaseMap, directory: string, s: string, t: string, x: Copy, y: Copy)
    requires UnderSegment(lower, directory, s, x) && UnderSegment(lower, directory, t, y)
    requires s != t && '\\' !in s && '\\' !in t
    ensures !Obstructs(lower, x, y)
  {
    var p :| Fold(lower, x.target) == Join3(Fold(lower, directory), s, p);
    var q :| Fold(lower, y.target) == Join3(Fold(lower, directory), t, q);
    PrefixDiffers(Fold(lower, directory), s, t, p, q);
  }

  // ---------- one folder, one level ----------

  lemma {:induction false} NoneConcat(lower: CaseMap, a: seq<Copy>, b: seq<Copy>, c: seq<Copy>)
    ensures NoneObstruct(lower, c, a + b) <==> NoneObstruct(lower, c, a) && NoneObstruct(lower, c, b)
    ensures NoneObstruct(lower, a + b, c) <==> NoneObstruct(lower, a, c) && NoneObstruct(lower, b, c)
  {
    assert forall x :: x in a + b <==> x in a || x in b;
    if NoneObstruct(lower, c, a + b) {
      assert forall x, y :: x in c && y in a ==> y in a + b;
      assert forall x, y :: x in c && y in b ==> y in a + b;
    }
    if NoneObstruct(lower, a + b, c) {
      assert forall x, y :: x in a && y in c ==> x in a + b;
      assert forall x, y :: x in b && y in c ==> x in a + b;
    }
  }

  lemma {:induction false} BelowIsLonger(n: Naming, folders: seq<Folder>, used: set<string>, here: string, y: Copy)
    requires y in Plan(n, folders, used, here)
    ensures |here| < |y.target|
  {
    var segment := PlanUnder(n, folders, used, here, y);
    var tail :| Fold(n.lower, y.target) == Join3(Fold(n.lower, here), segment, tail);
  }

  /** Inside one folder only its own messages can obstruct, and only what is below it. */
  lemma {:induction false} FolderInside(n: Naming, messages: seq<Option<Message>>, children: seq<Folder>, here: string)
    ensures var m, p := MessageCopies(messages, here), Plan(n, children, {}, here);
            NoneObstruct(n.lower, m + p, m + p) <==> NoneObstruct(n.lower, p, p) && NoneObstruct(n.lower, m, p)
  {
    var m, p := MessageCopies(messages, here), Plan(n, children, {}, here);
    NoneConcat(n.lower, m, p, m + p);
    NoneConcat(n.lower, m, p, m);
    NoneConcat(n.lower, m, p, p);
    forall x, y | (x in m || x in p) && y in m
      ensures !Obstructs(n.lower, x, y)
    {
      var k := MessageOf(messages, here, y);
      if x in m {
        var j := MessageOf(messages, here, x);
      } else {
        BelowIsLonger(n, children, {}, here, x);
      }
      NothingObstructsFile(n.lower, here, k, x, y);
    }
  }

  /** Two folders of one level do not obstruct each other. */
  lemma {:induction false} SiblingsClear(n: Naming, messages: seq<Option<Message>>, children: seq<Folder>,
                                         rest: seq<Folder>, used: set<string>, directory: string, name: string)
    requires '\\' !in Fold(n.lower, name)
    ensures var here := directory + "\\" + name;
            var a := MessageCopies(messages, here) + Plan(n, children, {}, here);
            var b := Plan(n, rest, used + {Fold(n.lower, name)}, directory);
            NoneObstruct(n.lower, a, b) && NoneObstruct(n.lower, b, a)
  {
    var here, segment := directory + "\\" + name, Fold(n.lower, name);
    var a := MessageCopies(messages, here) + Plan(n, children, {}, here);
    var b := Plan(n, rest, used + {segment}, directory);
    forall x, y | x in a && y in b
      ensures !Obstructs(n.lower, x, y) && !Obstructs(n.lower, y, x)
    {
      FolderUnder(n, messages, children, directory, name, x);
      var other := PlanUnder(n, rest, used + {segment}, directory, y);
      UnderNoObstruct(n.lower, directory, segment, other, x, y);
      UnderNoObstruct(n.lower, directory, other, segment, y, x);
    }
  }

  /** The parent's messages obstruct a folder exactly when one has its name and there is something to obstruct. */
  lemma {:induction false} ParentObstructs(n: Naming, own: seq<Option<Message>>, messages: seq<Option<Message>>,
                                           children: seq<Folder>, directory: string, name: string)
    requires '\\' !in Fold(n.lower, name)
    ensures var here := directory + "\\" + name;
            NoneObstruct(n.lower, MessageCopies(own, directory),
                         MessageCopies(messages, here) + Plan(n, children, {}, here))
            <==> (MessagesOf(messages) + AllMessages(children) != [] ==> !NamesFile(n.lower, own, Fold(n.lower, name)))
  {
    var here, segment := directory + "\\" + name, Fold(n.lower, name);
    var o, a := MessageCopies(own, directory), MessageCopies(messages, here) + Plan(n, children, {}, here);
    MessageSources(messages, here);
    PlanIsComplete(n, children, {}, here);
    if a != [] && NamesFile(n.lower, own, segment) {
      var m :| m in MessagesOf(own) && FileName(n.lower, m) == segment;
      var x := CopyOf(own, directory, m);
      FolderUnder(n, messages, children, directory, name, a[0]);
      FileObstructs(n.lower, directory, m, segment, x, a[0]);
      assert x in o && a[0] in a;
    } else {
      forall x, y | x in o && y in a
        ensures !Obstructs(n.lower, x, y)
      {
        var m := MessageOf(own, directory, x);
        FolderUnder(n, messages, children, directory, name, y);
        FileObstructs(n.lower, directory, m, segment, x, y);
      }
    }
  }

  lemma {:induction false} CopyOf(own: seq<Option<Message>>, directory: string, m: Message) returns (x: Copy)
    requires m in MessagesOf(own)
    ensures x in MessageCopies(own, directory) && x.target == Target(directory, m)
  {
    var i :| 0 <= i < |MessagesOf(own)| && MessagesOf(own)[i] == m;
    CopiesAre(own, directory, i);
    x := MessageCopies(own, directory)[i];
  }

  /** A level and everything below it, together with the messages of the folder above it. */
  lemma {:induction false} LevelClear(n: Naming, own: seq<Option<Message>>, folders: seq<Folder>, used: set<string>,
                                      directory: string)
    ensures NoneObstruct(n.lower, Plan(n, folders, used, directory), Plan(n, folders, used, directory))
            && NoneObstruct(n.lower, MessageCopies(own, directory), Plan(n, folders, used, directory))
            <==> Clear(n, own, folders, used)
    decreases folders
  {
    if folders != [] {
      match folders[0]
      case NoFolder => LevelClear(n, own, folders[1..], used, directory);
      case Folder(_, messages, children) =>
        var name := DirectoryName(n, used, folders[0]);
        var here, low := directory + "\\" + name, Fold(n.lower, name);
        var a := MessageCopies(messages, here) + Plan(n, children, {}, here);
        var b := Plan(n, folders[1..], used + {low}, directory);
        NameFacts(n, used, folders[0]);
        LevelClear(n, messages, children, {}, here);
        LevelClear(n, own, folders[1..], used + {low}, directory);
        FolderInside(n, messages, children, here);
        SiblingsClear(n, messages, children, folders[1..], used, directory, name);
        ParentObstructs(n, own, messages, children, directory, name);
        NoneConcat(n.lower, a, b, a + b);
        NoneConcat(n.lower, a, b, a);
        NoneConcat(n.lower, a, b, b);
        NoneConcat(n.lower, a, b, MessageCopies(own, directory));
    }
  }

  lemma {:induction false} PlanClear(n: Naming, folders: seq<Folder>, directory: string)
    ensures var plan := Plan(n, folders, {}, directory);
            NoneObstruct(n.lower, plan, plan) <==> Clear(n, [], folders, {})
  {
    LevelClear(n, [], folders, {}, directory);
  }

  // ---------- what the file system allows ----------

  /** A file on disk is where the copy needs a directory, or in a directory that is where the copy puts its file. */
  ghost predicate IsBlocked(lower: CaseMap, disk: map<string, string>, c: Copy) {
    exists p :: p in disk && (IsOnPath(p, Fold(lower, c.target)) || IsOnPath(Fold(lower, c.target), p))
  }

  ghost predicate NoneBlocked(lower: CaseMap, disk: map<string, string>, plan: seq<Copy>) {
    forall c :: c in plan ==> !IsBlocked(lower, disk, c)
  }

  /** The outcomes a file system can give: a copy that is blocked by what is on disk at that moment fails. */
  ghost predicate Respects(lower: CaseMap, succeeds: nat -> bool, s: State, plan: seq<Copy>)
    decreases |plan|
  {
    s.failed.None? && plan != [] ==>
      && (succeeds(|s.attempted|) ==> !IsBlocked(lower, s.disk, plan[0]))
      && Respects(lower, succeeds, Try(lower, succeeds, s, plan[0]), plan[1..])
  }

  ghost predicate CanSucceed(lower: CaseMap, s: State, plan: seq<Copy>) {
    exists succeeds :: Respects(lower, succeeds, s, plan) && Perform(lower, succeeds, s, plan).failed.None?
  }

  lemma {:induction false} BlockedLater(lower: CaseMap, disk: map<string, string>, first: Copy, c: Copy)
    ensures IsBlocked(lower, disk[Fold(lower, first.target) := first.source], c)
            <==> IsBlocked(lower, disk, c) || Obstructs(lower, first, c) || Obstructs(lower, c, first)
  {
    var t := Fold(lower, first.target);
    var next := disk[t := first.source];
    assert t in next;
    if p :| p in disk && (IsOnPath(p, Fold(lower, c.target)) || IsOnPath(Fold(lower, c.target), p)) {
      assert p in next;
    }
  }

  lemma {:induction false} NoSelf(lower: CaseMap, c: Copy)
    ensures !Obstructs(lower, c, c)
  {
  }

  /** Copying the first of the plan, and then the rest. */
  lemma {:induction false} FitsStep(lower: CaseMap, disk: map<string, string>, plan: seq<Copy>)
    requires plan != []
    ensures var next := disk[Fold(lower, plan[0].target) := plan[0].source];
            NoneBlocked(lower, disk, plan) && NoneObstruct(lower, plan, plan)
            <==> !IsBlocked(lower, disk, plan[0])
                 && NoneBlocked(lower, next, plan[1..]) && NoneObstruct(lower, plan[1..], plan[1..])
  {
    var c, rest := plan[0], plan[1..];
    assert plan == [c] + rest;
    NoSelf(lower, c);
    NoneConcat(lower, [c], rest, plan);
    NoneConcat(lower, [c], rest, [c]);
    NoneConcat(lower, [c], rest, rest);
    forall y | y in rest
      ensures IsBlocked(lower, disk[Fold(lower, c.target) := c.source], y)
              <==> IsBlocked(lower, disk, y) || Obstructs(lower, c, y) || Obstructs(lower, y, c)
    {
      BlockedLater(lower, disk, c, y);
    }
  }

  lemma {:induction false} SuccessFits(lower: CaseMap, succeeds: nat -> bool, s: State, plan: seq<Copy>)
    requires s.failed.None? && Respects(lower, succeeds, s, plan) && Perform(lower, succeeds, s, plan).failed.None?
    ensures NoneBlocked(lower, s.disk, plan) && NoneObstruct(lower, plan, plan)
    decreases |plan|
  {
    if plan != [] {
      SuccessFits(lower, succeeds, Try(lower, succeeds, s, plan[0]), plan[1..]);
      FitsStep(lower, s.disk, plan);
    }
  }

  predicate Always(n: nat) {
    true
  }

  lemma {:induction false} FitsSucceeds(lower: CaseMap, s: State, plan: seq<Copy>)
    requires s.failed.None? && NoneBlocked(lower, s.disk, plan) && NoneObstruct(lower, plan, plan)
    ensures Respects(lower, Always, s, plan) && Perform(lower, Always, s, plan).failed.None?
    decreases |plan|
  {
    if plan != [] {
      FitsStep(lower, s.disk, plan);
      FitsSucceeds(lower, Try(lower, Always, s, plan[0]), plan[1..]);
    }
  }

  /**
   On a file system, the export can succeed if and only if no folder with mail is named like a message file of
   its parent and nothing on disk is in the way. Otherwise every run of it ends with a failed copy.
   */
  lemma {:induction false} ExportFits(n: Naming, folders: seq<Folder>, directory: string, disk: map<string, string>)
    ensures var plan := Plan(n, folders, {}, directory);
            CanSucceed(n.lower, State([], 0, None, disk), plan)
            <==> Clear(n, [], folders, {}) && NoneBlocked(n.lower, disk, plan)
  {
    var plan, s := Plan(n, folders, {}, directory), State([], 0, None, disk);
    PlanClear(n, folders, directory);
    if succeeds :| Respects(n.lower, succeeds, s, plan) && Perform(n.lower, succeeds, s, plan).failed.None? {
      SuccessFits(n.lower, succeeds, s, plan);
    }
    if Clear(n, [], folders, {}) && NoneBlocked(n.lower, disk, plan) {
      FitsSucceeds(n.lower, s, plan);
    }
  }

  lemma {:induction false} FileNameKept(space: SpaceClass, uid: nat)
    requires forall c :: '0' <= c <= '9' || c == 'l' ==> !space(c)
    ensures Sanitized(space, Decimal(uid) + ".eml") == Decimal(uid) + ".eml"
  {
    var file := Decimal(uid) + ".eml";
    assert file[0] == Decimal(uid)[0] && file[|file| - 1] == 'l';
    assert IsSegment(file);
    SegmentKept(space, file);
  }

  /** A folder with a message 7 and a child "7.eml" with mail of its own. */
  function NestedLikeFile(name: string, uid: nat, source: string, child: Message): Folder {
    Folder(name, [Some(Message(uid, source))], [Folder(Decimal(uid) + ".eml", [Some(child)], [])])
  }

  lemma {:induction false} NeverClear(n: Naming, name: string, uid: nat, source: string, child: Message)
    requires forall c :: '0' <= c <= '9' || c == 'l' ==> !n.space(c)
    ensures !Clear(n, [], [NestedLikeFile(name, uid, source, child)], {})
  {
    var m := Message(uid, source);
    var inner := Folder(Decimal(uid) + ".eml", [Some(child)], []);
    FileNameKept(n.space, uid);
    FoldConcat(n.lower, Decimal(uid), ".eml");
    FoldMarks(n.lower, Decimal(uid));
    assert [Some(child)][1..] == [] && [Some(m)][1..] == [];
    assert MessagesOf([Some(child)]) == [child] + MessagesOf([]);
    assert MessagesOf([Some(m)]) == [m] + MessagesOf([]);
    assert m in MessagesOf([Some(m)]);
    assert FileName(n.lower, m) == Fold(n.lower, Decimal(uid) + ".eml");
    assert NamesFile(n.lower, [Some(m)], Fold(n.lower, DirectoryName(n, {}, inner)));
    assert !Clear(n, [Some(m)], [inner], {});
  }

  /** Such a tree is never exported in full, whatever the directory and the disk. */
  lemma {:induction false} NeverFits(n: Naming, name: string, uid: nat, source: string, child: Message,
                                     directory: string, disk: map<string, string>, succeeds: nat -> bool)
    requires forall c :: '0' <= c <= '9' || c == 'l' ==> !n.space(c)
    requires Respects(n.lower, succeeds, State([], 0, None, disk),
                      Plan(n, [NestedLikeFile(name, uid, source, child)], {}, directory))
    ensures Perform(n.lower, succeeds, State([], 0, None, disk),
                    Plan(n, [NestedLikeFile(name, uid, source, child)], {}, directory)).failed.Some?
  {
    NeverClear(n, name, uid, source, child);
    ExportFits(n, [NestedLikeFile(name, uid, source, child)], directory, disk);
  }
}
