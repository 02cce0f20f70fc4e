/** What the export guarantees for every tree: one file per message, no clash, no escape, an exact prefix on failure. */
module ExportTheorems {
  import opened Text
  import opened ExportNames
  import opened Export

  // ---------- the tree, without regard to names ----------

  function MessagesOf(messages: seq<Option<Message>>): seq<Message> {
    if messages == [] then []
    else (if messages[0].Some? then [messages[0].value] else []) + MessagesOf(messages[1..])
  }

  /** All messages of the tree, in depth-first order. */
  function AllMessages(folders: seq<Folder>): seq<Message> {
    if folders == [] then []
    else
      (match folders[0]
       case NoFolder => []
       case Folder(_, messages, children) => MessagesOf(messages) + AllMessages(children))
      + AllMessages(folders[1..])
  }

  /** Within each folder of the tree, message UIDs are unique. */
  ghost predicate UniqueUids(folders: seq<Folder>) {
    forall f :: f in folders && f.Folder? ==> DistinctUids(MessagesOf(f.messages)) && UniqueUids(f.children)
  }

  ghost predicate DistinctUids(messages: seq<Message>) {
    forall i, j :: 0 <= i < j < |messages| ==> messages[i].uid != messages[j].uid
  }

  // ---------- conservation ----------

  function Sources(plan: seq<Copy>): seq<string> {
    if plan == [] then [] else [plan[0].source] + Sources(plan[1..])
  }

  function SourcesOf(messages: seq<Message>): seq<string> {
    if messages == [] then [] else [messages[0].source] + SourcesOf(messages[1..])
  }

  lemma {:induction false} SourcesConcat(a: seq<Copy>, b: seq<Copy>)
    ensures Sources(a + b) == Sources(a) + Sources(b)
  {
    if a == [] {
      assert a + b == b;
    } else {
      assert (a + b)[1..] == a[1..] + b;
      SourcesConcat(a[1..], b);
    }
  }

  lemma {:induction false} SourcesOfConcat(a: seq<Message>, b: seq<Message>)
    ensures SourcesOf(a + b) == SourcesOf(a) + SourcesOf(b)
  {
    if a == [] {
      assert a + b == b;
    } else {
      assert (a + b)[1..] == a[1..] + b;
      SourcesOfConcat(a[1..], b);
    }
  }

  lemma {:induction false} MessageSources(messages: seq<Option<Message>>, directory: string)
    ensures Sources(MessageCopies(messages, directory)) == SourcesOf(MessagesOf(messages))
    ensures |MessageCopies(messages, directory)| == |MessagesOf(messages)|
  {
    if messages != [] {
      MessageSources(messages[1..], directory);
      var rest, tail := MessageCopies(messages[1..], directory), MessagesOf(messages[1..]);
      if messages[0].Some? {
        var c := Copy(messages[0].value.source, Target(directory, messages[0].value));
        assert ([c] + rest)[1..] == rest && ([messages[0].value] + tail)[1..] == tail;
      } else {
        assert [] + rest == rest && [] + tail == tail;
      }
    }
  }

  /** The plan copies every message of the tree exactly once, in depth-first order. */
  lemma {:induction false} PlanIsComplete(n: Naming, folders: seq<Folder>, used: set<string>, directory: string)
    ensures Sources(Plan(n, folders, used, directory)) == SourcesOf(AllMessages(folders))
    ensures |Plan(n, folders, used, directory)| == |AllMessages(folders)|
    decreases folders
  {
    if folders != [] {
      match folders[0]
      case NoFolder =>
        PlanIsComplete(n, folders[1..], used, directory);
        assert [] + AllMessages(folders[1..]) == AllMessages(folders[1..]);
      case Folder(_, messages, children) =>
        var name := DirectoryName(n, used, folders[0]);
        var here := directory + "\\" + name;
        var a, b := MessageCopies(messages, here), Plan(n, children, {}, here);
        var c := Plan(n, folders[1..], used + {Fold(n.lower, name)}, directory);
        MessageSources(messages, here);
        PlanIsComplete(n, children, {}, here);
        PlanIsComplete(n, folders[1..], used + {Fold(n.lower, name)}, directory);
        SourcesConcat(a + b, c);
        SourcesConcat(a, b);
        SourcesOfConcat(MessagesOf(messages) + AllMessages(children), AllMessages(folders[1..]));
        SourcesOfConcat(MessagesOf(messages), AllMessages(children));
    }
  }

  // ---------- paths ----------

  /** The path of a directory below `directory`, segment by segment. */
  function Below(directory: string, segments: seq<string>): string
    decreases |segments|
  {
    if segments == [] then directory else Below(directory + "\\" + segments[0], segments[1..])
  }

  /** The target is a message file in a directory strictly below the export directory. */
  ghost predicate Contained(directory: string, target: string) {
    exists segments: seq<string>, m: Message :: InDirectory(directory, segments, m, target)
  }

  ghost predicate InDirectory(directory: string, segments: seq<string>, m: Message, target: string) {
    && segments != [] && (forall i :: 0 <= i < |segments| ==> IsLegalName(segments[i]))
    && target == Target(Below(directory, segments), m)
  }

  lemma {:induction false} OneDeeper(directory: string, name: string, target: string)
    requires IsLegalName(name) && Contained(directory + "\\" + name, target)
    ensures Contained(directory, target)
  {
    var segments, m :| InDirectory(directory + "\\" + name, segments, m, target);
    var longer := [name] + segments;
    assert longer[1..] == segments;
    assert InDirectory(directory, longer, m, target);
  }

  /** Every file the export writes lies below its directory: each segment is legal and none climbs out. */
  lemma {:induction false} PlanIsContained(n: Naming, folders: seq<Folder>, used: set<string>, directory: string,
                                           c: Copy)
    requires c in Plan(n, folders, used, directory)
    ensures Contained(directory, c.target)
    decreases folders
  {
    match folders[0]
    case NoFolder => PlanIsContained(n, folders[1..], used, directory, c);
    case Folder(_, messages, children) =>
      var name := DirectoryName(n, used, folders[0]);
      var here := directory + "\\" + name;
      SanitizedIsSegment(n.space, folders[0].name);
      UniqueNameIsSegment(n.lower, used, Sanitized(n.space, folders[0].name));
      SegmentIsLegal(name);
      if c in MessageCopies(messages, here) {
        var m := MessageOf(messages, here, c);
        assert Below(directory, [name]) == here;
        assert InDirectory(directory, [name], m, c.target);
      } else if c in Plan(n, children, {}, here) {
        PlanIsContained(n, children, {}, here, c);
        OneDeeper(directory, name, c.target);
      } else {
        PlanIsContained(n, folders[1..], used + {Fold(n.lower, name)}, directory, c);
      }
  }

  // ---------- no clash ----------

  predicate Differ(lower: CaseMap, a: Copy, b: Copy) {
    Fold(lower, a.target) != Fold(lower, b.target)
  }

  /** No two copies write the same file, case aside. */
  ghost predicate NoClash(lower: CaseMap, plan: seq<Copy>) {
    forall i, j :: 0 <= i < j < |plan| ==> Differ(lower, plan[i], plan[j])
  }

  lemma {:induction false} NoClashConcat(lower: CaseMap, a: seq<Copy>, b: seq<Copy>)
    requires NoClash(lower, a) && NoClash(lower, b)
    requires forall x, y :: x in a && y in b ==> Differ(lower, x, y)
    ensures NoClash(lower, a + b)
  {
    var s := a + b;
    forall i, j | 0 <= i < j < |s|
      ensures Differ(lower, s[i], s[j])
    {
      assert i < |a| <= j ==> s[i] in a && s[j] in b;
      assert j < |a| ==> Differ(lower, a[i], a[j]);
      assert i >= |a| ==> Differ(lower, b[i - |a|], b[j - |a|]);
    }
  }

  /** The lowered target starts with the lowered directory and the lowered segment. */
  ghost predicate UnderSegment(lower: CaseMap, directory: string, segment: string, c: Copy) {
    exists tail :: Fold(lower, c.target) == Join3(Fold(lower, directory), segment, tail)
  }

  function Join3(directory: string, segment: string, tail: string): string {
    directory + "\\" + segment + "\\" + tail
  }

  lemma {:induction false} SegmentsDiffer(directory: string, s: string, t: string, x: string, y: string)
    requires '\\' !in s && '\\' !in t && s != t
    ensures Join3(directory, s, x) != Join3(directory, t, y)
  {
    var d := |directory| + 1;
    var p, q := Join3(directory, s, x), Join3(directory, t, y);
    assert p[d + |s|] == '\\' && q[d + |t|] == '\\';
    assert forall k :: 0 <= k < |s| ==> p[d + k] == s[k];
    assert forall k :: 0 <= k < |t| ==> q[d + k] == t[k];
    assert p[d..d + |s|] == s && q[d..d + |t|] == t;
    assert p == q ==> |s| == |t|;
  }

  /** A file in the directory itself is not a file in a directory below it. */
  lemma {:induction false} FileNotDeeper(directory: string, file: string, s: string, x: string)
    requires '\\' !in file
    ensures directory + "\\" + file != Join3(directory, s, x)
  {
    var d := |directory| + 1;
    var p, q := directory + "\\" + file, Join3(directory, s, x);
    assert q[d + |s|] == '\\' && |q| > d + |s|;
    assert forall i :: d <= i < |p| ==> p[i] == file[i - d];
  }

  lemma {:induction false} SegmentLowered(lower: CaseMap, name: string)
    requires IsSegment(name)
    ensures '\\' !in Fold(lower, name)
  {
    assert IsForbidden('\\');
    assert forall i :: 0 <= i < |name| ==> name[i] != '\\';
  }

  lemma {:induction false} HereLowered(lower: CaseMap, directory: string, name: string)
    ensures Fold(lower, directory + "\\" + name) == Fold(lower, directory) + "\\" + Fold(lower, name)
  {
    FoldConcat(lower, directory + "\\", name);
    FoldConcat(lower, directory, "\\");
    FoldMarks(lower, "\\");
  }

  /** The lowered name of a message file; it names the message within its folder. */
  function FileName(lower: CaseMap, m: Message): string {
    Decimal(m.uid) + Fold(lower, ".eml")
  }

  lemma {:induction false} TargetLowered(lower: CaseMap, directory: string, m: Message)
    ensures Fold(lower, Target(directory, m)) == Fold(lower, directory) + "\\" + FileName(lower, m)
    ensures '\\' !in FileName(lower, m)
  {
    HereLowered(lower, directory, Decimal(m.uid) + ".eml");
    assert Target(directory, m) == directory + "\\" + (Decimal(m.uid) + ".eml");
    FoldConcat(lower, Decimal(m.uid), ".eml");
    FoldMarks(lower, Decimal(m.uid));
    var d, e := Decimal(m.uid), ".eml";
    assert forall i :: 0 <= i < |e| ==> e[i] != '\\';
  }

  lemma {:induction false} FileNamesDiffer(lower: CaseMap, m: Message, k: Message)
    requires m.uid != k.uid
    ensures FileName(lower, m) != FileName(lower, k)
  {
    var e := Fold(lower, ".eml");
    var p, q := FileName(lower, m), FileName(lower, k);
    assert p[..|p| - |e|] == Decimal(m.uid) && q[..|q| - |e|] == Decimal(k.uid);
    if Decimal(m.uid) == Decimal(k.uid) {
      DecimalInjective(m.uid, k.uid);
    }
  }

  lemma {:induction false} DistinctTail(m: Message, rest: seq<Message>)
    requires DistinctUids([m] + rest)
    ensures DistinctUids(rest)
    ensures forall k :: k in rest ==> k.uid != m.uid
  {
    var all := [m] + rest;
    assert forall i :: 0 <= i < |rest| ==> rest[i] == all[i + 1];
    forall k | k in rest
      ensures k.uid != m.uid
    {
      var i :| 0 <= i < |rest| && rest[i] == k;
      assert all[0].uid != all[i + 1].uid;
    }
  }

  lemma {:induction false} MessageDiffers(lower: CaseMap, messages: seq<Option<Message>>, directory: string,
                                          m: Message, y: Copy)
    requires y in MessageCopies(messages, directory)
    requires forall k :: k in MessagesOf(messages) ==> k.uid != m.uid
    ensures Differ(lower, Copy(m.source, Target(directory, m)), y)
  {
    var k := MessageOf(messages, directory, y);
    TargetLowered(lower, directory, m);
    TargetLowered(lower, directory, k);
    FileNamesDiffer(lower, m, k);
    var d := Fold(lower, directory) + "\\";
    assert (d + FileName(lower, m))[|d|..] == FileName(lower, m);
    assert (d + FileName(lower, k))[|d|..] == FileName(lower, k);
  }

  lemma {:induction false} MessagesNoClash(lower: CaseMap, messages: seq<Option<Message>>, directory: string)
    requires DistinctUids(MessagesOf(messages))
    ensures NoClash(lower, MessageCopies(messages, directory))
  {
    if messages != [] {
      var rest, copies := MessagesOf(messages[1..]), MessageCopies(messages[1..], directory);
      if messages[0].Some? {
        var m := messages[0].value;
        DistinctTail(m, rest);
        MessagesNoClash(lower, messages[1..], directory);
        var c := Copy(m.source, Target(directory, m));
        forall y | y in copies
          ensures Differ(lower, c, y)
        {
          MessageDiffers(lower, messages[1..], directory, m, y);
        }
        NoClashConcat(lower, [c], copies);
      } else {
        assert [] + rest == rest && [] + copies == copies;
        MessagesNoClash(lower, messages[1..], directory);
      }
    }
  }

  lemma {:induction false} MessageOf(messages: seq<Option<Message>>, directory: string, c: Copy) returns (m: Message)
    requires c in MessageCopies(messages, directory)
    ensures m in MessagesOf(messages) && c == Copy(m.source, Target(directory, m))
  {
    if messages[0].Some? && c == Copy(messages[0].value.source, Target(directory, messages[0].value)) {
      m := messages[0].value;
    } else {
      m := MessageOf(messages[1..], directory, c);
    }
  }

  lemma {:induction false} NameFacts(n: Naming, used: set<string>, f: Folder)
    requires f.Folder?
    ensures Fold(n.lower, DirectoryName(n, used, f)) !in used
    ensures '\\' !in Fold(n.lower, DirectoryName(n, used, f))
  {
    SanitizedIsSegment(n.space, f.name);
    UniqueNameIsSegment(n.lower, used, Sanitized(n.space, f.name));
    SegmentLowered(n.lower, DirectoryName(n, used, f));
  }

  /** Everything a folder writes, in itself or below, is under its own segment. */
  lemma {:induction false} FolderUnder(n: Naming, messages: seq<Option<Message>>, children: seq<Folder>,
                                       directory: string, name: string, c: Copy)
    requires c in MessageCopies(messages, directory + "\\" + name) + Plan(n, children, {}, directory + "\\" + name)
    ensures UnderSegment(n.lower, directory, Fold(n.lower, name), c)
    decreases children, 1
  {
    var here := directory + "\\" + name;
    HereLowered(n.lower, directory, name);
    if c in MessageCopies(messages, here) {
      var m := MessageOf(messages, here, c);
      TargetLowered(n.lower, here, m);
      assert Fold(n.lower, c.target) == Join3(Fold(n.lower, directory), Fold(n.lower, name), FileName(n.lower, m));
    } else {
      var segment := PlanUnder(n, children, {}, here, c);
      var tail :| Fold(n.lower, c.target) == Join3(Fold(n.lower, here), segment, tail);
      Deeper(Fold(n.lower, directory), Fold(n.lower, name), segment, tail);
    }
  }

  lemma {:induction false} Deeper(directory: string, name: string, segment: string, tail: string)
    ensures Join3(directory + "\\" + name, segment, tail) == Join3(directory, name, segment + "\\" + tail)
  {
  }

  /** What a level writes is under segments that the level had not used before. */
  lemma {:induction false} PlanUnder(n: Naming, folders: seq<Folder>, used: set<string>, directory: string, c: Copy)
      returns (segment: string)
    requires c in Plan(n, folders, used, directory)
    ensures segment !in used && '\\' !in segment && UnderSegment(n.lower, directory, segment, c)
    decreases folders, 0
  {
    match folders[0]
    case NoFolder =>
      segment := PlanUnder(n, folders[1..], used, directory, c);
    case Folder(_, messages, children) =>
      var name := DirectoryName(n, used, folders[0]);
      var here := directory + "\\" + name;
      NameFacts(n, used, folders[0]);
      if c in MessageCopies(messages, here) + Plan(n, children, {}, here) {
        segment := Fold(n.lower, name);
        FolderUnder(n, messages, children, directory, name, c);
      } else {
        segment := PlanUnder(n, folders[1..], used + {Fold(n.lower, name)}, directory, c);
      }
  }

  lemma {:induction false} UnderDiffer(lower: CaseMap, directory: string, s: string, t: string, x: Copy, y: Copy)
    requires UnderSegment(lower, directory, s, x) && UnderSegment(lower, directory, t, y)
    requires s != t && '\\' !in s && '\\' !in t
    ensures Differ(lower, x, y)
  {
    var p :| Fold(lower, x.target) == Join3(Fold(lower, directory), s, p);
    var q :| Fold(lower, y.target) == Join3(Fold(lower, directory), t, q);
    SegmentsDiffer(Fold(lower, directory), s, t, p, q);
  }

  /** A message of a folder and a message of a folder below it. */
  lemma {:induction false} OwnAndBelowDiffer(n: Naming, messages: seq<Option<Message>>, children: seq<Folder>,
                                             here: string, x: Copy, y: Copy)
    requires x in MessageCopies(messages, here) && y in Plan(n, children, {}, here)
    ensures Differ(n.lower, x, y)
  {
    var m := MessageOf(messages, here, x);
    TargetLowered(n.lower, here, m);
    var segment := PlanUnder(n, children, {}, here, y);
    var tail :| Fold(n.lower, y.target) == Join3(Fold(n.lower, here), segment, tail);
    FileNotDeeper(Fold(n.lower, here), FileName(n.lower, m), segment, tail);
  }

  /** No two messages of the tree are given the same file, case aside. */
  lemma {:induction false} PlanNoClash(n: Naming, folders: seq<Folder>, used: set<string>, directory: string)
    requires UniqueUids(folders)
    ensures NoClash(n.lower, Plan(n, folders, used, directory))
    decreases folders
  {
    if folders != [] {
      assert forall f :: f in folders[1..] ==> f in folders;
      match folders[0]
      case NoFolder => PlanNoClash(n, folders[1..], used, directory);
      case Folder(_, messages, children) =>
        var name := DirectoryName(n, used, folders[0]);
        var here, segment := directory + "\\" + name, Fold(n.lower, name);
        assert folders[0] in folders;
        MessagesNoClash(n.lower, messages, here);
        PlanNoClash(n, children, {}, here);
        PlanNoClash(n, folders[1..], used + {segment}, directory);
        NameFacts(n, used, folders[0]);
        LevelNoClash(n, messages, children, folders[1..], used, directory, name);
    }
  }

  lemma {:induction false} LevelNoClash(n: Naming, messages: seq<Option<Message>>, children: seq<Folder>,
                                        rest: seq<Folder>, used: set<string>, directory: string, name: string)
    requires '\\' !in Fold(n.lower, name)
    requires NoClash(n.lower, MessageCopies(messages, directory + "\\" + name))
    requires NoClash(n.lower, Plan(n, children, {}, directory + "\\" + name))
    requires NoClash(n.lower, Plan(n, rest, used + {Fold(n.lower, name)}, directory))
    ensures NoClash(n.lower, MessageCopies(messages, directory + "\\" + name)
                             + Plan(n, children, {}, directory + "\\" + name)
                             + Plan(n, rest, used + {Fold(n.lower, name)}, directory))
  {
    var here, segment := directory + "\\" + name, Fold(n.lower, name);
    var a, b := MessageCopies(messages, here), Plan(n, children, {}, here);
    var c := Plan(n, rest, used + {segment}, directory);
    forall x, y | x in a && y in b
      ensures Differ(n.lower, x, y)
    {
      OwnAndBelowDiffer(n, messages, children, here, x, y);
    }
    NoClashConcat(n.lower, a, b);
    forall x, y | x in a + b && y in c
      ensures Differ(n.lower, x, y)
    {
      FolderUnder(n, messages, children, directory, name, x);
      var other := PlanUnder(n, rest, used + {segment}, directory, y);
      UnderDiffer(n.lower, directory, segment, other, x, y);
    }
    NoClashConcat(n.lower, a + b, c);
  }

  // ---------- unique UIDs are exactly what it takes ----------

  lemma {:induction false} CopiesAre(messages: seq<Option<Message>>, directory: string, i: nat)
    requires i < |MessagesOf(messages)|
    ensures |MessageCopies(messages, directory)| == |MessagesOf(messages)|
    ensures MessageCopies(messages, directory)[i].target == Target(directory, MessagesOf(messages)[i])
  {
    MessageSources(messages, directory);
    if messages[0].None? {
      CopiesAre(messages[1..], directory, i);
    } else if i > 0 {
      CopiesAre(messages[1..], directory, i - 1);
    }
  }

  lemma {:induction false} NoClashUids(lower: CaseMap, messages: seq<Option<Message>>, directory: string)
    requires NoClash(lower, MessageCopies(messages, directory))
    ensures DistinctUids(MessagesOf(messages))
  {
    var all, copies := MessagesOf(messages), MessageCopies(messages, directory);
    forall i, j | 0 <= i < j < |all|
      ensures all[i].uid != all[j].uid
    {
      CopiesAre(messages, directory, i);
      CopiesAre(messages, directory, j);
      assert Differ(lower, copies[i], copies[j]);
    }
  }

  lemma {:induction false} NoClashParts(lower: CaseMap, a: seq<Copy>, b: seq<Copy>)
    requires NoClash(lower, a + b)
    ensures NoClash(lower, a) && NoClash(lower, b)
  {
    forall i, j | 0 <= i < j < |a|
      ensures Differ(lower, a[i], a[j])
    {
      assert Differ(lower, (a + b)[i], (a + b)[j]);
    }
    forall i, j | 0 <= i < j < |b|
      ensures Differ(lower, b[i], b[j])
    {
      assert Differ(lower, (a + b)[|a| + i], (a + b)[|a| + j]);
    }
  }

  lemma {:induction false} ClashNeedsUids(n: Naming, folders: seq<Folder>, used: set<string>, directory: string)
    requires NoClash(n.lower, Plan(n, folders, used, directory))
    ensures UniqueUids(folders)
    decreases folders
  {
    if folders != [] {
      match folders[0]
      case NoFolder => ClashNeedsUids(n, folders[1..], used, directory);
      case Folder(_, messages, children) =>
        var name := DirectoryName(n, used, folders[0]);
        var here := directory + "\\" + name;
        var a, b := MessageCopies(messages, here), Plan(n, children, {}, here);
        var c := Plan(n, folders[1..], used + {Fold(n.lower, name)}, directory);
        NoClashParts(n.lower, a + b, c);
        NoClashParts(n.lower, a, b);
        NoClashUids(n.lower, messages, here);
        ClashNeedsUids(n, children, {}, here);
        ClashNeedsUids(n, folders[1..], used + {Fold(n.lower, name)}, directory);
    }
  }

  /** Two messages share a file exactly when some folder holds two messages with one UID. */
  lemma {:induction false} NoClashIffUniqueUids(n: Naming, folders: seq<Folder>, directory: string)
    ensures NoClash(n.lower, Plan(n, folders, {}, directory)) <==> UniqueUids(folders)
  {
    if UniqueUids(folders) {
      PlanNoClash(n, folders, {}, directory);
    }
    if NoClash(n.lower, Plan(n, folders, {}, directory)) {
      ClashNeedsUids(n, folders, {}, directory);
    }
  }

  // ---------- the names taken at one level ----------

  /** The names a level has used once its folders are done. */
  function UsedAfter(n: Naming, folders: seq<Folder>, used: set<string>): set<string> {
    if folders == [] then used
    else if folders[0].NoFolder? then UsedAfter(n, folders[1..], used)
    else UsedAfter(n, folders[1..], used + {Fold(n.lower, DirectoryName(n, used, folders[0]))})
  }

  /** The walk goes on with exactly these names: a level is its first folders, then the rest with those names used. */
  lemma {:induction false} PlanConcat(n: Naming, a: seq<Folder>, b: seq<Folder>, used: set<string>, directory: string)
    ensures Plan(n, a + b, used, directory)
            == Plan(n, a, used, directory) + Plan(n, b, UsedAfter(n, a, used), directory)
    decreases |a|
  {
    if a == [] {
      assert a + b == b;
    } else {
      assert (a + b)[0] == a[0] && (a + b)[1..] == a[1..] + b;
      var next := if a[0].NoFolder? then used else used + {Fold(n.lower, DirectoryName(n, used, a[0]))};
      PlanConcat(n, a[1..], b, next, directory);
    }
  }

  function Present(folders: seq<Folder>): nat {
    if folders == [] then 0 else (if folders[0].Folder? then 1 else 0) + Present(folders[1..])
  }

  /** Each folder of a level adds one name of its own to the names used. */
  lemma {:induction false} OneNameEach(n: Naming, folders: seq<Folder>, used: set<string>)
    ensures |UsedAfter(n, folders, used)| == |used| + Present(folders)
    ensures used <= UsedAfter(n, folders, used)
  {
    if folders != [] {
      if folders[0].NoFolder? {
        OneNameEach(n, folders[1..], used);
      } else {
        NameFacts(n, used, folders[0]);
        OneNameEach(n, folders[1..], used + {Fold(n.lower, DirectoryName(n, used, folders[0]))});
      }
    }
  }

  // ---------- the outcome ----------

  /** The first attempt in `[first, bound)` that fails, or `bound`. */
  function FirstFailure(succeeds: nat -> bool, first: nat, bound: nat): (e: nat)
    requires first <= bound
    ensures first <= e <= bound
    ensures forall i :: first <= i < e ==> succeeds(i)
    ensures e < bound ==> !succeeds(e)
    decreases bound - first
  {
    if first == bound || !succeeds(first) then first else FirstFailure(succeeds, first + 1, bound)
  }

  /** The file system after the copies, a later one replacing an earlier one of the same name. */
  function Copied(lower: CaseMap, disk: map<string, string>, plan: seq<Copy>): map<string, string>
    decreases |plan|
  {
    if plan == [] then disk
    else Copied(lower, disk[Fold(lower, plan[0].target) := plan[0].source], plan[1..])
  }

  /** `end` is `s` after the first `k` copies of the plan and, unless they were all, one failed attempt. */
  ghost predicate StoppedAt(lower: CaseMap, s: State, plan: seq<Copy>, k: nat, end: State) {
    && k <= |plan|
    && end.attempted == s.attempted + (if k < |plan| then plan[..k + 1] else plan)
    && end.exported == s.exported + k
    && end.failed == (if k < |plan| then Some(plan[k]) else None)
    && end.disk == Copied(lower, s.disk, plan[..k])
  }

  lemma {:induction false} StoppedLater(lower: CaseMap, succeeds: nat -> bool, s: State, plan: seq<Copy>, k: nat,
                                        end: State)
    requires plan != [] && succeeds(|s.attempted|)
    requires StoppedAt(lower, Try(lower, succeeds, s, plan[0]), plan[1..], k, end)
    ensures StoppedAt(lower, s, plan, k + 1, end)
  {
    LaterAttempts(s.attempted, plan, k);
    LaterDisk(lower, s.disk, plan, k);
  }

  lemma {:induction false} LaterAttempts(attempted: seq<Copy>, plan: seq<Copy>, k: nat)
    requires plan != [] && k <= |plan| - 1
    ensures attempted + [plan[0]] + (if k < |plan| - 1 then plan[1..][..k + 1] else plan[1..])
            == attempted + (if k + 1 < |plan| then plan[..k + 2] else plan)
  {
    var tail := if k < |plan| - 1 then plan[1..][..k + 1] else plan[1..];
    assert (if k + 1 < |plan| then plan[..k + 2] else plan) == [plan[0]] + tail;
  }

  lemma {:induction false} LaterDisk(lower: CaseMap, disk: map<string, string>, plan: seq<Copy>, k: nat)
    requires plan != [] && k <= |plan| - 1
    ensures Copied(lower, disk, plan[..k + 1])
            == Copied(lower, disk[Fold(lower, plan[0].target) := plan[0].source], plan[1..][..k])
  {
    assert plan[..k + 1][1..] == plan[1..][..k];
  }

  /**
   The walk does exactly the copies before the first one that fails: it attempts that one and none after it,
   counts the ones before it, and leaves only those on disk.
   */
  lemma {:induction false} PerformIsPrefix(lower: CaseMap, succeeds: nat -> bool, s: State, plan: seq<Copy>)
    requires s.failed.None?
    ensures var first := |s.attempted|;
            StoppedAt(lower, s, plan, FirstFailure(succeeds, first, first + |plan|) - first,
                      Perform(lower, succeeds, s, plan))
    decreases |plan|
  {
    var first := |s.attempted|;
    if plan != [] {
      if succeeds(first) {
        var next := Try(lower, succeeds, s, plan[0]);
        PerformIsPrefix(lower, succeeds, next, plan[1..]);
        StoppedLater(lower, succeeds, s, plan, FirstFailure(succeeds, first + 1, first + |plan|) - first - 1,
                     Perform(lower, succeeds, next, plan[1..]));
      } else {
        StoppedNow(lower, succeeds, s, plan);
      }
    }
  }

  lemma {:induction false} StoppedNow(lower: CaseMap, succeeds: nat -> bool, s: State, plan: seq<Copy>)
    requires s.failed.None? && plan != [] && !succeeds(|s.attempted|)
    ensures StoppedAt(lower, s, plan, 0, Perform(lower, succeeds, s, plan))
  {
    assert plan[..1] == [plan[0]] && plan[..0] == [];
  }

  function Targets(lower: CaseMap, plan: seq<Copy>): set<string> {
    set c | c in plan :: Fold(lower, c.target)
  }

  lemma {:induction false} TargetsStep(lower: CaseMap, plan: seq<Copy>)
    requires plan != []
    ensures Targets(lower, plan) == {Fold(lower, plan[0].target)} + Targets(lower, plan[1..])
    ensures NoClash(lower, plan) ==> Fold(lower, plan[0].target) !in Targets(lower, plan[1..])
    ensures NoClash(lower, plan) ==> NoClash(lower, plan[1..])
  {
    var c, rest := plan[0], plan[1..];
    assert plan == [c] + rest;
    if NoClash(lower, plan) {
      NoClashParts(lower, [c], rest);
      forall y | y in rest
        ensures Differ(lower, c, y)
      {
        var i :| 0 <= i < |rest| && rest[i] == y;
        assert Differ(lower, plan[0], plan[i + 1]);
      }
    }
  }

  /** Files that are not targets are left alone, and the targets are all that is added. */
  lemma {:induction false} CopiedFrame(lower: CaseMap, disk: map<string, string>, plan: seq<Copy>, p: string)
    ensures p in Copied(lower, disk, plan) <==> p in disk || p in Targets(lower, plan)
    ensures p in disk && p !in Targets(lower, plan) ==> Copied(lower, disk, plan)[p] == disk[p]
    decreases |plan|
  {
    if plan != [] {
      TargetsStep(lower, plan);
      CopiedFrame(lower, disk[Fold(lower, plan[0].target) := plan[0].source], plan[1..], p);
    }
  }

  /** A copy that does not clash survives, with the contents of its message. */
  lemma {:induction false} CopySurvives(lower: CaseMap, disk: map<string, string>, plan: seq<Copy>, c: Copy)
    requires NoClash(lower, plan) && c in plan
    ensures Fold(lower, c.target) in Copied(lower, disk, plan)
    ensures Copied(lower, disk, plan)[Fold(lower, c.target)] == c.source
    decreases |plan|
  {
    var key, rest := Fold(lower, plan[0].target), plan[1..];
    TargetsStep(lower, plan);
    if c in rest {
      CopySurvives(lower, disk[key := plan[0].source], rest, c);
    } else {
      CopiedFrame(lower, disk[key := plan[0].source], rest, key);
    }
  }

  lemma {:induction false} TargetCount(lower: CaseMap, plan: seq<Copy>)
    requires NoClash(lower, plan)
    ensures |Targets(lower, plan)| == |plan|
    decreases |plan|
  {
    if plan != [] {
      TargetsStep(lower, plan);
      TargetCount(lower, plan[1..]);
    }
  }

  /** The files of the first `k` copies, and nothing else, were added; each holds its own message. */
  ghost predicate Holds(lower: CaseMap, before: map<string, string>, after: map<string, string>, done: seq<Copy>) {
    && after.Keys == before.Keys + Targets(lower, done)
    && |Targets(lower, done)| == |done|
    && (forall c :: c in done ==> after[Fold(lower, c.target)] == c.source)
    && (forall p :: p in before && p !in Targets(lower, done) ==> after[p] == before[p])
  }

  lemma {:induction false} CopiedHolds(lower: CaseMap, disk: map<string, string>, plan: seq<Copy>)
    requires NoClash(lower, plan)
    ensures Holds(lower, disk, Copied(lower, disk, plan), plan)
  {
    var after := Copied(lower, disk, plan);
    TargetCount(lower, plan);
    forall p
      ensures p in after <==> p in disk || p in Targets(lower, plan)
      ensures p in disk && p !in Targets(lower, plan) ==> after[p] == disk[p]
    {
      CopiedFrame(lower, disk, plan, p);
    }
    forall c | c in plan
      ensures Fold(lower, c.target) in after && after[Fold(lower, c.target)] == c.source
    {
      CopySurvives(lower, disk, plan, c);
    }
  }

  /** `end` is the outcome of a plan from an empty state on `disk`. */
  ghost predicate Outcome(lower: CaseMap, succeeds: nat -> bool, disk: map<string, string>, plan: seq<Copy>,
                          end: State) {
    && end.exported == FirstFailure(succeeds, 0, |plan|)
    && (if end.exported == |plan| then end.failed == None && end.attempted == plan
        else end.failed == Some(plan[end.exported]) && end.attempted == plan[..end.exported + 1])
    && Holds(lower, disk, end.disk, plan[..end.exported])
  }

  lemma {:induction false} PerformHolds(lower: CaseMap, succeeds: nat -> bool, disk: map<string, string>,
                                        plan: seq<Copy>)
    requires NoClash(lower, plan)
    ensures Outcome(lower, succeeds, disk, plan, Perform(lower, succeeds, State([], 0, None, disk), plan))
  {
    var s, k := State([], 0, None, disk), FirstFailure(succeeds, 0, |plan|);
    var end := Perform(lower, succeeds, s, plan);
    PerformIsPrefix(lower, succeeds, s, plan);
    assert StoppedAt(lower, s, plan, k, end);
    FromNothing(if k < |plan| then plan[..k + 1] else plan);
    PrefixHolds(lower, disk, plan, k);
  }

  lemma {:induction false} FromNothing(s: seq<Copy>)
    ensures [] + s == s
  {
  }

  lemma {:induction false} PrefixHolds(lower: CaseMap, disk: map<string, string>, plan: seq<Copy>, k: nat)
    requires NoClash(lower, plan) && k <= |plan|
    ensures Holds(lower, disk, Copied(lower, disk, plan[..k]), plan[..k])
  {
    assert plan == plan[..k] + plan[k..];
    NoClashParts(lower, plan[..k], plan[k..]);
    CopiedHolds(lower, disk, plan[..k]);
  }

  /**
   The export, as its caller sees it. If nothing failed, the count is the number of messages in the tree and
   exactly that many files were written, each holding its own message. If a copy failed, the walk stopped
   there: the count and the files are those of the messages before it in depth-first order.
   */
  lemma {:induction false} ExportOutcome(n: Naming, succeeds: nat -> bool, folders: seq<Folder>, directory: string,
                                         disk: map<string, string>)
    requires UniqueUids(folders)
    ensures var plan := Plan(n, folders, {}, directory);
            && |plan| == |AllMessages(folders)|
            && Sources(plan) == SourcesOf(AllMessages(folders))
            && Outcome(n.lower, succeeds, disk, plan, Perform(n.lower, succeeds, State([], 0, None, disk), plan))
  {
    PlanIsComplete(n, folders, {}, directory);
    PlanNoClash(n, folders, {}, directory);
    PerformHolds(n.lower, succeeds, disk, Plan(n, folders, {}, directory));
  }
}
