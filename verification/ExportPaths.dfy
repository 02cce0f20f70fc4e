/** Where the paths of an export lead, once a file system has resolved them part by part. */
module ExportPaths {
  import opened Text
  import opened ExportNames
  import opened Export
  import opened ExportTheorems

  // ---------- what a path resolves to ----------

  /** The parts of a path, cut at every separator of either kind. */
  function PathParts(path: string): (parts: seq<string>)
    ensures parts != []
  {
    if path == "" then [""]
    else
      var front, c := PathParts(path[..|path| - 1]), path[|path| - 1];
      if c == '\\' || c == '/' then front + [""]
      else front[..|front| - 1] + [front[|front| - 1] + [c]]
  }

  /** An empty part and a single dot stay where they are, and two dots climb. */
  function Entered(where: seq<string>, part: string): seq<string> {
    if part == "" || part == "." then where
    else if part == ".." then (if where == [] then [] else where[..|where| - 1])
    else where + [part]
  }

  function Resolved(parts: seq<string>): seq<string> {
    if parts == [] then [] else Entered(Resolved(parts[..|parts| - 1]), parts[|parts| - 1])
  }

  function Resolve(path: string): seq<string> {
    Resolved(PathParts(path))
  }

  /** A name that leads one level down. */
  predicate LeadsDown(name: string) {
    '\\' !in name && '/' !in name && name != "" && name != "." && name != ".."
  }

  lemma {:induction false} LastPart(directory: string, name: string)
    requires '\\' !in name && '/' !in name
    ensures PathParts(directory + "\\" + name) == PathParts(directory) + [name]
  {
    var path := directory + "\\" + name;
    if name == "" {
      assert path[..|path| - 1] == directory;
    } else {
      var front := name[..|name| - 1];
      LastPart(directory, front);
      assert path[..|path| - 1] == directory + "\\" + front;
      assert name == front + [name[|name| - 1]];
    }
  }

  lemma {:induction false} OneDown(directory: string, name: string)
    requires LeadsDown(name)
    ensures Resolve(directory + "\\" + name) == Resolve(directory) + [name]
  {
    LastPart(directory, name);
    var parts := PathParts(directory) + [name];
    assert parts[..|parts| - 1] == PathParts(directory);
  }

  lemma {:induction false} LegalLeadsDown(name: string)
    requires IsLegalName(name)
    ensures LeadsDown(name)
  {
    var i :| 0 <= i < |name| && name[i] != '.';
  }

  lemma {:induction false} FileLeadsDown(m: Message)
    ensures LeadsDown(Decimal(m.uid) + ".eml")
  {
    var d, e := Decimal(m.uid), ".eml";
    assert forall i :: 0 <= i < |d| ==> (d + e)[i] == d[i];
    assert forall i :: |d| <= i < |d + e| ==> (d + e)[i] == e[i - |d|];
    assert |d + e| >= 5;
  }

  lemma {:induction false} DirectoryLeadsDown(n: Naming, used: set<string>, folder: Folder)
    requires folder.Folder?
    ensures LeadsDown(DirectoryName(n, used, folder))
  {
    SanitizedIsSegment(n.space, folder.name);
    UniqueNameIsSegment(n.lower, used, Sanitized(n.space, folder.name));
    SegmentIsLegal(DirectoryName(n, used, folder));
    LegalLeadsDown(DirectoryName(n, used, folder));
  }

  // ---------- the whole tree ----------

  function Same(level: nat, count: nat): (r: seq<nat>)
    ensures |r| == count && forall i :: 0 <= i < count ==> r[i] == level
  {
    seq(count, _ => level)
  }

  /** How deep the folder of each message of the tree is, in depth-first order; the folders listed are `level` deep. */
  function Depths(folders: seq<Folder>, level: nat): (r: seq<nat>)
    ensures |r| == |AllMessages(folders)|
  {
    if folders == [] then []
    else
      (match folders[0]
       case NoFolder => []
       case Folder(_, messages, children) => Same(level, |MessagesOf(messages)|) + Depths(children, level + 1))
      + Depths(folders[1..], level)
  }

  /** The target resolves to the directory, then one name for each level down to the folder, and the message's file. */
  ghost predicate Lands(directory: string, target: string, levels: int, m: Message) {
    exists names :: |names| == levels
      && Resolve(target) == Resolve(directory) + names + [Decimal(m.uid) + ".eml"]
  }

  lemma {:induction false} LandsDeeper(directory: string, name: string, target: string, levels: int, m: Message)
    requires LeadsDown(name) && Lands(directory + "\\" + name, target, levels, m)
    ensures Lands(directory, target, levels + 1, m)
  {
    var names :| |names| == levels
      && Resolve(target) == Resolve(directory + "\\" + name) + names + [Decimal(m.uid) + ".eml"];
    OneDown(directory, name);
    Regrouped(Resolve(directory), name, names, Decimal(m.uid) + ".eml");
    assert |[name] + names| == levels + 1;
  }

  lemma {:induction false} Regrouped(a: seq<string>, name: string, names: seq<string>, file: string)
    ensures a + [name] + names + [file] == a + ([name] + names) + [file]
  {
  }

  lemma {:induction false} LandsHere(directory: string, m: Message)
    ensures Lands(directory, Target(directory, m), 0, m)
  {
    var file := Decimal(m.uid) + ".eml";
    FileLeadsDown(m);
    OneDown(directory, file);
    assert Target(directory, m) == directory + "\\" + file;
    var none: seq<string> := [];
    assert Resolve(directory) + [file] == Resolve(directory) + none + [file];
  }

  /** Message `i` of the tree. */
  ghost predicate MessageLands(n: Naming, folders: seq<Folder>, used: set<string>, directory: string, level: nat,
                               i: nat)
    requires i < |AllMessages(folders)|
  {
    var plan, depths := Plan(n, folders, used, directory), Depths(folders, level);
    i < |plan| && Lands(directory, plan[i].target, depths[i] - level + 1, AllMessages(folders)[i])
  }

  /** In three parts of equal lengths, an index falls in the same part. */
  lemma {:induction false} InPart<T>(a: seq<T>, b: seq<T>, c: seq<T>, i: nat)
    requires i < |a + b + c|
    ensures (a + b + c)[i] == if i < |a| then a[i] else if i < |a| + |b| then b[i - |a|] else c[i - |a| - |b|]
  {
  }

  lemma {:induction false} FolderParts(n: Naming, folders: seq<Folder>, used: set<string>, directory: string,
                                       level: nat, i: nat)
    requires folders != [] && folders[0].Folder? && i < |AllMessages(folders)|
    ensures var f, name := folders[0], DirectoryName(n, used, folders[0]);
            var here, next := directory + "\\" + name, used + {Fold(n.lower, name)};
            var a, b := |MessagesOf(f.messages)|, |AllMessages(f.children)|;
            var plan, depths, all := Plan(n, folders, used, directory), Depths(folders, level), AllMessages(folders);
            && |plan| == |all|
            && |MessageCopies(f.messages, here)| == a && |Plan(n, f.children, {}, here)| == b
            && |Plan(n, folders[1..], next, directory)| == |AllMessages(folders[1..])| == |all| - a - b
            && if i < a then
                 && plan[i] == MessageCopies(f.messages, here)[i]
                 && depths[i] == level && all[i] == MessagesOf(f.messages)[i]
               else if i < a + b then
                 && plan[i] == Plan(n, f.children, {}, here)[i - a]
                 && depths[i] == Depths(f.children, level + 1)[i - a] && all[i] == AllMessages(f.children)[i - a]
               else
                 && plan[i] == Plan(n, folders[1..], next, directory)[i - a - b]
                 && depths[i] == Depths(folders[1..], level)[i - a - b]
                 && all[i] == AllMessages(folders[1..])[i - a - b]
  {
    var f, name := folders[0], DirectoryName(n, used, folders[0]);
    var here, next := directory + "\\" + name, used + {Fold(n.lower, name)};
    MessageSources(f.messages, here);
    PlanIsComplete(n, f.children, {}, here);
    PlanIsComplete(n, folders[1..], next, directory);
    InPart(MessageCopies(f.messages, here), Plan(n, f.children, {}, here), Plan(n, folders[1..], next, directory), i);
    InPart(MessagesOf(f.messages), AllMessages(f.children), AllMessages(folders[1..]), i);
    InPart(Same(level, |MessagesOf(f.messages)|), Depths(f.children, level + 1), Depths(folders[1..], level), i);
  }

  lemma {:induction false} NoParts(n: Naming, folders: seq<Folder>, used: set<string>, directory: string, level: nat)
    requires folders != [] && folders[0].NoFolder?
    ensures Plan(n, folders, used, directory) == Plan(n, folders[1..], used, directory)
    ensures AllMessages(folders) == AllMessages(folders[1..]) && Depths(folders, level) == Depths(folders[1..], level)
  {
  }

  lemma {:induction false} OwnLands(directory: string, name: string, messages: seq<Option<Message>>, i: nat)
    requires LeadsDown(name) && i < |MessagesOf(messages)|
    ensures var copies := MessageCopies(messages, directory + "\\" + name);
            i < |copies| && Lands(directory, copies[i].target, 1, MessagesOf(messages)[i])
  {
    var here, m := directory + "\\" + name, MessagesOf(messages)[i];
    CopiesAre(messages, here, i);
    LandsHere(here, m);
    LandsDeeper(directory, name, Target(here, m), 0, m);
  }

  /**
   Where every message of the tree goes, whatever its folders are called: the file system resolves the target of the
   plan for it to the export directory, one further level for each level of its folder, and its own file there. So
   nothing climbs out, and nothing is put beside its folder.
   */
  lemma {:induction false} PlanLands(n: Naming, folders: seq<Folder>, used: set<string>, directory: string, level: nat,
                                     i: nat)
    requires i < |AllMessages(folders)|
    ensures MessageLands(n, folders, used, directory, level, i)
    decreases folders
  {
    match folders[0]
    case NoFolder =>
      NoParts(n, folders, used, directory, level);
      PlanLands(n, folders[1..], used, directory, level, i);
    case Folder(_, messages, children) =>
      var name := DirectoryName(n, used, folders[0]);
      var a, b := |MessagesOf(messages)|, |AllMessages(children)|;
      FolderParts(n, folders, used, directory, level, i);
      if i < a {
        OwnCase(n, folders, used, directory, level, i);
      } else if i < a + b {
        PlanLands(n, children, {}, directory + "\\" + name, level + 1, i - a);
        BelowCase(n, folders, used, directory, level, i);
      } else {
        PlanLands(n, folders[1..], used + {Fold(n.lower, name)}, directory, level, i - a - b);
      }
  }

  lemma {:induction false} OwnCase(n: Naming, folders: seq<Folder>, used: set<string>, directory: string, level: nat,
                                   i: nat)
    requires folders != [] && folders[0].Folder? && i < |MessagesOf(folders[0].messages)| <= |AllMessages(folders)|
    ensures MessageLands(n, folders, used, directory, level, i)
  {
    FolderParts(n, folders, used, directory, level, i);
    DirectoryLeadsDown(n, used, folders[0]);
    OwnLands(directory, DirectoryName(n, used, folders[0]), folders[0].messages, i);
  }

  lemma {:induction false} BelowParts(n: Naming, folders: seq<Folder>, used: set<string>, directory: string, level: nat,
                                      i: nat)
    requires folders != [] && folders[0].Folder? && |MessagesOf(folders[0].messages)| <= i < |AllMessages(folders)|
    requires i - |MessagesOf(folders[0].messages)| < |AllMessages(folders[0].children)|
    ensures var j, children := i - |MessagesOf(folders[0].messages)|, folders[0].children;
            var below := Plan(n, children, {}, directory + "\\" + DirectoryName(n, used, folders[0]));
            && i < |Plan(n, folders, used, directory)| && j < |below|
            && Plan(n, folders, used, directory)[i] == below[j]
            && Depths(folders, level)[i] == Depths(children, level + 1)[j]
            && AllMessages(folders)[i] == AllMessages(children)[j]
  {
    FolderParts(n, folders, used, directory, level, i);
  }

  lemma {:induction false} BelowCase(n: Naming, folders: seq<Folder>, used: set<string>, directory: string, level: nat,
                                     i: nat)
    requires folders != [] && folders[0].Folder? && |MessagesOf(folders[0].messages)| <= i < |AllMessages(folders)|
    requires var below := i - |MessagesOf(folders[0].messages)|;
             && below < |AllMessages(folders[0].children)|
             && MessageLands(n, folders[0].children, {}, directory + "\\" + DirectoryName(n, used, folders[0]),
                             level + 1, below)
    ensures MessageLands(n, folders, used, directory, level, i)
  {
    var children, name := folders[0].children, DirectoryName(n, used, folders[0]);
    var j := i - |MessagesOf(folders[0].messages)|;
    BelowParts(n, folders, used, directory, level, i);
    DirectoryLeadsDown(n, used, folders[0]);
    LandsDeeper(directory, name, Plan(n, children, {}, directory + "\\" + name)[j].target,
                Depths(children, level + 1)[j] - level, AllMessages(children)[j]);
  }

  // ---------- what clashing names become ----------

  lemma {:induction false} LegalIsKept(n: Naming, name: string)
    requires IsLegalName(name) && Trimmed(n.space, name)
    ensures Sanitized(n.space, name) == name
  {
    forall i | 0 <= i < |name|
      ensures !IsForbidden(name[i])
    {
      ForbiddenIsRefused(name[i]);
    }
    SegmentKept(n.space, name);
  }

  lemma {:induction false} SecondName(n: Naming, name: string)
    ensures UniqueName(n.lower, {Fold(n.lower, name)}, name) == name + " (2)"
  {
    CandidatesDiffer(n.lower, name, 2, 2);
    assert Decimal(2) == "2";
  }

  /** Two folders of one level with the same name: the second gets the suffix of a file manager. */
  lemma {:induction false} TwinNames(n: Naming, name: string, m: Message, k: Message, directory: string)
    requires IsLegalName(name) && Trimmed(n.space, name)
    ensures var folders := [Folder(name, [Some(m)], []), Folder(name, [Some(k)], [])];
            Plan(n, folders, {}, directory)
            == [Copy(m.source, directory + "\\" + name + "\\" + Decimal(m.uid) + ".eml"),
                Copy(k.source, directory + "\\" + name + " (2)" + "\\" + Decimal(k.uid) + ".eml")]
  {
    var first, second := Folder(name, [Some(m)], []), Folder(name, [Some(k)], []);
    LegalIsKept(n, name);
    SecondName(n, name);
    OneFolder(n, name, m, [second], {}, directory, name);
    assert {} + {Fold(n.lower, name)} == {Fold(n.lower, name)};
    OneFolder(n, name, k, [], {Fold(n.lower, name)}, directory, name + " (2)");
    assert [first, second] == [first] + [second] && [second] == [second] + [];
    assert directory + "\\" + (name + " (2)") == directory + "\\" + name + " (2)";
  }

  /** A folder with one message, which gets the directory `given`, and the folders behind it. */
  lemma {:induction false} OneFolder(n: Naming, name: string, m: Message, rest: seq<Folder>, used: set<string>,
                                     directory: string, given: string)
    requires UniqueName(n.lower, used, Sanitized(n.space, name)) == given
    ensures Plan(n, [Folder(name, [Some(m)], [])] + rest, used, directory)
            == [Copy(m.source, directory + "\\" + given + "\\" + Decimal(m.uid) + ".eml")]
               + Plan(n, rest, used + {Fold(n.lower, given)}, directory)
  {
    var folders := [Folder(name, [Some(m)], [])] + rest;
    assert folders[1..] == rest;
    OneMessage(m, directory + "\\" + given);
  }

  lemma {:induction false} OneMessage(m: Message, directory: string)
    ensures MessageCopies([Some(m)], directory) == [Copy(m.source, directory + "\\" + Decimal(m.uid) + ".eml")]
  {
    assert [Some(m)][1..] == [];
  }
}
