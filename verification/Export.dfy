/** The mailbox export: a depth-first walk of a folder tree that copies every message file, and its outcome. */
module Export {
  import opened Text
  import opened ExportNames

  datatype Message = Message(uid: nat, source: string)

  /** A null entry of a folder list is `NoFolder`, a null message `None`, and a null list the empty one. */
  datatype Folder = NoFolder | Folder(name: string, messages: seq<Option<Message>>, children: seq<Folder>)

  datatype Copy = Copy(source: string, target: string)

  /** Where names come from: the file system's lower-casing and the trimming class of the string library. */
  datatype Naming = Naming(lower: CaseMap, space: SpaceClass)

  function Target(directory: string, message: Message): string {
    directory + "\\" + Decimal(message.uid) + ".eml"
  }

  // ---------- what is to be copied ----------

  function MessageCopies(messages: seq<Option<Message>>, directory: string): seq<Copy> {
    if messages == [] then []
    else
      (match messages[0]
       case None => []
       case Some(m) => [Copy(m.source, Target(directory, m))])
      + MessageCopies(messages[1..], directory)
  }

  function DirectoryName(n: Naming, used: set<string>, folder: Folder): string
    requires folder.Folder?
  {
    UniqueName(n.lower, used, Sanitized(n.space, folder.name))
  }

  /** All copies of the walk in order, for siblings that come after others that took the names `used`. */
  function Plan(n: Naming, folders: seq<Folder>, used: set<string>, directory: string): seq<Copy>
    decreases folders
  {
    if folders == [] then []
    else
      match folders[0]
      case NoFolder => Plan(n, folders[1..], used, directory)
      case Folder(_, messages, children) =>
        var name := DirectoryName(n, used, folders[0]);
        var here := directory + "\\" + name;
        MessageCopies(messages, here) + Plan(n, children, {}, here)
        + Plan(n, folders[1..], used + {Fold(n.lower, name)}, directory)
  }

  // ---------- doing it ----------

  /** `attempted` lists every copy tried; `failed` is the copy that stopped the walk. */
  datatype State = State(attempted: seq<Copy>, exported: nat, failed: Option<Copy>, disk: map<string, string>)

  /** One copy: attempt number `|attempted|` succeeds as the file system decides. Paths are case-blind. */
  function Try(lower: CaseMap, succeeds: nat -> bool, s: State, c: Copy): State {
    if succeeds(|s.attempted|)
    then State(s.attempted + [c], s.exported + 1, s.failed, s.disk[Fold(lower, c.target) := c.source])
    else State(s.attempted + [c], s.exported, Some(c), s.disk)
  }

  /** Copying in order until one fails. */
  function Perform(lower: CaseMap, succeeds: nat -> bool, s: State, plan: seq<Copy>): State
    decreases |plan|
  {
    if s.failed.Some? || plan == [] then s
    else Perform(lower, succeeds, Try(lower, succeeds, s, plan[0]), plan[1..])
  }

  lemma {:induction false} PerformConcat(lower: CaseMap, succeeds: nat -> bool, s: State, a: seq<Copy>, b: seq<Copy>)
    ensures Perform(lower, succeeds, s, a + b)
            == Perform(lower, succeeds, Perform(lower, succeeds, s, a), b)
    decreases |a|
  {
    if s.failed.None? && a != [] {
      assert (a + b)[1..] == a[1..] + b;
      PerformConcat(lower, succeeds, Try(lower, succeeds, s, a[0]), a[1..], b);
    } else if a == [] {
      assert a + b == b;
    }
  }

  lemma {:induction false} PerformOne(lower: CaseMap, succeeds: nat -> bool, s: State, c: Copy)
    requires s.failed.None?
    ensures Perform(lower, succeeds, s, [c]) == Try(lower, succeeds, s, c)
  {
    assert [c][1..] == [];
    assert Perform(lower, succeeds, Try(lower, succeeds, s, c), []) == Try(lower, succeeds, s, c);
  }

  datatype Reply = Denied | NoDirectory | Incomplete(copy: Copy) | Done

  class Exporter {
    const naming: Naming
    const succeeds: nat -> bool
    var attempted: seq<Copy>
    var exported: nat
    var failed: Option<Copy>
    var disk: map<string, string>

    constructor (naming: Naming, succeeds: nat -> bool, disk: map<string, string>)
      ensures this.naming == naming && this.succeeds == succeeds
      ensures Now() == State([], 0, None, disk)
    {
      this.naming, this.succeeds, this.disk := naming, succeeds, disk;
      attempted, exported, failed := [], 0, None;
    }

    function Now(): State
      reads this
    {
      State(attempted, exported, failed, disk)
    }

    function After(s: State, plan: seq<Copy>): State {
      Perform(naming.lower, succeeds, s, plan)
    }

    method CopyFile(source: string, target: string) returns (ok: bool)
      requires failed.None?
      modifies this
      ensures Now() == After(old(Now()), [Copy(source, target)])
      ensures ok == failed.None?
    {
      ghost var c, s := Copy(source, target), Now();
      PerformOne(naming.lower, succeeds, s, c);
      ok := succeeds(|attempted|);
      attempted := attempted + [Copy(source, target)];
      if ok {
        exported := exported + 1;
        disk := disk[Fold(naming.lower, target) := source];
      } else {
        failed := Some(Copy(source, target));
      }
    }

    method ExportMessagesOf(messages: seq<Option<Message>>, directory: string) returns (ok: bool)
      requires failed.None?
      modifies this
      ensures Now() == After(old(Now()), MessageCopies(messages, directory))
      ensures ok == failed.None?
    {
      var j := 0;
      while j < |messages|
        invariant 0 <= j <= |messages| && failed.None?
        invariant After(Now(), MessageCopies(messages[j..], directory))
               == After(old(Now()), MessageCopies(messages, directory))
      {
        var rest := messages[j..];
        assert rest[0] == messages[j] && rest[1..] == messages[j + 1..];
        if messages[j].Some? {
          var m := messages[j].value;
          var c, s := Copy(m.source, Target(directory, m)), Now();
          PerformConcat(naming.lower, succeeds, s, [c], MessageCopies(rest[1..], directory));
          ok := CopyFile(m.source, Target(directory, m));
          if !ok {
            return;
          }
        } else {
          assert [] + MessageCopies(rest[1..], directory) == MessageCopies(rest[1..], directory);
        }
        j := j + 1;
      }
      ok := true;
    }

    /** The walk of one level and everything below it. */
    method ExportFolders(folders: seq<Folder>, directory: string) returns (ok: bool)
      requires failed.None?
      modifies this
      ensures Now() == After(old(Now()), Plan(naming, folders, {}, directory))
      ensures ok == failed.None?
      decreases folders
    {
      var used := {};
      var i := 0;
      while i < |folders|
        invariant 0 <= i <= |folders| && failed.None?
        invariant After(Now(), Plan(naming, folders[i..], used, directory))
               == After(old(Now()), Plan(naming, folders, {}, directory))
      {
        var rest := folders[i..];
        assert rest[0] == folders[i] && rest[1..] == folders[i + 1..];
        if folders[i].Folder? {
          var f := folders[i];
          var base := Sanitize(naming.space, f.name);
          var name, tries := PickName(naming.lower, used, base);
          var here := directory + "\\" + name;
          ghost var s := Now();
          ghost var a, b := MessageCopies(f.messages, here), Plan(naming, f.children, {}, here);
          used := used + {Fold(naming.lower, name)};
          ghost var c := Plan(naming, rest[1..], used, directory);
          PerformConcat(naming.lower, succeeds, s, a + b, c);
          PerformConcat(naming.lower, succeeds, s, a, b);
          ok := ExportMessagesOf(f.messages, here);
          if !ok {
            return;
          }
          ok := ExportFolders(f.children, here);
          if !ok {
            return;
          }
        }
        i := i + 1;
      }
      ok := true;
    }

    /**
     The operation an administrator calls. The count it reports is zero unless everything was copied; the
     directory is trimmed and must not be empty.
     */
    method ExportMessages(serverAdmin: bool, folders: seq<Folder>, directory: string) returns (reply: Reply, count: nat)
      requires Now().exported == 0 && Now().failed.None?
      modifies this
      ensures reply == Done <==> serverAdmin && Trim(naming.space, directory) != "" && failed.None?
      ensures reply != Done ==> count == 0
      ensures reply == Done ==> count == exported
      ensures reply == Denied <==> !serverAdmin
      ensures reply.Incomplete? ==> failed == Some(reply.copy)
      ensures Now() == if reply == Denied || reply == NoDirectory then old(Now())
                       else After(old(Now()), Plan(naming, folders, {}, Trim(naming.space, directory)))
    {
      count := 0;
      if !serverAdmin {
        return Denied, count;
      }
      var trimmed := Trim(naming.space, directory);
      if trimmed == "" {
        return NoDirectory, count;
      }
      var ok := ExportFolders(folders, trimmed);
      if !ok {
        return Incomplete(failed.value), count;
      }
      return Done, exported;
    }
  }
}
