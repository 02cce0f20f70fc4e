/**
 Every run of COM calls on accounts: sessions log on, collections are refreshed, handles are handed out, levels and
 passwords are set in memory, and handles are saved.
 */
module AccountRuns {
  import opened Text
  import opened Rights
  import opened Accounts

  /** A handle shares its object with its collection and with other handles. */
  datatype Handle = Handle(subject: nat, parent: nat, inCollection: bool)

  /** Everything is named by its index. A collection belongs to a session, and so do the handles it hands out. */
  datatype State = State(
    rows: map<nat, Row>, nextId: nat, sessions: seq<Session>,
    objects: seq<Account>, handles: seq<Handle>, collections: seq<seq<nat>>, owners: seq<nat>)

  datatype Call =
    | Connect                                   // a new session, not logged on
    | Logon(session: nat, level: Option<int>)   // whatever the logon came to
    | Open(session: nat)                        // a new, empty collection
    | Refresh(parent: nat, ids: seq<nat>)       // the rows the query returned
    | Add(parent: nat)
    | GetItem(parent: nat, index: nat)          // by index, by row or by address
    | SetLevel(handle: nat, requested: int)
    | SetPassword(handle: nat, accepted: bool, hash: string)
    | SaveHandle(handle: nat, db: Database)

  predicate Distinct(s: seq<nat>) {
    forall i, j :: 0 <= i < j < |s| ==> s[i] != s[j]
  }

  function Loaded(rows: map<nat, Row>, ids: seq<nat>): (r: seq<Account>)
    requires forall i :: 0 <= i < |ids| ==> ids[i] in rows
    ensures |r| == |ids|
    ensures forall i :: 0 <= i < |ids| ==> r[i] == Account(ids[i], rows[ids[i]].level, rows[ids[i]].password)
  {
    seq(|ids|, i requires 0 <= i < |ids| => Account(ids[i], rows[ids[i]].level, rows[ids[i]].password))
  }

  function Fresh(from: nat, count: nat): (r: seq<nat>)
    ensures |r| == count && forall i :: 0 <= i < count ==> r[i] == from + i
  {
    seq(count, i => from + i)
  }

  function AccountOf(s: State, h: nat): Account
    requires Sound(s) && h < |s.handles|
  {
    s.objects[s.handles[h].subject]
  }

  /** The session a handle acts with: the one its collection belongs to, as it is logged on now. */
  function SessionOf(s: State, h: nat): Session
    requires Sound(s) && h < |s.handles|
  {
    OwnerOf(s, s.handles[h].parent)
  }

  function OwnerOf(s: State, c: int): Session
    requires Sound(s) && 0 <= c < |s.collections|
  {
    s.sessions[s.owners[c]]
  }

  /** Indices are in range, and identities are issued in order, from 1. */
  predicate Sound(s: State) {
    && s.nextId > 0
    && (forall r :: r in s.rows ==> 0 < r < s.nextId)
    && (forall o :: 0 <= o < |s.objects| ==> s.objects[o].id < s.nextId)
    && (forall h :: 0 <= h < |s.handles| ==>
          s.handles[h].subject < |s.objects| && s.handles[h].parent < |s.collections|)
    && (forall c :: 0 <= c < |s.collections| ==>
          forall i :: 0 <= i < |s.collections[c]| ==> s.collections[c][i] < |s.objects|)
    && |s.owners| == |s.collections| && (forall c :: 0 <= c < |s.owners| ==> s.owners[c] < |s.sessions|)
  }

  /** What the database can answer: the listed rows exist, and a query by primary key lists none twice. */
  predicate Possible(s: State, call: Call) {
    call.Refresh? ==> Distinct(call.ids) && forall i :: 0 <= i < |call.ids| ==> call.ids[i] in s.rows
  }

  /** A call that names no handle or collection, or that is refused, changes nothing. */
  function Next(s: State, call: Call): State
    requires Sound(s) && Possible(s, call)
  {
    match call
    case Connect => s.(sessions := s.sessions + [Session(None)])
    case Logon(x, level) =>
      if x >= |s.sessions| then s else s.(sessions := s.sessions[x := Session(level)])
    case Open(x) =>
      if x >= |s.sessions| then s else s.(collections := s.collections + [[]], owners := s.owners + [x])
    case Refresh(c, ids) =>
      if c >= |s.collections| then s
      else s.(objects := s.objects + Loaded(s.rows, ids),
              collections := s.collections[c := Fresh(|s.objects|, |ids|)])
    case Add(c) =>
      if c >= |s.collections| || !OwnerOf(s, c).IsDomainAdmin() then s
      else s.(objects := s.objects + [Account(0, NORMAL, "")],
              handles := s.handles + [Handle(|s.objects|, c, false)])
    case GetItem(c, i) =>
      if c >= |s.collections| || i >= |s.collections[c]| then s
      else s.(handles := s.handles + [Handle(s.collections[c][i], c, true)])
    case SetLevel(h, requested) =>
      if h >= |s.handles| then s
      else
        var a := AccountOf(s, h);
        s.(objects := s.objects[s.handles[h].subject := a.(level := PutLevel(SessionOf(s, h), a.level, requested).1)])
    case SetPassword(h, accepted, hash) =>
      if h >= |s.handles| || !accepted then s
      else s.(objects := s.objects[s.handles[h].subject := AccountOf(s, h).(password := hash)])
    case SaveHandle(h, db) =>
      if h >= |s.handles| then s else SaveStep(s, h, db)
  }

  function SaveStep(s: State, h: nat, db: Database): State
    requires Sound(s) && h < |s.handles|
  {
    var hd := s.handles[h];
    var r := SavedBy(SessionOf(s, h), AccountOf(s, h), s.rows, s.nextId, db);
    var t := s.(rows := r.rows, nextId := r.nextId, objects := s.objects[hd.subject := r.account]);
    if r.reply != Done || hd.inCollection then t
    else t.(handles := s.handles[h := hd.(inCollection := true)],
            collections := s.collections[hd.parent := s.collections[hd.parent] + [hd.subject]])
  }

  lemma {:induction false} SaveSound(s: State, h: nat, db: Database)
    requires Sound(s) && h < |s.handles|
    ensures Sound(SaveStep(s, h, db))
  {
  }

  lemma {:induction false} StaysSound(s: State, call: Call)
    requires Sound(s) && Possible(s, call)
    ensures Sound(Next(s, call))
  {
    if call.SaveHandle? {
      if call.handle < |s.handles| {
        SaveSound(s, call.handle, call.db);
      }
    }
  }

  // ---------- runs ----------

  ghost predicate IsRun(run: seq<State>, calls: seq<Call>) {
    && |run| == |calls| + 1 && Sound(run[0])
    && forall i :: 0 <= i < |calls| ==> Follows(run[i], calls[i], run[i + 1])
  }

  ghost predicate Follows(s: State, call: Call, t: State) {
    Sound(s) && Possible(s, call) && t == Next(s, call)
  }

  lemma {:induction false} RunSound(run: seq<State>, calls: seq<Call>)
    requires IsRun(run, calls)
    ensures forall i :: 0 <= i < |run| ==> Sound(run[i])
  {
    forall i | 0 < i < |run|
      ensures Sound(run[i])
    {
      assert Follows(run[i - 1], calls[i - 1], run[i]);
      StaysSound(run[i - 1], calls[i - 1]);
    }
  }

  // ---------- server administrators' rows ----------

  predicate IsAdminRow(s: State, r: nat) {
    r in s.rows && s.rows[r].level == SERVER_ADMIN
  }

  /** The object's row is a server administrator's, and the object does not say so. */
  predicate IsStale(s: State, o: nat) {
    o < |s.objects| && IsAdminRow(s, s.objects[o].id) && s.objects[o].level != SERVER_ADMIN
  }

  predicate IsSlot(s: State, c: int, i: int) {
    0 <= c < |s.collections| && 0 <= i < |s.collections[c]|
  }

  /** The object is under a handle that the collection has handed out. */
  ghost predicate IsHandled(s: State, c: int, o: nat) {
    exists h :: 0 <= h < |s.handles| && s.handles[h].subject == o && s.handles[h].parent == c
  }

  /** The object is in the collection or under a handle of it. */
  ghost predicate IsUnder(s: State, c: int, o: nat) {
    0 <= c < |s.collections| && (IsHandled(s, c, o) || exists i :: IsSlot(s, c, i) && s.collections[c][i] == o)
  }

  /** The session has a collection with the object. */
  ghost predicate IsHeldBy(s: State, x: nat, o: nat)
    requires Sound(s)
  {
    exists c :: IsUnder(s, c, o) && s.owners[c] == x
  }

  predicate IsAdminSession(s: State, x: int) {
    0 <= x < |s.sessions| && s.sessions[x].IsServerAdmin()
  }

  /** A session that is not server administrator can get at the object. */
  ghost predicate IsOpen(s: State, o: nat)
    requires Sound(s)
  {
    exists x: nat :: x < |s.sessions| && !IsAdminSession(s, x) && IsHeldBy(s, x, o)
  }

  /** No session that is not server administrator can get at a stale object. */
  ghost predicate NoneStale(s: State)
    requires Sound(s)
  {
    forall o :: IsOpen(s, o) ==> !IsStale(s, o)
  }

  /** Stored levels and levels in memory are levels. */
  predicate Valid(s: State) {
    && (forall r :: r in s.rows ==> IsLevel(s.rows[r].level))
    && (forall o :: 0 <= o < |s.objects| ==> IsLevel(s.objects[o].level))
  }

  /** The session that makes the call, if the call names one. */
  function Acting(s: State, call: Call): Option<nat>
    requires Sound(s)
  {
    match call
    case Connect => None
    case Logon(x, _) => if x < |s.sessions| then Some(x) else None
    case Open(x) => if x < |s.sessions| then Some(x) else None
    case Refresh(c, _) => if c < |s.collections| then Some(s.owners[c]) else None
    case Add(c) => if c < |s.collections| then Some(s.owners[c]) else None
    case GetItem(c, _) => if c < |s.collections| then Some(s.owners[c]) else None
    case SetLevel(h, _) => if h < |s.handles| then Some(s.owners[s.handles[h].parent]) else None
    case SetPassword(h, _, _) => if h < |s.handles| then Some(s.owners[s.handles[h].parent]) else None
    case SaveHandle(h, _) => if h < |s.handles| then Some(s.owners[s.handles[h].parent]) else None
  }

  /** The call is not made by a session that is server administrator at that moment. */
  predicate Ordinary(s: State, call: Call)
    requires Sound(s)
  {
    Acting(s, call).Some? ==> !IsAdminSession(s, Acting(s, call).value)
  }

  /** The call takes no server administrator's row away and makes no new one. */
  ghost predicate KeepsAdmins(s: State, t: State) {
    && (forall r :: IsAdminRow(s, r) ==> r in t.rows && t.rows[r] == s.rows[r])
    && (forall r :: IsAdminRow(t, r) ==> IsAdminRow(s, r))
  }

  lemma {:induction false} StaysValid(s: State, call: Call)
    requires Sound(s) && Possible(s, call) && Valid(s)
    ensures Valid(Next(s, call))
  {
  }

  /**
   A call that is about to give an ordinary session a stale object: it lowers an administrator in memory, promotes
   one beside a copy, or logs a server administrator's session on as somebody else.
   */
  ghost predicate Exposes(s: State, call: Call)
    requires Sound(s)
  {
    match call
    case Logon(x, level) =>
      && IsAdminSession(s, x) && !Session(level).IsServerAdmin()
      && exists o :: IsHeldBy(s, x, o) && IsStale(s, o)
    case SetLevel(h, requested) =>
      && h < |s.handles| && IsAdminRow(s, AccountOf(s, h).id) && IsOpen(s, s.handles[h].subject)
      && SessionOf(s, h).IsServerAdmin() && (requested == NORMAL || requested == DOMAIN_ADMIN)
    case SaveHandle(h, db) =>
      h < |s.handles| && Promotes(s, h, db) && exists o :: IsCopy(s, o, AccountOf(s, h).id)
    case _ => false
  }

  /** An object of this row, open to ordinary sessions, that is no server administrator in memory. */
  ghost predicate IsCopy(s: State, o: nat, r: nat)
    requires Sound(s)
  {
    IsOpen(s, o) && o < |s.objects| && s.objects[o].id == r && s.objects[o].level != SERVER_ADMIN
  }

  // ---------- who holds what ----------

  /** What a collection has after a call it had before it, or the call has made it there. */
  lemma {:induction false} UnderBefore(s: State, call: Call, c: int, o: nat)
    requires Sound(s) && Possible(s, call) && IsUnder(Next(s, call), c, o)
    ensures if o < |s.objects| then IsUnder(s, c, o) else (call.Refresh? || call.Add?) && c == call.parent
  {
    var t := Next(s, call);
    if h :| 0 <= h < |t.handles| && t.handles[h].subject == o && t.handles[h].parent == c {
      HandleBefore(s, call, h);
    } else {
      var i :| IsSlot(t, c, i) && t.collections[c][i] == o;
      SlotBefore(s, call, c, i);
    }
  }

  lemma {:induction false} HandleBefore(s: State, call: Call, h: nat)
    requires Sound(s) && Possible(s, call) && h < |Next(s, call).handles|
    ensures var hd := Next(s, call).handles[h];
            if hd.subject < |s.objects| then IsUnder(s, hd.parent, hd.subject)
            else call.Add? && hd.parent == call.parent
  {
    var hd := Next(s, call).handles[h];
    if h < |s.handles| {
      assert s.handles[h].subject == hd.subject && s.handles[h].parent == hd.parent;
      assert IsHandled(s, hd.parent, hd.subject);
    } else if call.GetItem? {
      assert IsSlot(s, call.parent, call.index);
    }
  }

  lemma {:induction false} SlotBefore(s: State, call: Call, c: int, i: int)
    requires Sound(s) && Possible(s, call) && IsSlot(Next(s, call), c, i)
    ensures var o := Next(s, call).collections[c][i];
            if o < |s.objects| then IsUnder(s, c, o) else call.Refresh? && c == call.parent
  {
    var o := Next(s, call).collections[c][i];
    if IsSlot(s, c, i) && s.collections[c][i] == o {
    } else if call.SaveHandle? {
      assert s.handles[call.handle].subject == o && s.handles[call.handle].parent == c;
      assert IsHandled(s, c, o);
    }
  }

  /** All calls but a refresh keep what a collection has. */
  lemma {:induction false} UnderAfter(s: State, call: Call, c: int, o: nat)
    requires Sound(s) && Possible(s, call) && !call.Refresh? && IsUnder(s, c, o)
    ensures IsUnder(Next(s, call), c, o)
  {
    var t := Next(s, call);
    if h :| 0 <= h < |s.handles| && s.handles[h].subject == o && s.handles[h].parent == c {
      assert t.handles[h].subject == o && t.handles[h].parent == c;
      assert IsHandled(t, c, o);
    } else {
      var i :| IsSlot(s, c, i) && s.collections[c][i] == o;
      assert IsSlot(t, c, i) && t.collections[c][i] == o;
    }
  }

  lemma {:induction false} HeldBefore(s: State, call: Call, x: nat, o: nat)
    requires Sound(s) && Possible(s, call) && Sound(Next(s, call)) && IsHeldBy(Next(s, call), x, o)
    ensures o < |s.objects| ==> IsHeldBy(s, x, o)
  {
    var c :| IsUnder(Next(s, call), c, o) && Next(s, call).owners[c] == x;
    UnderBefore(s, call, c, o);
  }

  lemma {:induction false} HeldAfter(s: State, call: Call, x: nat, o: nat)
    requires Sound(s) && Possible(s, call) && Sound(Next(s, call)) && !call.Refresh? && IsHeldBy(s, x, o)
    ensures IsHeldBy(Next(s, call), x, o)
  {
    var c :| IsUnder(s, c, o) && s.owners[c] == x;
    UnderAfter(s, call, c, o);
  }

  lemma {:induction false} OpenBefore(s: State, call: Call, o: nat)
    requires Sound(s) && Possible(s, call) && Sound(Next(s, call)) && !call.Logon? && IsOpen(Next(s, call), o)
    ensures o < |s.objects| ==> IsOpen(s, o)
  {
    var t := Next(s, call);
    var x: nat :| x < |t.sessions| && !IsAdminSession(t, x) && IsHeldBy(t, x, o);
    HeldBefore(s, call, x, o);
    if o < |s.objects| {
      HolderExists(s, x, o);
      assert x < |s.sessions| && !IsAdminSession(s, x);
    }
  }

  lemma {:induction false} HolderExists(s: State, x: nat, o: nat)
    requires Sound(s) && IsHeldBy(s, x, o)
    ensures x < |s.sessions|
  {
  }

  lemma {:induction false} OpenAfter(s: State, call: Call, o: nat)
    requires Sound(s) && Possible(s, call) && Sound(Next(s, call)) && !call.Logon? && !call.Refresh? && IsOpen(s, o)
    ensures IsOpen(Next(s, call), o)
  {
    var x: nat :| x < |s.sessions| && !IsAdminSession(s, x) && IsHeldBy(s, x, o);
    HeldAfter(s, call, x, o);
    assert x < |Next(s, call).sessions| && !IsAdminSession(Next(s, call), x);
  }

  lemma {:induction false} HandleHolds(s: State, h: nat)
    requires Sound(s) && h < |s.handles|
    ensures IsHeldBy(s, s.owners[s.handles[h].parent], s.handles[h].subject)
    ensures !SessionOf(s, h).IsServerAdmin() ==> IsOpen(s, s.handles[h].subject)
  {
    var x := s.owners[s.handles[h].parent];
    assert IsHandled(s, s.handles[h].parent, s.handles[h].subject);
    assert IsUnder(s, s.handles[h].parent, s.handles[h].subject);
    assert IsHeldBy(s, x, s.handles[h].subject);
    assert x < |s.sessions| && (IsAdminSession(s, x) <==> SessionOf(s, h).IsServerAdmin());
  }

  // ---------- when stale objects come about ----------

  /** From a state in which no stale object is open, a call opens one exactly when it exposes it. */
  lemma {:induction false} StaleIffExposed(s: State, call: Call)
    requires Sound(s) && Possible(s, call) && NoneStale(s)
    ensures Sound(Next(s, call))
    ensures NoneStale(Next(s, call)) <==> !Exposes(s, call)
  {
    var t := Next(s, call);
    StaysSound(s, call);
    match call
    case Logon(x, level) =>
      LogonStale(s, x, level);
    case SetLevel(h, requested) =>
      if h < |s.handles| {
        LevelStale(s, h, requested);
      }
    case SaveHandle(h, db) =>
      if h < |s.handles| {
        SaveStale(s, h, db);
      }
    case _ =>
      forall o: nat | IsOpen(t, o)
        ensures !IsStale(t, o)
      {
        OpenBefore(s, call, o);
        OtherStale(s, call, o);
      }
  }

  lemma {:induction false} OtherStale(s: State, call: Call, o: nat)
    requires Sound(s) && Possible(s, call) && !call.SetLevel? && !call.SaveHandle?
    requires o < |s.objects| ==> !IsStale(s, o)
    ensures !IsStale(Next(s, call), o)
  {
  }

  lemma {:induction false} LogonStale(s: State, x: nat, level: Option<int>)
    requires Sound(s) && NoneStale(s) && Sound(Next(s, Logon(x, level)))
    ensures NoneStale(Next(s, Logon(x, level))) <==> !Exposes(s, Logon(x, level))
  {
    var call := Logon(x, level);
    var t := Next(s, call);
    assert forall o :: IsStale(t, o) <==> IsStale(s, o);
    if Exposes(s, call) {
      var o :| IsHeldBy(s, x, o) && IsStale(s, o);
      HeldAfter(s, call, x, o);
      assert IsOpen(t, o);
    } else {
      forall o: nat | IsOpen(t, o)
        ensures !IsStale(t, o)
      {
        var y: nat :| y < |t.sessions| && !IsAdminSession(t, y) && IsHeldBy(t, y, o);
        HeldBefore(s, call, y, o);
        assert o < |s.objects| && !IsAdminSession(s, y) ==> IsOpen(s, o);
      }
    }
  }

  lemma {:induction false} LevelStale(s: State, h: nat, requested: int)
    requires Sound(s) && NoneStale(s) && h < |s.handles| && Sound(Next(s, SetLevel(h, requested)))
    ensures NoneStale(Next(s, SetLevel(h, requested))) <==> !Exposes(s, SetLevel(h, requested))
  {
    var call := SetLevel(h, requested);
    var t, o := Next(s, call), s.handles[h].subject;
    HandleHolds(s, h);
    if Exposes(s, call) {
      OpenAfter(s, call, o);
      assert IsStale(t, o);
    } else {
      forall p: nat | IsOpen(t, p)
        ensures !IsStale(t, p)
      {
        OpenBefore(s, call, p);
      }
    }
  }

  lemma {:induction false} SaveStale(s: State, h: nat, db: Database)
    requires Sound(s) && NoneStale(s) && h < |s.handles| && Sound(Next(s, SaveHandle(h, db)))
    ensures NoneStale(Next(s, SaveHandle(h, db))) <==> !Exposes(s, SaveHandle(h, db))
  {
    var call := SaveHandle(h, db);
    HandleHolds(s, h);
    if Exposes(s, call) {
      var p :| IsCopy(s, p, AccountOf(s, h).id);
      OpenAfter(s, call, p);
      SavedBeside(s, h, db, p);
    } else {
      forall p: nat | IsOpen(Next(s, call), p)
        ensures !IsStale(Next(s, call), p)
      {
        OpenBefore(s, call, p);
        if p < |s.objects| {
          assert !(Promotes(s, h, db) && IsCopy(s, p, AccountOf(s, h).id));
          SavedBeside(s, h, db, p);
        }
      }
    }
  }

  /** A server administrator stores a server administrator over an existing row. */
  predicate Promotes(s: State, h: nat, db: Database)
    requires Sound(s) && h < |s.handles|
  {
    && AccountOf(s, h).level == SERVER_ADMIN && SessionOf(s, h).IsServerAdmin()
    && db.Stored? && AccountOf(s, h).id in s.rows
  }

  /** An object that is not stale becomes so by a save exactly when it is a copy of the row that is promoted. */
  lemma {:induction false} SavedBeside(s: State, h: nat, db: Database, p: nat)
    requires Sound(s) && h < |s.handles| && p < |s.objects| && !IsStale(s, p)
    ensures IsStale(Next(s, SaveHandle(h, db)), p)
            <==> Promotes(s, h, db) && s.objects[p].id == AccountOf(s, h).id && s.objects[p].level != SERVER_ADMIN
  {
  }

  // ---------- what ordinary sessions can do ----------

  /** Without open stale objects, no call of an ordinary session touches a server administrator's row or makes one. */
  lemma {:induction false} OrdinaryKeeps(s: State, call: Call)
    requires Sound(s) && Possible(s, call) && NoneStale(s) && Ordinary(s, call)
    ensures KeepsAdmins(s, Next(s, call)) && !Exposes(s, call)
  {
    if call.SaveHandle? && call.handle < |s.handles| {
      HandleHolds(s, call.handle);
    }
    HarmlessUnlessStale(s, call);
  }

  /** No call of the run is made by a session that is server administrator at that moment. */
  ghost predicate IsOrdinaryRun(run: seq<State>, calls: seq<Call>) {
    IsRun(run, calls) && forall i :: 0 <= i < |calls| ==> Sound(run[i]) && Ordinary(run[i], calls[i])
  }

  /**
   Over every run of calls by sessions that are not server administrators when they call, from open objects that
   agree with the store, every row stored as server administrator keeps its level and its password, no row becomes
   one, and levels stay levels.
   */
  lemma {:induction false} OrdinaryRunKeeps(run: seq<State>, calls: seq<Call>, n: nat)
    requires IsOrdinaryRun(run, calls) && n <= |calls| && NoneStale(run[0])
    ensures Sound(run[n]) && KeepsAdmins(run[0], run[n]) && NoneStale(run[n])
    ensures Valid(run[0]) ==> Valid(run[n])
  {
    if n > 0 {
      OrdinaryRunKeeps(run, calls, n - 1);
      assert Follows(run[n - 1], calls[n - 1], run[n]);
      OrdinaryKeeps(run[n - 1], calls[n - 1]);
      StaleIffExposed(run[n - 1], calls[n - 1]);
      if Valid(run[0]) {
        StaysValid(run[n - 1], calls[n - 1]);
      }
    }
  }

  /** The same with server administrators at work, as long as none of their calls exposes an account. */
  lemma {:induction false} MixedRunKeeps(run: seq<State>, calls: seq<Call>, n: nat)
    requires IsRun(run, calls) && n < |calls| && NoneStale(run[0])
    requires forall i :: 0 <= i < |calls| ==> Sound(run[i]) && !Exposes(run[i], calls[i])
    ensures NoneStale(run[n])
    ensures Ordinary(run[n], calls[n]) ==> KeepsAdmins(run[n], run[n + 1])
  {
    if n > 0 {
      MixedRunKeeps(run, calls, n - 1);
      assert Follows(run[n - 1], calls[n - 1], run[n]);
      StaleIffExposed(run[n - 1], calls[n - 1]);
    }
    assert Follows(run[n], calls[n], run[n + 1]);
    if Ordinary(run[n], calls[n]) {
      OrdinaryKeeps(run[n], calls[n]);
    }
  }

  /** Some run of ordinary calls takes a server administrator's row away, or makes one. */
  ghost predicate CanBeHarmed(s: State) {
    exists run, calls :: Harms(s, run, calls)
  }

  ghost predicate Harms(s: State, run: seq<State>, calls: seq<Call>) {
    IsOrdinaryRun(run, calls) && run[0] == s && !KeepsAdmins(s, run[|calls|])
  }

  lemma {:induction false} StaleHandleHarms(s: State, h: nat)
    requires Sound(s) && h < |s.handles| && IsStale(s, s.handles[h].subject)
    ensures !KeepsAdmins(s, Next(s, SaveHandle(h, Stored)))
  {
    var r := AccountOf(s, h).id;
    assert IsAdminRow(s, r) && Next(s, SaveHandle(h, Stored)).rows[r] != s.rows[r];
  }

  lemma {:induction false} StaleSlotHarms(s: State, c: nat, i: nat)
    requires Sound(s) && IsSlot(s, c, i) && IsStale(s, s.collections[c][i])
    ensures Sound(Next(s, GetItem(c, i)))
    ensures !KeepsAdmins(s, Next(Next(s, GetItem(c, i)), SaveHandle(|s.handles|, Stored)))
  {
    StaysSound(s, GetItem(c, i));
    StaleHandleHarms(Next(s, GetItem(c, i)), |s.handles|);
  }

  /** One call through a handle. */
  lemma {:induction false} HarmedByHandle(s: State, h: nat)
    requires Sound(s) && h < |s.handles| && IsStale(s, s.handles[h].subject) && !SessionOf(s, h).IsServerAdmin()
    ensures CanBeHarmed(s)
  {
    var call := SaveHandle(h, Stored);
    StaleHandleHarms(s, h);
    assert Follows(s, call, Next(s, call));
    assert Harms(s, [s, Next(s, call)], [call]);
  }

  /** Two calls through a collection. */
  lemma {:induction false} HarmedBySlot(s: State, c: nat, i: nat)
    requires Sound(s) && IsSlot(s, c, i) && IsStale(s, s.collections[c][i]) && !OwnerOf(s, c).IsServerAdmin()
    ensures CanBeHarmed(s)
  {
    var get, save := GetItem(c, i), SaveHandle(|s.handles|, Stored);
    StaleSlotHarms(s, c, i);
    var mid := Next(s, get);
    assert Ordinary(s, get) && Ordinary(mid, save);
    TwoCalls(s, get, save);
    assert Harms(s, [s, mid, Next(mid, save)], [get, save]);
  }

  lemma {:induction false} TwoCalls(s: State, first: Call, second: Call)
    requires Sound(s) && Possible(s, first) && Sound(Next(s, first)) && Possible(Next(s, first), second)
    requires Ordinary(s, first) && Ordinary(Next(s, first), second)
    ensures IsOrdinaryRun([s, Next(s, first), Next(Next(s, first), second)], [first, second])
  {
    var mid := Next(s, first);
    assert Follows(s, first, mid) && Follows(mid, second, Next(mid, second));
  }

  lemma {:induction false} StaleOpenHarms(s: State, o: nat)
    requires Sound(s) && IsOpen(s, o) && IsStale(s, o)
    ensures CanBeHarmed(s)
  {
    var x: nat :| x < |s.sessions| && !IsAdminSession(s, x) && IsHeldBy(s, x, o);
    var c :| IsUnder(s, c, o) && s.owners[c] == x;
    if h :| 0 <= h < |s.handles| && s.handles[h].subject == o && s.handles[h].parent == c {
      HarmedByHandle(s, h);
    } else {
      var i :| IsSlot(s, c, i) && s.collections[c][i] == o;
      HarmedBySlot(s, c, i);
    }
  }

  /**
   Sessions that are not server administrators can harm the row of one exactly when one of them has a stale object,
   under a handle or in a collection.
   */
  lemma {:induction false} HarmIffStaleHeld(s: State)
    requires Sound(s)
    ensures CanBeHarmed(s) <==> exists o :: IsOpen(s, o) && IsStale(s, o)
  {
    if run, calls :| Harms(s, run, calls) {
      if NoneStale(s) {
        OrdinaryRunKeeps(run, calls, |calls|);
      }
    }
    if o :| IsOpen(s, o) && IsStale(s, o) {
      StaleOpenHarms(s, o);
    }
  }

  /** It takes a single call exactly when one of them has a stale handle. */
  lemma {:induction false} HarmIffStaleHandle(s: State)
    requires Sound(s)
    ensures (exists call :: CanHarm(s, call)) <==> exists h :: IsStaleHandle(s, h)
  {
    if h :| IsStaleHandle(s, h) {
      StaleHandleHarms(s, h);
      assert CanHarm(s, SaveHandle(h, Stored));
    }
    if call :| CanHarm(s, call) {
      if !SavesStale(s, call) {
        HarmlessUnlessStale(s, call);
      }
      assert IsStaleHandle(s, call.handle);
    }
  }

  /** A handle on a stale object, of a session that is not server administrator. */
  predicate IsStaleHandle(s: State, h: nat)
    requires Sound(s)
  {
    h < |s.handles| && IsStale(s, s.handles[h].subject) && !SessionOf(s, h).IsServerAdmin()
  }

  predicate SavesStale(s: State, call: Call)
    requires Sound(s)
  {
    call.SaveHandle? && call.handle < |s.handles| && IsStale(s, s.handles[call.handle].subject)
  }

  ghost predicate CanHarm(s: State, call: Call)
    requires Sound(s)
  {
    Possible(s, call) && Ordinary(s, call) && !KeepsAdmins(s, Next(s, call))
  }

  lemma {:induction false} HarmlessUnlessStale(s: State, call: Call)
    requires Sound(s) && Possible(s, call) && Ordinary(s, call) && !SavesStale(s, call)
    ensures KeepsAdmins(s, Next(s, call))
  {
    if call.SaveHandle? && call.handle < |s.handles| {
      HarmlessSave(s, call.handle, call.db);
    }
  }

  lemma {:induction false} HarmlessSave(s: State, h: nat, db: Database)
    requires Sound(s) && h < |s.handles| && !SessionOf(s, h).IsServerAdmin() && !IsStale(s, s.handles[h].subject)
    ensures KeepsAdmins(s, SaveStep(s, h, db))
  {
  }

  // ---------- how it comes about ----------

  /**
   A server administrator promotes an account while another session holds an older copy of the same row, whose
   Save then writes the old level and its own password back.
   */
  lemma {:induction false} PromotionUndone(s: State, older: nat, newer: nat)
    requires Sound(s) && older < |s.handles| && newer < |s.handles|
    requires s.handles[older].subject != s.handles[newer].subject
    requires AccountOf(s, older).id == AccountOf(s, newer).id && AccountOf(s, newer).id in s.rows
    requires AccountOf(s, older).level != SERVER_ADMIN
    requires SessionOf(s, newer).IsServerAdmin() && !SessionOf(s, older).IsServerAdmin()
    ensures var promoted := Next(s, SetLevel(newer, SERVER_ADMIN));
            && Sound(promoted)
            && var stored := Next(promoted, SaveHandle(newer, Stored));
            && Sound(stored) && Ordinary(stored, SaveHandle(older, Stored))
            && var undone := Next(stored, SaveHandle(older, Stored));
            && IsAdminRow(stored, AccountOf(s, newer).id)
            && undone.rows[AccountOf(s, newer).id] == Row(AccountOf(s, older).level, AccountOf(s, older).password)
  {
    var promoted := Next(s, SetLevel(newer, SERVER_ADMIN));
    StaysSound(s, SetLevel(newer, SERVER_ADMIN));
    StaysSound(promoted, SaveHandle(newer, Stored));
  }

  /** A server administrator lowers an account in memory; the session is then logged on as somebody else, who saves. */
  lemma {:induction false} LoweredThenSaved(s: State, h: nat, level: Option<int>)
    requires Sound(s) && h < |s.handles| && IsAdminRow(s, AccountOf(s, h).id)
    requires SessionOf(s, h).IsServerAdmin() && !Session(level).IsServerAdmin()
    ensures var lowered := Next(s, SetLevel(h, NORMAL));
            && Sound(lowered)
            && var changed := Next(lowered, Logon(s.owners[s.handles[h].parent], level));
            && Sound(changed) && Ordinary(changed, SaveHandle(h, Stored))
            && Next(changed, SaveHandle(h, Stored)).rows[AccountOf(s, h).id] == Row(NORMAL, AccountOf(s, h).password)
  {
    var lowered := Next(s, SetLevel(h, NORMAL));
    StaysSound(s, SetLevel(h, NORMAL));
    StaysSound(lowered, Logon(s.owners[s.handles[h].parent], level));
  }

  // ---------- sessions share no object ----------

  /** An object is under one collection at most, and so within one session. */
  ghost predicate Separate(s: State) {
    forall o, c, d :: IsUnder(s, c, o) && IsUnder(s, d, o) ==> c == d
  }

  lemma {:induction false} StaysSeparate(s: State, call: Call)
    requires Sound(s) && Possible(s, call) && Separate(s)
    ensures Separate(Next(s, call))
  {
    forall o: nat, c, d | IsUnder(Next(s, call), c, o) && IsUnder(Next(s, call), d, o)
      ensures c == d
    {
      UnderBefore(s, call, c, o);
      UnderBefore(s, call, d, o);
    }
  }

  /** Over every run, no object is in reach of two sessions. */
  lemma {:induction false} SessionsShareNothing(run: seq<State>, calls: seq<Call>, n: nat)
    requires IsRun(run, calls) && n <= |calls| && Separate(run[0])
    ensures Sound(run[n]) && Separate(run[n])
    ensures forall x, y, o :: IsHeldBy(run[n], x, o) && IsHeldBy(run[n], y, o) ==> x == y
  {
    if n > 0 {
      SessionsShareNothing(run, calls, n - 1);
      assert Follows(run[n - 1], calls[n - 1], run[n]);
      StaysSound(run[n - 1], calls[n - 1]);
      StaysSeparate(run[n - 1], calls[n - 1]);
    }
  }

  /** So what a server administrator does to an object in memory exposes nothing while the session stays what it is. */
  lemma {:induction false} MemoryNotExposed(s: State, h: nat, requested: int)
    requires Sound(s) && Separate(s)
    ensures !Exposes(s, SetLevel(h, requested))
  {
    if h < |s.handles| && IsOpen(s, s.handles[h].subject) {
      HandleHolds(s, h);
    }
  }
}
