/** What becomes of administration levels, over every run of calls. */
module AccountLevels {
  import opened Text
  import opened Rights
  import opened Accounts
  import opened AccountRuns

  /** The session is logged on as a domain or server administrator. */
  predicate Administers(s: State, x: int) {
    0 <= x < |s.sessions| && (s.sessions[x].level == Some(1) || s.sessions[x].level == Some(2))
  }

  /** The call is not made by a session that administers anything at that moment. */
  predicate Unprivileged(s: State, call: Call)
    requires Sound(s)
  {
    Acting(s, call).Some? ==> !Administers(s, Acting(s, call).value)
  }

  /** Such a call changes no level in memory, and what it makes is a copy of a row. */
  lemma {:induction false} LevelsKept(s: State, call: Call, o: nat)
    requires Sound(s) && Possible(s, call) && Unprivileged(s, call) && o < |Next(s, call).objects|
    ensures var a := Next(s, call).objects[o];
            if o < |s.objects| then
              && a.level == s.objects[o].level
              && (a.id == s.objects[o].id || (s.objects[o].id == 0 && a.id == s.nextId))
            else a.id in s.rows && a.level == s.rows[a.id].level
  {
  }

  /** A call by a session that is not server administrator makes no server administrator in memory, and unmakes none. */
  lemma {:induction false} ServerAdministratorsKept(s: State, call: Call, o: nat)
    requires Sound(s) && Possible(s, call) && Ordinary(s, call) && o < |Next(s, call).objects|
    ensures var a := Next(s, call).objects[o];
            if o < |s.objects| then a.level == 2 <==> s.objects[o].level == 2
            else a.level == 2 ==> a.id in s.rows && s.rows[a.id].level == 2
  {
  }

  /** A call that changes a row is a save, and stores the level and the password of its object as they are in memory. */
  lemma {:induction false} RowStored(s: State, call: Call, r: nat)
    requires Sound(s) && Possible(s, call) && r in Next(s, call).rows
    requires r !in s.rows || Next(s, call).rows[r] != s.rows[r]
    ensures call.SaveHandle? && call.handle < |s.handles|
    ensures Next(s, call).rows[r] == Row(AccountOf(s, call.handle).level, AccountOf(s, call.handle).password)
    ensures r == if AccountOf(s, call.handle).id == 0 then s.nextId else AccountOf(s, call.handle).id
  {
  }

  /** And rows do not disappear. */
  lemma {:induction false} RowsStay(s: State, call: Call, r: nat)
    requires Sound(s) && Possible(s, call) && r in s.rows
    ensures r in Next(s, call).rows
  {
  }

  /** A save that is allowed and that the database stores does store its object, under its row or a new one. */
  lemma {:induction false} SaveStores(s: State, h: nat)
    requires Sound(s) && h < |s.handles|
    requires AccountOf(s, h).id == 0 || AccountOf(s, h).id in s.rows
    requires SessionOf(s, h).level == Some(2) || AccountOf(s, h).level != 2
    ensures var t, a := Next(s, SaveHandle(h, Stored)), AccountOf(s, h);
            var r := if a.id == 0 then s.nextId else a.id;
            && t.rows == s.rows[r := Row(a.level, a.password)]
            && t.objects == s.objects[s.handles[h].subject := a.(id := r)]
  {
  }

  /** A save that the database rejects changes nothing, and neither does any other failure to update a row. */
  lemma {:induction false} RejectedChangesNothing(s: State, h: nat, db: Database)
    requires Sound(s) && h < |s.handles| && !db.Stored? && (db.Rejected? || AccountOf(s, h).id != 0)
    ensures Next(s, SaveHandle(h, db)) == s
  {
    assert s.objects[s.handles[h].subject := AccountOf(s, h)] == s.objects;
  }

  /** An insert that is rolled back is lost for good: the object keeps an identity without a row, and no save helps. */
  lemma {:induction false} RolledBackIsLost(s: State, h: nat, db: Database)
    requires Sound(s) && h < |s.handles| && AccountOf(s, h).id == 0 && s.nextId !in s.rows
    requires SessionOf(s, h).level == Some(2) || AccountOf(s, h).level != 2
    ensures var lost := Next(s, SaveHandle(h, RolledBack));
            && Sound(lost) && lost.rows == s.rows && lost != s
            && Next(lost, SaveHandle(h, db)) == lost
  {
    var lost := Next(s, SaveHandle(h, RolledBack));
    StaysSound(s, SaveHandle(h, RolledBack));
    assert lost.objects[lost.handles[h].subject := AccountOf(lost, h)] == lost.objects;
  }

  // ---------- runs ----------

  /** The level was that of the row at the start, or of an object then that had the row or none. */
  ghost predicate WasThere(s: State, r: nat, level: int) {
    || (r in s.rows && s.rows[r].level == level)
    || (exists o :: 0 <= o < |s.objects| && IsSource(s.objects[o], r, level))
  }

  predicate IsSource(a: Account, r: nat, level: int) {
    a.level == level && (a.id == r || a.id == 0)
  }

  /** Objects of the start keep their level, and every other level was there at the start. */
  ghost predicate LevelsFrom(s: State, t: State) {
    && |s.objects| <= |t.objects|
    && (forall o :: 0 <= o < |s.objects| ==> t.objects[o].level == s.objects[o].level)
    && (forall o :: 0 <= o < |s.objects| ==> t.objects[o].id == s.objects[o].id || s.objects[o].id == 0)
    && (forall o :: |s.objects| <= o < |t.objects| ==>
          t.objects[o].id > 0 && WasThere(s, t.objects[o].id, t.objects[o].level))
    && (forall r :: r in t.rows ==> WasThere(s, r, t.rows[r].level))
  }

  lemma {:induction false} StartsFromItself(s: State)
    ensures LevelsFrom(s, s)
  {
  }

  lemma {:induction false} StepObject(s: State, t: State, call: Call, o: nat)
    requires LevelsFrom(s, t) && Sound(t) && Possible(t, call) && Unprivileged(t, call) && o < |Next(t, call).objects|
    ensures var a := Next(t, call).objects[o];
            if o < |s.objects| then a.level == s.objects[o].level && (a.id == s.objects[o].id || s.objects[o].id == 0)
            else a.id > 0 && WasThere(s, a.id, a.level)
  {
    LevelsKept(t, call, o);
  }

  lemma {:induction false} StepRow(s: State, t: State, call: Call, r: nat)
    requires LevelsFrom(s, t) && Sound(t) && Possible(t, call) && r in Next(t, call).rows
    ensures WasThere(s, r, Next(t, call).rows[r].level)
  {
    if r !in t.rows || Next(t, call).rows[r] != t.rows[r] {
      RowStored(t, call, r);
      var o := t.handles[call.handle].subject;
      if o < |s.objects| {
        assert IsSource(s.objects[o], r, s.objects[o].level);
      }
    }
  }

  lemma {:induction false} StepKeepsLevels(s: State, t: State, call: Call)
    requires LevelsFrom(s, t) && Sound(t) && Possible(t, call) && Unprivileged(t, call)
    ensures LevelsFrom(s, Next(t, call))
  {
    var u := Next(t, call);
    assert |t.objects| <= |u.objects|;
    forall o: nat | o < |u.objects|
      ensures if o < |s.objects| then
                u.objects[o].level == s.objects[o].level
                && (u.objects[o].id == s.objects[o].id || s.objects[o].id == 0)
              else u.objects[o].id > 0 && WasThere(s, u.objects[o].id, u.objects[o].level)
    {
      StepObject(s, t, call, o);
    }
    forall r | r in u.rows
      ensures WasThere(s, r, u.rows[r].level)
    {
      StepRow(s, t, call, r);
    }
  }

  /**
   Over every run in which nobody calls while being a domain or server administrator, every object keeps the level it
   was made with, and no row gets a level that it did not have at the start, in the table or in memory.
   */
  lemma {:induction false} UnprivilegedRunKeepsLevels(run: seq<State>, calls: seq<Call>, n: nat)
    requires IsRun(run, calls) && n <= |calls|
    requires forall i :: 0 <= i < |calls| ==> Sound(run[i]) && Unprivileged(run[i], calls[i])
    ensures LevelsFrom(run[0], run[n])
  {
    if n == 0 {
      StartsFromItself(run[0]);
    } else {
      UnprivilegedRunKeepsLevels(run, calls, n - 1);
      assert Follows(run[n - 1], calls[n - 1], run[n]);
      StepKeepsLevels(run[0], run[n - 1], calls[n - 1]);
    }
  }

  /** Nobody promotes himself: from objects that agree with their rows, such a run changes no row's level. */
  lemma {:induction false} NobodyPromotesHimself(run: seq<State>, calls: seq<Call>, n: nat, r: nat)
    requires IsRun(run, calls) && n <= |calls|
    requires forall i :: 0 <= i < |calls| ==> Sound(run[i]) && Unprivileged(run[i], calls[i])
    requires forall o :: 0 <= o < |run[0].objects| ==>
               var a := run[0].objects[o]; a.id in run[0].rows && a.level == run[0].rows[a.id].level
    requires r in run[n].rows
    ensures r in run[0].rows && run[n].rows[r].level == run[0].rows[r].level
  {
    UnprivilegedRunKeepsLevels(run, calls, n);
  }

  // ---------- requests that are carried out ----------

  /** A domain administrator's request is carried out unless it is about a server administrator or makes one. */
  lemma {:induction false} AdministratorSetsLevel(s: State, h: nat, requested: int)
    requires Sound(s) && h < |s.handles| && 0 <= requested <= 2
    requires SessionOf(s, h).level == Some(2)
             || (SessionOf(s, h).level == Some(1) && AccountOf(s, h).level != 2 && requested != 2)
    ensures Next(s, SetLevel(h, requested)).objects[s.handles[h].subject].level == requested
    ensures PutLevel(SessionOf(s, h), AccountOf(s, h).level, requested).0 == Done
  {
  }

  /** What the reply says: done means that the level is the one asked for, and nothing else changes it. */
  lemma {:induction false} ReplyTells(session: Session, level: int, requested: int)
    ensures var (reply, after) := PutLevel(session, level, requested);
            && (if reply == Done then after == requested else after == level)
            && (reply == BadLevel <==>
                  !(0 <= requested <= 2) && (level != 2 || session.level == Some(2)))
            && (reply == Done || reply == BadLevel || reply == AccessDenied)
  {
  }
}
