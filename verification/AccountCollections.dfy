/** What collections of accounts show, over every run of calls: no object twice, and when no row twice. */
module AccountCollections {
  import opened Rights
  import opened Accounts
  import opened AccountRuns

  // ---------- membership of collections ----------

  /** No collection holds an object twice, no object is in two collections, and an object that a handle says is
      in no collection is in none and has no other handle. */
  ghost predicate Membership(s: State) {
    && (forall c, i, d, j :: IsSlot(s, c, i) && IsSlot(s, d, j) && s.collections[c][i] == s.collections[d][j] ==>
          c == d && i == j)
    && (forall h :: 0 <= h < |s.handles| && !s.handles[h].inCollection ==> Alone(s, h))
  }

  ghost predicate Alone(s: State, h: nat)
    requires h < |s.handles|
  {
    && (forall c, i :: IsSlot(s, c, i) ==> s.collections[c][i] != s.handles[h].subject)
    && (forall k :: 0 <= k < |s.handles| && k != h ==> s.handles[k].subject != s.handles[h].subject)
  }

  /** Every call keeps collections free of duplicates. */
  lemma {:induction false} StaysMember(s: State, call: Call)
    requires Sound(s) && Possible(s, call) && Membership(s)
    ensures Membership(Next(s, call))
  {
    match call
    case SaveHandle(h, db) =>
      if h < |s.handles| {
        SaveMember(s, h, db);
      }
    case Refresh(c, ids) =>
      if c < |s.collections| {
        RefreshMember(s, c, ids);
      }
    case Connect => SameMember(s, Next(s, call));
    case Logon(_, _) => SameMember(s, Next(s, call));
    case SetLevel(_, _) => SameMember(s, Next(s, call));
    case SetPassword(_, _, _) => SameMember(s, Next(s, call));
    case _ => GrownMember(s, call);
  }

  lemma {:induction false} SameMember(s: State, t: State)
    requires Membership(s) && t.handles == s.handles && t.collections == s.collections
    ensures Membership(t)
  {
    forall h | 0 <= h < |t.handles| && !t.handles[h].inCollection
      ensures Alone(t, h)
    {
      assert Alone(s, h);
    }
  }

  lemma {:induction false} GrownMember(s: State, call: Call)
    requires Sound(s) && Membership(s) && (call.Open? || call.Add? || call.GetItem?)
    ensures Membership(Next(s, call))
  {
    var t := Next(s, call);
    forall h | 0 <= h < |t.handles| && !t.handles[h].inCollection
      ensures Alone(t, h)
    {
      assert h < |s.handles| ==> Alone(s, h);
    }
  }

  lemma {:induction false} SaveMember(s: State, h: nat, db: Database)
    requires Sound(s) && Membership(s) && h < |s.handles|
    ensures Membership(SaveStep(s, h, db))
  {
    var t := SaveStep(s, h, db);
    if t.collections != s.collections {
      assert Alone(s, h);
    }
    forall k | 0 <= k < |t.handles| && !t.handles[k].inCollection
      ensures Alone(t, k)
    {
      assert Alone(s, k);
    }
  }

  lemma {:induction false} RefreshMember(s: State, c: nat, ids: seq<nat>)
    requires Sound(s) && Membership(s) && c < |s.collections| && Possible(s, Refresh(c, ids))
    ensures Membership(Next(s, Refresh(c, ids)))
  {
    var t := Next(s, Refresh(c, ids));
    assert forall d, i :: IsSlot(t, d, i) && d != c ==> IsSlot(s, d, i) && t.collections[d][i] == s.collections[d][i];
    forall k | 0 <= k < |t.handles| && !t.handles[k].inCollection
      ensures Alone(t, k)
    {
      assert Alone(s, k);
    }
  }

  /** Over every run, whatever the sessions and the database do, no collection holds an object twice. */
  lemma {:induction false} RunKeepsMembership(run: seq<State>, calls: seq<Call>, n: nat)
    requires IsRun(run, calls) && n <= |calls| && Membership(run[0])
    ensures Membership(run[n])
  {
    if n > 0 {
      RunKeepsMembership(run, calls, n - 1);
      assert Follows(run[n - 1], calls[n - 1], run[n]);
      StaysMember(run[n - 1], calls[n - 1]);
    }
  }

  // ---------- rows in collections ----------

  function ShownRow(s: State, c: int, i: int): nat
    requires Sound(s) && IsSlot(s, c, i)
  {
    s.objects[s.collections[c][i]].id
  }

  /** No collection shows a row twice. */
  ghost predicate SlotsOnce(s: State)
    requires Sound(s)
  {
    && (forall c, i, j :: IsSlot(s, c, i) && IsSlot(s, c, j) && i != j ==> ShownRow(s, c, i) != ShownRow(s, c, j))
    && (forall c, i :: IsSlot(s, c, i) ==> ShownRow(s, c, i) > 0)
  }

  /** An object that is in no collection yet has no row yet. */
  ghost predicate PendingHaveNoRow(s: State)
    requires Sound(s)
  {
    forall h :: 0 <= h < |s.handles| && !s.handles[h].inCollection ==> AccountOf(s, h).id !in s.rows
  }

  ghost predicate RowsOnce(s: State)
    requires Sound(s)
  {
    SlotsOnce(s) && PendingHaveNoRow(s)
  }

  /** No account is left in the table by a save that reported failure. */
  predicate Settled(call: Call) {
    call.SaveHandle? ==> !call.db.Orphaned?
  }

  /**
   The save puts a second object of one row into its collection: an object that is in no collection yet has a
   row, and its collection already shows that row.
   */
  ghost predicate ShowsTwice(s: State, call: Call)
    requires Sound(s)
  {
    && call.SaveHandle? && call.handle < |s.handles| && call.db.Stored?
    && !s.handles[call.handle].inCollection
    && (SessionOf(s, call.handle).IsServerAdmin() || AccountOf(s, call.handle).level != SERVER_ADMIN)
    && AccountOf(s, call.handle).id in s.rows
    && exists i :: Shows(s, s.handles[call.handle].parent, i, AccountOf(s, call.handle).id)
  }

  predicate Shows(s: State, c: int, i: int, r: nat)
    requires Sound(s)
  {
    IsSlot(s, c, i) && ShownRow(s, c, i) == r
  }

  lemma {:induction false} SaveKeepsSlots(s: State, h: nat, db: Database, c: int, i: int)
    requires Sound(s) && Membership(s) && SlotsOnce(s) && h < |s.handles| && IsSlot(s, c, i)
    ensures var t := SaveStep(s, h, db);
            Sound(t) && IsSlot(t, c, i) && t.collections[c][i] == s.collections[c][i]
            && ShownRow(t, c, i) == ShownRow(s, c, i)
  {
    SaveSound(s, h, db);
    assert !s.handles[h].inCollection ==> Alone(s, h);
  }

  /** A save leaves no row shown twice exactly when it does not show one twice itself. */
  lemma {:induction false} SaveSlots(s: State, h: nat, db: Database)
    requires Sound(s) && Membership(s) && SlotsOnce(s) && h < |s.handles|
    ensures Sound(SaveStep(s, h, db))
    ensures SlotsOnce(SaveStep(s, h, db)) <==> !ShowsTwice(s, SaveHandle(h, db))
  {
    var t, hd, a := SaveStep(s, h, db), s.handles[h], AccountOf(s, h);
    SaveSound(s, h, db);
    var last := |s.collections[hd.parent]|;
    if t.collections == s.collections {
      forall c, i | IsSlot(s, c, i)
        ensures ShownRow(t, c, i) == ShownRow(s, c, i)
      {
        SaveKeepsSlots(s, h, db, c, i);
      }
    } else {
      JoinsLast(s, h, db);
      forall c, i | IsSlot(s, c, i)
        ensures IsSlot(t, c, i) && ShownRow(t, c, i) == ShownRow(s, c, i)
      {
        SaveKeepsSlots(s, h, db, c, i);
      }
      SlotsPlusOne(s, t, hd.parent);
      assert ShownRow(t, hd.parent, last) == if a.id == 0 then s.nextId else a.id;
    }
  }

  /** A save that joins the collection adds one slot. */
  lemma {:induction false} JoinsLast(s: State, h: nat, db: Database)
    requires Sound(s) && h < |s.handles| && SaveStep(s, h, db).collections != s.collections
    ensures var t, c := SaveStep(s, h, db), s.handles[h].parent;
            && IsSlot(t, c, |s.collections[c]|)
            && forall d, i :: IsSlot(t, d, i) ==> IsSlot(s, d, i) || (d == c && i == |s.collections[c]|)
  {
  }

  /** With one slot more, and the others as they were, rows are shown once unless the new slot repeats one. */
  lemma {:induction false} SlotsPlusOne(s: State, t: State, c: nat)
    requires Sound(s) && Sound(t) && SlotsOnce(s) && c < |s.collections| && IsSlot(t, c, |s.collections[c]|)
    requires forall d, i :: IsSlot(s, d, i) ==> IsSlot(t, d, i) && ShownRow(t, d, i) == ShownRow(s, d, i)
    requires forall d, i :: IsSlot(t, d, i) ==> IsSlot(s, d, i) || (d == c && i == |s.collections[c]|)
    ensures SlotsOnce(t) <==>
            var r := ShownRow(t, c, |s.collections[c]|);
            r > 0 && forall i :: !Shows(s, c, i, r)
  {
    var last := |s.collections[c]|;
    if SlotsOnce(t) {
      forall i
        ensures !Shows(s, c, i, ShownRow(t, c, last))
      {
        assert IsSlot(s, c, i) ==> IsSlot(t, c, i) && i != last;
      }
    } else if ShownRow(t, c, last) > 0 {
      var d, i, j :| IsSlot(t, d, i) && IsSlot(t, d, j) && i != j && ShownRow(t, d, i) == ShownRow(t, d, j);
      assert !(IsSlot(s, d, i) && IsSlot(s, d, j));
      assert Shows(s, c, if i == last then j else i, ShownRow(t, c, last));
    }
  }

  lemma {:induction false} RefreshSlots(s: State, c: nat, ids: seq<nat>)
    requires Sound(s) && SlotsOnce(s) && c < |s.collections| && Possible(s, Refresh(c, ids))
    requires Sound(Next(s, Refresh(c, ids)))
    ensures SlotsOnce(Next(s, Refresh(c, ids)))
  {
    var t := Next(s, Refresh(c, ids));
    assert forall i :: IsSlot(t, c, i) ==> ShownRow(t, c, i) == ids[i];
    assert forall d, i :: IsSlot(t, d, i) && d != c ==> IsSlot(s, d, i) && ShownRow(t, d, i) == ShownRow(s, d, i);
  }

  lemma {:induction false} OtherSlots(s: State, call: Call)
    requires Sound(s) && Possible(s, call) && SlotsOnce(s) && !call.SaveHandle? && !call.Refresh?
    requires Sound(Next(s, call))
    ensures SlotsOnce(Next(s, call))
  {
    var t := Next(s, call);
    assert forall c, i :: IsSlot(t, c, i) ==> IsSlot(s, c, i) && ShownRow(t, c, i) == ShownRow(s, c, i);
  }

  /** Any call. */
  lemma {:induction false} RowsOnceIff(s: State, call: Call)
    requires Sound(s) && Possible(s, call) && Membership(s) && SlotsOnce(s)
    ensures Sound(Next(s, call))
    ensures SlotsOnce(Next(s, call)) <==> !ShowsTwice(s, call)
  {
    StaysSound(s, call);
    match call
    case SaveHandle(h, db) =>
      if h < |s.handles| {
        SaveSlots(s, h, db);
      }
    case Refresh(c, ids) =>
      if c < |s.collections| {
        RefreshSlots(s, c, ids);
      }
    case _ =>
      OtherSlots(s, call);
  }

  /** Over every run, no collection ever shows a row twice exactly when no save does that. */
  lemma {:induction false} RunShowsRowsOnceIff(run: seq<State>, calls: seq<Call>, n: nat)
    requires IsRun(run, calls) && n <= |calls| && Membership(run[0]) && SlotsOnce(run[0])
    ensures forall i :: 0 <= i < |run| ==> Sound(run[i])
    ensures (forall i :: 0 <= i <= n ==> SlotsOnce(run[i]))
            <==> (forall i :: 0 <= i < n ==> !ShowsTwice(run[i], calls[i]))
  {
    RunSound(run, calls);
    if n > 0 {
      RunShowsRowsOnceIff(run, calls, n - 1);
      if SlotsOnce(run[n - 1]) {
        RowsOnceAt(run, calls, n - 1);
      }
    }
  }

  lemma {:induction false} RowsOnceAt(run: seq<State>, calls: seq<Call>, n: nat)
    requires IsRun(run, calls) && n < |calls| && Membership(run[0]) && Sound(run[n]) && SlotsOnce(run[n])
    ensures Sound(run[n + 1]) && (SlotsOnce(run[n + 1]) <==> !ShowsTwice(run[n], calls[n]))
  {
    RunKeepsMembership(run, calls, n);
    assert Follows(run[n], calls[n], run[n + 1]);
    RowsOnceIff(run[n], calls[n]);
  }

  // ---------- a way to be sure ----------

  lemma {:induction false} SavePending(s: State, h: nat, db: Database)
    requires Sound(s) && Membership(s) && PendingHaveNoRow(s) && h < |s.handles| && !db.Orphaned?
    requires Sound(SaveStep(s, h, db))
    ensures PendingHaveNoRow(SaveStep(s, h, db))
  {
    var t := SaveStep(s, h, db);
    forall k | 0 <= k < |t.handles| && !t.handles[k].inCollection
      ensures AccountOf(t, k).id !in t.rows
    {
      assert Alone(s, k);
      assert AccountOf(s, k).id !in s.rows;
    }
  }

  lemma {:induction false} StaysPending(s: State, call: Call)
    requires Sound(s) && Possible(s, call) && Membership(s) && PendingHaveNoRow(s) && Settled(call)
    ensures Sound(Next(s, call)) && PendingHaveNoRow(Next(s, call))
    ensures !ShowsTwice(s, call)
  {
    StaysSound(s, call);
    var t := Next(s, call);
    if call.SaveHandle? {
      if call.handle < |s.handles| {
        SavePending(s, call.handle, call.db);
      }
    } else {
      assert forall h :: 0 <= h < |s.handles| ==> AccountOf(t, h).id == AccountOf(s, h).id;
    }
  }

  lemma {:induction false} SettledAt(run: seq<State>, calls: seq<Call>, n: nat)
    requires IsRun(run, calls) && n < |calls| && Membership(run[0]) && Settled(calls[n])
    requires Sound(run[n]) && RowsOnce(run[n])
    ensures Sound(run[n + 1]) && RowsOnce(run[n + 1])
  {
    RunKeepsMembership(run, calls, n);
    assert Follows(run[n], calls[n], run[n + 1]);
    StaysPending(run[n], calls[n]);
    RowsOnceAt(run, calls, n);
  }

  /** Over every run in which no failed save leaves a row behind, no collection shows a row twice. */
  lemma {:induction false} RunShowsRowsOnce(run: seq<State>, calls: seq<Call>, n: nat)
    requires IsRun(run, calls) && n <= |calls| && Membership(run[0]) && RowsOnce(run[0])
    requires forall i :: 0 <= i < |calls| ==> Settled(calls[i])
    ensures Sound(run[n]) && RowsOnce(run[n])
  {
    if n > 0 {
      RunShowsRowsOnce(run, calls, n - 1);
      SettledAt(run, calls, n - 1);
    }
  }

  /**
   Rows can be shown twice. If a first save inserts the row but fails, a refresh lists the row, and a second
   save of the same handle succeeds, then the collection shows the row twice, in two different objects.
   */
  lemma {:induction false} OrphanShownTwice(s: State, h: nat)
    requires Sound(s) && h < |s.handles| && !s.handles[h].inCollection
    requires AccountOf(s, h).id == 0 && AccountOf(s, h).level != SERVER_ADMIN
    ensures var c := s.handles[h].parent;
            var orphaned := Next(s, SaveHandle(h, Orphaned));
            && Sound(orphaned) && Possible(orphaned, Refresh(c, [s.nextId]))
            && var listed := Next(orphaned, Refresh(c, [s.nextId]));
            && Sound(listed)
            && var again := Next(listed, SaveHandle(h, Stored));
            && Sound(again) && |again.collections[c]| == 2
            && again.objects[again.collections[c][0]].id == again.objects[again.collections[c][1]].id
            && again.collections[c][0] != again.collections[c][1]
  {
    var c := s.handles[h].parent;
    var orphaned := Next(s, SaveHandle(h, Orphaned));
    StaysSound(s, SaveHandle(h, Orphaned));
    var listed := Next(orphaned, Refresh(c, [s.nextId]));
    StaysSound(orphaned, Refresh(c, [s.nextId]));
    StaysSound(listed, SaveHandle(h, Stored));
  }
}
