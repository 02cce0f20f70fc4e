/** Whose password the row of a server administrator can hold, over every run of calls. */
module AccountPasswords {
  import opened Text
  import opened Rights
  import opened Accounts
  import opened AccountRuns

  /** A server administrator saves this object, which is one in memory, to this row. */
  ghost predicate StoresAdmin(s: State, call: Call, r: nat, o: nat) {
    && Sound(s) && call.SaveHandle? && call.handle < |s.handles| && SessionOf(s, call.handle).IsServerAdmin()
    && s.handles[call.handle].subject == o && s.objects[o].level == SERVER_ADMIN
    && r == if s.objects[o].id == 0 then s.nextId else s.objects[o].id
  }

  /** The call chooses the password of the object; whoever the session is logged on as. */
  predicate Chooses(s: State, call: Call, o: nat) {
    call.SetPassword? && call.accepted && call.handle < |s.handles| && s.handles[call.handle].subject == o
  }

  lemma {:induction false} RowOrigin(s: State, call: Call, r: nat)
    requires Sound(s) && Possible(s, call) && IsAdminRow(Next(s, call), r)
    ensures (IsAdminRow(s, r) && Next(s, call).rows[r] == s.rows[r])
            || exists o: nat :: StoresAdmin(s, call, r, o) && Next(s, call).rows[r].password == s.objects[o].password
  {
    if call.SaveHandle? && call.handle < |s.handles| {
      var o := s.handles[call.handle].subject;
      assert StoresAdmin(s, call, r, o) || (IsAdminRow(s, r) && Next(s, call).rows[r] == s.rows[r]);
    }
  }

  /** A row of a server administrator is as it was at the start, or a server administrator saved it. */
  lemma {:induction false} AdminRowOrigin(run: seq<State>, calls: seq<Call>, n: nat, r: nat)
    requires IsRun(run, calls) && n <= |calls| && IsAdminRow(run[n], r)
    ensures (IsAdminRow(run[0], r) && run[n].rows[r] == run[0].rows[r])
            || exists i: nat, o: nat :: i < n && StoresAdmin(run[i], calls[i], r, o)
                              && run[n].rows[r].password == run[i].objects[o].password
  {
    if n > 0 {
      var s, call := run[n - 1], calls[n - 1];
      assert Follows(s, call, run[n]);
      RowOrigin(s, call, r);
      if IsAdminRow(s, r) && run[n].rows[r] == s.rows[r] {
        AdminRowOrigin(run, calls, n - 1, r);
      }
    }
  }

  /** None of the calls from `j` up to `n` chooses the password of the object. */
  ghost predicate NoneChooses(run: seq<State>, calls: seq<Call>, j: int, n: nat, o: nat)
    requires |run| == |calls| + 1 && 0 <= j <= n <= |calls|
  {
    forall k :: j <= k < n ==> !Chooses(run[k], calls[k], o)
  }

  /** Call `j` chose the password of the object, and none of the calls up to `n` has chosen another. */
  ghost predicate ChosenAt(run: seq<State>, calls: seq<Call>, j: int, n: nat, o: nat)
    requires |run| == |calls| + 1 && n <= |calls|
  {
    0 <= j < n && Chooses(run[j], calls[j], o) && NoneChooses(run, calls, j + 1, n, o)
  }

  /** The object was new in state `j`, or there at the start, and no call up to `n` has chosen its password. */
  ghost predicate MadeAt(run: seq<State>, calls: seq<Call>, j: int, n: nat, o: nat)
    requires |run| == |calls| + 1 && n <= |calls|
  {
    && 0 <= j <= n && o < |run[j].objects| && (j > 0 ==> |run[j - 1].objects| <= o)
    && NoneChooses(run, calls, j, n, o)
  }

  /** What the object holds in memory: the latest choice of any session, or what it was made with. */
  ghost predicate HasOrigin(run: seq<State>, calls: seq<Call>, n: nat, o: nat, password: string)
    requires |run| == |calls| + 1 && n <= |calls|
  {
    || (exists j :: ChosenAt(run, calls, j, n, o) && password == calls[j].hash)
    || (exists j :: MadeAt(run, calls, j, n, o) && password == run[j].objects[o].password)
  }

  lemma {:induction false} NotChosen(s: State, call: Call, o: nat)
    requires Sound(s) && Possible(s, call) && o < |s.objects| && !Chooses(s, call, o)
    ensures o < |Next(s, call).objects| && Next(s, call).objects[o].password == s.objects[o].password
  {
  }

  lemma {:induction false} ChosenNow(s: State, call: Call, o: nat)
    requires Sound(s) && Possible(s, call) && Chooses(s, call, o)
    ensures o < |Next(s, call).objects| && Next(s, call).objects[o].password == call.hash
  {
  }

  lemma {:induction false} OriginLater(run: seq<State>, calls: seq<Call>, n: nat, o: nat, password: string)
    requires |run| == |calls| + 1 && n < |calls| && !Chooses(run[n], calls[n], o)
    requires HasOrigin(run, calls, n, o, password)
    ensures HasOrigin(run, calls, n + 1, o, password)
  {
    if j :| ChosenAt(run, calls, j, n, o) && password == calls[j].hash {
      assert ChosenAt(run, calls, j, n + 1, o);
    } else {
      var j :| MadeAt(run, calls, j, n, o) && password == run[j].objects[o].password;
      assert MadeAt(run, calls, j, n + 1, o);
    }
  }

  lemma {:induction false} OriginStep(run: seq<State>, calls: seq<Call>, n: nat, o: nat)
    requires IsRun(run, calls) && n < |calls| && o < |run[n].objects|
    requires HasOrigin(run, calls, n, o, run[n].objects[o].password)
    ensures o < |run[n + 1].objects| && HasOrigin(run, calls, n + 1, o, run[n + 1].objects[o].password)
  {
    assert Follows(run[n], calls[n], run[n + 1]);
    if Chooses(run[n], calls[n], o) {
      ChosenNow(run[n], calls[n], o);
      assert ChosenAt(run, calls, n, n + 1, o);
    } else {
      NotChosen(run[n], calls[n], o);
      OriginLater(run, calls, n, o, run[n].objects[o].password);
    }
  }

  lemma {:induction false} PasswordOrigin(run: seq<State>, calls: seq<Call>, n: nat, o: nat)
    requires IsRun(run, calls) && n <= |calls| && o < |run[n].objects|
    ensures HasOrigin(run, calls, n, o, run[n].objects[o].password)
  {
    if n == 0 || |run[n - 1].objects| <= o {
      assert MadeAt(run, calls, n, n, o);
    } else {
      PasswordOrigin(run, calls, n - 1, o);
      OriginStep(run, calls, n - 1, o);
    }
  }

  // ---------- and by which session ----------

  lemma {:induction false} HandleStays(s: State, call: Call, h: nat)
    requires Sound(s) && Possible(s, call) && Sound(Next(s, call)) && h < |s.handles|
    ensures var t := Next(s, call);
            && h < |t.handles| && t.handles[h].subject == s.handles[h].subject
            && t.handles[h].parent == s.handles[h].parent
            && t.owners[t.handles[h].parent] == s.owners[s.handles[h].parent]
  {
  }

  /** A handle stays what it is: its object, its collection and its session. */
  lemma {:induction false} HandleKept(run: seq<State>, calls: seq<Call>, j: nat, n: nat, h: nat)
    requires IsRun(run, calls) && j <= n <= |calls| && h < |run[j].handles|
    ensures Sound(run[j]) && Sound(run[n]) && h < |run[n].handles|
    ensures run[n].handles[h].subject == run[j].handles[h].subject
    ensures run[n].handles[h].parent == run[j].handles[h].parent
    ensures run[n].owners[run[n].handles[h].parent] == run[j].owners[run[j].handles[h].parent]
  {
    RunSound(run, calls);
    if j < n {
      HandleKept(run, calls, j, n - 1, h);
      assert Follows(run[n - 1], calls[n - 1], run[n]);
      HandleStays(run[n - 1], calls[n - 1], h);
    }
  }

  /** The same session chose it, and no later call chose another; or it is what the object was made with. */
  ghost predicate HasOwnOrigin(run: seq<State>, calls: seq<Call>, n: nat, o: nat, password: string, x: nat)
    requires |run| == |calls| + 1 && n <= |calls|
  {
    || (exists j :: ChosenAt(run, calls, j, n, o) && password == calls[j].hash && IsActing(run[j], calls[j], x))
    || (exists j :: MadeAt(run, calls, j, n, o) && password == run[j].objects[o].password)
  }

  predicate IsActing(s: State, call: Call, x: nat) {
    Sound(s) && Acting(s, call) == Some(x)
  }

  lemma {:induction false} OwnOrigin(run: seq<State>, calls: seq<Call>, n: nat, h: nat, password: string)
    requires IsRun(run, calls) && n <= |calls| && Separate(run[0]) && h < |run[n].handles|
    requires HasOrigin(run, calls, n, run[n].handles[h].subject, password)
    ensures Sound(run[n])
    ensures HasOwnOrigin(run, calls, n, run[n].handles[h].subject, password, run[n].owners[run[n].handles[h].parent])
  {
    SessionsShareNothing(run, calls, n);
    var o, c := run[n].handles[h].subject, run[n].handles[h].parent;
    if j :| ChosenAt(run, calls, j, n, o) && password == calls[j].hash {
      var k := calls[j].handle;
      HandleKept(run, calls, j, n, k);
      assert IsHandled(run[n], c, o) && IsHandled(run[n], run[n].handles[k].parent, o);
      assert IsUnder(run[n], c, o) && IsUnder(run[n], run[n].handles[k].parent, o);
      assert IsActing(run[j], calls[j], run[n].owners[c]);
    }
  }

  /** Call `i` is a server administrator's save to the row, of a password that comes from its own session. */
  ghost predicate StoresOwn(run: seq<State>, calls: seq<Call>, i: nat, r: nat, password: string)
    requires |run| == |calls| + 1 && i < |calls|
  {
    exists o: nat, x: nat :: StoresAdmin(run[i], calls[i], r, o) && IsActing(run[i], calls[i], x)
      && HasOwnOrigin(run, calls, i, o, password, x)
  }

  lemma {:induction false} StoredIsOwn(run: seq<State>, calls: seq<Call>, i: nat, r: nat, o: nat)
    requires IsRun(run, calls) && i < |calls| && Separate(run[0]) && StoresAdmin(run[i], calls[i], r, o)
    ensures StoresOwn(run, calls, i, r, run[i].objects[o].password)
  {
    var x := run[i].owners[run[i].handles[calls[i].handle].parent];
    PasswordOrigin(run, calls, i, o);
    OwnOrigin(run, calls, i, calls[i].handle, run[i].objects[o].password);
    assert IsActing(run[i], calls[i], x);
  }

  /**
   Over every run, the password in a server administrator's row is the one it held at the start as such, or a
   server administrator's session saved it: the latest choice of that same session, under whatever logon, or what
   the object was made with. No other session's choice gets there in memory.
   */
  lemma {:induction false} AdminPasswordOrigin(run: seq<State>, calls: seq<Call>, n: nat, r: nat)
    requires IsRun(run, calls) && n <= |calls| && Separate(run[0]) && IsAdminRow(run[n], r)
    ensures (IsAdminRow(run[0], r) && run[n].rows[r] == run[0].rows[r])
            || exists i: nat :: i < n && StoresOwn(run, calls, i, r, run[n].rows[r].password)
  {
    AdminRowOrigin(run, calls, n, r);
    if !(IsAdminRow(run[0], r) && run[n].rows[r] == run[0].rows[r]) {
      var i: nat, o: nat :| i < n && StoresAdmin(run[i], calls[i], r, o)
                            && run[n].rows[r].password == run[i].objects[o].password;
      StoredIsOwn(run, calls, i, r, o);
    }
  }

  /** An object is made with the password of its row, or, for a new account, without one. */
  lemma {:induction false} MadeWith(s: State, call: Call, o: nat)
    requires Sound(s) && Possible(s, call) && |s.objects| <= o < |Next(s, call).objects|
    ensures var a := Next(s, call).objects[o];
            if a.id == 0 then a.password == "" else a.id in s.rows && a.password == s.rows[a.id].password
  {
  }

  /** A choice made before the session was server administrator counts: it is stored once the session is one. */
  lemma {:induction false} EarlierChoiceStored(s: State, h: nat, hash: string)
    requires Sound(s) && h < |s.handles| && !SessionOf(s, h).IsServerAdmin()
    requires AccountOf(s, h).level == SERVER_ADMIN && AccountOf(s, h).id in s.rows
    ensures var chosen := Next(s, SetPassword(h, true, hash));
            && Ordinary(s, SetPassword(h, true, hash)) && Sound(chosen)
            && var changed := Next(chosen, Logon(s.owners[s.handles[h].parent], Some(SERVER_ADMIN)));
            && Sound(changed)
            && Next(changed, SaveHandle(h, Stored)).rows[AccountOf(s, h).id] == Row(SERVER_ADMIN, hash)
  {
    var chosen := Next(s, SetPassword(h, true, hash));
    StaysSound(s, SetPassword(h, true, hash));
    StaysSound(chosen, Logon(s.owners[s.handles[h].parent], Some(SERVER_ADMIN)));
  }
}
