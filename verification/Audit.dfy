/**
 Attribution of writes under interleaving. Calls of many sessions run on a pool of threads, one call at a time on
 each thread; between any two steps of a call, other threads may run steps of theirs, and sessions may log on.
 */
module Audit {
  import opened Text
  import opened Sessions

  type Thread = nat
  type SessionId = nat

  /** A call in progress; `guard` is the actor its latest authorisation question installed. */
  datatype Call = Call(session: SessionId, guard: Option<Actor>)

  /** A write, with the actor the trail recorded and what the writing call's own guard had established. */
  datatype Entry = Entry(recorded: Actor, session: SessionId, guard: Option<Actor>)

  datatype State = State(
    identity: map<SessionId, Identity>,
    actor: map<Thread, Actor>,
    calls: map<Thread, Call>,
    log: seq<Entry>)

  datatype Step =
    | Logon(session: SessionId, who: Option<Identity>)
    | Begin(thread: Thread, session: SessionId)
    | Guard(thread: Thread)
    | Write(thread: Thread)
    | End(thread: Thread)

  function IdentityOf(s: State, session: SessionId): Option<Identity> {
    if session in s.identity then Some(s.identity[session]) else None
  }

  /** The thread-local actor, absent on a thread that no guard has run on. */
  function ActorOn(s: State, t: Thread): Actor {
    if t in s.actor then s.actor[t] else Absent
  }

  predicate Enabled(s: State, step: Step) {
    match step
    case Logon(_, _) => true
    case Begin(t, _) => t !in s.calls
    case Guard(t) => t in s.calls
    case Write(t) => t in s.calls
    case End(t) => t in s.calls
  }

  function Next(s: State, step: Step): State
    requires Enabled(s, step)
  {
    match step
    case Logon(session, who) =>
      s.(identity := if who.None? then s.identity - {session} else s.identity[session := who.value])
    case Begin(t, session) => s.(calls := s.calls[t := Call(session, None)])
    case Guard(t) =>
      var a := ActorOf(IdentityOf(s, s.calls[t].session));
      s.(actor := s.actor[t := a], calls := s.calls[t := s.calls[t].(guard := Some(a))])
    case Write(t) => s.(log := s.log + [Entry(ActorOn(s, t), s.calls[t].session, s.calls[t].guard)])
    case End(t) => s.(calls := s.calls - {t})
  }

  function Start(identity: map<SessionId, Identity>, actor: map<Thread, Actor>): State {
    State(identity, actor, map[], [])
  }

  ghost predicate IsRun(run: seq<State>, steps: seq<Step>) {
    && |run| == |steps| + 1
    && (exists identity, actor :: run[0] == Start(identity, actor))
    && forall i :: 0 <= i < |steps| ==> Enabled(run[i], steps[i]) && run[i + 1] == Next(run[i], steps[i])
  }

  // ---------- attribution ----------

  /** The actor on a thread is the one its own call's guard installed, and so it is in every entry so far. */
  ghost predicate Attributed(s: State) {
    && (forall t :: t in s.calls && s.calls[t].guard.Some? ==> ActorOn(s, t) == s.calls[t].guard.value)
    && (forall i :: 0 <= i < |s.log| && s.log[i].guard.Some? ==> s.log[i].recorded == s.log[i].guard.value)
  }

  lemma {:induction false} StaysAttributed(run: seq<State>, steps: seq<Step>, n: nat)
    requires IsRun(run, steps) && n <= |steps|
    ensures Attributed(run[n])
  {
    if n > 0 {
      StaysAttributed(run, steps, n - 1);
      assert Enabled(run[n - 1], steps[n - 1]) && run[n] == Next(run[n - 1], steps[n - 1]);
    }
  }

  /** The actor is nobody, the administrator, or the account by its address and whether it administers anything. */
  predicate IsNamed(actor: Actor, who: Option<Identity>) {
    match who
    case None => actor.Absent?
    case Some(BuiltIn) => actor == Actor("Administrator", true)
    case Some(User(m)) => actor == Actor(m.address, m.level == 1 || m.level == 2)
  }

  /** Between steps `i` and `j` thread `t` neither ends its call nor asks again. */
  ghost predicate Quiet(steps: seq<Step>, i: nat, j: nat, t: Thread) {
    j <= |steps| && forall k :: i <= k < j ==> steps[k] != End(t) && steps[k] != Guard(t)
  }

  lemma {:induction false} GuardLasts(run: seq<State>, steps: seq<Step>, g: nat, n: nat, t: Thread)
    requires IsRun(run, steps) && g < n <= |steps| && steps[g] == Guard(t) && Quiet(steps, g + 1, n, t)
    ensures t in run[n].calls && t in run[g].calls && run[n].calls[t].session == run[g].calls[t].session
    ensures run[n].calls[t].guard == Some(ActorOf(IdentityOf(run[g], run[g].calls[t].session)))
  {
    assert Enabled(run[n - 1], steps[n - 1]) && run[n] == Next(run[n - 1], steps[n - 1]);
    if n > g + 1 {
      assert steps[n - 1] != End(t) && steps[n - 1] != Guard(t);
      GuardLasts(run, steps, g, n - 1, t);
    }
  }

  /**
   In every interleaving, a write made after an authorisation question in the same call is attributed to the
   identity the call's session had when it asked, whatever actor an earlier call left on the thread, and even
   if the session has logged on as somebody else since.
   */
  lemma {:induction false} GuardedWriteAttributed(run: seq<State>, steps: seq<Step>, g: nat, w: nat, t: Thread)
    requires IsRun(run, steps) && g < w < |steps|
    requires steps[g] == Guard(t) && steps[w] == Write(t) && Quiet(steps, g + 1, w, t)
    ensures t in run[g].calls && |run[w + 1].log| == |run[w].log| + 1
    ensures run[w + 1].log[|run[w].log|].session == run[g].calls[t].session
    ensures run[w + 1].log[|run[w].log|].recorded == ActorOf(IdentityOf(run[g], run[g].calls[t].session))
    ensures IsNamed(run[w + 1].log[|run[w].log|].recorded, IdentityOf(run[g], run[g].calls[t].session))
  {
    GuardLasts(run, steps, g, w, t);
    StaysAttributed(run, steps, w);
    assert run[w + 1] == Next(run[w], steps[w]);
  }

  /** A write before any question is attributed to whoever asked last on that thread. */
  lemma {:induction false} UnguardedWriteInherits(s: State, t: Thread, session: SessionId, session': SessionId)
    requires t !in s.calls
    ensures var guarded := Next(Next(s, Begin(t, session')), Guard(t));
            var later := Next(Next(guarded, End(t)), Begin(t, session));
            Next(later, Write(t)).log
            == s.log + [Entry(ActorOf(IdentityOf(s, session')), session, None)]
  {
  }
}
