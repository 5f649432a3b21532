/**
 * Every login and management session of the daemon around one camera monitor, as a transition
 * system: any interleaving of the lock-protected stretches, wake-ups, worker threads and clients.
 */
module CameraSystem {
  import opened CameraArbiter
  import opened Options

  datatype Stage =
    | Outside                 // has not called acquire
    | Arriving(deadline: int) // computed its deadline, does not hold the lock yet
    | Inside(deadline: int)   // inside acquire, asleep or woken
    | Refused                 // acquire returned False
    | Granted                 // acquire returned True

  /** The session's run: executed by a worker (logins) or by the handler itself (management). */
  datatype Work = NotStarted | Queued | Running | Ended | Dropped

  /** The obligation to give the camera back: done callback (logins) or finally block (management). */
  datatype Hook = Unattached | Attached | Fired

  datatype Session = Session(use: Use, stage: Stage, work: Work, hook: Hook, givenBack: nat,
                             cancelled: bool, preempted: bool, timedOut: bool)

  datatype State = State(monitor: Monitor, sessions: map<Id, Session>, now: int)

  predicate IsNew(x: Session) {
    && x.stage == Outside && x.work == NotStarted && x.hook == Unattached && x.givenBack == 0
    && !x.cancelled && !x.preempted && !x.timedOut
  }

  ghost predicate Init(s: State) {
    && s.monitor == Monitor(None, 0, {})
    && forall i :: i in s.sessions ==> IsNew(s.sessions[i])
  }

  datatype Step =
    | Tick
    | Call(id: Id, timeout: int)  // acquire computes its deadline
    | Attempt(id: Id)             // a stretch inside acquire
    | WaitTimesOut(id: Id)
    | SubmitFails(id: Id)         // the pool refuses the login's run
    | Submit(id: Id)
    | Attach(id: Id)              // add_done_callback
    | StartFails(id: Id)          // telling the client "started" fails
    | Start(id: Id)
    | End(id: Id)                 // run returns or raises
    | Fire(id: Id)                // the callback or finally block releases the camera
    | HandlerTimesOut(id: Id)     // the login's handler gives up waiting for the result
    | DropQueued(id: Id)          // future.cancel / shutdown(cancel_futures)
    | Cancel(id: Id)              // a client, a watcher or a failing observer cancels the session

  predicate Enabled(s: State, step: Step) {
    if step.Tick? then true
    else
      step.id in s.sessions && EnabledFor(s, s.sessions[step.id], step)
  }

  predicate EnabledFor(s: State, x: Session, step: Step)
    requires !step.Tick?
  {
    match step
    case Call(_, _) => x.stage == Outside
    case Attempt(id) => x.stage.Arriving? || (x.stage.Inside? && id !in s.monitor.sleepers)
    case WaitTimesOut(id) => x.stage.Inside? && id in s.monitor.sleepers && s.now >= x.stage.deadline
    case SubmitFails(_) => x.stage == Granted && x.use.Auth? && x.work == NotStarted
    case Submit(_) => x.stage == Granted && x.use.Auth? && x.work == NotStarted
    case Attach(_) => x.stage == Granted && x.use.Auth? && x.hook == Unattached && x.work in {Queued, Running, Ended}
    case StartFails(_) => x.stage == Granted && x.use.Manage? && x.work == NotStarted
    case Start(_) => x.stage == Granted && x.work == if x.use.Auth? then Queued else NotStarted
    case End(_) => x.work == Running
    case Fire(_) => x.hook == Attached && x.work in {Ended, Dropped}
    case HandlerTimesOut(_) => x.stage == Granted && x.use.Auth? && x.hook != Unattached && !x.timedOut
    case DropQueued(_) => x.work == Queued && x.timedOut
    case Cancel(_) => x.stage == Granted
  }

  function GiveBack(s: State, id: Id, x: Session): State
    requires id in s.sessions
  {
    s.(monitor := Released(s.monitor, id),
       sessions := s.sessions[id := x.(hook := Fired, givenBack := x.givenBack + 1)])
  }

  /** The session a login cancels has its cancel() run inside the monitor. */
  function Preempt(sessions: map<Id, Session>, target: Option<Id>): map<Id, Session> {
    if target.Some? && target.value in sessions
    then sessions[target.value := sessions[target.value].(cancelled := true, preempted := true)]
    else sessions
  }

  function AfterAttempt(s: State, id: Id): State
    requires Enabled(s, Attempt(id))
  {
    var x := s.sessions[id];
    var m := if x.stage.Arriving? then Entered(s.monitor, x.use) else s.monitor;
    var t := Try(m, x.use, id, s.now >= x.stage.deadline);
    var stage := match t.verdict
      case Grant => Granted
      case Refuse => Refused
      case Wait => Inside(x.stage.deadline);
    var hook := if t.verdict.Grant? && x.use.Manage? then Attached else x.hook;
    s.(monitor := t.monitor, sessions := Preempt(s.sessions, t.cancel)[id := x.(stage := stage, hook := hook)])
  }

  function Apply(s: State, step: Step): State
    requires Enabled(s, step)
  {
    if step.Tick? then s.(now := s.now + 1)
    else
      var x := s.sessions[step.id];
      match step
      case Call(id, timeout) =>
        s.(sessions := s.sessions[id := x.(stage := Arriving(s.now + if timeout > 0 then timeout else 0))])
      case Attempt(id) => AfterAttempt(s, id)
      case WaitTimesOut(id) => s.(monitor := s.monitor.(sleepers := s.monitor.sleepers - {id}))
      case SubmitFails(id) => GiveBack(s, id, x.(work := Dropped))
      case Submit(id) => s.(sessions := s.sessions[id := x.(work := Queued)])
      case Attach(id) =>
        if x.work == Ended then GiveBack(s, id, x) else s.(sessions := s.sessions[id := x.(hook := Attached)])
      case StartFails(id) => s.(sessions := s.sessions[id := x.(work := Dropped)])
      case Start(id) => s.(sessions := s.sessions[id := x.(work := Running)])
      case End(id) => s.(sessions := s.sessions[id := x.(work := Ended)])
      case Fire(id) => GiveBack(s, id, x)
      case HandlerTimesOut(id) => s.(sessions := s.sessions[id := x.(cancelled := true, timedOut := true)])
      case DropQueued(id) => s.(sessions := s.sessions[id := x.(work := Dropped)])
      case Cancel(id) => s.(sessions := s.sessions[id := x.(cancelled := true)])
  }

  // ----- the invariant -----

  ghost predicate IsLoginInside(s: State, i: Id) {
    i in s.sessions && s.sessions[i].use.Auth? && s.sessions[i].stage.Inside?
  }

  ghost function LoginsInside(s: State): set<Id> {
    set i | i in s.sessions && IsLoginInside(s, i)
  }

  ghost predicate Holds(s: State, i: Id) {
    i in s.sessions && s.sessions[i].stage == Granted && s.sessions[i].hook != Fired
  }

  /** What one session's record always looks like. */
  ghost predicate SessionInv(x: Session) {
    && x.givenBack == (if x.hook == Fired then 1 else 0)
    && (x.stage != Granted ==> x.work == NotStarted && x.hook == Unattached && !x.preempted && !x.timedOut)
    && (x.hook == Fired ==> x.work in {Ended, Dropped})
    && (x.stage == Granted && x.use.Manage? ==> x.hook != Unattached && x.work != Queued)
    && (x.use.Auth? ==> !x.preempted)
    && (x.use.Auth? && x.work == NotStarted ==> x.hook == Unattached)
    && (x.work == Dropped ==> x.hook != Unattached)
    && (x.timedOut ==> x.hook != Unattached && x.use.Auth? && x.cancelled)
    && (x.preempted ==> x.cancelled)
  }

  ghost predicate SessionsInv(s: State) {
    forall i :: i in s.sessions ==> SessionInv(s.sessions[i])
  }

  /** The holder is the one session with a grant it has not given back. */
  ghost predicate HolderInv(s: State) {
    && (forall i: Id :: Holds(s, i) <==> s.monitor.holder == Some((UseOf(s, i), i)))
    && (s.monitor.holder.Some? ==> Holds(s, s.monitor.holder.value.1))
  }

  /** _auth_waiting counts the logins inside acquire. */
  ghost predicate CountInv(s: State) {
    s.monitor.authWaiting == |LoginsInside(s)|
  }

  /** Nobody sleeps who could take the camera. */
  ghost predicate SleepersInv(s: State) {
    forall i :: i in s.monitor.sleepers ==>
      i in s.sessions && s.sessions[i].stage.Inside? && !CanTake(s.monitor, s.sessions[i].use)
  }

  /** A management holder stays cancelled for as long as a login is inside acquire. */
  ghost predicate PreemptionInv(s: State) {
    forall i, h :: IsLoginInside(s, i) && s.monitor.holder == Some((Manage, h)) ==>
      h in s.sessions && s.sessions[h].cancelled && s.sessions[h].preempted
  }

  ghost predicate Inv(s: State) {
    SessionsInv(s) && HolderInv(s) && CountInv(s) && SleepersInv(s) && PreemptionInv(s)
  }

  ghost function UseOf(s: State, i: Id): Use {
    if i in s.sessions then s.sessions[i].use else Auth
  }

  lemma InitInv(s: State)
    requires Init(s)
    ensures Inv(s)
  {
    assert LoginsInside(s) == {};
  }

  // ----- every step keeps it -----

  /** A step that touches one session without entering, leaving or giving back anything. */
  predicate IsLocalChange(x: Session, y: Session) {
    && y.use == x.use
    && y.stage.Inside? == x.stage.Inside?
    && (y.stage == Granted <==> x.stage == Granted)
    && (y.hook == Fired <==> x.hook == Fired)
    && (x.cancelled ==> y.cancelled) && y.preempted == x.preempted
  }

  lemma LocalKeepsInv(s: State, i: Id, y: Session)
    requires Inv(s) && i in s.sessions && IsLocalChange(s.sessions[i], y) && SessionInv(y)
    ensures Inv(s.(sessions := s.sessions[i := y]))
  {
    var t := s.(sessions := s.sessions[i := y]);
    assert LoginsInside(t) == LoginsInside(s);
    assert forall j: Id :: Holds(t, j) == Holds(s, j);
    assert forall j :: IsLoginInside(t, j) == IsLoginInside(s, j);
  }

  lemma GiveBackKeepsInv(s: State, i: Id, x: Session)
    requires Inv(s) && Holds(s, i) && x.work in {Ended, Dropped}
    requires x == s.sessions[i].(work := x.work) && (x.use.Manage? ==> x.hook != Unattached)
    ensures Inv(GiveBack(s, i, x))
  {
    var t := GiveBack(s, i, x);
    assert LoginsInside(t) == LoginsInside(s);
    assert forall j: Id :: Holds(t, j) ==> Holds(s, j) && j != i;
  }

  // ----- a stretch inside acquire -----

  /** The sessions a stretch leaves: its own moves on, a cancelled one is marked, the others stay. */
  lemma AttemptShape(s: State, i: Id)
    requires Inv(s) && Enabled(s, Attempt(i))
    ensures var t, x := AfterAttempt(s, i), s.sessions[i];
            var y := t.sessions[i];
            && t.sessions.Keys == s.sessions.Keys
            && x.hook == Unattached
            && y == x.(stage := y.stage, hook := y.hook)
            && y.hook == (if y.stage == Granted && x.use.Manage? then Attached else Unattached)
            && (y.stage == Granted || y.stage == Refused || y.stage.Inside?)
            && forall j :: j in s.sessions && j != i ==>
                 t.sessions[j]
                     == s.sessions[j].(cancelled := t.sessions[j].cancelled, preempted := t.sessions[j].preempted)
  {
    hide CountInv, SleepersInv, PreemptionInv;
  }

  /** Whom a stretch cancels: nobody, or the management session holding the camera. */
  lemma AttemptCancels(s: State, i: Id, j: Id)
    requires Inv(s) && Enabled(s, Attempt(i)) && j in s.sessions
    ensures var t, x := AfterAttempt(s, i), s.sessions[j];
            var target := s.sessions[i].use.Auth? && s.monitor.holder == Some((Manage, j));
            && t.sessions[j].cancelled == (x.cancelled || target)
            && t.sessions[j].preempted == (x.preempted || target)
            && (target ==> x.use.Manage? && x.stage == Granted && j != i)
  {
    hide CountInv, SleepersInv, PreemptionInv;
    assert s.monitor.holder == Some((Manage, j)) ==> Holds(s, j);
  }

  lemma AttemptSessions(s: State, i: Id)
    requires Inv(s) && Enabled(s, Attempt(i))
    ensures SessionsInv(AfterAttempt(s, i))
  {
    hide CountInv, SleepersInv, PreemptionInv, AfterAttempt, HolderInv;
    AttemptShape(s, i);
    forall j | j in s.sessions ensures SessionInv(AfterAttempt(s, i).sessions[j]) {
      AttemptCancels(s, i, j);
    }
  }

  lemma AttemptMonitor(s: State, i: Id)
    requires Inv(s) && Enabled(s, Attempt(i))
    ensures var t, x := AfterAttempt(s, i), s.sessions[i];
            var y, m := t.sessions[i], s.monitor;
            var waiting := m.authWaiting + if x.stage.Arriving? && x.use.Auth? then 1 else 0;
            && (y.stage == Granted <==> m.holder.None? && (x.use.Auth? || m.authWaiting == 0))
            && (y.stage == Granted ==> t.monitor.holder == Some((x.use, i)))
            && (y.stage != Granted ==> t.monitor.holder == m.holder)
            && (y.stage == Refused <==> y.stage != Granted && s.now >= x.stage.deadline)
            && (y.stage.Inside? ==> y.stage.deadline == x.stage.deadline)
            && t.monitor.authWaiting == waiting - (if x.use.Auth? && !y.stage.Inside? then 1 else 0)
            && t.monitor.sleepers
                 == if y.stage.Inside? then m.sleepers + {i} else if x.use.Auth? then {} else m.sleepers
  {
    hide CountInv, SleepersInv, PreemptionInv, SessionsInv, HolderInv, Preempt;
  }

  lemma AttemptHolder(s: State, i: Id)
    requires Inv(s) && Enabled(s, Attempt(i))
    ensures HolderInv(AfterAttempt(s, i))
  {
    hide CountInv, SleepersInv, PreemptionInv, AfterAttempt, SessionsInv;
    AttemptShape(s, i);
    AttemptMonitor(s, i);
    var t := AfterAttempt(s, i);
    assert s.sessions[i].stage != Granted && !Holds(s, i);
    assert forall j: Id :: j != i ==> Holds(t, j) == Holds(s, j) && UseOf(t, j) == UseOf(s, j);
  }

  lemma AttemptCount(s: State, i: Id)
    requires Inv(s) && Enabled(s, Attempt(i))
    ensures CountInv(AfterAttempt(s, i))
  {
    hide SleepersInv, PreemptionInv, AfterAttempt, SessionsInv, HolderInv, Try, Entered, CanTake;
    AttemptShape(s, i);
    AttemptMonitor(s, i);
    var t, x := AfterAttempt(s, i), s.sessions[i];
    var before, after := LoginsInside(s), LoginsInside(t);
    InsideElsewhere(s, t, i);
    assert i in before <==> x.use.Auth? && x.stage.Inside?;
    assert i in after <==> x.use.Auth? && t.sessions[i].stage.Inside?;
    Remove(before, i);
    Remove(after, i);
  }

  lemma InsideElsewhere(s: State, t: State, i: Id)
    requires t.sessions.Keys == s.sessions.Keys
    requires forall j :: j in s.sessions && j != i ==>
               t.sessions[j].use == s.sessions[j].use && t.sessions[j].stage == s.sessions[j].stage
    ensures LoginsInside(t) - {i} == LoginsInside(s) - {i}
  {
  }

  lemma Remove(xs: set<Id>, i: Id)
    ensures |xs| == |xs - {i}| + if i in xs then 1 else 0
  {
    if i !in xs {
      assert xs - {i} == xs;
    }
  }

  lemma AttemptSleepers(s: State, i: Id)
    requires Inv(s) && Enabled(s, Attempt(i))
    ensures SleepersInv(AfterAttempt(s, i))
  {
    hide PreemptionInv, AfterAttempt, SessionsInv, HolderInv, CountInv;
    AttemptShape(s, i);
    AttemptMonitor(s, i);
  }

  lemma AttemptPreemption(s: State, i: Id)
    requires Inv(s) && Enabled(s, Attempt(i))
    ensures PreemptionInv(AfterAttempt(s, i))
  {
    hide SleepersInv, AfterAttempt, SessionsInv;
    AttemptShape(s, i);
    AttemptMonitor(s, i);
    var t := AfterAttempt(s, i);
    assert forall l :: IsLoginInside(t, l) && l != i ==> l in LoginsInside(s);
    forall l, h | IsLoginInside(t, l) && t.monitor.holder == Some((Manage, h))
      ensures h in t.sessions && t.sessions[h].cancelled && t.sessions[h].preempted
    {
      if h != i {
        assert Holds(s, h);
        AttemptCancels(s, i, h);
        assert l != i ==> IsLoginInside(s, l);
      }
    }
  }

  lemma AttemptKeepsInv(s: State, i: Id)
    requires Inv(s) && Enabled(s, Attempt(i))
    ensures Inv(AfterAttempt(s, i))
  {
    hide *;
    AttemptSessions(s, i);
    AttemptHolder(s, i);
    AttemptCount(s, i);
    AttemptSleepers(s, i);
    AttemptPreemption(s, i);
    InvParts(AfterAttempt(s, i));
  }

  lemma InvParts(s: State)
    ensures Inv(s) <==> SessionsInv(s) && HolderInv(s) && CountInv(s) && SleepersInv(s) && PreemptionInv(s)
  {
  }

  lemma StepKeepsInv(s: State, step: Step)
    requires Inv(s) && Enabled(s, step)
    ensures Inv(Apply(s, step))
  {
    match step
    case Tick =>
      assert LoginsInside(Apply(s, step)) == LoginsInside(s);
      assert forall j: Id :: Holds(Apply(s, step), j) == Holds(s, j);
      assert forall j :: IsLoginInside(Apply(s, step), j) == IsLoginInside(s, j);
    case Attempt(i) => AttemptKeepsInv(s, i);
    case WaitTimesOut(i) =>
      assert LoginsInside(Apply(s, step)) == LoginsInside(s);
      assert forall j: Id :: Holds(Apply(s, step), j) == Holds(s, j);
      assert forall j :: IsLoginInside(Apply(s, step), j) == IsLoginInside(s, j);
    case SubmitFails(i) => GiveBackKeepsInv(s, i, s.sessions[i].(work := Dropped));
    case Fire(i) => GiveBackKeepsInv(s, i, s.sessions[i]);
    case Attach(i) =>
      if s.sessions[i].work == Ended {
        GiveBackKeepsInv(s, i, s.sessions[i]);
      } else {
        LocalKeepsInv(s, i, Apply(s, step).sessions[i]);
      }
    case _ => LocalKeepsInv(s, step.id, Apply(s, step).sessions[step.id]);
  }

  // ----- whole runs -----

  ghost predicate IsRun(states: seq<State>, steps: seq<Step>) {
    && |states| == |steps| + 1
    && Init(states[0])
    && forall t :: 0 <= t < |steps| ==> Enabled(states[t], steps[t]) && states[t + 1] == Apply(states[t], steps[t])
  }

  lemma {:induction false} RunKeepsInv(states: seq<State>, steps: seq<Step>, t: nat)
    requires IsRun(states, steps) && t < |states|
    ensures Inv(states[t])
  {
    hide Inv, Init, Enabled, Apply;
    if t == 0 {
      InitInv(states[0]);
    } else {
      RunKeepsInv(states, steps, t - 1);
      StepKeepsInv(states[t - 1], steps[t - 1]);
    }
  }

  /** No lost wakeup: a sleeper cannot take the camera, at any point of any run. */
  lemma NoLostWakeup(states: seq<State>, steps: seq<Step>, t: nat, i: Id)
    requires IsRun(states, steps) && t < |states| && i in states[t].monitor.sleepers
    ensures i in states[t].sessions && states[t].sessions[i].stage.Inside?
    ensures !CanTake(states[t].monitor, states[t].sessions[i].use)
  {
    RunKeepsInv(states, steps, t);
  }

  /** If the camera is free and anyone is inside acquire, someone inside is awake and its next stretch takes it. */
  lemma FreeCameraIsTaken(states: seq<State>, steps: seq<Step>, t: nat, i: Id) returns (taker: Id)
    requires IsRun(states, steps) && t < |states| && states[t].monitor.holder.None?
    requires i in states[t].sessions && states[t].sessions[i].stage.Inside?
    ensures taker in states[t].sessions && states[t].sessions[taker].stage.Inside?
    ensures Enabled(states[t], Attempt(taker))
    ensures Apply(states[t], Attempt(taker)).monitor.holder == Some((states[t].sessions[taker].use, taker))
  {
    hide IsRun;
    var s := states[t];
    RunKeepsInv(states, steps, t);
    if l :| l in LoginsInside(s) {
      taker := l;
    } else {
      assert LoginsInside(s) == {};
      taker := i;
      assert s.sessions[i].use.Auth? ==> IsLoginInside(s, i);
    }
    AttemptMonitor(s, taker);
  }

  ghost predicate GrantedBy(states: seq<State>, steps: seq<Step>, t: nat, j: Id)
    requires IsRun(states, steps) && t < |steps|
  {
    && j in states[t].sessions && j in states[t + 1].sessions
    && states[t].sessions[j].stage != Granted && states[t + 1].sessions[j].stage == Granted
  }

  /** A grant is the work of a stretch inside acquire, and a management grant needs that no login is inside. */
  lemma GrantNeedsAttempt(s: State, step: Step, j: Id)
    requires Inv(s) && Enabled(s, step) && j in s.sessions && s.sessions[j].stage != Granted
    requires j in Apply(s, step).sessions && Apply(s, step).sessions[j].stage == Granted
    ensures step == Attempt(j)
    ensures s.sessions[j].use.Manage? ==> LoginsInside(s) == {}
  {
    hide SessionsInv, HolderInv, SleepersInv, PreemptionInv, AfterAttempt;
    if step.Attempt? {
      AttemptShape(s, step.id);
      AttemptMonitor(s, step.id);
    }
  }

  /** Login priority: from a login's entering acquire to its leaving, no management session is granted the camera. */
  lemma LoginPriority(states: seq<State>, steps: seq<Step>, from: nat, to: nat, login: Id, t: nat, j: Id)
    requires IsRun(states, steps) && from <= t <= to < |steps|
    requires forall u :: from <= u <= to ==> IsLoginInside(states[u], login)
    requires GrantedBy(states, steps, t, j)
    ensures states[t].sessions[j].use.Auth?
  {
    RunKeepsInv(states, steps, t);
    GrantNeedsAttempt(states[t], steps[t], j);
    assert login in LoginsInside(states[t]);
  }

  /** _auth_waiting is the number of logins inside acquire, at every point of every run. */
  lemma AuthWaitingCounts(states: seq<State>, steps: seq<Step>, t: nat)
    requires IsRun(states, steps) && t < |states|
    ensures states[t].monitor.authWaiting == |set i | i in states[t].sessions && IsLoginInside(states[t], i)|
  {
    RunKeepsInv(states, steps, t);
  }

  /** Pre-emption: while a login is inside acquire, a management holder's session has been cancelled. */
  lemma WaitingLoginHasCancelledTheHolder(states: seq<State>, steps: seq<Step>, t: nat, login: Id, holder: Id)
    requires IsRun(states, steps) && t < |states|
    requires IsLoginInside(states[t], login) && states[t].monitor.holder == Some((Manage, holder))
    ensures holder in states[t].sessions && states[t].sessions[holder].cancelled && states[t].sessions[holder].preempted
  {
    RunKeepsInv(states, steps, t);
  }

  /** The arbiter cancels only the management session holding the camera, and only for a login. */
  lemma ArbiterCancelsTheManagementHolder(states: seq<State>, steps: seq<Step>, t: nat, h: Id)
    requires IsRun(states, steps) && t < |steps| && h in states[t].sessions && h in states[t + 1].sessions
    requires !states[t].sessions[h].preempted && states[t + 1].sessions[h].preempted
    ensures states[t].sessions[h].use.Manage? && states[t].monitor.holder == Some((Manage, h))
    ensures steps[t].Attempt? && states[t].sessions[steps[t].id].use.Auth?
  {
    var s := states[t];
    RunKeepsInv(states, steps, t);
    if steps[t].Attempt? {
      AttemptCancels(s, steps[t].id, h);
    }
  }

  /** A login's grant is never taken away. */
  lemma LoginIsNeverPreempted(states: seq<State>, steps: seq<Step>, t: nat, i: Id)
    requires IsRun(states, steps) && t < |states| && i in states[t].sessions && states[t].sessions[i].use.Auth?
    ensures !states[t].sessions[i].preempted
  {
    RunKeepsInv(states, steps, t);
  }

  lemma CancelledStays(s: State, step: Step, i: Id)
    requires Inv(s) && Enabled(s, step) && i in s.sessions
    ensures var t := Apply(s, step);
            && i in t.sessions
            && (s.sessions[i].cancelled ==> t.sessions[i].cancelled)
            && (step == Cancel(i) || step == HandlerTimesOut(i) ==> t.sessions[i].cancelled)
  {
    hide CountInv, SleepersInv, PreemptionInv, AfterAttempt, HolderInv;
    if step.Attempt? {
      AttemptShape(s, step.id);
      AttemptCancels(s, step.id, i);
    }
  }

  /**
   * A cancel reaches the session for good, whether its client, its handler giving up, or a login that takes
   * the camera asks for it.
   */
  lemma {:induction false} CancelIsForGood(states: seq<State>, steps: seq<Step>, t: nat, u: nat, i: Id)
    requires IsRun(states, steps) && t < u < |states| && i in states[t].sessions
    requires || steps[t] == Cancel(i) || steps[t] == HandlerTimesOut(i)
             || (i in states[t + 1].sessions && states[t + 1].sessions[i].preempted)
    ensures i in states[u].sessions && states[u].sessions[i].cancelled
    decreases u
  {
    hide Inv, Apply, Enabled, Init;
    RunKeepsInv(states, steps, u - 1);
    RunKeepsInv(states, steps, u);
    if u == t + 1 {
      CancelledStays(states[t], steps[t], i);
      PreemptedIsCancelled(states[u], i);
    } else {
      CancelIsForGood(states, steps, t, u - 1, i);
      CancelledStays(states[u - 1], steps[u - 1], i);
    }
  }

  lemma PreemptedIsCancelled(s: State, i: Id)
    requires Inv(s) && i in s.sessions
    ensures s.sessions[i].preempted ==> s.sessions[i].cancelled
  {
  }

  /** acquire gives up only past its deadline, and only at an instant when the camera cannot be taken. */
  lemma RefusedOnlyWhenTaken(states: seq<State>, steps: seq<Step>, t: nat, i: Id)
    requires IsRun(states, steps) && t < |steps| && steps[t] == Attempt(i)
    requires i in states[t + 1].sessions && states[t + 1].sessions[i].stage == Refused
    ensures var s := states[t];
            && i in s.sessions && s.now >= s.sessions[i].stage.deadline
            && !CanTake(if s.sessions[i].stage.Arriving? then Entered(s.monitor, s.sessions[i].use) else s.monitor,
                        s.sessions[i].use)
  {
    RunKeepsInv(states, steps, t);
    AttemptMonitor(states[t], i);
  }

  // ----- acquire returns -----

  /** Nobody has an outstanding grant, and a management session is not held back by a login. */
  ghost predicate CouldBeGranted(s: State, i: Id)
    requires i in s.sessions
  {
    && (forall j: Id :: !Holds(s, j))
    && (s.sessions[i].use.Manage? ==> forall j: Id :: !IsLoginInside(s, j))
  }

  lemma CouldBeGrantedExactly(s: State, i: Id)
    requires Inv(s) && i in s.sessions
    ensures CouldBeGranted(s, i) <==> s.monitor.holder.None? && (s.sessions[i].use.Auth? || s.monitor.authWaiting == 0)
  {
    hide SessionsInv, SleepersInv, PreemptionInv;
    if s.monitor.authWaiting == 0 {
      assert LoginsInside(s) == {};
      assert forall j: Id :: IsLoginInside(s, j) ==> j in LoginsInside(s);
    } else {
      var l :| l in LoginsInside(s);
      assert IsLoginInside(s, l);
    }
  }

  /**
   * What a stretch inside acquire decides, for logins and management alike: the session has the camera if
   * it could be granted, is refused if it could not and its time is over, and sleeps with the same deadline
   * otherwise. So past its deadline no stretch leaves it inside.
   */
  lemma AcquireDecides(states: seq<State>, steps: seq<Step>, t: nat, i: Id)
    requires IsRun(states, steps) && t < |steps| && steps[t] == Attempt(i)
    ensures i in states[t].sessions && i in states[t + 1].sessions
    ensures states[t].sessions[i].stage.Arriving? || states[t].sessions[i].stage.Inside?
    ensures var s, x, y := states[t], states[t].sessions[i], states[t + 1].sessions[i];
            && (y.stage == Granted <==> CouldBeGranted(s, i))
            && (y.stage == Refused <==> !CouldBeGranted(s, i) && s.now >= x.stage.deadline)
            && (y.stage.Inside? <==> !CouldBeGranted(s, i) && s.now < x.stage.deadline)
            && (y.stage.Inside? ==> y.stage.deadline == x.stage.deadline && i in states[t + 1].monitor.sleepers)
  {
    hide Inv, AfterAttempt, CouldBeGranted;
    RunKeepsInv(states, steps, t);
    CouldBeGrantedExactly(states[t], i);
    AttemptMonitor(states[t], i);
    AttemptShape(states[t], i);
  }

  predicate CanDecide(s: State, i: Id) {
    && Enabled(s, Attempt(i))
    && i in Apply(s, Attempt(i)).sessions
    && Apply(s, Attempt(i)).sessions[i].stage in {Granted, Refused}
  }

  /** Past its deadline a session inside acquire returns: one asleep is timed out, and one awake decides next. */
  lemma PastDeadlineReturns(states: seq<State>, steps: seq<Step>, t: nat, i: Id)
    requires IsRun(states, steps) && t < |states| && i in states[t].sessions && states[t].sessions[i].stage.Inside?
    requires states[t].now >= states[t].sessions[i].stage.deadline
    ensures var s := states[t];
            if i in s.monitor.sleepers
            then Enabled(s, WaitTimesOut(i)) && CanDecide(Apply(s, WaitTimesOut(i)), i)
            else CanDecide(s, i)
  {
    hide IsRun;
    var s := states[t];
    RunKeepsInv(states, steps, t);
    var awake := if i in s.monitor.sleepers then Apply(s, WaitTimesOut(i)) else s;
    assert Inv(awake) by {
      if i in s.monitor.sleepers { StepKeepsInv(s, WaitTimesOut(i)); }
    }
    hide Inv, AfterAttempt;
    AttemptMonitor(awake, i);
    AttemptShape(awake, i);
  }

  predicate IsAsking(x: Session, deadline: int) {
    match x.stage
    case Outside => false
    case Arriving(d) => d == deadline
    case Inside(d) => d == deadline
    case _ => true
  }

  lemma StillAsking(s: State, step: Step, i: Id, deadline: int)
    requires Inv(s) && Enabled(s, step) && i in s.sessions && IsAsking(s.sessions[i], deadline)
    ensures i in Apply(s, step).sessions && IsAsking(Apply(s, step).sessions[i], deadline)
  {
    hide CountInv, SleepersInv, PreemptionInv, HolderInv, AfterAttempt;
    if step.Attempt? {
      AttemptShape(s, step.id);
      AttemptMonitor(s, step.id);
    }
  }

  /** The deadline a session waits for is the one its call set: its timeout from then, or at once for none. */
  lemma {:induction false} DeadlineOfTheCall(states: seq<State>, steps: seq<Step>, c: nat, t: nat, i: Id)
    requires IsRun(states, steps) && c < t < |states| && steps[c].Call? && steps[c].id == i
    ensures i in states[t].sessions && states[t].sessions[i].stage != Outside
    ensures var x := states[t].sessions[i];
            x.stage.Arriving? || x.stage.Inside? ==>
              x.stage.deadline == states[c].now + if steps[c].timeout > 0 then steps[c].timeout else 0
  {
    DeadlineStays(states, steps, c, t, i);
  }

  lemma {:induction false} DeadlineStays(states: seq<State>, steps: seq<Step>, c: nat, t: nat, i: Id)
    requires IsRun(states, steps) && c < t < |states| && steps[c].Call? && steps[c].id == i
    ensures i in states[t].sessions
    ensures IsAsking(states[t].sessions[i], states[c].now + if steps[c].timeout > 0 then steps[c].timeout else 0)
    decreases t - c
  {
    hide Inv, AfterAttempt;
    if t == c + 1 {
    } else {
      DeadlineStays(states, steps, c, t - 1, i);
      RunKeepsInv(states, steps, t - 1);
      hide Apply, Enabled, IsAsking;
      StillAsking(states[t - 1], steps[t - 1], i,
                  states[c].now + if steps[c].timeout > 0 then steps[c].timeout else 0);
    }
  }

  // ----- the device -----

  /** Exclusive use: whatever session is running holds the camera, so at most one runs. */
  lemma ExclusiveUse(states: seq<State>, steps: seq<Step>, t: nat, i: Id, j: Id)
    requires IsRun(states, steps) && t < |states| && i in states[t].sessions && j in states[t].sessions
    requires states[t].sessions[i].work == Running && states[t].sessions[j].work == Running
    ensures i == j && states[t].monitor.holder == Some((states[t].sessions[i].use, i))
  {
    RunKeepsInv(states, steps, t);
    assert Holds(states[t], i) && Holds(states[t], j);
  }

  /** A login that timed out keeps the camera until its worker has really finished. */
  lemma TimedOutLoginKeepsTheCamera(states: seq<State>, steps: seq<Step>, t: nat, i: Id)
    requires IsRun(states, steps) && t < |states| && i in states[t].sessions
    requires states[t].sessions[i].timedOut && states[t].sessions[i].work in {Queued, Running}
    ensures states[t].monitor.holder == Some((Auth, i)) && states[t].sessions[i].givenBack == 0
  {
    RunKeepsInv(states, steps, t);
    assert Holds(states[t], i);
  }

  /** Steps left until a granted camera is given back. */
  function Distance(x: Session): nat {
    (match x.work
     case NotStarted => 6
     case Queued => 4
     case Running => 2
     case Ended => 0
     case Dropped => 0)
    + (match x.hook
       case Unattached => 2
       case Attached => 1
       case Fired => 0)
  }

  /** The step of the session's own code that brings the give-back closer. */
  function NextStep(i: Id, x: Session): Step {
    if x.hook == Attached && x.work in {Ended, Dropped} then Fire(i)
    else if x.work == NotStarted then if x.use.Auth? then Submit(i) else Start(i)
    else if x.work == Queued then Start(i)
    else if x.work == Running then End(i)
    else Attach(i)
  }

  /** Each grant is given back at most once, and a grant not given back always has a next step towards it. */
  lemma GrantIsGivenBackOnce(states: seq<State>, steps: seq<Step>, t: nat, i: Id)
    requires IsRun(states, steps) && t < |states| && i in states[t].sessions && states[t].sessions[i].stage == Granted
    ensures states[t].sessions[i].givenBack <= 1
    ensures var s, x := states[t], states[t].sessions[i];
            x.givenBack == 0 ==>
              && s.monitor.holder == Some((x.use, i))
              && Enabled(s, NextStep(i, x))
              && i in Apply(s, NextStep(i, x)).sessions
              && Distance(Apply(s, NextStep(i, x)).sessions[i]) < Distance(x)
  {
    RunKeepsInv(states, steps, t);
    assert states[t].sessions[i].givenBack == 0 ==> Holds(states[t], i);
  }

  /** No step of any thread takes a grant's return further away, and a return is never undone. */
  lemma DistanceNeverGrows(states: seq<State>, steps: seq<Step>, t: nat, i: Id)
    requires IsRun(states, steps) && t < |steps| && i in states[t].sessions && states[t].sessions[i].stage == Granted
    ensures i in states[t + 1].sessions && states[t + 1].sessions[i].stage == Granted
    ensures Distance(states[t + 1].sessions[i]) <= Distance(states[t].sessions[i])
    ensures states[t + 1].sessions[i].givenBack >= states[t].sessions[i].givenBack
    ensures states[t + 1].sessions[i].givenBack == 0 ==> states[t + 1].monitor.holder == states[t].monitor.holder
  {
    hide Enabled, Apply, Inv, Distance;
    RunKeepsInv(states, steps, t);
    RunKeepsInv(states, steps, t + 1);
    StepKeepsDistance(states[t], steps[t], i);
  }

  lemma StepKeepsDistance(s: State, step: Step, i: Id)
    requires Inv(s) && Enabled(s, step) && Inv(Apply(s, step)) && i in s.sessions && s.sessions[i].stage == Granted
    ensures var t := Apply(s, step);
            && i in t.sessions && t.sessions[i].stage == Granted
            && Distance(t.sessions[i]) <= Distance(s.sessions[i])
            && t.sessions[i].givenBack >= s.sessions[i].givenBack
            && (t.sessions[i].givenBack == 0 ==> t.monitor.holder == s.monitor.holder)
  {
    hide CountInv, SleepersInv, PreemptionInv, AfterAttempt;
    var t := Apply(s, step);
    if step.Attempt? {
      AttemptShape(s, step.id);
      AttemptCancels(s, step.id, i);
    }
    assert SessionInv(s.sessions[i]) && (i in t.sessions ==> SessionInv(t.sessions[i]));
    assert i in t.sessions && t.sessions[i].givenBack == 0 ==> Holds(s, i) && Holds(t, i);
  }

  lemma DroppedStays(s: State, step: Step, i: Id)
    requires Inv(s) && Enabled(s, step) && i in s.sessions
    ensures i in Apply(s, step).sessions
    ensures s.sessions[i].work == Dropped || step in {StartFails(i), SubmitFails(i), DropQueued(i)} ==>
              Apply(s, step).sessions[i].work == Dropped
  {
    hide CountInv, SleepersInv, PreemptionInv, AfterAttempt, HolderInv;
    if step.Attempt? {
      AttemptShape(s, step.id);
      AttemptCancels(s, step.id, i);
    }
  }

  /**
   * A session whose run could not be handed to the pool or begun, or was dropped from it, never runs, and its
   * grant has been given back or can be at once.
   */
  lemma {:induction false} DroppedNeverRuns(states: seq<State>, steps: seq<Step>, t: nat, u: nat, i: Id)
    requires IsRun(states, steps) && t < u < |states|
    requires steps[t] in {StartFails(i), SubmitFails(i), DropQueued(i)}
    ensures i in states[u].sessions && states[u].sessions[i].work == Dropped
    ensures states[u].sessions[i].givenBack == 1 || Enabled(states[u], Fire(i))
    decreases u
  {
    hide Inv, Apply, Init;
    assert i in states[t].sessions;
    hide Enabled;
    RunKeepsInv(states, steps, u - 1);
    RunKeepsInv(states, steps, u);
    if u == t + 1 {
      DroppedStays(states[t], steps[t], i);
    } else {
      DroppedNeverRuns(states, steps, t, u - 1, i);
      DroppedStays(states[u - 1], steps[u - 1], i);
    }
    DroppedCanFire(states[u], i);
  }

  lemma DroppedCanFire(s: State, i: Id)
    requires Inv(s) && i in s.sessions && s.sessions[i].work == Dropped
    ensures s.sessions[i].givenBack == 1 || Enabled(s, Fire(i))
  {
    assert SessionInv(s.sessions[i]);
  }
}
