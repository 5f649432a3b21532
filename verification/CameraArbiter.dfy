/**
 * The camera monitor. Its state is changed only inside lock-protected stretches of code; each
 * stretch is specified here as a function on the monitor's state and implemented by the class.
 */
module CameraArbiter {
  import opened Options

  /** AUTH is a PAM login, MANAGE a GUI enrollment or test. */
  datatype Use = Auth | Manage

  /** A session is identified by the thread that acquires the camera for it. */
  type Id = nat

  /** `sleepers` are the threads inside the condition variable's wait. */
  datatype Monitor = Monitor(holder: Option<(Use, Id)>, authWaiting: int, sleepers: set<Id>)

  predicate CanTake(m: Monitor, use: Use) {
    m.holder.None? && (use.Auth? || m.authWaiting == 0)
  }

  datatype Verdict = Grant | Refuse | Wait

  /** What one stretch inside acquire leads to; `cancel` is the session it cancels on the way. */
  datatype Stretch = Stretch(monitor: Monitor, verdict: Verdict, cancel: Option<Id>)

  /** acquire's finally: a login stops counting itself and wakes everyone. */
  function Leave(m: Monitor, use: Use): Monitor {
    if use.Auth? then m.(authWaiting := m.authWaiting - 1, sleepers := {}) else m
  }

  function Entered(m: Monitor, use: Use): Monitor {
    if use.Auth? then m.(authWaiting := m.authWaiting + 1) else m
  }

  /** From taking the lock (or being woken) to returning from acquire or sleeping. */
  function Try(m: Monitor, use: Use, id: Id, expired: bool): Stretch {
    if CanTake(m, use) then Stretch(Leave(m.(holder := Some((use, id))), use), Grant, None)
    else
      var target := if use.Auth? && m.holder.value.0.Manage? then Some(m.holder.value.1) else None;
      if expired then Stretch(Leave(m, use), Refuse, target)
      else Stretch(m.(sleepers := m.sleepers + {id}), Wait, target)
  }

  /** A no-op unless the session is the holder; otherwise everyone is woken. */
  function Released(m: Monitor, id: Id): Monitor {
    if m.holder.Some? && m.holder.value.1 == id then m.(holder := None, sleepers := {}) else m
  }

  class CameraArbiter {
    var holder: Option<(Use, Id)>
    var authWaiting: int
    var sleepers: set<Id>

    function State(): Monitor
      reads this
    {
      Monitor(holder, authWaiting, sleepers)
    }

    constructor ()
      ensures State() == Monitor(None, 0, {})
    {
      holder, authWaiting, sleepers := None, 0, {};
    }

    method NotifyAll()
      modifies this`sleepers
      ensures sleepers == {}
    {
      sleepers := {};
    }

    /** The stretch that starts acquire. */
    method BeginAcquire(use: Use, session: Id, expired: bool) returns (verdict: Verdict, cancelled: Option<Id>)
      modifies this
      ensures Stretch(State(), verdict, cancelled) == Try(Entered(old(State()), use), use, session, expired)
    {
      if use.Auth? {
        authWaiting := authWaiting + 1;
      }
      verdict, cancelled := TryToTake(use, session, expired);
    }

    /** The stretch after a notification or a timeout of the wait. */
    method ResumeAcquire(use: Use, session: Id, expired: bool) returns (verdict: Verdict, cancelled: Option<Id>)
      modifies this
      ensures Stretch(State(), verdict, cancelled) == Try(old(State()), use, session, expired)
    {
      verdict, cancelled := TryToTake(use, session, expired);
    }

    method TryToTake(use: Use, session: Id, expired: bool) returns (verdict: Verdict, cancelled: Option<Id>)
      modifies this
      ensures Stretch(State(), verdict, cancelled) == Try(old(State()), use, session, expired)
    {
      cancelled := None;
      if holder.None? && (use.Auth? || authWaiting == 0) {
        holder := Some((use, session));
        verdict := Grant;
      } else {
        if use.Auth? && holder.value.0.Manage? {
          cancelled := Some(holder.value.1);
        }
        if !expired {
          sleepers := sleepers + {session};
          return Wait, cancelled;
        }
        verdict := Refuse;
      }
      if use.Auth? {
        authWaiting := authWaiting - 1;
        NotifyAll();
      }
    }

    method Release(session: Id)
      modifies this
      ensures State() == Released(old(State()), session)
    {
      if holder.Some? && holder.value.1 == session {
        holder := None;
        NotifyAll();
      }
    }
  }
}
