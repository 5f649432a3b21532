/**
 * Cancelling an enrollment from other threads: every interleaving of any number of cancel calls with
 * one capture and the run around it. A lock-protected stretch with no device access is one step.
 */
module CancelRace {
  import opened Options

  type Id = nat

  datatype Owner = Canceller(id: Id) | Capturer

  /**
   * `event` is the cancel event, `owner` holds the state lock, `published` says the session's stream is
   * visible to cancel, `claimed` is the stream's released flag, `releases` counts the device's releases.
   */
  datatype Shared = Shared(event: bool, owner: Option<Owner>, isOpen: bool, published: bool, claimed: bool,
                           releases: nat)

  /** Where a thread is inside cancel. */
  datatype CancelPc = Before | EventSet | Locked | Claimed | Unlocking | Returned

  datatype Result = Success | Cancelled | Failed | Raised

  /** Where the capturing thread is; `Observing` runs cancel itself, because its observer raised. */
  datatype CapturePc =
    | Opening
    | Publishing
    | PostCheck
    | PostClaim
    | PostDevice
    | LoopCheck
    | Reading
    | Observing(c: CancelPc, found: bool)
    | FinalCheck(found: bool)
    | Closing(r: Result)        // the finally block, before it takes the lock
    | CloseClaim(r: Result)
    | CloseDevice(r: Result)
    | Captured(r: Result)       // capture has returned, run has not checked yet
    | Storing                   // run is past its last check
    | Done(r: Result)

  /**
   * History: `looked` once some cancel has looked for the stream while it was published, `noticed` once the
   * check after publishing has found the event set, `wrote` once the store has been written.
   */
  datatype State = State(shared: Shared, cancels: map<Id, CancelPc>, capture: CapturePc, wrote: bool,
                         looked: bool, noticed: bool)

  ghost predicate Init(s: State) {
    && s.shared == Shared(false, None, false, false, false, 0)
    && s.capture == Opening && !s.wrote && !s.looked && !s.noticed
    && forall i :: i in s.cancels ==> s.cancels[i] == Before
  }

  // ----- cancel -----

  predicate CancelEnabled(sh: Shared, c: CancelPc) {
    c != Returned && (c == EventSet ==> sh.owner.None?)
  }

  function CancelNext(sh: Shared, me: Owner, c: CancelPc): (Shared, CancelPc) {
    match c
    case Before => (sh.(event := true), EventSet)
    case EventSet => (sh.(owner := Some(me)), Locked)
    case Locked => if sh.published && !sh.claimed then (sh.(claimed := true), Claimed) else (sh, Unlocking)
    case Claimed => (sh.(releases := sh.releases + 1), Unlocking)
    case Unlocking => (sh.(owner := None), Returned)
    case Returned => (sh, Returned)
  }

  // ----- capture and run -----

  /** What the camera and the observer do, where the program does not decide. */
  datatype Choice = Fine | Fails | DetectorRaises | FoundFace | LastFrame | ObserverRaises(found: bool)

  predicate CaptureEnabled(sh: Shared, p: CapturePc) {
    match p
    case Publishing => sh.owner.None?
    case Closing(_) => sh.owner.None?
    case Observing(c, _) => c == Returned || CancelEnabled(sh, c)
    case Done(_) => false
    case _ => true
  }

  function CaptureNext(sh: Shared, p: CapturePc, choice: Choice): (Shared, CapturePc) {
    match p
    case Opening => if choice.Fails? then (sh, Done(Raised)) else (sh.(isOpen := true), Publishing)
    case Publishing => (sh.(published := true), PostCheck)
    case PostCheck => (sh, if sh.event then PostClaim else LoopCheck)
    case PostClaim => if sh.claimed then (sh, LoopCheck) else (sh.(claimed := true), PostDevice)
    case PostDevice => (sh.(releases := sh.releases + 1), LoopCheck)
    case LoopCheck =>
      (sh, if sh.event then Closing(Cancelled) else if choice.LastFrame? then FinalCheck(false) else Reading)
    case Reading =>
      (sh, match choice
           case Fails => Closing(if sh.event then Cancelled else Raised)
           case DetectorRaises => Closing(Raised)
           case FoundFace => FinalCheck(true)
           case ObserverRaises(found) => Observing(Before, found)
           case _ => LoopCheck)
    case Observing(c, found) =>
      if c == Returned then (sh, if found then FinalCheck(true) else LoopCheck)
      else
        var (after, next) := CancelNext(sh, Capturer, c);
        (after, Observing(next, found))
    case FinalCheck(found) =>
      (sh, Closing(if sh.event then Cancelled else if choice.Fails? then Raised else if found then Success else Failed))
    case Closing(r) => (sh.(published := false), CloseClaim(r))
    case CloseClaim(r) => if sh.claimed then (sh, Captured(r)) else (sh.(claimed := true), CloseDevice(r))
    case CloseDevice(r) => (sh.(releases := sh.releases + 1), Captured(r))
    case Captured(r) => (sh, if r != Success then Done(r) else if sh.event then Done(Cancelled) else Storing)
    case Storing => (sh, Done(if choice.Fails? then Raised else Success))
    case Done(r) => (sh, Done(r))
  }

  datatype Step = CancelStep(id: Id) | CaptureStep(choice: Choice)

  predicate Enabled(s: State, step: Step) {
    match step
    case CancelStep(i) => i in s.cancels && CancelEnabled(s.shared, s.cancels[i])
    case CaptureStep(_) => CaptureEnabled(s.shared, s.capture)
  }

  function Apply(s: State, step: Step): State
    requires Enabled(s, step)
  {
    match step
    case CancelStep(i) =>
      var (sh, c) := CancelNext(s.shared, Canceller(i), s.cancels[i]);
      s.(shared := sh, cancels := s.cancels[i := c], looked := s.looked || (s.cancels[i].Locked? && s.shared.published))
    case CaptureStep(choice) =>
      var (sh, p) := CaptureNext(s.shared, s.capture, choice);
      s.(shared := sh, capture := p, wrote := s.wrote || (s.capture.Storing? && !choice.Fails?),
         looked := s.looked || (s.capture.Observing? && s.capture.c.Locked? && s.shared.published),
         noticed := s.noticed || (s.capture.PostCheck? && s.shared.event))
  }

  // ----- the invariant -----

  predicate InLock(c: CancelPc) {
    c.Locked? || c.Claimed? || c.Unlocking?
  }

  predicate Visible(p: CapturePc) {
    match p
    case Opening => false
    case Publishing => false
    case CloseClaim(_) => false
    case CloseDevice(_) => false
    case Captured(_) => false
    case Storing => false
    case Done(_) => false
    case _ => true
  }

  /** Past the check that follows publishing, and not yet in the finally block's own release. */
  predicate PastPostCheck(p: CapturePc) {
    Visible(p) && !p.PostCheck? && !p.PostClaim? && !p.PostDevice?
  }

  predicate CaptureReleasing(p: CapturePc) {
    p.PostDevice? || p.CloseDevice?
  }

  predicate AfterClose(p: CapturePc) {
    p.Captured? || p.Storing? || p.Done?
  }

  predicate LockInv(s: State) {
    && (forall i :: i in s.cancels && InLock(s.cancels[i]) ==> s.shared.owner == Some(Canceller(i)))
    && (s.capture.Observing? && InLock(s.capture.c) ==> s.shared.owner == Some(Capturer))
    && (forall i :: i in s.cancels && s.cancels[i] != Before ==> s.shared.event)
    && (s.capture.Observing? && s.capture.c != Before ==> s.shared.event)
  }

  /** Some thread inside cancel has claimed the release and not yet done it. */
  predicate CancelReleasing(s: State) {
    || (s.capture.Observing? && s.capture.c.Claimed?)
    || (s.shared.owner.Some? && s.shared.owner.value.Canceller? && s.shared.owner.value.id in s.cancels
        && s.cancels[s.shared.owner.value.id].Claimed?)
  }

  predicate DeviceInv(s: State) {
    var sh := s.shared;
    && sh.releases <= 1
    && (sh.claimed <==> sh.releases == 1 || CancelReleasing(s) || CaptureReleasing(s.capture))
    && !(CancelReleasing(s) && CaptureReleasing(s.capture))
    && (sh.releases == 1 ==> !CancelReleasing(s) && !CaptureReleasing(s.capture))
    && (sh.published <==> Visible(s.capture))
    && (CancelReleasing(s) ==> sh.published)
    && (sh.claimed ==> sh.isOpen)
    && (s.capture.Opening? ==> !sh.isOpen)
    && (!s.capture.Opening? && !s.capture.Done? ==> sh.isOpen)
    && (AfterClose(s.capture) && sh.isOpen ==> sh.releases == 1)
    && (s.capture == Done(Raised) || sh.isOpen || s.capture.Opening?)
  }

  /** A cancel that has looked for the stream has made sure its release is at least under way. */
  predicate CancelInv(s: State) {
    forall i :: i in s.cancels && PastPostCheck(s.capture) && HasLooked(s.cancels[i]) ==> s.shared.claimed
  }

  predicate HasLooked(c: CancelPc) {
    c.Claimed? || c.Unlocking? || c.Returned?
  }

  /** Before the finally block's own release, the stream is claimed by a look or by the check after publishing only. */
  predicate HistoryInv(s: State) {
    && (s.looked ==> s.shared.claimed)
    && (s.noticed ==> s.shared.claimed || s.capture.PostClaim?)
    && (s.shared.claimed ==> s.looked || s.noticed || s.capture.CloseDevice? || AfterClose(s.capture))
    && (s.capture.PostClaim? ==> s.noticed)
  }

  predicate Inv(s: State) {
    LockInv(s) && DeviceInv(s) && CancelInv(s) && HistoryInv(s) && (s.wrote ==> s.capture == Done(Success))
  }

  lemma InitInv(s: State)
    requires Init(s)
    ensures Inv(s)
  {
  }

  lemma CancelKeepsInv(s: State, i: Id)
    requires Inv(s) && Enabled(s, CancelStep(i))
    ensures Inv(Apply(s, CancelStep(i)))
  {
  }

  lemma CaptureKeepsLock(s: State, choice: Choice)
    requires LockInv(s) && Enabled(s, CaptureStep(choice))
    ensures LockInv(Apply(s, CaptureStep(choice)))
  {
  }

  lemma ObserverKeepsDevice(s: State, choice: Choice)
    requires LockInv(s) && DeviceInv(s) && Enabled(s, CaptureStep(choice)) && s.capture.Observing?
    ensures DeviceInv(Apply(s, CaptureStep(choice)))
  {
  }

  lemma ClosingKeepsDevice(s: State, choice: Choice)
    requires LockInv(s) && DeviceInv(s) && Enabled(s, CaptureStep(choice))
        && (s.capture.Closing? || s.capture.Publishing?)
    ensures DeviceInv(Apply(s, CaptureStep(choice)))
  {
  }

  lemma CaptureKeepsDevice(s: State, choice: Choice)
    requires LockInv(s) && DeviceInv(s) && Enabled(s, CaptureStep(choice))
    ensures DeviceInv(Apply(s, CaptureStep(choice)))
  {
    if s.capture.Observing? {
      ObserverKeepsDevice(s, choice);
    } else if s.capture.Closing? || s.capture.Publishing? {
      ClosingKeepsDevice(s, choice);
    } else {
      assert CancelReleasing(Apply(s, CaptureStep(choice))) == CancelReleasing(s);
    }
  }

  lemma CaptureKeepsCancel(s: State, choice: Choice)
    requires LockInv(s) && DeviceInv(s) && CancelInv(s) && Enabled(s, CaptureStep(choice))
    ensures CancelInv(Apply(s, CaptureStep(choice)))
  {
  }

  lemma CaptureKeepsHistory(s: State, choice: Choice)
    requires LockInv(s) && DeviceInv(s) && HistoryInv(s) && Enabled(s, CaptureStep(choice))
    ensures HistoryInv(Apply(s, CaptureStep(choice)))
  {
  }

  lemma CaptureKeepsInv(s: State, choice: Choice)
    requires Inv(s) && Enabled(s, CaptureStep(choice))
    ensures Inv(Apply(s, CaptureStep(choice)))
  {
    hide LockInv, DeviceInv, CancelInv, HistoryInv;
    CaptureKeepsHistory(s, choice);
    CaptureKeepsLock(s, choice);
    CaptureKeepsDevice(s, choice);
    CaptureKeepsCancel(s, choice);
  }

  // ----- whole runs -----

  ghost predicate IsRun(states: seq<State>, steps: seq<Step>) {
    && |states| == |steps| + 1
    && Init(states[0])
    && forall n :: 0 <= n < |steps| ==> Enabled(states[n], steps[n]) && states[n + 1] == Apply(states[n], steps[n])
  }

  lemma {:induction false} RunKeepsInv(states: seq<State>, steps: seq<Step>, n: nat)
    requires IsRun(states, steps) && n < |states|
    ensures Inv(states[n])
  {
    hide Inv, Init, Apply, Enabled;
    if n == 0 {
      InitInv(states[0]);
    } else {
      RunKeepsInv(states, steps, n - 1);
      match steps[n - 1] {
        case CancelStep(i) => CancelKeepsInv(states[n - 1], i);
        case CaptureStep(choice) => CaptureKeepsInv(states[n - 1], choice);
      }
    }
  }

  /** Past the check after publishing, to the end of capture. */
  predicate IsPast(p: CapturePc) {
    PastPostCheck(p) || p.CloseClaim? || p.CloseDevice? || AfterClose(p)
  }

  /**
   * When the stream is released: past the check after publishing it is if and only if some cancel looked
   * while it was published, or that check found the event set, or the finally block has got to it itself.
   */
  lemma ReleasedExactlyWhen(states: seq<State>, steps: seq<Step>, n: nat)
    requires IsRun(states, steps) && n < |states| && states[n].shared.isOpen && IsPast(states[n].capture)
    ensures var s := states[n];
            s.shared.claimed <==> s.looked || s.noticed || s.capture.CloseDevice? || AfterClose(s.capture)
    ensures states[n].shared.claimed ==>
              states[n].shared.releases == 1 || CancelReleasing(states[n]) || states[n].capture.CloseDevice?
  {
    hide IsRun;
    RunKeepsInv(states, steps, n);
  }

  /**
   * Once a cancel has returned and the capture has opened its stream and is past the check after
   * publishing, the stream is released, except exactly in the window of the finally block that has hidden
   * the stream and not yet released it, when no cancel looked before and the check found nothing.
   */
  lemma CancelReleasesTheStream(states: seq<State>, steps: seq<Step>, n: nat, i: Id)
    requires IsRun(states, steps) && n < |states| && i in states[n].cancels
    requires states[n].cancels[i] == Returned && states[n].shared.isOpen && IsPast(states[n].capture)
    ensures var s := states[n];
            s.shared.claimed <==> !s.capture.CloseClaim? || s.looked || s.noticed
    ensures states[n].shared.claimed ==>
              states[n].shared.releases == 1 || CancelReleasing(states[n]) || states[n].capture.CloseDevice?
  {
    hide IsRun;
    RunKeepsInv(states, steps, n);
  }

  /** The device is never released twice, and exactly once by the time a capture that opened it returns. */
  lemma DeviceReleasedOnce(states: seq<State>, steps: seq<Step>, n: nat)
    requires IsRun(states, steps) && n < |states|
    ensures states[n].shared.releases <= 1
    ensures AfterClose(states[n].capture) ==> states[n].shared.releases == if states[n].shared.isOpen then 1 else 0
    ensures AfterClose(states[n].capture) ==> states[n].shared.isOpen || states[n].capture == Done(Raised)
  {
    hide IsRun;
    RunKeepsInv(states, steps, n);
  }

  /** The last point at which run still looks at the event. */
  predicate MayStillNotice(p: CapturePc) {
    !p.Storing? && !p.Done?
  }

  /** The last point at which capture still looks at the event. */
  predicate CaptureMayStillNotice(p: CapturePc) {
    (Visible(p) && !p.Closing?) || p.Opening? || p.Publishing?
  }

  predicate EndsAs(p: CapturePc, r: Result) {
    match p
    case Closing(x) => x == r
    case CloseClaim(x) => x == r
    case CloseDevice(x) => x == r
    case Captured(x) => x == r
    case Done(x) => x == r
    case _ => false
  }

  /** What becomes of a capture that a cancel reached in time; `raised` says whether the detector has raised since. */
  predicate CancelledFate(s: State, raised: bool) {
    && s.shared.event
    && if raised then EndsAs(s.capture, Raised) && s.shared.isOpen
       else CaptureMayStillNotice(s.capture) || EndsAs(s.capture, Cancelled)
            || (s.capture == Done(Raised) && !s.shared.isOpen)
  }

  /** The detector raises at this step, which takes a capture that is reading a frame. */
  predicate DetectorRaisesAt(s: State, step: Step) {
    s.capture == Reading && step == CaptureStep(DetectorRaises)
  }

  lemma CancelledFateStays(s: State, step: Step, raised: bool)
    requires Inv(s) && CancelledFate(s, raised) && Enabled(s, step)
    ensures CancelledFate(Apply(s, step), raised || DetectorRaisesAt(s, step))
  {
  }

  /** The detector has raised between two points of a run. */
  predicate DetectorRaised(states: seq<State>, steps: seq<Step>, n: nat, m: nat)
    requires n <= m <= |steps| <= |states|
  {
    exists j :: n <= j < m && DetectorRaisesAt(states[j], steps[j])
  }

  /**
   * The fate of a capture reached by a cancel before its last check: it raises, its stream open, if and
   * only if the detector, which is not guarded as reading is, has raised since. Otherwise it may still
   * notice, or it ends as cancelled, or its camera never opened.
   */
  lemma {:induction false} CancelledInTime(states: seq<State>, steps: seq<Step>, n: nat, m: nat)
    requires IsRun(states, steps) && n <= m < |states|
    requires states[n].shared.event && CaptureMayStillNotice(states[n].capture)
    ensures states[m].shared.event
    ensures DetectorRaised(states, steps, n, m) <==> EndsAs(states[m].capture, Raised) && states[m].shared.isOpen
    ensures !DetectorRaised(states, steps, n, m) ==>
              || CaptureMayStillNotice(states[m].capture)
              || EndsAs(states[m].capture, Cancelled)
              || (states[m].capture == Done(Raised) && !states[m].shared.isOpen)
  {
    hide IsRun;
    CancelledFrom(states, steps, n, m);
  }

  lemma {:induction false} CancelledFrom(states: seq<State>, steps: seq<Step>, n: nat, m: nat)
    requires IsRun(states, steps) && n <= m < |states|
    requires states[n].shared.event && CaptureMayStillNotice(states[n].capture)
    ensures CancelledFate(states[m], DetectorRaised(states, steps, n, m))
    decreases m - n
  {
    hide Init, Apply, Enabled, CancelledFate, Inv;
    if n == m {
      StillNoticing(states[n]);
    } else {
      CancelledFrom(states, steps, n, m - 1);
      RunKeepsInv(states, steps, m - 1);
      CancelledFateStays(states[m - 1], steps[m - 1], DetectorRaised(states, steps, n, m - 1));
      assert DetectorRaised(states, steps, n, m) <==>
          DetectorRaised(states, steps, n, m - 1) || DetectorRaisesAt(states[m - 1], steps[m - 1]);
    }
  }

  lemma StillNoticing(s: State)
    requires s.shared.event && CaptureMayStillNotice(s.capture)
    ensures CancelledFate(s, false)
  {
  }

  /** A cancel in time does not always end as cancelled: the detector raises after it, and so does the capture. */
  lemma CancelThenDetectorRaises() returns (states: seq<State>, steps: seq<Step>)
    ensures IsRun(states, steps) && |states| > 5
    ensures states[5].shared.event && CaptureMayStillNotice(states[5].capture)
    ensures states[|states| - 1].capture == Done(Raised) && states[|states| - 1].shared.releases == 1
  {
    steps := [CaptureStep(Fine), CaptureStep(Fine), CaptureStep(Fine), CaptureStep(Fine), CancelStep(0),
              CaptureStep(DetectorRaises), CaptureStep(Fine), CaptureStep(Fine), CaptureStep(Fine), CaptureStep(Fine)];
    var sh := Shared(false, None, true, true, false, 0);
    var cancelled := sh.(event := true);
    var hidden := cancelled.(published := false);
    var c, d := map[0 := Before], map[0 := EventSet];
    states := [State(sh.(isOpen := false, published := false), c, Opening, false, false, false),
               State(sh.(published := false), c, Publishing, false, false, false),
               State(sh, c, PostCheck, false, false, false),
               State(sh, c, LoopCheck, false, false, false),
               State(sh, c, Reading, false, false, false),
               State(cancelled, d, Reading, false, false, false),
               State(cancelled, d, Closing(Raised), false, false, false),
               State(hidden, d, CloseClaim(Raised), false, false, false),
               State(hidden.(claimed := true), d, CloseDevice(Raised), false, false, false),
               State(hidden.(claimed := true, releases := 1), d, Captured(Raised), false, false, false),
               State(hidden.(claimed := true, releases := 1), d, Done(Raised), false, false, false)];
    assert c[0 := EventSet] == d;
    forall n | 0 <= n < |steps| ensures Enabled(states[n], steps[n]) && states[n + 1] == Apply(states[n], steps[n]) {
      if n < 4 { } else if n < 7 { } else { }
    }
  }

  /** The event is set, nothing is written, and no later state can write. */
  predicate Doomed(s: State) {
    s.shared.event && (MayStillNotice(s.capture) || (s.capture.Done? && s.capture.r != Success)) && !s.wrote
  }

  lemma DoomedStays(s: State, step: Step)
    requires Inv(s) && Doomed(s) && Enabled(s, step)
    ensures Doomed(Apply(s, step))
  {
  }

  /** Nothing is written, and the enrollment does not succeed, if a cancel set the event before run's last check. */
  lemma {:induction false} CancelledNeverWrites(states: seq<State>, steps: seq<Step>, n: nat, m: nat)
    requires IsRun(states, steps) && n <= m < |states|
    requires states[n].shared.event && MayStillNotice(states[n].capture)
    ensures !states[m].wrote && states[m].capture != Storing && states[m].capture != Done(Success)
    decreases m - n
  {
    DoomedFrom(states, steps, n, m);
  }

  lemma {:induction false} DoomedFrom(states: seq<State>, steps: seq<Step>, n: nat, m: nat)
    requires IsRun(states, steps) && n <= m < |states|
    requires states[n].shared.event && MayStillNotice(states[n].capture)
    ensures Doomed(states[m])
    decreases m - n
  {
    hide Inv, Init, Apply, Enabled;
    RunKeepsInv(states, steps, n);
    if n == m {
      NothingWrittenYet(states[n]);
    } else {
      DoomedFrom(states, steps, n, m - 1);
      RunKeepsInv(states, steps, m - 1);
      DoomedStays(states[m - 1], steps[m - 1]);
    }
  }

  lemma NothingWrittenYet(s: State)
    requires Inv(s) && MayStillNotice(s.capture)
    ensures !s.wrote
  {
  }

  /** The store is written exactly by an enrollment that succeeds. */
  lemma {:induction false} WritesExactlyOnSuccess(states: seq<State>, steps: seq<Step>, n: nat)
    requires IsRun(states, steps) && n < |states|
    ensures states[n].wrote <==> states[n].capture == Done(Success)
  {
    if n == 0 {
    } else {
      WritesExactlyOnSuccess(states, steps, n - 1);
    }
  }

  // ----- what an enrollment needs to succeed -----

  /** A frame with a single face is read; an observer that raises on it is heard all the same. */
  predicate FindsFaceAt(s: State, step: Step) {
    s.capture == Reading && (step == CaptureStep(FoundFace) || step == CaptureStep(ObserverRaises(true)))
  }

  /** The face is embedded, which does not raise, and no cancel has been seen. */
  predicate EmbedsAt(s: State, step: Step) {
    s.capture == FinalCheck(true) && step.CaptureStep? && !step.choice.Fails? && !s.shared.event
  }

  predicate Found(states: seq<State>, steps: seq<Step>, n: nat)
    requires n <= |steps| <= |states|
  {
    exists j :: 0 <= j < n && FindsFaceAt(states[j], steps[j])
  }

  predicate Embedded(states: seq<State>, steps: seq<Step>, n: nat)
    requires n <= |steps| <= |states|
  {
    exists j :: 0 <= j < n && EmbedsAt(states[j], steps[j])
  }

  predicate HasFace(p: CapturePc) {
    p == FinalCheck(true) || (p.Observing? && p.found) || p.Storing? || EndsAs(p, Success)
  }

  predicate HasSucceeded(p: CapturePc) {
    p.Storing? || EndsAs(p, Success)
  }

  lemma FaceByStep(s: State, step: Step)
    requires Enabled(s, step)
    ensures HasFace(Apply(s, step).capture) ==> HasFace(s.capture) || FindsFaceAt(s, step)
    ensures HasSucceeded(Apply(s, step).capture) ==> HasSucceeded(s.capture) || EmbedsAt(s, step)
  {
  }

  /** Nothing is stored, and no enrollment succeeds, without a frame with a single face that was embedded. */
  lemma {:induction false} SuccessNeedsAFace(states: seq<State>, steps: seq<Step>, n: nat)
    requires IsRun(states, steps) && n < |states|
    ensures HasFace(states[n].capture) ==> Found(states, steps, n)
    ensures states[n].wrote || HasSucceeded(states[n].capture) ==> Found(states, steps, n) && Embedded(states, steps, n)
  {
    hide Apply, Enabled, FindsFaceAt, EmbedsAt;
    WritesExactlyOnSuccess(states, steps, n);
    if n == 0 {
    } else {
      SuccessNeedsAFace(states, steps, n - 1);
      FaceByStep(states[n - 1], steps[n - 1]);
    }
  }

  /** On its way to success, or there. */
  predicate Succeeding(s: State) {
    && (s.capture == FinalCheck(true) || HasSucceeded(s.capture))
    && (s.capture.Done? ==> s.wrote)
  }

  lemma SucceedingStays(s: State, step: Step)
    requires Enabled(s, step) && step != CaptureStep(Fails) && !Apply(s, step).shared.event
    requires Succeeding(s)
    ensures Succeeding(Apply(s, step))
  {
  }

  lemma FoundIsSucceeding(s: State)
    requires s.capture == Reading && Enabled(s, CaptureStep(FoundFace))
    ensures Succeeding(Apply(s, CaptureStep(FoundFace)))
  {
  }

  lemma EventStays(s: State, step: Step)
    requires Enabled(s, step)
    ensures s.shared.event ==> Apply(s, step).shared.event
  {
  }

  /** A face found is stored: unless a cancel comes or something raises, the enrollment is on its way to success. */
  lemma {:induction false} FaceIsStored(states: seq<State>, steps: seq<Step>, j: nat, n: nat)
    requires IsRun(states, steps) && j < n < |states| && !states[n].shared.event
    requires states[j].capture == Reading && steps[j] == CaptureStep(FoundFace)
    requires forall k :: j <= k < n ==> steps[k] != CaptureStep(Fails)
    ensures states[n].capture == FinalCheck(true) || HasSucceeded(states[n].capture)
    ensures states[n].capture.Done? ==> states[n].wrote
    decreases n - j
  {
    hide Init, Apply, Enabled, HasSucceeded;
    if n == j + 1 {
      FoundIsSucceeding(states[j]);
    } else {
      EventStays(states[n - 1], steps[n - 1]);
      FaceIsStored(states, steps, j, n - 1);
      SucceedingStays(states[n - 1], steps[n - 1]);
    }
  }

  predicate OpensAt(s: State, step: Step) {
    s.capture == Opening && step.CaptureStep? && !step.choice.Fails?
  }

  predicate FailsToOpenAt(s: State, step: Step) {
    s.capture == Opening && step == CaptureStep(Fails)
  }

  predicate Opened(states: seq<State>, steps: seq<Step>, n: nat)
    requires n <= |steps| <= |states|
  {
    exists j :: 0 <= j < n && OpensAt(states[j], steps[j])
  }

  predicate FailedToOpen(states: seq<State>, steps: seq<Step>, n: nat)
    requires n <= |steps| <= |states|
  {
    exists j :: 0 <= j < n && FailsToOpenAt(states[j], steps[j])
  }

  lemma OpenByStep(s: State, step: Step)
    requires Enabled(s, step)
    ensures Apply(s, step).shared.isOpen <==> s.shared.isOpen || OpensAt(s, step)
  {
    if step.CancelStep? {
      CancelKeepsOpen(s.shared, Canceller(step.id), s.cancels[step.id]);
    } else {
      if s.capture.Observing? {
        CancelKeepsOpen(s.shared, Capturer, s.capture.c);
      }
      hide CancelNext;
    }
  }

  lemma CancelKeepsOpen(sh: Shared, me: Owner, c: CancelPc)
    ensures CancelNext(sh, me, c).0.isOpen == sh.isOpen
  {
  }

  lemma RaisedIsLast(s: State, step: Step)
    requires Enabled(s, step)
    ensures FailsToOpenAt(s, step) || s.capture == Done(Raised) ==> Apply(s, step).capture == Done(Raised)
  {
    hide CancelNext;
  }

  /** The stream is open exactly once the camera has opened; a camera that does not open makes the capture raise. */
  lemma {:induction false} OpensExactly(states: seq<State>, steps: seq<Step>, n: nat)
    requires IsRun(states, steps) && n < |states|
    ensures states[n].shared.isOpen <==> Opened(states, steps, n)
    ensures FailedToOpen(states, steps, n) ==> states[n].capture == Done(Raised)
  {
    hide Apply, Enabled, OpensAt, FailsToOpenAt;
    if n == 0 {
    } else {
      OpensExactly(states, steps, n - 1);
      OpenByStep(states[n - 1], steps[n - 1]);
      RaisedIsLast(states[n - 1], steps[n - 1]);
    }
  }

  /** The observer has raised; its cancel has set the event, or is about to. */
  predicate Observed(s: State) {
    s.shared.event || (s.capture.Observing? && s.capture.c == Before)
  }

  lemma ObservedStays(s: State, step: Step)
    requires Enabled(s, step) && Observed(s)
    ensures Observed(Apply(s, step))
  {
  }

  lemma RaisingIsObserved(s: State, found: bool)
    requires s.capture == Reading && Enabled(s, CaptureStep(ObserverRaises(found)))
    ensures Observed(Apply(s, CaptureStep(ObserverRaises(found))))
  {
  }

  /** An observer that raises cancels the enrollment: the event is set before the capture goes on. */
  lemma {:induction false} ObserverCancels(states: seq<State>, steps: seq<Step>, j: nat, n: nat, found: bool)
    requires IsRun(states, steps) && j < n < |states|
    requires states[j].capture == Reading && steps[j] == CaptureStep(ObserverRaises(found))
    ensures Observed(states[n])
    decreases n - j
  {
    hide Init, Apply, Enabled;
    if n == j + 1 {
      RaisingIsObserved(states[j], found);
    } else {
      ObserverCancels(states, steps, j, n - 1, found);
      ObservedStays(states[n - 1], steps[n - 1]);
    }
  }

  /**
   * The check after publishing matters, and so does the state lock: between the finally block hiding the
   * stream and releasing it, a cancel can return while the device is still open.
   */
  lemma CancelCanReturnBeforeTheRelease() returns (states: seq<State>, steps: seq<Step>)
    ensures IsRun(states, steps)
    ensures var last := states[|states| - 1];
            && last.cancels == map[0 := Returned] && last.capture == CloseClaim(Success)
            && !last.shared.claimed && last.shared.releases == 0
  {
    steps := [CaptureStep(Fine), CaptureStep(Fine), CaptureStep(Fine), CaptureStep(Fine), CaptureStep(FoundFace),
              CaptureStep(Fine), CaptureStep(Fine),
              CancelStep(0), CancelStep(0), CancelStep(0), CancelStep(0)];
    var sh := Shared(false, None, true, false, false, 0);
    var c := map[0 := Before];
    var mine := sh.(event := true, owner := Some(Canceller(0)));
    states := [State(sh.(isOpen := false), c, Opening, false, false, false),
               State(sh, c, Publishing, false, false, false),
               State(sh.(published := true), c, PostCheck, false, false, false),
               State(sh.(published := true), c, LoopCheck, false, false, false),
               State(sh.(published := true), c, Reading, false, false, false),
               State(sh.(published := true), c, FinalCheck(true), false, false, false),
               State(sh.(published := true), c, Closing(Success), false, false, false),
               State(sh, c, CloseClaim(Success), false, false, false),
               State(sh.(event := true), map[0 := EventSet], CloseClaim(Success), false, false, false),
               State(mine, map[0 := Locked], CloseClaim(Success), false, false, false),
               State(mine, map[0 := Unlocking], CloseClaim(Success), false, false, false),
               State(sh.(event := true), map[0 := Returned], CloseClaim(Success), false, false, false)];
    assert map[0 := Before][0 := EventSet] == map[0 := EventSet];
    assert map[0 := EventSet][0 := Locked] == map[0 := Locked];
    assert map[0 := Locked][0 := Unlocking] == map[0 := Unlocking];
    assert map[0 := Unlocking][0 := Returned] == map[0 := Returned];
    forall n | 0 <= n < |steps| ensures Enabled(states[n], steps[n]) && states[n + 1] == Apply(states[n], steps[n]) {
      if n < 4 { } else if n < 7 { } else if n < 9 { } else { }
    }
  }
}
