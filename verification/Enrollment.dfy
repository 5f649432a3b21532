/** Capturing one face: the frame loop, what it reports, and when a template is stored. */
module Enrollment {
  import opened TemplateStore
  import opened ModelChanges
  import opened Options

  /** A frame as the loop sees it: unusable, too dark to search, or searched. */
  datatype Frame = Black | Dark(darkness: real) | Lit(darkness: real, faces: nat)

  datatype EnrollResult = Success | NoFace | MultipleFaces | TooDark | BlackFrames | ModelMismatch | Cancelled

  /** `face` is the number of the frame whose face was taken. */
  datatype Outcome = Outcome(result: EnrollResult, face: Option<nat>, validFrames: nat, darkTries: nat, darkTotal: real)

  datatype Stage = Camera | Detector | Embedder

  datatype Ending = ReadRaises | DetectorRaises

  /** capture returns, or one of the stages raises. */
  datatype Captured = Finished(outcome: Outcome) | Raised(stage: Stage)

  /**
   * What the camera and the two stages do: after `frames` the next read raises, or it gives a lit frame on
   * which the detector raises; and embedding the chosen face may raise.
   */
  datatype Scene = Scene(frames: seq<Frame>, ending: Ending, embedderRaises: bool)

  // ----- the declarative reading -----

  predicate Single(f: Frame) {
    f.Lit? && f.faces == 1
  }

  predicate Several(f: Frame) {
    f.Lit? && f.faces > 1
  }

  function Valid(frames: seq<Frame>): nat {
    if frames == [] then 0 else Valid(frames[..|frames| - 1]) + if frames[|frames| - 1].Black? then 0 else 1
  }

  function Darks(frames: seq<Frame>): nat {
    if frames == [] then 0 else Darks(frames[..|frames| - 1]) + if frames[|frames| - 1].Dark? then 1 else 0
  }

  function Darkness(frames: seq<Frame>): real {
    if frames == [] then 0.0
    else Darkness(frames[..|frames| - 1]) + if frames[|frames| - 1].Black? then 0.0 else frames[|frames| - 1].darkness
  }

  /** How many frames are looked at: up to and including the first with a single face, at most `limit`. */
  function Examined(frames: seq<Frame>, limit: nat): (n: nat)
    requires limit <= |frames|
    ensures n <= limit
    ensures forall i :: 0 <= i < n - 1 ==> !Single(frames[i])
    ensures n < limit ==> n > 0 && Single(frames[n - 1])
  {
    if limit == 0 then 0
    else
      var before := Examined(frames, limit - 1);
      if before > 0 && Single(frames[before - 1]) then before else limit
  }

  /** What the frames alone decide, with no cancel and no failing read. */
  function Classified(frames: seq<Frame>, limit: nat): Outcome
    requires limit <= |frames|
  {
    var n := Examined(frames, limit);
    var seen := frames[..n];
    var result :=
      if n > 0 && Single(frames[n - 1]) then Success
      else if exists i :: 0 <= i < n && Several(frames[i]) then MultipleFaces
      else if forall i :: 0 <= i < n ==> frames[i].Black? then BlackFrames
      else if forall i :: 0 <= i < n ==> !frames[i].Lit? then TooDark
      else NoFace;
    Outcome(result, if result == Success then Some((n - 1) as nat) else None, Valid(seen), Darks(seen), Darkness(seen))
  }

  lemma {:induction false} CountsMeanKinds(frames: seq<Frame>)
    ensures Darks(frames) <= Valid(frames)
    ensures Valid(frames) == 0 <==> forall i :: 0 <= i < |frames| ==> frames[i].Black?
    ensures Valid(frames) == Darks(frames) <==> forall i :: 0 <= i < |frames| ==> !frames[i].Lit?
  {
    if frames == [] {
    } else {
      var n := |frames| - 1;
      CountsMeanKinds(frames[..n]);
      assert forall i :: 0 <= i < n ==> frames[..n][i] == frames[i];
    }
  }

  // ----- the loop -----

  /**
   * Once the event is set it stays set; it is looked at once before each read, after a failing read, and at
   * the end.
   */
  datatype Cancel = Never | Before(check: nat) | DuringRead(read: nat)

  predicate SetAtCheck(c: Cancel, n: nat) {
    (c.Before? && c.check <= n) || (c.DuringRead? && c.read < n)
  }

  predicate SetAfterRead(c: Cancel, n: nat) {
    (c.Before? && c.check <= n) || (c.DuringRead? && c.read <= n)
  }

  const NOTHING := Outcome(Cancelled, None, 0, 0, 0.0)

  /** The frames end before the loop is through: none had a single face, and there are too few. */
  predicate RunsDry(frames: seq<Frame>, maxFrames: nat) {
    |frames| < maxFrames && forall i :: 0 <= i < |frames| ==> !Single(frames[i])
  }

  function Limit(frames: seq<Frame>, maxFrames: nat): (n: nat)
    ensures n <= |frames| && n <= maxFrames
  {
    if |frames| < maxFrames then |frames| else maxFrames
  }

  /** Where the frames end: a failing read looks at the event once more, a raising detector does not. */
  function AtTheEnd(scene: Scene, cancel: Cancel): Captured {
    var n := |scene.frames|;
    if scene.ending.DetectorRaises? then if SetAtCheck(cancel, n) then Finished(NOTHING) else Raised(Detector)
    else if SetAfterRead(cancel, n) then Finished(NOTHING) else Raised(Camera)
  }

  function Capturing(scene: Scene, maxFrames: nat, cancel: Cancel): Captured {
    var limit := Limit(scene.frames, maxFrames);
    if RunsDry(scene.frames, maxFrames) then AtTheEnd(scene, cancel)
    else if SetAtCheck(cancel, Examined(scene.frames, limit)) then Finished(NOTHING)
    else
      var outcome := Classified(scene.frames, limit);
      if outcome.result == Success && scene.embedderRaises then Raised(Embedder) else Finished(outcome)
  }

  /** The outcome of run: a foreign recognizer captures nothing, and a cancel after the capture undoes a success. */
  function Enrolling(scene: Scene, maxFrames: nat, matches: bool, cancel: Cancel, lateCancel: bool): Captured {
    if !matches then Finished(NOTHING.(result := ModelMismatch))
    else
      var captured := Capturing(scene, maxFrames, cancel);
      if captured.Finished? && captured.outcome.result == Success && lateCancel then Finished(NOTHING) else captured
  }

  class EnrollSession {
    const maxFrames: nat
    const store: TemplateFile

    constructor (limit: nat, file: TemplateFile)
      ensures maxFrames == limit && store == file
    {
      maxFrames, store := limit, file;
    }

    method Capture(scene: Scene, cancel: Cancel) returns (r: Captured)
      ensures r == Capturing(scene, maxFrames, cancel)
    {
      hide Valid, Darks, Darkness, Examined, Classified, Capturing;
      var frames := scene.frames;
      var validFrames, darkTries, darkTotal := 0, 0, 0.0;
      var face: Option<nat> := None;
      var sawMultiple := false;
      var i := 0;
      NothingCounted(frames);
      while i < maxFrames
        invariant 0 <= i <= maxFrames && i <= |frames|
        invariant face.None? && forall k :: 0 <= k < i ==> !Single(frames[k])
        invariant sawMultiple <==> exists k :: 0 <= k < i && Several(frames[k])
        invariant validFrames == Valid(frames[..i]) && darkTries == Darks(frames[..i])
            && darkTotal == Darkness(frames[..i])
      {
        if SetAtCheck(cancel, i) {
          SeenEarly(scene, i, maxFrames, cancel);
          return Finished(NOTHING);
        }
        if i == |frames| {
          RanDry(scene, maxFrames, cancel);
          if scene.ending.DetectorRaises? {
            return Raised(Detector);
          }
          return if SetAfterRead(cancel, i) then Finished(NOTHING) else Raised(Camera);
        }
        var captured := frames[i];
        OneMore(frames, i);
        if !captured.Black? {
          darkTotal := darkTotal + captured.darkness;
          validFrames := validFrames + 1;
          if captured.Dark? {
            darkTries := darkTries + 1;
          } else if captured.faces == 1 {
            face := Some(i);
            i := i + 1;
            break;
          } else {
            sawMultiple := sawMultiple || captured.faces > 1;
          }
        }
        i := i + 1;
      }
      LoopIsClassified(scene, i, face.Some?, maxFrames, cancel);
      if SetAtCheck(cancel, i) {
        return Finished(NOTHING);
      }
      if face.Some? {
        if scene.embedderRaises {
          return Raised(Embedder);
        }
        return Finished(Outcome(Success, face, validFrames, darkTries, darkTotal));
      }
      var result :=
        if sawMultiple then MultipleFaces
        else if validFrames == 0 then BlackFrames
        else if validFrames == darkTries then TooDark
        else NoFace;
      return Finished(Outcome(result, None, validFrames, darkTries, darkTotal));
    }

    /**
     * The enrollment: the store is touched only by a success, and is then exactly what the enroll
     * operation leaves. `lateCancel` says whether a cancel landed after the capture.
     */
    method Run(user: User, draft: Draft, replace: bool, recognizer: string, scene: Scene, cancel: Cancel,
               lateCancel: bool)
      returns (r: Result<Captured>, template: Option<Template>)
      modifies store
      ensures template.Some? <==> r.Ok? && r.value.Finished? && r.value.outcome.result == Success
      ensures template.Some? ==>
                Changed(old(store.file), Enroll(user, draft, replace)) == (Enrolled(template.value), store.file)
      ensures template.None? ==> store.file == old(store.file)
      ensures r.Err? ==> Changed(old(store.file), Enroll(user, draft, replace)) == (StoreFailed(r.error), store.file)
      ensures r.Ok? ==> r.value == Enrolling(scene, maxFrames, draft.modelId == recognizer, cancel, lateCancel)
      ensures template.Some? <==>
                && recognizer == draft.modelId && !lateCancel && !scene.embedderRaises
                && FindsFace(scene, maxFrames, cancel)
                && Changed(old(store.file), Enroll(user, draft, replace)).0.Enrolled?
      ensures r.Ok? && EndsIn(r.value, ModelMismatch) <==> recognizer != draft.modelId
    {
      EnrollingExactly(scene, maxFrames, draft.modelId == recognizer, cancel, lateCancel);
      CapturingExactly(scene, maxFrames, cancel);
      hide FindsFace, FindsNone, GivesOut, Classified;
      hide Capturing, Parse, Payload, Build, Saved, LoadAll, Others, NextIdOf, StoredNextId;
      if recognizer != draft.modelId {
        return Ok(Finished(NOTHING.(result := ModelMismatch))), None;
      }
      var captured := Capture(scene, cancel);
      if captured.Raised? || captured.outcome.result != Success {
        return Ok(captured), None;
      }
      if lateCancel {
        return Ok(Finished(NOTHING)), None;
      }
      var stored: Result<Template>;
      if replace {
        stored := store.ReplaceSpace(draft);
      } else {
        stored := store.Append(draft);
      }
      if stored.Err? {
        AddFailing(old(store.file), draft, replace);
        return Err(stored.error), None;
      }
      return Ok(captured), Some(stored.value);
    }
  }

  lemma AddFailing(file: File, draft: Draft, replace: bool)
    ensures Add(file, draft, replace).0.Err? ==> Add(file, draft, replace).1 == file
  {
  }

  lemma NothingCounted(frames: seq<Frame>)
    ensures Valid(frames[..0]) == 0 && Darks(frames[..0]) == 0 && Darkness(frames[..0]) == 0.0
  {
  }

  lemma OneMore(frames: seq<Frame>, i: nat)
    requires i < |frames|
    ensures Valid(frames[..i + 1]) == Valid(frames[..i]) + if frames[i].Black? then 0 else 1
    ensures Darks(frames[..i + 1]) == Darks(frames[..i]) + if frames[i].Dark? then 1 else 0
    ensures Darkness(frames[..i + 1]) == Darkness(frames[..i]) + if frames[i].Black? then 0.0 else frames[i].darkness
  {
    assert frames[..i + 1][..i] == frames[..i];
  }

  lemma SeenEarly(scene: Scene, i: nat, maxFrames: nat, cancel: Cancel)
    requires i <= |scene.frames| && i <= maxFrames && SetAtCheck(cancel, i)
    requires forall k :: 0 <= k < i ==> !Single(scene.frames[k])
    ensures Capturing(scene, maxFrames, cancel) == Finished(NOTHING)
  {
    hide Classified;
    assert Examined(scene.frames, Limit(scene.frames, maxFrames)) >= i;
  }

  lemma RanDry(scene: Scene, maxFrames: nat, cancel: Cancel)
    requires RunsDry(scene.frames, maxFrames)
    ensures Capturing(scene, maxFrames, cancel) == AtTheEnd(scene, cancel)
  {
  }

  /** How the code decides, from its flag and counters. */
  function ByCounters(frames: seq<Frame>, n: nat, found: bool): EnrollResult
    requires n <= |frames|
  {
    if found then Success
    else if exists k :: 0 <= k < n && Several(frames[k]) then MultipleFaces
    else if Valid(frames[..n]) == 0 then BlackFrames
    else if Valid(frames[..n]) == Darks(frames[..n]) then TooDark
    else NoFace
  }

  function AtLoopEnd(frames: seq<Frame>, n: nat, found: bool): Outcome
    requires n <= |frames| && (found ==> n > 0)
  {
    Outcome(ByCounters(frames, n, found), if found then Some(n - 1) else None,
            Valid(frames[..n]), Darks(frames[..n]), Darkness(frames[..n]))
  }

  /** Where the loop stops, its counters and flag are what the classification is made of. */
  lemma LoopIsClassified(scene: Scene, i: nat, found: bool, maxFrames: nat, cancel: Cancel)
    requires i <= |scene.frames| && i <= maxFrames
    requires forall k :: 0 <= k < i - 1 ==> !Single(scene.frames[k])
    requires if found then i > 0 && Single(scene.frames[i - 1]) else i == maxFrames
    requires !found && i > 0 ==> !Single(scene.frames[i - 1])
    ensures Capturing(scene, maxFrames, cancel)
         == if SetAtCheck(cancel, i) then Finished(NOTHING)
            else if found && scene.embedderRaises then Raised(Embedder)
            else Finished(AtLoopEnd(scene.frames, i, found))
  {
    hide Valid, Darks, Darkness;
    var frames := scene.frames;
    var limit := Limit(frames, maxFrames);
    assert Examined(frames, limit) == i;
    assert !RunsDry(frames, maxFrames);
    CountsMeanKinds(frames[..i]);
    assert forall k :: 0 <= k < i ==> frames[..i][k] == frames[k];
  }

  /** The result says which frames there were, both ways. */
  lemma ResultMeansFrames(frames: seq<Frame>, limit: nat)
    requires limit <= |frames|
    ensures var r := Classified(frames, limit);
            && (r.result == Success <==> exists i :: 0 <= i < limit && Single(frames[i]))
            && (r.result == Success ==> r.face.Some? && r.face.value < limit && Single(frames[r.face.value])
                                        && forall k :: 0 <= k < r.face.value ==> !Single(frames[k]))
            && (r.result == MultipleFaces <==> (exists i :: 0 <= i < limit && Several(frames[i]))
                                               && forall i :: 0 <= i < limit ==> !Single(frames[i]))
            && (r.result == BlackFrames <==> forall i :: 0 <= i < limit ==> frames[i].Black?)
            && (r.result == TooDark <==> (exists i :: 0 <= i < limit && frames[i].Dark?)
                                         && forall i :: 0 <= i < limit ==> !frames[i].Lit?)
            && (r.result == NoFace <==> (exists i :: 0 <= i < limit && frames[i].Lit?)
                                        && forall i :: 0 <= i < limit && frames[i].Lit? ==> frames[i].faces == 0)
  {
  }

  // ----- what an enrollment comes to -----

  /** Frame k is the one whose face is taken: the first within the limit with exactly one face. */
  predicate TakesFrame(frames: seq<Frame>, maxFrames: nat, k: nat) {
    && k < |frames| && k < maxFrames && Single(frames[k])
    && forall j :: 0 <= j < k ==> !Single(frames[j])
  }

  predicate NoneSingle(frames: seq<Frame>, n: nat)
    requires n <= |frames|
  {
    forall j :: 0 <= j < n ==> !Single(frames[j])
  }

  /** No check before one of the first n reads, nor the one after them, has seen a cancel. */
  ghost predicate Unseen(cancel: Cancel, n: nat) {
    forall i: nat :: i <= n ==> !SetAtCheck(cancel, i)
  }

  /** The face of some frame is taken, and no check so far has seen a cancel. */
  ghost predicate FindsFace(scene: Scene, maxFrames: nat, cancel: Cancel) {
    exists k: nat :: TakesFrame(scene.frames, maxFrames, k) && Unseen(cancel, k + 1)
  }

  /** All frames within the limit are read, none has a single face, and no check has seen a cancel. */
  ghost predicate FindsNone(scene: Scene, maxFrames: nat, cancel: Cancel) {
    maxFrames <= |scene.frames| && NoneSingle(scene.frames, maxFrames) && Unseen(cancel, maxFrames)
  }

  /** The camera or the detector gives out before a single face was found, and no check has seen a cancel. */
  ghost predicate GivesOut(scene: Scene, maxFrames: nat, cancel: Cancel) {
    && |scene.frames| < maxFrames && NoneSingle(scene.frames, |scene.frames|) && Unseen(cancel, |scene.frames|)
    && (scene.ending.ReadRaises? ==> !SetAfterRead(cancel, |scene.frames|))
  }

  predicate EndsIn(captured: Captured, result: EnrollResult) {
    captured.Finished? && captured.outcome.result == result
  }

  lemma UnseenIsLast(cancel: Cancel, n: nat)
    ensures Unseen(cancel, n) <==> !SetAtCheck(cancel, n)
  {
  }

  lemma LooksUpTo(frames: seq<Frame>, maxFrames: nat)
    ensures var limit := Limit(frames, maxFrames);
            && (forall k: nat :: TakesFrame(frames, maxFrames, k) ==> Examined(frames, limit) == k + 1)
            && (NoneSingle(frames, limit) <==> !exists k: nat :: TakesFrame(frames, maxFrames, k))
            && (NoneSingle(frames, limit) ==> Examined(frames, limit) == limit)
  {
    var limit := Limit(frames, maxFrames);
    var n := Examined(frames, limit);
    if !NoneSingle(frames, limit) {
      assert n > 0 && Single(frames[n - 1]);
      assert TakesFrame(frames, maxFrames, n - 1);
    }
  }

  /**
   * Capturing ends in success exactly when a face is found and embedded; its stages raise exactly when
   * they are reached and do; and it is cancelled in all other cases but those the frames decide.
   */
  lemma CapturingExactly(scene: Scene, maxFrames: nat, cancel: Cancel)
    ensures var r := Capturing(scene, maxFrames, cancel);
            && (EndsIn(r, Success) <==> FindsFace(scene, maxFrames, cancel) && !scene.embedderRaises)
            && (r == Raised(Embedder) <==> FindsFace(scene, maxFrames, cancel) && scene.embedderRaises)
            && (r == Raised(Detector) <==> GivesOut(scene, maxFrames, cancel) && scene.ending.DetectorRaises?)
            && (r == Raised(Camera) <==> GivesOut(scene, maxFrames, cancel) && scene.ending.ReadRaises?)
            && (FindsNone(scene, maxFrames, cancel) ==> r == Finished(Classified(scene.frames, maxFrames)))
            && (EndsIn(r, Cancelled) <==> r == Finished(NOTHING))
            && (EndsIn(r, Cancelled) <==> !FindsFace(scene, maxFrames, cancel) && !GivesOut(scene, maxFrames, cancel)
                                          && !FindsNone(scene, maxFrames, cancel))
  {
    hide Valid, Darks, Darkness, Unseen, NoneSingle, Examined, TakesFrame;
    var frames, limit := scene.frames, Limit(scene.frames, maxFrames);
    LooksUpTo(frames, maxFrames);
    UnseenIsLast(cancel, Examined(frames, limit));
    UnseenIsLast(cancel, |frames|);
    UnseenIsLast(cancel, maxFrames);
    DryExactly(frames, maxFrames);
    ClassifiedExactly(frames, limit);
    if k: nat :| TakesFrame(frames, maxFrames, k) {
      FindsItsFrame(scene, maxFrames, cancel, k);
    }
  }

  lemma FindsItsFrame(scene: Scene, maxFrames: nat, cancel: Cancel, k: nat)
    requires TakesFrame(scene.frames, maxFrames, k)
    ensures FindsFace(scene, maxFrames, cancel) <==> Unseen(cancel, k + 1)
    ensures !GivesOut(scene, maxFrames, cancel) && !FindsNone(scene, maxFrames, cancel)
  {
  }

  lemma DryExactly(frames: seq<Frame>, maxFrames: nat)
    ensures RunsDry(frames, maxFrames) <==> |frames| < maxFrames && NoneSingle(frames, |frames|)
  {
  }

  lemma ClassifiedExactly(frames: seq<Frame>, limit: nat)
    requires limit <= |frames|
    ensures Classified(frames, limit).result == Success <==> !NoneSingle(frames, limit)
    ensures Classified(frames, limit).result != Cancelled && Classified(frames, limit).result != ModelMismatch
  {
    ResultMeansFrames(frames, limit);
  }

  /**
   * A whole enrollment up to the store: it reaches the store exactly when the recognizer is of the
   * draft's space, a face is found and embedded, and no cancel has come since; only a foreign recognizer is a
   * mismatch.
   */
  lemma EnrollingExactly(scene: Scene, maxFrames: nat, matches: bool, cancel: Cancel, lateCancel: bool)
    ensures var r := Enrolling(scene, maxFrames, matches, cancel, lateCancel);
            && (EndsIn(r, Success) <==>
                  matches && !lateCancel && FindsFace(scene, maxFrames, cancel) && !scene.embedderRaises)
            && (EndsIn(r, ModelMismatch) <==> !matches)
            && (matches && !(lateCancel && EndsIn(r, Cancelled)) ==> r == Capturing(scene, maxFrames, cancel))
            && (matches && lateCancel && FindsFace(scene, maxFrames, cancel) && !scene.embedderRaises ==>
                  EndsIn(r, Cancelled))
  {
    hide Capturing, FindsFace, FindsNone, GivesOut, Classified;
    CapturingExactly(scene, maxFrames, cancel);
    if FindsNone(scene, maxFrames, cancel) {
      NoneIsNoSuccess(scene, maxFrames, cancel);
    }
  }

  lemma NoneIsNoSuccess(scene: Scene, maxFrames: nat, cancel: Cancel)
    requires FindsNone(scene, maxFrames, cancel)
    ensures Classified(scene.frames, maxFrames).result != ModelMismatch
  {
    ClassifiedExactly(scene.frames, maxFrames);
  }

  // ----- the counts -----

  predicate IsUsable(f: Frame) {
    !f.Black?
  }

  predicate IsDark(f: Frame) {
    f.Dark?
  }

  function Numbers(frames: seq<Frame>, wanted: Frame -> bool): set<nat> {
    set i: nat | i < |frames| && wanted(frames[i])
  }

  lemma {:induction false} CountsAreCounts(frames: seq<Frame>)
    ensures Valid(frames) == |Numbers(frames, IsUsable)|
    ensures Darks(frames) == |Numbers(frames, IsDark)|
  {
    if frames == [] {
      assert Numbers(frames, IsUsable) == {} && Numbers(frames, IsDark) == {};
    } else {
      CountsAreCounts(frames[..|frames| - 1]);
      OneMoreNumber(frames, IsUsable);
      OneMoreNumber(frames, IsDark);
    }
  }

  lemma OneMoreNumber(frames: seq<Frame>, wanted: Frame -> bool)
    requires frames != []
    ensures |Numbers(frames, wanted)|
         == |Numbers(frames[..|frames| - 1], wanted)| + if wanted(frames[|frames| - 1]) then 1 else 0
  {
    var n: nat := |frames| - 1;
    var before := Numbers(frames[..n], wanted);
    assert Numbers(frames, wanted) == before + if wanted(frames[n]) then {n} else {};
  }

  /** The total is one an average can be taken of: frames all at least as dark as some bound average no less. */
  lemma {:induction false} AverageIsBetween(frames: seq<Frame>, low: real, high: real)
    requires forall i :: 0 <= i < |frames| && !frames[i].Black? ==> low <= frames[i].darkness <= high
    ensures low * (Valid(frames) as real) <= Darkness(frames) <= high * (Valid(frames) as real)
  {
    if frames == [] {
    } else {
      AverageIsBetween(frames[..|frames| - 1], low, high);
      OneMoreTime(low, Valid(frames[..|frames| - 1]));
      OneMoreTime(high, Valid(frames[..|frames| - 1]));
    }
  }

  lemma OneMoreTime(x: real, n: nat)
    ensures x * ((n + 1) as real) == x * (n as real) + x
  {
  }

  /** The statistics of an outcome are those of the frames looked at. */
  lemma StatisticsMeanFrames(frames: seq<Frame>, limit: nat, low: real, high: real)
    requires limit <= |frames|
    requires forall i :: 0 <= i < limit && !frames[i].Black? ==> low <= frames[i].darkness <= high
    ensures var o := Classified(frames, limit);
            var looked := frames[..if o.face.Some? then o.face.value + 1 else limit];
            && o.validFrames == |Numbers(looked, IsUsable)|
            && o.darkTries == |Numbers(looked, IsDark)|
            && low * (o.validFrames as real) <= o.darkTotal <= high * (o.validFrames as real)
  {
    hide Valid, Darks, Darkness, Classified, Numbers;
    var n := Examined(frames, limit);
    CountsAreCounts(frames[..n]);
    AverageIsBetween(frames[..n], low, high);
    OutcomeIsOf(frames, limit);
  }

  lemma OutcomeIsOf(frames: seq<Frame>, limit: nat)
    requires limit <= |frames|
    ensures var o, n := Classified(frames, limit), Examined(frames, limit);
            && n == (if o.face.Some? then o.face.value + 1 else limit)
            && o.validFrames == Valid(frames[..n]) && o.darkTries == Darks(frames[..n])
            && o.darkTotal == Darkness(frames[..n])
  {
    hide Valid, Darks, Darkness;
  }

  // ----- letting go of the camera -----

  class FrameStream {
    var released: bool
    var deviceReleases: nat

    constructor ()
      ensures !released && deviceReleases == 0
    {
      released, deviceReleases := false, 0;
    }

    /** However often it is called, the device is let go once. */
    method Release()
      requires deviceReleases == if released then 1 else 0
      modifies this
      ensures released && deviceReleases == 1
    {
      if released {
        return;
      }
      released := true;
      deviceReleases := deviceReleases + 1;
    }
  }
}
