/** Model ids over the whole history of a user's template file. */
module TemplateHistory {
  import opened TemplateStore
  import opened Options

  /** Every way this module changes the file: a new template, saving some of the templates, removing the file. */
  datatype Op = Enroll(draft: Draft, replace: bool) | Keep(ids: set<int>) | Delete

  predicate IsProper(op: Op) {
    op.Enroll? ==> op.draft.modelId != "" && IsArray(op.draft.rows)
  }

  predicate AllProper(ops: seq<Op>) {
    forall i :: 0 <= i < |ops| ==> IsProper(ops[i])
  }

  /** The templates with one of the ids, in order. */
  function Select(ts: seq<Template>, ids: set<int>): (r: seq<Template>)
    ensures AllTagged(ts) ==> AllTagged(r)
    ensures |r| <= |ts|
  {
    if ts == [] then []
    else
      var n := |ts| - 1;
      Select(ts[..n], ids) + if ts[n].id in ids then [ts[n]] else []
  }

  function Step(file: File, op: Op): File {
    match op
    case Enroll(draft, replace) => Add(file, draft, replace).1
    case Keep(ids) =>
      (match LoadAll(file)
       case Err(_) => file
       case Ok(ts) =>
         LoadedIsTagged(file);
         Saved(file, Select(ts, ids)))
    case Delete => Missing
  }

  /** The id the operation gives out, if it succeeds in adding a template. */
  function IssuedBy(file: File, op: Op): Option<int> {
    if op.Enroll? && Add(file, op.draft, op.replace).0.Ok?
    then Some(Add(file, op.draft, op.replace).0.value.id)
    else None
  }

  /** The file after the first n operations, starting without one. */
  function After(ops: seq<Op>, n: nat): File
    requires n <= |ops|
  {
    if n == 0 then Missing else Step(After(ops, n - 1), ops[n - 1])
  }

  /** Every id given out by the first n operations. */
  function Issued(ops: seq<Op>, n: nat): set<int>
    requires n <= |ops|
  {
    if n == 0 then {}
    else
      var given := IssuedBy(After(ops, n - 1), ops[n - 1]);
      Issued(ops, n - 1) + if given.Some? then {given.value} else {}
  }

  /** How many ids each life of the file has given out so far; removing the file starts a new life. */
  function Lives(ops: seq<Op>, n: nat): (r: seq<nat>)
    requires n <= |ops|
    ensures r != []
  {
    if n == 0 then [0]
    else
      var before := Lives(ops, n - 1);
      var last := |before| - 1;
      if ops[n - 1].Delete? then before + [0]
      else if IssuedBy(After(ops, n - 1), ops[n - 1]).Some? then before[last := before[last] + 1]
      else before
  }

  function Current(lives: seq<nat>): nat
    requires lives != []
  {
    lives[|lives| - 1]
  }

  /** Some life has given out x. */
  predicate InSomeLife(lives: seq<nat>, x: int) {
    exists i :: 0 <= i < |lives| && 0 <= x < lives[i]
  }

  // ----- one operation -----

  predicate Distinct(ts: seq<Template>) {
    forall i, j :: 0 <= i < j < |ts| ==> ts[i].id != ts[j].id
  }

  predicate IdsBelow(ts: seq<Template>, bound: int) {
    forall i :: 0 <= i < |ts| ==> ts[i].id < bound
  }

  /** The file is readable, its ids are distinct and below the stored mark, and the mark is `count`. */
  ghost predicate WellKept(file: File, count: nat) {
    && LoadOrEmpty(file).Ok?
    && Distinct(LoadOrEmpty(file).value)
    && IdsBelow(LoadOrEmpty(file).value, count)
    && StoredNextId(file) == count
  }

  lemma {:induction false} SelectKeeps(ts: seq<Template>, ids: set<int>)
    ensures forall i :: 0 <= i < |Select(ts, ids)| ==> Select(ts, ids)[i] in ts
    ensures Distinct(ts) ==> Distinct(Select(ts, ids))
  {
    hide AllTagged;
    if ts == [] {
    } else {
      SelectKeeps(ts[..|ts| - 1], ids);
    }
  }

  lemma {:induction false} OthersKeeps(ts: seq<Template>, modelId: string)
    ensures forall i :: 0 <= i < |Others(ts, modelId)| ==> Others(ts, modelId)[i] in ts
    ensures Distinct(ts) ==> Distinct(Others(ts, modelId))
  {
    hide AllTagged;
    if ts == [] {
    } else {
      OthersKeeps(ts[..|ts| - 1], modelId);
    }
  }

  lemma MarkIsNextId(file: File, count: nat)
    requires WellKept(file, count)
    ensures PeekNextId(file, LoadOrEmpty(file).value) == count
  {
    var ts := LoadOrEmpty(file).value;
    assert NextIdOf(ts) <= count;
  }

  lemma SavedIsWellKept(file: File, ts: seq<Template>, count: nat)
    requires AllTagged(ts) && Distinct(ts) && IdsBelow(ts, count)
    requires Max(NextIdOf(ts), StoredNextId(file)) == count
    ensures Serializable(ts) && WellKept(Saved(file, ts), count)
  {
    SavedReadsBack(file, ts);
  }

  lemma EnrollKeeps(file: File, op: Op, count: nat)
    requires WellKept(file, count) && op.Enroll? && IsProper(op) && IssuedBy(file, op).Some?
    ensures IssuedBy(file, op) == Some(count) && WellKept(Step(file, op), count + 1)
  {
    hide Saved, LoadOrEmpty, Build, PeekNextId, Others, NextIdOf, Distinct;
    var existing := LoadOrEmpty(file).value;
    MarkIsNextId(file, count);
    BuiltIsTagged(count, op.draft);
    LoadedOrEmptyIsTagged(file);
    OthersKeeps(existing, op.draft.modelId);
    var t := Add(file, op.draft, op.replace).0.value;
    var kept := if op.replace then Others(existing, op.draft.modelId) else existing;
    NewestIsHighest(kept, t, count);
    SavedIsWellKept(file, kept + [t], count + 1);
  }

  lemma NewestIsHighest(kept: seq<Template>, t: Template, count: nat)
    requires IdsBelow(kept, count) && Distinct(kept) && t.id == count
    ensures IdsBelow(kept + [t], count + 1) && Distinct(kept + [t]) && NextIdOf(kept + [t]) == count + 1
  {
    assert (kept + [t])[|kept|] == t;
  }

  lemma StepKeeps(file: File, op: Op, count: nat)
    requires WellKept(file, count) && IsProper(op)
    ensures op.Delete? ==> WellKept(Step(file, op), 0)
    ensures !op.Delete? && IssuedBy(file, op).None? ==> WellKept(Step(file, op), count)
    ensures IssuedBy(file, op).Some? ==> IssuedBy(file, op) == Some(count) && WellKept(Step(file, op), count + 1)
  {
    if IssuedBy(file, op).Some? {
      EnrollKeeps(file, op, count);
    } else if op.Keep? && LoadAll(file).Ok? {
      KeepKeeps(file, op.ids, count);
    }
  }

  lemma KeepKeeps(file: File, ids: set<int>, count: nat)
    requires WellKept(file, count) && LoadAll(file).Ok?
    ensures WellKept(Step(file, Keep(ids)), count)
  {
    hide Parse, Payload;
    var ts := LoadAll(file).value;
    LoadedIsTagged(file);
    SelectKeeps(ts, ids);
    var kept := Select(ts, ids);
    assert forall i :: 0 <= i < |kept| ==> kept[i].id < count;
    assert NextIdOf(kept) <= count;
    SavedIsWellKept(file, kept, count);
  }

  // ----- whole histories -----

  lemma {:induction false} HistoryKeeps(ops: seq<Op>, n: nat)
    requires AllProper(ops) && n <= |ops|
    ensures WellKept(After(ops, n), Current(Lives(ops, n)))
  {
    hide WellKept, Step, IssuedBy;
    if n == 0 {
      NothingStored();
    } else {
      HistoryKeeps(ops, n - 1);
      StepKeeps(After(ops, n - 1), ops[n - 1], Current(Lives(ops, n - 1)));
      EnrollIsNoDelete(After(ops, n - 1), ops[n - 1]);
    }
  }

  lemma NothingStored()
    ensures WellKept(Missing, 0)
  {
  }

  lemma EnrollIsNoDelete(file: File, op: Op)
    ensures IssuedBy(file, op).Some? ==> !op.Delete?
  {
  }

  /** An id is the number of ids the current life of the file has given out before it. */
  lemma IdCountsTheLife(ops: seq<Op>, n: nat)
    requires AllProper(ops) && n < |ops| && IssuedBy(After(ops, n), ops[n]).Some?
    ensures IssuedBy(After(ops, n), ops[n]).value == Current(Lives(ops, n))
  {
    HistoryKeeps(ops, n);
    StepKeeps(After(ops, n), ops[n], Current(Lives(ops, n)));
  }

  /** Over all lives, the ids given out are exactly the initial segments 0, 1, 2, ... of each life. */
  lemma {:induction false} IssuedAreTheLives(ops: seq<Op>, n: nat)
    requires AllProper(ops) && n <= |ops|
    ensures forall x :: x in Issued(ops, n) <==> InSomeLife(Lives(ops, n), x)
  {
    hide IssuedBy, Step, InSomeLife;
    if n == 0 {
      NothingGivenOut();
    } else {
      IssuedAreTheLives(ops, n - 1);
      var before, now := Lives(ops, n - 1), Lives(ops, n);
      var given := IssuedBy(After(ops, n - 1), ops[n - 1]);
      EnrollIsNoDelete(After(ops, n - 1), ops[n - 1]);
      if given.Some? {
        IdCountsTheLife(ops, n - 1);
        LastLifeGrows(before, now);
      } else if ops[n - 1].Delete? {
        NewLife(before);
      }
    }
  }

  lemma NothingGivenOut()
    ensures forall x :: !InSomeLife([0], x)
  {
  }

  lemma NewLife(before: seq<nat>)
    ensures forall x :: InSomeLife(before + [0], x) <==> InSomeLife(before, x)
  {
    forall x | InSomeLife(before, x) ensures InSomeLife(before + [0], x) {
      var i :| 0 <= i < |before| && 0 <= x < before[i];
      assert (before + [0])[i] == before[i];
    }
  }

  lemma LastLifeGrows(before: seq<nat>, now: seq<nat>)
    requires before != [] && now == before[|before| - 1 := Current(before) + 1]
    ensures forall x :: InSomeLife(now, x) <==> x == Current(before) || InSomeLife(before, x)
  {
    forall x ensures InSomeLife(now, x) <==> x == Current(before) || InSomeLife(before, x) {
      if x == Current(before) {
        assert 0 <= x < now[|before| - 1];
      } else if InSomeLife(before, x) {
        var i :| 0 <= i < |before| && 0 <= x < before[i];
        assert 0 <= x < now[i];
      }
    }
  }

  predicate NoDelete(ops: seq<Op>, n: nat)
    requires n <= |ops|
  {
    forall i :: 0 <= i < n ==> !ops[i].Delete?
  }

  lemma {:induction false} OneLife(ops: seq<Op>, n: nat)
    requires n <= |ops| && NoDelete(ops, n)
    ensures |Lives(ops, n)| == 1
  {
    hide IssuedBy, Step;
    if n == 0 {
    } else {
      OneLife(ops, n - 1);
    }
  }

  /**
   * Id freshness: as long as the file is never deleted, a new id is above every id ever given out,
   * the ids in the file are distinct and were given out, and the stored mark is above all of them.
   */
  lemma IdsAreFresh(ops: seq<Op>, n: nat)
    requires AllProper(ops) && n <= |ops| && NoDelete(ops, n)
    ensures LoadOrEmpty(After(ops, n)).Ok? && Distinct(LoadOrEmpty(After(ops, n)).value)
    ensures forall x :: x in Issued(ops, n) ==> 0 <= x < StoredNextId(After(ops, n))
    ensures IdsBelow(LoadOrEmpty(After(ops, n)).value, StoredNextId(After(ops, n)))
    ensures n < |ops| && IssuedBy(After(ops, n), ops[n]).Some? ==>
              forall x :: x in Issued(ops, n) ==> x < IssuedBy(After(ops, n), ops[n]).value
  {
    hide IssuedBy, Step, LoadOrEmpty, StoredNextId;
    HistoryKeeps(ops, n);
    OneLife(ops, n);
    IssuedAreTheLives(ops, n);
    if n < |ops| && IssuedBy(After(ops, n), ops[n]).Some? {
      IdCountsTheLife(ops, n);
    }
  }

  /** With deletions, a new id is one never given out before exactly when no earlier life gave out more ids. */
  lemma FreshExactlyWhen(ops: seq<Op>, n: nat)
    requires AllProper(ops) && n < |ops| && IssuedBy(After(ops, n), ops[n]).Some?
    ensures var lives := Lives(ops, n);
            IssuedBy(After(ops, n), ops[n]).value !in Issued(ops, n)
            <==> forall i :: 0 <= i < |lives| ==> lives[i] <= Current(lives)
  {
    hide IssuedBy, Step;
    IdCountsTheLife(ops, n);
    IssuedAreTheLives(ops, n);
  }

  /** Removing the file forgets the mark: enrolling, deleting and enrolling again gives out id 0 twice. */
  lemma DeletingReusesIds(draft: Draft)
    requires IsProper(Enroll(draft, false)) && IsMatrix(draft.rows)
    ensures var ops := [Enroll(draft, false), Delete, Enroll(draft, false)];
            IssuedBy(After(ops, 0), ops[0]) == Some(0) && IssuedBy(After(ops, 2), ops[2]) == Some(0)
  {
    var ops := [Enroll(draft, false), Delete, Enroll(draft, false)];
    assert After(ops, 2) == Missing;
    assert LoadOrEmpty(Missing) == Ok([]);
  }
}
