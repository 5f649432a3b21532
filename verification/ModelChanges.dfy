/**
 * The daemon's model requests: what each does to a user's file when it runs alone, and the proof
 * that running them concurrently under the models lock amounts to running them one after another.
 */
module ModelChanges {
  import opened TemplateStore
  import opened Options

  type User = string

  /**
   * What happens to a file; an enrollment may end without anything to store, and a read or a write that
   * raises (a full disk, say) ends the request without having changed the file.
   */
  datatype Op =
    | Remove(user: User, model: int)
    | Clear(user: User)
    | Enroll(user: User, draft: Draft, replace: bool)
    | NoEnrollment(user: User)
    | Failing(user: User)

  datatype Reply =
    | NoModels
    | FileInvalid
    | ModelNotFound
    | Removed(id: int, remaining: nat)
    | Cleared(count: nat)
    | Enrolled(template: Template)
    | StoreFailed(error: Error)
    | NotEnrolled
    | Models(templates: seq<Template>)
    | Busy
    | InternalError

  function Without(ts: seq<Template>, i: nat): seq<Template>
    requires i < |ts|
  {
    ts[..i] + ts[i + 1..]
  }

  lemma WithoutIsSerializable(ts: seq<Template>, i: nat)
    requires i < |ts| && AllTagged(ts)
    ensures Serializable(Without(ts, i))
  {
  }

  /** The operation run alone. */
  function Changed(file: File, op: Op): (Reply, File) {
    match op
    case NoEnrollment(_) => (NotEnrolled, file)
    case Failing(_) => (InternalError, file)
    case Enroll(_, draft, replace) =>
      var (r, after) := Add(file, draft, replace);
      (if r.Ok? then Enrolled(r.value) else StoreFailed(r.error), after)
    case Clear(_) =>
      (match LoadAll(file)
       case Ok(ts) => (Cleared(|ts|), Missing)
       case Err(NotFound) => (NoModels, file)
       case Err(Empty) => (NoModels, file)
       case Err(Foreign) => (InternalError, file)
       case Err(_) => (Cleared(0), Missing))
    case Remove(_, model) =>
      (match LoadAll(file)
       case Err(NotFound) => (NoModels, file)
       case Err(Empty) => (NoModels, file)
       case Err(Foreign) => (InternalError, file)
       case Err(_) => (FileInvalid, file)
       case Ok(ts) =>
         match Find(ts, model)
         case None => (ModelNotFound, file)
         case Some(i) =>
           LoadedIsTagged(file);
           WithoutIsSerializable(ts, i);
           var remaining := Without(ts, i);
           (Removed(ts[i].id, |remaining|), if remaining == [] then Missing else Saved(file, remaining)))
  }

  /** A removal that succeeds takes away exactly the first template with that id; the rest stays as it was. */
  lemma RemoveTakesOne(file: File, user: User, model: int)
    ensures var (reply, after) := Changed(file, Remove(user, model));
            match LoadAll(file)
            case Err(e) =>
              && after == file
              && reply ==
                   if e.NotFound? || e.Empty? then NoModels else if e.Foreign? then InternalError else FileInvalid
            case Ok(ts) =>
              if exists i :: 0 <= i < |ts| && ts[i].id == model then
                && reply == Removed(model, |ts| - 1)
                && exists i :: && 0 <= i < |ts| && ts[i].id == model && (forall j :: 0 <= j < i ==> ts[j].id != model)
                               && LoadAll(after) == if |ts| == 1 then Err(NotFound) else Ok(ts[..i] + ts[i + 1..])
              else reply == ModelNotFound && after == file
  {
    hide Parse, Payload, NextIdOf, StoredNextId, Saved;
    if LoadAll(file).Ok? {
      var ts := LoadAll(file).value;
      var found := Find(ts, model);
      if found.Some? {
        LoadedIsTagged(file);
        WithoutIsSerializable(ts, found.value);
        WithoutIsTagged(ts, found.value);
        SavedReadsBack(file, Without(ts, found.value));
      }
    }
  }

  lemma WithoutIsTagged(ts: seq<Template>, i: nat)
    requires i < |ts| && AllTagged(ts)
    ensures AllTagged(Without(ts, i))
  {
  }

  /**
   * Clearing leaves no templates, also when the file could not be read, if and only if reading did not fail
   * with an exception other than the store's own; then the file stays and the request fails.
   */
  lemma ClearLeavesNone(file: File, user: User)
    ensures LoadOrEmpty(Changed(file, Clear(user)).1) == Ok([]) <==> LoadAll(file) != Err(Foreign)
    ensures LoadAll(file) == Err(Foreign) ==> Changed(file, Clear(user)) == (InternalError, file)
  {
    hide Parse;
  }

  /** A file whose data holds text that is no number is one: its owner cannot clear it. */
  lemma TextAmongTheDataCannotBeCleared(user: User, text: string)
    ensures Changed(TextAmongTheData(text), Clear(user)) == (InternalError, TextAmongTheData(text))
  {
    hide LoadAll, TextAmongTheData;
    TextIsForeign(text);
  }

  /** _change_models on one file; an exception it lets through is answered as an internal error. */
  method ChangeModels(store: TemplateFile, op: Op) returns (reply: Reply)
    requires op.Remove? || op.Clear?
    modifies store
    ensures (reply, store.file) == Changed(old(store.file), op)
  {
    var loaded := LoadAll(store.file);
    var templates: seq<Template> := [];
    match loaded {
      case Err(NotFound) => return NoModels;
      case Err(Empty) => return NoModels;
      case Err(Foreign) => return InternalError;
      case Err(_) =>
        if !op.Clear? {
          return FileInvalid;
        }
      case Ok(ts) => templates := ts;
    }
    if op.Clear? {
      var _ := store.Delete();
      return Cleared(|templates|);
    }
    var target := Find(templates, op.model);
    if target.None? {
      return ModelNotFound;
    }
    var remaining := Without(templates, target.value);
    if remaining != [] {
      LoadedIsTagged(store.file);
      WithoutIsSerializable(templates, target.value);
      store.Save(remaining);
    } else {
      var _ := store.Delete();
    }
    return Removed(templates[target.value].id, |remaining|);
  }

  // ----- the concurrent system -----

  type Tid = nat

  /** What a handler has decided to do with the file. */
  datatype Plan = Answer(reply: Reply) | RemoveFile(reply: Reply) | Write(reply: Reply, templates: seq<Template>)

  datatype Pc =
    | Start
    | Locked                                       // holds the models lock
    | Loaded(r: Result<seq<Template>>)             // has read the file
    | Planned(plan: Plan)
    | Ready(plan: Plan, mark: int)                 // save() has read the high-water mark again
    | Committed(reply: Reply)                      // still holds the lock
    | Done(reply: Reply)

  datatype Request = Change(op: Op) | ListModels(user: User)

  datatype Thread = Thread(request: Request, pc: Pc)

  /** A committed change, and a list answered after the first `after` changes. */
  datatype Entry = Entry(tid: Tid, op: Op, reply: Reply)
  datatype View = View(user: User, reply: Reply, after: nat)

  datatype State = State(files: map<User, File>, lock: Option<Tid>, threads: map<Tid, Thread>,
                         log: seq<Entry>, views: seq<View>, acquired: seq<Tid>)

  function FileOf(files: map<User, File>, user: User): File {
    if user in files then files[user] else Missing
  }

  ghost predicate Init(s: State) {
    && s.lock.None? && s.log == [] && s.views == [] && s.acquired == []
    && forall t :: t in s.threads ==> s.threads[t].pc == Start
  }

  function ListReply(file: File): Reply {
    match LoadAll(file)
    case Ok(ts) => Models(ts)
    case Err(NotFound) => Models([])
    case Err(Empty) => Models([])
    case Err(Foreign) => InternalError
    case Err(_) => FileInvalid
  }

  /** What a handler decides once it has read the file; an enrollment also reads the mark for its id. */
  function PlanFor(op: Op, r: Result<seq<Template>>, mark: int): Plan {
    match op
    case NoEnrollment(_) => Answer(NotEnrolled)
    case Failing(_) => Answer(InternalError)
    case Clear(_) =>
      (match r
       case Ok(ts) => RemoveFile(Cleared(|ts|))
       case Err(NotFound) => Answer(NoModels)
       case Err(Empty) => Answer(NoModels)
       case Err(Foreign) => Answer(InternalError)
       case Err(_) => RemoveFile(Cleared(0)))
    case Remove(_, model) =>
      (match r
       case Err(NotFound) => Answer(NoModels)
       case Err(Empty) => Answer(NoModels)
       case Err(Foreign) => Answer(InternalError)
       case Err(_) => Answer(FileInvalid)
       case Ok(ts) =>
         match Find(ts, model)
         case None => Answer(ModelNotFound)
         case Some(i) =>
           var remaining := Without(ts, i);
           if remaining == [] then RemoveFile(Removed(ts[i].id, 0))
           else Write(Removed(ts[i].id, |remaining|), remaining))
    case Enroll(_, draft, replace) =>
      var existing: Result<seq<Template>> :=
        if r == Err(NotFound) || r == Err(Empty) then Ok([]) else r;
      match existing
      case Err(e) => Answer(StoreFailed(e))
      case Ok(ts) =>
        match Build(Max(NextIdOf(ts), mark), draft)
        case Err(e) => Answer(StoreFailed(e))
        case Ok(t) => Write(Enrolled(t), (if replace then Others(ts, draft.modelId) else ts) + [t])
  }

  datatype Step =
    | Acquire(tid: Tid)
    | GiveUp(tid: Tid)                 // MODELS_WAIT_S passed: "busy"
    | Read(tid: Tid)                   // load_all
    | Decide(tid: Tid)
    | ReadMark(tid: Tid)               // _stored_next_id inside save
    | Commit(tid: Tid)                 // os.replace, os.remove, or nothing to write
    | Fail(tid: Tid)                   // reading, or writing before the replacement, raises
    | Release(tid: Tid)
    | List(tid: Tid)                   // models_list: one unlocked read
    | OtherTurn                        // anything not touching model files

  predicate Enabled(s: State, step: Step) {
    if step.OtherTurn? then true
    else
      step.tid in s.threads &&
      var x := s.threads[step.tid];
      if x.request.ListModels? then step.List? && x.pc == Start
      else
        match step
        case Acquire(_) => x.pc == Start && s.lock.None?
        case GiveUp(_) => x.pc == Start
        case Read(_) => x.pc == Locked
        case Decide(_) => x.pc.Loaded?
        case ReadMark(_) => x.pc.Planned? && x.pc.plan.Write? && Serializable(x.pc.plan.templates)
        case Commit(_) =>
          || (x.pc.Planned? && !x.pc.plan.Write?)
          || (x.pc.Ready? && x.pc.plan.Write? && Serializable(x.pc.plan.templates))
        case Fail(_) => InSection(x.pc) && !x.pc.Committed?
        case Release(_) => x.pc.Committed?
        case _ => false
  }

  function Moved(s: State, t: Tid, pc: Pc): State
    requires t in s.threads
  {
    s.(threads := s.threads[t := s.threads[t].(pc := pc)])
  }

  /** The file a decided handler leaves. */
  function Executed(file: File, pc: Pc): File
    requires pc.Planned? || (pc.Ready? && pc.plan.Write? ==> Serializable(pc.plan.templates))
    requires pc.Planned? || pc.Ready?
  {
    if pc.plan.RemoveFile? then Missing
    else if pc.Ready? && pc.plan.Write? then
      Holds(Payload(Max(NextIdOf(pc.plan.templates), pc.mark), pc.plan.templates))
    else file
  }

  function Apply(s: State, step: Step): State
    requires Enabled(s, step)
  {
    if step.OtherTurn? then s
    else
      var t := step.tid;
      var x := s.threads[t];
      if x.request.ListModels? then
        var reply := ListReply(FileOf(s.files, x.request.user));
        Moved(s, t, Done(reply)).(views := s.views + [View(x.request.user, reply, |s.log|)])
      else
        var op := x.request.op;
        var file := FileOf(s.files, op.user);
        match step
        case Acquire(_) => Moved(s, t, Locked).(lock := Some(t), acquired := s.acquired + [t])
        case GiveUp(_) => Moved(s, t, Done(Busy))
        case Read(_) => Moved(s, t, Loaded(LoadAll(file)))
        case Decide(_) => Moved(s, t, Planned(PlanFor(op, x.pc.r, StoredNextId(file))))
        case ReadMark(_) => Moved(s, t, Ready(x.pc.plan, StoredNextId(file)))
        case Commit(_) =>
          Moved(s, t, Committed(x.pc.plan.reply)).(files := s.files[op.user := Executed(file, x.pc)],
                                                  log := s.log + [Entry(t, op, x.pc.plan.reply)])
        case Fail(_) =>
          Moved(s, t, Committed(InternalError)).(log := s.log + [Entry(t, Failing(op.user), InternalError)])
        case Release(_) => Moved(s, t, Done(x.pc.reply)).(lock := None)
        case _ => s
  }

  // ----- the sequential execution -----

  /** The user's file after the first n logged operations, run one after another. */
  function Replay(initial: map<User, File>, log: seq<Entry>, n: nat, user: User): File
    requires n <= |log|
  {
    if n == 0 then FileOf(initial, user)
    else
      var before := Replay(initial, log, n - 1, user);
      if log[n - 1].op.user == user then Changed(before, log[n - 1].op).1 else before
  }

  ghost predicate FilesReplayed(initial: map<User, File>, files: map<User, File>, log: seq<Entry>) {
    forall user: User :: FileOf(files, user) == Replay(initial, log, |log|, user)
  }

  predicate Replied(initial: map<User, File>, log: seq<Entry>, k: nat)
    requires k < |log|
  {
    log[k].reply == Changed(Replay(initial, log, k, log[k].op.user), log[k].op).0
  }

  predicate Seen(initial: map<User, File>, log: seq<Entry>, v: View) {
    v.after <= |log| && v.reply == ListReply(Replay(initial, log, v.after, v.user))
  }

  ghost predicate Serial(initial: map<User, File>, s: State) {
    && FilesReplayed(initial, s.files, s.log)
    && (forall k :: 0 <= k < |s.log| ==> Replied(initial, s.log, k))
    && (forall k :: 0 <= k < |s.views| ==> Seen(initial, s.log, s.views[k]))
  }

  predicate InSection(pc: Pc) {
    pc.Locked? || pc.Loaded? || pc.Planned? || pc.Ready? || pc.Committed?
  }

  /** Exactly the lock's owner is in the section, and what it has read is still true of the file. */
  ghost predicate SectionInv(s: State) {
    && (forall t :: t in s.threads && InSection(s.threads[t].pc) ==> s.lock == Some(t) && s.threads[t].request.Change?)
    && (s.lock.Some? ==> s.lock.value in s.threads && InSection(s.threads[s.lock.value].pc))
    && (forall t :: t in s.threads && s.threads[t].request.Change? ==>
          UpToDate(FileOf(s.files, s.threads[t].request.op.user), s.threads[t].request.op, s.threads[t].pc))
  }

  ghost predicate UpToDate(file: File, op: Op, pc: Pc) {
    match pc
    case Loaded(r) => r == LoadAll(file)
    case Planned(plan) => plan == PlanFor(op, LoadAll(file), StoredNextId(file))
    case Ready(plan, mark) =>
      plan == PlanFor(op, LoadAll(file), StoredNextId(file)) && plan.Write? && mark == StoredNextId(file)
    case _ => true
  }

  function Tids(log: seq<Entry>): (r: seq<Tid>)
    ensures |r| == |log|
  {
    seq(|log|, i requires 0 <= i < |log| => log[i].tid)
  }

  /** The log is in the order the lock was acquired; only the present owner may still be missing from it. */
  ghost predicate OrderInv(s: State) {
    if s.lock.Some? && s.lock.value in s.threads && !s.threads[s.lock.value].pc.Committed?
    then s.acquired == Tids(s.log) + [s.lock.value]
    else s.acquired == Tids(s.log)
  }

  ghost predicate Inv(initial: map<User, File>, s: State) {
    Serial(initial, s) && SectionInv(s) && OrderInv(s)
  }

  // ----- proofs -----

  /** A decided handler leaves exactly what the operation run alone would leave, and answers the same. */
  lemma PlanIsTheOperation(file: File, op: Op, pc: Pc)
    requires UpToDate(file, op, pc)
    requires (pc.Planned? && !pc.plan.Write?) || (pc.Ready? && pc.plan.Write? && Serializable(pc.plan.templates))
    ensures (pc.plan.reply, Executed(file, pc)) == Changed(file, op)
  {
    hide Parse, Payload, NextIdOf, FindFrom, IsTagged, Others, StoredNextId, Build;
    LoadedOrEmptyIsTagged(file);
  }

  lemma {:induction false} ReplayPrefix(initial: map<User, File>, a: seq<Entry>, b: seq<Entry>, n: nat, user: User)
    requires n <= |a| && a <= b
    ensures Replay(initial, b, n, user) == Replay(initial, a, n, user)
  {
    hide Changed;
    if n == 0 {
    } else {
      ReplayPrefix(initial, a, b, n - 1, user);
      assert b[n - 1] == a[n - 1];
    }
  }

  lemma FilesStayReplayed(initial: map<User, File>, files: map<User, File>, log: seq<Entry>, last: Entry)
    requires FilesReplayed(initial, files, log)
    ensures FilesReplayed(initial, files[last.op.user := Changed(FileOf(files, last.op.user), last.op).1], log + [last])
  {
    hide Changed;
    var longer := log + [last];
    forall user: User
      ensures FileOf(files[last.op.user := Changed(FileOf(files, last.op.user), last.op).1], user)
          == Replay(initial, longer, |longer|, user)
    {
      ReplayPrefix(initial, log, longer, |log|, user);
      assert longer[|longer| - 1] == last;
    }
  }

  lemma RepliesStay(initial: map<User, File>, log: seq<Entry>, last: Entry, k: nat)
    requires k < |log| && Replied(initial, log, k)
    ensures Replied(initial, log + [last], k)
  {
    hide Changed, Replay;
    ReplayPrefix(initial, log, log + [last], k, log[k].op.user);
  }

  lemma LastIsReplied(initial: map<User, File>, files: map<User, File>, log: seq<Entry>, last: Entry)
    requires FilesReplayed(initial, files, log)
    requires last.reply == Changed(FileOf(files, last.op.user), last.op).0
    ensures Replied(initial, log + [last], |log|)
  {
    hide Changed, Replay;
    ReplayPrefix(initial, log, log + [last], |log|, last.op.user);
  }

  lemma ViewsStay(initial: map<User, File>, log: seq<Entry>, last: Entry, v: View)
    requires Seen(initial, log, v)
    ensures Seen(initial, log + [last], v)
  {
    hide ListReply, Replay;
    ReplayPrefix(initial, log, log + [last], v.after, v.user);
  }

  lemma CommitIsSerial(initial: map<User, File>, s: State, step: Step)
    requires Inv(initial, s) && step.Commit? && Enabled(s, step)
    ensures Serial(initial, Apply(s, step))
  {
    hide Changed, Executed, PlanFor, StoredNextId, LoadAll, ListReply, Replied, Seen, FilesReplayed, Replay, OrderInv;
    var t, x := Apply(s, step), s.threads[step.tid];
    var op := x.request.op;
    PlanIsTheOperation(FileOf(s.files, op.user), op, x.pc);
    var last := Entry(step.tid, op, x.pc.plan.reply);
    FilesStayReplayed(initial, s.files, s.log, last);
    LastIsReplied(initial, s.files, s.log, last);
    forall k | 0 <= k < |t.log| ensures Replied(initial, t.log, k) {
      if k < |s.log| { RepliesStay(initial, s.log, last, k); }
    }
    forall k | 0 <= k < |t.views| ensures Seen(initial, t.log, t.views[k]) {
      ViewsStay(initial, s.log, last, s.views[k]);
    }
  }

  lemma FailIsSerial(initial: map<User, File>, s: State, step: Step)
    requires Inv(initial, s) && step.Fail? && Enabled(s, step)
    ensures Serial(initial, Apply(s, step))
  {
    hide Executed, PlanFor, StoredNextId, LoadAll, ListReply, Replied, Seen, Replay, OrderInv, SectionInv;
    var t, user := Apply(s, step), s.threads[step.tid].request.op.user;
    var last := Entry(step.tid, Failing(user), InternalError);
    FilesStayReplayed(initial, s.files, s.log, last);
    LastIsReplied(initial, s.files, s.log, last);
    forall k | 0 <= k < |t.log| ensures Replied(initial, t.log, k) {
      if k < |s.log| { RepliesStay(initial, s.log, last, k); }
    }
    forall k | 0 <= k < |t.views| ensures Seen(initial, t.log, t.views[k]) {
      ViewsStay(initial, s.log, last, s.views[k]);
    }
  }

  lemma FailKeepsSection(initial: map<User, File>, s: State, step: Step)
    requires Inv(initial, s) && step.Fail? && Enabled(s, step)
    ensures SectionInv(Apply(s, step)) && OrderInv(Apply(s, step))
  {
    hide Serial, Changed, Executed, PlanFor, StoredNextId, LoadAll;
    var t := Apply(s, step);
    assert Tids(t.log) == Tids(s.log) + [step.tid];
  }

  lemma CommitKeepsSection(initial: map<User, File>, s: State, step: Step)
    requires Inv(initial, s) && step.Commit? && Enabled(s, step)
    ensures SectionInv(Apply(s, step)) && OrderInv(Apply(s, step))
  {
    hide Serial, Changed, Executed, PlanFor, StoredNextId, LoadAll;
    var t := Apply(s, step);
    forall u | u in t.threads && t.threads[u].request.Change?
      ensures UpToDate(FileOf(t.files, t.threads[u].request.op.user), t.threads[u].request.op, t.threads[u].pc)
    {
      assert u != step.tid ==> !InSection(s.threads[u].pc);
    }
    assert Tids(t.log) == Tids(s.log) + [step.tid];
  }

  lemma ListIsSerial(initial: map<User, File>, s: State, step: Step)
    requires Inv(initial, s) && step.List? && Enabled(s, step)
    ensures Serial(initial, Apply(s, step))
  {
    hide Changed, ListReply, Replay, OrderInv;
    var x := s.threads[step.tid];
    assert FileOf(s.files, x.request.user) == Replay(initial, s.log, |s.log|, x.request.user);
  }

  lemma StepKeepsInv(initial: map<User, File>, s: State, step: Step)
    requires Inv(initial, s) && Enabled(s, step)
    ensures Inv(initial, Apply(s, step))
  {
    hide Serial, Changed, Executed, PlanFor, StoredNextId, LoadAll, ListReply;
    if step.Commit? {
      CommitIsSerial(initial, s, step);
      CommitKeepsSection(initial, s, step);
    } else if step.Fail? {
      FailIsSerial(initial, s, step);
      FailKeepsSection(initial, s, step);
    } else if step.List? {
      ListIsSerial(initial, s, step);
    } else {
      SameHistory(initial, s, Apply(s, step));
    }
  }

  lemma SameHistory(initial: map<User, File>, s: State, t: State)
    requires t.files == s.files && t.log == s.log && t.views == s.views
    ensures Serial(initial, t) <==> Serial(initial, s)
  {
    hide Changed, ListReply;
  }

  // ----- the log and the requests -----

  /** The entry is the thread's own request, as it was asked for or failing. */
  predicate IsOwn(s: State, e: Entry) {
    && e.tid in s.threads && s.threads[e.tid].request.Change?
    && (e.op == s.threads[e.tid].request.op || e.op == Failing(s.threads[e.tid].request.op.user))
  }

  predicate IsLogged(s: State, t: Tid, reply: Reply) {
    exists k :: 0 <= k < |s.log| && s.log[k].tid == t && s.log[k].reply == reply
  }

  /** A change that was answered, other than by giving up on the lock, was logged with that answer. */
  ghost predicate AnswersInv(s: State) {
    && (forall k :: 0 <= k < |s.log| ==> IsOwn(s, s.log[k]))
    && (forall t :: t in s.threads && s.threads[t].request.Change? ==> Answered(s, t, s.threads[t].pc))
  }

  predicate Answered(s: State, t: Tid, pc: Pc) {
    match pc
    case Committed(reply) => IsLogged(s, t, reply)
    case Done(reply) => reply == Busy || IsLogged(s, t, reply)
    case _ => true
  }

  lemma StepKeepsAnswers(s: State, step: Step)
    requires AnswersInv(s) && Enabled(s, step)
    ensures AnswersInv(Apply(s, step))
  {
    hide Changed, Executed, PlanFor, StoredNextId, LoadAll, ListReply, Payload, InSection;
    var t := Apply(s, step);
    forall k | 0 <= k < |t.log| ensures IsOwn(t, t.log[k]) {
      if k < |s.log| { assert t.log[k] == s.log[k] && IsOwn(s, s.log[k]); }
    }
    if step.Commit? || step.Fail? {
      assert t.log[|s.log|].tid == step.tid;
    }
    forall u | u in t.threads && t.threads[u].request.Change? ensures Answered(t, u, t.threads[u].pc) {
      assert Answered(s, u, s.threads[u].pc);
      forall reply | IsLogged(s, u, reply) ensures IsLogged(t, u, reply) {
        StillLogged(s, t, u, reply);
      }
    }
  }

  lemma StillLogged(s: State, t: State, u: Tid, reply: Reply)
    requires s.log <= t.log && IsLogged(s, u, reply)
    ensures IsLogged(t, u, reply)
  {
    var k :| 0 <= k < |s.log| && s.log[k].tid == u && s.log[k].reply == reply;
    assert t.log[k] == s.log[k];
  }

  // ----- whole runs -----

  ghost predicate IsRun(states: seq<State>, steps: seq<Step>) {
    && |states| == |steps| + 1
    && Init(states[0])
    && forall n :: 0 <= n < |steps| ==> Enabled(states[n], steps[n]) && states[n + 1] == Apply(states[n], steps[n])
  }

  lemma InitInv(s: State)
    requires Init(s)
    ensures Inv(s.files, s)
  {
  }

  lemma {:induction false} RunKeepsInv(states: seq<State>, steps: seq<Step>, n: nat)
    requires IsRun(states, steps) && n < |states|
    ensures Inv(states[0].files, states[n])
  {
    hide Inv, Init, Enabled, Apply;
    if n == 0 {
      InitInv(states[0]);
    } else {
      RunKeepsInv(states, steps, n - 1);
      StepKeepsInv(states[0].files, states[n - 1], steps[n - 1]);
    }
  }

  /**
   * Serializability: at every point of every interleaving each user's file is what the committed
   * operations leave when run one after another, and each was answered as it would have been then.
   */
  lemma ChangesAreSerializable(states: seq<State>, steps: seq<Step>, n: nat, user: User)
    requires IsRun(states, steps) && n < |states|
    ensures var s, initial := states[n], states[0].files;
            && FileOf(s.files, user) == Replay(initial, s.log, |s.log|, user)
            && forall k :: 0 <= k < |s.log| ==>
                 s.log[k].reply == Changed(Replay(initial, s.log, k, s.log[k].op.user), s.log[k].op).0
  {
    hide Changed, Replay, ListReply, SectionInv, OrderInv;
    RunKeepsInv(states, steps, n);
    var s := states[n];
    forall k | 0 <= k < |s.log|
      ensures s.log[k].reply == Changed(Replay(states[0].files, s.log, k, s.log[k].op.user), s.log[k].op).0
    {
      assert Replied(states[0].files, s.log, k);
    }
  }

  lemma {:induction false} RunKeepsAnswers(states: seq<State>, steps: seq<Step>, n: nat)
    requires IsRun(states, steps) && n < |states|
    ensures AnswersInv(states[n])
  {
    hide Enabled, Apply;
    if n == 0 {
    } else {
      RunKeepsAnswers(states, steps, n - 1);
      StepKeepsAnswers(states[n - 1], steps[n - 1]);
    }
  }

  /**
   * The sequential history is made of the clients' own requests, and a client's answer is the one its
   * request has there: a request that is answered was executed in the history, failed there without
   * changing anything, or never got the lock.
   */
  lemma AnswersComeFromTheHistory(states: seq<State>, steps: seq<Step>, n: nat, t: Tid)
    requires IsRun(states, steps) && n < |states| && t in states[n].threads
    requires states[n].threads[t].request.Change? && states[n].threads[t].pc.Done?
        && states[n].threads[t].pc.reply != Busy
    ensures exists k :: var s := states[n];
              && 0 <= k < |s.log| && s.log[k].tid == t && s.log[k].reply == s.threads[t].pc.reply
              && (s.log[k].op == s.threads[t].request.op || s.log[k].op == Failing(s.threads[t].request.op.user))
  {
    hide IsRun;
    RunKeepsAnswers(states, steps, n);
    var s := states[n];
    assert Answered(s, t, s.threads[t].pc);
    var k :| 0 <= k < |s.log| && s.log[k].tid == t && s.log[k].reply == s.threads[t].pc.reply;
    assert IsOwn(s, s.log[k]);
  }

  /** The sequential order is the order in which the lock was taken, and every section that ended was logged once. */
  lemma LogFollowsTheLock(states: seq<State>, steps: seq<Step>, n: nat)
    requires IsRun(states, steps) && n < |states|
    ensures Tids(states[n].log) <= states[n].acquired
    ensures |states[n].acquired| <= |states[n].log| + 1
    ensures states[n].lock.None? ==> states[n].acquired == Tids(states[n].log)
  {
    hide Serial;
    RunKeepsInv(states, steps, n);
  }

  /** An unlocked models_list answers from a state of that sequential history. */
  lemma ListsSeeTheHistory(states: seq<State>, steps: seq<Step>, n: nat, k: nat)
    requires IsRun(states, steps) && n < |states| && k < |states[n].views|
    ensures var s, v := states[n], states[n].views[k];
            && v.after <= |s.log|
            && v.reply == ListReply(Replay(states[0].files, s.log, v.after, v.user))
  {
    hide Changed, Replay, ListReply, SectionInv, OrderInv;
    RunKeepsInv(states, steps, n);
    assert Seen(states[0].files, states[n].log, states[n].views[k]);
  }

  // ----- what a list shows -----

  predicate Lists(reply: Reply, id: int) {
    reply.Models? && exists i :: 0 <= i < |reply.templates| && reply.templates[i].id == id
  }

  /**
   * A list holds exactly the templates of the file, in order: an id is listed if and only if it can be
   * removed, nothing is listed if and only if there is nothing to clear, and a list counts what a clear
   * does. A damaged file is answered as a removal would be.
   */
  lemma ListShowsTheFile(file: File, user: User)
    ensures forall ts :: ListReply(file) == Models(ts) <==> LoadOrEmpty(file) == Ok(ts)
    ensures forall id :: Lists(ListReply(file), id) <==> Changed(file, Remove(user, id)).0.Removed?
    ensures ListReply(file) == Models([]) <==> Changed(file, Clear(user)).0 == NoModels
    ensures ListReply(file).Models? && ListReply(file) != Models([]) ==>
              Changed(file, Clear(user)).0 == Cleared(|ListReply(file).templates|)
    ensures forall id :: !ListReply(file).Models? ==> ListReply(file) == Changed(file, Remove(user, id)).0
    ensures ListReply(file) == FileInvalid <==>
              LoadAll(file).Err? && (LoadAll(file).error.Schema? || LoadAll(file).error.SpaceMismatch?)
  {
    hide Parse, Saved, FindFrom;
    LoadedIsNotEmpty(file);
    if LoadAll(file).Ok? {
      forall id ensures Lists(ListReply(file), id) <==> Find(LoadAll(file).value, id).Some? {
        FoundOrNot(LoadAll(file).value, id);
      }
    }
  }

  lemma FoundOrNot(ts: seq<Template>, id: int)
    ensures Find(ts, id).Some? <==> exists i :: 0 <= i < |ts| && ts[i].id == id
  {
    var found := FindFrom(ts, id, 0);
  }

  /** What was saved is what is listed. */
  lemma SavedIsListed(file: File, ts: seq<Template>)
    requires AllTagged(ts)
    ensures Serializable(ts) && ListReply(Saved(file, ts)) == Models(ts)
  {
    hide LoadAll, Saved;
    SavedReadsBack(file, ts);
  }

  predicate IsProper(op: Op) {
    op.Enroll? ==> op.draft.modelId != "" && IsArray(op.draft.rows)
  }

  function Listed(file: File): seq<Template> {
    if ListReply(file).Models? then ListReply(file).templates else []
  }

  /** How each change shows in the next list, told by its answer. */
  lemma ListAfterChange(file: File, op: Op)
    requires IsProper(op)
    ensures var (reply, after) := Changed(file, op);
            match reply
            case Enrolled(t) =>
              && op.Enroll? && ListReply(file).Models?
              && ListReply(after)
                   == Models((if op.replace then Others(Listed(file), op.draft.modelId) else Listed(file)) + [t])
              && t.modelId == op.draft.modelId && t.title == op.draft.title && t.embeddings == op.draft.rows
            case Removed(id, remaining) =>
              && ListReply(after).Models? && |Listed(after)| == remaining
              && exists i :: && 0 <= i < |Listed(file)| && Listed(file)[i].id == id
                             && (forall j :: 0 <= j < i ==> Listed(file)[j].id != id)
                             && Listed(after) == Listed(file)[..i] + Listed(file)[i + 1..]
            case Cleared(_) => ListReply(after) == Models([])
            case _ => after == file
  {
    hide ParseEntries, EntriesOf, Saved, Build, Others;
    match op {
      case Enroll(user, draft, replace) =>
        if Add(file, draft, replace).0.Ok? {
          EnrolledIsListed(file, draft, replace);
        } else {
          FailedAddKeepsFile(file, draft, replace);
        }
      case Remove(user, model) => RemovedIsNotListed(file, user, model);
      case _ =>
    }
  }

  lemma FailedAddKeepsFile(file: File, draft: Draft, replace: bool)
    ensures Add(file, draft, replace).0.Err? ==> Add(file, draft, replace).1 == file
  {
    hide LoadAll, Saved, Build, Others;
  }

  lemma EnrolledIsListed(file: File, draft: Draft, replace: bool)
    requires draft.modelId != "" && IsArray(draft.rows) && Add(file, draft, replace).0.Ok?
    ensures var (r, after) := Add(file, draft, replace);
            && ListReply(file).Models?
            && ListReply(after)
                 == Models((if replace then Others(Listed(file), draft.modelId) else Listed(file)) + [r.value])
            && r.value.modelId == draft.modelId && r.value.title == draft.title && r.value.embeddings == draft.rows
  {
    hide ParseEntries, EntriesOf, Saved, Others, NextIdOf, StoredNextId, IsMatrix;
    LoadedOrEmptyIsTagged(file);
    ListShowsTheFile(file, "");
    var existing := LoadOrEmpty(file).value;
    BuiltIsTagged(PeekNextId(file, existing), draft);
    var kept := if replace then Others(existing, draft.modelId) else existing;
    SavedIsListed(file, kept + [Add(file, draft, replace).0.value]);
  }

  lemma RemovedIsNotListed(file: File, user: User, model: int)
    ensures var (reply, after) := Changed(file, Remove(user, model));
            if reply.Removed? then
              && reply.id == model && ListReply(after).Models? && |Listed(after)| == reply.remaining
              && exists i :: && 0 <= i < |Listed(file)| && Listed(file)[i].id == model
                             && (forall j :: 0 <= j < i ==> Listed(file)[j].id != model)
                             && Listed(after) == Listed(file)[..i] + Listed(file)[i + 1..]
            else after == file && (reply == NoModels || reply == FileInvalid || reply == InternalError
                                   || reply == ModelNotFound)
  {
    hide LoadAll, Changed, Find, ListReply;
    RemoveTakesOne(file, user, model);
    var after := Changed(file, Remove(user, model)).1;
    ListedIs(file);
    ListedIs(after);
    if LoadAll(file).Ok? && Changed(file, Remove(user, model)).0.Removed? {
      var ts := LoadAll(file).value;
      var i :| && 0 <= i < |ts| && ts[i].id == model && (forall j :: 0 <= j < i ==> ts[j].id != model)
               && LoadAll(after) == if |ts| == 1 then Err(NotFound) else Ok(ts[..i] + ts[i + 1..]);
      assert Listed(after) == Listed(file)[..i] + Listed(file)[i + 1..];
    }
  }

  lemma ListedIs(file: File)
    ensures LoadAll(file).Ok? ==> ListReply(file) == Models(Listed(file)) && Listed(file) == LoadAll(file).value
    ensures LoadAll(file) == Err(NotFound) ==> ListReply(file) == Models([]) && Listed(file) == []
  {
    hide LoadAll;
  }

  // ----- lists over a run -----

  /** Every list of a run shows what could be removed at its place in the sequential history. */
  lemma ViewShowsTheHistory(states: seq<State>, steps: seq<Step>, n: nat, k: nat, id: int)
    requires IsRun(states, steps) && n < |states| && k < |states[n].views|
    ensures var s, v := states[n], states[n].views[k];
            && v.after <= |s.log|
            && var file := Replay(states[0].files, s.log, v.after, v.user);
               && (v.reply.Models? ==> LoadOrEmpty(file) == Ok(v.reply.templates))
               && (Lists(v.reply, id) <==> Changed(file, Remove(v.user, id)).0.Removed?)
               && (!v.reply.Models? ==> v.reply == Changed(file, Remove(v.user, id)).0)
  {
    hide Changed, Replay, ListReply, IsRun, LoadAll;
    ListsSeeTheHistory(states, steps, n, k);
    var v := states[n].views[k];
    ListShowsTheFile(Replay(states[0].files, states[n].log, v.after, v.user), v.user);
  }

  /** None of the logged operations from `from` up to `to` is the user's. */
  predicate IsQuiet(log: seq<Entry>, user: User, from: nat, to: nat)
    requires from <= to <= |log|
  {
    forall j :: from <= j < to ==> log[j].op.user != user
  }

  lemma {:induction false} QuietKeepsFile(initial: map<User, File>, log: seq<Entry>, user: User, from: nat, to: nat)
    requires from <= to <= |log| && IsQuiet(log, user, from, to)
    ensures Replay(initial, log, to, user) == Replay(initial, log, from, user)
  {
    hide Changed;
    if from == to {
    } else {
      QuietKeepsFile(initial, log, user, from, to - 1);
    }
  }

  /** An enrollment that was answered with success is the last template of the user's next list. */
  lemma EnrollmentIsListed(states: seq<State>, steps: seq<Step>, n: nat, k: nat, e: nat)
    requires IsRun(states, steps) && n < |states| && k < |states[n].views| && e < |states[n].log|
    requires var log, v := states[n].log, states[n].views[k];
             e < v.after <= |log| && log[e].op.user == v.user && IsQuiet(log, v.user, e + 1, v.after)
    requires IsProper(states[n].log[e].op) && states[n].log[e].reply.Enrolled?
    ensures var entry, reply := states[n].log[e], states[n].views[k].reply;
            var before := Listed(Replay(states[0].files, states[n].log, e, entry.op.user));
            && entry.op.Enroll?
            && reply == Models((if entry.op.replace then Others(before, entry.op.draft.modelId) else before)
                               + [entry.reply.template])
  {
    hide Changed, ListReply, IsRun, Listed, Others;
    var s, v, entry := states[n], states[n].views[k], states[n].log[e];
    ListsSeeTheHistory(states, steps, n, k);
    ChangesAreSerializable(states, steps, n, v.user);
    var before := Replay(states[0].files, s.log, e, v.user);
    ListAfterChange(before, entry.op);
    QuietKeepsFile(states[0].files, s.log, v.user, e + 1, v.after);
    assert Replay(states[0].files, s.log, e + 1, v.user) == Changed(before, entry.op).1;
  }
}
