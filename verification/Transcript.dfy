/**
 * One v2 request on the daemon's side, from the validated payload to the last message: what the
 * client is sent, and that the camera and the models lock are given back on every path.
 */
module Transcript {
  import opened Wire
  import opened ModelChanges
  import opened Options
  import Protocol
  import AuthdRequest
  import RequestRuns
  import TemplateStore

  // ----- what the request and its surroundings decide -----

  datatype Job = List(user: string) | Modify(op: Op) | Session(enroll: bool)

  /** `job` is None when a field other than the id is missing or invalid. */
  datatype Payload = Payload(id: RequestId, job: Option<Job>)

  datatype Fault = InvalidDevice | AnyOther

  datatype Run = Raised(fault: Fault) | Outcome(result: string, data: string)

  /**
   * `fault` is raised on the way to the work itself; `frames` are the reports of an uncut session,
   * which ends as `run`; a session whose report cannot be sent is cancelled and ends with `cutData`.
   */
  datatype World = World(allowed: bool, fault: Option<Fault>, lockFree: bool, cameraFree: bool,
                         frames: seq<string>, run: Run, cutData: string, preempted: bool)

  type Size = Message -> nat
  type Show = Reply -> string

  // ----- messages -----

  predicate ShortText(id: RequestId) {
    id.Text? && |id.text| <= 64
  }

  /** The id echoed to the client before the request is validated. */
  function EchoedId(id: RequestId): RequestId {
    if ShortText(id) then id else NullId
  }

  predicate IsValid(p: Payload) {
    ShortText(p.id) && p.id.text != "" && p.job.Some?
  }

  function StartedMessage(id: RequestId): Message {
    Message(AuthdRequest.VERSION, Started, id, "", "")
  }

  function FrameMessage(id: RequestId, report: string): Message {
    Message(AuthdRequest.VERSION, Frame, id, "", report)
  }

  function ResultMessage(id: RequestId, result: string, data: string): Message {
    Message(AuthdRequest.VERSION, Result, id, result, data)
  }

  function CodeOf(reply: Reply): string {
    match reply
    case NoModels => "no_models"
    case FileInvalid => "model_file_invalid"
    case ModelNotFound => "model_not_found"
    case Removed(_, _) => "success"
    case Cleared(_) => "success"
    case Models(_) => "success"
    case Busy => "busy"
    case _ => "internal_error"
  }

  function FaultCode(f: Fault): string {
    if f.InvalidDevice? then "invalid_device" else "internal_error"
  }

  predicate FitsIn(size: Size, m: Message) {
    size(m) <= Protocol.MAX_EVENT_PAYLOAD
  }

  predicate ShortId(id: RequestId) {
    id.NullId? || ShortText(id)
  }

  /** The codes of the results the handler itself makes up; they carry no data. */
  predicate IsOwnCode(code: string) {
    code in ["invalid_request", "forbidden", "busy", "invalid_device", "internal_error"]
  }

  /** The messages this daemon sends at all. */
  predicate IsSent(m: Message) {
    m.v == AuthdRequest.VERSION && RequestRuns.IsEvent(m) && !m.id.OtherId?
  }

  /** `started`, and the handler's own results. */
  predicate IsPlain(m: Message) {
    && IsSent(m) && ShortId(m.id) && m.detail == ""
    && ((m.kind.Started? && m.result == "") || (m.kind.Result? && IsOwnCode(m.result)))
  }

  /** The encoder is short enough on the handler's own messages. */
  ghost predicate PlainFits(size: Size) {
    forall m: Message :: IsPlain(m) ==> FitsIn(size, m)
  }

  function IdLength(id: RequestId): nat {
    if id.Text? then |id.text| else 0
  }

  function TextLength(m: Message): nat {
    IdLength(m.id) + |m.result| + |m.detail|
  }

  /**
   * Every encoder that spends, on the messages this daemon sends, at most twelve bytes on a character, which
   * is what an escaped surrogate pair takes, and at most a thousand besides is short enough.
   */
  lemma EscapingEncoderFits(size: Size)
    requires forall m: Message :: IsSent(m) ==> size(m) <= 1000 + 12 * TextLength(m)
    ensures PlainFits(size)
  {
    forall m: Message | IsPlain(m) ensures FitsIn(size, m) {
      assert |m.result| <= 15;
      assert size(m) <= 1000 + 12 * TextLength(m);
    }
  }

  function Digits(n: nat): nat {
    if n < 10 then 1 else 1 + Digits(n / 10)
  }

  /** Encoders that write out every text, the kind and the digits of the version are among them. */
  lemma SomeEncoderFits() returns (size: Size)
    ensures PlainFits(size)
    ensures forall m: Message :: size(m) >= WrittenLength(m)
  {
    size := (m: Message) => 100 + WrittenLength(m);
    forall m: Message | IsSent(m) ensures size(m) <= 1000 + 12 * TextLength(m) {
      assert Digits(m.v) == 1;
    }
    EscapingEncoderFits(size);
  }

  function WrittenLength(m: Message): nat {
    TextLength(m) + Digits(if m.v < 0 then -m.v else m.v) + if m.kind.OtherKind? then |m.kind.name| else 12
  }

  // ----- what the client is told when every socket write succeeds -----

  /** The reports up to the first that is too big to send. */
  function Sendable(size: Size, id: RequestId, frames: seq<string>): (r: seq<string>)
    ensures r <= frames
  {
    if frames == [] || !FitsIn(size, FrameMessage(id, frames[0])) then []
    else [frames[0]] + Sendable(size, id, frames[1..])
  }

  function FrameMessages(id: RequestId, frames: seq<string>): (r: seq<Message>)
    ensures |r| == |frames|
    ensures forall i :: 0 <= i < |r| ==> r[i].kind.Frame? && r[i].v == AuthdRequest.VERSION && r[i].id == id
  {
    seq(|frames|, i requires 0 <= i < |frames| => FrameMessage(id, frames[i]))
  }

  /** How the session ends, given whether all its reports could be sent. */
  function EndOfRun(w: World, uncut: bool): Run {
    var run := if uncut then w.run else Outcome("cancelled", w.cutData);
    if run.Outcome? && run.result == "cancelled" && w.preempted then run.(result := "preempted") else run
  }

  function RunResult(id: RequestId, run: Run): Message {
    match run
    case Raised(f) => ResultMessage(id, FaultCode(f), "")
    case Outcome(result, data) => ResultMessage(id, result, data)
  }

  /** Whether a camera session gets to the point of telling the client it started. */
  predicate Begins(enroll: bool, w: World) {
    w.fault.None? && (enroll ==> w.lockFree) && w.cameraFree
  }

  /** An exception of the models request is answered without data. */
  function AnswerMessage(id: RequestId, reply: Reply, show: Show): Message {
    ResultMessage(id, CodeOf(reply), if reply.InternalError? then "" else show(reply))
  }

  /** The one result meant for a valid, allowed request, and the events before it. */
  function Meant(id: RequestId, job: Job, w: World, file: File, size: Size, show: Show): (seq<Message>, Message) {
    match job
    case List(_) =>
      if w.fault.Some? then ([], ResultMessage(id, FaultCode(w.fault.value), ""))
      else
        ([], AnswerMessage(id, ListReply(file), show))
    case Modify(op) =>
      if !w.lockFree then ([], ResultMessage(id, "busy", ""))
      else if w.fault.Some? then ([], ResultMessage(id, FaultCode(w.fault.value), ""))
      else
        ([], AnswerMessage(id, Changed(file, op).0, show))
    case Session(enroll) =>
      if w.fault.Some? then ([], ResultMessage(id, FaultCode(w.fault.value), ""))
      else if !Begins(enroll, w) then ([], ResultMessage(id, "busy", ""))
      else
        var sent := Sendable(size, id, w.frames);
        ([StartedMessage(id)] + FrameMessages(id, sent), RunResult(id, EndOfRun(w, sent == w.frames)))
  }

  type File = TemplateStore.File

  /** A result too big to send is replaced. */
  function Told(p: Payload, w: World, file: File, size: Size, show: Show): seq<Message> {
    if !IsValid(p) then [ResultMessage(EchoedId(p.id), "invalid_request", "")]
    else if !w.allowed then [ResultMessage(p.id, "forbidden", "")]
    else
      var (events, result) := Meant(p.id, p.job.value, w, file, size, show);
      events + [if FitsIn(size, result) then result else ResultMessage(p.id, "internal_error", "")]
  }

  /** The user's model file afterwards; an enrollment's own write is not part of this. */
  function FileAfter(p: Payload, w: World, file: File): File {
    if IsValid(p) && w.allowed && p.job.value.Modify? && w.lockFree && w.fault.None?
    then Changed(file, p.job.value.op).1
    else file
  }

  // ----- the connection and the brackets -----

  /** `fails(n)` says whether the n-th socket write fails; a failed write delivers nothing. */
  class Channel {
    const fails: nat -> bool
    const size: Size
    var writes: nat
    var broken: bool
    var delivered: seq<Message>

    constructor (willFail: nat -> bool, sizes: Size)
      ensures fails == willFail && size == sizes && delivered == [] && !broken
    {
      fails, size, writes, broken, delivered := willFail, sizes, 0, false, [];
    }

    method Send(m: Message) returns (ok: bool)
      modifies this
      ensures ok ==> FitsIn(size, m) && delivered == old(delivered) + [m] && broken == old(broken)
      ensures !ok ==> delivered == old(delivered) && ((!FitsIn(size, m) && broken == old(broken)) || broken)
    {
      if size(m) > Protocol.MAX_EVENT_PAYLOAD {
        return false;
      }
      writes := writes + 1;
      if fails(writes) {
        broken := true;
        return false;
      }
      delivered := delivered + [m];
      return true;
    }
  }

  /** Something a handler takes and must give back: the models lock, the camera. */
  class Bracket {
    var held: bool
    var taken: nat
    var givenBack: nat

    constructor ()
      ensures !held && taken == 0 && givenBack == 0
    {
      held, taken, givenBack := false, 0, 0;
    }

    method Acquire(free: bool) returns (ok: bool)
      requires !held
      modifies this
      ensures ok == free == held && givenBack == old(givenBack)
      ensures taken == old(taken) + if ok then 1 else 0
    {
      ok := free;
      if ok {
        held, taken := true, taken + 1;
      }
    }

    method Release()
      requires held
      modifies this
      ensures !held && taken == old(taken) && givenBack == old(givenBack) + 1
    {
      held, givenBack := false, givenBack + 1;
    }
  }

  // ----- the handler -----

  /** How a call ended: normally, or with an exception. */
  datatype Flow = Returned | Threw(fault: Fault)

  /** No result yet: nothing, or `started` and frames. */
  predicate Opening(ms: seq<Message>) {
    (ms != [] ==> ms[0].kind.Started?) && forall i :: 0 < i < |ms| ==> ms[i].kind.Frame?
  }

  /** At most one result, and nothing after it. */
  predicate WellFormed(ms: seq<Message>) {
    Opening(ms) || RequestRuns.IsTranscript(ms)
  }

  lemma ResultCloses(ms: seq<Message>, m: Message)
    requires Opening(ms) && m.kind.Result?
    ensures RequestRuns.IsTranscript(ms + [m])
  {
  }

  class Handler {
    const conn: Channel
    const lock: Bracket
    const camera: Bracket
    const store: TemplateStore.TemplateFile
    const show: Show

    constructor (channel: Channel, modelsLock: Bracket, theCamera: Bracket, file: TemplateStore.TemplateFile,
                 rendering: Show)
      ensures conn == channel && lock == modelsLock && camera == theCamera && store == file && show == rendering
    {
      conn, lock, camera, store, show := channel, modelsLock, theCamera, file, rendering;
    }

    predicate Balanced()
      reads lock, camera
    {
      lock != camera && !lock.held && !camera.held && lock.taken == lock.givenBack && camera.taken == camera.givenBack
    }

    method SendResult(id: RequestId, result: string, data: string) returns (flow: Flow)
      modifies conn
      ensures flow.Returned? ==> conn.delivered == old(conn.delivered) + [ResultMessage(id, result, data)]
                                 && FitsIn(conn.size, ResultMessage(id, result, data))
                                 && conn.broken == old(conn.broken)
      ensures flow.Threw? ==> conn.delivered == old(conn.delivered) && flow.fault.AnyOther?
      ensures flow.Threw? ==> conn.broken || !FitsIn(conn.size, ResultMessage(id, result, data))
      ensures old(conn.broken) ==> conn.broken
    {
      var ok := conn.Send(ResultMessage(id, result, data));
      flow := if ok then Returned else Threw(AnyOther);
    }

    method ModelsRequest(id: RequestId, job: Job, w: World) returns (flow: Flow)
      requires (job.List? || (job.Modify? && (job.op.Remove? || job.op.Clear?))) && Balanced() && !conn.broken
      requires conn.delivered == []
      modifies conn, lock, store
      ensures Balanced()
      ensures store.file == (if job.Modify? && w.lockFree && w.fault.None? then Changed(old(store.file), job.op).1
                             else old(store.file))
      ensures Ended(id, job, w, old(store.file), flow)
    {
      if job.List? {
        if w.fault.Some? {
          return Threw(w.fault.value);
        }
        var reply := ListReply(store.file);
        if reply.InternalError? {
          return Threw(AnyOther);
        }
        flow := SendResult(id, CodeOf(reply), show(reply));
        return;
      }
      var free := lock.Acquire(w.lockFree);
      if !free {
        flow := SendResult(id, "busy", "");
        return;
      }
      if w.fault.Some? {
        lock.Release();
        return Threw(w.fault.value);
      }
      var reply := ChangeModels(store, job.op);
      lock.Release();
      if reply.InternalError? {
        return Threw(AnyOther);
      }
      flow := SendResult(id, CodeOf(reply), show(reply));
    }

    /** What the handler of a valid request has sent when it returns or throws. */
    ghost predicate Ended(id: RequestId, job: Job, w: World, file: File, flow: Flow)
      reads conn
    {
      var (events, result) := Meant(id, job, w, file, conn.size, show);
      && (flow.Returned? ==> RequestRuns.IsTranscript(conn.delivered))
      && (flow.Threw? ==> Opening(conn.delivered))
      && AllMine(id, conn.delivered)
      && (!conn.broken ==>
            && (flow.Returned? ==> conn.delivered == events + [result] && FitsIn(conn.size, result))
            && (flow.Threw? ==> conn.delivered == events
                                && (result == ResultMessage(id, FaultCode(flow.fault), "")
                                    || (flow.fault.AnyOther? && !FitsIn(conn.size, result)))))
    }

    /** The session's run: one frame event per report until one cannot be sent. */
    method RunSession(id: RequestId, w: World) returns (uncut: bool)
      requires conn.delivered == [StartedMessage(id)] && camera.held
      modifies conn
      ensures Opening(conn.delivered) && conn.delivered != [] && AllMine(id, conn.delivered)
      ensures old(conn.broken) ==> conn.broken
      ensures uncut ==> conn.broken == old(conn.broken)
      ensures !conn.broken ==>
                var sent := Sendable(conn.size, id, w.frames);
                conn.delivered == [StartedMessage(id)] + FrameMessages(id, sent) && uncut == (sent == w.frames)
    {
      var i := 0;
      while i < |w.frames|
        invariant 0 <= i <= |w.frames|
        invariant conn.broken == old(conn.broken)
        invariant conn.delivered == [StartedMessage(id)] + FrameMessages(id, w.frames[..i])
        invariant forall k :: 0 <= k < i ==> FitsIn(conn.size, FrameMessage(id, w.frames[k]))
      {
        var ok := conn.Send(FrameMessage(id, w.frames[i]));
        if !ok {
          if !conn.broken {
            SendableIs(conn.size, id, w.frames, i);
          }
          return false;
        }
        assert FrameMessages(id, w.frames[..i + 1])
            == FrameMessages(id, w.frames[..i]) + [FrameMessage(id, w.frames[i])];
        i := i + 1;
      }
      SendableIs(conn.size, id, w.frames, i);
      assert w.frames[..i] == w.frames;
      return true;
    }

    /** What is sent, or thrown, once the session's run is over. */
    method SendOutcome(id: RequestId, w: World, uncut: bool) returns (flow: Flow)
      modifies conn
      ensures var m := RunResult(id, EndOfRun(w, uncut));
              && (flow.Returned? ==> conn.delivered == old(conn.delivered) + [m])
              && (flow.Returned? ==> FitsIn(conn.size, m) && conn.broken == old(conn.broken))
              && (flow.Threw? ==> conn.delivered == old(conn.delivered))
              && (flow.Threw? ==> m == ResultMessage(id, FaultCode(flow.fault), "")
                                  || (flow.fault.AnyOther? && (conn.broken || !FitsIn(conn.size, m))))
      ensures old(conn.broken) ==> conn.broken
    {
      match if uncut then w.run else Outcome("cancelled", w.cutData) {
        case Raised(f) =>
          flow := Threw(f);
        case Outcome(outcome, data) =>
          var result := outcome;
          if result == "cancelled" && w.preempted {
            result := "preempted";
          }
          flow := SendResult(id, result, data);
      }
    }

    method CameraSession(id: RequestId, enroll: bool, w: World) returns (flow: Flow)
      requires ShortText(id) && Balanced() && !conn.broken && conn.delivered == [] && PlainFits(conn.size)
      modifies conn, lock, camera
      ensures Balanced()
      ensures Ended(id, Session(enroll), w, store.file, flow)
    {
      hide IsValid, Changed, ListReply, Sendable, EndOfRun;
      if w.fault.Some? {
        return Threw(w.fault.value);
      }
      if enroll {
        var free := lock.Acquire(w.lockFree);
        if !free {
          flow := SendResult(id, "busy", "");
          return;
        }
      }
      var granted := camera.Acquire(w.cameraFree);
      if !granted {
        flow := SendResult(id, "busy", "");
        if enroll {
          lock.Release();
        }
        return;
      }
      var begun := conn.Send(StartedMessage(id));
      if !begun {
        camera.Release();
        if enroll {
          lock.Release();
        }
        return Threw(AnyOther);
      }
      var uncut := RunSession(id, w);
      camera.Release();
      if enroll {
        lock.Release();
      }
      ResultCloses(conn.delivered, RunResult(id, EndOfRun(w, uncut)));
      flow := SendOutcome(id, w, uncut);
    }

    /** Never throws: every failure becomes a result, if it can still be sent. */
    method Handle(p: Payload, w: World)
      requires Balanced() && !conn.broken && conn.delivered == [] && PlainFits(conn.size)
      requires p.job.Some? && p.job.value.Modify? ==> p.job.value.op.Remove? || p.job.value.op.Clear?
      modifies conn, lock, camera, store
      ensures Balanced()
      ensures WellFormed(conn.delivered)
      ensures AllMine(EchoedId(p.id), conn.delivered)
      ensures !conn.broken ==> conn.delivered == Told(p, w, old(store.file), conn.size, show)
      ensures store.file == FileAfter(p, w, old(store.file))
    {
      hide Changed, ListReply, Meant;
      if !IsValid(p) {
        var _ := SendResult(EchoedId(p.id), "invalid_request", "");
        return;
      }
      if !w.allowed {
        var _ := SendResult(p.id, "forbidden", "");
        return;
      }
      var job := p.job.value;
      var flow: Flow;
      if job.Session? {
        flow := CameraSession(p.id, job.enroll, w);
      } else {
        flow := ModelsRequest(p.id, job, w);
      }
      if flow.Threw? {
        ResultCloses(conn.delivered, ResultMessage(p.id, FaultCode(flow.fault), ""));
        var _ := SendResult(p.id, FaultCode(flow.fault), "");
      }
    }
  }

  predicate AllMine(id: RequestId, ms: seq<Message>) {
    forall i :: 0 <= i < |ms| ==> ms[i].v == AuthdRequest.VERSION && ms[i].id == id && RequestRuns.IsEvent(ms[i])
  }

  lemma {:induction false} SendableIs(size: Size, id: RequestId, frames: seq<string>, n: nat)
    requires n <= |frames|
    requires forall k :: 0 <= k < n ==> FitsIn(size, FrameMessage(id, frames[k]))
    requires n < |frames| ==> !FitsIn(size, FrameMessage(id, frames[n]))
    ensures Sendable(size, id, frames) == frames[..n]
  {
    if n == 0 {
    } else {
      SendableIs(size, id, frames[1..], n - 1);
      assert frames[..n] == [frames[0]] + frames[1..][..n - 1];
    }
  }

  // ----- laws of the transcript -----

  /** When no write fails the client gets exactly one result, last, after nothing or `started frame*`. */
  lemma ToldIsTranscript(p: Payload, w: World, file: File, size: Size, show: Show)
    ensures RequestRuns.IsTranscript(Told(p, w, file, size, show))
    ensures AllMine(EchoedId(p.id), Told(p, w, file, size, show))
  {
    hide Changed, ListReply, Sendable, EndOfRun;
  }

  /** Such a transcript is one the client that sent the id accepts in full, even when the id itself was refused. */
  lemma ToldIsExpected(p: Payload, w: World, file: File, size: Size, show: Show)
    requires p.id.Text?
    ensures RequestRuns.Expected(p.id.text, Told(p, w, file, size, show))
  {
    hide Meant;
    ToldIsTranscript(p, w, file, size, show);
  }

  /** A result as it is sent: one too big to send is an internal error. */
  function Sent(size: Size, id: RequestId, result: string, data: string): Message {
    var m := Message(2, Result, id, result, data);
    if size(m) <= 65536 then m else Message(2, Result, id, "internal_error", "")
  }

  /** A request is refused as invalid unless it has a text id of 1 to 64 characters and all its fields are in order. */
  lemma RefusalIsTold(p: Payload, w: World, file: File, size: Size, show: Show)
    ensures var valid := p.id.Text? && 0 < |p.id.text| <= 64 && p.job.Some?;
            var echoed := if p.id.Text? && |p.id.text| <= 64 then p.id else NullId;
            && (!valid ==> Told(p, w, file, size, show) == [Message(2, Result, echoed, "invalid_request", "")])
            && (valid && !w.allowed ==> Told(p, w, file, size, show) == [Message(2, Result, p.id, "forbidden", "")])
            && (!valid || !w.allowed ==> FileAfter(p, w, file) == file)
  {
  }

  predicate IsAllowed(p: Payload, w: World) {
    IsValid(p) && w.allowed
  }

  /** The templates of a list, or what is wrong with the file, which is damaged if it breaks the store's rules. */
  lemma ListIsTold(p: Payload, w: World, file: File, size: Size, show: Show)
    requires IsAllowed(p, w) && p.job.value.List? && w.fault.None?
    ensures var told, loaded := Told(p, w, file, size, show), TemplateStore.LoadOrEmpty(file);
            && (loaded.Ok? ==> told == [Sent(size, p.id, "success", show(Models(loaded.value)))])
            && (loaded == TemplateStore.Err(TemplateStore.Foreign) ==> told == [Sent(size, p.id, "internal_error", "")])
            && (loaded.Err? && !loaded.error.Foreign? ==>
                  told == [Sent(size, p.id, "model_file_invalid", show(FileInvalid))])
            && FileAfter(p, w, file) == file
  {
    hide TemplateStore.Parse;
  }

  /** A removal or a clear is answered by what it did to the file, and busy if the lock is not free. */
  lemma ChangeIsTold(p: Payload, w: World, file: File, size: Size, show: Show)
    requires IsAllowed(p, w) && p.job.value.Modify? && w.fault.None?
    requires p.job.value.op.Remove? || p.job.value.op.Clear?
    ensures var told, (reply, after) := Told(p, w, file, size, show), Changed(file, p.job.value.op);
            && (!w.lockFree ==> told == [Sent(size, p.id, "busy", "")] && FileAfter(p, w, file) == file)
            && (w.lockFree ==>
                  && FileAfter(p, w, file) == after
                  && (reply.Removed? || reply.Cleared? ==> told == [Sent(size, p.id, "success", show(reply))])
                  && (reply.NoModels? ==> told == [Sent(size, p.id, "no_models", show(reply))])
                  && (reply.ModelNotFound? ==> told == [Sent(size, p.id, "model_not_found", show(reply))])
                  && (reply.FileInvalid? ==> told == [Sent(size, p.id, "model_file_invalid", show(reply))])
                  && (reply.InternalError? ==> told == [Sent(size, p.id, "internal_error", "")]))
  {
    hide TemplateStore.LoadAll, Changed;
  }

  /** What the operation does not reach is answered by its fault, and leaves the file. */
  lemma FaultIsTold(p: Payload, w: World, file: File, size: Size, show: Show)
    requires IsAllowed(p, w) && w.fault.Some? && (p.job.value.Modify? ==> w.lockFree)
    ensures Told(p, w, file, size, show)
         == [Sent(size, p.id, if w.fault.value.InvalidDevice? then "invalid_device" else "internal_error", "")]
    ensures FileAfter(p, w, file) == file
  {
    hide Changed, ListReply;
  }

  /** All reports before number n fit, and number n, if there is one, does not. */
  predicate IsCutAt(size: Size, id: RequestId, frames: seq<string>, n: nat) {
    && n <= |frames|
    && (forall i :: 0 <= i < n ==> FitsIn(size, FrameMessage(id, frames[i])))
    && (n < |frames| ==> !FitsIn(size, FrameMessage(id, frames[n])))
  }

  /**
   * A camera session is busy if it cannot have the lock it needs or the camera. Otherwise the client hears
   * that it started, the reports up to the first that is too big, and how it ended: as cancelled if a report
   * was too big, as pre-empted instead of cancelled if a login took the camera, and else as it did.
   */
  lemma SessionIsTold(p: Payload, w: World, file: File, size: Size, show: Show, n: nat)
    requires IsAllowed(p, w) && p.job.value.Session? && w.fault.None? && IsCutAt(size, p.id, w.frames, n)
    ensures var told := Told(p, w, file, size, show);
            if (p.job.value.enroll && !w.lockFree) || !w.cameraFree then told == [Sent(size, p.id, "busy", "")]
            else
              && |told| == n + 2 && told[0] == Message(2, Started, p.id, "", "")
              && (forall i :: 0 <= i < n ==> told[i + 1] == Message(2, Frame, p.id, "", w.frames[i]))
              && told[n + 1] ==
                 (if n < |w.frames| then
                    Sent(size, p.id, if w.preempted then "preempted" else "cancelled", w.cutData)
                  else
                    match w.run
                    case Raised(f) =>
                      Sent(size, p.id, if f.InvalidDevice? then "invalid_device" else "internal_error", "")
                    case Outcome(result, data) =>
                      Sent(size, p.id, if result == "cancelled" && w.preempted then "preempted" else result, data))
  {
    SendableIs(size, p.id, w.frames, n);
    assert n == |w.frames| <==> w.frames[..n] == w.frames;
  }

  /** Everything the client is told fits into an event frame. */
  lemma ToldFits(p: Payload, w: World, file: File, size: Size, show: Show)
    requires PlainFits(size)
    ensures forall m :: m in Told(p, w, file, size, show) ==> IsSent(m) && FitsIn(size, m)
  {
    hide Changed, ListReply, EndOfRun;
    if IsValid(p) && p.job.value.Session? {
      SendableFits(size, p.id, w.frames);
    }
  }

  lemma {:induction false} SendableFits(size: Size, id: RequestId, frames: seq<string>)
    ensures forall r :: r in Sendable(size, id, frames) ==> FitsIn(size, FrameMessage(id, r))
  {
    if frames == [] || !FitsIn(size, FrameMessage(id, frames[0])) {
    } else {
      SendableFits(size, id, frames[1..]);
    }
  }

  type Encoder = Message -> Bytes

  /** What is sent is decoded to what was meant, and takes the bytes it was measured at. */
  ghost predicate Speaks(encode: Encoder, decode: Decoder, size: Size) {
    forall m: Message :: IsSent(m) ==> decode(encode(m)) == Some(m) && 1 <= |encode(m)| == size(m)
  }

  function Encoded(encode: Encoder, ms: seq<Message>): (bodies: seq<Bytes>)
    ensures |bodies| == |ms|
  {
    seq(|ms|, i requires 0 <= i < |ms| => encode(ms[i]))
  }

  lemma EncodedCarries(encode: Encoder, decode: Decoder, size: Size, ms: seq<Message>)
    requires Speaks(encode, decode, size) && forall m :: m in ms ==> IsSent(m) && FitsIn(size, m)
    ensures AuthdRequest.AllFit(Encoded(encode, ms)) && RequestRuns.Carries(decode, Encoded(encode, ms), ms)
  {
    forall i | 0 <= i < |ms|
      ensures Fits(Encoded(encode, ms)[i], AuthdRequest.MAX_FRAME) && decode(Encoded(encode, ms)[i]) == Some(ms[i])
    {
      assert ms[i] in ms;
    }
  }

  /**
   * From the daemon's handler to the client's signals: whatever the request and its surroundings, a client
   * whose daemon's writes succeed reports the transcript, however the bytes of its frames are cut.
   */
  lemma ClientHearsTheTranscript(p: Payload, w: World, file: File, size: Size, show: Show, encode: Encoder,
                                 decode: Decoder, c: AuthdRequest.Client, chunks: seq<Bytes>)
    requires p.id == Text(c.id) && c.phase.Waiting? && c.buffer == []
    requires PlainFits(size) && Speaks(encode, decode, size)
    ensures var ms := Told(p, w, file, size, show);
            && AuthdRequest.AllFit(Encoded(encode, ms))
            && (AuthdRequest.Concat(chunks) == AuthdRequest.Stream(Encoded(encode, ms)) ==>
                  var r := AuthdRequest.ReceiveAll(decode, c, chunks);
                  && r.phase.Finished?
                  && RequestRuns.Expected(c.id, ms)
                  && r.signals == c.signals + RequestRuns.Reported(ms))
  {
    hide Told, AuthdRequest.ReceiveAll, AuthdRequest.Stream, AuthdRequest.Concat, Speaks, PlainFits, Encoded;
    var ms := Told(p, w, file, size, show);
    ToldFits(p, w, file, size, show);
    EncodedCarries(encode, decode, size, ms);
    if AuthdRequest.Concat(chunks) == AuthdRequest.Stream(Encoded(encode, ms)) {
      CarriedTranscriptIsHeard(p, w, file, size, show, decode, c, chunks, Encoded(encode, ms));
    }
  }

  /** The same for any frames that carry the transcript. */
  lemma CarriedTranscriptIsHeard(p: Payload, w: World, file: File, size: Size, show: Show, decode: Decoder,
                                 c: AuthdRequest.Client, chunks: seq<Bytes>, bodies: seq<Bytes>)
    requires p.id == Text(c.id) && c.phase.Waiting? && c.buffer == []
    requires AuthdRequest.AllFit(bodies) && RequestRuns.Carries(decode, bodies, Told(p, w, file, size, show))
    requires AuthdRequest.Concat(chunks) == AuthdRequest.Stream(bodies)
    ensures var ms, r := Told(p, w, file, size, show), AuthdRequest.ReceiveAll(decode, c, chunks);
            && r.phase.Finished?
            && RequestRuns.Expected(c.id, ms)
            && r.signals == c.signals + RequestRuns.Reported(ms)
  {
    hide Told, AuthdRequest.ReceiveAll, AuthdRequest.Stream, AuthdRequest.Concat;
    ToldIsTranscript(p, w, file, size, show);
    ToldIsExpected(p, w, file, size, show);
    assert AuthdRequest.Stream(bodies) + [] == AuthdRequest.Stream(bodies);
    RequestRuns.TranscriptIsReported(decode, c, chunks, bodies, Told(p, w, file, size, show), []);
  }
}
