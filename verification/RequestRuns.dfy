/** Whole requests on the GUI's side: every order of events, and a daemon transcript end to end. */
module RequestRuns {
  import opened Wire
  import opened AuthdRequest
  import opened Options
  import Protocol

  // ----- any order of events -----

  predicate EndsLast(signals: seq<Signal>, finished: bool) {
    && (forall i :: 0 <= i < |signals| - 1 ==> !signals[i].Ended?)
    && (finished <==> signals != [] && signals[|signals| - 1].Ended?)
  }

  predicate RequestFirst(sent: seq<Outgoing>) {
    sent != [] ==> sent[0] == Request && forall i :: 0 < i < |sent| ==> sent[i] == CancelMessage
  }

  /** What holds whatever is still in the buffer. */
  predicate Shape(c: Client) {
    && EndsLast(c.signals, c.phase.Finished?)
    && RequestFirst(c.sent)
    && (c.phase.Idle? || c.phase.Connecting? ==> c.sent == [])
    && (c.phase.Waiting? || c.phase.Running? ==> c.sent != [] && c.dialled)
    && (!c.phase.Finished? ==> (c.phase.Running? <==> Begun in c.signals))
    && (c.phase.Idle? ==> !c.dialled)
    && (c.timer <==> !c.phase.Idle? && !c.phase.Finished?)
  }

  /** Between events nothing decided is left in the buffer. */
  predicate Inv(c: Client) {
    Shape(c) && (!c.phase.Finished? ==> Incomplete(c.buffer))
  }

  lemma HandleKeepsShape(decode: Decoder, c: Client, body: Bytes)
    requires Shape(c) && (c.phase.Waiting? || c.phase.Running?)
    ensures var r := HandleBody(decode, c, body);
            && Shape(r) && (r.phase.Waiting? || r.phase.Running? || r.phase.Finished?)
            && c.signals <= r.signals && r.sent == c.sent && r.dialled == c.dialled
  {
  }

  lemma {:induction false} DrainKeepsShape(decode: Decoder, c: Client)
    requires Shape(c) && (c.phase.Waiting? || c.phase.Running? || c.phase.Finished?)
    ensures var r := Drain(decode, c);
            Inv(r) && c.signals <= r.signals && r.sent == c.sent && r.dialled == c.dialled
    decreases |c.buffer|
  {
    hide Length, HandleBody;
    if c.phase.Finished? || Incomplete(c.buffer) || BadHeader(c.buffer) {
    } else {
      var size := HEADER_SIZE + Length(c.buffer);
      var taken := c.(buffer := c.buffer[size..], consumed := c.consumed + c.buffer[..size]);
      HandleKeepsShape(decode, taken, c.buffer[HEADER_SIZE..size]);
      DrainKeepsShape(decode, TakeFrame(decode, c));
    }
  }

  lemma EventKeepsInv(decode: Decoder, c: Client, e: Event)
    requires Inv(c) && Enabled(c, e)
    ensures Inv(Apply(decode, c, e))
    ensures c.signals <= Apply(decode, c, e).signals && c.sent <= Apply(decode, c, e).sent
  {
    hide Drain, Incomplete;
    if e.ReadyRead? && !c.phase.Finished? {
      DrainKeepsShape(decode, c.(buffer := c.buffer + e.chunk));
    }
  }

  /** A run of one request, from its creation. */
  predicate IsRun(decode: Decoder, id: string, states: seq<Client>, events: seq<Event>) {
    && |states| == |events| + 1
    && states[0] == Fresh(id)
    && forall n :: 0 <= n < |events| ==>
         Enabled(states[n], events[n]) && states[n + 1] == Apply(decode, states[n], events[n])
  }

  lemma {:induction false} RunKeepsInv(decode: Decoder, id: string, states: seq<Client>, events: seq<Event>, n: nat)
    requires IsRun(decode, id, states, events) && n < |states|
    ensures Inv(states[n])
  {
    hide Apply, Enabled, Inv;
    if n == 0 {
      FreshInv(id);
    } else {
      RunKeepsInv(decode, id, states, events, n - 1);
      EventKeepsInv(decode, states[n - 1], events[n - 1]);
    }
  }

  lemma FreshInv(id: string)
    ensures Inv(Fresh(id))
  {
  }

  lemma FinishedIsSilent(decode: Decoder, c: Client, e: Event)
    requires c.phase.Finished? && Enabled(c, e) && !c.timer
    ensures var r := Apply(decode, c, e);
            r.phase.Finished? && !r.timer && r.signals == c.signals && r.sent == c.sent
  {
  }

  /** Over any sequence of socket, timer and user events the request ends at most once, and after that says nothing. */
  lemma {:induction false} EndsAtMostOnce(decode: Decoder, id: string, states: seq<Client>, events: seq<Event>,
                                          n: nat, m: nat)
    requires IsRun(decode, id, states, events) && n <= m < |states|
    ensures states[n].signals <= states[m].signals
    ensures forall i :: 0 <= i < |states[m].signals| - 1 ==> !states[m].signals[i].Ended?
    ensures states[m].phase.Finished? <==> states[m].signals != [] && states[m].signals[|states[m].signals| - 1].Ended?
    ensures states[n].phase.Finished? ==> states[m].signals == states[n].signals && states[m].sent == states[n].sent
    decreases m - n
  {
    hide Apply, Enabled, Incomplete;
    RunKeepsInv(decode, id, states, events, n);
    RunKeepsInv(decode, id, states, events, m);
    if n == m {
    } else {
      EndsAtMostOnce(decode, id, states, events, n, m - 1);
      RunKeepsInv(decode, id, states, events, m - 1);
      EventKeepsInv(decode, states[m - 1], events[m - 1]);
      if states[m - 1].phase.Finished? {
        FinishedIsSilent(decode, states[m - 1], events[m - 1]);
      }
    }
  }

  /** Once started a request cannot hang: until it ends the timer runs, and the timer ends it. */
  lemma IdleRequestsEnd(decode: Decoder, id: string, states: seq<Client>, events: seq<Event>, n: nat)
    requires IsRun(decode, id, states, events) && n < |states|
    requires !states[n].phase.Idle? && !states[n].phase.Finished?
    ensures Enabled(states[n], IdleTimeout)
    ensures Apply(decode, states[n], IdleTimeout).signals == states[n].signals + [Ended("timeout", "")]
    ensures |states[n].buffer| < HEADER_SIZE + MAX_FRAME
  {
    hide IsRun;
    RunKeepsInv(decode, id, states, events, n);
  }

  // ----- what each event does -----

  predicate HasEnded(c: Client) {
    exists i :: 0 <= i < |c.signals| && c.signals[i].Ended?
  }

  /** The daemon has begun the session and the request has not ended. */
  predicate IsUnderWay(c: Client) {
    Begun in c.signals && !HasEnded(c)
  }

  lemma EndedIsFinished(c: Client)
    requires Shape(c)
    ensures HasEnded(c) <==> c.phase.Finished?
    ensures IsUnderWay(c) <==> c.phase.Running?
  {
    if c.phase.Finished? {
      assert c.signals[|c.signals| - 1].Ended?;
    }
  }

  /** How many messages of one kind are among those sent. */
  function CountOf(sent: seq<Outgoing>, m: Outgoing): nat {
    if sent == [] then 0 else CountOf(sent[..|sent| - 1], m) + if sent[|sent| - 1] == m then 1 else 0
  }

  lemma CountOneMore(sent: seq<Outgoing>, last: Outgoing, m: Outgoing)
    ensures CountOf(sent + [last], m) == CountOf(sent, m) + if last == m then 1 else 0
  {
    assert (sent + [last])[..|sent|] == sent;
  }

  /** How often, among the first n events, the user cancelled a session under way. */
  function CancelsUnderWay(states: seq<Client>, events: seq<Event>, n: nat): nat
    requires n <= |events| <= |states|
  {
    if n == 0 then 0
    else CancelsUnderWay(states, events, n - 1) + if events[n - 1].Cancel? && IsUnderWay(states[n - 1]) then 1 else 0
  }

  function Connects(events: seq<Event>, n: nat): nat
    requires n <= |events|
  {
    if n == 0 then 0 else Connects(events, n - 1) + if events[n - 1].Connected? then 1 else 0
  }

  lemma SentByEvent(decode: Decoder, c: Client, e: Event)
    requires Inv(c) && Enabled(c, e)
    ensures Apply(decode, c, e).sent
         == c.sent + if e.Connected? then [Request]
                     else if e.Cancel? && IsUnderWay(c) then [CancelMessage]
                     else []
  {
    hide Drain, Incomplete;
    EndedIsFinished(c);
    if e.ReadyRead? {
      DrainKeepsShape(decode, c.(buffer := c.buffer + e.chunk));
    }
  }

  lemma CountsByEvent(decode: Decoder, c: Client, e: Event)
    requires Inv(c) && Enabled(c, e)
    ensures var r := Apply(decode, c, e);
            && CountOf(r.sent, Request) == CountOf(c.sent, Request) + (if e.Connected? then 1 else 0)
            && CountOf(r.sent, CancelMessage)
                 == CountOf(c.sent, CancelMessage) + if e.Cancel? && IsUnderWay(c) then 1 else 0
  {
    hide Apply, Inv, IsUnderWay, Enabled, CountOf;
    SentByEvent(decode, c, e);
    assert c.sent + [] == c.sent;
    CountOneMore(c.sent, Request, Request);
    CountOneMore(c.sent, Request, CancelMessage);
    CountOneMore(c.sent, CancelMessage, Request);
    CountOneMore(c.sent, CancelMessage, CancelMessage);
  }

  /**
   * What goes to the daemon, over any sequence of events: one cancel message for every cancel of a session
   * under way, and the request itself once for the connection, which is made at most once.
   */
  lemma {:induction false} CancelsAreSent(decode: Decoder, id: string, states: seq<Client>, events: seq<Event>, n: nat)
    requires IsRun(decode, id, states, events) && n <= |events|
    ensures CountOf(states[n].sent, CancelMessage) == CancelsUnderWay(states, events, n)
    ensures CountOf(states[n].sent, Request) == Connects(events, n) <= 1
  {
    hide Apply, Enabled, Inv, IsUnderWay;
    RunKeepsInv(decode, id, states, events, n);
    if n == 0 {
    } else {
      var c, e := states[n - 1], events[n - 1];
      CancelsAreSent(decode, id, states, events, n - 1);
      RunKeepsInv(decode, id, states, events, n - 1);
      CountsByEvent(decode, c, e);
    }
    RequestIsFirst(states[n]);
  }

  lemma {:induction false} OnlyCancels(sent: seq<Outgoing>)
    requires forall i :: 0 <= i < |sent| ==> sent[i] == CancelMessage
    ensures CountOf(sent, Request) == 0
  {
    if sent == [] {
    } else {
      OnlyCancels(sent[..|sent| - 1]);
    }
  }

  lemma {:induction false} FirstIsRequest(sent: seq<Outgoing>)
    requires RequestFirst(sent)
    ensures CountOf(sent, Request) <= 1
  {
    if |sent| <= 1 {
      if |sent| == 1 { assert sent[..0] == []; }
    } else {
      FirstIsRequest(sent[..|sent| - 1]);
    }
  }

  lemma RequestIsFirst(c: Client)
    requires Inv(c)
    ensures CountOf(c.sent, Request) <= 1
  {
    hide Incomplete;
    FirstIsRequest(c.sent);
  }

  /** The request has been sent, and so the connection been made. */
  predicate IsSent(c: Client) {
    Request in c.sent
  }

  /** The signal an event other than reading adds to those of a request that has not ended. */
  predicate Says(c: Client, e: Event, more: seq<Signal>)
    requires !e.ReadyRead?
  {
    match e
    case Disconnected => more == [Ended("connection_lost", "")]
    case IdleTimeout => more == [Ended("timeout", "")]
    case Cancel => more == if IsUnderWay(c) then [] else [Ended("cancelled", "")]
    case SocketError(peerClosed) =>
      more == if !IsSent(c) then [Ended("daemon_unavailable", "")]
              else if !peerClosed then [Ended("connection_lost", "")]
              else []
    case _ => more == []
  }

  /** After its end a request says nothing; before it, each event other than reading ends it or not as it should. */
  lemma EventsSay(decode: Decoder, id: string, states: seq<Client>, events: seq<Event>, n: nat)
    requires IsRun(decode, id, states, events) && n < |events| && !events[n].ReadyRead?
    ensures HasEnded(states[n]) ==> states[n + 1].signals == states[n].signals
    ensures !HasEnded(states[n]) ==>
              && states[n].signals <= states[n + 1].signals
              && Says(states[n], events[n], states[n + 1].signals[|states[n].signals|..])
  {
    hide Drain, Incomplete, IsRun;
    RunStep(decode, id, states, events, n);
    RunKeepsInv(decode, id, states, events, n);
    EndedIsFinished(states[n]);
    assert RequestFirst(states[n].sent);
  }

  lemma RunStep(decode: Decoder, id: string, states: seq<Client>, events: seq<Event>, n: nat)
    requires IsRun(decode, id, states, events) && n < |events|
    ensures |states| == |events| + 1
    ensures Enabled(states[n], events[n]) && states[n + 1] == Apply(decode, states[n], events[n])
  {
  }

  /** A started request gets to send itself: it can dial, and once it has, be connected. */
  lemma StartedCanConnect(decode: Decoder, c: Client)
    requires Inv(c) && c.phase.Idle?
    ensures var started := Apply(decode, c, Start);
            var dialled := Apply(decode, started, Dial);
            && Enabled(started, Dial) && Enabled(dialled, Connected)
            && Apply(decode, dialled, Connected).sent == [Request]
            && Apply(decode, dialled, Connected).signals == c.signals
  {
    hide Incomplete;
  }

  // ----- messages that end the request without being a result -----

  /** How the content of one frame ends the request, if it does so without being accepted. */
  function Fault(decode: Decoder, id: string, body: Bytes): Option<string> {
    match decode(body)
    case None => Some("protocol_error")
    case Some(m) =>
      if m.kind.AuthResponse? then Some("daemon_outdated")
      else if m.v != 2 then Some("protocol_error")
      else if m.id == Text(id) || (id == "" && !m.id.Text?) || (m.kind.Result? && m.id.NullId?) then None
      else Some("protocol_error")
  }

  lemma FaultEnds(decode: Decoder, c: Client, body: Bytes)
    requires !c.phase.Finished? && Fault(decode, c.id, body).Some?
    ensures HandleBody(decode, c, body).phase.Finished?
    ensures HandleBody(decode, c, body).signals == c.signals + [Ended(Fault(decode, c.id, body).value, "")]
  {
  }

  lemma {:induction false} PlayOneMore(decode: Decoder, c: Client, bodies: seq<Bytes>, body: Bytes)
    requires !Play(decode, c, bodies).phase.Finished?
    ensures Play(decode, c, bodies + [body]) == HandleBody(decode, Play(decode, c, bodies), body)
    decreases |bodies|
  {
    if bodies == [] {
      assert ([] + [body])[1..] == [];
    } else {
      PlayOneMore(decode, HandleBody(decode, c, bodies[0]), bodies[1..], body);
      assert (bodies + [body])[1..] == bodies[1..] + [body];
    }
  }

  lemma {:induction false} PlayKeepsId(decode: Decoder, c: Client, bodies: seq<Bytes>)
    ensures Play(decode, c, bodies).id == c.id
    decreases |bodies|
  {
    if bodies == [] || c.phase.Finished? {
    } else {
      PlayKeepsId(decode, HandleBody(decode, c, bodies[0]), bodies[1..]);
    }
  }

  /**
   * A stream of expected messages and then a bad one, cut in whatever way, is reported up to the bad one: an
   * answer of an older daemon as outdated, and a wrong version, a wrong id or no message at all as an error.
   */
  lemma BadMessageIsReported(decode: Decoder, c: Client, chunks: seq<Bytes>, bodies: seq<Bytes>,
                             ms: seq<Message>, bad: Bytes, late: Bytes)
    requires c.phase.Waiting? && c.buffer == []
    requires AllFit(bodies + [bad]) && Carries(decode, bodies, ms) && Expected(c.id, ms)
    requires ms == [] || !ms[|ms| - 1].kind.Result?
    requires Concat(chunks) == Stream(bodies + [bad]) + late && Fault(decode, c.id, bad).Some?
    ensures var r := ReceiveAll(decode, c, chunks);
            r.phase.Finished? && r.signals == c.signals + Reported(ms) + [Ended(Fault(decode, c.id, bad).value, "")]
  {
    hide ReceiveAll, Stream, Concat, AllFit, Incomplete, Reported, Expected, Fault, HandleBody, Play;
    var played := Play(decode, Core(c), bodies);
    PlayReports(decode, Core(c), bodies, ms);
    PlayKeepsId(decode, Core(c), bodies);
    PlayOneMore(decode, Core(c), bodies, bad);
    FaultEnds(decode, played, bad);
    StreamIsPlayed(decode, c, chunks, bodies + [bad], late);
  }

  /** So is a length no frame can have. */
  lemma BadLengthIsReported(decode: Decoder, c: Client, chunks: seq<Bytes>, bodies: seq<Bytes>, ms: seq<Message>,
                            rest: Bytes)
    requires c.phase.Waiting? && c.buffer == []
    requires AllFit(bodies) && Carries(decode, bodies, ms) && Expected(c.id, ms)
    requires ms == [] || !ms[|ms| - 1].kind.Result?
    requires Concat(chunks) == Stream(bodies) + rest
    requires |rest| >= 4 && (Length(rest) < 1 || Length(rest) > 64 * 1024)
    ensures var r := ReceiveAll(decode, c, chunks);
            r.phase.Finished? && r.signals == c.signals + Reported(ms) + [Ended("protocol_error", "")]
  {
    hide ReceiveAll, Stream, Concat, AllFit, Reported, Expected, Play, Incomplete, Length, HandleBody;
    var whole := c.(buffer := Stream(bodies));
    PlayReports(decode, Core(c), bodies, ms);
    EmptyIsIncomplete();
    assert Stream(bodies) + [] == Stream(bodies);
    DrainPlays(decode, whole, bodies, []);
    DrainThenMore(decode, whole, rest);
    var drained := Drain(decode, whole);
    assert [] + rest == rest;
    BadLengthEnds(decode, drained.(buffer := rest));
    ChunksDoNotMatter(decode, c, chunks);
    assert c.buffer + Concat(chunks) == Stream(bodies) + rest;
  }

  lemma BadLengthEnds(decode: Decoder, c: Client)
    requires !c.phase.Finished? && |c.buffer| >= 4 && (Length(c.buffer) < 1 || Length(c.buffer) > 64 * 1024)
    ensures Drain(decode, c)
         == c.(phase := Finished, timer := false, signals := c.signals + [Ended("protocol_error", "")])
  {
    hide Length;
  }

  /** A message of an unknown kind is left for newer clients. */
  lemma UnknownKindIsIgnored(decode: Decoder, c: Client, body: Bytes)
    requires !c.phase.Finished? && decode(body).Some? && decode(body).value.kind.OtherKind?
    requires Fault(decode, c.id, body).None?
    ensures HandleBody(decode, c, body) == c.(timer := true)
  {
  }

  // ----- a daemon transcript end to end -----

  predicate IsEvent(m: Message) {
    m.kind.Started? || m.kind.Frame? || m.kind.Result?
  }

  /** `result`, or `started frame* result`. */
  predicate IsTranscript(ms: seq<Message>) {
    && ms != [] && ms[|ms| - 1].kind.Result?
    && (|ms| > 1 ==> ms[0].kind.Started?)
    && forall i :: 0 < i < |ms| - 1 ==> ms[i].kind.Frame?
  }

  function SignalOf(m: Message): Signal
    requires IsEvent(m)
  {
    if m.kind.Started? then Begun else if m.kind.Frame? then FrameReceived(m.detail) else Ended(m.result, m.detail)
  }

  predicate Expected(id: string, ms: seq<Message>) {
    && (forall i :: 0 <= i < |ms| ==> IsEvent(ms[i]) && Accepted(id, ms[i]))
    && (forall i :: 0 <= i < |ms| - 1 ==> !ms[i].kind.Result?)
  }

  function Reported(ms: seq<Message>): seq<Signal>
    requires forall i :: 0 <= i < |ms| ==> IsEvent(ms[i])
  {
    if ms == [] then [] else [SignalOf(ms[0])] + Reported(ms[1..])
  }

  predicate Carries(decode: Decoder, bodies: seq<Bytes>, ms: seq<Message>) {
    |bodies| == |ms| && forall i :: 0 <= i < |ms| ==> decode(bodies[i]) == Some(ms[i])
  }

  lemma {:induction false} PlayReports(decode: Decoder, c: Client, bodies: seq<Bytes>, ms: seq<Message>)
    requires !c.phase.Finished? && Carries(decode, bodies, ms) && Expected(c.id, ms)
    ensures var r := Play(decode, c, bodies);
            && r.signals == c.signals + Reported(ms)
            && (r.phase.Finished? <==> ms != [] && ms[|ms| - 1].kind.Result?)
    decreases |ms|
  {
    if ms == [] {
    } else {
      var next := HandleBody(decode, c, bodies[0]);
      assert next == Handle(c, ms[0]);
      assert next.signals == c.signals + [SignalOf(ms[0])];
      if ms[0].kind.Result? {
        assert ms[1..] == [] && bodies[1..] == [];
      } else {
        PlayReports(decode, next, bodies[1..], ms[1..]);
        assert c.signals + [SignalOf(ms[0])] + Reported(ms[1..]) == c.signals + Reported(ms);
      }
    }
  }

  /** Cut in whatever way, the daemon's transcript is reported message by message, and ends with its result. */
  lemma TranscriptIsReported(decode: Decoder, c: Client, chunks: seq<Bytes>, bodies: seq<Bytes>,
                             ms: seq<Message>, late: Bytes)
    requires c.phase.Waiting? && c.buffer == []
    requires AllFit(bodies) && Carries(decode, bodies, ms) && IsTranscript(ms) && Expected(c.id, ms)
    requires Concat(chunks) == Stream(bodies) + late
    ensures var r := ReceiveAll(decode, c, chunks);
            && r.phase.Finished?
            && r.signals == c.signals + Reported(ms)
            && r.signals[|r.signals| - 1] == Ended(ms[|ms| - 1].result, ms[|ms| - 1].detail)
  {
    hide ReceiveAll, Play, Stream, Concat, AllFit;
    PlayReports(decode, Core(c), bodies, ms);
    StreamIsPlayed(decode, c, chunks, bodies, late);
    LastReported(ms);
  }

  lemma {:induction false} LastReported(ms: seq<Message>)
    requires ms != [] && forall i :: 0 <= i < |ms| ==> IsEvent(ms[i])
    ensures Reported(ms) != [] && Reported(ms)[|Reported(ms)| - 1] == SignalOf(ms[|ms| - 1])
  {
    if |ms| == 1 {
    } else {
      LastReported(ms[1..]);
    }
  }

  /** A stream that breaks off early reports the whole messages that came through, and then the lost connection. */
  lemma BrokenStreamIsReported(decode: Decoder, c: Client, chunks: seq<Bytes>, bodies: seq<Bytes>,
                               ms: seq<Message>, tail: Bytes)
    requires c.phase.Waiting? && c.buffer == []
    requires AllFit(bodies) && Carries(decode, bodies, ms) && Expected(c.id, ms) && Incomplete(tail)
    requires ms == [] || !ms[|ms| - 1].kind.Result?
    requires Concat(chunks) == Stream(bodies) + tail
    ensures Apply(decode, ReceiveAll(decode, c, chunks), Disconnected).signals
         == c.signals + Reported(ms) + [Ended("connection_lost", "")]
  {
    hide ReceiveAll, Play, Stream, Concat, AllFit, Incomplete, Reported, Expected;
    PlayReports(decode, Core(c), bodies, ms);
    StreamIsPlayed(decode, c, chunks, bodies, tail);
  }

  /** Whatever write_frame lets through as an event, this side takes as one frame and hands on unchanged. */
  lemma WrittenEventsAreAccepted(decode: Decoder, c: Client, body: Bytes, rest: Bytes)
    requires Fits(body, Protocol.MAX_EVENT_PAYLOAD) && c.buffer == Framed(body) + rest
    ensures !Incomplete(c.buffer) && !BadHeader(c.buffer)
    ensures TakeFrame(decode, c) == HandleBody(decode, c.(buffer := rest, consumed := c.consumed + Framed(body)), body)
  {
    TakeFrameFromStream(decode, c, body, rest);
  }
}
