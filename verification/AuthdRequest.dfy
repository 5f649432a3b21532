/**
 * One v2 request as the GUI sees it: an incremental parser over the bytes received so far and a
 * small state machine that reports the daemon's messages and ends once.
 */
module AuthdRequest {
  import opened Wire
  import opened Options

  const VERSION := 2
  const MAX_FRAME := 64 * 1024

  datatype Phase = Idle | Connecting | Waiting | Running | Finished

  /** What the request's owner hears. */
  datatype Signal = Begun | FrameReceived(detail: string) | Ended(result: string, data: string)

  datatype Outgoing = Request | CancelMessage

  /**
   * `dialled` once the socket is in use; `timer` while the idle timer runs; `consumed` are the bytes of
   * handled frames.
   */
  datatype Client = Client(id: string, phase: Phase, dialled: bool, timer: bool, buffer: Bytes, consumed: Bytes,
                           signals: seq<Signal>, sent: seq<Outgoing>)

  // ----- the specification -----

  function End(c: Client, result: string, data: string): Client {
    if c.phase.Finished? then c
    else c.(phase := Finished, timer := false, signals := c.signals + [Ended(result, data)])
  }

  /** A null id is accepted on a result only; anything but text counts as the empty id. */
  predicate IdMatches(id: string, m: Message) {
    (if m.id.Text? then m.id.text else "") == id || (m.kind.Result? && m.id.NullId?)
  }

  predicate Accepted(id: string, m: Message) {
    !m.kind.AuthResponse? && m.v == VERSION && IdMatches(id, m)
  }

  function Handle(c: Client, m: Message): Client {
    if m.kind.AuthResponse? then End(c, "daemon_outdated", "")
    else if !Accepted(c.id, m) then End(c, "protocol_error", "")
    else
      var heard := c.(timer := true);
      match m.kind
      case Started => heard.(phase := Running, signals := c.signals + [Begun])
      case Frame => heard.(signals := c.signals + [FrameReceived(m.detail)])
      case Result => End(heard, m.result, m.detail)
      case _ => heard
  }

  /** A frame's content reaches the state machine. */
  function HandleBody(decode: Decoder, c: Client, body: Bytes): Client {
    match decode(body)
    case None => End(c, "protocol_error", "")
    case Some(m) => Handle(c, m)
  }

  /** The first frame is not complete yet, and may still turn out to be fine. */
  predicate Incomplete(buffer: Bytes) {
    |buffer| < HEADER_SIZE || (1 <= Length(buffer) <= MAX_FRAME && |buffer| < HEADER_SIZE + Length(buffer))
  }

  predicate BadHeader(buffer: Bytes) {
    |buffer| >= HEADER_SIZE && !(1 <= Length(buffer) <= MAX_FRAME)
  }

  /** Consumes the buffer's first frame. */
  function TakeFrame(decode: Decoder, c: Client): (r: Client)
    requires !Incomplete(c.buffer) && !BadHeader(c.buffer)
    ensures |r.buffer| < |c.buffer|
  {
    var size := HEADER_SIZE + Length(c.buffer);
    var taken := c.(buffer := c.buffer[size..], consumed := c.consumed + c.buffer[..size]);
    HandleBody(decode, taken, c.buffer[HEADER_SIZE..size])
  }

  function Drain(decode: Decoder, c: Client): Client
    decreases |c.buffer|
  {
    if c.phase.Finished? || Incomplete(c.buffer) then c
    else if BadHeader(c.buffer) then End(c, "protocol_error", "")
    else Drain(decode, TakeFrame(decode, c))
  }

  /** A finished request has let go of its socket. */
  function Receive(decode: Decoder, c: Client, chunk: Bytes): Client {
    if c.phase.Finished? then c else Drain(decode, c.(buffer := c.buffer + chunk))
  }

  function ReceiveAll(decode: Decoder, c: Client, chunks: seq<Bytes>): Client {
    if chunks == [] then c
    else Receive(decode, ReceiveAll(decode, c, chunks[..|chunks| - 1]), chunks[|chunks| - 1])
  }

  datatype Event =
    | Start
    | Dial                          // the deferred connectToServer
    | Connected
    | ReadyRead(chunk: Bytes)
    | Disconnected
    | SocketError(peerClosed: bool)
    | IdleTimeout
    | Cancel

  /** Start and cancel can be called at any time; the socket and the timer are silent once let go. */
  predicate Enabled(c: Client, e: Event) {
    match e
    case Start => true
    case Cancel => true
    case Dial => !c.dialled && c.phase != Idle
    case Connected => c.dialled && c.phase.Connecting?
    case IdleTimeout => c.timer
    case ReadyRead(_) => c.phase.Waiting? || c.phase.Running?
    case _ => c.dialled && !c.phase.Finished?
  }

  function Apply(decode: Decoder, c: Client, e: Event): Client {
    match e
    case Start => if c.phase.Idle? then c.(phase := Connecting, timer := true) else c
    case Dial => if c.phase.Connecting? then c.(dialled := true) else c
    case Connected => c.(phase := Waiting, sent := c.sent + [Request])
    case ReadyRead(chunk) => Receive(decode, c, chunk)
    case Disconnected => End(c, "connection_lost", "")
    case SocketError(peerClosed) =>
      if c.phase.Connecting? then End(c, "daemon_unavailable", "")
      else if !peerClosed then End(c, "connection_lost", "")
      else c
    case IdleTimeout => End(c, "timeout", "")
    case Cancel =>
      (match c.phase
       case Running => c.(sent := c.sent + [CancelMessage])
       case Finished => c
       case _ => End(c, "cancelled", ""))
  }

  function Fresh(id: string): Client {
    Client(id, Idle, false, false, [], [], [], [])
  }

  // ----- the object -----

  class AuthdRequest {
    const id: string
    const decode: Decoder
    var phase: Phase
    var dialled: bool
    var timer: bool
    var buffer: Bytes
    var signals: seq<Signal>
    var sent: seq<Outgoing>
    ghost var consumed: Bytes

    ghost function State(): Client
      reads this
    {
      Client(id, phase, dialled, timer, buffer, consumed, signals, sent)
    }

    constructor (requestId: string, decoder: Decoder)
      ensures State() == Fresh(requestId) && decode == decoder
    {
      id, decode := requestId, decoder;
      phase, dialled, timer, buffer, signals, sent, consumed := Idle, false, false, [], [], [], [];
    }

    method Finish(result: string, data: string)
      modifies this
      ensures State() == End(old(State()), result, data)
    {
      if phase.Finished? {
        return;
      }
      phase := Finished;
      timer := false;
      signals := signals + [Ended(result, data)];
    }

    method HandleMessage(m: Message)
      modifies this
      ensures State() == Handle(old(State()), m)
    {
      if m.kind.AuthResponse? {
        Finish("daemon_outdated", "");
        return;
      }
      var idMatches := (if m.id.Text? then m.id.text else "") == id || (m.kind.Result? && m.id.NullId?);
      if m.v != VERSION || !idMatches {
        Finish("protocol_error", "");
        return;
      }
      timer := true;
      if m.kind.Started? {
        phase := Running;
        signals := signals + [Begun];
      } else if m.kind.Frame? {
        signals := signals + [FrameReceived(m.detail)];
      } else if m.kind.Result? {
        Finish(m.result, m.detail);
      }
    }

    method OnReadyRead(chunk: Bytes)
      requires !phase.Finished?
      modifies this
      ensures State() == Receive(decode, old(State()), chunk)
    {
      hide Length, Handle, End;
      buffer := buffer + chunk;
      ghost var start := State();
      while !phase.Finished? && |buffer| >= HEADER_SIZE
        invariant Drain(decode, State()) == Drain(decode, start)
        decreases |buffer|
      {
        var length := Length(buffer);
        if length < 1 || length > MAX_FRAME {
          Finish("protocol_error", "");
          return;
        }
        if |buffer| < HEADER_SIZE + length {
          return;
        }
        var body := buffer[HEADER_SIZE..HEADER_SIZE + length];
        consumed := consumed + buffer[..HEADER_SIZE + length];
        buffer := buffer[HEADER_SIZE + length..];
        var message := decode(body);
        if message.None? {
          ghost var before := State();
          Finish("protocol_error", "");
          EndIsFinal(before, "protocol_error", "");
          return;
        }
        HandleMessage(message.value);
      }
    }

    /** Every other event. */
    method On(e: Event)
      requires Enabled(State(), e) && !e.ReadyRead?
      modifies this
      ensures State() == Apply(decode, old(State()), e)
    {
      match e {
        case Start =>
          if phase.Idle? {
            phase, timer := Connecting, true;
          }
        case Dial =>
          if phase.Connecting? {
            dialled := true;
          }
        case Connected =>
          phase := Waiting;
          sent := sent + [Request];
        case Disconnected => Finish("connection_lost", "");
        case SocketError(peerClosed) =>
          if phase.Connecting? {
            Finish("daemon_unavailable", "");
            return;
          }
          if !peerClosed {
            Finish("connection_lost", "");
          }
        case IdleTimeout => Finish("timeout", "");
        case Cancel =>
          if phase.Running? {
            sent := sent + [CancelMessage];
          } else {
            Finish("cancelled", "");
          }
      }
    }
  }

  lemma EndIsFinal(c: Client, result: string, data: string)
    ensures End(c, result, data).phase.Finished? && End(c, result, data).buffer == c.buffer
  {
  }

  // ----- independence of how the bytes arrive -----

  /** Appending bytes to a buffer whose first frame is decided does not change what is done with that frame. */
  lemma TakeFrameThenMore(decode: Decoder, c: Client, more: Bytes)
    requires !Incomplete(c.buffer) && !BadHeader(c.buffer)
    ensures var longer := c.(buffer := c.buffer + more);
            && !Incomplete(longer.buffer) && !BadHeader(longer.buffer)
            && TakeFrame(decode, longer) == TakeFrame(decode, c).(buffer := TakeFrame(decode, c).buffer + more)
  {
    hide HandleBody;
    var longer := c.buffer + more;
    var size := HEADER_SIZE + Length(c.buffer);
    var taken := c.(buffer := c.buffer[size..], consumed := c.consumed + c.buffer[..size]);
    HandleBodyKeepsBuffer(decode, taken, taken.buffer + more, c.buffer[HEADER_SIZE..size]);
    HandleBodyIgnoresBytes(decode, taken, c.buffer[HEADER_SIZE..size]);
    assert Length(longer) == Length(c.buffer);
    assert longer[..size] == c.buffer[..size];
    assert longer[size..] == c.buffer[size..] + more;
    assert longer[HEADER_SIZE..size] == c.buffer[HEADER_SIZE..size];
  }

  lemma HandleBodyKeepsBuffer(decode: Decoder, c: Client, buffer: Bytes, body: Bytes)
    ensures HandleBody(decode, c.(buffer := buffer), body) == HandleBody(decode, c, body).(buffer := buffer)
  {
    hide Handle;
    if decode(body).Some? {
      HandleKeepsBuffer(c, buffer, decode(body).value);
    }
  }

  lemma HandleKeepsBuffer(c: Client, buffer: Bytes, m: Message)
    ensures Handle(c.(buffer := buffer), m) == Handle(c, m).(buffer := buffer)
  {
    hide Accepted;
  }

  lemma {:induction false} DrainThenMore(decode: Decoder, c: Client, more: Bytes)
    ensures var drained := Drain(decode, c);
            Drain(decode, c.(buffer := c.buffer + more)) == Drain(decode, drained.(buffer := drained.buffer + more))
    decreases |c.buffer|
  {
    hide TakeFrame, Length, Incomplete;
    var longer := c.(buffer := c.buffer + more);
    if c.phase.Finished? || Incomplete(c.buffer) {
    } else if BadHeader(c.buffer) {
      BadHeaderStays(c.buffer, more);
    } else {
      TakeFrameThenMore(decode, c, more);
      DrainThenMore(decode, TakeFrame(decode, c), more);
    }
  }

  lemma BadHeaderStays(buffer: Bytes, more: Bytes)
    requires BadHeader(buffer)
    ensures BadHeader(buffer + more) && !Incomplete(buffer + more)
  {
    assert Length(buffer + more) == Length(buffer);
  }

  lemma NothingToDrain(decode: Decoder, c: Client)
    requires c.phase.Finished? || Incomplete(c.buffer)
    ensures Drain(decode, c) == c
  {
  }

  function Concat(chunks: seq<Bytes>): Bytes {
    if chunks == [] then [] else Concat(chunks[..|chunks| - 1]) + chunks[|chunks| - 1]
  }

  /** All but the bytes: phase, signals, timer and what was sent. */
  function Core(c: Client): Client {
    c.(buffer := [], consumed := [])
  }

  /** All but the bytes that were received and not handled. */
  function Handled(c: Client): Client {
    c.(buffer := [])
  }

  /**
   * However the stream is cut into reads, the request ends up as if it had been received at once, down to
   * the bytes it has handled; while it has not finished, down to the bytes still waiting.
   */
  lemma {:induction false} ChunksDoNotMatter(decode: Decoder, c: Client, chunks: seq<Bytes>)
    requires !c.phase.Finished? && Incomplete(c.buffer)
    ensures var byChunks, atOnce := ReceiveAll(decode, c, chunks), Receive(decode, c, Concat(chunks));
            Handled(byChunks) == Handled(atOnce) && (!byChunks.phase.Finished? ==> byChunks == atOnce)
  {
    hide Incomplete, TakeFrame, Drain;
    if chunks == [] {
      assert c.buffer + [] == c.buffer;
      NothingToDrain(decode, c);
    } else {
      var n := |chunks| - 1;
      ChunksDoNotMatter(decode, c, chunks[..n]);
      var start := c.(buffer := c.buffer + Concat(chunks[..n]));
      var drained := Drain(decode, start);
      DrainThenMore(decode, start, chunks[n]);
      assert start.buffer + chunks[n] == c.buffer + Concat(chunks);
      if drained.phase.Finished? {
        NothingToDrain(decode, drained.(buffer := drained.buffer + chunks[n]));
      }
    }
  }

  lemma HandleIgnoresBytes(c: Client, m: Message)
    ensures Handle(c, m).buffer == c.buffer && Handle(c, m).consumed == c.consumed
    ensures Core(Handle(c, m)) == Handle(Core(c), m)
  {
    hide Accepted;
  }

  lemma HandleBodyIgnoresBytes(decode: Decoder, c: Client, body: Bytes)
    ensures var r := HandleBody(decode, c, body);
            r.buffer == c.buffer && r.consumed == c.consumed && Core(r) == HandleBody(decode, Core(c), body)
  {
    hide Handle;
    if decode(body).Some? {
      HandleIgnoresBytes(c, decode(body).value);
    }
  }

  lemma {:induction false} DrainKeepsBytes(decode: Decoder, c: Client)
    ensures var r := Drain(decode, c); r.consumed + r.buffer == c.consumed + c.buffer
    ensures !Drain(decode, c).phase.Finished? ==> Incomplete(Drain(decode, c).buffer)
    decreases |c.buffer|
  {
    hide Length;
    if c.phase.Finished? || Incomplete(c.buffer) || BadHeader(c.buffer) {
    } else {
      var size := HEADER_SIZE + Length(c.buffer);
      var next := TakeFrame(decode, c);
      assert next.consumed + next.buffer == c.consumed + c.buffer by {
        TakeKeepsBytes(decode, c);
      }
      DrainKeepsBytes(decode, next);
    }
  }

  lemma TakeKeepsBytes(decode: Decoder, c: Client)
    requires !Incomplete(c.buffer) && !BadHeader(c.buffer)
    ensures var r := TakeFrame(decode, c); r.consumed + r.buffer == c.consumed + c.buffer
  {
    hide Length, HandleBody, Core;
    var size := HEADER_SIZE + Length(c.buffer);
    var taken := c.(buffer := c.buffer[size..], consumed := c.consumed + c.buffer[..size]);
    HandleBodyIgnoresBytes(decode, taken, c.buffer[HEADER_SIZE..size]);
    assert c.buffer == c.buffer[..size] + c.buffer[size..];
  }

  /**
   * No byte is lost or handled twice. Handled and waiting bytes are those received, of which a request that
   * has finished takes no more; until then less than one frame waits.
   */
  lemma {:induction false} BytesAreConserved(decode: Decoder, c: Client, chunks: seq<Bytes>)
    requires !c.phase.Finished? && Incomplete(c.buffer)
    ensures var r, received := ReceiveAll(decode, c, chunks), c.consumed + c.buffer + Concat(chunks);
            && r.consumed + r.buffer <= received
            && (!r.phase.Finished? ==> r.consumed + r.buffer == received && |r.buffer| < HEADER_SIZE + MAX_FRAME)
    decreases |chunks|
  {
    hide Drain, Length;
    if chunks == [] {
      assert c.consumed + c.buffer + [] == c.consumed + c.buffer;
      ShortWhileIncomplete(c.buffer);
    } else {
      var n := |chunks| - 1;
      BytesAreConserved(decode, c, chunks[..n]);
      var before := ReceiveAll(decode, c, chunks[..n]);
      if before.phase.Finished? {
        LongerStream(before.consumed + before.buffer, c.consumed + c.buffer, Concat(chunks[..n]), chunks[n]);
      } else {
        DrainKeepsBytes(decode, before.(buffer := before.buffer + chunks[n]));
        assert before.consumed + (before.buffer + chunks[n]) == before.consumed + before.buffer + chunks[n];
        assert c.consumed + c.buffer + Concat(chunks[..n]) + chunks[n] == c.consumed + c.buffer + Concat(chunks);
        ShortWhileIncomplete(ReceiveAll(decode, c, chunks).buffer);
      }
    }
  }

  lemma ShortWhileIncomplete(buffer: Bytes)
    ensures Incomplete(buffer) ==> |buffer| < HEADER_SIZE + MAX_FRAME
  {
  }

  lemma LongerStream(taken: Bytes, start: Bytes, before: Bytes, chunk: Bytes)
    requires taken <= start + before
    ensures taken <= start + (before + chunk)
  {
    assert start + (before + chunk) == start + before + chunk;
  }

  // ----- the messages in the stream -----

  predicate AllFit(bodies: seq<Bytes>) {
    forall i :: 0 <= i < |bodies| ==> Fits(bodies[i], MAX_FRAME)
  }

  function Stream(bodies: seq<Bytes>): Bytes
    requires AllFit(bodies)
  {
    if bodies == [] then [] else Framed(bodies[0]) + Stream(bodies[1..])
  }

  /** The messages handled one by one until the request finishes: no buffer, no lengths. */
  function Play(decode: Decoder, c: Client, bodies: seq<Bytes>): Client
    decreases |bodies|
  {
    if bodies == [] || c.phase.Finished? then c else Play(decode, HandleBody(decode, c, bodies[0]), bodies[1..])
  }

  lemma TakeFrameFromStream(decode: Decoder, c: Client, body: Bytes, rest: Bytes)
    requires Fits(body, MAX_FRAME) && c.buffer == Framed(body) + rest
    ensures !Incomplete(c.buffer) && !BadHeader(c.buffer)
    ensures TakeFrame(decode, c) == HandleBody(decode, c.(buffer := rest, consumed := c.consumed + Framed(body)), body)
  {
    hide Framed, Length;
    FramedLength(body, rest);
    assert c.buffer[..HEADER_SIZE + |body|] == Framed(body);
  }

  /**
   * Receiving whole frames, and then either part of one or bytes too late to matter, comes to handling the
   * frames' contents.
   */
  lemma {:induction false} DrainPlays(decode: Decoder, c: Client, bodies: seq<Bytes>, tail: Bytes)
    requires AllFit(bodies) && c.buffer == Stream(bodies) + tail
    requires Incomplete(tail) || Play(decode, Core(c), bodies).phase.Finished?
    ensures Core(Drain(decode, c)) == Play(decode, Core(c), bodies)
    ensures !Drain(decode, c).phase.Finished? ==>
              Drain(decode, c).buffer == tail && Drain(decode, c).consumed == c.consumed + Stream(bodies)
    decreases |bodies|
  {
    hide Incomplete, BadHeader, TakeFrame, HandleBody, Framed;
    if bodies == [] {
      assert c.buffer == tail;
    } else if !c.phase.Finished? {
      var rest := Stream(bodies[1..]) + tail;
      assert c.buffer == Framed(bodies[0]) + rest;
      TakeFrameFromStream(decode, c, bodies[0], rest);
      var next := TakeFrame(decode, c);
      HandleBodyIgnoresBytes(decode, c.(buffer := rest, consumed := c.consumed + Framed(bodies[0])), bodies[0]);
      HandleBodyIgnoresBytes(decode, Core(c), bodies[0]);
      DrainPlays(decode, next, bodies[1..], tail);
      assert c.consumed + Framed(bodies[0]) + Stream(bodies[1..]) == c.consumed + Stream(bodies);
    }
  }

  /** Any cutting of a stream of frames makes the request handle exactly the messages in those frames. */
  lemma StreamIsPlayed(decode: Decoder, c: Client, chunks: seq<Bytes>, bodies: seq<Bytes>, tail: Bytes)
    requires !c.phase.Finished? && c.buffer == []
    requires AllFit(bodies) && Concat(chunks) == Stream(bodies) + tail
    requires Incomplete(tail) || Play(decode, Core(c), bodies).phase.Finished?
    ensures Core(ReceiveAll(decode, c, chunks)) == Play(decode, Core(c), bodies)
  {
    hide Drain, ReceiveAll, Play, Incomplete, Stream;
    EmptyIsIncomplete();
    ChunksDoNotMatter(decode, c, chunks);
    assert c.buffer + Concat(chunks) == Stream(bodies) + tail;
    DrainPlays(decode, c.(buffer := c.buffer + Concat(chunks)), bodies, tail);
  }

  lemma EmptyIsIncomplete()
    ensures Incomplete([])
  {
  }
}
