/** The daemon's side of a connection: reading exactly n bytes, reading a frame, writing a frame. */
module Protocol {
  import opened Wire
  import opened Options

  const MAX_PAYLOAD := 4096
  const MAX_EVENT_PAYLOAD := 64 * 1024

  datatype Failure = Closed | TimedOut | BadLength | BadBody | TooLarge | WriteFailed

  datatype Result<+T> = Ok(value: T) | Err(error: Failure)

  /** What reading one frame gives, and what is left: a matter of the bytes alone. */
  function FrameRead(decode: Decoder, stream: Bytes): (Result<Message>, Bytes) {
    if |stream| < HEADER_SIZE then (Err(Closed), [])
    else
      var length, rest := Length(stream), stream[HEADER_SIZE..];
      if length < 1 || length > MAX_PAYLOAD then (Err(BadLength), rest)
      else if |rest| < length then (Err(Closed), [])
      else
        match decode(rest[..length])
        case None => (Err(BadBody), rest[length..])
        case Some(m) => (Ok(m), rest[length..])
  }

  /** A read times out past its deadline, or, without one, when the socket's timeout has passed in a single wait. */
  predicate TimeIsUp(deadline: Option<int>, timeout: Option<int>, before: int, now: int) {
    if deadline.Some? then now >= deadline.value else timeout.Some? && now >= before + timeout.value
  }

  class Connection {
    /** Bytes the peer sends before it closes, as far as not read yet. */
    var incoming: Bytes
    var sent: Bytes
    var now: int
    /** The socket's own timeout, which every blocking call obeys. */
    var timeout: Option<int>

    ghost predicate Valid()
      reads this
    {
      timeout.Some? ==> timeout.value > 0
    }

    /** At most `size` bytes, none only at the end of the stream; the socket's timeout bounds the blocking. */
    method Recv(size: nat) returns (chunk: Result<Bytes>)
      requires size > 0 && Valid()
      modifies this`incoming, this`now
      ensures now >= old(now)
      ensures chunk.Ok? ==> |chunk.value| <= size && old(incoming) == chunk.value + incoming
      ensures chunk.Ok? && chunk.value == [] ==> old(incoming) == []
      ensures chunk.Ok? && timeout.Some? ==> now <= old(now) + timeout.value
      ensures chunk.Err? ==> chunk.error == TimedOut && timeout.Some? && now >= old(now) + timeout.value
      ensures chunk.Err? ==> incoming == old(incoming)
    {
      var passed: int :| passed >= 0;
      if timeout.Some? && passed > timeout.value {
        now := now + passed;
        return Err(TimedOut);
      }
      now := now + passed;
      if incoming == [] {
        return Ok([]);
      }
      var n: nat :| 1 <= n <= size && n <= |incoming|;
      chunk := Ok(incoming[..n]);
      incoming := incoming[n..];
    }

    /**
     * However the bytes arrive, the result is the first `size` of them. A peer that trickles bytes gains
     * nothing: with a deadline, success means the deadline was met. Without one the socket's own timeout
     * applies to each wait. A failed read has taken fewer than `size` bytes off the stream.
     */
    method ReadExact(size: nat, deadline: Option<int>) returns (r: Result<Bytes>)
      requires Valid()
      modifies this`incoming, this`now, this`timeout
      ensures Valid() && now >= old(now)
      ensures deadline.None? ==> timeout == old(timeout)
      ensures r.Ok? ==> size <= |old(incoming)| && r.value == old(incoming)[..size] && incoming == old(incoming)[size..]
      ensures r.Ok? && size > 0 && deadline.Some? ==> now <= deadline.value
      ensures r.Err? ==> r.error == Closed || r.error == TimedOut
      ensures r.Err? && r.error == Closed ==> |old(incoming)| < size && incoming == []
      ensures r.Err? && r.error == TimedOut ==> TimeIsUp(deadline, old(timeout), old(now), now)
      ensures r.Err? ==>
          exists taken :: 0 <= taken < size && taken <= |old(incoming)| && incoming == old(incoming)[taken..]
    {
      var data: Bytes := [];
      while |data| < size
        invariant Valid() && (deadline.None? ==> timeout == old(timeout))
        invariant |data| <= size
        invariant now >= old(now)
        invariant old(incoming) == data + incoming
        invariant data != [] && deadline.Some? ==> now <= deadline.value
        decreases size - |data|
      {
        if deadline.Some? {
          var remaining := deadline.value - now;
          if remaining <= 0 {
            return Err(TimedOut);
          }
          timeout := Some(remaining);
        }
        assert incoming == old(incoming)[|data|..];
        var chunk := Recv(size - |data|);
        if chunk.Err? {
          return chunk;
        }
        if chunk.value == [] {
          return Err(Closed);
        }
        data := data + chunk.value;
      }
      return Ok(data);
    }

    /** Unless the time is up, the frame read depends on the bytes alone. */
    method ReadFrame(decode: Decoder, deadline: Option<int>) returns (r: Result<Message>)
      requires Valid()
      modifies this`incoming, this`now, this`timeout
      ensures Valid()
      ensures (r, incoming) == FrameRead(decode, old(incoming)) || r == Err(TimedOut)
      ensures r == Err(TimedOut) ==> TimeIsUp(deadline, old(timeout), old(now), now)
    {
      var header := ReadExact(HEADER_SIZE, deadline);
      if header.Err? {
        return Err(header.error);
      }
      var length := Length(header.value);
      if length < 1 || length > MAX_PAYLOAD {
        return Err(BadLength);
      }
      ghost var rest := incoming;
      var body := ReadExact(length, deadline);
      if body.Err? {
        return Err(body.error);
      }
      match decode(body.value) {
        case None => return Err(BadBody);
        case Some(m) => return Ok(m);
      }
    }

    /** Nothing is sent that does not fit; a failing socket may have taken part of the frame. */
    method WriteFrame(body: Bytes, maxPayload: nat) returns (r: Result<()>)
      requires maxPayload < LENGTH_LIMIT
      modifies this`sent
      ensures r == Err(TooLarge) <==> |body| > maxPayload
      ensures r.Ok? ==> sent == old(sent) + Framed(body)
      ensures r == Err(TooLarge) ==> sent == old(sent)
      ensures r.Err? && r.error != TooLarge ==>
                r.error == WriteFailed && exists n :: 0 <= n < |Framed(body)| && sent == old(sent) + Framed(body)[..n]
    {
      if |body| > maxPayload {
        return Err(TooLarge);
      }
      var frame := Framed(body);
      var n: nat :| n <= |frame|;
      sent := sent + frame[..n];
      if n < |frame| {
        return Err(WriteFailed);
      }
      assert frame[..n] == frame;
      return Ok(());
    }
  }

  /** A frame written within the request limit is read back as its message, and nothing beyond it is touched. */
  lemma FrameRoundTrip(decode: Decoder, body: Bytes, rest: Bytes)
    requires Fits(body, MAX_PAYLOAD)
    ensures FrameRead(decode, Framed(body) + rest)
         == (if decode(body).Some? then Ok(decode(body).value) else Err(BadBody), rest)
  {
    FramedLength(body, rest);
    var s := Framed(body) + rest;
    assert s[HEADER_SIZE..][..|body|] == s[HEADER_SIZE..HEADER_SIZE + |body|];
    assert s[HEADER_SIZE..][|body|..] == s[HEADER_SIZE + |body|..];
  }

  /** Only such a frame can be read: a successful read consumed exactly the frame of some body within the limit. */
  lemma OnlyFramesAreRead(decode: Decoder, stream: Bytes)
    requires FrameRead(decode, stream).0.Ok?
    ensures exists body :: && Fits(body, MAX_PAYLOAD)
                           && stream == Framed(body) + FrameRead(decode, stream).1
                           && decode(body) == Some(FrameRead(decode, stream).0.value)
  {
    var length, rest := Length(stream), stream[HEADER_SIZE..];
    var body := rest[..length];
    HeaderOfLength(stream[..HEADER_SIZE]);
    assert Framed(body) == stream[..HEADER_SIZE] + body;
    assert stream == Framed(body) + rest[length..];
  }

  /** Why a read fails: the stream ends early, the length is out of bounds, or the body is no message. */
  lemma ReadFailsExactly(decode: Decoder, stream: Bytes)
    ensures var (r, rest) := FrameRead(decode, stream);
            var whole := |stream| >= 4;
            var length := if whole then Length(stream) else 0;
            && (r == Err(Closed) <==> !whole || (1 <= length <= 4096 && |stream| < 4 + length))
            && (r == Err(BadLength) <==> whole && !(1 <= length <= 4096))
            && (r == Err(BadBody) <==>
                  whole && 1 <= length <= 4096 && |stream| >= 4 + length && decode(stream[4..4 + length]).None?)
            && (r == Err(Closed) ==> rest == [])
            && (r == Err(BadLength) ==> rest == stream[4..])
            && (r.Ok? || r == Err(BadBody) ==> 4 + length <= |stream| && rest == stream[4 + length..])
            && (r.Ok? || r.error in {Closed, BadLength, BadBody})
  {
    hide Length;
    if |stream| >= 4 && 4 + Length(stream) <= |stream| {
      assert stream[4..][..Length(stream)] == stream[4..4 + Length(stream)];
      assert stream[4..][Length(stream)..] == stream[4 + Length(stream)..];
    }
  }
}
