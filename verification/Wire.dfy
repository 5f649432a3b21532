/** Length-prefixed frames and the messages they carry. */
module Wire {
  import opened Options

  type Byte = b: int | 0 <= b < 256

  type Bytes = seq<Byte>

  const HEADER_SIZE := 4
  const LENGTH_LIMIT := 0x1_0000_0000

  /** An unsigned 32-bit number, most significant byte first. */
  function Header(n: nat): (h: Bytes)
    requires n < LENGTH_LIMIT
    ensures |h| == HEADER_SIZE
  {
    [n / 0x100_0000, n / 0x1_0000 % 0x100, n / 0x100 % 0x100, n % 0x100]
  }

  /** The number in the first four bytes. */
  function Length(h: Bytes): nat
    requires |h| >= HEADER_SIZE
  {
    var a: int, b: int, c: int, d: int := h[0], h[1], h[2], h[3];
    a * 0x100_0000 + b * 0x1_0000 + c * 0x100 + d
  }

  lemma LengthOfHeader(n: nat, rest: Bytes)
    requires n < LENGTH_LIMIT
    ensures Length(Header(n) + rest) == n
  {
    var h := Header(n) + rest;
    assert n == n / 0x100 * 0x100 + h[3];
    assert n / 0x100 == n / 0x100 / 0x100 * 0x100 + h[2];
    assert n / 0x100 / 0x100 == n / 0x1_0000;
    assert n / 0x1_0000 == n / 0x1_0000 / 0x100 * 0x100 + h[1];
    assert n / 0x1_0000 / 0x100 == n / 0x100_0000;
  }

  /** Distinct headers have distinct lengths, so a stream can be cut into frames in one way only. */
  lemma HeaderOfLength(h: Bytes)
    requires |h| == HEADER_SIZE
    ensures Length(h) < LENGTH_LIMIT
    ensures Header(Length(h)) == h
  {
    var n := Length(h);
    var a: int, b: int, c: int, d: int := h[0], h[1], h[2], h[3];
    assert n % 0x100 == d && n / 0x100 == a * 0x1_0000 + b * 0x100 + c;
    assert n / 0x1_0000 == n / 0x100 / 0x100 == a * 0x100 + b;
    assert n / 0x100_0000 == n / 0x1_0000 / 0x100 == a;
  }

  predicate Fits(body: Bytes, limit: nat) {
    1 <= |body| <= limit
  }

  function Framed(body: Bytes): (f: Bytes)
    requires |body| < LENGTH_LIMIT
    ensures |f| == HEADER_SIZE + |body|
  {
    Header(|body|) + body
  }

  lemma FramedLength(body: Bytes, rest: Bytes)
    requires |body| < LENGTH_LIMIT
    ensures var s := Framed(body) + rest;
            && Length(s) == |body|
            && s[HEADER_SIZE..HEADER_SIZE + |body|] == body
            && s[HEADER_SIZE + |body|..] == rest
  {
    LengthOfHeader(|body|, body + rest);
    assert Framed(body) + rest == Header(|body|) + (body + rest);
  }

  // ----- messages -----

  /** The value of "request_id"; a missing one is neither text nor null. */
  datatype RequestId = Text(text: string) | NullId | OtherId

  /** The value of "type". */
  datatype Kind = AuthResponse | Started | Frame | Result | OtherKind(name: string)

  /** A JSON object as far as the two sides look at it; `detail` stands for the fields of an event or a result. */
  datatype Message = Message(v: int, kind: Kind, id: RequestId, result: string, detail: string)

  /** Decoding UTF-8 and JSON; None for anything that is not a JSON object. */
  type Decoder = Bytes -> Option<Message>
}
