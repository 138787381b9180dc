/**
 * The status-ping client of the Minecraft Java Edition "Server List Ping": the VarInt codec,
 * the handshake and status-request packets, the parse of the status response, the mapping of
 * every failure onto a `PingError`, the boolean port probe and the extraction of a readable
 * description from the server's description value.
 *
 * The socket is modelled by what happens on it: the outcome of the connect attempt, the
 * outcome of each write, the bytes the server sends back, and whether the response timer
 * fired. UTF-8 decoding, serde's deserialisation and `Value::to_string` are parameters.
 */
module Minecraft {
  import opened Common
  import opened Text

  datatype PingError =
    | Timeout
    | ConnectionRefused
    | NetworkError(detail: string)
    | ProtocolError(detail: string)

  /** A JSON value, as `serde_json::Value` holds it (numbers are integers here). */
  datatype Json =
    | Null
    | Bool(b: bool)
    | Number(n: int)
    | Str(s: string)
    | Array(items: seq<Json>)
    | Object(fields: map<string, Json>)

  /** The fields of the status JSON that the scanner reads. */
  datatype ServerStatus = ServerStatus(versionName: string, playersMax: U32, playersOnline: U32, description: Json)

  // ---------------------------------------------------------------------------------------------
  // VarInt encoding

  function Pow128(k: nat): (r: nat)
    ensures r >= 1
  {
    if k == 0 then 1 else 128 * Pow128(k - 1)
  }

  /**
   * The VarInt bytes of a non-negative value: seven bits per byte, least significant group
   * first, bit 0x80 set on every byte but the last.
   */
  function VarInt(v: nat): seq<Byte>
  {
    if v < 128 then [v] else [v % 128 + 128] + VarInt(v / 128)
  }

  /**
   * `encode_varint`. The source loops while `value & !0x7F` is non-zero and shifts right by 7
   * arithmetically; a negative value stays negative under that shift, so the loop never ends:
   * the value must be a non-negative `i32`. For such values `value & !0x7F == 0` is `value < 128`,
   * `value & 0x7F` is `value % 128` and `value >>= 7` is `value / 128`.
   */
  method EncodeVarInt(value: int) returns (out: seq<Byte>)
    requires 0 <= value < 0x8000_0000
    ensures out == VarInt(value)
  {
    out := [];
    var v := value;
    while true
      invariant 0 <= v
      invariant out + VarInt(v) == VarInt(value)
      decreases v
    {
      if v < 128 {
        out := out + [v];
        return;
      }
      EmitGroup(out, v, out + [v % 128 + 128], v / 128);
      out := out + [v % 128 + 128];
      v := v / 128;
    }
  }

  /** Emitting the low seven bits with the continuation bit leaves the rest of the encoding to write. */
  lemma EmitGroup(out: seq<Byte>, v: nat, out': seq<Byte>, v': nat)
    requires v >= 128 && out' == out + [v % 128 + 128] && v' == v / 128
    ensures out' + VarInt(v') == out + VarInt(v)
  {
    assert VarInt(v) == [v % 128 + 128] + VarInt(v');
  }

  /** Every byte but the last carries the continuation bit; the last does not. */
  lemma {:induction false} VarIntContinuationBits(v: nat)
    ensures |VarInt(v)| >= 1
    ensures forall i :: 0 <= i < |VarInt(v)| - 1 ==> VarInt(v)[i] >= 128
    ensures VarInt(v)[|VarInt(v)| - 1] < 128
    ensures v < 128 <==> VarInt(v) == [v]
  {
    if v >= 128 {
      VarIntContinuationBits(v / 128);
    }
  }

  /** A value below `128^k` takes at most `k` bytes. */
  lemma {:induction false} VarIntLengthBound(v: nat, k: nat)
    requires 1 <= k && v < Pow128(k)
    ensures |VarInt(v)| <= k
  {
    if v >= 128 {
      assert k >= 2;
      VarIntLengthBound(v / 128, k - 1);
    }
  }

  /** Every non-negative `i32` encodes to one to five bytes. */
  lemma VarIntOfI32(v: nat)
    requires v < 0x8000_0000
    ensures 1 <= |VarInt(v)| <= 5
  {
    assert Pow128(5) == 0x8_0000_0000;
    VarIntLengthBound(v, 5);
  }

  // ---------------------------------------------------------------------------------------------
  // VarInt decoding

  datatype VarIntFailure =
    | EndOfStream     // `read_exact` ran out of bytes
    | TooBig          // a sixth byte was read: "VarInt too big"
    | ShiftOverflow   // `<<` by 32 or more, which panics where overflow checks are on

  datatype VarIntRead = Read(value: int, next: nat) | Failed(failure: VarIntFailure)

  /** An `i32` from its 32 low bits (two's complement). */
  function ToI32(x: nat): int
    requires x < U32_MODULUS
  {
    if x < 0x8000_0000 then x else x - U32_MODULUS
  }

  /** The groups of a VarInt read as an unbounded number, or why the read stopped. */
  datatype RawRead = RawRead(sum: nat, next: nat) | RawFailed(failure: VarIntFailure)

  /**
   * The bytes of `read_varint_async` from position `pos`, when `numRead` bytes are already
   * read: the stream ending is checked first, then the count (`num_read > 5` after the
   * increment), then the continuation bit. The value of the groups from `pos` on is the low
   * seven bits of this byte plus 128 times the value of the rest.
   */
  function DecodeRaw(s: seq<Byte>, pos: nat, numRead: nat): RawRead
    requires numRead <= 5
    decreases 5 - numRead
  {
    if pos >= |s| then RawFailed(EndOfStream)
    else if numRead + 1 > 5 then RawFailed(TooBig)
    else if s[pos] < 128 then RawRead(s[pos], pos + 1)
    else
      match DecodeRaw(s, pos + 1, numRead + 1)
      case RawFailed(f) => RawFailed(f)
      case RawRead(sum, next) => RawRead(s[pos] % 128 + 128 * sum, next)
  }

  /**
   * The value `read_varint_async` returns: each byte ORs `(byte & 0x7F) << 7 * numRead` into an
   * `i32`; the groups never overlap, so the ORs add up, and the bits an `i32` cannot hold
   * are lost, which is the sum modulo 2^32 read as two's complement.
   */
  function DecodeVarInt(s: seq<Byte>, pos: nat): VarIntRead
  {
    match DecodeRaw(s, pos, 0)
    case RawFailed(f) => Failed(f)
    case RawRead(sum, next) => Read(ToI32(sum % U32_MODULUS), next)
  }

  /** The value the low seven bits of byte number `numRead` contribute: `(byte & 0x7F) << 7 * numRead`. */
  function Group(b: Byte, numRead: nat): nat
  {
    (b % 128) * Pow128(numRead)
  }

  /** What the loop below returns, given the value `result` of the `numRead` bytes before `raw`. */
  function Resume(result: nat, numRead: nat, raw: RawRead): VarIntRead
  {
    match raw
    case RawFailed(f) => Failed(f)
    case RawRead(sum, next) => Read(ToI32((result + Pow128(numRead) * sum) % U32_MODULUS), next)
  }

  /** One byte with the continuation bit moves its group from the raw read into `result`. */
  lemma ResumeContinue(s: seq<Byte>, p: nat, numRead: nat, result: nat)
    requires p < |s| && numRead < 5 && s[p] >= 128
    ensures Resume(result, numRead, DecodeRaw(s, p, numRead))
         == Resume(result + Group(s[p], numRead), numRead + 1, DecodeRaw(s, p + 1, numRead + 1))
  {
    var rest := DecodeRaw(s, p + 1, numRead + 1);
    if rest.RawRead? {
      var low, sum, q := s[p] % 128, rest.sum, Pow128(numRead);
      assert Pow128(numRead + 1) == 128 * q;
      assert q * (low + 128 * sum) == low * q + (128 * q) * sum;
    }
  }

  /** The last byte completes the value. */
  lemma ResumeLast(s: seq<Byte>, p: nat, numRead: nat, result: nat)
    requires p < |s| && numRead < 5 && s[p] < 128
    ensures Resume(result, numRead, DecodeRaw(s, p, numRead))
         == Read(ToI32((result + Group(s[p], numRead)) % U32_MODULUS), p + 1)
  {
    var b, q := s[p], Pow128(numRead);
    assert DecodeRaw(s, p, numRead) == RawRead(b, p + 1);
    assert b % 128 == b;
    assert q * b == b * q;
  }

  /** `read_varint_async`, reading the stream `s` from position `pos`. */
  method ReadVarInt(s: seq<Byte>, pos: nat) returns (r: VarIntRead)
    ensures r == DecodeVarInt(s, pos)
  {
    var numRead: nat := 0;
    var result: nat := 0;
    var p: nat := pos;
    while true
      invariant numRead <= 5
      invariant Resume(result, numRead, DecodeRaw(s, p, numRead)) == DecodeVarInt(s, pos)
      decreases 5 - numRead
    {
      if p >= |s| {
        return Failed(EndOfStream);
      }
      var b := s[p];
      if numRead < 5 {
        if b >= 128 {
          ResumeContinue(s, p, numRead, result);
        } else {
          ResumeLast(s, p, numRead, result);
        }
      }
      p := p + 1;
      result := result + Group(b, numRead);
      numRead := numRead + 1;
      if numRead > 5 {
        return Failed(TooBig);
      }
      if b < 128 {
        return Read(ToI32(result % U32_MODULUS), p);
      }
    }
  }

  /** The raw read of an encoded value gives the value and stops right after its bytes. */
  lemma {:induction false} DecodeRawEncoded(s: seq<Byte>, pos: nat, k: nat, v: nat, rest: seq<Byte>)
    requires k <= 5 && |VarInt(v)| <= 5 - k
    requires pos <= |s| && s[pos..] == VarInt(v) + rest
    ensures DecodeRaw(s, pos, k) == RawRead(v, pos + |VarInt(v)|)
    decreases v
  {
    VarIntContinuationBits(v);
    assert s[pos] == VarInt(v)[0];
    if v >= 128 {
      var tail := VarInt(v / 128);
      assert VarInt(v) == [v % 128 + 128] + tail;
      assert s[pos + 1..] == tail + rest;
      DecodeRawEncoded(s, pos + 1, k + 1, v / 128, rest);
    }
  }

  /** Decoding the encoding of a non-negative `i32` gives it back and consumes exactly its bytes. */
  lemma VarIntRoundTrip(s: seq<Byte>, pos: nat, v: nat, rest: seq<Byte>)
    requires v < 0x8000_0000
    requires pos <= |s| && s[pos..] == VarInt(v) + rest
    ensures DecodeVarInt(s, pos) == Read(v, pos + |VarInt(v)|)
  {
    VarIntOfI32(v);
    DecodeRawEncoded(s, pos, 0, v, rest);
  }

  /** A sixth byte after five with the continuation bit is refused as "VarInt too big". */
  lemma TooBigAfterFiveContinuationBytes(s: seq<Byte>, pos: nat)
    requires pos + 6 <= |s|
    requires forall j :: pos <= j < pos + 5 ==> s[j] >= 128
    ensures DecodeVarInt(s, pos) == Failed(TooBig)
  {
    ContinuationRun(s, pos, 0);
  }

  lemma {:induction false} ContinuationRun(s: seq<Byte>, pos: nat, k: nat)
    requires k <= 5 && pos + 6 <= |s|
    requires forall j :: pos <= j < pos + 5 ==> s[j] >= 128
    ensures DecodeRaw(s, pos + k, k) == RawFailed(TooBig)
    decreases 5 - k
  {
    if k < 5 {
      assert s[pos + k] >= 128;
      ContinuationRun(s, pos, k + 1);
    }
  }

  // The decoder as written, in a build with overflow checks: the shift `<< 7 * num_read` on
  // line 231 runs before the `num_read > 5` guard on line 233, so a sixth byte shifts an `i32`
  // by 35 and panics instead of reaching the guard.

  function DecodeRawDebug(s: seq<Byte>, pos: nat, numRead: nat): RawRead
    requires numRead <= 5
    decreases 5 - numRead
  {
    if pos >= |s| then RawFailed(EndOfStream)
    else if 7 * numRead >= 32 then RawFailed(ShiftOverflow)
    else if numRead + 1 > 5 then RawFailed(TooBig)
    else if s[pos] < 128 then RawRead(s[pos], pos + 1)
    else
      match DecodeRawDebug(s, pos + 1, numRead + 1)
      case RawFailed(f) => RawFailed(f)
      case RawRead(sum, next) => RawRead(s[pos] % 128 + 128 * sum, next)
  }

  function DecodeVarIntDebug(s: seq<Byte>, pos: nat): VarIntRead
  {
    match DecodeRawDebug(s, pos, 0)
    case RawFailed(f) => Failed(f)
    case RawRead(sum, next) => Read(ToI32(sum % U32_MODULUS), next)
  }

  /** The two decoders agree on every stream except where the guard should have refused a sixth byte. */
  lemma {:induction false} DebugDecoderDiffersOnlyOnSixthByte(s: seq<Byte>, pos: nat, k: nat)
    requires k <= 5
    ensures DecodeRawDebug(s, pos, k) ==
      if DecodeRaw(s, pos, k) == RawFailed(TooBig) then RawFailed(ShiftOverflow) else DecodeRaw(s, pos, k)
    decreases 5 - k
  {
    if pos < |s| && k < 5 && s[pos] >= 128 {
      DebugDecoderDiffersOnlyOnSixthByte(s, pos + 1, k + 1);
    }
  }

  /** Six bytes 0x80: the guard's error is intended, the shift overflow comes first. */
  lemma SixthByteShiftOverflows()
    ensures DecodeVarInt([0x80, 0x80, 0x80, 0x80, 0x80, 0x80], 0) == Failed(TooBig)
    ensures DecodeVarIntDebug([0x80, 0x80, 0x80, 0x80, 0x80, 0x80], 0) == Failed(ShiftOverflow)
  {
    var s: seq<Byte> := [0x80, 0x80, 0x80, 0x80, 0x80, 0x80];
    TooBigAfterFiveContinuationBytes(s, 0);
    DebugDecoderDiffersOnlyOnSixthByte(s, 0, 0);
  }

  // ---------------------------------------------------------------------------------------------
  // Handshake and status request

  const STATUS_REQUEST: seq<Byte> := [0x01, 0x00]

  /** What `encode_varint` and the `as i32` casts need: a non-negative protocol version and short lengths. */
  predicate HandshakeEncodable(protocolVersion: int, ip: seq<Byte>)
  {
    0 <= protocolVersion < 0x8000_0000 && |ip| + 16 < 0x8000_0000
  }

  /** Packet id 0, protocol version, address length and bytes, big-endian port, next state 1. */
  function HandshakeBody(protocolVersion: nat, ip: seq<Byte>, port: U16): (r: seq<Byte>)
  {
    [0x00] + (VarInt(protocolVersion) + (VarInt(|ip|) + (ip + [port / 256, port % 256, 0x01])))
  }

  /** The body behind a VarInt giving its length. */
  function HandshakeFrame(protocolVersion: nat, ip: seq<Byte>, port: U16): (r: seq<Byte>)
  {
    var body := HandshakeBody(protocolVersion, ip, port);
    VarInt(|body|) + body
  }

  /** Builds `packet_to_send` by pushes, as the client does before writing it. */
  method BuildHandshake(protocolVersion: int, ip: seq<Byte>, port: U16) returns (packet: seq<Byte>)
    requires HandshakeEncodable(protocolVersion, ip)
    ensures packet == HandshakeFrame(protocolVersion, ip, port)
  {
    var handshake: seq<Byte> := [0x00];
    var versionBytes := EncodeVarInt(protocolVersion);
    handshake := handshake + versionBytes;
    var lengthBytes := EncodeVarInt(|ip|);
    handshake := handshake + lengthBytes;
    handshake := handshake + ip;
    handshake := handshake + [port / 256];
    handshake := handshake + [port % 256];
    handshake := handshake + [0x01];
    VarIntOfI32(protocolVersion);
    VarIntOfI32(|ip|);
    assert handshake == HandshakeBody(protocolVersion, ip, port);
    var prefix := EncodeVarInt(|handshake|);
    packet := prefix + handshake;
  }

  /** The handshake fields as a server reads them back. */
  datatype Handshake = Handshake(protocolVersion: int, address: seq<Byte>, port: U16, nextState: Byte)

  /**
   * A server's reading of one length-prefixed handshake at the start of `data`: the handshake
   * and the position just after its frame.
   */
  function ParseHandshake(data: seq<Byte>): Option<(Handshake, nat)>
  {
    match DecodeVarInt(data, 0)
    case Failed(_) => None
    case Read(len, p0) =>
      if len < 0 || p0 + len > |data| then None
      else
        match ParseHandshakeBody(data[p0..p0 + len])
        case None => None
        case Some(h) => Some((h, p0 + len))
  }

  /** The handshake packet itself: id 0, two VarInts, the address bytes, the port, the next state. */
  function ParseHandshakeBody(body: seq<Byte>): Option<Handshake>
  {
    if |body| == 0 || body[0] != 0x00 then None
    else
      match DecodeVarInt(body, 1)
      case Failed(_) => None
      case Read(version, p1) =>
        match DecodeVarInt(body, p1)
        case Failed(_) => None
        case Read(n, p2) =>
          if n < 0 || p2 + n + 3 != |body| then None
          else Some(Handshake(version, body[p2..p2 + n], BigEndian16(body[p2 + n], body[p2 + n + 1]), body[p2 + n + 2]))
  }

  function BigEndian16(hi: Byte, lo: Byte): (r: U16)
    ensures r / 256 == hi && r % 256 == lo
  {
    hi * 256 + lo
  }

  /**
   * What the client sends can be read back: the protocol version, the address bytes and the
   * port, next state 1, and after the frame exactly the status request `[0x01, 0x00]`.
   */
  lemma HandshakeRoundTrip(protocolVersion: nat, ip: seq<Byte>, port: U16)
    requires HandshakeEncodable(protocolVersion, ip)
    ensures var sent := HandshakeFrame(protocolVersion, ip, port) + STATUS_REQUEST;
      ParseHandshake(sent) == Some((Handshake(protocolVersion, ip, port, 0x01), |sent| - 2))
      && sent[|sent| - 2..] == STATUS_REQUEST
  {
    var body := HandshakeBody(protocolVersion, ip, port);
    var sent := HandshakeFrame(protocolVersion, ip, port) + STATUS_REQUEST;
    HandshakeBodyLength(protocolVersion, ip, port);
    var prefix := VarInt(|body|);
    assert sent[0..] == prefix + (body + STATUS_REQUEST);
    VarIntRoundTrip(sent, 0, |body|, body + STATUS_REQUEST);
    assert sent[|prefix|..|prefix| + |body|] == body;
    HandshakeBodyParses(protocolVersion, ip, port, body);
    ParseAfterLength(sent, |body|, |prefix|, body, Handshake(protocolVersion, ip, port, 0x01));
  }

  lemma HandshakeBodyLength(protocolVersion: nat, ip: seq<Byte>, port: U16)
    requires HandshakeEncodable(protocolVersion, ip)
    ensures |HandshakeBody(protocolVersion, ip, port)| < 0x8000_0000
  {
    VarIntOfI32(protocolVersion);
    VarIntOfI32(|ip|);
  }

  /** The frame's length prefix read, the body alone decides the parse. */
  lemma ParseAfterLength(data: seq<Byte>, len: nat, p0: nat, body: seq<Byte>, h: Handshake)
    requires DecodeVarInt(data, 0) == Read(len, p0) && p0 + len <= |data| && body == data[p0..p0 + len]
    requires ParseHandshakeBody(body) == Some(h)
    ensures ParseHandshake(data) == Some((h, p0 + len))
  {
  }

  /** The packet built by the client parses back to its fields. */
  lemma HandshakeBodyParses(protocolVersion: nat, ip: seq<Byte>, port: U16, body: seq<Byte>)
    requires HandshakeEncodable(protocolVersion, ip)
    requires body == HandshakeBody(protocolVersion, ip, port)
    ensures ParseHandshakeBody(body) == Some(Handshake(protocolVersion, ip, port, 0x01))
  {
    var p1, p2 := HandshakeBodyVarInts(protocolVersion, ip, port, body);
    assert BigEndian16(port / 256, port % 256) == port;
    ParseBodyAfterVarInts(body, protocolVersion, p1, |ip|, p2);
  }

  /** Where the two VarInts of the packet end, and what follows them. */
  lemma HandshakeBodyVarInts(protocolVersion: nat, ip: seq<Byte>, port: U16, body: seq<Byte>) returns (p1: nat, p2: nat)
    requires HandshakeEncodable(protocolVersion, ip)
    requires body == HandshakeBody(protocolVersion, ip, port)
    ensures |body| > 0 && body[0] == 0x00
    ensures DecodeVarInt(body, 1) == Read(protocolVersion, p1) && DecodeVarInt(body, p1) == Read(|ip|, p2)
    ensures p2 + |ip| + 3 == |body| && body[p2..p2 + |ip|] == ip
    ensures body[p2 + |ip|] == port / 256 && body[p2 + |ip| + 1] == port % 256 && body[p2 + |ip| + 2] == 0x01
  {
    var vBytes, nBytes := VarInt(protocolVersion), VarInt(|ip|);
    var tail: seq<Byte> := [port / 256, port % 256, 0x01];
    p1 := 1 + |vBytes|;
    p2 := p1 + |nBytes|;
    HandshakeVersion(protocolVersion, ip, body, nBytes + (ip + tail));
    HandshakeAddressLength(protocolVersion, ip, body, p1, ip + tail);
    BodyFields(body, p2, ip, tail);
  }

  lemma HandshakeVersion(protocolVersion: nat, ip: seq<Byte>, body: seq<Byte>, rest: seq<Byte>)
    requires HandshakeEncodable(protocolVersion, ip)
    requires body == [0x00] + (VarInt(protocolVersion) + rest)
    ensures DecodeVarInt(body, 1) == Read(protocolVersion, 1 + |VarInt(protocolVersion)|)
  {
    VarIntAfterPrefix(body, 1, [0x00], protocolVersion, rest);
  }

  lemma HandshakeAddressLength(protocolVersion: nat, ip: seq<Byte>, body: seq<Byte>, p1: nat, rest: seq<Byte>)
    requires HandshakeEncodable(protocolVersion, ip)
    requires body == [0x00] + (VarInt(protocolVersion) + (VarInt(|ip|) + rest))
    requires p1 == 1 + |VarInt(protocolVersion)|
    ensures DecodeVarInt(body, p1) == Read(|ip|, p1 + |VarInt(|ip|)|)
    ensures body[p1 + |VarInt(|ip|)|..] == rest
  {
    var head := [0x00] + VarInt(protocolVersion);
    assert body == head + (VarInt(|ip|) + rest);
    VarIntAfterPrefix(body, p1, head, |ip|, rest);
    assert body[p1..] == VarInt(|ip|) + rest;
    assert body[p1 + |VarInt(|ip|)|..] == body[p1..][|VarInt(|ip|)|..];
  }

  lemma BodyFields(body: seq<Byte>, p2: nat, ip: seq<Byte>, tail: seq<Byte>)
    requires p2 <= |body| && body[p2..] == ip + tail && |tail| == 3
    ensures body[p2..p2 + |ip|] == ip
    ensures body[p2 + |ip|] == tail[0] && body[p2 + |ip| + 1] == tail[1] && body[p2 + |ip| + 2] == tail[2]
  {
    assert body[p2..p2 + |ip|] == body[p2..][..|ip|];
    assert body[p2 + |ip|] == body[p2..][|ip|];
    assert body[p2 + |ip| + 1] == body[p2..][|ip| + 1];
    assert body[p2 + |ip| + 2] == body[p2..][|ip| + 2];
  }

  /** Once both VarInts of the body are read, the rest is the address, the port and the next state. */
  lemma ParseBodyAfterVarInts(body: seq<Byte>, version: int, p1: nat, n: nat, p2: nat)
    requires |body| > 0 && body[0] == 0x00
    requires DecodeVarInt(body, 1) == Read(version, p1) && DecodeVarInt(body, p1) == Read(n, p2)
    requires p2 + n + 3 == |body|
    ensures ParseHandshakeBody(body) ==
      Some(Handshake(version, body[p2..p2 + n], BigEndian16(body[p2 + n], body[p2 + n + 1]), body[p2 + n + 2]))
  {
  }


  // ---------------------------------------------------------------------------------------------
  // Status response

  const EARLY_EOF: string := "early eof"

  function FailureText(f: VarIntFailure): string
  {
    match f
    case EndOfStream => EARLY_EOF
    case TooBig => "VarInt too big"
    case ShiftOverflow => "attempt to shift left with overflow"
  }

  /**
   * `json_length as usize` turns a negative length into a huge allocation that aborts; the
   * model admits only streams whose JSON length, when it decodes, is not negative.
   */
  predicate JsonLengthNonNegative(s: seq<Byte>)
  {
    match DecodeVarInt(s, 0)
    case Failed(_) => true
    case Read(_, p1) =>
      match DecodeVarInt(s, p1)
      case Failed(_) => true
      case Read(_, p2) =>
        match DecodeVarInt(s, p2)
        case Failed(_) => true
        case Read(len, _) => len >= 0
  }

  /**
   * The response read: packet length and packet id (both discarded), JSON length, exactly that
   * many bytes, then UTF-8 and JSON decoding. VarInt failures are protocol errors, a short
   * payload is a network error.
   */
  function StatusResponse(s: seq<Byte>, utf8: seq<Byte> -> Result<string, string>,
                          deserialize: string -> Result<ServerStatus, string>): (r: Result<ServerStatus, PingError>)
    requires JsonLengthNonNegative(s)
  {
    match DecodeVarInt(s, 0)
    case Failed(f) => Err(ProtocolError(FailureText(f)))
    case Read(_, p1) =>
      match DecodeVarInt(s, p1)
      case Failed(f) => Err(ProtocolError(FailureText(f)))
      case Read(_, p2) =>
        match DecodeVarInt(s, p2)
        case Failed(f) => Err(ProtocolError(FailureText(f)))
        case Read(len, p3) => Payload(s, p3, len, utf8, deserialize)
  }

  /** `read_exact` of `len` bytes from `p3`, then the payload's decoding. */
  function Payload(s: seq<Byte>, p3: nat, len: nat, utf8: seq<Byte> -> Result<string, string>,
                   deserialize: string -> Result<ServerStatus, string>): (r: Result<ServerStatus, PingError>)
  {
    if p3 + len > |s| then Err(NetworkError(EARLY_EOF)) else DecodePayload(s[p3..p3 + len], utf8, deserialize)
  }

  /** UTF-8 first, then the status JSON; each failure is a protocol error carrying the decoder's own text. */
  function DecodePayload(buffer: seq<Byte>, utf8: seq<Byte> -> Result<string, string>,
                         deserialize: string -> Result<ServerStatus, string>): (r: Result<ServerStatus, PingError>)
  {
    match utf8(buffer)
    case Err(e) => Err(ProtocolError(e))
    case Ok(text) =>
      match deserialize(text)
      case Err(e) => Err(ProtocolError(e))
      case Ok(status) => Ok(status)
  }

  /** The body of the response timeout: three VarInt reads, `read_exact`, then decoding. */
  method ReadStatusResponse(s: seq<Byte>, utf8: seq<Byte> -> Result<string, string>,
                            deserialize: string -> Result<ServerStatus, string>) returns (r: Result<ServerStatus, PingError>)
    requires JsonLengthNonNegative(s)
    ensures r == StatusResponse(s, utf8, deserialize)
  {
    var packetLength := ReadVarInt(s, 0);
    if packetLength.Failed? {
      return Err(ProtocolError(FailureText(packetLength.failure)));
    }
    var packetId := ReadVarInt(s, packetLength.next);
    if packetId.Failed? {
      return Err(ProtocolError(FailureText(packetId.failure)));
    }
    var jsonLength := ReadVarInt(s, packetId.next);
    if jsonLength.Failed? {
      return Err(ProtocolError(FailureText(jsonLength.failure)));
    }
    ResponseAfterHeader(s, packetLength.next, packetId.next, jsonLength.next,
                        packetLength.value, packetId.value, jsonLength.value, utf8, deserialize);
    r := ReadPayload(s, jsonLength.next, jsonLength.value, utf8, deserialize);
  }

  /** `read_exact` into a buffer of `len` bytes, then `String::from_utf8` and `serde_json::from_str`. */
  method ReadPayload(s: seq<Byte>, start: nat, len: nat, utf8: seq<Byte> -> Result<string, string>,
                     deserialize: string -> Result<ServerStatus, string>) returns (r: Result<ServerStatus, PingError>)
    ensures r == Payload(s, start, len, utf8, deserialize)
  {
    if start + len > |s| {
      return Err(NetworkError(EARLY_EOF));
    }
    var buffer := s[start..start + len];
    var text := utf8(buffer);
    if text.Err? {
      return Err(ProtocolError(text.error));
    }
    var status := deserialize(text.value);
    if status.Err? {
      return Err(ProtocolError(status.error));
    }
    r := Ok(status.value);
  }

  /** A VarInt after any prefix decodes to its value. */
  lemma VarIntAfterPrefix(s: seq<Byte>, pos: nat, prefix: seq<Byte>, v: nat, rest: seq<Byte>)
    requires v < 0x8000_0000
    requires s == prefix + (VarInt(v) + rest) && pos == |prefix|
    ensures DecodeVarInt(s, pos) == Read(v, pos + |VarInt(v)|)
  {
    assert s[pos..] == VarInt(v) + rest;
    VarIntRoundTrip(s, pos, v, rest);
  }

  /** Once the three VarInts are read, the payload alone decides the result. */
  lemma ResponseAfterHeader(s: seq<Byte>, p1: nat, p2: nat, p3: nat, packetLength: int, packetId: int, jsonLength: nat,
                            utf8: seq<Byte> -> Result<string, string>, deserialize: string -> Result<ServerStatus, string>)
    requires DecodeVarInt(s, 0) == Read(packetLength, p1)
    requires DecodeVarInt(s, p1) == Read(packetId, p2)
    requires DecodeVarInt(s, p2) == Read(jsonLength, p3)
    ensures JsonLengthNonNegative(s)
    ensures StatusResponse(s, utf8, deserialize) == Payload(s, p3, jsonLength, utf8, deserialize)
  {
  }

  /** The header read and the payload in place, a payload that decodes gives its status. */
  lemma ResponseOfPayload(s: seq<Byte>, p1: nat, p2: nat, p3: nat, packetLength: int, packetId: int, payload: seq<Byte>,
                          utf8: seq<Byte> -> Result<string, string>, deserialize: string -> Result<ServerStatus, string>,
                          text: string, status: ServerStatus)
    requires DecodeVarInt(s, 0) == Read(packetLength, p1)
    requires DecodeVarInt(s, p1) == Read(packetId, p2)
    requires DecodeVarInt(s, p2) == Read(|payload|, p3)
    requires p3 <= |s| && |payload| <= |s| - p3 && s[p3..][..|payload|] == payload
    requires utf8(payload) == Ok(text) && deserialize(text) == Ok(status)
    ensures JsonLengthNonNegative(s) && StatusResponse(s, utf8, deserialize) == Ok(status)
  {
    assert s[p3..p3 + |payload|] == s[p3..][..|payload|];
    ResponseAfterHeader(s, p1, p2, p3, packetLength, packetId, |payload|, utf8, deserialize);
  }

  /** The bytes of a status response: packet length, packet id, JSON length, the JSON, then anything. */
  function ResponseBytes(packetLength: nat, packetId: nat, jsonLength: nat, rest: seq<Byte>): seq<Byte>
  {
    VarInt(packetLength) + (VarInt(packetId) + (VarInt(jsonLength) + rest))
  }

  /** Where the JSON starts in `ResponseBytes`, with the three VarInts read. */
  lemma ResponseBytesHeader(packetLength: nat, packetId: nat, jsonLength: nat, rest: seq<Byte>) returns (p1: nat, p2: nat, p3: nat)
    requires packetLength < 0x8000_0000 && packetId < 0x8000_0000 && jsonLength < 0x8000_0000
    ensures var s := ResponseBytes(packetLength, packetId, jsonLength, rest);
      DecodeVarInt(s, 0) == Read(packetLength, p1) && DecodeVarInt(s, p1) == Read(packetId, p2)
      && DecodeVarInt(s, p2) == Read(jsonLength, p3) && p3 <= |s| && s[p3..] == rest
  {
    var a, b, c := VarInt(packetLength), VarInt(packetId), VarInt(jsonLength);
    var s := ResponseBytes(packetLength, packetId, jsonLength, rest);
    p1, p2, p3 := |a|, |a| + |b|, |a| + |b| + |c|;
    assert s == [] + (a + (b + (c + rest)));
    VarIntAfterPrefix(s, 0, [], packetLength, b + (c + rest));
    VarIntAfterPrefix(s, p1, a, packetId, c + rest);
    assert s == (a + b) + (c + rest);
    VarIntAfterPrefix(s, p2, a + b, jsonLength, rest);
    assert s[p3..] == rest;
  }

  /** A well-formed status response decodes to the status its JSON payload describes. */
  lemma StatusResponseRoundTrip(packetLength: nat, packetId: nat, payload: seq<Byte>, trailer: seq<Byte>,
                                utf8: seq<Byte> -> Result<string, string>, deserialize: string -> Result<ServerStatus, string>,
                                text: string, status: ServerStatus)
    requires packetLength < 0x8000_0000 && packetId < 0x8000_0000 && |payload| < 0x8000_0000
    requires utf8(payload) == Ok(text) && deserialize(text) == Ok(status)
    ensures var s := ResponseBytes(packetLength, packetId, |payload|, payload + trailer);
      JsonLengthNonNegative(s) && StatusResponse(s, utf8, deserialize) == Ok(status)
  {
    var s := ResponseBytes(packetLength, packetId, |payload|, payload + trailer);
    var p1, p2, p3 := ResponseBytesHeader(packetLength, packetId, |payload|, payload + trailer);
    ResponseOfPayload(s, p1, p2, p3, packetLength, packetId, payload, utf8, deserialize, text, status);
  }

  /** A response that ends before its announced JSON length is a network error, not a protocol error. */
  lemma ShortPayloadIsNetworkError(packetLength: nat, packetId: nat, announced: nat, payload: seq<Byte>,
                                   utf8: seq<Byte> -> Result<string, string>, deserialize: string -> Result<ServerStatus, string>)
    requires packetLength < 0x8000_0000 && packetId < 0x8000_0000 && announced < 0x8000_0000
    requires |payload| < announced
    ensures var s := ResponseBytes(packetLength, packetId, announced, payload);
      JsonLengthNonNegative(s) && StatusResponse(s, utf8, deserialize) == Err(NetworkError(EARLY_EOF))
  {
    var s := ResponseBytes(packetLength, packetId, announced, payload);
    var p1, p2, p3 := ResponseBytesHeader(packetLength, packetId, announced, payload);
    ResponseAfterHeader(s, p1, p2, p3, packetLength, packetId, announced, utf8, deserialize);
  }

  // ---------------------------------------------------------------------------------------------
  // Connecting, probing and pinging

  datatype IoErrorKind = RefusedKind | TimedOutKind | AddrInUseKind | OtherKind

  /** How a connect attempt ended: connected, an I/O error (kind and text), or the timer elapsed. */
  datatype ConnectOutcome = Connected | IoFailure(kind: IoErrorKind, text: string) | Elapsed

  /** The error a failed connect of the status ping turns into. */
  function ConnectError(c: ConnectOutcome): (e: PingError)
    requires !c.Connected?
    ensures e == Timeout <==> c.Elapsed? || c.kind == TimedOutKind
    ensures e == ConnectionRefused <==> c.IoFailure? && c.kind == RefusedKind
    ensures e.NetworkError? <==> c.IoFailure? && (c.kind == AddrInUseKind || c.kind == OtherKind)
    ensures !e.ProtocolError?
    ensures c.IoFailure? && c.kind == AddrInUseKind ==> e == NetworkError("Port in use")
    ensures c.IoFailure? && c.kind == OtherKind ==> e == NetworkError(c.text)
  {
    match c
    case Elapsed => Timeout
    case IoFailure(kind, text) =>
      (match kind
       case RefusedKind => ConnectionRefused
       case TimedOutKind => Timeout
       case AddrInUseKind => NetworkError("Port in use")
       case OtherKind => NetworkError(text))
  }

  /** `quick_port_check`: every failure, timeout included, reads as "closed"; it never fails. */
  function QuickPortCheck(c: ConnectOutcome): (r: Result<bool, PingError>)
    ensures r.Ok?
    ensures r.value <==> c.Connected?
  {
    match c
    case Connected => Ok(true)
    case IoFailure(kind, _) =>
      (match kind
       case RefusedKind => Ok(false)
       case TimedOutKind => Ok(false)
       case AddrInUseKind => Ok(false)
       case OtherKind => Ok(false))
    case Elapsed => Ok(false)
  }

  /**
   * `ping_server_fast`. `sent` is what the completed writes put on the wire. A write error
   * (`Some(text)`) is a network error; the response phase either times out or reads `response`.
   */
  method PingServerFast(ip: seq<Byte>, port: U16, protocolVersion: int, connect: ConnectOutcome,
                        handshakeWriteError: Option<string>, requestWriteError: Option<string>,
                        response: seq<Byte>, responseTimedOut: bool,
                        utf8: seq<Byte> -> Result<string, string>, deserialize: string -> Result<ServerStatus, string>)
    returns (sent: seq<Byte>, r: Result<ServerStatus, PingError>)
    requires HandshakeEncodable(protocolVersion, ip)
    requires !responseTimedOut ==> JsonLengthNonNegative(response)
    ensures !connect.Connected? ==> sent == [] && r == Err(ConnectError(connect))
    ensures connect.Connected? && handshakeWriteError.Some? ==>
      sent == [] && r == Err(NetworkError(handshakeWriteError.value))
    ensures connect.Connected? && handshakeWriteError.None? && requestWriteError.Some? ==>
      sent == HandshakeFrame(protocolVersion, ip, port) && r == Err(NetworkError(requestWriteError.value))
    ensures connect.Connected? && handshakeWriteError.None? && requestWriteError.None? ==>
      sent == HandshakeFrame(protocolVersion, ip, port) + STATUS_REQUEST
      && r == if responseTimedOut then Err(Timeout) else StatusResponse(response, utf8, deserialize)
  {
    sent := [];
    if !connect.Connected? {
      return sent, Err(ConnectError(connect));
    }
    var packet := BuildHandshake(protocolVersion, ip, port);
    if handshakeWriteError.Some? {
      return sent, Err(NetworkError(handshakeWriteError.value));
    }
    sent := sent + packet;
    if requestWriteError.Some? {
      return sent, Err(NetworkError(requestWriteError.value));
    }
    sent := sent + STATUS_REQUEST;
    if responseTimedOut {
      return sent, Err(Timeout);
    }
    r := ReadStatusResponse(response, utf8, deserialize);
  }

  // ---------------------------------------------------------------------------------------------
  // Description extraction

  /** `value.get(key)`: a field of an object, nothing for any other value. */
  function Get(j: Json, key: string): Option<Json>
  {
    if j.Object? && key in j.fields then Some(j.fields[key]) else None
  }

  /** `v.get("text").and_then(|t| t.as_str())`. */
  function TextField(j: Json): Option<string>
  {
    match Get(j, "text")
    case Some(Str(t)) => Some(t)
    case _ => None
  }

  /** The string `text` fields of the elements, in order, joined with no separator. */
  function JoinTexts(items: seq<Json>): string
  {
    if items == [] then "" else TextOrEmpty(items[0]) + JoinTexts(items[1..])
  }

  /** An element's string `text`, or nothing: what `filter_map` keeps of it. */
  function TextOrEmpty(j: Json): string
  {
    match TextField(j)
    case Some(t) => t
    case None => ""
  }

  /** `filter_map(|v| v.get("text").and_then(|t| t.as_str()))`: the string `text` fields, in order. */
  function TextStrings(items: seq<Json>): (texts: seq<string>)
    ensures |texts| <= |items|
  {
    if items == [] then []
    else (match TextField(items[0]) case Some(t) => [t] case None => []) + TextStrings(items[1..])
  }

  /** Concatenating each element's text is `join("")` of the kept strings. */
  lemma {:induction false} JoinTextsIsJoin(items: seq<Json>)
    ensures JoinTexts(items) == Join(TextStrings(items), "")
  {
    if items != [] {
      JoinTextsIsJoin(items[1..]);
      match TextField(items[0])
      case None =>
        assert TextStrings(items) == TextStrings(items[1..]);
        assert JoinTexts(items) == "" + JoinTexts(items[1..]);
      case Some(t) => JoinEmptyCons(t, TextStrings(items[1..]));
    }
  }

  lemma JoinEmptyCons(t: string, rest: seq<string>)
    ensures Join([t] + rest, "") == t + Join(rest, "")
  {
    if rest == [] {
      assert [t] + rest == [t];
    } else {
      assert ([t] + rest)[1..] == rest;
    }
  }

  /**
   * `extract_description`: a `text` field wins (its string, or "" when it is not a string);
   * otherwise an `extra` array gives its elements' string texts joined with no separator;
   * otherwise, `extra` missing or not an array, the value's JSON text, `show`.
   */
  function ExtractDescription(desc: Json, show: Json -> string): (r: string)
    ensures Get(desc, "text").Some? && Get(desc, "text").value.Str? ==> r == Get(desc, "text").value.s
    ensures Get(desc, "text").Some? && !Get(desc, "text").value.Str? ==> r == ""
    ensures Get(desc, "text").None? && Get(desc, "extra").Some? && Get(desc, "extra").value.Array? ==>
      r == Join(TextStrings(Get(desc, "extra").value.items), "")
    ensures Get(desc, "text").None? && (Get(desc, "extra").None? || !Get(desc, "extra").value.Array?) ==>
      r == show(desc)
  {
    match Get(desc, "text")
    case Some(t) => if t.Str? then t.s else ""
    case None =>
      match Get(desc, "extra")
      case Some(Array(items)) => JoinTextsIsJoin(items); JoinTexts(items)
      case _ => show(desc)
  }

  /** Joining the texts of two runs of elements is joining the two results. */
  lemma {:induction false} JoinTextsAppend(a: seq<Json>, b: seq<Json>)
    ensures JoinTexts(a + b) == JoinTexts(a) + JoinTexts(b)
  {
    if a == [] {
      assert a + b == b;
    } else {
      JoinTextsAppend(a[1..], b);
      JoinTextsCons(a[0], a[1..] + b);
      assert a + b == [a[0]] + (a[1..] + b);
      ConcatAssoc(TextOrEmpty(a[0]), JoinTexts(a[1..]), JoinTexts(b));
    }
  }

  lemma JoinTextsCons(x: Json, rest: seq<Json>)
    ensures JoinTexts([x] + rest) == TextOrEmpty(x) + JoinTexts(rest)
  {
    assert ([x] + rest)[1..] == rest;
  }

  /** Elements without a string `text` field contribute nothing. */
  lemma {:induction false} JoinTextsSkips(items: seq<Json>)
    requires forall i :: 0 <= i < |items| ==> TextField(items[i]).None?
    ensures JoinTexts(items) == ""
  {
    if items != [] {
      JoinTextsSkips(items[1..]);
    }
  }

  /** `{"text": "Hello"}` gives "Hello", whatever else the object holds. */
  lemma TextFieldWins(fields: map<string, Json>, t: string, show: Json -> string)
    requires "text" in fields && fields["text"] == Str(t)
    ensures ExtractDescription(Object(fields), show) == t
  {
  }

  /** `{"extra": [{"text": "A"}, {"text": "B"}]}` gives "AB". */
  lemma ExtraTextsJoined(show: Json -> string)
    ensures ExtractDescription(Object(map["extra" := Array([Object(map["text" := Str("A")]), Object(map["text" := Str("B")])])]), show) == "AB"
  {
    var a, b := Object(map["text" := Str("A")]), Object(map["text" := Str("B")]);
    assert TextField(a) == Some("A") && TextField(b) == Some("B");
    assert JoinTexts([a, b]) == "A" + JoinTexts([b]);
    assert [a, b][1..] == [b];
  }

  /** A value with neither field, a bare string included, is shown as JSON text. */
  lemma NeitherFieldIsShown(desc: Json, show: Json -> string)
    requires Get(desc, "text").None? && Get(desc, "extra").None?
    ensures ExtractDescription(desc, show) == show(desc)
  {
  }
}
