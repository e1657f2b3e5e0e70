/** The binary packet framing: what `encode` writes, what `decode` accepts, and the cursor
    that `decode` reads with. */
module Codec {
  import opened Types
  import opened LittleEndian

  type Bytes16 = b: Bytes | |b| == 16 witness seq(16, i => 0)
  type Bytes32 = b: Bytes | |b| == 32 witness seq(32, i => 0)
  type Bytes64 = b: Bytes | |b| == 64 witness seq(64, i => 0)

  const MAGIC: byte := 0x5A
  const VERSION: byte := 2

  const TYPE_HELLO: byte := 0
  const TYPE_CHALLENGE: byte := 1
  const TYPE_RESPONSE: byte := 2
  const TYPE_BYE: byte := 3

  datatype ProtocolError = Truncated | BadMagic | WrongVersion(version: byte) | UnknownType(kind: byte) | TrailingBytes

  datatype Packet =
    | Hello(client: Bytes32, timestamp: i64, helloNonce: Bytes16, signature: Bytes64)
    | Challenge(client: Bytes32, nonce: Bytes32, expiresAt: i64)
    | Response(client: Bytes32, nonce: Bytes32, interval: u32, param: Option<Bytes>, signature: Bytes64)
    | Bye(client: Bytes32, nonce: Bytes32, interval: u32, param: Option<Bytes>, signature: Bytes64)

  // ----- What is written -----

  function Header(kind: byte): (h: Bytes)
    requires kind < 16
    ensures |h| == 2
  {
    [MAGIC, VERSION * 16 + kind]
  }

  function ParamBytes(param: Option<Bytes>): Bytes {
    if param.Some? then param.value else []
  }

  /** The shared layout of RESPONSE and BYE; the length field is cast to 16 bits. */
  function EncodeProof(kind: byte, client: Bytes32, nonce: Bytes32, interval: u32, param: Bytes,
                       signature: Bytes64): Bytes
    requires kind < 16
  {
    Header(kind) + client + nonce + Le32(interval) + Le16(|param| % 0x1_0000) + param + signature
  }

  function Encode(p: Packet): Bytes {
    match p
    case Hello(client, timestamp, helloNonce, signature) =>
      Header(TYPE_HELLO) + client + Le64(timestamp) + helloNonce + signature
    case Challenge(client, nonce, expiresAt) =>
      Header(TYPE_CHALLENGE) + client + nonce + Le64(expiresAt)
    case Response(client, nonce, interval, param, signature) =>
      EncodeProof(TYPE_RESPONSE, client, nonce, interval, ParamBytes(param), signature)
    case Bye(client, nonce, interval, param, signature) =>
      EncodeProof(TYPE_BYE, client, nonce, interval, ParamBytes(param), signature)
  }

  /** The packets whose param survives the 16-bit length field: absent, or 1..65535 bytes. */
  predicate Canonical(p: Packet) {
    (p.Response? || p.Bye?) && p.param.Some? ==> 0 < |p.param.value| < 0x1_0000
  }

  // ----- What is accepted, by fixed offsets -----

  function ExactLength(b: Bytes, n: nat): Result<(), ProtocolError> {
    if |b| < n then Err(Truncated) else if |b| > n then Err(TrailingBytes) else Ok(())
  }

  function HelloFields(b: Bytes): Packet
    requires 122 <= |b|
  {
    Hello(b[2..34], I64At(b[34..42]), b[42..58], b[58..122])
  }

  function ChallengeFields(b: Bytes): Packet
    requires 74 <= |b|
  {
    Challenge(b[2..34], b[34..66], I64At(b[66..74]))
  }

  /** The length of a RESPONSE or BYE, according to its own length field. */
  function ProofLength(b: Bytes): nat
    requires 72 <= |b|
  {
    72 + U16At(b[70..72]) + 64
  }

  function ProofFields(b: Bytes, bye: bool): Packet
    requires 72 <= |b| && ProofLength(b) <= |b|
  {
    var n := U16At(b[70..72]);
    var client, nonce, interval, signature := b[2..34], b[34..66], U32At(b[66..70]), b[72 + n..72 + n + 64];
    var param := if n == 0 then None else Some(b[72..72 + n]);
    if bye then Bye(client, nonce, interval, param, signature) else Response(client, nonce, interval, param, signature)
  }

  function DecodeHello(b: Bytes): Result<Packet, ProtocolError> {
    match ExactLength(b, 122)
    case Err(e) => Err(e)
    case Ok(_) => Ok(HelloFields(b))
  }

  function DecodeChallenge(b: Bytes): Result<Packet, ProtocolError> {
    match ExactLength(b, 74)
    case Err(e) => Err(e)
    case Ok(_) => Ok(ChallengeFields(b))
  }

  function DecodeProof(b: Bytes, bye: bool): Result<Packet, ProtocolError> {
    if |b| < 72 then Err(Truncated)
    else
      match ExactLength(b, ProofLength(b))
      case Err(e) => Err(e)
      case Ok(_) => Ok(ProofFields(b, bye))
  }

  function Decode(b: Bytes): Result<Packet, ProtocolError> {
    if |b| < 1 then Err(Truncated)
    else if b[0] != MAGIC then Err(BadMagic)
    else if |b| < 2 then Err(Truncated)
    else if b[1] / 16 != VERSION then Err(WrongVersion(b[1] / 16))
    else if b[1] % 16 == TYPE_HELLO then DecodeHello(b)
    else if b[1] % 16 == TYPE_CHALLENGE then DecodeChallenge(b)
    else if b[1] % 16 == TYPE_RESPONSE then DecodeProof(b, false)
    else if b[1] % 16 == TYPE_BYE then DecodeProof(b, true)
    else Err(UnknownType(b[1] % 16))
  }

  // ----- The bytes on the wire -----

  /** A HELLO is 122 bytes. */
  lemma HelloOnWire(client: Bytes32, timestamp: i64, helloNonce: Bytes16, signature: Bytes64)
    ensures var b := Encode(Hello(client, timestamp, helloNonce, signature));
            && |b| == 122 && b[0] == 0x5A && b[1] == 0x20
            && b[2..34] == client && I64At(b[34..42]) == timestamp && b[42..58] == helloNonce && b[58..122] == signature
  {
    var b := Encode(Hello(client, timestamp, helloNonce, signature));
    IntegersRoundTrip(timestamp, 0, 0);
    assert b[34..42] == Le64(timestamp);
  }

  /** A CHALLENGE is 74 bytes. */
  lemma ChallengeOnWire(client: Bytes32, nonce: Bytes32, expiresAt: i64)
    ensures var b := Encode(Challenge(client, nonce, expiresAt));
            && |b| == 74 && b[0] == 0x5A && b[1] == 0x21
            && b[2..34] == client && b[34..66] == nonce && I64At(b[66..74]) == expiresAt
  {
    var b := Encode(Challenge(client, nonce, expiresAt));
    IntegersRoundTrip(expiresAt, 0, 0);
    assert b[66..74] == Le64(expiresAt);
  }

  /** A RESPONSE or BYE is 136 bytes and its param, whose length the two bytes at 70 give modulo 2^16. */
  lemma ProofOnWire(p: Packet)
    requires p.Response? || p.Bye?
    ensures var b, param := Encode(p), if p.param.Some? then p.param.value else [];
            var n := 72 + |param|;
            && |b| == n + 64 && b[0] == 0x5A && b[1] == (if p.Bye? then 0x23 else 0x22)
            && b[2..34] == p.client && b[34..66] == p.nonce && U32At(b[66..70]) == p.interval
            && U16At(b[70..72]) == |param| % 0x1_0000 && b[72..n] == param && b[n..] == p.signature
  {
    var b, param := Encode(p), ParamBytes(p.param);
    var kind := if p.Bye? then TYPE_BYE else TYPE_RESPONSE;
    ProofLayout(kind, p.client, p.nonce, p.interval, param, p.signature);
    IntegersRoundTrip(0, p.interval, |param| % 0x1_0000);
    assert b[0] == b[..2][0] && b[1] == b[..2][1];
    assert b[72 + |param|..] == b[72 + |param|..72 + |param| + 64];
  }

  /** How long a packet must be, by its type and, for a RESPONSE or BYE, its length field. */
  function WireLength(b: Bytes): nat
    requires |b| >= 2
  {
    if b[1] % 16 == 0 then 122
    else if b[1] % 16 == 1 then 74
    else if |b| < 72 then 136
    else 136 + (b[70] as int) + 0x100 * (b[71] as int)
  }

  /** Which bytes are refused, and why: the first byte must be 0x5A, the high half of the second
      2 and its low half at most 3, and the length must be exact. */
  lemma RefusedBecause(b: Bytes)
    ensures Decode(b) == Err(BadMagic) <==> |b| > 0 && b[0] != 0x5A
    ensures forall v: byte :: Decode(b) == Err(WrongVersion(v)) <==> |b| > 1 && b[0] == 0x5A && b[1] / 16 == v && v != 2
    ensures forall k: byte :: Decode(b) == Err(UnknownType(k)) <==>
                                |b| > 1 && b[0] == 0x5A && b[1] / 16 == 2 && b[1] % 16 == k && k > 3
    ensures Decode(b) == Err(Truncated) <==>
              || b == [] || b == [0x5A]
              || (|b| > 1 && b[0] == 0x5A && b[1] / 16 == 2 && b[1] % 16 <= 3 && |b| < WireLength(b))
    ensures Decode(b) == Err(TrailingBytes) <==>
              |b| > 1 && b[0] == 0x5A && b[1] / 16 == 2 && b[1] % 16 <= 3 && WireLength(b) < |b|
  {
    if |b| > 1 && b[0] == 0x5A && b[1] / 16 == 2 && b[1] % 16 <= 3 {
      RefusedForLength(b);
    }
  }

  lemma RefusedForLength(b: Bytes)
    requires |b| > 1 && b[0] == MAGIC && b[1] / 16 == VERSION && b[1] % 16 <= 3
    ensures |b| < WireLength(b) ==> Decode(b) == Err(Truncated)
    ensures |b| == WireLength(b) ==> Decode(b).Ok?
    ensures WireLength(b) < |b| ==> Decode(b) == Err(TrailingBytes)
  {
    if b[1] % 16 > 1 && |b| >= 72 {
      LeastFirst(b[70..72]);
      assert ProofLength(b) == WireLength(b);
    }
  }

  // ----- Round trips -----

  lemma HelloDecodes(client: Bytes32, timestamp: i64, helloNonce: Bytes16, signature: Bytes64)
    ensures Decode(Encode(Hello(client, timestamp, helloNonce, signature)))
            == Ok(Hello(client, timestamp, helloNonce, signature))
  {
    var b := Encode(Hello(client, timestamp, helloNonce, signature));
    IntegersRoundTrip(timestamp, 0, 0);
    assert b[0] == MAGIC && b[1] == VERSION * 16 + TYPE_HELLO;
    assert b[2..34] == client && b[34..42] == Le64(timestamp) && b[42..58] == helloNonce && b[58..122] == signature;
  }

  lemma ChallengeDecodes(client: Bytes32, nonce: Bytes32, expiresAt: i64)
    ensures Decode(Encode(Challenge(client, nonce, expiresAt))) == Ok(Challenge(client, nonce, expiresAt))
  {
    var b := Encode(Challenge(client, nonce, expiresAt));
    IntegersRoundTrip(expiresAt, 0, 0);
    assert b[0] == MAGIC && b[1] == VERSION * 16 + TYPE_CHALLENGE;
    assert b[2..34] == client && b[34..66] == nonce && b[66..74] == Le64(expiresAt);
  }

  /** Where everything is in an encoded RESPONSE or BYE. */
  lemma ProofLayout(kind: byte, client: Bytes32, nonce: Bytes32, interval: u32, param: Bytes, signature: Bytes64)
    requires kind < 16
    ensures var b, n := EncodeProof(kind, client, nonce, interval, param, signature), 72 + |param|;
            && |b| == n + 64 && b[..2] == Header(kind)
            && b[2..34] == client && b[34..66] == nonce && b[66..70] == Le32(interval)
            && b[70..72] == Le16(|param| % 0x1_0000) && b[72..n] == param && b[n..n + 64] == signature
  {
    var b, n := EncodeProof(kind, client, nonce, interval, param, signature), 72 + |param|;
    var front := Header(kind) + client + nonce + Le32(interval) + Le16(|param| % 0x1_0000);
    assert |front| == 72 && b == front + (param + signature);
    assert b[..72] == front && b[72..] == param + signature;
    assert b[2..34] == client && b[34..66] == nonce && b[66..70] == Le32(interval);
    assert b[72..n] == param && b[n..n + 64] == signature;
  }

  /** What `p` reads back as when its length field is not truncated. */
  function ReadBack(bye: bool, client: Bytes32, nonce: Bytes32, interval: u32, param: Bytes,
                    signature: Bytes64): Packet
  {
    var read := if param == [] then None else Some(param);
    if bye then Bye(client, nonce, interval, read, signature) else Response(client, nonce, interval, read, signature)
  }

  lemma ProofReads(b: Bytes, bye: bool, client: Bytes32, nonce: Bytes32, interval: u32, param: Bytes,
                   signature: Bytes64)
    requires |b| == 72 + |param| + 64 && b[..2] == Header(if bye then TYPE_BYE else TYPE_RESPONSE)
    requires b[2..34] == client && b[34..66] == nonce && b[66..70] == Le32(interval)
    requires b[70..72] == Le16(|param| % 0x1_0000)
    requires b[72..72 + |param|] == param && b[72 + |param|..72 + |param| + 64] == signature
    ensures Decode(b) == if |param| >= 0x1_0000 then Err(TrailingBytes)
                         else Ok(ReadBack(bye, client, nonce, interval, param, signature))
  {
    IntegersRoundTrip(0, interval, |param| % 0x1_0000);
    assert b[0] == b[..2][0] && b[1] == b[..2][1];
    assert ProofLength(b) == 72 + |param| % 0x1_0000 + 64;
  }

  /** A param of 65536 bytes or more always leaves trailing bytes; an empty one reads as absent. */
  lemma ProofDecodes(bye: bool, client: Bytes32, nonce: Bytes32, interval: u32, param: Bytes, signature: Bytes64)
    ensures Decode(EncodeProof(if bye then TYPE_BYE else TYPE_RESPONSE, client, nonce, interval, param, signature))
         == if |param| >= 0x1_0000 then Err(TrailingBytes)
            else Ok(ReadBack(bye, client, nonce, interval, param, signature))
  {
    var kind := if bye then TYPE_BYE else TYPE_RESPONSE;
    ProofLayout(kind, client, nonce, interval, param, signature);
    ProofReads(EncodeProof(kind, client, nonce, interval, param, signature), bye, client, nonce, interval, param,
               signature);
  }

  /** Decoding undoes encoding for exactly the packets whose param is absent or 1..65535 bytes. */
  lemma EncodeThenDecode(p: Packet)
    ensures Decode(Encode(p)) == Ok(p) <==> Canonical(p)
  {
    match p {
      case Hello(client, timestamp, helloNonce, signature) => HelloDecodes(client, timestamp, helloNonce, signature);
      case Challenge(client, nonce, expiresAt) => ChallengeDecodes(client, nonce, expiresAt);
      case Response(client, nonce, interval, param, signature) =>
        ProofDecodes(false, client, nonce, interval, ParamBytes(param), signature);
      case Bye(client, nonce, interval, param, signature) =>
        ProofDecodes(true, client, nonce, interval, ParamBytes(param), signature);
    }
  }

  lemma HelloReencodes(b: Bytes)
    requires |b| == 122 && b[0] == MAGIC && b[1] == VERSION * 16 + TYPE_HELLO
    ensures Encode(Hello(b[2..34], I64At(b[34..42]), b[42..58], b[58..122])) == b
  {
    Bytes64RoundTrip(b[34..42]);
    assert b == Header(TYPE_HELLO) + b[2..34] + b[34..42] + b[42..58] + b[58..122];
  }

  lemma ChallengeReencodes(b: Bytes)
    requires |b| == 74 && b[0] == MAGIC && b[1] == VERSION * 16 + TYPE_CHALLENGE
    ensures Encode(Challenge(b[2..34], b[34..66], I64At(b[66..74]))) == b
  {
    Bytes64RoundTrip(b[66..74]);
    assert b == Header(TYPE_CHALLENGE) + b[2..34] + b[34..66] + b[66..74];
  }

  lemma ProofReencodes(kind: byte, b: Bytes, n: u16)
    requires kind < 16 && |b| == 72 + n + 64 && n == U16At(b[70..72])
    requires b[0] == MAGIC && b[1] == VERSION * 16 + kind
    ensures EncodeProof(kind, b[2..34], b[34..66], U32At(b[66..70]), b[72..72 + n], b[72 + n..72 + n + 64]) == b
  {
    Bytes32RoundTrip(b[66..70]);
    Bytes16RoundTrip(b[70..72]);
    assert b == Header(kind) + b[2..34] + b[34..66] + b[66..70] + b[70..72] + b[72..72 + n] + b[72 + n..72 + n + 64];
  }

  /** Encoding undoes decoding: every accepted byte string is the encoding of what it decodes
      to, so decoding is canonical and leaves nothing over. */
  lemma DecodeThenEncode(b: Bytes)
    requires Decode(b).Ok?
    ensures Encode(Decode(b).value) == b && Canonical(Decode(b).value)
  {
    assert b[1] == (b[1] / 16) * 16 + b[1] % 16;
    var kind := b[1] % 16;
    if kind == TYPE_HELLO {
      HelloReencodes(b);
    } else if kind == TYPE_CHALLENGE {
      ChallengeReencodes(b);
    } else {
      var n := U16At(b[70..72]);
      ProofReencodes(kind, b, n);
      assert n == 0 ==> b[72..72 + n] == [];
    }
  }

  // ----- The cursor -----

  class Reader {
    const buf: Bytes
    var pos: nat

    ghost predicate Valid()
      reads this
    {
      pos <= |buf|
    }

    constructor (bytes: Bytes)
      ensures Valid() && buf == bytes && pos == 0
    {
      buf := bytes;
      pos := 0;
    }

    /** The next `n` bytes, or an error that leaves the cursor where it was. */
    method Take(n: nat) returns (r: Result<Bytes, ProtocolError>)
      requires Valid()
      modifies this
      ensures Valid()
      ensures old(pos) + n <= |buf| ==> r == Ok(buf[old(pos)..old(pos) + n]) && pos == old(pos) + n
      ensures |buf| < old(pos) + n ==> r == Err(Truncated) && pos == old(pos)
    {
      var end := pos + n;
      if end > |buf| {
        return Err(Truncated);
      }
      r := Ok(buf[pos..end]);
      pos := end;
    }

    method IsEmpty() returns (empty: bool)
      requires Valid()
      ensures empty <==> pos == |buf|
    {
      empty := pos == |buf|;
    }
  }

  /** Appends the fields of `p` one after the other. */
  method EncodePacket(p: Packet) returns (out: Bytes)
    ensures out == Encode(p)
  {
    match p {
      case Hello(client, timestamp, helloNonce, signature) =>
        out := Header(TYPE_HELLO);
        out := out + client;
        out := out + Le64(timestamp);
        out := out + helloNonce;
        out := out + signature;
      case Challenge(client, nonce, expiresAt) =>
        out := Header(TYPE_CHALLENGE);
        out := out + client;
        out := out + nonce;
        out := out + Le64(expiresAt);
      case Response(client, nonce, interval, param, signature) =>
        out := WriteProof(TYPE_RESPONSE, client, nonce, interval, param, signature);
      case Bye(client, nonce, interval, param, signature) =>
        out := WriteProof(TYPE_BYE, client, nonce, interval, param, signature);
    }
  }

  method WriteProof(kind: byte, client: Bytes32, nonce: Bytes32, interval: u32, param: Option<Bytes>,
                    signature: Bytes64) returns (out: Bytes)
    requires kind < 16
    ensures out == EncodeProof(kind, client, nonce, interval, ParamBytes(param), signature)
  {
    var bytes := if param.Some? then param.value else [];
    out := Header(kind);
    out := out + client;
    out := out + nonce;
    out := out + Le32(interval);
    out := out + Le16(|bytes| % 0x1_0000);
    out := out + bytes;
    out := out + signature;
  }

  /** Reads a packet field by field; the result is the one given by the fixed offsets. */
  method DecodePacket(bytes: Bytes) returns (r: Result<Packet, ProtocolError>)
    ensures r == Decode(bytes)
  {
    var reader := new Reader(bytes);
    var magic := reader.Take(1);
    if magic.Err? {
      return Err(magic.error);
    }
    if magic.value[0] != MAGIC {
      return Err(BadMagic);
    }
    var vt := reader.Take(1);
    if vt.Err? {
      return Err(vt.error);
    }
    var version := vt.value[0] / 16;
    if version != VERSION {
      return Err(WrongVersion(version));
    }
    var kind := vt.value[0] % 16;
    var packet;
    if kind == TYPE_HELLO {
      packet := ReadHello(reader);
    } else if kind == TYPE_CHALLENGE {
      packet := ReadChallenge(reader);
    } else if kind == TYPE_RESPONSE {
      packet := ReadProof(reader, false);
    } else if kind == TYPE_BYE {
      packet := ReadProof(reader, true);
    } else {
      return Err(UnknownType(kind));
    }
    if packet.Err? {
      return packet;
    }
    var empty := reader.IsEmpty();
    if !empty {
      return Err(TrailingBytes);
    }
    return packet;
  }

  method ReadHello(reader: Reader) returns (r: Result<Packet, ProtocolError>)
    requires reader.Valid() && reader.pos == 2
    modifies reader
    ensures reader.Valid()
    ensures |reader.buf| < 122 ==> r == Err(Truncated)
    ensures |reader.buf| >= 122 ==> reader.pos == 122 && r == Ok(HelloFields(reader.buf))
  {
    var client := reader.Take(32);
    if client.Err? { return Err(client.error); }
    var timestamp := reader.Take(8);
    if timestamp.Err? { return Err(timestamp.error); }
    var helloNonce := reader.Take(16);
    if helloNonce.Err? { return Err(helloNonce.error); }
    var signature := reader.Take(64);
    if signature.Err? { return Err(signature.error); }
    r := Ok(Hello(client.value, I64At(timestamp.value), helloNonce.value, signature.value));
  }

  method ReadChallenge(reader: Reader) returns (r: Result<Packet, ProtocolError>)
    requires reader.Valid() && reader.pos == 2
    modifies reader
    ensures reader.Valid()
    ensures |reader.buf| < 74 ==> r == Err(Truncated)
    ensures |reader.buf| >= 74 ==> reader.pos == 74 && r == Ok(ChallengeFields(reader.buf))
  {
    var client := reader.Take(32);
    if client.Err? { return Err(client.error); }
    var nonce := reader.Take(32);
    if nonce.Err? { return Err(nonce.error); }
    var expiresAt := reader.Take(8);
    if expiresAt.Err? { return Err(expiresAt.error); }
    r := Ok(Challenge(client.value, nonce.value, I64At(expiresAt.value)));
  }

  method ReadProof(reader: Reader, bye: bool) returns (r: Result<Packet, ProtocolError>)
    requires reader.Valid() && reader.pos == 2
    modifies reader
    ensures reader.Valid()
    ensures |reader.buf| < 72 || |reader.buf| < ProofLength(reader.buf) ==> r == Err(Truncated)
    ensures 72 <= |reader.buf| && ProofLength(reader.buf) <= |reader.buf| ==>
              reader.pos == ProofLength(reader.buf) && r == Ok(ProofFields(reader.buf, bye))
  {
    var client := reader.Take(32);
    if client.Err? { return Err(client.error); }
    var nonce := reader.Take(32);
    if nonce.Err? { return Err(nonce.error); }
    var interval := reader.Take(4);
    if interval.Err? { return Err(interval.error); }
    var len := reader.Take(2);
    if len.Err? { return Err(len.error); }
    var n := U16At(len.value);
    var param := reader.Take(n);
    if param.Err? { return Err(param.error); }
    var signature := reader.Take(64);
    if signature.Err? { return Err(signature.error); }
    var read := if n == 0 then None else Some(param.value);
    if bye {
      r := Ok(Bye(client.value, nonce.value, U32At(interval.value), read, signature.value));
    } else {
      r := Ok(Response(client.value, nonce.value, U32At(interval.value), read, signature.value));
    }
  }
}
