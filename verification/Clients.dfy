/** The client's half of one handshake: what it sends, what it signs, and which params it
    lets through. */
module Clients {
  import opened Types
  import opened SigningText
  import opened Handshake
  import L = Leases

  /** `interval` is the pulse interval in whole seconds; `encode` writes text as UTF-8 and
      `seal` encrypts to the server's key. */
  datatype Target = Target(
    server: string, interval: u64, paramMaxLen: nat, encode: string -> Bytes, seal: Bytes -> Bytes)

  const U32_MAX: u32 := 0xFFFF_FFFF

  /** Checked on every param before it is sent: bounded, and without control characters. */
  predicate ValidateParam(t: Target, value: string) {
    |t.encode(value)| <= t.paramMaxLen && CleanText(value)
  }

  lemma ValidatedIff(t: Target, value: string)
    ensures ValidateParam(t, value) <==>
              && |t.encode(value)| <= t.paramMaxLen
              && forall i :: 0 <= i < |value| ==> 32 <= value[i] as int < 127 || 160 <= value[i] as int
  {
    CleanTextIs(value);
  }

  datatype Challenge = Challenge(client: ClientKey, nonce: Bytes, expiresAt: i64)

  function HelloFor(t: Target, key: ClientKey, timestamp: i64, helloNonce: Bytes): Hello {
    Hello(key, timestamp, helloNonce, Genuine(key, HelloMessage(t.server, key, timestamp, helloNonce)))
  }

  function SealParam(t: Target, param: Option<string>): Bytes {
    if param.Some? then t.seal(t.encode(param.value)) else []
  }

  /** The RESPONSE, or BYE, to a CHALLENGE; none when it names another client. The interval is
      advertised in 32 bits, and the client signs the very packet it sends, with the expiry it was told. */
  function Answer(t: Target, key: ClientKey, param: Option<string>, bye: bool, challenge: Challenge): (r: Option<Proof>)
    ensures r.Some? <==> challenge.client == key
    ensures r.Some? ==>
              var Proof(bye1, client, nonce, interval, blob, signature) := r.value;
              && bye1 == bye && client == key && nonce == challenge.nonce
              && (t.interval < 0x1_0000_0000 ==> interval == t.interval)
              && (t.interval >= 0x1_0000_0000 ==> interval == 0xFFFF_FFFF)
              && (param.None? ==> blob == []) && (param.Some? ==> blob == t.seal(t.encode(param.value)))
              && signature == Genuine(key, ProofMessage(bye, t.server, key, nonce, interval, challenge.expiresAt, blob))
  {
    if challenge.client != key then None
    else
      var interval: u32 := Min(t.interval, U32_MAX);
      var blob := SealParam(t, param);
      var message := ProofMessage(bye, t.server, key, challenge.nonce, interval, challenge.expiresAt, blob);
      Some(Proof(bye, key, challenge.nonce, interval, blob, Genuine(key, message)))
  }

  // ----- Which params survive -----

  /** The server can read what this client sends. A sealed blob is never empty, as it carries
      a key and a tag. */
  ghost predicate Readable(c: Config, t: Target) {
    && (forall v :: c.decode(t.encode(v)) == Some(v))
    && (forall b :: c.unseal(t.seal(b)) == Some(b) && t.seal(b) != [])
  }

  /** A param both sides allow. */
  predicate Allowed(c: Config, t: Target, param: Option<string>) {
    param.Some? ==>
      && ValidateParam(t, param.value)
      && |t.encode(param.value)| <= c.maxParamLen
      && (param.value != "" ==> param.value[0] != '-')
  }

  /** Of the params the client sends, the server admits, unchanged, exactly those within its
      own bound that do not start with a dash; it refuses the packet otherwise. */
  lemma ParamSurvivesIff(c: Config, t: Target, value: string)
    requires Readable(c, t) && ValidateParam(t, value)
    ensures AdmitParam(c, SealParam(t, Some(value))) == (if Allowed(c, t, Some(value)) then Some(Some(value)) else None)
    ensures Allowed(c, t, Some(value)) <==>
              |t.encode(value)| <= c.maxParamLen && (value != "" ==> value[0] != '-')
  {
    var blob := SealParam(t, Some(value));
    assert c.unseal(blob) == Some(t.encode(value));
    assert c.decode(t.encode(value)) == Some(value);
  }

  /** The client does not make the dash check: a dash alone passes it and is then refused. */
  lemma DashPassesOnlyTheClient(c: Config, t: Target, value: string)
    requires Readable(c, t) && |t.encode(value)| <= t.paramMaxLen
    requires |value| == 1 && value[0] == '-'
    ensures ValidateParam(t, value) && AdmitParam(c, SealParam(t, Some(value))) == None
  {
    ParamSurvivesIff(c, t, value);
  }

  /** The interval a client advertises makes the server lease for that many intervals: no
      saturation or truncation on the way, within the ranges that both can represent. */
  lemma LeaseSpansIntervals(c: Config, t: Target, key: ClientKey, param: Option<string>, challenge: Challenge)
    requires challenge.client == key && t.interval <= U32_MAX
    requires 1 <= t.interval * c.multiplier <= c.leaseMaxSeconds
    ensures L.LeaseTtl(Answer(t, key, param, false, challenge).value.interval, c.multiplier, c.leaseMaxSeconds)
         == t.interval * c.multiplier
  {
    assert Answer(t, key, param, false, challenge).value.interval == t.interval;
  }
}
