/** The server side of the handshake as a step machine. Every datagram runs on its own task;
    each region the code executes under one lock is one step, and steps of different tasks,
    purges, the lease scan, clock ticks and the clients' signing interleave freely. The
    network may deliver anything, as often as it likes, but it cannot forge: a signature
    that verifies was made by the client whose key it is. */
module Handshake {
  import opened Types
  import opened SigningText
  import opened SeenCaches
  import N = NonceStores
  import L = Leases
  import C = Cooldowns
  import H = HelloLimits

  // ----- Datagrams and signatures -----

  datatype Signature = Genuine(signer: ClientKey, message: Message) | Garbage

  datatype Hello = Hello(client: ClientKey, timestamp: i64, helloNonce: Bytes, signature: Signature)

  /** A RESPONSE, or with `bye` set a BYE. An absent param is the empty byte string. */
  datatype Proof = Proof(bye: bool, client: ClientKey, nonce: Bytes, interval: u32, param: Bytes, signature: Signature)

  datatype Datagram = HelloPacket(hello: Hello) | ProofPacket(proof: Proof)

  predicate Verifies(signature: Signature, client: ClientKey, message: Message) {
    signature == Genuine(client, message)
  }

  // ----- Configuration -----

  /** `unseal` opens a sealed param with the server's key, `decode` reads it as UTF-8;
      `revokes` says whether a revoke hook is configured. */
  datatype Config = Config(
    server: string, clients: set<ClientKey>, skew: u64, nonceTtl: u64, multiplier: u32, leaseMaxSeconds: u64,
    leaseCap: nat, cooldown: nat, limits: H.Limits, maxParamLen: nat, revokes: bool,
    unseal: Bytes -> Option<Bytes>, decode: Bytes -> Option<string>)

  predicate IsControl(c: char) {
    c < ' ' || (127 as char) <= c <= (159 as char)
  }

  predicate CleanText(s: string) {
    forall i :: 0 <= i < |s| ==> !IsControl(s[i])
  }

  /** A control character is one of the first 32, or one from 127 to 159. */
  lemma CleanTextIs(s: string)
    ensures CleanText(s) <==> forall i :: 0 <= i < |s| ==> 32 <= s[i] as int < 127 || 160 <= s[i] as int
  {
    forall i | 0 <= i < |s| ensures IsControl(s[i]) <==> !(32 <= s[i] as int < 127 || 160 <= s[i] as int) {
    }
  }

  /** The checks on a decrypted param; None when the packet must be refused. */
  function AdmitParam(c: Config, blob: Bytes): (r: Option<Option<string>>)
    ensures blob == [] ==> r == Some(None)
    ensures blob != [] && r.Some? ==>
              && r.value.Some? && CleanText(r.value.value)
              && (r.value.value != "" ==> r.value.value[0] != '-')
  {
    if blob == [] then Some(None)
    else
      var plain := c.unseal(blob);
      if plain.None? || |plain.value| > c.maxParamLen then None
      else
        var text := c.decode(plain.value);
        if text.None? || !CleanText(text.value) then None
        else if text.value != "" && text.value[0] == '-' then None
        else Some(Some(text.value))
  }

  /** A packet is let through with no param exactly when it carries none, and with `text` exactly
      when its param opens with the server's key to at most the allowed number of bytes, which
      are `text` in UTF-8, without control characters and without a leading dash. In every other
      case it is refused. */
  lemma AdmittedIff(c: Config, blob: Bytes, text: string)
    ensures AdmitParam(c, blob) == Some(None) <==> blob == []
    ensures AdmitParam(c, blob) == Some(Some(text)) <==>
              && blob != [] && c.unseal(blob).Some? && |c.unseal(blob).value| <= c.maxParamLen
              && c.decode(c.unseal(blob).value) == Some(text)
              && (forall i :: 0 <= i < |text| ==> 32 <= text[i] as int < 127 || 160 <= text[i] as int)
              && (text != "" ==> text[0] != '-')
  {
    CleanTextIs(text);
  }

  function HelloText(c: Config, h: Hello): Message {
    HelloMessage(c.server, h.client, h.timestamp, h.helloNonce)
  }

  function ProofText(c: Config, p: Proof, expiresAt: i64): Message {
    ProofMessage(p.bye, c.server, p.client, p.nonce, p.interval, expiresAt, p.param)
  }

  // ----- Tasks -----

  datatype HelloPhase =
    | HelloArrived
    | HelloAdmitted              // within the rate limit
    | HelloFresh(at: i64)        // authenticated, in the window, not a replay; `at` is the clock reading
    | Challenged(nonce: Bytes)   // the nonce is stored; the CHALLENGE is to be sent

  datatype ProofPhase =
    | ProofArrived
    | ProofChecked                                     // nonce peeked, signature verified
    | ProofClaimed                                     // nonce consumed
    | ProofAccepted(param: Option<string>)             // param decrypted: the packet is verified
    | Renewed(param: Option<string>, isNew: bool)      // lease renewed; cooldown to be checked
    | GrantDue(param: Option<string>, isNew: bool)     // the grant hook is to run
    | GrantRan                                         // the cooldown is to be marked
    | RevokeDue(ended: L.Ended, param: Option<string>) // lease released; the revoke hook is to run

  datatype Task =
    | HelloTask(hello: Hello, source: Endpoint, hphase: HelloPhase)
    | ProofTask(proof: Proof, source: Endpoint, pphase: ProofPhase)

  // ----- State -----

  /** What a nonce was minted for, and the HELLO it answered. */
  datatype Binding = Binding(client: ClientKey, source: Endpoint, expiresAt: i64, hello: Message)

  /** What a consumed nonce was used for. */
  datatype Claim = Claim(bye: bool, client: ClientKey, source: Endpoint, interval: u32, param: Bytes)

  const CONSUMED := 0
  const ACCEPTED := 1
  const LEASED := 2
  const HOOKED := 3

  /** Something the server did on behalf of a packet: consumed its nonce, accepted it as
      verified, renewed or released the lease, ran the grant or revoke hook. */
  datatype Event = Event(stage: nat, nonce: Bytes, claim: Claim)

  /** Above the line what the server stores; below it what happened, which nothing forgets:
      what clients signed, the HELLOs accepted, the nonces minted and consumed, the events. */
  datatype State = State(
    wall: i64, mono: Instant, rates: H.Table, seen: map<(ClientKey, Bytes), i64>, nonces: N.Entries, leases: L.Table,
    cooldowns: C.Marks<ClientKey>, tasks: map<nat, Task>, verified: nat, hellosAccepted: nat,
    // ---
    signed: set<(ClientKey, Message)>, accepted: multiset<Message>, minted: map<Bytes, Binding>,
    claims: map<Bytes, Claim>, log: multiset<Event>)

  function Start(wall: i64): State {
    State(wall, 0, map[], map[], map[], map[], map[], map[], 0, 0, {}, multiset{}, map[], map[], multiset{})
  }

  function ClaimOf(p: Proof, source: Endpoint): Claim {
    Claim(p.bye, p.client, source, p.interval, p.param)
  }

  // ----- Steps of one task -----

  function Drop(s: State, tid: nat): State {
    s.(tasks := s.tasks - {tid})
  }

  function Move(s: State, tid: nat, task: Task): State {
    s.(tasks := s.tasks[tid := task])
  }

  function Record(s: State, stage: nat, p: Proof, source: Endpoint): State {
    s.(log := s.log + multiset{Event(stage, p.nonce, ClaimOf(p, source))})
  }

  function LimitHello(c: Config, s: State, tid: nat, t: Task): State
    requires t.HelloTask?
  {
    var s1 := s.(rates := H.AfterCheck(c.limits, s.rates, t.source.ip, s.mono));
    if H.Allows(c.limits, s.rates, t.source.ip, s.mono) then Move(s1, tid, t.(hphase := HelloAdmitted))
    else Drop(s1, tid)
  }

  /** Client known, signature valid, timestamp fresh, and not seen before. */
  predicate AcceptsHello(c: Config, s: State, h: Hello) {
    && h.client in c.clients
    && Verifies(h.signature, h.client, HelloText(c, h))
    && WithinSkew(s.wall, h.timestamp, c.skew)
    && Accepts(s.seen, (h.client, h.helloNonce), s.wall)
  }

  function AcceptHello(c: Config, s: State, tid: nat, t: Task): State
    requires t.HelloTask?
  {
    var h := t.hello;
    if !AcceptsHello(c, s, h) then Drop(s, tid)
    else
      var s1 := s.(seen := AfterInsert(s.seen, (h.client, h.helloNonce), s.wall, SeenTtl(c.skew)),
                   accepted := s.accepted + multiset{HelloText(c, h)});
      Move(s1, tid, t.(hphase := HelloFresh(s.wall)))
  }

  function Mint(c: Config, s: State, h: Hello, source: Endpoint, nonce: Bytes, expiresAt: i64): State {
    s.(nonces := N.AfterInsert(s.nonces, nonce, h.client, source, s.wall, expiresAt),
       minted := s.minted[nonce := Binding(h.client, source, expiresAt, HelloText(c, h))])
  }

  /** Mints `nonce`; disabled when it was minted before, as the supply never repeats. */
  function MintNonce(c: Config, s: State, tid: nat, t: Task, nonce: Bytes): State
    requires t.HelloTask? && t.hphase.HelloFresh?
  {
    if nonce in s.minted then s
    else
      Move(Mint(c, s, t.hello, t.source, nonce, AddClamped(t.hphase.at, c.nonceTtl)), tid,
           t.(hphase := Challenged(nonce)))
  }

  function SendChallenge(s: State, tid: nat, sent: bool): State {
    Drop(if sent then s.(hellosAccepted := s.hellosAccepted + 1) else s, tid)
  }

  /** The nonce passes all its checks and the signature covers the stored expiry. */
  predicate ChecksOut(c: Config, s: State, p: Proof, source: Endpoint) {
    && p.client in c.clients
    && N.Validated(s.nonces, p.nonce, p.client, source, s.wall).Ok?
    && Verifies(p.signature, p.client, ProofText(c, p, s.nonces[p.nonce].expiresAt))
  }

  function CheckProof(c: Config, s: State, tid: nat, t: Task): State
    requires t.ProofTask?
  {
    if ChecksOut(c, s, t.proof, t.source) then Move(s, tid, t.(pphase := ProofChecked)) else Drop(s, tid)
  }

  function Consume(s: State, p: Proof, source: Endpoint): State {
    s.(nonces := N.AfterConsume(s.nonces, p.nonce, p.client, source, s.wall),
       claims := s.claims[p.nonce := ClaimOf(p, source)])
  }

  function ClaimNonce(s: State, tid: nat, t: Task): State
    requires t.ProofTask?
  {
    var p := t.proof;
    if N.Validated(s.nonces, p.nonce, p.client, t.source, s.wall).Err? then Drop(s, tid)
    else Move(Record(Consume(s, p, t.source), CONSUMED, p, t.source), tid, t.(pphase := ProofClaimed))
  }

  /** The pulse counter counts RESPONSEs only. */
  function Verify(s: State, tid: nat, t: Task, param: Option<string>): State
    requires t.ProofTask?
  {
    var s1 := if t.proof.bye then s else s.(verified := s.verified + 1);
    Move(Record(s1, ACCEPTED, t.proof, t.source), tid, t.(pphase := ProofAccepted(param)))
  }

  function AcceptProof(c: Config, s: State, tid: nat, t: Task): State
    requires t.ProofTask?
  {
    var param := AdmitParam(c, t.proof.param);
    if param.None? then Drop(s, tid) else Verify(s, tid, t, param.value)
  }

  function LeaseFor(c: Config, s: State, p: Proof, source: Endpoint, param: Option<string>): L.Lease
    requires 1 <= c.leaseMaxSeconds
  {
    var ttl := L.LeaseTtl(p.interval, c.multiplier, c.leaseMaxSeconds) * NANOS_PER_SECOND;
    L.Lease(s.mono + ttl, source.ip, source.port, param)
  }

  function RenewLease(c: Config, s: State, tid: nat, t: Task): State
    requires t.ProofTask? && t.pphase.ProofAccepted? && 1 <= c.leaseMaxSeconds
  {
    var p, param := t.proof, t.pphase.param;
    var s1 := s.(leases := L.AfterRenew(c.leaseCap, s.leases, p.client, LeaseFor(c, s, p, t.source, param)));
    Move(Record(s1, LEASED, p, t.source), tid, t.(pphase := Renewed(param, !L.Live(s.leases, p.client, s.mono))))
  }

  function ReleaseLease(c: Config, s: State, tid: nat, t: Task): State
    requires t.ProofTask? && t.pphase.ProofAccepted?
  {
    var client := t.proof.client;
    if client !in s.leases then Drop(s, tid)
    else
      var remaining := L.Others(s.leases, s.leases[client].ip, client, s.mono);
      var ended := L.Ended(L.Report(s.leases, client), remaining);
      var param := if t.pphase.param.Some? then t.pphase.param else ended.lease.param;
      var s1 := Record(s.(leases := s.leases - {client}), LEASED, t.proof, t.source);
      if c.revokes then Move(s1, tid, t.(pphase := RevokeDue(ended, param))) else Drop(s1, tid)
  }

  /** A continued session within the cooldown skips the hook; a new one never does. */
  function ConsiderGrant(c: Config, s: State, tid: nat, t: Task): State
    requires t.ProofTask? && t.pphase.Renewed?
  {
    if !t.pphase.isNew && C.Cooling(c.cooldown, s.cooldowns, t.proof.client, s.mono) then Drop(s, tid)
    else Move(s, tid, t.(pphase := GrantDue(t.pphase.param, t.pphase.isNew)))
  }

  function RunGrant(s: State, tid: nat, t: Task, ran: bool): State
    requires t.ProofTask?
  {
    if ran then Move(Record(s, HOOKED, t.proof, t.source), tid, t.(pphase := GrantRan)) else Drop(s, tid)
  }

  function MarkCooldown(c: Config, s: State, tid: nat, t: Task): State
    requires t.ProofTask?
  {
    Drop(s.(cooldowns := C.AfterMark(c.cooldown, s.cooldowns, t.proof.client, s.mono)), tid)
  }

  function RunRevoke(s: State, tid: nat, t: Task, ran: bool): State
    requires t.ProofTask?
  {
    Drop(if ran then Record(s, HOOKED, t.proof, t.source) else s, tid)
  }

  /** The next step of task `tid`. `nonce` is what the random source yields, `done` whether
      the send or the hook of this step succeeds. */
  function Resume(c: Config, s: State, tid: nat, nonce: Bytes, done: bool): State
    requires tid in s.tasks && 1 <= c.leaseMaxSeconds
  {
    var t := s.tasks[tid];
    match t
    case HelloTask(_, _, phase) => (
      match phase
      case HelloArrived => LimitHello(c, s, tid, t)
      case HelloAdmitted => AcceptHello(c, s, tid, t)
      case HelloFresh(_) => MintNonce(c, s, tid, t, nonce)
      case Challenged(_) => SendChallenge(s, tid, done))
    case ProofTask(p, _, phase) => (
      match phase
      case ProofArrived => CheckProof(c, s, tid, t)
      case ProofChecked => ClaimNonce(s, tid, t)
      case ProofClaimed => AcceptProof(c, s, tid, t)
      case ProofAccepted(_) => if p.bye then ReleaseLease(c, s, tid, t) else RenewLease(c, s, tid, t)
      case Renewed(_, _) => ConsiderGrant(c, s, tid, t)
      case GrantDue(_, _) => RunGrant(s, tid, t, done)
      case GrantRan => MarkCooldown(c, s, tid, t)
      case RevokeDue(_, _) => RunRevoke(s, tid, t, done))
  }

  // ----- Steps of the whole system -----

  datatype Step =
    | Tick(wall: i64, mono: Instant)
    | Sign(client: ClientKey, message: Message)
    | Deliver(tid: nat, datagram: Datagram, source: Endpoint)
    | Advance(tid: nat, nonce: Bytes, done: bool)
    | PurgeNonces
    | PurgeSeen
    | PurgeRates
    | PurgeCooldowns
    | ScanLeases

  /** Unforgeability: the network can only send signatures that a client has made. */
  predicate Available(s: State, signature: Signature) {
    signature.Genuine? ==> (signature.signer, signature.message) in s.signed
  }

  function SignatureIn(d: Datagram): Signature {
    match d
    case HelloPacket(h) => h.signature
    case ProofPacket(p) => p.signature
  }

  function NewTask(d: Datagram, source: Endpoint): Task {
    match d
    case HelloPacket(h) => HelloTask(h, source, HelloArrived)
    case ProofPacket(p) => ProofTask(p, source, ProofArrived)
  }

  /** One step; a step that is not possible in `s` leaves it as it is. */
  function Next(c: Config, s: State, step: Step): State
    requires 1 <= c.leaseMaxSeconds
  {
    match step
    case Tick(wall, mono) => if s.wall <= wall && s.mono <= mono then s.(wall := wall, mono := mono) else s
    case Sign(client, message) => s.(signed := s.signed + {(client, message)})
    case Deliver(tid, d, source) =>
      if tid !in s.tasks && Available(s, SignatureIn(d)) then Move(s, tid, NewTask(d, source)) else s
    case Advance(tid, nonce, done) => if tid in s.tasks then Resume(c, s, tid, nonce, done) else s
    case PurgeNonces => s.(nonces := N.AfterPurge(s.nonces, s.wall))
    case PurgeSeen => s.(seen := AfterPurge(s.seen, s.wall))
    case PurgeRates => s.(rates := H.AfterPurge(c.limits, s.rates, s.mono))
    case PurgeCooldowns => s.(cooldowns := C.AfterPurge(c.cooldown, s.cooldowns, s.mono))
    case ScanLeases => s.(leases := L.AfterScan(s.leases, s.mono))
  }
}
