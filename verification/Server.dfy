/** The handlers as the server runs them, over its shared stores. Each method is specified on
    the stores; the lemmas show that a handler that nothing interrupts does to the stores
    exactly what its task does in the handshake machine. */
module Servers {
  import opened Types
  import opened SigningText
  import opened Handshake
  import opened SeenCaches
  import B = Blacklists
  import G = Gates
  import N = NonceStores
  import L = Leases
  import C = Cooldowns
  import H = HelloLimits

  datatype Stores = Stores(
    rates: H.Table, seen: map<(ClientKey, Bytes), i64>, nonces: N.Entries, leases: L.Table,
    cooldowns: C.Marks<ClientKey>, verified: nat, hellosAccepted: nat)

  function StoresOf(s: State): Stores {
    Stores(s.rates, s.seen, s.nonces, s.leases, s.cooldowns, s.verified, s.hellosAccepted)
  }

  /** What the hooks are given besides the client and its address: the param, `{new}` and
      `{ip_clients}`. */
  datatype GrantCall = GrantCall(param: Option<string>, isNew: bool, ipClients: nat)

  datatype RevokeCall = RevokeCall(lease: L.ExpiredLease, param: Option<string>, ipClients: nat)

  // ----- What the handlers do to the stores -----

  predicate Welcome(c: Config, d: Stores, h: Hello, source: Endpoint, wall: i64, mono: Instant) {
    && H.Allows(c.limits, d.rates, source.ip, mono)
    && h.client in c.clients && Verifies(h.signature, h.client, HelloText(c, h))
    && WithinSkew(wall, h.timestamp, c.skew) && Accepts(d.seen, (h.client, h.helloNonce), wall)
  }

  function AfterHello(c: Config, d: Stores, h: Hello, source: Endpoint, nonce: Bytes, sent: bool, wall: i64,
                      mono: Instant): Stores
  {
    var d1 := d.(rates := H.AfterCheck(c.limits, d.rates, source.ip, mono));
    if !Welcome(c, d, h, source, wall, mono) then d1
    else
      d1.(seen := AfterInsert(d.seen, (h.client, h.helloNonce), wall, SeenTtl(c.skew)),
          nonces := N.AfterInsert(d.nonces, nonce, h.client, source, wall, AddClamped(wall, c.nonceTtl)),
          hellosAccepted := if sent then d.hellosAccepted + 1 else d.hellosAccepted)
  }

  /** Known client, good nonce, and a signature over the stored expiry; the clock is read once
      to peek at the nonce and again, at `take`, to consume it. */
  predicate Proven(c: Config, d: Stores, p: Proof, source: Endpoint, peek: i64, take: i64) {
    && p.client in c.clients
    && N.Validated(d.nonces, p.nonce, p.client, source, peek).Ok?
    && Verifies(p.signature, p.client, ProofText(c, p, d.nonces[p.nonce].expiresAt))
    && N.Validated(d.nonces, p.nonce, p.client, source, take).Ok?
  }

  function AfterProof(c: Config, d: Stores, p: Proof, source: Endpoint, peek: i64, take: i64): Stores {
    if Proven(c, d, p, source, peek, take) then d.(nonces := N.AfterConsume(d.nonces, p.nonce, p.client, source, take))
    else d
  }

  /** The RESPONSE is verified: its nonce was good and its param, if any, is clean. */
  predicate Verified(c: Config, d: Stores, p: Proof, source: Endpoint, peek: i64, take: i64) {
    Proven(c, d, p, source, peek, take) && AdmitParam(c, p.param).Some?
  }

  predicate RunsGrant(c: Config, d: Stores, p: Proof, source: Endpoint, peek: i64, take: i64, mono: Instant) {
    Verified(c, d, p, source, peek, take)
    && (!L.Live(d.leases, p.client, mono) || !C.Cooling(c.cooldown, d.cooldowns, p.client, mono))
  }

  function AfterResponse(c: Config, d: Stores, p: Proof, source: Endpoint, ran: bool, peek: i64, take: i64,
                         mono: Instant): Stores
    requires 1 <= c.leaseMaxSeconds
  {
    var d1 := AfterProof(c, d, p, source, peek, take);
    if !Verified(c, d, p, source, peek, take) then d1
    else
      var ttl := L.LeaseTtl(p.interval, c.multiplier, c.leaseMaxSeconds) * NANOS_PER_SECOND;
      var lease := L.Lease(mono + ttl, source.ip, source.port, AdmitParam(c, p.param).value);
      d1.(verified := d.verified + 1,
          leases := L.AfterRenew(c.leaseCap, d.leases, p.client, lease),
          cooldowns := if RunsGrant(c, d, p, source, peek, take, mono) && ran
                       then C.AfterMark(c.cooldown, d.cooldowns, p.client, mono) else d.cooldowns)
  }

  /** A verified RESPONSE counts, renews or begins the lease if there is room, and marks the client
      if the grant hook ran: for a new session, or out of cooldown. Any other leaves all that alone. */
  lemma ResponseEffects(c: Config, d: Stores, p: Proof, source: Endpoint, ran: bool, peek: i64, take: i64,
                        mono: Instant)
    requires 1 <= c.leaseMaxSeconds
    ensures var d1 := AfterResponse(c, d, p, source, ran, peek, take, mono);
            var ttl := L.LeaseTtl(p.interval, c.multiplier, c.leaseMaxSeconds) * 1_000_000_000;
            var runs := || (p.client in d.leases ==> d.leases[p.client].expiresAt <= mono)
                        || c.cooldown == 0
                        || (p.client in d.cooldowns ==> c.cooldown <= Since(mono, d.cooldowns[p.client]));
            && d1.rates == d.rates && d1.seen == d.seen && d1.hellosAccepted == d.hellosAccepted
            && if Verified(c, d, p, source, peek, take) then
                 var lease := L.Lease(mono + ttl, source.ip, source.port, AdmitParam(c, p.param).value);
                 && d1.nonces == d.nonces[p.nonce := d.nonces[p.nonce].(used := true)]
                 && d1.verified == d.verified + 1
                 && d1.leases == (if p.client in d.leases || |d.leases| < c.leaseCap then d.leases[p.client := lease]
                                  else d.leases)
                 && d1.cooldowns == (if runs && ran && c.cooldown != 0 then d.cooldowns[p.client := mono]
                                     else d.cooldowns)
               else
                 d1.verified == d.verified && d1.leases == d.leases && d1.cooldowns == d.cooldowns
  {
  }

  /** When the grant hook runs, whether it is told of a new session, and the count it is told. */
  lemma GrantSpelled(c: Config, d: Stores, p: Proof, source: Endpoint, peek: i64, take: i64, mono: Instant)
    ensures RunsGrant(c, d, p, source, peek, take, mono) <==>
              && Verified(c, d, p, source, peek, take)
              && (|| (p.client in d.leases ==> d.leases[p.client].expiresAt <= mono)
                  || c.cooldown == 0
                  || (p.client in d.cooldowns ==> c.cooldown <= Since(mono, d.cooldowns[p.client])))
    ensures !L.Live(d.leases, p.client, mono) <==> (p.client in d.leases ==> d.leases[p.client].expiresAt <= mono)
    ensures L.Others(d.leases, source.ip, p.client, mono)
         == |set o | o in d.leases && o != p.client && mono < d.leases[o].expiresAt && d.leases[o].ip == source.ip|
  {
    assert (set o | o in d.leases && o != p.client && mono < d.leases[o].expiresAt && d.leases[o].ip == source.ip)
        == L.LiveOn(d.leases, source.ip, mono) - {p.client};
  }

  function AfterBye(c: Config, d: Stores, p: Proof, source: Endpoint, peek: i64, take: i64): Stores {
    var d1 := AfterProof(c, d, p, source, peek, take);
    if Verified(c, d, p, source, peek, take) then d1.(leases := d.leases - {p.client}) else d1
  }

  function AfterTick(c: Config, d: Stores, wall: i64, mono: Instant): Stores {
    d.(rates := H.AfterPurge(c.limits, d.rates, mono), seen := AfterPurge(d.seen, wall),
       nonces := N.AfterPurge(d.nonces, wall), leases := L.AfterScan(d.leases, mono),
       cooldowns := C.AfterPurge(c.cooldown, d.cooldowns, mono))
  }

  // ----- What they do to the server's defences -----

  /** The blacklist, the recently active addresses, and the counters of refused packets. */
  datatype Guard = Guard(blacklist: B.State, active: G.Table, rejected: nat, replays: nat)

  /** Every refusal is counted, as a replay if it is one, and feeds the lockdown trigger. */
  function Refused(b: B.Config, g: Guard, replay: bool, now: Instant): Guard {
    g.(blacklist := B.AfterRejection(b, g.blacklist, now), rejected := g.rejected + 1,
       replays := if replay then g.replays + 1 else g.replays)
  }

  /** A HELLO refused for the replay cache alone is a replay. */
  predicate ReplayedHello(c: Config, d: Stores, h: Hello, source: Endpoint, wall: i64, mono: Instant) {
    && H.Allows(c.limits, d.rates, source.ip, mono)
    && h.client in c.clients && Verifies(h.signature, h.client, HelloText(c, h))
    && WithinSkew(wall, h.timestamp, c.skew) && !Accepts(d.seen, (h.client, h.helloNonce), wall)
  }

  /** A proof refused because a configured client's nonce is used up is a replay. */
  predicate ReplayedProof(c: Config, d: Stores, p: Proof, source: Endpoint, peek: i64) {
    p.client in c.clients && N.Validated(d.nonces, p.nonce, p.client, source, peek) == Err(N.AlreadyUsed)
  }

  function Marked(cap: nat, g: Guard, ip: Ip, now: Instant): Guard {
    g.(active := G.AfterMark(cap, g.active, ip, now))
  }

  /** A HELLO marks its source active, or is refused. */
  function GuardAfterHello(c: Config, b: B.Config, cap: nat, d: Stores, g: Guard, h: Hello, source: Endpoint, wall: i64,
                           mono: Instant): Guard
  {
    if Welcome(c, d, h, source, wall, mono) then Marked(cap, g, source.ip, mono)
    else Refused(b, g, ReplayedHello(c, d, h, source, wall, mono), mono)
  }

  /** So does a RESPONSE; a BYE does not mark its source. */
  function GuardAfterProof(c: Config, b: B.Config, cap: nat, d: Stores, g: Guard, p: Proof, source: Endpoint, peek: i64,
                           take: i64, mono: Instant): Guard
  {
    if !Verified(c, d, p, source, peek, take) then Refused(b, g, ReplayedProof(c, d, p, source, peek), mono)
    else if p.bye then g
    else Marked(cap, g, source.ip, mono)
  }

  /** A packet that cannot be read is refused, and is a fault of its sender. */
  function GuardAfterFaulty(b: B.Config, g: Guard, ip: Ip, now: Instant): Guard {
    var g1 := Refused(b, g, false, now);
    g1.(blacklist := B.AfterFaulty(b, g1.blacklist, ip, now))
  }

  function GuardAfterTick(b: B.Config, ttl: nat, g: Guard, mono: Instant): Guard {
    g.(blacklist := B.AfterPurge(b, g.blacklist, mono), active := G.AfterPurge(ttl, g.active, mono))
  }

  class Server {
    const config: Config
    const rates: H.HelloRateLimiter
    const seen: SeenCache<(ClientKey, Bytes)>
    const nonces: N.NonceStore
    const leases: L.LeaseTracker
    const cooldown: C.CooldownTracker
    const blacklist: B.Blacklist
    const active: G.ActiveIps
    var verified: nat
    var hellosAccepted: nat
    var rejected: nat
    var replays: nat

    ghost predicate Valid() {
      && rates.limits == config.limits && rates.limits.window > 0 && leases.cap == config.leaseCap
      && cooldown.cooldown == config.cooldown && 1 <= config.leaseMaxSeconds
    }

    ghost function Contents(): Stores
      reads this, rates, seen, nonces, leases, cooldown
    {
      Stores(rates.state, seen.entries, nonces.entries, leases.leases, cooldown.last, verified, hellosAccepted)
    }

    ghost function Guarding(): Guard
      reads this, blacklist, active
    {
      Guard(blacklist.Contents(), active.seen, rejected, replays)
    }

    /** An empty server; the windows of its limiter and its cooldown are configured in seconds. */
    constructor (c: Config, windowSeconds: u64, cooldownSeconds: u64, blacklist: B.Blacklist, active: G.ActiveIps)
      requires c.limits.window == Max(windowSeconds, 1) * 1_000_000_000
      requires c.cooldown == cooldownSeconds * 1_000_000_000
      requires 1 <= c.leaseCap && 1 <= c.leaseMaxSeconds
      ensures Valid() && config == c
      ensures Contents() == Stores(map[], map[], map[], map[], map[], 0, 0) == StoresOf(Start(0))
      ensures this.blacklist == blacklist && this.active == active && rejected == replays == 0
      ensures fresh(rates) && fresh(seen) && fresh(nonces) && fresh(leases) && fresh(cooldown)
    {
      config := c;
      rates := new H.HelloRateLimiter(c.limits.maxPerWindow, windowSeconds, c.limits.maxEntries);
      seen := new SeenCache();
      nonces := new N.NonceStore();
      leases := new L.LeaseTracker(c.leaseCap);
      cooldown := new C.CooldownTracker(cooldownSeconds);
      this.blacklist := blacklist;
      this.active := active;
      verified, hellosAccepted, rejected, replays := 0, 0, 0, 0;
    }

    /** Counts a refused packet, as a replay if it is one, and feeds the lockdown trigger. */
    method NoteRejected(replay: bool, now: Instant)
      modifies this`rejected, this`replays, blacklist
      ensures rejected == old(rejected) + 1 && replays == old(replays) + (if replay then 1 else 0)
      ensures blacklist.Contents() == B.AfterRejection(blacklist.config, old(blacklist.Contents()), now)
      ensures Guarding() == Refused(blacklist.config, old(Guarding()), replay, now)
    {
      rejected := rejected + 1;
      if replay {
        replays := replays + 1;
      }
      blacklist.NoteRejection(now);
    }

    /** A packet that does not decrypt or decode: a refusal, and a fault of its sender. */
    method NoteFaulty(ip: Ip, now: Instant) returns (tripped: bool)
      modifies this`rejected, this`replays, blacklist
      ensures rejected == old(rejected) + 1 && replays == old(replays)
      ensures blacklist.Contents()
           == B.AfterFaulty(blacklist.config, B.AfterRejection(blacklist.config, old(blacklist.Contents()), now), ip,
                            now)
      ensures tripped == B.Trips(blacklist.config, old(blacklist.Contents()), ip)
      ensures Guarding() == GuardAfterFaulty(blacklist.config, old(Guarding()), ip, now)
    {
      NoteRejected(false, now);
      tripped := blacklist.RecordFaulty(ip, now);
    }

    /** Rate limit, known client, signature, freshness, replay; every refusal is counted. */
    method CheckHello(h: Hello, source: Endpoint, wall: i64, mono: Instant) returns (ok: bool)
      requires Valid()
      modifies this`rejected, this`replays, rates, seen, blacklist
      ensures ok == Welcome(config, old(Contents()), h, source, wall, mono)
      ensures ok <==>
                && H.Allows(config.limits, old(rates.state), source.ip, mono)
                && h.client in config.clients
                && h.signature == Genuine(h.client, HelloMessage(config.server, h.client, h.timestamp, h.helloNonce))
                && h.timestamp - config.skew <= wall <= h.timestamp + config.skew
                && ((h.client, h.helloNonce) in old(seen.entries) ==>
                      old(seen.entries)[(h.client, h.helloNonce)] < wall)
      ensures rates.state == H.AfterCheck(config.limits, old(rates.state), source.ip, mono)
      ensures var until := Min(wall + Min(2 * config.skew, U64_MAX), I64_MAX);
              seen.entries == if ok then old(seen.entries)[(h.client, h.helloNonce) := until] else old(seen.entries)
      ensures Guarding() == if ok then old(Guarding())
                            else Refused(blacklist.config, old(Guarding()),
                                         ReplayedHello(config, old(Contents()), h, source, wall, mono), mono)
      ensures rejected == old(rejected) + (if ok then 0 else 1)
    {
      var allowed := rates.Check(source.ip, mono);
      if !allowed {
        NoteRejected(false, mono);
        return false;
      }
      if h.client !in config.clients || !Verifies(h.signature, h.client, HelloText(config, h)) {
        NoteRejected(false, mono);
        return false;
      }
      if !WithinSkew(wall, h.timestamp, config.skew) {
        NoteRejected(false, mono);
        return false;
      }
      ok := seen.InsertIfAbsent((h.client, h.helloNonce), wall, SeenTtl(config.skew));
      if !ok {
        NoteRejected(true, mono);
      }
    }

    /** An admitted HELLO marks its source active, and a nonce is issued. The answer says whether a
        CHALLENGE is sent, and with which expiry. */
    method HandleHello(h: Hello, source: Endpoint, nonce: Bytes, sent: bool, wall: i64, mono: Instant)
      returns (challenge: Option<i64>)
      requires Valid()
      modifies this`hellosAccepted, this`rejected, this`replays, rates, seen, nonces, blacklist, active
      ensures Contents() == AfterHello(config, old(Contents()), h, source, nonce, sent, wall, mono)
      ensures Guarding() == GuardAfterHello(config, blacklist.config, active.cap, old(Contents()), old(Guarding()), h,
                                            source, wall, mono)
      ensures challenge.Some? <==>
                && H.Allows(config.limits, old(rates.state), source.ip, mono)
                && h.client in config.clients
                && h.signature == Genuine(h.client, HelloMessage(config.server, h.client, h.timestamp, h.helloNonce))
                && h.timestamp - config.skew <= wall <= h.timestamp + config.skew
                && ((h.client, h.helloNonce) in old(seen.entries) ==>
                      old(seen.entries)[(h.client, h.helloNonce)] < wall)
      ensures challenge.Some? ==>
                && challenge.value == Min(wall + config.nonceTtl, I64_MAX)
                && nonces.entries
                   == old(nonces.entries)[nonce := N.NonceEntry(h.client, source, wall, challenge.value, false)]
                && hellosAccepted == old(hellosAccepted) + (if sent then 1 else 0)
      ensures challenge.Some? && (source.ip in old(active.seen) || |old(active.seen)| < active.cap) ==>
                active.seen == old(active.seen)[source.ip := mono]
      ensures challenge.None? ==>
                && nonces.entries == old(nonces.entries) && hellosAccepted == old(hellosAccepted)
                && active.seen == old(active.seen) && rejected == old(rejected) + 1
    {
      var ok := CheckHello(h, source, wall, mono);
      if !ok {
        return None;
      }
      active.Mark(source.ip, mono);
      var expiresAt := AddClamped(wall, config.nonceTtl);
      nonces.Insert(nonce, h.client, source, wall, expiresAt);
      if sent {
        hellosAccepted := hellosAccepted + 1;
      }
      return Some(expiresAt);
    }

    /** The checks that RESPONSE and BYE share: peek, verify, and only then consume. A refusal
        is counted, as a replay when the nonce was used up. */
    method CheckProof(p: Proof, source: Endpoint, peek: i64, take: i64, mono: Instant) returns (ok: bool)
      modifies this`rejected, this`replays, nonces, blacklist
      ensures nonces.entries == AfterProof(config, old(Contents()), p, source, peek, take).nonces
      ensures ok == Proven(config, old(Contents()), p, source, peek, take)
      ensures ok <==>
                && p.client in config.clients && p.nonce in old(nonces.entries)
                && (var e := old(nonces.entries)[p.nonce];
                    && !e.used && peek <= e.expiresAt && take <= e.expiresAt && e.client == p.client
                    && e.source == source
                    && p.signature == Genuine(p.client,
                                              ProofMessage(p.bye, config.server, p.client, p.nonce, p.interval,
                                                           e.expiresAt, p.param)))
      ensures ok ==> nonces.entries == old(nonces.entries)[p.nonce := old(nonces.entries)[p.nonce].(used := true)]
      ensures !ok ==>
                && nonces.entries == old(nonces.entries) && rejected == old(rejected) + 1
                && (replays == old(replays) + 1 <==>
                      p.client in config.clients && p.nonce in old(nonces.entries) && old(nonces.entries)[p.nonce].used)
      ensures Guarding() == if ok then old(Guarding())
                            else Refused(blacklist.config, old(Guarding()),
                                         ReplayedProof(config, old(Contents()), p, source, peek), mono)
    {
      if p.client !in config.clients {
        NoteRejected(false, mono);
        return false;
      }
      var peeked := nonces.Validate(p.nonce, p.client, source, peek);
      if peeked.Err? {
        NoteRejected(peeked.error == N.AlreadyUsed, mono);
        return false;
      }
      if !Verifies(p.signature, p.client, ProofText(config, p, peeked.value.expiresAt)) {
        NoteRejected(false, mono);
        return false;
      }
      var consumed := nonces.Consume(p.nonce, p.client, source, take);
      if consumed.Err? {
        NoteRejected(consumed.error == N.AlreadyUsed, mono);
        return false;
      }
      return true;
    }

    /** Opens and checks the param; a bad one is counted as a refusal. */
    method DecryptParam(blob: Bytes, mono: Instant) returns (param: Option<Option<string>>)
      modifies this`rejected, this`replays, blacklist
      ensures param == AdmitParam(config, blob)
      ensures Guarding() == if param.Some? then old(Guarding())
                            else Refused(blacklist.config, old(Guarding()), false, mono)
    {
      param := AdmitParam(config, blob);
      if param.None? {
        NoteRejected(false, mono);
      }
    }

    /** Everything that decides whether a packet is verified. */
    method VerifyPacket(p: Proof, source: Endpoint, peek: i64, take: i64, mono: Instant)
      returns (param: Option<Option<string>>)
      modifies this`rejected, this`replays, nonces, blacklist
      ensures nonces.entries == AfterProof(config, old(Contents()), p, source, peek, take).nonces
      ensures param == if Verified(config, old(Contents()), p, source, peek, take)
                       then AdmitParam(config, p.param) else None
      ensures Guarding() == if param.Some? then old(Guarding())
                            else Refused(blacklist.config, old(Guarding()),
                                         ReplayedProof(config, old(Contents()), p, source, peek), mono)
    {
      var ok := CheckProof(p, source, peek, take, mono);
      if !ok {
        return None;
      }
      param := DecryptParam(p.param, mono);
    }

    /** Renews the lease of a verified RESPONSE, and runs the grant hook unless the cooldown
        forbids it; `ran` is whether the hook could be run. */
    method RenewAndGrant(p: Proof, source: Endpoint, param: Option<string>, ran: bool, mono: Instant)
      returns (hook: Option<GrantCall>)
      requires Valid()
      modifies leases, cooldown
      ensures var ttl := L.LeaseTtl(p.interval, config.multiplier, config.leaseMaxSeconds) * NANOS_PER_SECOND;
              leases.leases == L.AfterRenew(config.leaseCap, old(leases.leases), p.client,
                                            L.Lease(mono + ttl, source.ip, source.port, param))
      ensures var isNew := !L.Live(old(leases.leases), p.client, mono);
              var runs := isNew || !C.Cooling(config.cooldown, old(cooldown.last), p.client, mono);
              && hook == (if runs
                          then Some(GrantCall(param, isNew, L.Others(leases.leases, source.ip, p.client, mono)))
                          else None)
              && cooldown.last == if runs && ran then C.AfterMark(config.cooldown, old(cooldown.last), p.client, mono)
                                  else old(cooldown.last)
    {
      var ttl := L.LeaseTtl(p.interval, config.multiplier, config.leaseMaxSeconds) * NANOS_PER_SECOND;
      var isNew := leases.Renew(p.client, source, param, ttl, mono);
      if !isNew {
        var cooling := cooldown.InCooldown(p.client, mono);
        if cooling {
          return None;
        }
      }
      var others := leases.OthersOnIp(source.ip, p.client, mono);
      if ran {
        cooldown.Mark(p.client, mono);
      }
      return Some(GrantCall(param, isNew, others));
    }

    /** A RESPONSE: verified, its source is marked active, its lease is renewed, and the grant
        hook is told the param, whether the client had no live lease, and how many other clients
        have one on this address. */
    method HandleResponse(p: Proof, source: Endpoint, ran: bool, peek: i64, take: i64, mono: Instant)
      returns (hook: Option<GrantCall>)
      requires Valid() && !p.bye
      modifies this`verified, this`rejected, this`replays, nonces, leases, cooldown, blacklist, active
      ensures Contents() == AfterResponse(config, old(Contents()), p, source, ran, peek, take, mono)
      ensures Guarding() == GuardAfterProof(config, blacklist.config, active.cap, old(Contents()), old(Guarding()), p,
                                            source, peek, take, mono)
      ensures hook == if RunsGrant(config, old(Contents()), p, source, peek, take, mono)
                      then Some(GrantCall(AdmitParam(config, p.param).value,
                                          !L.Live(old(leases.leases), p.client, mono),
                                          L.Others(leases.leases, source.ip, p.client, mono)))
                      else None
    {
      var param := VerifyPacket(p, source, peek, take, mono);
      if param.None? {
        return None;
      }
      active.Mark(source.ip, mono);
      verified := verified + 1;
      hook := RenewAndGrant(p, source, param.value, ran, mono);
    }

    /** A BYE: verified like a RESPONSE, it releases the client's own lease. The revoke hook, if
        there is one, is not run when the client held no lease; the param of the BYE takes
        precedence over the one stored with the lease. */
    method HandleBye(p: Proof, source: Endpoint, peek: i64, take: i64, mono: Instant) returns (hook: Option<RevokeCall>)
      requires Valid() && p.bye
      modifies this`rejected, this`replays, nonces, leases, blacklist
      ensures Contents() == AfterBye(config, old(Contents()), p, source, peek, take)
      ensures Guarding() == GuardAfterProof(config, blacklist.config, active.cap, old(Contents()), old(Guarding()), p,
                                            source, peek, take, mono)
      ensures hook.Some? <==>
                && Verified(config, old(Contents()), p, source, peek, take)
                && p.client in old(leases.leases) && config.revokes
      ensures hook.Some? ==>
                var lease := old(leases.leases)[p.client];
                && hook.value.lease == L.ExpiredLease(lease.ip, p.client, lease.port, lease.param)
                && hook.value.ipClients
                   == |set o | o in leases.leases && mono < leases.leases[o].expiresAt
                               && leases.leases[o].ip == lease.ip|
                && hook.value.param == (var sent := AdmitParam(config, p.param).value;
                                        if sent.Some? then sent else lease.param)
      ensures leases.leases == if Verified(config, old(Contents()), p, source, peek, take)
                               then old(leases.leases) - {p.client} else old(leases.leases)
    {
      var param := VerifyPacket(p, source, peek, take, mono);
      if param.None? {
        return None;
      }
      ghost var before := leases.leases;
      var ended := leases.Release(p.client, mono);
      if ended.None? || !config.revokes {
        return None;
      }
      L.CountsAgree(before, p.client, mono);
      var lease := ended.value.lease;
      return Some(RevokeCall(lease, if param.value.Some? then param.value else lease.param, ended.value.remaining));
    }

    /** Drains the expired leases; returns what the revoke hooks, if there are any, are given. */
    method RunLeaseScan(mono: Instant) returns (ended: seq<L.Ended>)
      modifies leases
      ensures leases.leases == L.AfterScan(old(leases.leases), mono)
      ensures if config.revokes then L.DrainReport(old(leases.leases), mono, ended) else ended == []
    {
      ended := leases.TakeExpired(mono);
      if !config.revokes {
        ended := [];
      }
    }

    method PurgeGuards(mono: Instant)
      modifies blacklist, active
      ensures blacklist.Contents() == B.AfterPurge(blacklist.config, old(blacklist.Contents()), mono)
      ensures active.seen == G.AfterPurge(active.ttl, old(active.seen), mono)
    {
      blacklist.PurgeStale(mono);
      active.PurgeStale(mono);
    }

    /** The cleanup tick: every store is purged, then the expired leases are drained. */
    method CleanupTick(wall: i64, mono: Instant) returns (ended: seq<L.Ended>)
      requires Valid()
      modifies rates, seen, nonces, leases, cooldown, blacklist, active
      ensures rates.state == H.AfterPurge(config.limits, old(rates.state), mono)
      ensures seen.entries == AfterPurge(old(seen.entries), wall)
      ensures nonces.entries == N.AfterPurge(old(nonces.entries), wall)
      ensures leases.leases == L.AfterScan(old(leases.leases), mono)
      ensures cooldown.last == C.AfterPurge(config.cooldown, old(cooldown.last), mono)
      ensures Contents() == AfterTick(config, old(Contents()), wall, mono)
      ensures blacklist.Contents() == B.AfterPurge(blacklist.config, old(blacklist.Contents()), mono)
      ensures active.seen == G.AfterPurge(active.ttl, old(active.seen), mono)
      ensures Guarding() == GuardAfterTick(blacklist.config, active.ttl, old(Guarding()), mono)
      ensures if config.revokes then L.DrainReport(old(leases.leases), mono, ended) else ended == []
    {
      var goneNonces := nonces.PurgeExpired(wall);
      var goneHellos := seen.PurgeExpired(wall);
      rates.PurgeStale(mono);
      PurgeGuards(mono);
      cooldown.PurgeStale(mono);
      ended := RunLeaseScan(mono);
    }
  }
}
