/** The server's defences over whole runs: handler calls, cleanup ticks, faulty packets and
    packets shed at the gate, in any order. Every refusal feeds the lockdown, an accepted client
    passes it, and only faulty packets block a sender. */
module Defence {
  import opened Types
  import opened SigningText
  import opened Handshake
  import opened Servers
  import B = Blacklists
  import G = Gates
  import H = HelloLimits
  import K = Lockdown

  // ----- Runs of the server -----

  datatype Call =
    | HelloCall(hello: Hello, source: Endpoint, nonce: Bytes, sent: bool, wall: i64, mono: Instant)
    | ProofCall(proof: Proof, source: Endpoint, ran: bool, peek: i64, take: i64, mono: Instant)
    | TickCall(wall: i64, mono: Instant)
    | FaultyCall(ip: Ip, mono: Instant)  // a packet that does not decrypt or decode
    | ShedCall(mono: Instant)            // a packet dropped at the lockdown gate

  /** `ttl` and `cap` are those of the table of active addresses. */
  datatype Rules = Rules(config: Config, blacklist: B.Config, ttl: nat, cap: nat)

  datatype World = World(stores: Stores, guard: Guard)

  const START := World(StoresOf(Start(0)), Guard(B.INITIAL, map[], 0, 0))

  function After(r: Rules, w: World, call: Call): World
    requires 1 <= r.config.leaseMaxSeconds
  {
    var World(d, g) := w;
    match call
    case HelloCall(h, source, nonce, sent, wall, mono) =>
      World(AfterHello(r.config, d, h, source, nonce, sent, wall, mono),
            GuardAfterHello(r.config, r.blacklist, r.cap, d, g, h, source, wall, mono))
    case ProofCall(p, source, ran, peek, take, mono) =>
      World(if p.bye then AfterBye(r.config, d, p, source, peek, take)
            else AfterResponse(r.config, d, p, source, ran, peek, take, mono),
            GuardAfterProof(r.config, r.blacklist, r.cap, d, g, p, source, peek, take, mono))
    case TickCall(wall, mono) =>
      World(AfterTick(r.config, d, wall, mono), GuardAfterTick(r.blacklist, r.ttl, g, mono))
    case FaultyCall(ip, mono) => w.(guard := GuardAfterFaulty(r.blacklist, g, ip, mono))
    case ShedCall(mono) =>
      w.(guard := g.(blacklist := B.AfterDrop(r.blacklist, g.blacklist, mono)))
  }

  /** The call is answered with a refusal: a HELLO that gets no CHALLENGE, a RESPONSE or BYE that is
      not verified, a packet that cannot be read. */
  predicate IsRefused(r: Rules, d: Stores, call: Call) {
    match call
    case HelloCall(h, source, _, _, wall, mono) => !Welcome(r.config, d, h, source, wall, mono)
    case ProofCall(p, source, _, peek, take, _) => !Verified(r.config, d, p, source, peek, take)
    case TickCall(_, _) => false
    case FaultyCall(_, _) => true
    case ShedCall(_) => false
  }

  /** One call of a run: what it leaves behind, and whether it is refused. */
  predicate Follows(r: Rules, calls: seq<Call>, worlds: seq<World>, refused: seq<bool>, k: nat)
    requires 1 <= r.config.leaseMaxSeconds && k < |calls| == |refused| < |worlds|
  {
    worlds[k + 1] == After(r, worlds[k], calls[k]) && (refused[k] <==> IsRefused(r, worlds[k].stores, calls[k]))
  }

  /** `worlds` is the run of `calls` from a fresh server, worlds[k] the server just before calls[k],
      and refused[k] says whether that call is refused. */
  ghost predicate IsRun(r: Rules, calls: seq<Call>, worlds: seq<World>, refused: seq<bool>)
    requires 1 <= r.config.leaseMaxSeconds
  {
    && |worlds| == |calls| + 1 && |refused| == |calls|
    && worlds[0] == START
    && (forall k {:trigger Follows(r, calls, worlds, refused, k)} :: 0 <= k < |calls| ==>
          Follows(r, calls, worlds, refused, k))
  }

  predicate InOrder(calls: seq<Call>) {
    forall i, j :: 0 <= i < j < |calls| ==> calls[i].mono <= calls[j].mono
  }

  /** How many of the first `n` calls were refused in the closed interval [lo, hi]. */
  function Refusals(calls: seq<Call>, refused: seq<bool>, n: nat, lo: int, hi: int): nat
    requires n <= |calls| == |refused|
  {
    if n == 0 then 0
    else
      Refusals(calls, refused, n - 1, lo, hi)
      + (if refused[n - 1] && lo <= calls[n - 1].mono <= hi then 1 else 0)
  }

  /** Every sequence of calls has a run. */
  lemma {:induction false} RunExists(r: Rules, calls: seq<Call>) returns (worlds: seq<World>, refused: seq<bool>)
    requires 1 <= r.config.leaseMaxSeconds
    ensures IsRun(r, calls, worlds, refused)
  {
    if calls == [] {
      worlds, refused := [START], [];
    } else {
      var n := |calls| - 1;
      var init := calls[..n];
      var before, flags := RunExists(r, init);
      worlds, refused := before + [After(r, before[n], calls[n])], flags + [IsRefused(r, before[n].stores, calls[n])];
      forall k {:trigger Follows(r, calls, worlds, refused, k)} | 0 <= k < |calls|
        ensures Follows(r, calls, worlds, refused, k)
      {
        if k < n {
          assert Follows(r, init, before, flags, k);
        }
      }
    }
  }

  lemma RunStep(r: Rules, calls: seq<Call>, worlds: seq<World>, refused: seq<bool>, n: nat)
    requires 1 <= r.config.leaseMaxSeconds && IsRun(r, calls, worlds, refused) && n < |calls|
    ensures worlds[n + 1] == After(r, worlds[n], calls[n]) && (refused[n] <==> IsRefused(r, worlds[n].stores, calls[n]))
  {
    assert Follows(r, calls, worlds, refused, n);
  }

  // ----- One call -----

  /** What a refusal does: it is a rejection of the blacklist, and is counted. */
  predicate CountedAs(r: Rules, g: Guard, g1: Guard, replay: bool, now: Instant) {
    && g1.blacklist == K.NextState(r.blacklist, g.blacklist, K.Rejection(now))
    && g1.rejected == g.rejected + 1 && g1.replays == g.replays + (if replay then 1 else 0)
    && g1.active == g.active
  }

  /** A HELLO is refused for the rate limit, an unknown client, a wrong signature, a timestamp too
      far from the clock, or a repetition, which alone counts as a replay; acceptance marks its
      source, if there is room. */
  lemma {:induction false} HelloDefended(r: Rules, calls: seq<Call>, worlds: seq<World>, refused: seq<bool>, n: nat)
    requires 1 <= r.config.leaseMaxSeconds && IsRun(r, calls, worlds, refused) && n < |calls| && calls[n].HelloCall?
    ensures var HelloCall(h, source, _, _, wall, mono) := calls[n];
            var c, d, g, g1 := r.config, worlds[n].stores, worlds[n].guard, worlds[n + 1].guard;
            var sound :=
              && H.Allows(c.limits, d.rates, source.ip, mono) && h.client in c.clients
              && h.signature == Genuine(h.client, HelloMessage(c.server, h.client, h.timestamp, h.helloNonce))
              && h.timestamp - c.skew <= wall <= h.timestamp + c.skew;
            var repeated := (h.client, h.helloNonce) in d.seen && wall <= d.seen[(h.client, h.helloNonce)];
            && (refused[n] <==> !sound || repeated)
            && (refused[n] ==> CountedAs(r, g, g1, sound, mono))
            && (!refused[n] ==>
                  g1 == g.(active := if source.ip in g.active || |g.active| < r.cap then g.active[source.ip := mono]
                                     else g.active))
  {
    RunStep(r, calls, worlds, refused, n);
  }

  /** A RESPONSE or BYE is refused for an unknown client, a nonce that is not good for it at either
      clock reading, a wrong signature, or a bad param, and counts as a replay when the nonce was
      used up. Of the accepted ones only a RESPONSE marks its source. */
  lemma {:induction false} ProofDefended(r: Rules, calls: seq<Call>, worlds: seq<World>, refused: seq<bool>, n: nat)
    requires 1 <= r.config.leaseMaxSeconds && IsRun(r, calls, worlds, refused) && n < |calls| && calls[n].ProofCall?
    ensures var ProofCall(p, source, _, peek, take, mono) := calls[n];
            var c, d, g, g1 := r.config, worlds[n].stores, worlds[n].guard, worlds[n + 1].guard;
            var known := p.client in c.clients && p.nonce in d.nonces;
            var sound :=
              && known && !d.nonces[p.nonce].used
              && peek <= d.nonces[p.nonce].expiresAt && take <= d.nonces[p.nonce].expiresAt
              && d.nonces[p.nonce].client == p.client && d.nonces[p.nonce].source == source
              && p.signature == Genuine(p.client, ProofMessage(p.bye, c.server, p.client, p.nonce, p.interval,
                                                               d.nonces[p.nonce].expiresAt, p.param))
              && AdmitParam(c, p.param).Some?;
            && (refused[n] <==> !sound)
            && (refused[n] ==> CountedAs(r, g, g1, known && d.nonces[p.nonce].used, mono))
            && (!refused[n] ==>
                  g1 == if !p.bye && (source.ip in g.active || |g.active| < r.cap)
                        then g.(active := g.active[source.ip := mono]) else g)
  {
    RunStep(r, calls, worlds, refused, n);
  }

  // ----- Refusals and lockdown -----

  /** The first `n` calls as the blacklist sees them, with its history. */
  function Seen(b: B.Config, calls: seq<Call>, refused: seq<bool>, n: nat): K.World
    requires n <= |calls| == |refused|
  {
    if n == 0 then K.START else SeenNext(b, Seen(b, calls, refused, n - 1), refused[n - 1], calls[n - 1])
  }

  function SeenNext(b: B.Config, k: K.World, refused: bool, call: Call): K.World {
    match call
    case TickCall(_, mono) => K.Next(b, k, K.Purge(mono))
    case FaultyCall(ip, mono) => K.Next(b, K.Next(b, k, K.Rejection(mono)), K.Faulty(ip, mono))
    case ShedCall(mono) => K.Next(b, k, K.Drop(mono))
    case _ => if refused then K.Next(b, k, K.Rejection(call.mono)) else k
  }

  lemma SeenStep(r: Rules, w: World, w1: World, k: K.World, flag: bool, call: Call)
    requires 1 <= r.config.leaseMaxSeconds && k.s == w.guard.blacklist
    requires w1 == After(r, w, call) && (flag <==> IsRefused(r, w.stores, call))
    ensures SeenNext(r.blacklist, k, flag, call).s == w1.guard.blacklist && FlagFits(call, flag)
  {
  }

  lemma SeenKeeps(b: B.Config, k: K.World, refused: bool, call: Call)
    requires K.Inv(b, k) && k.h.clock <= call.mono
    ensures K.Inv(b, SeenNext(b, k, refused, call)) && SeenNext(b, k, refused, call).h.clock <= call.mono
  {
    match call {
      case TickCall(_, mono) => K.InvStep(b, k, K.Purge(mono));
      case ShedCall(mono) => K.InvStep(b, k, K.Drop(mono));
      case FaultyCall(ip, mono) =>
        K.InvStep(b, k, K.Rejection(mono));
        K.InvStep(b, K.Next(b, k, K.Rejection(mono)), K.Faulty(ip, mono));
      case _ => K.InvStep(b, k, K.Rejection(call.mono));
    }
  }

  /** The flag says what can be refused, and what always is. */
  predicate FlagFits(call: Call, refused: bool) {
    (call.FaultyCall? ==> refused) && (call.TickCall? || call.ShedCall? ==> !refused)
  }

  predicate AllFit(calls: seq<Call>, refused: seq<bool>) {
    |refused| == |calls| && forall n {:trigger refused[n]} :: 0 <= n < |calls| ==> FlagFits(calls[n], refused[n])
  }

  lemma RunFits(r: Rules, calls: seq<Call>, worlds: seq<World>, refused: seq<bool>)
    requires 1 <= r.config.leaseMaxSeconds && IsRun(r, calls, worlds, refused)
    ensures AllFit(calls, refused)
  {
    forall n {:trigger refused[n]} | 0 <= n < |calls| ensures FlagFits(calls[n], refused[n]) {
      RunStep(r, calls, worlds, refused, n);
    }
  }

  lemma SeenCounts(b: B.Config, k: K.World, refused: bool, call: Call, lo: int, hi: int)
    requires FlagFits(call, refused)
    ensures K.Within(SeenNext(b, k, refused, call).h.rejections, lo, hi)
         == K.Within(k.h.rejections, lo, hi) + (if refused && lo <= call.mono <= hi then 1 else 0)
  {
    K.WithinAppend(k.h.rejections, call.mono, lo, hi);
  }

  lemma SeenStepAt(r: Rules, calls: seq<Call>, worlds: seq<World>, refused: seq<bool>, n: nat, k: K.World)
    requires 1 <= r.config.leaseMaxSeconds && IsRun(r, calls, worlds, refused) && n < |calls|
    requires k.s == worlds[n].guard.blacklist
    ensures SeenNext(r.blacklist, k, refused[n], calls[n]).s == worlds[n + 1].guard.blacklist
  {
    RunStep(r, calls, worlds, refused, n);
    SeenStep(r, worlds[n], worlds[n + 1], k, refused[n], calls[n]);
  }

  /** The blacklist's state is that of its own run, */
  lemma {:induction false} SeenIsState(r: Rules, calls: seq<Call>, worlds: seq<World>, refused: seq<bool>, n: nat)
    requires 1 <= r.config.leaseMaxSeconds && IsRun(r, calls, worlds, refused) && n <= |calls|
    ensures Seen(r.blacklist, calls, refused, n).s == worlds[n].guard.blacklist
  {
    if n > 0 {
      SeenIsState(r, calls, worlds, refused, n - 1);
      SeenStepAt(r, calls, worlds, refused, n - 1, Seen(r.blacklist, calls, refused, n - 1));
    }
  }

  /** which keeps its invariant, */
  lemma {:induction false} SeenIsSound(b: B.Config, calls: seq<Call>, refused: seq<bool>, n: nat, now: Instant)
    requires n <= |calls| == |refused| && InOrder(calls) && (n > 0 ==> calls[n - 1].mono <= now)
    ensures K.Inv(b, Seen(b, calls, refused, n)) && Seen(b, calls, refused, n).h.clock <= now
  {
    if n > 0 {
      SeenIsSound(b, calls, refused, n - 1, calls[n - 1].mono);
      SeenKeeps(b, Seen(b, calls, refused, n - 1), refused[n - 1], calls[n - 1]);
    }
  }

  /** and whose rejections are the refusals. */
  lemma {:induction false} RefusalsAreRejections(b: B.Config, calls: seq<Call>, refused: seq<bool>, n: nat, lo: int,
                                                 hi: int)
    requires AllFit(calls, refused) && n <= |calls|
    ensures K.Within(Seen(b, calls, refused, n).h.rejections, lo, hi) == Refusals(calls, refused, n, lo, hi)
  {
    if n > 0 {
      RefusalsAreRejections(b, calls, refused, n - 1, lo, hi);
      assert FlagFits(calls[n - 1], refused[n - 1]);
      SeenCounts(b, Seen(b, calls, refused, n - 1), refused[n - 1], calls[n - 1], lo, hi);
    }
  }

  lemma RefusalRejects(b: B.Config, k: K.World, call: Call)
    requires !call.TickCall? && !call.ShedCall?
    ensures SeenNext(b, k, true, call).h.rejections == k.h.rejections + [call.mono]
    ensures K.Next(b, k, K.Rejection(call.mono)).s.lockdownUntil <= SeenNext(b, k, true, call).s.lockdownUntil
    ensures !call.FaultyCall? ==> SeenNext(b, k, true, call) == K.Next(b, k, K.Rejection(call.mono))
  {
    if call.FaultyCall? {
      K.TimerOnlyArmed(b, K.Next(b, k, K.Rejection(call.mono)).s, K.Faulty(call.ip, call.mono));
    }
  }

  /** How many rejections there are in the window before `now`, one at `now` included. */
  function Crowd(b: B.Config, k: K.World, now: Instant): nat {
    K.Within(k.h.rejections + [now], now - b.Window(), now)
  }

  /** A rejection sets the hold-down timer if it is one too many, and else leaves it. */
  lemma RejectionHoldsIff(b: B.Config, k: K.World, now: Instant)
    requires K.RejectionsTrue(b, k) && k.h.clock <= now
    ensures K.Next(b, k, K.Rejection(now)).s.lockdownUntil
         == if 0 < b.rejectionThreshold < Crowd(b, k, now) then Max(k.s.lockdownUntil, B.Ms(now) + b.windowMs)
            else k.s.lockdownUntil
  {
    var op := K.Rejection(now);
    assert K.Next(b, k, op).h.rejections == k.h.rejections + [now];
    K.RejectionArmsIff(b, k, op);
    K.TimerOnlyArmed(b, k.s, op);
    assert K.Next(b, k, op).s == K.NextState(b, k.s, op);
  }

  lemma CrowdIsRefusals(b: B.Config, calls: seq<Call>, refused: seq<bool>, n: nat)
    requires AllFit(calls, refused) && n < |calls| && refused[n]
    ensures Crowd(b, Seen(b, calls, refused, n), calls[n].mono)
         == Refusals(calls, refused, n + 1, calls[n].mono - b.windowMs * 1_000_000, calls[n].mono)
  {
    RefusalRejects(b, Seen(b, calls, refused, n), calls[n]);
    RefusalsAreRejections(b, calls, refused, n + 1, calls[n].mono - b.windowMs * 1_000_000, calls[n].mono);
  }

  lemma SoundRejections(b: B.Config, k: K.World)
    requires K.Inv(b, k)
    ensures K.RejectionsTrue(b, k)
  {
  }

  /** The refusal calls[n] is one too many: more than the threshold of refusals, itself included, lie
      in the window before it. */
  predicate OneTooMany(b: B.Config, calls: seq<Call>, refused: seq<bool>, n: nat)
    requires n < |calls| == |refused|
  {
    refused[n]
    && 0 < b.rejectionThreshold
         < Refusals(calls, refused, n + 1, calls[n].mono - b.windowMs * 1_000_000, calls[n].mono)
  }

  lemma RefusalHolds(b: B.Config, k: K.World, call: Call)
    requires K.RejectionsTrue(b, k) && k.h.clock <= call.mono && !call.TickCall? && !call.ShedCall?
    ensures var k1 := SeenNext(b, k, true, call);
            && (0 < b.rejectionThreshold < Crowd(b, k, call.mono) ==>
                  B.Ms(call.mono) + b.windowMs <= k1.s.lockdownUntil)
            && (!call.FaultyCall? ==>
                  k1.s.lockdownUntil == if 0 < b.rejectionThreshold < Crowd(b, k, call.mono)
                                        then Max(k.s.lockdownUntil, B.Ms(call.mono) + b.windowMs)
                                        else k.s.lockdownUntil)
  {
    RejectionHoldsIff(b, k, call.mono);
    RefusalRejects(b, k, call);
  }

  lemma TickHolds(b: B.Config, k: K.World, call: Call)
    requires !call.FaultyCall? && !call.ShedCall?
    ensures SeenNext(b, k, false, call).s.lockdownUntil == k.s.lockdownUntil
  {
    if call.TickCall? {
      K.TimerOnlyArmed(b, k.s, K.Purge(call.mono));
    }
  }

  lemma SeenReady(b: B.Config, calls: seq<Call>, refused: seq<bool>, n: nat)
    requires n < |calls| == |refused| && InOrder(calls)
    ensures var k := Seen(b, calls, refused, n); K.RejectionsTrue(b, k) && k.h.clock <= calls[n].mono
  {
    SeenIsSound(b, calls, refused, n, calls[n].mono);
    SoundRejections(b, Seen(b, calls, refused, n));
  }

  lemma SeenHolds(b: B.Config, calls: seq<Call>, refused: seq<bool>, n: nat)
    requires AllFit(calls, refused) && InOrder(calls) && n < |calls|
    ensures var k, k1 := Seen(b, calls, refused, n), Seen(b, calls, refused, n + 1);
            && (OneTooMany(b, calls, refused, n) ==> B.Ms(calls[n].mono) + b.windowMs <= k1.s.lockdownUntil)
            && (!calls[n].FaultyCall? && !calls[n].ShedCall? ==>
                  k1.s.lockdownUntil == if OneTooMany(b, calls, refused, n)
                                        then Max(k.s.lockdownUntil, B.Ms(calls[n].mono) + b.windowMs)
                                        else k.s.lockdownUntil)
  {
    var call, k := calls[n], Seen(b, calls, refused, n);
    assert FlagFits(call, refused[n]);
    if refused[n] {
      CrowdIsRefusals(b, calls, refused, n);
      SeenReady(b, calls, refused, n);
      RefusalHolds(b, k, call);
    } else if !call.FaultyCall? && !call.ShedCall? {
      TickHolds(b, k, call);
    }
  }

  /** What one call does to the hold-down timer. */
  lemma HoldStep(r: Rules, calls: seq<Call>, worlds: seq<World>, refused: seq<bool>, n: nat)
    requires 1 <= r.config.leaseMaxSeconds && IsRun(r, calls, worlds, refused) && InOrder(calls) && n < |calls|
    ensures OneTooMany(r.blacklist, calls, refused, n) ==>
              B.Ms(calls[n].mono) + r.blacklist.windowMs <= worlds[n + 1].guard.blacklist.lockdownUntil
    ensures !calls[n].FaultyCall? && !calls[n].ShedCall? ==>
              worlds[n + 1].guard.blacklist.lockdownUntil
              == if OneTooMany(r.blacklist, calls, refused, n)
                 then Max(worlds[n].guard.blacklist.lockdownUntil, B.Ms(calls[n].mono) + r.blacklist.windowMs)
                 else worlds[n].guard.blacklist.lockdownUntil
  {
    RunFits(r, calls, worlds, refused);
    SeenIsState(r, calls, worlds, refused, n);
    SeenIsState(r, calls, worlds, refused, n + 1);
    SeenHolds(r.blacklist, calls, refused, n);
  }

  lemma TimerNeverFalls(r: Rules, w: World, call: Call)
    requires 1 <= r.config.leaseMaxSeconds
    ensures w.guard.blacklist.lockdownUntil <= After(r, w, call).guard.blacklist.lockdownUntil
  {
  }

  lemma TimerStepAt(r: Rules, calls: seq<Call>, worlds: seq<World>, refused: seq<bool>, n: nat)
    requires 1 <= r.config.leaseMaxSeconds && IsRun(r, calls, worlds, refused) && n < |calls|
    ensures worlds[n].guard.blacklist.lockdownUntil <= worlds[n + 1].guard.blacklist.lockdownUntil
  {
    RunStep(r, calls, worlds, refused, n);
    TimerNeverFalls(r, worlds[n], calls[n]);
  }

  lemma {:induction false} TimerGrows(r: Rules, calls: seq<Call>, worlds: seq<World>, refused: seq<bool>, n: nat,
                                      m: nat)
    requires 1 <= r.config.leaseMaxSeconds && IsRun(r, calls, worlds, refused) && n <= m <= |calls|
    ensures worlds[n].guard.blacklist.lockdownUntil <= worlds[m].guard.blacklist.lockdownUntil
    decreases m
  {
    if n < m {
      TimerGrows(r, calls, worlds, refused, n, m - 1);
      TimerStepAt(r, calls, worlds, refused, m - 1);
    }
  }

  /** More refusals than the threshold within one window put the server under lockdown: from the
      refusal that is one too many, for one whole window, whatever calls come after it. */
  lemma {:induction false} RefusalsEngageLockdown(r: Rules, calls: seq<Call>, worlds: seq<World>, refused: seq<bool>,
                                                  n: nat, m: nat, now: Instant)
    requires 1 <= r.config.leaseMaxSeconds && IsRun(r, calls, worlds, refused) && InOrder(calls) && n < m <= |calls|
    requires OneTooMany(r.blacklist, calls, refused, n)
    requires B.Ms(now) < B.Ms(calls[n].mono) + r.blacklist.windowMs
    ensures B.UnderAttack(r.blacklist, worlds[m].guard.blacklist, now)
  {
    HoldStep(r, calls, worlds, refused, n);
    TimerGrows(r, calls, worlds, refused, n + 1, m);
  }

  // ----- Exactly when, if only handlers and ticks run -----

  predicate HandlersOnly(calls: seq<Call>) {
    forall i :: 0 <= i < |calls| ==> !calls[i].FaultyCall? && !calls[i].ShedCall?
  }

  /** Of handlers and cleanup ticks alone, in any order, the server is under lockdown at `now` if
      and only if some refusal less than one window back was one too many. */
  lemma {:induction false} LockdownIffRefusals(r: Rules, calls: seq<Call>, worlds: seq<World>, refused: seq<bool>,
                                               n: nat, now: Instant)
    requires 1 <= r.config.leaseMaxSeconds && IsRun(r, calls, worlds, refused) && InOrder(calls) && n <= |calls|
    requires HandlersOnly(calls)
    ensures B.UnderAttack(r.blacklist, worlds[n].guard.blacklist, now) <==>
              exists k :: 0 <= k < n && OneTooMany(r.blacklist, calls, refused, k)
                                     && B.Ms(now) < B.Ms(calls[k].mono) + r.blacklist.windowMs
  {
    HeldIff(r, calls, worlds, refused, n, now);
    if k :| 0 <= k < n && OneTooMany(r.blacklist, calls, refused, k)
            && B.Ms(now) < B.Ms(calls[k].mono) + r.blacklist.windowMs {
      assert r.blacklist.rejectionThreshold > 0;
    }
  }

  lemma {:induction false} HeldIff(r: Rules, calls: seq<Call>, worlds: seq<World>, refused: seq<bool>, n: nat,
                                   now: Instant)
    requires 1 <= r.config.leaseMaxSeconds && IsRun(r, calls, worlds, refused) && InOrder(calls) && n <= |calls|
    requires HandlersOnly(calls)
    ensures B.Ms(now) < worlds[n].guard.blacklist.lockdownUntil <==>
              exists k :: 0 <= k < n && OneTooMany(r.blacklist, calls, refused, k)
                                     && B.Ms(now) < B.Ms(calls[k].mono) + r.blacklist.windowMs
  {
    if n > 0 {
      HeldIff(r, calls, worlds, refused, n - 1, now);
      HoldStep(r, calls, worlds, refused, n - 1);
      HeldStep(r.blacklist, calls, refused, n - 1, worlds[n - 1].guard.blacklist.lockdownUntil,
               worlds[n].guard.blacklist.lockdownUntil, now);
    } else {
      assert worlds[0] == START;
    }
  }

  lemma HeldStep(b: B.Config, calls: seq<Call>, refused: seq<bool>, n: nat, before: nat, after: nat, now: Instant)
    requires n < |calls| == |refused|
    requires B.Ms(now) < before <==>
               exists k :: 0 <= k < n && OneTooMany(b, calls, refused, k)
                                      && B.Ms(now) < B.Ms(calls[k].mono) + b.windowMs
    requires after == if OneTooMany(b, calls, refused, n) then Max(before, B.Ms(calls[n].mono) + b.windowMs) else before
    ensures B.Ms(now) < after <==>
              exists k :: 0 <= k < n + 1 && OneTooMany(b, calls, refused, k)
                                         && B.Ms(now) < B.Ms(calls[k].mono) + b.windowMs
  {
  }

  // ----- The counters -----

  lemma CounterStep(r: Rules, w: World, w1: World, flag: bool, call: Call)
    requires 1 <= r.config.leaseMaxSeconds && w1 == After(r, w, call) && (flag <==> IsRefused(r, w.stores, call))
    ensures w1.guard.rejected == w.guard.rejected + (if flag then 1 else 0)
    ensures w.guard.replays <= w1.guard.replays <= w.guard.replays + (if flag then 1 else 0)
  {
  }

  lemma CounterStepAt(r: Rules, calls: seq<Call>, worlds: seq<World>, refused: seq<bool>, n: nat)
    requires 1 <= r.config.leaseMaxSeconds && IsRun(r, calls, worlds, refused) && n < |calls|
    ensures worlds[n + 1].guard.rejected == worlds[n].guard.rejected + (if refused[n] then 1 else 0)
    ensures worlds[n].guard.replays <= worlds[n + 1].guard.replays
            <= worlds[n].guard.replays + (if refused[n] then 1 else 0)
  {
    RunStep(r, calls, worlds, refused, n);
    CounterStep(r, worlds[n], worlds[n + 1], refused[n], calls[n]);
  }

  /** The counter of rejected packets is the number of refusals, and replays are some of them. */
  lemma {:induction false} RejectedCountsRefusals(r: Rules, calls: seq<Call>, worlds: seq<World>, refused: seq<bool>,
                                                  n: nat, lo: int, hi: int)
    requires 1 <= r.config.leaseMaxSeconds && IsRun(r, calls, worlds, refused) && n <= |calls|
    requires forall i :: 0 <= i < n ==> lo <= calls[i].mono <= hi
    ensures worlds[n].guard.replays <= worlds[n].guard.rejected == Refusals(calls, refused, n, lo, hi)
  {
    if n > 0 {
      RejectedCountsRefusals(r, calls, worlds, refused, n - 1, lo, hi);
      CounterStepAt(r, calls, worlds, refused, n - 1);
    } else {
      assert worlds[0] == START;
    }
  }

  // ----- Accepted clients pass the lockdown -----

  lemma ActiveStays(r: Rules, w: World, call: Call, ip: Ip, marked: Instant)
    requires 1 <= r.config.leaseMaxSeconds && ip in w.guard.active && marked <= w.guard.active[ip]
    requires marked <= call.mono < marked + r.ttl
    ensures var active := After(r, w, call).guard.active; ip in active && marked <= active[ip]
  {
  }

  lemma {:induction false} ActiveFor(r: Rules, calls: seq<Call>, worlds: seq<World>, refused: seq<bool>, n: nat, m: nat,
                                     ip: Ip, marked: Instant)
    requires 1 <= r.config.leaseMaxSeconds && IsRun(r, calls, worlds, refused) && n <= m <= |calls|
    requires ip in worlds[n].guard.active && marked <= worlds[n].guard.active[ip]
    requires forall i :: n <= i < m ==> marked <= calls[i].mono < marked + r.ttl
    ensures ip in worlds[m].guard.active && marked <= worlds[m].guard.active[ip]
    decreases m
  {
    if n < m {
      ActiveFor(r, calls, worlds, refused, n, m - 1, ip, marked);
      RunStep(r, calls, worlds, refused, m - 1);
      ActiveStays(r, worlds[m - 1], calls[m - 1], ip, marked);
    }
  }

  /** An accepted HELLO or RESPONSE, unlike a BYE, makes its source active if there is room. */
  predicate MarksSource(w: World, cap: nat, call: Call, refused: bool) {
    !refused && (call.HelloCall? || (call.ProofCall? && !call.proof.bye))
    && (call.source.ip in w.guard.active || |w.guard.active| < cap)
  }

  lemma SourceIsMarked(r: Rules, w: World, w1: World, flag: bool, call: Call)
    requires 1 <= r.config.leaseMaxSeconds && w1 == After(r, w, call) && (flag <==> IsRefused(r, w.stores, call))
    requires MarksSource(w, r.cap, call, flag)
    ensures call.source.ip in w1.guard.active && w1.guard.active[call.source.ip] == call.mono
  {
  }

  /** From an accepted HELLO or RESPONSE on, the gate lets its sender through for the whole time to
      live of its address, however the attack goes and whatever calls come in between, unless the
      address is blacklisted. */
  lemma {:induction false} AcceptedIsSpared(r: Rules, calls: seq<Call>, worlds: seq<World>, refused: seq<bool>, n: nat,
                                            m: nat, now: Instant)
    requires 1 <= r.config.leaseMaxSeconds && IsRun(r, calls, worlds, refused) && InOrder(calls) && n < m <= |calls|
    requires MarksSource(worlds[n], r.cap, calls[n], refused[n])
    requires calls[m - 1].mono <= now < calls[n].mono + r.ttl
    ensures var b, s, ip := r.blacklist, worlds[m].guard.blacklist, calls[n].source.ip;
            G.Judge(b, s, r.ttl, worlds[m].guard.active, ip, now)
              == if B.Blocked(b, s, ip, now) then G.DroppedAsBlocked else G.Admitted
  {
    RunStep(r, calls, worlds, refused, n);
    SourceIsMarked(r, worlds[n], worlds[n + 1], refused[n], calls[n]);
    ActiveFor(r, calls, worlds, refused, n + 1, m, calls[n].source.ip, calls[n].mono);
  }

  // ----- Only faulty packets block a sender -----

  /** The faulty packets and purges among the first `n` calls. */
  function Faults(calls: seq<Call>, n: nat): seq<G.Fault>
    requires n <= |calls|
  {
    if n == 0 then []
    else
      match calls[n - 1]
      case FaultyCall(ip, mono) => Faults(calls, n - 1) + [G.Faulty(ip, mono)]
      case TickCall(_, mono) => Faults(calls, n - 1) + [G.Cleanup(mono)]
      case _ => Faults(calls, n - 1)
  }

  lemma {:induction false} FaultsInOrder(calls: seq<Call>, n: nat, now: Instant)
    requires n <= |calls| && InOrder(calls) && (n > 0 ==> calls[n - 1].mono <= now)
    ensures G.InOrder(Faults(calls, n), now)
  {
    if n > 0 {
      FaultsInOrder(calls, n - 1, calls[n - 1].mono);
    }
  }

  /** What the table of blocks depends on. */
  lemma SameTable(b: B.Config, s: B.State, s1: B.State, ip: Ip, now: Instant)
    requires s.table == s1.table
    ensures B.AfterFaulty(b, s, ip, now).table == B.AfterFaulty(b, s1, ip, now).table
    ensures B.AfterPurge(b, s, now).table == B.AfterPurge(b, s1, now).table
    ensures B.AfterRejection(b, s, now).table == B.AfterDrop(b, s, now).table == s.table
  {
  }

  lemma TableStep(r: Rules, w: World, w1: World, call: Call)
    requires 1 <= r.config.leaseMaxSeconds && w1 == After(r, w, call)
    ensures w1.guard.blacklist.table
         == if call.FaultyCall? then B.AfterFaulty(r.blacklist, w.guard.blacklist, call.ip, call.mono).table
            else if call.TickCall? then B.AfterPurge(r.blacklist, w.guard.blacklist, call.mono).table
            else w.guard.blacklist.table
  {
    if call.FaultyCall? {
      SameTable(r.blacklist, B.AfterRejection(r.blacklist, w.guard.blacklist, call.mono), w.guard.blacklist, call.ip,
                call.mono);
      SameTable(r.blacklist, w.guard.blacklist, w.guard.blacklist, call.ip, call.mono);
    }
  }

  lemma FaultsStep(b: B.Config, faults: seq<G.Fault>, op: G.Fault)
    ensures G.AfterFaults(b, B.INITIAL, faults + [op])
         == if op.Faulty? then B.AfterFaulty(b, G.AfterFaults(b, B.INITIAL, faults), op.ip, op.now)
            else B.AfterPurge(b, G.AfterFaults(b, B.INITIAL, faults), op.now)
  {
    assert (faults + [op])[..|faults|] == faults;
  }

  lemma {:induction false} TableIsFaults(r: Rules, calls: seq<Call>, worlds: seq<World>, refused: seq<bool>, n: nat)
    requires 1 <= r.config.leaseMaxSeconds && IsRun(r, calls, worlds, refused) && n <= |calls|
    ensures worlds[n].guard.blacklist.table == G.AfterFaults(r.blacklist, B.INITIAL, Faults(calls, n)).table
  {
    if n > 0 {
      var m, b := n - 1, r.blacklist;
      var call, s := calls[m], G.AfterFaults(r.blacklist, B.INITIAL, Faults(calls, m));
      TableIsFaults(r, calls, worlds, refused, m);
      RunStep(r, calls, worlds, refused, m);
      TableStep(r, worlds[m], worlds[n], call);
      if call.FaultyCall? {
        FaultsStep(b, Faults(calls, m), G.Faulty(call.ip, call.mono));
        SameTable(b, worlds[m].guard.blacklist, s, call.ip, call.mono);
      } else if call.TickCall? {
        FaultsStep(b, Faults(calls, m), G.Cleanup(call.mono));
        SameTable(b, worlds[m].guard.blacklist, s, 0, call.mono);
      }
    } else {
      assert worlds[0] == START;
    }
  }

  /** Whatever else goes on, the gate drops a sender as blocked if and only if a faulty packet of its
      own, one that blacklisted it or came while it was blacklisted, lies less than one block
      length back. No number of refusals blocks anyone. */
  lemma {:induction false} BlockedIffFaulty(r: Rules, calls: seq<Call>, worlds: seq<World>, refused: seq<bool>, n: nat,
                                            ip: Ip, now: Instant)
    requires 1 <= r.config.leaseMaxSeconds && IsRun(r, calls, worlds, refused) && InOrder(calls) && n <= |calls|
    requires n > 0 ==> calls[n - 1].mono <= now
    ensures var b, g := r.blacklist, worlds[n].guard;
            G.Judge(b, g.blacklist, r.ttl, g.active, ip, now) == G.DroppedAsBlocked <==>
              G.BlockedSince(b, Faults(calls, n), ip, now)
  {
    FaultsInOrder(calls, n, now);
    TableIsFaults(r, calls, worlds, refused, n);
    G.BlockedIff(r.blacklist, Faults(calls, n), ip, now);
  }
}
