/** What every run keeps about HELLOs: a signed HELLO is accepted at most once, whenever the
    replay cache is purged and however large the skew, and it starts at most one nonce. */
module HelloAgreement {
  import opened Types
  import opened SigningText
  import opened Handshake
  import opened Runs
  import opened SeenCaches
  import N = NonceStores
  import C = Cooldowns
  import H = HelloLimits

  // ----- The parts of the invariant -----

  /** From now on, whenever the timestamp of HELLO `m` is in the window, the replay cache
      still has an unexpired entry for it. */
  ghost predicate Covered(c: Config, s: State, m: Message)
    requires m.HelloMessage?
  {
    forall later: i64 {:trigger WithinSkew(later, m.timestamp, c.skew)} ::
      s.wall <= later && WithinSkew(later, m.timestamp, c.skew) ==>
        (m.client, m.helloNonce) in s.seen && later <= s.seen[(m.client, m.helloNonce)]
  }

  /** An accepted HELLO names this server and a configured client, which signed it. */
  predicate Authentic(c: Config, s: State, m: Message) {
    m.HelloMessage? && m.server == c.server && m.client in c.clients && (m.client, m) in s.signed
  }

  ghost predicate AcceptedTrue(c: Config, s: State) {
    forall m :: m in s.accepted ==> Authentic(c, s, m) && s.accepted[m] == 1 && Covered(c, s, m)
  }

  /** A nonce answers an accepted HELLO of its client. */
  ghost predicate MintsTrue(s: State) {
    forall n :: n in s.minted ==> s.minted[n].hello in s.accepted && s.minted[n].hello.client == s.minted[n].client
  }

  ghost predicate OriginsDistinct(s: State) {
    forall i, j :: i in s.minted && j in s.minted && i != j ==> s.minted[i].hello != s.minted[j].hello
  }

  /** A task about to mint a nonce holds an accepted HELLO that no nonce answers yet. */
  ghost predicate FreshTrue(c: Config, s: State, t: Task) {
    t.HelloTask? && t.hphase.HelloFresh? ==>
      HelloText(c, t.hello) in s.accepted && (forall n :: n in s.minted ==> s.minted[n].hello != HelloText(c, t.hello))
  }

  ghost predicate TasksTrue(c: Config, s: State) {
    forall tid :: tid in s.tasks ==>
      FreshTrue(c, s, s.tasks[tid]) && (s.tasks[tid].HelloTask? ==> Available(s, s.tasks[tid].hello.signature))
  }

  predicate Minting(t: Task) {
    t.HelloTask? && t.hphase.HelloFresh?
  }

  ghost predicate MintersDistinct(c: Config, s: State) {
    forall i, j :: i in s.tasks && j in s.tasks && i != j && Minting(s.tasks[i]) && Minting(s.tasks[j]) ==>
      HelloText(c, s.tasks[i].hello) != HelloText(c, s.tasks[j].hello)
  }

  ghost predicate HellosTrue(c: Config, s: State) {
    AcceptedTrue(c, s) && MintsTrue(s) && OriginsDistinct(s) && TasksTrue(c, s) && MintersDistinct(c, s)
  }

  // ----- Accepting -----

  /** The replay cache turns away every HELLO that was accepted before. */
  lemma AcceptedBeforeIsRefused(c: Config, s: State, h: Hello)
    requires AcceptedTrue(c, s) && HelloText(c, h) in s.accepted
    ensures !AcceptsHello(c, s, h)
  {
    if WithinSkew(s.wall, h.timestamp, c.skew) {
      assert Covered(c, s, HelloText(c, h));
    }
  }

  /** The entry written for a HELLO covers it. */
  lemma InsertCovers(c: Config, s: State, s1: State, h: Hello)
    requires WithinSkew(s.wall, h.timestamp, c.skew) && Accepts(s.seen, (h.client, h.helloNonce), s.wall)
    requires s1.wall == s.wall && s1.seen == AfterInsert(s.seen, (h.client, h.helloNonce), s.wall, SeenTtl(c.skew))
    ensures Covered(c, s1, HelloText(c, h))
  {
    forall later: i64 | s.wall <= later && WithinSkew(later, h.timestamp, c.skew)
      ensures later <= s1.seen[(h.client, h.helloNonce)]
    {
      ExpiryCoversWindow(s.wall, later, h.timestamp, c.skew);
    }
  }

  /** Writing an entry never uncovers another HELLO, even one with the same key. */
  lemma InsertKeepsCovered(c: Config, s: State, s1: State, key: (ClientKey, Bytes), m: Message)
    requires m.HelloMessage? && Covered(c, s, m) && Accepts(s.seen, key, s.wall)
    requires s1.wall == s.wall && s1.seen == AfterInsert(s.seen, key, s.wall, SeenTtl(c.skew))
    ensures Covered(c, s1, m)
  {
  }

  function Accepted(c: Config, s: State, h: Hello): State {
    s.(seen := AfterInsert(s.seen, (h.client, h.helloNonce), s.wall, SeenTtl(c.skew)),
       accepted := s.accepted + multiset{HelloText(c, h)})
  }

  lemma AcceptKeepsAccepted(c: Config, s: State, h: Hello)
    requires AcceptedTrue(c, s) && Available(s, h.signature) && AcceptsHello(c, s, h)
    ensures AcceptedTrue(c, Accepted(c, s, h)) && HelloText(c, h) !in s.accepted
  {
    if HelloText(c, h) in s.accepted {
      AcceptedBeforeIsRefused(c, s, h);
    } else {
      var s1 := Accepted(c, s, h);
      InsertCovers(c, s, s1, h);
      forall m | m in s1.accepted ensures Authentic(c, s1, m) && s1.accepted[m] == 1 && Covered(c, s1, m) {
        if m != HelloText(c, h) {
          InsertKeepsCovered(c, s, s1, (h.client, h.helloNonce), m);
        }
      }
    }
  }

  lemma AcceptKeepsTask(c: Config, s: State, h: Hello, t: Task)
    requires FreshTrue(c, s, t)
    ensures FreshTrue(c, Accepted(c, s, h), t)
  {
  }

  lemma AcceptedKeeps(c: Config, s: State, h: Hello)
    requires HellosTrue(c, s) && Available(s, h.signature) && AcceptsHello(c, s, h)
    ensures HellosTrue(c, Accepted(c, s, h))
  {
    AcceptKeepsAccepted(c, s, h);
    forall tid | tid in s.tasks ensures FreshTrue(c, Accepted(c, s, h), s.tasks[tid]) {
      AcceptKeepsTask(c, s, h, s.tasks[tid]);
    }
  }

  /** A task becomes a minter of a HELLO that nobody else holds or has minted for. */
  lemma BecomeMinter(c: Config, s: State, tid: nat, t: Task)
    requires HellosTrue(c, s) && Minting(t) && FreshTrue(c, s, t) && Available(s, t.hello.signature)
    requires forall i :: i in s.tasks && Minting(s.tasks[i]) ==> HelloText(c, s.tasks[i].hello) != HelloText(c, t.hello)
    ensures HellosTrue(c, Move(s, tid, t))
  {
  }

  lemma AcceptHelloKeeps(c: Config, s: State, tid: nat)
    requires HellosTrue(c, s) && tid in s.tasks && s.tasks[tid].HelloTask?
    ensures HellosTrue(c, AcceptHello(c, s, tid, s.tasks[tid]))
  {
    var t := s.tasks[tid];
    if AcceptsHello(c, s, t.hello) {
      AcceptKeepsAccepted(c, s, t.hello);
      AcceptedKeeps(c, s, t.hello);
      BecomeMinter(c, Accepted(c, s, t.hello), tid, t.(hphase := HelloFresh(s.wall)));
    } else {
      DropKeeps(c, s, tid);
    }
  }

  // ----- Minting -----

  lemma MintKeepsTask(c: Config, s: State, h: Hello, source: Endpoint, nonce: Bytes, expiresAt: i64, t: Task)
    requires FreshTrue(c, s, t) && nonce !in s.minted && (Minting(t) ==> HelloText(c, t.hello) != HelloText(c, h))
    ensures FreshTrue(c, Mint(c, s, h, source, nonce, expiresAt), t)
  {
  }

  lemma MintKeeps(c: Config, s: State, h: Hello, source: Endpoint, nonce: Bytes, expiresAt: i64)
    requires HellosTrue(c, s) && nonce !in s.minted && HelloText(c, h) in s.accepted
    requires forall n :: n in s.minted ==> s.minted[n].hello != HelloText(c, h)
    requires forall i :: i in s.tasks && Minting(s.tasks[i]) ==> HelloText(c, s.tasks[i].hello) != HelloText(c, h)
    ensures HellosTrue(c, Mint(c, s, h, source, nonce, expiresAt))
  {
    var s1 := Mint(c, s, h, source, nonce, expiresAt);
    forall m | m in s.accepted ensures Covered(c, s1, m) {
      assert Covered(c, s, m);
    }
    forall tid | tid in s.tasks ensures FreshTrue(c, s1, s.tasks[tid]) {
      MintKeepsTask(c, s, h, source, nonce, expiresAt, s.tasks[tid]);
    }
  }

  lemma MintNonceKeeps(c: Config, s: State, tid: nat, nonce: Bytes)
    requires HellosTrue(c, s) && tid in s.tasks && Minting(s.tasks[tid])
    ensures HellosTrue(c, MintNonce(c, s, tid, s.tasks[tid], nonce))
  {
    var t := s.tasks[tid];
    if nonce !in s.minted {
      var expiresAt := AddClamped(t.hphase.at, c.nonceTtl);
      var phase := Challenged(nonce);
      QuietPhaseKeeps(c, s, tid, phase);
      var s1 := Move(s, tid, t.(hphase := phase));
      MintKeeps(c, s1, t.hello, t.source, nonce, expiresAt);
      assert Mint(c, s1, t.hello, t.source, nonce, expiresAt) == MintNonce(c, s, tid, t, nonce);
    }
  }

  // ----- Everything else -----

  lemma DropKeeps(c: Config, s: State, tid: nat)
    requires HellosTrue(c, s)
    ensures HellosTrue(c, Drop(s, tid))
  {
    SameKeeps(c, s, Drop(s, tid));
  }

  lemma QuietPhaseKeeps(c: Config, s: State, tid: nat, phase: HelloPhase)
    requires HellosTrue(c, s) && tid in s.tasks && s.tasks[tid].HelloTask? && !phase.HelloFresh?
    ensures HellosTrue(c, Move(s, tid, s.tasks[tid].(hphase := phase)))
  {
    var s1 := Move(s, tid, s.tasks[tid].(hphase := phase));
    forall m | m in s.accepted ensures Covered(c, s1, m) {
      assert Covered(c, s, m);
    }
  }

  /** Nothing that this invariant looks at changes, except that tasks may end and that
      tasks of proofs may come and go. */
  predicate SameHellos(s: State, s1: State) {
    && s1.wall == s.wall && s1.seen == s.seen && s1.signed == s.signed
    && s1.accepted == s.accepted && s1.minted == s.minted
    && (forall tid :: tid in s1.tasks && s1.tasks[tid].HelloTask? ==> tid in s.tasks && s.tasks[tid] == s1.tasks[tid])
  }

  lemma SameKeeps(c: Config, s: State, s1: State)
    requires HellosTrue(c, s) && SameHellos(s, s1)
    ensures HellosTrue(c, s1)
  {
    forall m | m in s1.accepted ensures Covered(c, s1, m) {
      assert Covered(c, s, m);
    }
    forall tid | tid in s1.tasks ensures FreshTrue(c, s1, s1.tasks[tid]) {
      if s1.tasks[tid].HelloTask? {
        assert FreshTrue(c, s, s.tasks[tid]);
      }
    }
  }

  lemma DeliverKeeps(c: Config, s: State, tid: nat, d: Datagram, source: Endpoint)
    requires HellosTrue(c, s) && tid !in s.tasks && Available(s, SignatureIn(d))
    ensures HellosTrue(c, Move(s, tid, NewTask(d, source)))
  {
    var s1 := Move(s, tid, NewTask(d, source));
    forall m | m in s.accepted ensures Covered(c, s1, m) {
      assert Covered(c, s, m);
    }
  }

  lemma SignKeeps(c: Config, s: State, client: ClientKey, message: Message)
    requires HellosTrue(c, s)
    ensures HellosTrue(c, s.(signed := s.signed + {(client, message)}))
  {
    var s1 := s.(signed := s.signed + {(client, message)});
    forall m | m in s.accepted ensures Authentic(c, s1, m) && Covered(c, s1, m) {
      assert Covered(c, s, m);
    }
    forall tid | tid in s.tasks ensures FreshTrue(c, s1, s.tasks[tid]) {
      assert FreshTrue(c, s, s.tasks[tid]);
    }
  }

  lemma TickKeeps(c: Config, s: State, wall: i64, mono: Instant)
    requires HellosTrue(c, s) && s.wall <= wall
    ensures HellosTrue(c, s.(wall := wall, mono := mono))
  {
    var s1 := s.(wall := wall, mono := mono);
    forall m | m in s.accepted ensures Covered(c, s1, m) {
      assert Covered(c, s, m);
    }
    forall tid | tid in s.tasks ensures FreshTrue(c, s1, s.tasks[tid]) {
      assert FreshTrue(c, s, s.tasks[tid]);
    }
  }

  /** Purging drops only entries that no later in-window HELLO needs. */
  lemma PurgeSeenKeeps(c: Config, s: State)
    requires HellosTrue(c, s)
    ensures HellosTrue(c, s.(seen := AfterPurge(s.seen, s.wall)))
  {
    var s1 := s.(seen := AfterPurge(s.seen, s.wall));
    forall m | m in s.accepted ensures Covered(c, s1, m) {
      assert Covered(c, s, m);
    }
    forall tid | tid in s.tasks ensures FreshTrue(c, s1, s.tasks[tid]) {
      assert FreshTrue(c, s, s.tasks[tid]);
    }
  }

  lemma LimitKeeps(c: Config, s: State, tid: nat)
    requires HellosTrue(c, s) && tid in s.tasks && s.tasks[tid].HelloTask?
    ensures HellosTrue(c, LimitHello(c, s, tid, s.tasks[tid]))
  {
    var t := s.tasks[tid];
    var s1 := s.(rates := H.AfterCheck(c.limits, s.rates, t.source.ip, s.mono));
    SameKeeps(c, s, s1);
    DropKeeps(c, s1, tid);
    QuietPhaseKeeps(c, s1, tid, HelloAdmitted);
  }

  lemma SendKeeps(c: Config, s: State, tid: nat, sent: bool)
    requires HellosTrue(c, s)
    ensures HellosTrue(c, SendChallenge(s, tid, sent))
  {
    SameKeeps(c, s, SendChallenge(s, tid, sent));
  }

  lemma HelloStepKeeps(c: Config, s: State, tid: nat, nonce: Bytes, done: bool)
    requires HellosTrue(c, s) && 1 <= c.leaseMaxSeconds && tid in s.tasks && s.tasks[tid].HelloTask?
    ensures HellosTrue(c, Resume(c, s, tid, nonce, done))
  {
    match s.tasks[tid].hphase {
      case HelloArrived => LimitKeeps(c, s, tid);
      case HelloAdmitted => AcceptHelloKeeps(c, s, tid);
      case HelloFresh(_) => MintNonceKeeps(c, s, tid, nonce);
      case Challenged(_) => SendKeeps(c, s, tid, done);
    }
  }

  /** The steps of a proof's task leave the HELLO side alone. */
  lemma TaskSame(s: State, s1: State, tid: nat, t: Task)
    requires SameHellos(s, s1) && t.ProofTask?
    ensures SameHellos(s, Move(s1, tid, t)) && SameHellos(s, Drop(s1, tid))
  {
  }

  lemma CheckSame(c: Config, s: State, tid: nat, t: Task)
    requires t.ProofTask?
    ensures SameHellos(s, CheckProof(c, s, tid, t))
  {
    TaskSame(s, s, tid, t.(pphase := ProofChecked));
    if ChecksOut(c, s, t.proof, t.source) {
      assert CheckProof(c, s, tid, t) == Move(s, tid, t.(pphase := ProofChecked));
    } else {
      assert CheckProof(c, s, tid, t) == Drop(s, tid);
    }
  }

  lemma ClaimSame(s: State, tid: nat, t: Task)
    requires t.ProofTask?
    ensures SameHellos(s, ClaimNonce(s, tid, t))
  {
    TaskSame(s, s, tid, t);
    var s1 := Record(Consume(s, t.proof, t.source), CONSUMED, t.proof, t.source);
    TaskSame(s, s1, tid, t.(pphase := ProofClaimed));
    if N.Validated(s.nonces, t.proof.nonce, t.proof.client, t.source, s.wall).Err? {
      assert ClaimNonce(s, tid, t) == Drop(s, tid);
    } else {
      assert ClaimNonce(s, tid, t) == Move(s1, tid, t.(pphase := ProofClaimed));
    }
  }

  lemma CountSame(s: State, verified: nat, p: Proof, source: Endpoint, stage: nat)
    ensures SameHellos(s, Record(s.(verified := verified), stage, p, source))
  {
  }

  lemma VerifySame(s: State, tid: nat, t: Task, param: Option<string>)
    requires t.ProofTask?
    ensures SameHellos(s, Verify(s, tid, t, param))
  {
    var verified: nat := if t.proof.bye then s.verified else s.verified + 1;
    CountSame(s, verified, t.proof, t.source, ACCEPTED);
    TaskSame(s, Record(s.(verified := verified), ACCEPTED, t.proof, t.source), tid, t.(pphase := ProofAccepted(param)));
  }

  lemma AcceptSame(c: Config, s: State, tid: nat, t: Task)
    requires t.ProofTask?
    ensures SameHellos(s, AcceptProof(c, s, tid, t))
  {
    var param := AdmitParam(c, t.proof.param);
    if param.None? {
      TaskSame(s, s, tid, t);
    } else {
      VerifySame(s, tid, t, param.value);
    }
  }

  lemma RenewSame(c: Config, s: State, tid: nat, t: Task)
    requires t.ProofTask? && t.pphase.ProofAccepted? && 1 <= c.leaseMaxSeconds
    ensures SameHellos(s, RenewLease(c, s, tid, t))
  {
  }

  lemma ReleaseSame(c: Config, s: State, tid: nat, t: Task)
    requires t.ProofTask? && t.pphase.ProofAccepted?
    ensures SameHellos(s, ReleaseLease(c, s, tid, t))
  {
    var s1 := Record(s.(leases := s.leases - {t.proof.client}), LEASED, t.proof, t.source);
    var after := ReleaseLease(c, s, tid, t);
    if t.proof.client !in s.leases {
      TaskSame(s, s, tid, t);
      assert after == Drop(s, tid);
    } else if c.revokes {
      TaskSame(s, s1, tid, after.tasks[tid]);
      assert after == Move(s1, tid, after.tasks[tid]);
    } else {
      TaskSame(s, s1, tid, t);
      assert after == Drop(s1, tid);
    }
  }

  lemma ConsiderSame(c: Config, s: State, tid: nat, t: Task)
    requires t.ProofTask? && t.pphase.Renewed?
    ensures SameHellos(s, ConsiderGrant(c, s, tid, t))
  {
    var moved := t.(pphase := GrantDue(t.pphase.param, t.pphase.isNew));
    TaskSame(s, s, tid, moved);
    if !t.pphase.isNew && C.Cooling(c.cooldown, s.cooldowns, t.proof.client, s.mono) {
      assert ConsiderGrant(c, s, tid, t) == Drop(s, tid);
    } else {
      assert ConsiderGrant(c, s, tid, t) == Move(s, tid, moved);
    }
  }

  lemma GrantSame(s: State, tid: nat, t: Task, done: bool)
    requires t.ProofTask?
    ensures SameHellos(s, RunGrant(s, tid, t, done))
  {
    if done {
      CountSame(s, s.verified, t.proof, t.source, HOOKED);
      TaskSame(s, Record(s, HOOKED, t.proof, t.source), tid, t.(pphase := GrantRan));
    } else {
      TaskSame(s, s, tid, t);
    }
  }

  lemma RevokeSame(s: State, tid: nat, t: Task, done: bool)
    requires t.ProofTask?
    ensures SameHellos(s, RunRevoke(s, tid, t, done))
  {
    if done {
      CountSame(s, s.verified, t.proof, t.source, HOOKED);
      TaskSame(s, Record(s, HOOKED, t.proof, t.source), tid, t);
    } else {
      TaskSame(s, s, tid, t);
    }
  }

  lemma MarkSame(c: Config, s: State, tid: nat, t: Task)
    requires t.ProofTask?
    ensures SameHellos(s, MarkCooldown(c, s, tid, t))
  {
    TaskSame(s, s.(cooldowns := C.AfterMark(c.cooldown, s.cooldowns, t.proof.client, s.mono)), tid, t);
  }

  lemma ProofStepSame(c: Config, s: State, tid: nat, nonce: Bytes, done: bool)
    requires 1 <= c.leaseMaxSeconds && tid in s.tasks && s.tasks[tid].ProofTask?
    ensures SameHellos(s, Resume(c, s, tid, nonce, done))
  {
    var t := s.tasks[tid];
    match t.pphase {
      case ProofArrived => CheckSame(c, s, tid, t);
      case ProofChecked => ClaimSame(s, tid, t);
      case ProofClaimed => AcceptSame(c, s, tid, t);
      case ProofAccepted(_) => if t.proof.bye { ReleaseSame(c, s, tid, t); } else { RenewSame(c, s, tid, t); }
      case Renewed(_, _) => ConsiderSame(c, s, tid, t);
      case GrantDue(_, _) => GrantSame(s, tid, t, done);
      case GrantRan => MarkSame(c, s, tid, t);
      case RevokeDue(_, _) => RevokeSame(s, tid, t, done);
    }
  }

  lemma AdvanceKeeps(c: Config, s: State, tid: nat, nonce: Bytes, done: bool)
    requires HellosTrue(c, s) && 1 <= c.leaseMaxSeconds && tid in s.tasks
    ensures HellosTrue(c, Resume(c, s, tid, nonce, done))
  {
    if s.tasks[tid].HelloTask? {
      HelloStepKeeps(c, s, tid, nonce, done);
    } else {
      ProofStepSame(c, s, tid, nonce, done);
      SameKeeps(c, s, Resume(c, s, tid, nonce, done));
    }
  }

  lemma ClockKeeps(c: Config, s: State, wall: i64, mono: Instant)
    requires HellosTrue(c, s) && 1 <= c.leaseMaxSeconds
    ensures HellosTrue(c, Next(c, s, Tick(wall, mono)))
  {
    if s.wall <= wall && s.mono <= mono {
      TickKeeps(c, s, wall, mono);
      assert Next(c, s, Tick(wall, mono)) == s.(wall := wall, mono := mono);
    } else {
      assert Next(c, s, Tick(wall, mono)) == s;
    }
  }

  lemma UpkeepSame(c: Config, s: State, step: Step)
    requires 1 <= c.leaseMaxSeconds
    requires step.PurgeNonces? || step.PurgeRates? || step.PurgeCooldowns? || step.ScanLeases?
    ensures SameHellos(s, Next(c, s, step))
  {
  }

  lemma ArriveKeeps(c: Config, s: State, step: Step)
    requires HellosTrue(c, s) && 1 <= c.leaseMaxSeconds && step.Deliver?
    ensures HellosTrue(c, Next(c, s, step))
  {
    if step.tid !in s.tasks && Available(s, SignatureIn(step.datagram)) {
      DeliverKeeps(c, s, step.tid, step.datagram, step.source);
    }
  }

  lemma StepKeeps(c: Config, s: State, step: Step)
    requires HellosTrue(c, s) && 1 <= c.leaseMaxSeconds
    ensures HellosTrue(c, Next(c, s, step))
  {
    match step {
      case Advance(tid, nonce, done) =>
        if tid in s.tasks {
          AdvanceKeeps(c, s, tid, nonce, done);
        }
      case Sign(client, message) => SignKeeps(c, s, client, message);
      case Deliver(_, _, _) => ArriveKeeps(c, s, step);
      case Tick(wall, mono) => ClockKeeps(c, s, wall, mono);
      case PurgeSeen => PurgeSeenKeeps(c, s);
      case _ =>
        UpkeepSame(c, s, step);
        SameKeeps(c, s, Next(c, s, step));
    }
  }

  lemma {:induction false} PathKeeps(c: Config, s: State, steps: seq<Step>, s1: State)
    requires 1 <= c.leaseMaxSeconds && HellosTrue(c, s) && Path(c, s, steps, s1)
    ensures HellosTrue(c, s1)
    decreases |steps|
  {
    if steps == [] {
      Stayed(c, s, s1);
    } else {
      var before := SplitLast(c, s, steps, s1);
      PathKeeps(c, s, steps[..|steps| - 1], before);
      StepKeeps(c, before, steps[|steps| - 1]);
    }
  }

  lemma HellosAlwaysTrue(c: Config, s: State)
    requires 1 <= c.leaseMaxSeconds && Reachable(c, s)
    ensures HellosTrue(c, s)
  {
    var wall, steps :| Path(c, Start(wall), steps, s);
    PathKeeps(c, Start(wall), steps, s);
  }

  // ----- Main results -----

  /** Each signed HELLO is accepted at most once over a whole run, purges and replays
      included; and only if a configured client signed it for this server. */
  lemma HelloAcceptedAtMostOnce(c: Config, s: State, m: Message)
    requires 1 <= c.leaseMaxSeconds && Reachable(c, s)
    ensures s.accepted[m] <= 1
    ensures m in s.accepted ==> Authentic(c, s, m)
  {
    HellosAlwaysTrue(c, s);
  }

  /** Every nonce was minted for a configured client that signed a HELLO to this server, and
      no HELLO was answered with two nonces. */
  lemma NoncesAnswerHellos(c: Config, s: State, i: Bytes, j: Bytes)
    requires 1 <= c.leaseMaxSeconds && Reachable(c, s)
    requires i in s.minted && j in s.minted && i != j
    ensures Authentic(c, s, s.minted[i].hello) && s.minted[i].hello.client == s.minted[i].client
    ensures s.minted[i].hello != s.minted[j].hello
  {
    HellosAlwaysTrue(c, s);
  }
}
