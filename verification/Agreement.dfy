/** What every run of the handshake machine keeps: each thing the server does is backed by a
    signature of the client it is done for, on a nonce minted for that client and endpoint,
    and no nonce backs two things of one sort. */
module Agreement {
  import opened Types
  import opened SigningText
  import opened Handshake
  import opened Runs
  import opened SeenCaches
  import N = NonceStores
  import H = HelloLimits

  // ----- The parts of the invariant -----

  /** A stored nonce is bound as it was minted, and is marked used exactly when it was
      consumed; a minted nonce stays stored until it expires. */
  ghost predicate NoncesTrue(s: State) {
    && (forall n :: n in s.nonces ==>
          && n in s.minted
          && s.nonces[n].client == s.minted[n].client && s.nonces[n].source == s.minted[n].source
          && s.nonces[n].expiresAt == s.minted[n].expiresAt
          && (s.nonces[n].used <==> n in s.claims))
    && (forall n :: n in s.minted && s.wall <= s.minted[n].expiresAt ==> n in s.nonces)
  }

  /** The text whose signature backs the claim on nonce `n`. */
  function ClaimText(c: Config, s: State, n: Bytes): Message
    requires n in s.claims && n in s.minted
  {
    var k := s.claims[n];
    ProofMessage(k.bye, c.server, k.client, n, k.interval, s.minted[n].expiresAt, k.param)
  }

  /** A consumed nonce was minted for exactly the client and endpoint that consumed it, and
      that client signed what it was consumed for. */
  ghost predicate ClaimsTrue(c: Config, s: State) {
    forall n :: n in s.claims ==>
      && n in s.minted
      && s.claims[n].client == s.minted[n].client && s.claims[n].source == s.minted[n].source
      && (s.claims[n].client, ClaimText(c, s, n)) in s.signed
  }

  /** Every event belongs to the one claim on its nonce, and happened once. */
  ghost predicate LogTrue(s: State) {
    forall e :: e in s.log ==> e.nonce in s.claims && s.claims[e.nonce] == e.claim && s.log[e] == 1
  }

  /** How far a task that has consumed its nonce has got; -1 before that. */
  function Stage(phase: ProofPhase): int {
    match phase
    case ProofArrived => -1
    case ProofChecked => -1
    case ProofClaimed => CONSUMED
    case ProofAccepted(_) => ACCEPTED
    case Renewed(_, _) => LEASED
    case GrantDue(_, _) => LEASED
    case RevokeDue(_, _) => LEASED
    case GrantRan => HOOKED
  }

  predicate Holds(t: Task) {
    t.ProofTask? && Stage(t.pphase) >= 0
  }

  /** A task past the consumption of its nonce owns the claim, and nothing beyond its own
      progress has happened for that nonce. */
  ghost predicate HolderTrue(s: State, t: Task) {
    Holds(t) ==>
      && t.proof.nonce in s.claims && s.claims[t.proof.nonce] == ClaimOf(t.proof, t.source)
      && (forall e :: e in s.log && e.nonce == t.proof.nonce ==> e.stage <= Stage(t.pphase))
  }

  /** Signatures held by tasks were made; that of a checked proof covers the minted expiry. */
  ghost predicate ProofTrue(c: Config, s: State, t: Task) {
    t.ProofTask? ==>
      && Available(s, t.proof.signature)
      && (t.pphase.ProofChecked? ==>
            t.proof.nonce in s.minted
            && (t.proof.client, ProofText(c, t.proof, s.minted[t.proof.nonce].expiresAt)) in s.signed)
  }

  ghost predicate TasksTrue(c: Config, s: State) {
    forall tid :: tid in s.tasks ==> HolderTrue(s, s.tasks[tid]) && ProofTrue(c, s, s.tasks[tid])
  }

  ghost predicate HoldersDistinct(s: State) {
    forall i, j :: i in s.tasks && j in s.tasks && i != j && Holds(s.tasks[i]) && Holds(s.tasks[j]) ==>
      s.tasks[i].proof.nonce != s.tasks[j].proof.nonce
  }

  ghost predicate Inv(c: Config, s: State) {
    NoncesTrue(s) && ClaimsTrue(c, s) && LogTrue(s) && TasksTrue(c, s) && HoldersDistinct(s)
  }

  // ----- Steps that consume, or move a task on -----

  lemma DropKeeps(c: Config, s: State, tid: nat)
    requires Inv(c, s)
    ensures Inv(c, Drop(s, tid))
  {
  }

  /** A proof that passes the single-use gate takes a nonce that nobody has consumed. */
  lemma PassesGate(s: State, p: Proof, source: Endpoint)
    requires NoncesTrue(s) && N.Validated(s.nonces, p.nonce, p.client, source, s.wall).Ok?
    ensures p.nonce in s.nonces && p.nonce in s.minted && p.nonce !in s.claims
    ensures s.minted[p.nonce].client == p.client && s.minted[p.nonce].source == source
    ensures s.nonces[p.nonce].expiresAt == s.minted[p.nonce].expiresAt
  {
  }

  lemma ConsumeKeepsNonces(s: State, p: Proof, source: Endpoint)
    requires NoncesTrue(s) && N.Validated(s.nonces, p.nonce, p.client, source, s.wall).Ok?
    ensures NoncesTrue(Consume(s, p, source))
  {
  }

  lemma ConsumeKeepsClaims(c: Config, s: State, p: Proof, source: Endpoint)
    requires ClaimsTrue(c, s)
    requires p.nonce in s.minted && s.minted[p.nonce].client == p.client && s.minted[p.nonce].source == source
    requires (p.client, ProofText(c, p, s.minted[p.nonce].expiresAt)) in s.signed
    ensures ClaimsTrue(c, Consume(s, p, source))
  {
    var s1 := Consume(s, p, source);
    forall n | n in s1.claims
      ensures n in s1.minted && s1.claims[n].client == s1.minted[n].client && s1.claims[n].source == s1.minted[n].source
      ensures (s1.claims[n].client, ClaimText(c, s1, n)) in s1.signed
    {
      if n == p.nonce {
        assert ClaimText(c, s1, n) == ProofText(c, p, s.minted[n].expiresAt);
      } else {
        assert ClaimText(c, s1, n) == ClaimText(c, s, n);
      }
    }
  }

  lemma ConsumeKeepsLog(s: State, p: Proof, source: Endpoint)
    requires LogTrue(s) && p.nonce !in s.claims
    ensures LogTrue(Record(Consume(s, p, source), CONSUMED, p, source))
  {
  }

  lemma ConsumeKeepsTask(c: Config, s: State, p: Proof, source: Endpoint, t: Task)
    requires LogTrue(s) && p.nonce !in s.claims
    requires HolderTrue(s, t) && ProofTrue(c, s, t)
    ensures var s1 := Record(Consume(s, p, source), CONSUMED, p, source);
            && HolderTrue(s1, t) && ProofTrue(c, s1, t)
            && (t.ProofTask? && t.proof == p && t.source == source ==>
                  HolderTrue(s1, t.(pphase := ProofClaimed)) && ProofTrue(c, s1, t.(pphase := ProofClaimed)))
            && (Holds(t) ==> t.proof.nonce != p.nonce)
  {
  }

  lemma ClaimKeeps(c: Config, s: State, tid: nat)
    requires Inv(c, s) && tid in s.tasks && s.tasks[tid].ProofTask? && s.tasks[tid].pphase.ProofChecked?
    requires N.Validated(s.nonces, s.tasks[tid].proof.nonce, s.tasks[tid].proof.client, s.tasks[tid].source, s.wall).Ok?
    ensures Inv(c, ClaimNonce(s, tid, s.tasks[tid]))
  {
    var t := s.tasks[tid];
    var p, source := t.proof, t.source;
    PassesGate(s, p, source);
    ConsumeKeepsNonces(s, p, source);
    ConsumeKeepsClaims(c, s, p, source);
    ConsumeKeepsLog(s, p, source);
    var s1 := Record(Consume(s, p, source), CONSUMED, p, source);
    forall i | i in s.tasks
      ensures HolderTrue(s1, s.tasks[i]) && ProofTrue(c, s1, s.tasks[i])
      ensures Holds(s.tasks[i]) ==> s.tasks[i].proof.nonce != p.nonce
    {
      ConsumeKeepsTask(c, s, p, source, s.tasks[i]);
    }
    ConsumeKeepsTask(c, s, p, source, t);
    MoveToHolder(c, s1, tid, t.(pphase := ProofClaimed));
  }

  /** Putting a task back in a new phase, when it alone has its nonce. */
  lemma MoveToHolder(c: Config, s: State, tid: nat, t: Task)
    requires Inv(c, s) && HolderTrue(s, t) && ProofTrue(c, s, t)
    requires t.ProofTask? && Holds(t) ==>
               forall i :: i in s.tasks && i != tid && Holds(s.tasks[i]) ==> s.tasks[i].proof.nonce != t.proof.nonce
    ensures Inv(c, Move(s, tid, t))
  {
  }

  lemma RecordKeepsLog(c: Config, s: State, t: Task, stage: nat)
    requires ClaimsTrue(c, s) && LogTrue(s) && HolderTrue(s, t) && Holds(t) && Stage(t.pphase) < stage
    ensures var s1 := Record(s, stage, t.proof, t.source); ClaimsTrue(c, s1) && LogTrue(s1)
  {
    var s1 := Record(s, stage, t.proof, t.source);
    assert Event(stage, t.proof.nonce, ClaimOf(t.proof, t.source)) !in s.log;
    forall n | n in s1.claims ensures ClaimText(c, s1, n) == ClaimText(c, s, n) {
    }
  }

  lemma RecordKeepsTask(c: Config, s: State, p: Proof, source: Endpoint, stage: nat, t: Task)
    requires HolderTrue(s, t) && ProofTrue(c, s, t)
    requires Holds(t) ==> t.proof.nonce != p.nonce
    ensures var s1 := Record(s, stage, p, source); HolderTrue(s1, t) && ProofTrue(c, s1, t)
  {
  }

  lemma RecordKeepsOwner(c: Config, s: State, t: Task, stage: nat, phase: ProofPhase)
    requires HolderTrue(s, t) && ProofTrue(c, s, t) && Holds(t) && Stage(t.pphase) < stage == Stage(phase)
    ensures var s1, t1 := Record(s, stage, t.proof, t.source), t.(pphase := phase);
            HolderTrue(s1, t1) && ProofTrue(c, s1, t1)
  {
  }

  /** A holder that records its next stage and stays a holder. */
  lemma ProgressKeeps(c: Config, s: State, tid: nat, stage: nat, phase: ProofPhase)
    requires Inv(c, s) && tid in s.tasks && Holds(s.tasks[tid])
    requires Stage(s.tasks[tid].pphase) < stage == Stage(phase)
    ensures var t := s.tasks[tid];
            Inv(c, Move(Record(s, stage, t.proof, t.source), tid, t.(pphase := phase)))
  {
    var t := s.tasks[tid];
    RecordKeepsLog(c, s, t, stage);
    RecordKeepsOwner(c, s, t, stage, phase);
    forall i | i in s.tasks && i != tid
      ensures HolderTrue(Record(s, stage, t.proof, t.source), s.tasks[i])
      ensures ProofTrue(c, Record(s, stage, t.proof, t.source), s.tasks[i])
    {
      RecordKeepsTask(c, s, t.proof, t.source, stage, s.tasks[i]);
    }
  }

  lemma MoveKeeps(c: Config, s: State, tid: nat, phase: ProofPhase)
    requires Inv(c, s) && tid in s.tasks && Holds(s.tasks[tid])
    requires Stage(s.tasks[tid].pphase) == Stage(phase)
    ensures Inv(c, Move(s, tid, s.tasks[tid].(pphase := phase)))
  {
  }

  lemma CheckKeeps(c: Config, s: State, tid: nat)
    requires Inv(c, s) && tid in s.tasks && s.tasks[tid].ProofTask? && s.tasks[tid].pphase.ProofArrived?
    requires ChecksOut(c, s, s.tasks[tid].proof, s.tasks[tid].source)
    ensures Inv(c, CheckProof(c, s, tid, s.tasks[tid]))
  {
    var t := s.tasks[tid];
    PassesGate(s, t.proof, t.source);
    MoveToHolder(c, s, tid, t.(pphase := ProofChecked));
  }

  lemma MintKeepsTask(c: Config, s: State, h: Hello, source: Endpoint, nonce: Bytes, expiresAt: i64, t: Task)
    requires HolderTrue(s, t) && ProofTrue(c, s, t) && nonce !in s.minted
    ensures HolderTrue(Mint(c, s, h, source, nonce, expiresAt), t)
    ensures ProofTrue(c, Mint(c, s, h, source, nonce, expiresAt), t)
  {
  }

  lemma MintKeepsClaims(c: Config, s: State, h: Hello, source: Endpoint, nonce: Bytes, expiresAt: i64)
    requires ClaimsTrue(c, s) && nonce !in s.minted
    ensures ClaimsTrue(c, Mint(c, s, h, source, nonce, expiresAt))
  {
    var s1 := Mint(c, s, h, source, nonce, expiresAt);
    forall n | n in s1.claims ensures ClaimText(c, s1, n) == ClaimText(c, s, n) {
    }
  }

  lemma MintKeeps(c: Config, s: State, h: Hello, source: Endpoint, nonce: Bytes, expiresAt: i64)
    requires Inv(c, s) && nonce !in s.minted
    ensures Inv(c, Mint(c, s, h, source, nonce, expiresAt))
  {
    MintKeepsClaims(c, s, h, source, nonce, expiresAt);
    assert nonce !in s.claims;
    forall tid | tid in s.tasks
      ensures HolderTrue(Mint(c, s, h, source, nonce, expiresAt), s.tasks[tid])
      ensures ProofTrue(c, Mint(c, s, h, source, nonce, expiresAt), s.tasks[tid])
    {
      MintKeepsTask(c, s, h, source, nonce, expiresAt, s.tasks[tid]);
    }
  }

  lemma DeliverKeeps(c: Config, s: State, tid: nat, d: Datagram, source: Endpoint)
    requires Inv(c, s) && tid !in s.tasks && Available(s, SignatureIn(d))
    ensures Inv(c, Move(s, tid, NewTask(d, source)))
  {
  }

  lemma HelloKeeps(c: Config, s: State, tid: nat, phase: HelloPhase)
    requires Inv(c, s) && tid in s.tasks && s.tasks[tid].HelloTask?
    ensures Inv(c, Move(s, tid, s.tasks[tid].(hphase := phase)))
  {
  }

  // ----- All other steps -----

  /** The invariant looks at the clock only for expiry, and not at caches, rate windows, leases or counters. */
  predicate SameCore(s: State, s1: State) {
    s1.nonces == s.nonces && s1.tasks == s.tasks && s1.signed == s.signed && s1.minted == s.minted
    && s1.claims == s.claims && s1.log == s.log && s.wall <= s1.wall
  }

  lemma CoreKeeps(c: Config, s: State, s1: State)
    requires Inv(c, s) && SameCore(s, s1)
    ensures Inv(c, s1)
  {
    forall n | n in s1.claims ensures ClaimText(c, s1, n) == ClaimText(c, s, n) {
    }
  }

  lemma SignKeepsTask(c: Config, s: State, client: ClientKey, message: Message, t: Task)
    requires HolderTrue(s, t) && ProofTrue(c, s, t)
    ensures var s1 := s.(signed := s.signed + {(client, message)}); HolderTrue(s1, t) && ProofTrue(c, s1, t)
  {
  }

  lemma SignKeeps(c: Config, s: State, client: ClientKey, message: Message)
    requires Inv(c, s)
    ensures Inv(c, s.(signed := s.signed + {(client, message)}))
  {
    var s1 := s.(signed := s.signed + {(client, message)});
    forall n | n in s1.claims ensures ClaimText(c, s1, n) == ClaimText(c, s, n) {
    }
    forall tid | tid in s.tasks ensures HolderTrue(s1, s.tasks[tid]) && ProofTrue(c, s1, s.tasks[tid]) {
      SignKeepsTask(c, s, client, message, s.tasks[tid]);
    }
  }

  lemma PurgeKeeps(c: Config, s: State)
    requires Inv(c, s)
    ensures Inv(c, s.(nonces := N.AfterPurge(s.nonces, s.wall)))
  {
    var s1 := s.(nonces := N.AfterPurge(s.nonces, s.wall));
    forall n | n in s1.claims ensures ClaimText(c, s1, n) == ClaimText(c, s, n) {
    }
  }

  lemma LimitKeeps(c: Config, s: State, tid: nat)
    requires Inv(c, s) && tid in s.tasks && s.tasks[tid].HelloTask?
    ensures Inv(c, LimitHello(c, s, tid, s.tasks[tid]))
  {
    var s1 := s.(rates := H.AfterCheck(c.limits, s.rates, s.tasks[tid].source.ip, s.mono));
    CoreKeeps(c, s, s1);
    DropKeeps(c, s1, tid);
    HelloKeeps(c, s1, tid, HelloAdmitted);
  }

  lemma AcceptHelloKeeps(c: Config, s: State, tid: nat)
    requires Inv(c, s) && tid in s.tasks && s.tasks[tid].HelloTask?
    ensures Inv(c, AcceptHello(c, s, tid, s.tasks[tid]))
  {
    var h := s.tasks[tid].hello;
    if AcceptsHello(c, s, h) {
      HelloKeeps(c, s, tid, HelloFresh(s.wall));
      CoreKeeps(c, Move(s, tid, s.tasks[tid].(hphase := HelloFresh(s.wall))), AcceptHello(c, s, tid, s.tasks[tid]));
    } else {
      DropKeeps(c, s, tid);
    }
  }

  lemma MintNonceKeeps(c: Config, s: State, tid: nat, nonce: Bytes)
    requires Inv(c, s) && tid in s.tasks && s.tasks[tid].HelloTask? && s.tasks[tid].hphase.HelloFresh?
    ensures Inv(c, MintNonce(c, s, tid, s.tasks[tid], nonce))
  {
    var t := s.tasks[tid];
    if nonce !in s.minted {
      var expiresAt := AddClamped(t.hphase.at, c.nonceTtl);
      MintKeeps(c, s, t.hello, t.source, nonce, expiresAt);
      HelloKeeps(c, Mint(c, s, t.hello, t.source, nonce, expiresAt), tid, Challenged(nonce));
    }
  }

  lemma SendKeeps(c: Config, s: State, tid: nat, sent: bool)
    requires Inv(c, s)
    ensures Inv(c, SendChallenge(s, tid, sent))
  {
    DropKeeps(c, s, tid);
    CoreKeeps(c, Drop(s, tid), SendChallenge(s, tid, sent));
  }

  lemma CheckProofKeeps(c: Config, s: State, tid: nat)
    requires Inv(c, s) && tid in s.tasks && s.tasks[tid].ProofTask? && s.tasks[tid].pphase.ProofArrived?
    ensures Inv(c, CheckProof(c, s, tid, s.tasks[tid]))
  {
    if ChecksOut(c, s, s.tasks[tid].proof, s.tasks[tid].source) {
      CheckKeeps(c, s, tid);
    } else {
      DropKeeps(c, s, tid);
    }
  }

  lemma ClaimNonceKeeps(c: Config, s: State, tid: nat)
    requires Inv(c, s) && tid in s.tasks && s.tasks[tid].ProofTask? && s.tasks[tid].pphase.ProofChecked?
    ensures Inv(c, ClaimNonce(s, tid, s.tasks[tid]))
  {
    var p := s.tasks[tid].proof;
    if N.Validated(s.nonces, p.nonce, p.client, s.tasks[tid].source, s.wall).Ok? {
      ClaimKeeps(c, s, tid);
    } else {
      DropKeeps(c, s, tid);
    }
  }

  lemma VerifyKeeps(c: Config, s: State, tid: nat, param: Option<string>)
    requires Inv(c, s) && tid in s.tasks && s.tasks[tid].ProofTask? && s.tasks[tid].pphase.ProofClaimed?
    ensures Inv(c, Verify(s, tid, s.tasks[tid], param))
  {
    var t := s.tasks[tid];
    var s1 := Move(Record(s, ACCEPTED, t.proof, t.source), tid, t.(pphase := ProofAccepted(param)));
    ProgressKeeps(c, s, tid, ACCEPTED, ProofAccepted(param));
    if t.proof.bye {
      assert Verify(s, tid, t, param) == s1;
    } else {
      assert Verify(s, tid, t, param) == s1.(verified := s.verified + 1);
      CoreKeeps(c, s1, Verify(s, tid, t, param));
    }
  }

  lemma AcceptProofKeeps(c: Config, s: State, tid: nat)
    requires Inv(c, s) && tid in s.tasks && s.tasks[tid].ProofTask? && s.tasks[tid].pphase.ProofClaimed?
    ensures Inv(c, AcceptProof(c, s, tid, s.tasks[tid]))
  {
    var param := AdmitParam(c, s.tasks[tid].proof.param);
    if param.Some? {
      VerifyKeeps(c, s, tid, param.value);
    } else {
      DropKeeps(c, s, tid);
    }
  }

  lemma RenewKeeps(c: Config, s: State, tid: nat)
    requires Inv(c, s) && 1 <= c.leaseMaxSeconds && tid in s.tasks && s.tasks[tid].ProofTask?
    requires s.tasks[tid].pphase.ProofAccepted?
    ensures Inv(c, RenewLease(c, s, tid, s.tasks[tid]))
  {
    var t := s.tasks[tid];
    var after := RenewLease(c, s, tid, t);
    ProgressKeeps(c, s, tid, LEASED, after.tasks[tid].pphase);
    CoreKeeps(c, Move(Record(s, LEASED, t.proof, t.source), tid, after.tasks[tid]), after);
  }

  /** A holder that records its next stage and ends. */
  lemma FinishKeeps(c: Config, s: State, tid: nat, stage: nat, phase: ProofPhase)
    requires Inv(c, s) && tid in s.tasks && Holds(s.tasks[tid])
    requires Stage(s.tasks[tid].pphase) < stage == Stage(phase)
    ensures Inv(c, Drop(Record(s, stage, s.tasks[tid].proof, s.tasks[tid].source), tid))
  {
    var t := s.tasks[tid];
    ProgressKeeps(c, s, tid, stage, phase);
    var moved := Move(Record(s, stage, t.proof, t.source), tid, t.(pphase := phase));
    DropKeeps(c, moved, tid);
    assert moved.tasks - {tid} == s.tasks - {tid};
  }

  lemma ReleaseKeeps(c: Config, s: State, tid: nat)
    requires Inv(c, s) && tid in s.tasks && s.tasks[tid].ProofTask? && s.tasks[tid].pphase.ProofAccepted?
    ensures Inv(c, ReleaseLease(c, s, tid, s.tasks[tid]))
  {
    var t := s.tasks[tid];
    var after := ReleaseLease(c, s, tid, t);
    if t.proof.client !in s.leases {
      DropKeeps(c, s, tid);
    } else if c.revokes {
      ProgressKeeps(c, s, tid, LEASED, after.tasks[tid].pphase);
      CoreKeeps(c, Move(Record(s, LEASED, t.proof, t.source), tid, after.tasks[tid]), after);
    } else {
      FinishKeeps(c, s, tid, LEASED, Renewed(None, false));
      CoreKeeps(c, Drop(Record(s, LEASED, t.proof, t.source), tid), after);
    }
  }

  lemma ConsiderKeeps(c: Config, s: State, tid: nat)
    requires Inv(c, s) && tid in s.tasks && s.tasks[tid].ProofTask? && s.tasks[tid].pphase.Renewed?
    ensures Inv(c, ConsiderGrant(c, s, tid, s.tasks[tid]))
  {
    var phase := s.tasks[tid].pphase;
    MoveKeeps(c, s, tid, GrantDue(phase.param, phase.isNew));
    DropKeeps(c, s, tid);
  }

  lemma GrantKeeps(c: Config, s: State, tid: nat, ran: bool)
    requires Inv(c, s) && tid in s.tasks && s.tasks[tid].ProofTask? && s.tasks[tid].pphase.GrantDue?
    ensures Inv(c, RunGrant(s, tid, s.tasks[tid], ran))
  {
    ProgressKeeps(c, s, tid, HOOKED, GrantRan);
    DropKeeps(c, s, tid);
  }

  lemma MarkKeeps(c: Config, s: State, tid: nat)
    requires Inv(c, s) && tid in s.tasks && s.tasks[tid].ProofTask?
    ensures Inv(c, MarkCooldown(c, s, tid, s.tasks[tid]))
  {
    DropKeeps(c, s, tid);
    CoreKeeps(c, Drop(s, tid), MarkCooldown(c, s, tid, s.tasks[tid]));
  }

  lemma RevokeKeeps(c: Config, s: State, tid: nat, ran: bool)
    requires Inv(c, s) && tid in s.tasks && s.tasks[tid].ProofTask? && s.tasks[tid].pphase.RevokeDue?
    ensures Inv(c, RunRevoke(s, tid, s.tasks[tid], ran))
  {
    FinishKeeps(c, s, tid, HOOKED, GrantRan);
    DropKeeps(c, s, tid);
  }

  lemma HelloStepKeeps(c: Config, s: State, tid: nat, nonce: Bytes, done: bool)
    requires Inv(c, s) && 1 <= c.leaseMaxSeconds && tid in s.tasks && s.tasks[tid].HelloTask?
    ensures Inv(c, Resume(c, s, tid, nonce, done))
  {
    match s.tasks[tid].hphase {
      case HelloArrived => LimitKeeps(c, s, tid);
      case HelloAdmitted => AcceptHelloKeeps(c, s, tid);
      case HelloFresh(_) => MintNonceKeeps(c, s, tid, nonce);
      case Challenged(_) => SendKeeps(c, s, tid, done);
    }
  }

  lemma ProofStepKeeps(c: Config, s: State, tid: nat, nonce: Bytes, done: bool)
    requires Inv(c, s) && 1 <= c.leaseMaxSeconds && tid in s.tasks && s.tasks[tid].ProofTask?
    ensures Inv(c, Resume(c, s, tid, nonce, done))
  {
    match s.tasks[tid].pphase {
      case ProofArrived => CheckProofKeeps(c, s, tid);
      case ProofChecked => ClaimNonceKeeps(c, s, tid);
      case ProofClaimed => AcceptProofKeeps(c, s, tid);
      case ProofAccepted(_) => if s.tasks[tid].proof.bye { ReleaseKeeps(c, s, tid); } else { RenewKeeps(c, s, tid); }
      case Renewed(_, _) => ConsiderKeeps(c, s, tid);
      case GrantDue(_, _) => GrantKeeps(c, s, tid, done);
      case GrantRan => MarkKeeps(c, s, tid);
      case RevokeDue(_, _) => RevokeKeeps(c, s, tid, done);
    }
  }

  lemma AdvanceKeeps(c: Config, s: State, tid: nat, nonce: Bytes, done: bool)
    requires Inv(c, s) && 1 <= c.leaseMaxSeconds && tid in s.tasks
    ensures Inv(c, Resume(c, s, tid, nonce, done))
  {
    if s.tasks[tid].HelloTask? {
      HelloStepKeeps(c, s, tid, nonce, done);
    } else {
      ProofStepKeeps(c, s, tid, nonce, done);
    }
  }

  /** Clock ticks, the lease scan and the other purges leave all that alone. */
  lemma TickSame(c: Config, s: State, wall: i64, mono: Instant)
    requires 1 <= c.leaseMaxSeconds
    ensures SameCore(s, Next(c, s, Tick(wall, mono)))
  {
    if s.wall <= wall && s.mono <= mono {
      assert Next(c, s, Tick(wall, mono)) == s.(wall := wall, mono := mono);
    } else {
      assert Next(c, s, Tick(wall, mono)) == s;
    }
  }

  lemma UpkeepSame(c: Config, s: State, step: Step)
    requires 1 <= c.leaseMaxSeconds
    requires step.PurgeSeen? || step.PurgeRates? || step.PurgeCooldowns? || step.ScanLeases?
    ensures SameCore(s, Next(c, s, step))
  {
  }

  lemma ArriveKeeps(c: Config, s: State, step: Step)
    requires Inv(c, s) && 1 <= c.leaseMaxSeconds && step.Deliver?
    ensures Inv(c, Next(c, s, step))
  {
    if step.tid !in s.tasks && Available(s, SignatureIn(step.datagram)) {
      DeliverKeeps(c, s, step.tid, step.datagram, step.source);
    }
  }

  lemma StepKeeps(c: Config, s: State, step: Step)
    requires Inv(c, s) && 1 <= c.leaseMaxSeconds
    ensures Inv(c, Next(c, s, step))
  {
    match step {
      case Advance(tid, nonce, done) =>
        if tid in s.tasks {
          AdvanceKeeps(c, s, tid, nonce, done);
        }
      case Sign(client, message) => SignKeeps(c, s, client, message);
      case PurgeNonces => PurgeKeeps(c, s);
      case Deliver(_, _, _) => ArriveKeeps(c, s, step);
      case Tick(wall, mono) =>
        TickSame(c, s, wall, mono);
        CoreKeeps(c, s, Next(c, s, step));
      case _ =>
        UpkeepSame(c, s, step);
        CoreKeeps(c, s, Next(c, s, step));
    }
  }

  lemma {:induction false} PathKeeps(c: Config, s: State, steps: seq<Step>, s1: State)
    requires 1 <= c.leaseMaxSeconds && Inv(c, s) && Path(c, s, steps, s1)
    ensures Inv(c, s1)
    decreases |steps|
  {
    if steps == [] {
      Stayed(c, s, s1);
    } else {
      var before := SplitLast(c, s, steps, s1);
      PathKeeps(c, s, steps[..|steps| - 1], before);
      StepKeeps(c, before, steps[|steps| - 1]);
    }
  }

  /** Every reachable state satisfies the invariant. */
  lemma ReachableInv(c: Config, s: State)
    requires 1 <= c.leaseMaxSeconds && Reachable(c, s)
    ensures Inv(c, s)
  {
    var wall, steps :| Path(c, Start(wall), steps, s);
    PathKeeps(c, Start(wall), steps, s);
  }

  // ----- Main results -----

  /** Agreement: whatever the server did for a packet, in any run, it did once, for exactly
      the client and endpoint the nonce was minted for, and that client signed the packet:
      kind, nonce, interval, minted expiry and sealed param. */
  lemma EventsAreBacked(c: Config, s: State, e: Event)
    requires 1 <= c.leaseMaxSeconds && Reachable(c, s) && e in s.log
    ensures s.log[e] == 1
    ensures e.nonce in s.minted
    ensures s.minted[e.nonce].client == e.claim.client && s.minted[e.nonce].source == e.claim.source
    ensures (e.claim.client,
             ProofMessage(e.claim.bye, c.server, e.claim.client, e.nonce, e.claim.interval,
                          s.minted[e.nonce].expiresAt, e.claim.param)) in s.signed
  {
    ReachableInv(c, s);
    assert s.claims[e.nonce] == e.claim;
    assert (e.claim.client, ClaimText(c, s, e.nonce)) in s.signed;
  }

  /** Injectivity: two different things done for one nonce belong to the same packet, so one
      nonce never backs both a RESPONSE and a BYE, and they are of different sorts: it is
      consumed, accepted, turned into a lease change and into a hook at most once each. */
  lemma OneEffectPerNonce(c: Config, s: State, d: Event, e: Event)
    requires 1 <= c.leaseMaxSeconds && Reachable(c, s) && d in s.log && e in s.log
    requires d.nonce == e.nonce && d != e
    ensures d.claim == e.claim && d.stage != e.stage
  {
    ReachableInv(c, s);
    assert s.claims[d.nonce] == d.claim;
  }
}
