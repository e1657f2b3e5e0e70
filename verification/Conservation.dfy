/** Counting over whole runs: what the server verified is bounded by the nonces it minted,
    which are bounded by the HELLOs the client signed; and every lease rests on a verified
    RESPONSE. */
module Conservation {
  import opened Types
  import opened SigningText
  import opened Handshake
  import opened Runs
  import Finite
  import A = Agreement
  import U = Causality
  import N = NonceStores
  import L = Leases
  import C = Cooldowns
  import H = HelloLimits
  import G = HelloAgreement

  // ----- Nothing is made out of nothing -----

  /** What happened at `stage` for packets of `client`. */
  function Done(s: State, stage: nat, client: ClientKey): set<Event> {
    set e | e in s.log && e.stage == stage && e.claim.client == client
  }

  function MintedFor(s: State, client: ClientKey): set<Bytes> {
    set n | n in s.minted && s.minted[n].client == client
  }

  function HellosSignedBy(s: State, client: ClientKey): set<Message> {
    set x | x in s.signed && x.0 == client && x.1.HelloMessage? :: x.1
  }

  lemma DoneWithinMinted(c: Config, s: State, stage: nat, client: ClientKey)
    requires A.Inv(c, s)
    ensures |Done(s, stage, client)| <= |MintedFor(s, client)|
  {
    var m := map e | e in Done(s, stage, client) :: e.nonce;
    assert m.Keys == Done(s, stage, client);
    forall d, e | d in m && e in m && m[d] == m[e] ensures d == e {
      assert s.claims[d.nonce] == d.claim && s.claims[e.nonce] == e.claim;
    }
    Finite.InjectiveCardinality(m, MintedFor(s, client));
  }

  lemma MintedWithinSigned(c: Config, s: State, client: ClientKey)
    requires G.HellosTrue(c, s)
    ensures |MintedFor(s, client)| <= |HellosSignedBy(s, client)|
  {
    var m := map n | n in MintedFor(s, client) :: s.minted[n].hello;
    assert m.Keys == MintedFor(s, client);
    forall n | n in m ensures m[n] in HellosSignedBy(s, client) {
      assert G.Authentic(c, s, m[n]);
      assert (client, m[n]) in s.signed;
    }
    Finite.InjectiveCardinality(m, HellosSignedBy(s, client));
  }

  /** At any point of any run and for every client: its RESPONSEs and BYEs accepted so far
      (likewise its nonces consumed, lease changes made, hooks run) are each counted once,
      and are at most the nonces minted for it, which are at most the distinct HELLOs it
      signed. */
  lemma Conserved(c: Config, s: State, stage: nat, client: ClientKey)
    requires 1 <= c.leaseMaxSeconds && Reachable(c, s)
    ensures |Done(s, stage, client)| <= |MintedFor(s, client)| <= |HellosSignedBy(s, client)|
    ensures forall e :: e in Done(s, stage, client) ==> s.log[e] == 1
  {
    A.ReachableInv(c, s);
    G.HellosAlwaysTrue(c, s);
    DoneWithinMinted(c, s, stage, client);
    MintedWithinSigned(c, s, client);
  }

  // ----- The counter and the leases agree with what happened -----

  /** The RESPONSEs accepted so far. */
  function Responses(log: multiset<Event>): set<Event> {
    set e | e in log && e.stage == ACCEPTED && !e.claim.bye
  }

  /** `e` is a lease change for a RESPONSE of the leased client, from the leased endpoint, whose
      sealed param opens to the param stored with the lease. */
  predicate Backs(c: Config, log: multiset<Event>, e: Event, l: L.ExpiredLease) {
    && e in log && e.stage == LEASED && !e.claim.bye && e.claim.client == l.client
    && e.claim.source == Endpoint(l.ip, l.port) && AdmitParam(c, e.claim.param) == Some(l.param)
  }

  ghost predicate Backed(c: Config, log: multiset<Event>, l: L.ExpiredLease) {
    exists e :: Backs(c, log, e, l)
  }

  /** The lease length that the interval in `e` asks for. */
  function TtlOf(c: Config, e: Event): nat
    requires 1 <= c.leaseMaxSeconds
  {
    L.LeaseTtl(e.claim.interval, c.multiplier, c.leaseMaxSeconds) * NANOS_PER_SECOND
  }

  /** Client `k`'s lease is backed, and ends within the length that its RESPONSE asked for. */
  ghost predicate LeaseTrue(c: Config, s: State, k: ClientKey)
    requires 1 <= c.leaseMaxSeconds && k in s.leases
  {
    exists e :: Backs(c, s.log, e, L.Report(s.leases, k)) && s.leases[k].expiresAt <= s.mono + TtlOf(c, e)
  }

  predicate Revoking(t: Task) {
    t.ProofTask? && t.pphase.RevokeDue?
  }

  ghost predicate Books(c: Config, s: State)
    requires 1 <= c.leaseMaxSeconds
  {
    && s.verified == |Responses(s.log)|
    && (forall k :: k in s.leases ==> LeaseTrue(c, s, k))
    && (forall tid :: tid in s.tasks && Revoking(s.tasks[tid]) ==> Backed(c, s.log, s.tasks[tid].pphase.ended.lease))
  }

  /** No new lease, no new accepted RESPONSE and no new revocation, and nothing forgotten. */
  ghost predicate Steady(s: State, s1: State) {
    && s1.verified == s.verified && Responses(s1.log) == Responses(s.log) && s.mono <= s1.mono
    && (forall e :: e in s.log ==> e in s1.log)
    && (forall k :: k in s1.leases ==> k in s.leases && s1.leases[k] == s.leases[k])
    && (forall tid :: tid in s1.tasks && Revoking(s1.tasks[tid]) ==> tid in s.tasks && s.tasks[tid] == s1.tasks[tid])
  }

  lemma BackedGrows(c: Config, log: multiset<Event>, log1: multiset<Event>, l: L.ExpiredLease)
    requires Backed(c, log, l) && forall e :: e in log ==> e in log1
    ensures Backed(c, log1, l)
  {
    var e :| Backs(c, log, e, l);
    assert Backs(c, log1, e, l);
  }

  lemma LeaseGrows(c: Config, s: State, s1: State, k: ClientKey)
    requires 1 <= c.leaseMaxSeconds && k in s.leases && LeaseTrue(c, s, k) && k in s1.leases
    requires s1.leases[k] == s.leases[k]
    requires s.mono <= s1.mono && forall e :: e in s.log ==> e in s1.log
    ensures LeaseTrue(c, s1, k)
  {
    var e :| Backs(c, s.log, e, L.Report(s.leases, k)) && s.leases[k].expiresAt <= s.mono + TtlOf(c, e);
    assert Backs(c, s1.log, e, L.Report(s1.leases, k));
  }

  lemma SteadyKeeps(c: Config, s: State, s1: State)
    requires 1 <= c.leaseMaxSeconds && Books(c, s) && Steady(s, s1)
    ensures Books(c, s1)
  {
    forall k | k in s1.leases ensures LeaseTrue(c, s1, k) {
      LeaseGrows(c, s, s1, k);
    }
    forall tid | tid in s1.tasks && Revoking(s1.tasks[tid])
      ensures Backed(c, s1.log, s1.tasks[tid].pphase.ended.lease)
    {
      BackedGrows(c, s.log, s1.log, s.tasks[tid].pphase.ended.lease);
    }
  }

  lemma TaskSteady(s: State, s1: State, tid: nat, t: Task)
    requires Steady(s, s1)
    ensures Steady(s, Drop(s1, tid))
    ensures !Revoking(t) ==> Steady(s, Move(s1, tid, t))
  {
  }

  lemma RecordSteady(s: State, s1: State, stage: nat, p: Proof, source: Endpoint)
    requires Steady(s, s1) && (stage != ACCEPTED || p.bye)
    ensures Steady(s, Record(s1, stage, p, source))
  {
  }

  lemma HelloSteady(c: Config, s: State, tid: nat, nonce: Bytes, sent: bool)
    requires 1 <= c.leaseMaxSeconds && tid in s.tasks && s.tasks[tid].HelloTask?
    ensures Steady(s, Resume(c, s, tid, nonce, sent))
  {
    var t := s.tasks[tid];
    match t.hphase {
      case HelloArrived => LimitSteady(c, s, tid, t);
      case HelloAdmitted => AcceptHelloSteady(c, s, tid, t);
      case HelloFresh(_) => MintSteady(c, s, tid, t, nonce);
      case Challenged(_) => SendSteady(s, tid, sent);
    }
  }

  lemma LimitSteady(c: Config, s: State, tid: nat, t: Task)
    requires t.HelloTask?
    ensures Steady(s, LimitHello(c, s, tid, t))
  {
    TaskSteady(s, s.(rates := H.AfterCheck(c.limits, s.rates, t.source.ip, s.mono)), tid, t.(hphase := HelloAdmitted));
  }

  lemma AcceptHelloSteady(c: Config, s: State, tid: nat, t: Task)
    requires t.HelloTask?
    ensures Steady(s, AcceptHello(c, s, tid, t))
  {
    if AcceptsHello(c, s, t.hello) {
      TaskSteady(s, G.Accepted(c, s, t.hello), tid, t.(hphase := HelloFresh(s.wall)));
    } else {
      TaskSteady(s, s, tid, t);
    }
  }

  lemma MintSteady(c: Config, s: State, tid: nat, t: Task, nonce: Bytes)
    requires t.HelloTask? && t.hphase.HelloFresh?
    ensures Steady(s, MintNonce(c, s, tid, t, nonce))
  {
    if nonce !in s.minted {
      var s1 := Mint(c, s, t.hello, t.source, nonce, AddClamped(t.hphase.at, c.nonceTtl));
      TaskSteady(s, s1, tid, t.(hphase := Challenged(nonce)));
    }
  }

  lemma SendSteady(s: State, tid: nat, sent: bool)
    ensures Steady(s, SendChallenge(s, tid, sent))
  {
  }

  lemma CheckSteady(c: Config, s: State, tid: nat, t: Task)
    requires t.ProofTask?
    ensures Steady(s, CheckProof(c, s, tid, t))
  {
    TaskSteady(s, s, tid, t.(pphase := ProofChecked));
  }

  lemma ClaimSteady(s: State, tid: nat, t: Task)
    requires t.ProofTask?
    ensures Steady(s, ClaimNonce(s, tid, t))
  {
    if N.Validated(s.nonces, t.proof.nonce, t.proof.client, t.source, s.wall).Err? {
      TaskSteady(s, s, tid, t);
    } else {
      var s1 := Consume(s, t.proof, t.source);
      RecordSteady(s, s1, CONSUMED, t.proof, t.source);
      TaskSteady(s, Record(s1, CONSUMED, t.proof, t.source), tid, t.(pphase := ProofClaimed));
    }
  }

  lemma ReleasedSteady(s: State, p: Proof, source: Endpoint)
    ensures Steady(s, Record(s.(leases := s.leases - {p.client}), LEASED, p, source))
  {
    RecordSteady(s, s.(leases := s.leases - {p.client}), LEASED, p, source);
  }

  /** A revocation is due for a lease that was backed. */
  lemma RevokingKeeps(c: Config, s: State, tid: nat, t: Task)
    requires 1 <= c.leaseMaxSeconds && Books(c, s) && Revoking(t) && Backed(c, s.log, t.pphase.ended.lease)
    ensures Books(c, Move(s, tid, t))
  {
    var s1 := Move(s, tid, t);
    forall k | k in s1.leases ensures LeaseTrue(c, s1, k) {
      LeaseGrows(c, s, s1, k);
    }
  }

  lemma LeaseIsBacked(c: Config, s: State, k: ClientKey, log: multiset<Event>)
    requires 1 <= c.leaseMaxSeconds && k in s.leases && LeaseTrue(c, s, k) && forall e :: e in s.log ==> e in log
    ensures Backed(c, log, L.Report(s.leases, k))
  {
    var e :| Backs(c, s.log, e, L.Report(s.leases, k));
    assert Backs(c, log, e, L.Report(s.leases, k));
  }

  lemma ReleaseKeeps(c: Config, s: State, tid: nat, t: Task)
    requires 1 <= c.leaseMaxSeconds && Books(c, s) && t.ProofTask? && t.pphase.ProofAccepted?
    ensures Books(c, ReleaseLease(c, s, tid, t))
  {
    var client := t.proof.client;
    var after := ReleaseLease(c, s, tid, t);
    if client !in s.leases {
      TaskSteady(s, s, tid, t);
      SteadyKeeps(c, s, Drop(s, tid));
    } else {
      var s2 := Record(s.(leases := s.leases - {client}), LEASED, t.proof, t.source);
      ReleasedSteady(s, t.proof, t.source);
      if c.revokes {
        SteadyKeeps(c, s, s2);
        LeaseIsBacked(c, s, client, s2.log);
        RevokingKeeps(c, s2, tid, after.tasks[tid]);
        assert after == Move(s2, tid, after.tasks[tid]);
      } else {
        TaskSteady(s, s2, tid, t);
        SteadyKeeps(c, s, Drop(s2, tid));
        assert after == Drop(s2, tid);
      }
    }
  }

  lemma ConsiderSteady(c: Config, s: State, tid: nat, t: Task)
    requires t.ProofTask? && t.pphase.Renewed?
    ensures Steady(s, ConsiderGrant(c, s, tid, t))
  {
    TaskSteady(s, s, tid, t.(pphase := GrantDue(t.pphase.param, t.pphase.isNew)));
  }

  lemma GrantSteady(s: State, tid: nat, t: Task, ran: bool)
    requires t.ProofTask?
    ensures Steady(s, RunGrant(s, tid, t, ran))
  {
    RecordSteady(s, s, HOOKED, t.proof, t.source);
    TaskSteady(s, if ran then Record(s, HOOKED, t.proof, t.source) else s, tid, t.(pphase := GrantRan));
  }

  lemma RevokeSteady(s: State, tid: nat, t: Task, ran: bool)
    requires t.ProofTask?
    ensures Steady(s, RunRevoke(s, tid, t, ran))
  {
    RecordSteady(s, s, HOOKED, t.proof, t.source);
    TaskSteady(s, if ran then Record(s, HOOKED, t.proof, t.source) else s, tid, t);
  }

  lemma MarkSteady(c: Config, s: State, tid: nat, t: Task)
    requires t.ProofTask?
    ensures Steady(s, MarkCooldown(c, s, tid, t))
  {
    TaskSteady(s, s.(cooldowns := C.AfterMark(c.cooldown, s.cooldowns, t.proof.client, s.mono)), tid, t);
  }

  /** A claimed packet has not been accepted yet. */
  lemma NotYetAccepted(s: State, t: Task)
    requires A.HolderTrue(s, t) && t.ProofTask? && t.pphase.ProofClaimed?
    ensures Event(ACCEPTED, t.proof.nonce, ClaimOf(t.proof, t.source)) !in s.log
  {
  }

  /** The counter moves with the event of an accepted RESPONSE. */
  lemma CountKeeps(c: Config, s: State, p: Proof, source: Endpoint)
    requires 1 <= c.leaseMaxSeconds && Books(c, s) && !p.bye && Event(ACCEPTED, p.nonce, ClaimOf(p, source)) !in s.log
    ensures Books(c, Record(s.(verified := s.verified + 1), ACCEPTED, p, source))
  {
    var s1 := Record(s.(verified := s.verified + 1), ACCEPTED, p, source);
    assert Responses(s1.log) == Responses(s.log) + {Event(ACCEPTED, p.nonce, ClaimOf(p, source))};
    forall k | k in s.leases ensures LeaseTrue(c, s1, k) {
      LeaseGrows(c, s, s1, k);
    }
    forall tid | tid in s.tasks && Revoking(s.tasks[tid]) ensures Backed(c, s1.log, s.tasks[tid].pphase.ended.lease) {
      BackedGrows(c, s.log, s1.log, s.tasks[tid].pphase.ended.lease);
    }
  }

  lemma VerifyKeeps(c: Config, s: State, tid: nat, t: Task, param: Option<string>)
    requires 1 <= c.leaseMaxSeconds && A.HolderTrue(s, t) && Books(c, s) && t.ProofTask? && t.pphase.ProofClaimed?
    ensures Books(c, Verify(s, tid, t, param))
  {
    var moved := t.(pphase := ProofAccepted(param));
    if t.proof.bye {
      RecordSteady(s, s, ACCEPTED, t.proof, t.source);
      TaskSteady(s, Record(s, ACCEPTED, t.proof, t.source), tid, moved);
      SteadyKeeps(c, s, Verify(s, tid, t, param));
    } else {
      NotYetAccepted(s, t);
      CountKeeps(c, s, t.proof, t.source);
      var s1 := Record(s.(verified := s.verified + 1), ACCEPTED, t.proof, t.source);
      TaskSteady(s1, s1, tid, moved);
      SteadyKeeps(c, s1, Move(s1, tid, moved));
    }
  }

  /** The lease table with the renewed lease, and the event that backs it. */
  lemma RenewedTrue(c: Config, s: State, p: Proof, source: Endpoint, param: Option<string>)
    requires 1 <= c.leaseMaxSeconds && Books(c, s) && !p.bye && AdmitParam(c, p.param) == Some(param)
    ensures var leases := L.AfterRenew(c.leaseCap, s.leases, p.client, LeaseFor(c, s, p, source, param));
            Books(c, Record(s.(leases := leases), LEASED, p, source))
  {
    var lease := LeaseFor(c, s, p, source, param);
    var s1 := Record(s.(leases := L.AfterRenew(c.leaseCap, s.leases, p.client, lease)), LEASED, p, source);
    var e := Event(LEASED, p.nonce, ClaimOf(p, source));
    assert Responses(s1.log) == Responses(s.log);
    forall k | k in s1.leases ensures LeaseTrue(c, s1, k) {
      if k == p.client && s1.leases[k] == lease {
        assert Backs(c, s1.log, e, L.Report(s1.leases, k)) && s1.leases[k].expiresAt <= s1.mono + TtlOf(c, e);
      } else {
        LeaseGrows(c, s, s1, k);
      }
    }
    forall tid | tid in s.tasks && Revoking(s.tasks[tid]) ensures Backed(c, s1.log, s.tasks[tid].pphase.ended.lease) {
      BackedGrows(c, s.log, s1.log, s.tasks[tid].pphase.ended.lease);
    }
  }

  /** A lease is written together with the event that backs it. */
  lemma RenewKeeps(c: Config, s: State, tid: nat, t: Task)
    requires 1 <= c.leaseMaxSeconds && Books(c, s) && t.ProofTask? && !t.proof.bye && t.pphase.ProofAccepted?
    requires U.Plain(c, t)
    ensures Books(c, RenewLease(c, s, tid, t))
  {
    var after := RenewLease(c, s, tid, t);
    var s1 := Record(s.(leases := after.leases), LEASED, t.proof, t.source);
    RenewedTrue(c, s, t.proof, t.source, t.pphase.param);
    TaskSteady(s1, s1, tid, after.tasks[tid]);
    SteadyKeeps(c, s1, Move(s1, tid, after.tasks[tid]));
    assert after == Move(s1, tid, after.tasks[tid]);
  }

  lemma EntryKeeps(c: Config, s: State, tid: nat, t: Task)
    requires 1 <= c.leaseMaxSeconds && A.HolderTrue(s, t) && Books(c, s) && t.ProofTask?
    ensures t.pphase.ProofArrived? ==> Books(c, CheckProof(c, s, tid, t))
    ensures t.pphase.ProofChecked? ==> Books(c, ClaimNonce(s, tid, t))
  {
    CheckSteady(c, s, tid, t);
    ClaimSteady(s, tid, t);
    SteadyKeeps(c, s, CheckProof(c, s, tid, t));
    SteadyKeeps(c, s, ClaimNonce(s, tid, t));
  }

  lemma AcceptKeeps(c: Config, s: State, tid: nat, t: Task)
    requires 1 <= c.leaseMaxSeconds && A.HolderTrue(s, t) && Books(c, s) && t.ProofTask? && t.pphase.ProofClaimed?
    ensures Books(c, AcceptProof(c, s, tid, t))
  {
    var param := AdmitParam(c, t.proof.param);
    if param.Some? {
      VerifyKeeps(c, s, tid, t, param.value);
    } else {
      TaskSteady(s, s, tid, t);
      SteadyKeeps(c, s, Drop(s, tid));
    }
  }

  lemma LeaseKeeps(c: Config, s: State, tid: nat, t: Task)
    requires 1 <= c.leaseMaxSeconds && Books(c, s) && t.ProofTask? && t.pphase.ProofAccepted? && U.Plain(c, t)
    ensures t.proof.bye ==> Books(c, ReleaseLease(c, s, tid, t))
    ensures !t.proof.bye ==> Books(c, RenewLease(c, s, tid, t))
  {
    if t.proof.bye {
      ReleaseKeeps(c, s, tid, t);
    } else {
      RenewKeeps(c, s, tid, t);
    }
  }

  lemma HookKeeps(c: Config, s: State, tid: nat, t: Task, done: bool)
    requires 1 <= c.leaseMaxSeconds && Books(c, s) && t.ProofTask?
    ensures t.pphase.Renewed? ==> Books(c, ConsiderGrant(c, s, tid, t))
    ensures Books(c, RunGrant(s, tid, t, done)) && Books(c, MarkCooldown(c, s, tid, t))
    ensures Books(c, RunRevoke(s, tid, t, done))
  {
    if t.pphase.Renewed? {
      ConsiderSteady(c, s, tid, t);
      SteadyKeeps(c, s, ConsiderGrant(c, s, tid, t));
    }
    GrantSteady(s, tid, t, done);
    SteadyKeeps(c, s, RunGrant(s, tid, t, done));
    MarkSteady(c, s, tid, t);
    SteadyKeeps(c, s, MarkCooldown(c, s, tid, t));
    RevokeSteady(s, tid, t, done);
    SteadyKeeps(c, s, RunRevoke(s, tid, t, done));
  }

  lemma ResumeKeeps(c: Config, s: State, tid: nat, nonce: Bytes, done: bool)
    requires 1 <= c.leaseMaxSeconds && Books(c, s) && tid in s.tasks && A.HolderTrue(s, s.tasks[tid])
    requires U.Plain(c, s.tasks[tid])
    ensures Books(c, Resume(c, s, tid, nonce, done))
  {
    var t := s.tasks[tid];
    if t.HelloTask? {
      HelloSteady(c, s, tid, nonce, done);
      SteadyKeeps(c, s, Resume(c, s, tid, nonce, done));
    } else {
      match t.pphase {
        case ProofArrived => EntryKeeps(c, s, tid, t);
        case ProofChecked => EntryKeeps(c, s, tid, t);
        case ProofClaimed => AcceptKeeps(c, s, tid, t);
        case ProofAccepted(_) => LeaseKeeps(c, s, tid, t);
        case _ => HookKeeps(c, s, tid, t, done);
      }
    }
  }

  lemma OutsideSteady(c: Config, s: State, step: Step)
    requires 1 <= c.leaseMaxSeconds && !step.Advance? && !step.Tick? && !step.Deliver?
    ensures Steady(s, Next(c, s, step))
  {
  }

  lemma ArriveSteady(c: Config, s: State, step: Step)
    requires 1 <= c.leaseMaxSeconds && step.Deliver?
    ensures Steady(s, Next(c, s, step))
  {
    TaskSteady(s, s, step.tid, NewTask(step.datagram, step.source));
  }

  lemma TickSteady(c: Config, s: State, wall: i64, mono: Instant)
    requires 1 <= c.leaseMaxSeconds
    ensures Steady(s, Next(c, s, Tick(wall, mono)))
  {
    if s.wall <= wall && s.mono <= mono {
      assert Next(c, s, Tick(wall, mono)) == s.(wall := wall, mono := mono);
    } else {
      assert Next(c, s, Tick(wall, mono)) == s;
    }
  }

  lemma StepKeeps(c: Config, s: State, step: Step)
    requires 1 <= c.leaseMaxSeconds && Books(c, s) && A.Inv(c, s) && U.Caused(c, s)
    ensures Books(c, Next(c, s, step))
  {
    match step {
      case Advance(tid, nonce, done) =>
        if tid in s.tasks {
          ResumeKeeps(c, s, tid, nonce, done);
        }
      case Tick(wall, mono) =>
        TickSteady(c, s, wall, mono);
        SteadyKeeps(c, s, Next(c, s, step));
      case Deliver(_, _, _) =>
        ArriveSteady(c, s, step);
        SteadyKeeps(c, s, Next(c, s, step));
      case _ =>
        OutsideSteady(c, s, step);
        SteadyKeeps(c, s, Next(c, s, step));
    }
  }

  lemma {:induction false} PathKeeps(c: Config, s: State, steps: seq<Step>, s1: State)
    requires 1 <= c.leaseMaxSeconds && Books(c, s) && A.Inv(c, s) && U.Caused(c, s) && Path(c, s, steps, s1)
    ensures Books(c, s1)
    decreases |steps|
  {
    if steps == [] {
      Stayed(c, s, s1);
    } else {
      var init := steps[..|steps| - 1];
      var before := SplitLast(c, s, steps, s1);
      PathKeeps(c, s, init, before);
      A.PathKeeps(c, s, init, before);
      U.PathCaused(c, s, init, before);
      StepKeeps(c, before, steps[|steps| - 1]);
    }
  }

  /** In every reachable state the pulse counter equals the number of RESPONSEs accepted; every
      lease in the table was written for a verified RESPONSE of that very client from the leased
      endpoint, stores the param that RESPONSE carried, and runs out within the length that its
      interval asked for; and so was every lease about to be reported to a revoke hook. */
  lemma BooksBalance(c: Config, s: State)
    requires 1 <= c.leaseMaxSeconds && Reachable(c, s)
    ensures Books(c, s)
  {
    var wall, steps :| Path(c, Start(wall), steps, s);
    PathKeeps(c, Start(wall), steps, s);
  }

  /** So every lease stands for a signature of its client, on a nonce minted for it at the
      leased endpoint: the signed sealed param opens to the stored param, and the signed
      interval bounds the lease. */
  lemma LeaseIsSigned(c: Config, s: State, client: ClientKey)
    requires 1 <= c.leaseMaxSeconds && Reachable(c, s) && client in s.leases
    ensures exists nonce, interval, sealed :: nonce in s.minted
              && s.minted[nonce].client == client
              && s.minted[nonce].source == Endpoint(s.leases[client].ip, s.leases[client].port)
              && (client, ProofMessage(false, c.server, client, nonce, interval, s.minted[nonce].expiresAt,
                                       sealed)) in s.signed
              && AdmitParam(c, sealed) == Some(s.leases[client].param)
              && s.leases[client].expiresAt
                 <= s.mono + L.LeaseTtl(interval, c.multiplier, c.leaseMaxSeconds) * NANOS_PER_SECOND
  {
    BooksBalance(c, s);
    assert LeaseTrue(c, s, client);
    var e :| Backs(c, s.log, e, L.Report(s.leases, client)) && s.leases[client].expiresAt <= s.mono + TtlOf(c, e);
    A.EventsAreBacked(c, s, e);
  }

  /** Whenever a revoke hook is about to run for a BYE, the client signed that BYE, and the
      hook's param was signed by it too: sealed in the BYE, or else in a RESPONSE. */
  lemma RevokeParamIsSigned(c: Config, s: State, tid: nat)
    requires 1 <= c.leaseMaxSeconds && Reachable(c, s) && tid in s.tasks && Revoking(s.tasks[tid])
    ensures var p, param := s.tasks[tid].proof, s.tasks[tid].pphase.param;
            && p.nonce in s.minted
            && (p.client, ProofMessage(true, c.server, p.client, p.nonce, p.interval, s.minted[p.nonce].expiresAt,
                                       p.param)) in s.signed
            && (AdmitParam(c, p.param) == Some(param)
                || exists client, nonce, interval, at, sealed ::
                     (client, ProofMessage(false, c.server, client, nonce, interval, at, sealed)) in s.signed
                     && client == s.tasks[tid].pphase.ended.lease.client && AdmitParam(c, sealed) == Some(param))
  {
    BooksBalance(c, s);
    U.ReachableCaused(c, s);
    A.ReachableInv(c, s);
    var t := s.tasks[tid];
    assert U.TaskCaused(c, s, t) && A.HolderTrue(s, t);
    assert s.claims[t.proof.nonce] == ClaimOf(t.proof, t.source);
    assert (t.proof.client, A.ClaimText(c, s, t.proof.nonce)) in s.signed;
    var e :| Backs(c, s.log, e, t.pphase.ended.lease);
    A.EventsAreBacked(c, s, e);
  }
}
