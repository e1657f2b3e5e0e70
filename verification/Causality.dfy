/** In every run the things done for a packet happen in the order the handlers describe, a hook
    only after the lease change, that only after the packet was accepted, that only after its
    nonce was consumed; and with the param that its client sealed and signed. */
module Causality {
  import opened Types
  import opened SigningText
  import opened Handshake
  import opened Runs
  import A = Agreement
  import G = HelloAgreement
  import N = NonceStores
  import C = Cooldowns
  import H = HelloLimits

  ghost predicate LogCaused(log: multiset<Event>) {
    forall e :: e in log && e.stage > CONSUMED ==> Event(e.stage - 1, e.nonce, e.claim) in log
  }

  /** The param a task goes on with is the one its packet carries, opened; a revoke without one
      takes that of the lease. Leases are renewed for RESPONSEs and released for BYEs. */
  predicate Plain(c: Config, t: Task) {
    t.ProofTask? ==>
      match t.pphase
      case ProofAccepted(param) => AdmitParam(c, t.proof.param) == Some(param)
      case Renewed(param, _) => AdmitParam(c, t.proof.param) == Some(param) && !t.proof.bye
      case GrantDue(param, _) => AdmitParam(c, t.proof.param) == Some(param) && !t.proof.bye
      case RevokeDue(ended, param) =>
        t.proof.bye && AdmitParam(c, t.proof.param).Some?
        && param == (var sent := AdmitParam(c, t.proof.param).value; if sent.Some? then sent else ended.lease.param)
      case _ => true
  }

  /** What the task did last is in the log. */
  predicate TaskCaused(c: Config, s: State, t: Task) {
    && (A.Holds(t) ==> Event(A.Stage(t.pphase), t.proof.nonce, ClaimOf(t.proof, t.source)) in s.log)
    && Plain(c, t)
  }

  ghost predicate Caused(c: Config, s: State) {
    LogCaused(s.log) && forall tid :: tid in s.tasks ==> TaskCaused(c, s, s.tasks[tid])
  }

  lemma MoveCaused(c: Config, s: State, s1: State, tid: nat, t: Task)
    requires Caused(c, s) && s1.tasks == s.tasks && s1.log == s.log && TaskCaused(c, s, t)
    ensures Caused(c, Move(s1, tid, t))
  {
  }

  lemma DropCaused(c: Config, s: State, s1: State, tid: nat)
    requires Caused(c, s) && s1.tasks == s.tasks && s1.log == s.log
    ensures Caused(c, Drop(s1, tid))
  {
  }

  /** A task records the stage after the one it is at. */
  lemma RecordCaused(c: Config, s: State, s1: State, t: Task, stage: nat)
    requires Caused(c, s) && s1.tasks == s.tasks && s1.log == s.log && t.ProofTask? && TaskCaused(c, s, t)
    requires stage == A.Stage(t.pphase) + 1
    ensures var s2 := Record(s1, stage, t.proof, t.source);
            Caused(c, s2) && Event(stage, t.proof.nonce, ClaimOf(t.proof, t.source)) in s2.log
  {
    var e := Event(stage, t.proof.nonce, ClaimOf(t.proof, t.source));
    var log := s.log + multiset{e};
    forall x | x in log && x.stage > CONSUMED ensures Event(x.stage - 1, x.nonce, x.claim) in log {
      assert x == e || x in s.log;
    }
  }

  lemma CheckCaused(c: Config, s: State, tid: nat, t: Task)
    requires Caused(c, s) && t.ProofTask? && t.pphase.ProofArrived?
    ensures Caused(c, CheckProof(c, s, tid, t))
  {
    MoveCaused(c, s, s, tid, t.(pphase := ProofChecked));
    DropCaused(c, s, s, tid);
  }

  lemma ClaimCaused(c: Config, s: State, tid: nat, t: Task)
    requires Caused(c, s) && t.ProofTask? && t.pphase.ProofChecked?
    ensures Caused(c, ClaimNonce(s, tid, t))
  {
    if N.Validated(s.nonces, t.proof.nonce, t.proof.client, t.source, s.wall).Err? {
      DropCaused(c, s, s, tid);
    } else {
      var s1 := Consume(s, t.proof, t.source);
      RecordCaused(c, s, s1, t, CONSUMED);
      var s2 := Record(s1, CONSUMED, t.proof, t.source);
      MoveCaused(c, s2, s2, tid, t.(pphase := ProofClaimed));
    }
  }

  lemma CountCaused(c: Config, s: State, verified: nat, tid: nat, t: Task, param: Option<string>)
    requires Caused(c, s) && t.ProofTask? && t.pphase.ProofClaimed? && TaskCaused(c, s, t)
    requires AdmitParam(c, t.proof.param) == Some(param)
    ensures Caused(c, Move(Record(s.(verified := verified), ACCEPTED, t.proof, t.source), tid,
                           t.(pphase := ProofAccepted(param))))
  {
    RecordCaused(c, s, s.(verified := verified), t, ACCEPTED);
    var s2 := Record(s.(verified := verified), ACCEPTED, t.proof, t.source);
    MoveCaused(c, s2, s2, tid, t.(pphase := ProofAccepted(param)));
  }

  lemma VerifyCaused(c: Config, s: State, tid: nat, t: Task, param: Option<string>)
    requires Caused(c, s) && t.ProofTask? && t.pphase.ProofClaimed? && TaskCaused(c, s, t)
    requires AdmitParam(c, t.proof.param) == Some(param)
    ensures Caused(c, Verify(s, tid, t, param))
  {
    var verified: nat := if t.proof.bye then s.verified else s.verified + 1;
    CountCaused(c, s, verified, tid, t, param);
    if t.proof.bye {
      assert s == s.(verified := verified);
    }
  }

  lemma AcceptCaused(c: Config, s: State, tid: nat, t: Task)
    requires Caused(c, s) && t.ProofTask? && t.pphase.ProofClaimed? && TaskCaused(c, s, t)
    ensures Caused(c, AcceptProof(c, s, tid, t))
  {
    var param := AdmitParam(c, t.proof.param);
    if param.Some? {
      VerifyCaused(c, s, tid, t, param.value);
    } else {
      DropCaused(c, s, s, tid);
    }
  }

  lemma RenewCaused(c: Config, s: State, tid: nat, t: Task)
    requires Caused(c, s) && 1 <= c.leaseMaxSeconds && t.ProofTask? && t.pphase.ProofAccepted? && TaskCaused(c, s, t)
    requires !t.proof.bye
    ensures Caused(c, RenewLease(c, s, tid, t))
  {
    var after := RenewLease(c, s, tid, t);
    var s1 := s.(leases := after.leases);
    RecordCaused(c, s, s1, t, LEASED);
    var s2 := Record(s1, LEASED, t.proof, t.source);
    MoveCaused(c, s2, s2, tid, after.tasks[tid]);
    assert after == Move(s2, tid, after.tasks[tid]);
  }

  lemma ReleaseCaused(c: Config, s: State, tid: nat, t: Task)
    requires Caused(c, s) && t.ProofTask? && t.pphase.ProofAccepted? && TaskCaused(c, s, t)
    requires t.proof.bye
    ensures Caused(c, ReleaseLease(c, s, tid, t))
  {
    var s1 := s.(leases := s.leases - {t.proof.client});
    var s2 := Record(s1, LEASED, t.proof, t.source);
    var after := ReleaseLease(c, s, tid, t);
    RecordCaused(c, s, s1, t, LEASED);
    if t.proof.client !in s.leases {
      DropCaused(c, s, s, tid);
    } else if c.revokes {
      MoveCaused(c, s2, s2, tid, after.tasks[tid]);
      assert after == Move(s2, tid, after.tasks[tid]);
    } else {
      DropCaused(c, s2, s2, tid);
    }
  }

  lemma ConsiderCaused(c: Config, s: State, tid: nat, t: Task)
    requires Caused(c, s) && t.ProofTask? && t.pphase.Renewed? && TaskCaused(c, s, t)
    ensures Caused(c, ConsiderGrant(c, s, tid, t))
  {
    MoveCaused(c, s, s, tid, t.(pphase := GrantDue(t.pphase.param, t.pphase.isNew)));
    DropCaused(c, s, s, tid);
  }

  lemma GrantCaused(c: Config, s: State, tid: nat, t: Task, ran: bool)
    requires Caused(c, s) && t.ProofTask? && t.pphase.GrantDue? && TaskCaused(c, s, t)
    ensures Caused(c, RunGrant(s, tid, t, ran))
  {
    DropCaused(c, s, s, tid);
    RecordCaused(c, s, s, t, HOOKED);
    var s1 := Record(s, HOOKED, t.proof, t.source);
    MoveCaused(c, s1, s1, tid, t.(pphase := GrantRan));
  }

  lemma RevokeCaused(c: Config, s: State, tid: nat, t: Task, ran: bool)
    requires Caused(c, s) && t.ProofTask? && t.pphase.RevokeDue? && TaskCaused(c, s, t)
    ensures Caused(c, RunRevoke(s, tid, t, ran))
  {
    DropCaused(c, s, s, tid);
    RecordCaused(c, s, s, t, HOOKED);
    var s1 := Record(s, HOOKED, t.proof, t.source);
    DropCaused(c, s1, s1, tid);
  }

  lemma MarkCaused(c: Config, s: State, tid: nat, t: Task)
    requires Caused(c, s) && t.ProofTask?
    ensures Caused(c, MarkCooldown(c, s, tid, t))
  {
    DropCaused(c, s, s.(cooldowns := C.AfterMark(c.cooldown, s.cooldowns, t.proof.client, s.mono)), tid);
  }

  lemma ProofCaused(c: Config, s: State, tid: nat, nonce: Bytes, done: bool)
    requires Caused(c, s) && 1 <= c.leaseMaxSeconds && tid in s.tasks && s.tasks[tid].ProofTask?
    ensures Caused(c, Resume(c, s, tid, nonce, done))
  {
    var t := s.tasks[tid];
    match t.pphase {
      case ProofArrived => CheckCaused(c, s, tid, t);
      case ProofChecked => ClaimCaused(c, s, tid, t);
      case ProofClaimed => AcceptCaused(c, s, tid, t);
      case ProofAccepted(_) => if t.proof.bye { ReleaseCaused(c, s, tid, t); } else { RenewCaused(c, s, tid, t); }
      case Renewed(_, _) => ConsiderCaused(c, s, tid, t);
      case GrantDue(_, _) => GrantCaused(c, s, tid, t, done);
      case GrantRan => MarkCaused(c, s, tid, t);
      case RevokeDue(_, _) => RevokeCaused(c, s, tid, t, done);
    }
  }

  lemma LimitCaused(c: Config, s: State, tid: nat, t: Task)
    requires Caused(c, s) && t.HelloTask?
    ensures Caused(c, LimitHello(c, s, tid, t))
  {
    var s1 := s.(rates := H.AfterCheck(c.limits, s.rates, t.source.ip, s.mono));
    MoveCaused(c, s, s1, tid, t.(hphase := HelloAdmitted));
    DropCaused(c, s, s1, tid);
  }

  lemma AcceptHelloCaused(c: Config, s: State, tid: nat, t: Task)
    requires Caused(c, s) && t.HelloTask?
    ensures Caused(c, AcceptHello(c, s, tid, t))
  {
    if AcceptsHello(c, s, t.hello) {
      MoveCaused(c, s, G.Accepted(c, s, t.hello), tid, t.(hphase := HelloFresh(s.wall)));
    } else {
      DropCaused(c, s, s, tid);
    }
  }

  lemma MintCaused(c: Config, s: State, tid: nat, t: Task, nonce: Bytes)
    requires Caused(c, s) && t.HelloTask? && t.hphase.HelloFresh?
    ensures Caused(c, MintNonce(c, s, tid, t, nonce))
  {
    if nonce !in s.minted {
      var s1 := Mint(c, s, t.hello, t.source, nonce, AddClamped(t.hphase.at, c.nonceTtl));
      MoveCaused(c, s, s1, tid, t.(hphase := Challenged(nonce)));
    }
  }

  lemma HelloCaused(c: Config, s: State, tid: nat, nonce: Bytes, done: bool)
    requires Caused(c, s) && 1 <= c.leaseMaxSeconds && tid in s.tasks && s.tasks[tid].HelloTask?
    ensures Caused(c, Resume(c, s, tid, nonce, done))
  {
    var t := s.tasks[tid];
    match t.hphase {
      case HelloArrived => LimitCaused(c, s, tid, t);
      case HelloAdmitted => AcceptHelloCaused(c, s, tid, t);
      case HelloFresh(_) => MintCaused(c, s, tid, t, nonce);
      case Challenged(_) => DropCaused(c, s, if done then s.(hellosAccepted := s.hellosAccepted + 1) else s, tid);
    }
  }

  lemma StepCaused(c: Config, s: State, step: Step)
    requires Caused(c, s) && 1 <= c.leaseMaxSeconds
    ensures Caused(c, Next(c, s, step))
  {
    match step {
      case Advance(tid, nonce, done) =>
        if tid in s.tasks {
          if s.tasks[tid].HelloTask? {
            HelloCaused(c, s, tid, nonce, done);
          } else {
            ProofCaused(c, s, tid, nonce, done);
          }
        }
      case Deliver(tid, d, source) => MoveCaused(c, s, s, tid, NewTask(d, source));
      case Tick(wall, mono) => A.TickSame(c, s, wall, mono);
      case _ => OutsideSame(c, s, step);
    }
  }

  lemma OutsideSame(c: Config, s: State, step: Step)
    requires 1 <= c.leaseMaxSeconds && !step.Advance? && !step.Deliver? && !step.Tick?
    ensures Next(c, s, step).log == s.log && Next(c, s, step).tasks == s.tasks
  {
  }

  lemma {:induction false} PathCaused(c: Config, s: State, steps: seq<Step>, s1: State)
    requires 1 <= c.leaseMaxSeconds && Caused(c, s) && Path(c, s, steps, s1)
    ensures Caused(c, s1)
    decreases |steps|
  {
    if steps == [] {
      Stayed(c, s, s1);
    } else {
      var before := SplitLast(c, s, steps, s1);
      PathCaused(c, s, steps[..|steps| - 1], before);
      StepCaused(c, before, steps[|steps| - 1]);
    }
  }

  lemma ReachableCaused(c: Config, s: State)
    requires 1 <= c.leaseMaxSeconds && Reachable(c, s)
    ensures Caused(c, s)
  {
    var wall, steps :| Path(c, Start(wall), steps, s);
    PathCaused(c, Start(wall), steps, s);
  }

  // ----- Main results -----

  /** No hook runs, grant or revoke, unless for the same packet a lease was renewed or released
      before, the packet was accepted before that, and its nonce consumed before that. */
  lemma HooksComeLast(c: Config, s: State, nonce: Bytes, claim: Claim)
    requires 1 <= c.leaseMaxSeconds && Reachable(c, s) && Event(HOOKED, nonce, claim) in s.log
    ensures Event(LEASED, nonce, claim) in s.log
    ensures Event(ACCEPTED, nonce, claim) in s.log
    ensures Event(CONSUMED, nonce, claim) in s.log
  {
    ReachableCaused(c, s);
    assert Event(HOOKED, nonce, claim).stage - 1 == LEASED;
    assert Event(LEASED, nonce, claim) in s.log;
    assert Event(ACCEPTED, nonce, claim) in s.log;
  }

  /** Whenever a grant hook is about to run, its param is the opened form of exactly the sealed
      param in a RESPONSE that the client signed, on a nonce minted for it at that endpoint. */
  lemma GrantParamIsSigned(c: Config, s: State, tid: nat)
    requires 1 <= c.leaseMaxSeconds && Reachable(c, s)
    requires tid in s.tasks && s.tasks[tid].ProofTask? && s.tasks[tid].pphase.GrantDue?
    ensures var p := s.tasks[tid].proof;
            && AdmitParam(c, p.param) == Some(s.tasks[tid].pphase.param)
            && p.nonce in s.minted
            && s.minted[p.nonce].client == p.client && s.minted[p.nonce].source == s.tasks[tid].source
            && (p.client, ProofMessage(false, c.server, p.client, p.nonce, p.interval, s.minted[p.nonce].expiresAt,
                                       p.param))
               in s.signed
  {
    ReachableCaused(c, s);
    A.ReachableInv(c, s);
    var t := s.tasks[tid];
    assert TaskCaused(c, s, t) && A.HolderTrue(s, t);
    assert s.claims[t.proof.nonce] == ClaimOf(t.proof, t.source);
    assert (t.proof.client, A.ClaimText(c, s, t.proof.nonce)) in s.signed;
  }
}
