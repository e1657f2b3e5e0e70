/** A handler that nothing interrupts does to the stores exactly what its task, run to its end
    in the handshake machine, does to them: the machine's runs include the sequential server. */
module Refinement {
  import opened Types
  import opened Handshake
  import opened Runs
  import opened SeenCaches
  import opened Servers
  import G = HelloAgreement
  import N = NonceStores
  import L = Leases
  import C = Cooldowns
  import H = HelloLimits

  /** The next `k` steps of task `tid`, with nothing in between. */
  function Serve(c: Config, s: State, tid: nat, nonce: Bytes, done: bool, k: nat): State
    requires 1 <= c.leaseMaxSeconds
    decreases k
  {
    if k == 0 then s else Serve(c, Next(c, s, Advance(tid, nonce, done)), tid, nonce, done, k - 1)
  }

  lemma {:induction false} ServePath(c: Config, s: State, tid: nat, nonce: Bytes, done: bool, k: nat, last: State)
    requires 1 <= c.leaseMaxSeconds && Path(c, s, Turns(tid, nonce, done, k), last)
    ensures last == Serve(c, s, tid, nonce, done, k)
    decreases k
  {
    if k == 0 {
      Stayed(c, s, last);
    } else {
      Turn(c, s, tid, nonce, done, k, last);
      ServePath(c, Next(c, s, Advance(tid, nonce, done)), tid, nonce, done, k - 1, last);
    }
  }

  /** A task that has ended takes no more steps. */
  lemma {:induction false} Finished(c: Config, s: State, tid: nat, nonce: Bytes, done: bool, k: nat)
    requires 1 <= c.leaseMaxSeconds && tid !in s.tasks
    ensures Serve(c, s, tid, nonce, done, k) == s
    decreases k
  {
    if k > 0 {
      Finished(c, s, tid, nonce, done, k - 1);
    }
  }

  lemma Stepped(c: Config, s: State, s1: State, tid: nat, nonce: Bytes, done: bool, k: nat)
    requires 1 <= c.leaseMaxSeconds && k > 0 && s1 == Next(c, s, Advance(tid, nonce, done))
    ensures Serve(c, s, tid, nonce, done, k) == Serve(c, s1, tid, nonce, done, k - 1)
  {
  }

  /** A step that ends the task is its last. */
  lemma Last(c: Config, s: State, s1: State, tid: nat, nonce: Bytes, done: bool, k: nat)
    requires 1 <= c.leaseMaxSeconds && k > 0 && Next(c, s, Advance(tid, nonce, done)) == Drop(s1, tid)
    ensures Serve(c, s, tid, nonce, done, k) == Drop(s1, tid)
  {
    Stepped(c, s, Drop(s1, tid), tid, nonce, done, k);
    Finished(c, Drop(s1, tid), tid, nonce, done, k - 1);
  }

  // ----- HELLO -----

  function Issued(d: Stores, nonces: N.Entries, sent: bool): Stores {
    d.(nonces := nonces, hellosAccepted := if sent then d.hellosAccepted + 1 else d.hellosAccepted)
  }

  lemma SendServed(c: Config, s: State, tid: nat, h: Hello, source: Endpoint, nonce: Bytes, sent: bool)
    requires 1 <= c.leaseMaxSeconds && tid in s.tasks && s.tasks[tid] == HelloTask(h, source, Challenged(nonce))
    ensures var last := Serve(c, s, tid, nonce, sent, 1);
            StoresOf(last) == Issued(StoresOf(s), s.nonces, sent) && tid !in last.tasks
  {
    Stepped(c, s, SendChallenge(s, tid, sent), tid, nonce, sent, 1);
  }

  lemma MintServed(c: Config, s: State, tid: nat, h: Hello, source: Endpoint, nonce: Bytes, sent: bool, at: i64)
    requires 1 <= c.leaseMaxSeconds && tid in s.tasks && s.tasks[tid] == HelloTask(h, source, HelloFresh(at))
    requires nonce !in s.minted
    ensures var last := Serve(c, s, tid, nonce, sent, 2);
            var nonces := N.AfterInsert(s.nonces, nonce, h.client, source, s.wall, AddClamped(at, c.nonceTtl));
            StoresOf(last) == Issued(StoresOf(s), nonces, sent) && tid !in last.tasks
  {
    var s1 := Move(Mint(c, s, h, source, nonce, AddClamped(at, c.nonceTtl)), tid,
                   HelloTask(h, source, Challenged(nonce)));
    assert Next(c, s, Advance(tid, nonce, sent)) == s1;
    Stepped(c, s, s1, tid, nonce, sent, 2);
    SendServed(c, s1, tid, h, source, nonce, sent);
  }

  lemma AcceptServed(c: Config, s: State, tid: nat, h: Hello, source: Endpoint, nonce: Bytes, sent: bool)
    requires 1 <= c.leaseMaxSeconds && tid in s.tasks && s.tasks[tid] == HelloTask(h, source, HelloAdmitted)
    requires nonce !in s.minted && AcceptsHello(c, s, h)
    ensures var last := Serve(c, s, tid, nonce, sent, 3);
            var nonces := N.AfterInsert(s.nonces, nonce, h.client, source, s.wall, AddClamped(s.wall, c.nonceTtl));
            var seen := AfterInsert(s.seen, (h.client, h.helloNonce), s.wall, SeenTtl(c.skew));
            StoresOf(last) == Issued(StoresOf(s).(seen := seen), nonces, sent) && tid !in last.tasks
  {
    var s1 := Move(G.Accepted(c, s, h), tid, HelloTask(h, source, HelloFresh(s.wall)));
    assert Next(c, s, Advance(tid, nonce, sent)) == s1;
    Stepped(c, s, s1, tid, nonce, sent, 3);
    MintServed(c, s1, tid, h, source, nonce, sent, s.wall);
  }

  lemma RefuseServed(c: Config, s: State, tid: nat, h: Hello, source: Endpoint, nonce: Bytes, sent: bool)
    requires 1 <= c.leaseMaxSeconds && tid in s.tasks && s.tasks[tid] == HelloTask(h, source, HelloAdmitted)
    requires !AcceptsHello(c, s, h)
    ensures var last := Serve(c, s, tid, nonce, sent, 3);
            StoresOf(last) == StoresOf(s) && tid !in last.tasks
  {
    assert Next(c, s, Advance(tid, nonce, sent)) == Drop(s, tid);
    Last(c, s, s, tid, nonce, sent, 3);
  }

  lemma LimitServed(c: Config, s: State, tid: nat, h: Hello, source: Endpoint, nonce: Bytes, sent: bool)
    requires 1 <= c.leaseMaxSeconds && tid in s.tasks && s.tasks[tid] == HelloTask(h, source, HelloArrived)
    ensures var s1 := s.(rates := H.AfterCheck(c.limits, s.rates, source.ip, s.mono));
            Serve(c, s, tid, nonce, sent, 4)
              == if H.Allows(c.limits, s.rates, source.ip, s.mono)
                 then Serve(c, Move(s1, tid, HelloTask(h, source, HelloAdmitted)), tid, nonce, sent, 3)
                 else Drop(s1, tid)
  {
    var s1 := s.(rates := H.AfterCheck(c.limits, s.rates, source.ip, s.mono));
    if H.Allows(c.limits, s.rates, source.ip, s.mono) {
      var admitted := Move(s1, tid, HelloTask(h, source, HelloAdmitted));
      assert Next(c, s, Advance(tid, nonce, sent)) == admitted;
      Stepped(c, s, admitted, tid, nonce, sent, 4);
    } else {
      assert Next(c, s, Advance(tid, nonce, sent)) == Drop(s1, tid);
      Last(c, s, s1, tid, nonce, sent, 4);
    }
  }

  lemma WelcomeServed(c: Config, s: State, tid: nat, h: Hello, source: Endpoint, nonce: Bytes, sent: bool)
    requires 1 <= c.leaseMaxSeconds && tid in s.tasks && s.tasks[tid] == HelloTask(h, source, HelloArrived)
    requires nonce !in s.minted && Welcome(c, StoresOf(s), h, source, s.wall, s.mono)
    ensures var last := Serve(c, s, tid, nonce, sent, 4);
            && StoresOf(last) == AfterHello(c, StoresOf(s), h, source, nonce, sent, s.wall, s.mono)
            && tid !in last.tasks
  {
    LimitServed(c, s, tid, h, source, nonce, sent);
    var s1 := s.(rates := H.AfterCheck(c.limits, s.rates, source.ip, s.mono));
    AcceptServed(c, Move(s1, tid, HelloTask(h, source, HelloAdmitted)), tid, h, source, nonce, sent);
  }

  lemma UnwelcomeServed(c: Config, s: State, tid: nat, h: Hello, source: Endpoint, nonce: Bytes, sent: bool)
    requires 1 <= c.leaseMaxSeconds && tid in s.tasks && s.tasks[tid] == HelloTask(h, source, HelloArrived)
    requires !Welcome(c, StoresOf(s), h, source, s.wall, s.mono)
    ensures var last := Serve(c, s, tid, nonce, sent, 4);
            && StoresOf(last) == StoresOf(s).(rates := H.AfterCheck(c.limits, s.rates, source.ip, s.mono))
            && tid !in last.tasks
  {
    LimitServed(c, s, tid, h, source, nonce, sent);
    if H.Allows(c.limits, s.rates, source.ip, s.mono) {
      var s1 := s.(rates := H.AfterCheck(c.limits, s.rates, source.ip, s.mono));
      RefuseServed(c, Move(s1, tid, HelloTask(h, source, HelloAdmitted)), tid, h, source, nonce, sent);
    }
  }

  lemma HelloServed(c: Config, s: State, tid: nat, h: Hello, source: Endpoint, nonce: Bytes, sent: bool)
    requires 1 <= c.leaseMaxSeconds && tid in s.tasks && s.tasks[tid] == HelloTask(h, source, HelloArrived)
    requires nonce !in s.minted
    ensures var last := Serve(c, s, tid, nonce, sent, 4);
            && StoresOf(last) == AfterHello(c, StoresOf(s), h, source, nonce, sent, s.wall, s.mono)
            && tid !in last.tasks
  {
    if Welcome(c, StoresOf(s), h, source, s.wall, s.mono) {
      WelcomeServed(c, s, tid, h, source, nonce, sent);
    } else {
      UnwelcomeServed(c, s, tid, h, source, nonce, sent);
    }
  }

  // ----- RESPONSE and BYE -----

  lemma CheckServed(c: Config, s: State, tid: nat, p: Proof, source: Endpoint, done: bool, k: nat)
    requires 1 <= c.leaseMaxSeconds && tid in s.tasks && s.tasks[tid] == ProofTask(p, source, ProofArrived) && k >= 1
    requires ChecksOut(c, s, p, source)
    ensures Serve(c, s, tid, [], done, k)
            == Serve(c, Move(s, tid, ProofTask(p, source, ProofChecked)), tid, [], done, k - 1)
  {
    var checked := Move(s, tid, ProofTask(p, source, ProofChecked));
    assert Next(c, s, Advance(tid, [], done)) == checked;
    Stepped(c, s, checked, tid, [], done, k);
  }

  /** The checks that both share end in the consumed nonce, or in nothing. */
  lemma ProofPasses(c: Config, s: State, tid: nat, p: Proof, source: Endpoint, done: bool, k: nat)
    requires 1 <= c.leaseMaxSeconds && tid in s.tasks && s.tasks[tid] == ProofTask(p, source, ProofArrived) && k >= 2
    requires ChecksOut(c, s, p, source)
    ensures Serve(c, s, tid, [], done, k)
         == Serve(c, Move(Record(Consume(s, p, source), CONSUMED, p, source), tid, ProofTask(p, source, ProofClaimed)),
                  tid, [], done, k - 2)
  {
    CheckServed(c, s, tid, p, source, done, k);
    ClaimServed(c, s, tid, p, source, done, k - 1);
  }

  lemma ProofFails(c: Config, s: State, tid: nat, p: Proof, source: Endpoint, done: bool, k: nat)
    requires 1 <= c.leaseMaxSeconds && tid in s.tasks && s.tasks[tid] == ProofTask(p, source, ProofArrived) && k >= 1
    requires !ChecksOut(c, s, p, source)
    ensures Serve(c, s, tid, [], done, k) == Drop(s, tid)
  {
    assert Next(c, s, Advance(tid, [], done)) == Drop(s, tid);
    Last(c, s, s, tid, [], done, k);
  }

  lemma ClaimServed(c: Config, s: State, tid: nat, p: Proof, source: Endpoint, done: bool, k: nat)
    requires 1 <= c.leaseMaxSeconds && k >= 1 && N.Validated(s.nonces, p.nonce, p.client, source, s.wall).Ok?
    ensures Serve(c, Move(s, tid, ProofTask(p, source, ProofChecked)), tid, [], done, k)
         == Serve(c, Move(Record(Consume(s, p, source), CONSUMED, p, source), tid, ProofTask(p, source, ProofClaimed)),
                  tid, [], done, k - 1)
  {
    var checked := Move(s, tid, ProofTask(p, source, ProofChecked));
    var claimed := Move(Record(Consume(s, p, source), CONSUMED, p, source), tid, ProofTask(p, source, ProofClaimed));
    assert checked.tasks[tid := ProofTask(p, source, ProofClaimed)] == claimed.tasks;
    assert Next(c, checked, Advance(tid, [], done)) == claimed;
    Stepped(c, checked, claimed, tid, [], done, k);
  }

  lemma VerifyServed(c: Config, s: State, tid: nat, p: Proof, source: Endpoint, done: bool, k: nat)
    requires 1 <= c.leaseMaxSeconds && tid in s.tasks && s.tasks[tid] == ProofTask(p, source, ProofClaimed) && k >= 1
    ensures Serve(c, s, tid, [], done, k)
         == if AdmitParam(c, p.param).Some?
            then Serve(c, Verify(s, tid, s.tasks[tid], AdmitParam(c, p.param).value), tid, [], done, k - 1)
            else Drop(s, tid)
  {
    var param := AdmitParam(c, p.param);
    if param.Some? {
      var verified := Verify(s, tid, s.tasks[tid], param.value);
      assert Next(c, s, Advance(tid, [], done)) == verified;
      Stepped(c, s, verified, tid, [], done, k);
    } else {
      assert Next(c, s, Advance(tid, [], done)) == Drop(s, tid);
      Last(c, s, s, tid, [], done, k);
    }
  }

  lemma MarkServed(c: Config, s: State, tid: nat, p: Proof, source: Endpoint, done: bool)
    requires 1 <= c.leaseMaxSeconds && tid in s.tasks && s.tasks[tid] == ProofTask(p, source, GrantRan)
    ensures Serve(c, s, tid, [], done, 1)
         == Drop(s.(cooldowns := C.AfterMark(c.cooldown, s.cooldowns, p.client, s.mono)), tid)
  {
    var marked := s.(cooldowns := C.AfterMark(c.cooldown, s.cooldowns, p.client, s.mono));
    assert Next(c, s, Advance(tid, [], done)) == Drop(marked, tid);
    Last(c, s, marked, tid, [], done, 1);
  }

  lemma GrantServed(c: Config, s: State, tid: nat, p: Proof, source: Endpoint, param: Option<string>, isNew: bool,
                    ran: bool)
    requires 1 <= c.leaseMaxSeconds && tid in s.tasks && s.tasks[tid] == ProofTask(p, source, GrantDue(param, isNew))
    ensures var last := Serve(c, s, tid, [], ran, 2);
            && StoresOf(last) == StoresOf(s).(
                 cooldowns := if ran then C.AfterMark(c.cooldown, s.cooldowns, p.client, s.mono)
                              else s.cooldowns)
            && tid !in last.tasks
  {
    if ran {
      var hooked := Move(Record(s, HOOKED, p, source), tid, ProofTask(p, source, GrantRan));
      assert Next(c, s, Advance(tid, [], ran)) == hooked;
      Stepped(c, s, hooked, tid, [], ran, 2);
      MarkServed(c, hooked, tid, p, source, ran);
    } else {
      assert Next(c, s, Advance(tid, [], ran)) == Drop(s, tid);
      Last(c, s, s, tid, [], ran, 2);
    }
  }

  lemma ConsiderServed(c: Config, s: State, tid: nat, p: Proof, source: Endpoint, param: Option<string>, isNew: bool,
                       ran: bool)
    requires 1 <= c.leaseMaxSeconds && tid in s.tasks && s.tasks[tid] == ProofTask(p, source, Renewed(param, isNew))
    ensures var last := Serve(c, s, tid, [], ran, 3);
            var runs := isNew || !C.Cooling(c.cooldown, s.cooldowns, p.client, s.mono);
            && StoresOf(last) == StoresOf(s).(
                 cooldowns := if runs && ran then C.AfterMark(c.cooldown, s.cooldowns, p.client, s.mono)
                              else s.cooldowns)
            && tid !in last.tasks
  {
    if isNew || !C.Cooling(c.cooldown, s.cooldowns, p.client, s.mono) {
      var due := Move(s, tid, ProofTask(p, source, GrantDue(param, isNew)));
      assert Next(c, s, Advance(tid, [], ran)) == due;
      Stepped(c, s, due, tid, [], ran, 3);
      GrantServed(c, due, tid, p, source, param, isNew, ran);
    } else {
      assert Next(c, s, Advance(tid, [], ran)) == Drop(s, tid);
      Last(c, s, s, tid, [], ran, 3);
    }
  }

  lemma RenewServed(c: Config, s: State, tid: nat, p: Proof, source: Endpoint, param: Option<string>, ran: bool)
    requires 1 <= c.leaseMaxSeconds && !p.bye && tid in s.tasks
    requires s.tasks[tid] == ProofTask(p, source, ProofAccepted(param))
    ensures var last := Serve(c, s, tid, [], ran, 4);
            var runs := !L.Live(s.leases, p.client, s.mono) || !C.Cooling(c.cooldown, s.cooldowns, p.client, s.mono);
            && StoresOf(last) == StoresOf(s).(
                 leases := L.AfterRenew(c.leaseCap, s.leases, p.client, LeaseFor(c, s, p, source, param)),
                 cooldowns := if runs && ran then C.AfterMark(c.cooldown, s.cooldowns, p.client, s.mono)
                              else s.cooldowns)
            && tid !in last.tasks
  {
    var s1 := RenewLease(c, s, tid, s.tasks[tid]);
    assert Next(c, s, Advance(tid, [], ran)) == s1;
    Stepped(c, s, s1, tid, [], ran, 4);
    ConsiderServed(c, s1, tid, p, source, param, !L.Live(s.leases, p.client, s.mono), ran);
  }

  lemma ReleaseServed(c: Config, s: State, tid: nat, p: Proof, source: Endpoint, param: Option<string>, ran: bool)
    requires 1 <= c.leaseMaxSeconds && p.bye && tid in s.tasks
    requires s.tasks[tid] == ProofTask(p, source, ProofAccepted(param))
    ensures var last := Serve(c, s, tid, [], ran, 2);
            StoresOf(last) == StoresOf(s).(leases := s.leases - {p.client}) && tid !in last.tasks
  {
    if p.client !in s.leases {
      assert s.leases == s.leases - {p.client};
      assert Next(c, s, Advance(tid, [], ran)) == Drop(s, tid);
      Last(c, s, s, tid, [], ran, 2);
    } else {
      HeldServed(c, s, tid, p, source, param, ran);
    }
  }

  lemma HeldServed(c: Config, s: State, tid: nat, p: Proof, source: Endpoint, param: Option<string>, ran: bool)
    requires 1 <= c.leaseMaxSeconds && p.bye && tid in s.tasks && p.client in s.leases
    requires s.tasks[tid] == ProofTask(p, source, ProofAccepted(param))
    ensures var last := Serve(c, s, tid, [], ran, 2);
            StoresOf(last) == StoresOf(s).(leases := s.leases - {p.client}) && tid !in last.tasks
  {
    var s1 := ReleaseLease(c, s, tid, s.tasks[tid]);
    assert Next(c, s, Advance(tid, [], ran)) == s1;
    Stepped(c, s, s1, tid, [], ran, 2);
    if c.revokes {
      RevokeServed(c, s1, tid, p, source, ran);
    } else {
      Finished(c, s1, tid, [], ran, 1);
    }
  }

  lemma RevokeServed(c: Config, s: State, tid: nat, p: Proof, source: Endpoint, ran: bool)
    requires 1 <= c.leaseMaxSeconds && tid in s.tasks && s.tasks[tid].ProofTask? && s.tasks[tid].pphase.RevokeDue?
    ensures var last := Serve(c, s, tid, [], ran, 1); StoresOf(last) == StoresOf(s) && tid !in last.tasks
  {
    Stepped(c, s, RunRevoke(s, tid, s.tasks[tid], ran), tid, [], ran, 1);
  }

  /** The state in which the task of a verified packet is at its fourth step. */
  function AtFourth(s: State, tid: nat, p: Proof, source: Endpoint, param: Option<string>): State {
    var claimed := Move(Record(Consume(s, p, source), CONSUMED, p, source), tid, ProofTask(p, source, ProofClaimed));
    Verify(claimed, tid, claimed.tasks[tid], param)
  }

  lemma VerifiedServed(c: Config, s: State, tid: nat, p: Proof, source: Endpoint, ran: bool, k: nat)
    requires 1 <= c.leaseMaxSeconds && tid in s.tasks && s.tasks[tid] == ProofTask(p, source, ProofArrived) && k >= 3
    requires Verified(c, StoresOf(s), p, source, s.wall, s.wall)
    ensures Serve(c, s, tid, [], ran, k)
         == Serve(c, AtFourth(s, tid, p, source, AdmitParam(c, p.param).value), tid, [], ran, k - 3)
  {
    ProofPasses(c, s, tid, p, source, ran, k);
    var claimed := Move(Record(Consume(s, p, source), CONSUMED, p, source), tid, ProofTask(p, source, ProofClaimed));
    VerifyServed(c, claimed, tid, p, source, ran, k - 2);
  }

  /** `s1` is the state in which the task is at its fourth step. */
  predicate Fourth(c: Config, s: State, s1: State, tid: nat, p: Proof, source: Endpoint) {
    && Verified(c, StoresOf(s), p, source, s.wall, s.wall)
    && StoresOf(s1) == AfterProof(c, StoresOf(s), p, source, s.wall, s.wall)
                         .(verified := s.verified + (if p.bye then 0 else 1))
    && s1.wall == s.wall && s1.mono == s.mono
    && tid in s1.tasks && s1.tasks[tid] == ProofTask(p, source, ProofAccepted(AdmitParam(c, p.param).value))
  }

  lemma FourthStores(c: Config, s: State, tid: nat, p: Proof, source: Endpoint, param: Option<string>)
    requires Verified(c, StoresOf(s), p, source, s.wall, s.wall) && param == AdmitParam(c, p.param).value
    ensures Fourth(c, s, AtFourth(s, tid, p, source, param), tid, p, source)
  {
  }

  lemma UnverifiedServed(c: Config, s: State, tid: nat, p: Proof, source: Endpoint, ran: bool, k: nat)
    requires 1 <= c.leaseMaxSeconds && tid in s.tasks && s.tasks[tid] == ProofTask(p, source, ProofArrived) && k >= 3
    requires !Verified(c, StoresOf(s), p, source, s.wall, s.wall)
    ensures var last := Serve(c, s, tid, [], ran, k);
            StoresOf(last) == AfterProof(c, StoresOf(s), p, source, s.wall, s.wall) && tid !in last.tasks
  {
    if ChecksOut(c, s, p, source) {
      ProofPasses(c, s, tid, p, source, ran, k);
      var claimed := Move(Record(Consume(s, p, source), CONSUMED, p, source), tid, ProofTask(p, source, ProofClaimed));
      VerifyServed(c, claimed, tid, p, source, ran, k - 2);
    } else {
      ProofFails(c, s, tid, p, source, ran, k);
    }
  }

  lemma ResponseIs(c: Config, d: Stores, p: Proof, source: Endpoint, ran: bool, wall: i64, mono: Instant,
                   lease: L.Lease)
    requires 1 <= c.leaseMaxSeconds && Verified(c, d, p, source, wall, wall)
    requires var ttl := L.LeaseTtl(p.interval, c.multiplier, c.leaseMaxSeconds) * NANOS_PER_SECOND;
             lease == L.Lease(mono + ttl, source.ip, source.port, AdmitParam(c, p.param).value)
    ensures var runs := !L.Live(d.leases, p.client, mono) || !C.Cooling(c.cooldown, d.cooldowns, p.client, mono);
            AfterResponse(c, d, p, source, ran, wall, wall, mono)
              == AfterProof(c, d, p, source, wall, wall).(
                   verified := d.verified + 1,
                   leases := L.AfterRenew(c.leaseCap, d.leases, p.client, lease),
                   cooldowns := if runs && ran then C.AfterMark(c.cooldown, d.cooldowns, p.client, mono)
                                else d.cooldowns)
  {
  }

  lemma RenewsFrom(c: Config, s: State, s1: State, tid: nat, p: Proof, source: Endpoint, ran: bool)
    requires 1 <= c.leaseMaxSeconds && !p.bye && Fourth(c, s, s1, tid, p, source)
    ensures var last := Serve(c, s1, tid, [], ran, 4);
            && StoresOf(last) == AfterResponse(c, StoresOf(s), p, source, ran, s.wall, s.wall, s.mono)
            && tid !in last.tasks
  {
    var param := AdmitParam(c, p.param).value;
    RenewServed(c, s1, tid, p, source, param, ran);
    ResponseIs(c, StoresOf(s), p, source, ran, s.wall, s.mono, LeaseFor(c, s1, p, source, param));
  }

  lemma ReleasesFrom(c: Config, s: State, s1: State, tid: nat, p: Proof, source: Endpoint, ran: bool)
    requires 1 <= c.leaseMaxSeconds && p.bye && Fourth(c, s, s1, tid, p, source)
    ensures var last := Serve(c, s1, tid, [], ran, 2);
            StoresOf(last) == AfterBye(c, StoresOf(s), p, source, s.wall, s.wall) && tid !in last.tasks
  {
    ReleaseServed(c, s1, tid, p, source, AdmitParam(c, p.param).value, ran);
  }

  lemma ResponseServed(c: Config, s: State, tid: nat, p: Proof, source: Endpoint, ran: bool)
    requires 1 <= c.leaseMaxSeconds && !p.bye && tid in s.tasks && s.tasks[tid] == ProofTask(p, source, ProofArrived)
    ensures var last := Serve(c, s, tid, [], ran, 7);
            && StoresOf(last) == AfterResponse(c, StoresOf(s), p, source, ran, s.wall, s.wall, s.mono)
            && tid !in last.tasks
  {
    if Verified(c, StoresOf(s), p, source, s.wall, s.wall) {
      var param := AdmitParam(c, p.param).value;
      VerifiedServed(c, s, tid, p, source, ran, 7);
      FourthStores(c, s, tid, p, source, param);
      RenewsFrom(c, s, AtFourth(s, tid, p, source, param), tid, p, source, ran);
    } else {
      UnverifiedServed(c, s, tid, p, source, ran, 7);
    }
  }

  lemma ByeServed(c: Config, s: State, tid: nat, p: Proof, source: Endpoint, ran: bool)
    requires 1 <= c.leaseMaxSeconds && p.bye && tid in s.tasks && s.tasks[tid] == ProofTask(p, source, ProofArrived)
    ensures var last := Serve(c, s, tid, [], ran, 5);
            StoresOf(last) == AfterBye(c, StoresOf(s), p, source, s.wall, s.wall) && tid !in last.tasks
  {
    if Verified(c, StoresOf(s), p, source, s.wall, s.wall) {
      var param := AdmitParam(c, p.param).value;
      VerifiedServed(c, s, tid, p, source, ran, 5);
      FourthStores(c, s, tid, p, source, param);
      ReleasesFrom(c, s, AtFourth(s, tid, p, source, param), tid, p, source, ran);
    } else {
      UnverifiedServed(c, s, tid, p, source, ran, 5);
    }
  }

  // ----- Main results -----

  /** The HELLO handler is its task run to the end. */
  lemma HelloHandlerIsItsTask(c: Config, s: State, tid: nat, h: Hello, source: Endpoint, nonce: Bytes, sent: bool,
                              last: State)
    requires 1 <= c.leaseMaxSeconds && tid in s.tasks && s.tasks[tid] == HelloTask(h, source, HelloArrived)
    requires nonce !in s.minted && Path(c, s, Turns(tid, nonce, sent, 4), last)
    ensures StoresOf(last) == AfterHello(c, StoresOf(s), h, source, nonce, sent, s.wall, s.mono)
    ensures tid !in last.tasks
  {
    ServePath(c, s, tid, nonce, sent, 4, last);
    HelloServed(c, s, tid, h, source, nonce, sent);
  }

  /** The RESPONSE handler is its task run to the end. */
  lemma ResponseHandlerIsItsTask(c: Config, s: State, tid: nat, p: Proof, source: Endpoint, ran: bool, last: State)
    requires 1 <= c.leaseMaxSeconds && !p.bye && tid in s.tasks && s.tasks[tid] == ProofTask(p, source, ProofArrived)
    requires Path(c, s, Turns(tid, [], ran, 7), last)
    ensures StoresOf(last) == AfterResponse(c, StoresOf(s), p, source, ran, s.wall, s.wall, s.mono)
    ensures tid !in last.tasks
  {
    ServePath(c, s, tid, [], ran, 7, last);
    ResponseServed(c, s, tid, p, source, ran);
  }

  /** The BYE handler is its task run to the end. */
  lemma ByeHandlerIsItsTask(c: Config, s: State, tid: nat, p: Proof, source: Endpoint, ran: bool, last: State)
    requires 1 <= c.leaseMaxSeconds && p.bye && tid in s.tasks && s.tasks[tid] == ProofTask(p, source, ProofArrived)
    requires Path(c, s, Turns(tid, [], ran, 5), last)
    ensures StoresOf(last) == AfterBye(c, StoresOf(s), p, source, s.wall, s.wall)
    ensures tid !in last.tasks
  {
    ServePath(c, s, tid, [], ran, 5, last);
    ByeServed(c, s, tid, p, source, ran);
  }

  /** The purges and the scan of one cleanup tick, in the order of the code. */
  function TickSteps(): seq<Step> {
    [PurgeNonces] + ([PurgeSeen] + ([PurgeRates] + ([PurgeCooldowns] + ([ScanLeases] + []))))
  }

  /** The cleanup tick is its five steps in the machine, and touches nothing but the stores. */
  lemma TickIsItsSteps(c: Config, s: State, last: State)
    requires 1 <= c.leaseMaxSeconds && Path(c, s, TickSteps(), last)
    ensures StoresOf(last) == AfterTick(c, StoresOf(s), s.wall, s.mono)
    ensures last == s.(nonces := last.nonces, seen := last.seen, rates := last.rates, cooldowns := last.cooldowns,
                       leases := last.leases)
  {
    var s1 := s.(nonces := N.AfterPurge(s.nonces, s.wall));
    var s2 := s1.(seen := AfterPurge(s.seen, s.wall));
    var s3 := s2.(rates := H.AfterPurge(c.limits, s.rates, s.mono));
    var s4 := s3.(cooldowns := C.AfterPurge(c.cooldown, s.cooldowns, s.mono));
    var s5 := s4.(leases := L.AfterScan(s.leases, s.mono));
    Cons(c, s, PurgeNonces, [PurgeSeen] + ([PurgeRates] + ([PurgeCooldowns] + ([ScanLeases] + []))), last);
    Cons(c, s1, PurgeSeen, [PurgeRates] + ([PurgeCooldowns] + ([ScanLeases] + [])), last);
    Cons(c, s2, PurgeRates, [PurgeCooldowns] + ([ScanLeases] + []), last);
    Cons(c, s3, PurgeCooldowns, [ScanLeases] + [], last);
    Cons(c, s4, ScanLeases, [], last);
    Stayed(c, s5, last);
  }
}
