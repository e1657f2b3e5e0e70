/** An honest client gets through: its HELLO is challenged, and its answer is verified, with
    anything at all happening in between. */
module Completion {
  import opened Types
  import opened SigningText
  import opened Handshake
  import opened Runs
  import opened SeenCaches
  import opened Clients
  import A = Agreement
  import G = HelloAgreement
  import N = NonceStores
  import L = Leases
  import C = Cooldowns
  import H = HelloLimits

  // ----- What no step undoes -----

  lemma MintedStays(c: Config, s: State, step: Step, nonce: Bytes)
    requires 1 <= c.leaseMaxSeconds && nonce in s.minted
    ensures nonce in Next(c, s, step).minted && Next(c, s, step).minted[nonce] == s.minted[nonce]
  {
    match step {
      case Advance(tid, other, done) =>
        if tid in s.tasks {
          if s.tasks[tid].ProofTask? {
            G.ProofStepSame(c, s, tid, other, done);
          } else {
            HelloStepMinted(c, s, tid, other, done, nonce);
          }
        }
      case Tick(wall, mono) => A.TickSame(c, s, wall, mono);
      case _ =>
    }
  }

  lemma LimitMinted(c: Config, s: State, tid: nat, t: Task)
    requires t.HelloTask?
    ensures LimitHello(c, s, tid, t).minted == s.minted
  {
    var s1 := s.(rates := H.AfterCheck(c.limits, s.rates, t.source.ip, s.mono));
    assert Move(s1, tid, t.(hphase := HelloAdmitted)).minted == Drop(s1, tid).minted == s.minted;
  }

  lemma AcceptMinted(c: Config, s: State, tid: nat, t: Task)
    requires t.HelloTask?
    ensures AcceptHello(c, s, tid, t).minted == s.minted
  {
    assert Move(G.Accepted(c, s, t.hello), tid, t.(hphase := HelloFresh(s.wall))).minted == Drop(s, tid).minted
           == s.minted;
  }

  lemma MintMinted(c: Config, s: State, tid: nat, t: Task, other: Bytes, nonce: Bytes)
    requires t.HelloTask? && t.hphase.HelloFresh? && nonce in s.minted
    ensures var s1 := MintNonce(c, s, tid, t, other); nonce in s1.minted && s1.minted[nonce] == s.minted[nonce]
  {
  }

  lemma HelloStepMinted(c: Config, s: State, tid: nat, other: Bytes, done: bool, nonce: Bytes)
    requires 1 <= c.leaseMaxSeconds && nonce in s.minted && tid in s.tasks && s.tasks[tid].HelloTask?
    ensures var s1 := Resume(c, s, tid, other, done); nonce in s1.minted && s1.minted[nonce] == s.minted[nonce]
  {
    var t := s.tasks[tid];
    match t.hphase {
      case HelloArrived => LimitMinted(c, s, tid, t);
      case HelloAdmitted => AcceptMinted(c, s, tid, t);
      case HelloFresh(_) => MintMinted(c, s, tid, t, other, nonce);
      case Challenged(_) => assert SendChallenge(s, tid, done).minted == s.minted;
    }
  }

  /** What a nonce was minted for never changes. */
  lemma {:induction false} MintedForGood(c: Config, s: State, steps: seq<Step>, s1: State, nonce: Bytes)
    requires 1 <= c.leaseMaxSeconds && nonce in s.minted && Path(c, s, steps, s1)
    ensures nonce in s1.minted && s1.minted[nonce] == s.minted[nonce]
    decreases |steps|
  {
    if steps == [] {
      Stayed(c, s, s1);
    } else {
      var before := SplitLast(c, s, steps, s1);
      MintedForGood(c, s, steps[..|steps| - 1], before, nonce);
      MintedStays(c, before, steps[|steps| - 1], nonce);
    }
  }

  // ----- The first half: HELLO and CHALLENGE -----

  /** The client signs and sends a HELLO, and its task runs to the end: the CHALLENGE goes out. */
  function HelloSteps(tid: nat, h: Hello, message: Message, source: Endpoint, nonce: Bytes): seq<Step> {
    [Sign(h.client, message)] + ([Deliver(tid, HelloPacket(h), source)] + Turns(tid, nonce, true, 4))
  }

  /** The same, as one function of the state. */
  function HelloExchange(c: Config, s: State, tid: nat, h: Hello, message: Message, source: Endpoint,
                         nonce: Bytes): State
    requires 1 <= c.leaseMaxSeconds
  {
    var s1 := Next(c, s, Sign(h.client, message));
    var s2 := Next(c, s1, Deliver(tid, HelloPacket(h), source));
    Four(c, s2, tid, nonce)
  }

  /** Four steps of one task. */
  function Four(c: Config, s: State, tid: nat, nonce: Bytes): State
    requires 1 <= c.leaseMaxSeconds
  {
    var go := Advance(tid, nonce, true);
    Next(c, Next(c, Next(c, Next(c, s, go), go), go), go)
  }

  lemma FourTurns(c: Config, s: State, tid: nat, nonce: Bytes, s1: State)
    requires 1 <= c.leaseMaxSeconds && Path(c, s, Turns(tid, nonce, true, 4), s1)
    ensures s1 == Four(c, s, tid, nonce)
  {
    var go := Advance(tid, nonce, true);
    Turn(c, s, tid, nonce, true, 4, s1);
    Turn(c, Next(c, s, go), tid, nonce, true, 3, s1);
    Turn(c, Next(c, Next(c, s, go), go), tid, nonce, true, 2, s1);
    Turn(c, Next(c, Next(c, Next(c, s, go), go), go), tid, nonce, true, 1, s1);
    Stayed(c, Four(c, s, tid, nonce), s1);
  }

  lemma HelloPath(c: Config, s: State, tid: nat, h: Hello, message: Message, source: Endpoint, nonce: Bytes, s1: State)
    requires 1 <= c.leaseMaxSeconds && Path(c, s, HelloSteps(tid, h, message, source, nonce), s1)
    ensures s1 == HelloExchange(c, s, tid, h, message, source, nonce)
  {
    var signed := Next(c, s, Sign(h.client, message));
    var deliver := Deliver(tid, HelloPacket(h), source);
    Cons(c, s, Sign(h.client, message), [deliver] + Turns(tid, nonce, true, 4), s1);
    Cons(c, signed, deliver, Turns(tid, nonce, true, 4), s1);
    FourTurns(c, Next(c, signed, deliver), tid, nonce, s1);
  }

  /** The server's conditions on a HELLO: its client is configured and within the rate limit, its
      timestamp is no further from the server's clock than the skew, either way, and the replay
      cache does not hold it. */
  predicate Admits(c: Config, s: State, h: Hello, source: Endpoint) {
    && h.client in c.clients
    && H.Allows(c.limits, s.rates, source.ip, s.mono)
    && h.timestamp - c.skew <= s.wall <= h.timestamp + c.skew
    && ((h.client, h.helloNonce) in s.seen ==> s.seen[(h.client, h.helloNonce)] < s.wall)
  }

  lemma LimitedNext(c: Config, s: State, tid: nat, h: Hello, source: Endpoint, nonce: Bytes)
    requires 1 <= c.leaseMaxSeconds && tid in s.tasks && s.tasks[tid] == HelloTask(h, source, HelloArrived)
    requires H.Allows(c.limits, s.rates, source.ip, s.mono)
    ensures Next(c, s, Advance(tid, nonce, true))
         == s.(rates := H.AfterCheck(c.limits, s.rates, source.ip, s.mono),
               tasks := s.tasks[tid := HelloTask(h, source, HelloAdmitted)])
  {
  }

  lemma FreshNext(c: Config, s: State, tid: nat, h: Hello, source: Endpoint, nonce: Bytes)
    requires 1 <= c.leaseMaxSeconds && tid in s.tasks && s.tasks[tid] == HelloTask(h, source, HelloAdmitted)
    requires AcceptsHello(c, s, h)
    ensures Next(c, s, Advance(tid, nonce, true))
            == Move(G.Accepted(c, s, h), tid, HelloTask(h, source, HelloFresh(s.wall)))
  {
  }

  lemma MintedNext(c: Config, s: State, tid: nat, h: Hello, source: Endpoint, nonce: Bytes, at: i64)
    requires 1 <= c.leaseMaxSeconds && tid in s.tasks && s.tasks[tid] == HelloTask(h, source, HelloFresh(at))
    requires nonce !in s.minted
    ensures Next(c, s, Advance(tid, nonce, true))
         == Move(Mint(c, s, h, source, nonce, AddClamped(at, c.nonceTtl)), tid, HelloTask(h, source, Challenged(nonce)))
  {
  }

  lemma SentNext(c: Config, s: State, tid: nat, h: Hello, source: Endpoint, nonce: Bytes)
    requires 1 <= c.leaseMaxSeconds && tid in s.tasks && s.tasks[tid] == HelloTask(h, source, Challenged(nonce))
    ensures Next(c, s, Advance(tid, nonce, true)) == Drop(s.(hellosAccepted := s.hellosAccepted + 1), tid)
  {
  }

  lemma ArrivalNext(c: Config, s: State, tid: nat, d: Datagram, source: Endpoint)
    requires 1 <= c.leaseMaxSeconds && tid !in s.tasks && Available(s, SignatureIn(d))
    ensures Next(c, s, Deliver(tid, d, source)) == Move(s, tid, NewTask(d, source))
  {
  }

  /** The state once the HELLO is accepted. */
  function AfterHello(c: Config, s: State, h: Hello, source: Endpoint): State {
    G.Accepted(c, s.(signed := s.signed + {(h.client, HelloText(c, h))},
                     rates := H.AfterCheck(c.limits, s.rates, source.ip, s.mono)), h)
  }

  lemma HelloArrives(c: Config, s: State, tid: nat, h: Hello, source: Endpoint)
    requires 1 <= c.leaseMaxSeconds && tid !in s.tasks && Verifies(h.signature, h.client, HelloText(c, h))
    ensures Next(c, Next(c, s, Sign(h.client, HelloText(c, h))), Deliver(tid, HelloPacket(h), source))
         == Move(s.(signed := s.signed + {(h.client, HelloText(c, h))}), tid, HelloTask(h, source, HelloArrived))
  {
    ArrivalNext(c, Next(c, s, Sign(h.client, HelloText(c, h))), tid, HelloPacket(h), source);
  }

  lemma HelloGetsIn(c: Config, s: State, tid: nat, h: Hello, source: Endpoint, nonce: Bytes)
    requires 1 <= c.leaseMaxSeconds && Admits(c, s, h, source) && Verifies(h.signature, h.client, HelloText(c, h))
    ensures var arrived := Move(s.(signed := s.signed + {(h.client, HelloText(c, h))}), tid,
                                HelloTask(h, source, HelloArrived));
            Next(c, Next(c, arrived, Advance(tid, nonce, true)), Advance(tid, nonce, true))
              == Move(AfterHello(c, s, h, source), tid, HelloTask(h, source, HelloFresh(s.wall)))
  {
    var arrived := Move(s.(signed := s.signed + {(h.client, HelloText(c, h))}), tid,
                        HelloTask(h, source, HelloArrived));
    var task := HelloTask(h, source, HelloAdmitted);
    var limited := Move(arrived.(rates := H.AfterCheck(c.limits, s.rates, source.ip, s.mono)), tid, task);
    LimitedNext(c, arrived, tid, h, source, nonce);
    assert Next(c, arrived, Advance(tid, nonce, true)) == limited;
    FreshNext(c, limited, tid, h, source, nonce);
  }

  lemma ChallengeGoesOut(c: Config, s: State, tid: nat, h: Hello, source: Endpoint, nonce: Bytes, at: i64)
    requires 1 <= c.leaseMaxSeconds && tid !in s.tasks && nonce !in s.minted
    ensures var accepted := Move(s, tid, HelloTask(h, source, HelloFresh(at)));
            var minted := Next(c, accepted, Advance(tid, nonce, true));
            Next(c, minted, Advance(tid, nonce, true))
              == Mint(c, s, h, source, nonce, AddClamped(at, c.nonceTtl)).(hellosAccepted := s.hellosAccepted + 1)
  {
    var accepted := Move(s, tid, HelloTask(h, source, HelloFresh(at)));
    MintedNext(c, accepted, tid, h, source, nonce, at);
    var minted := Move(Mint(c, accepted, h, source, nonce, AddClamped(at, c.nonceTtl)), tid,
                       HelloTask(h, source, Challenged(nonce)));
    SentNext(c, minted, tid, h, source, nonce);
    assert s.tasks[tid := HelloTask(h, source, Challenged(nonce))] - {tid} == s.tasks;
  }

  lemma ExchangeIs(c: Config, s: State, tid: nat, h: Hello, source: Endpoint, nonce: Bytes)
    requires 1 <= c.leaseMaxSeconds && tid !in s.tasks && nonce !in s.minted && Admits(c, s, h, source)
    requires Verifies(h.signature, h.client, HelloText(c, h))
    ensures HelloExchange(c, s, tid, h, HelloText(c, h), source, nonce)
         == Mint(c, AfterHello(c, s, h, source), h, source, nonce, AddClamped(s.wall, c.nonceTtl))
              .(hellosAccepted := s.hellosAccepted + 1)
  {
    HelloArrives(c, s, tid, h, source);
    HelloGetsIn(c, s, tid, h, source, nonce);
    ChallengeGoesOut(c, AfterHello(c, s, h, source), tid, h, source, nonce, s.wall);
  }

  lemma ChallengeEffects(c: Config, s: State, h: Hello, source: Endpoint, nonce: Bytes)
    ensures var s1 := Mint(c, AfterHello(c, s, h, source), h, source, nonce, AddClamped(s.wall, c.nonceTtl));
            && s1.minted
               == s.minted[nonce := Binding(h.client, source, Min(s.wall + c.nonceTtl, I64_MAX), HelloText(c, h))]
            && s1.nonces
               == s.nonces[nonce := N.NonceEntry(h.client, source, s.wall, Min(s.wall + c.nonceTtl, I64_MAX), false)]
            && s1.accepted == s.accepted + multiset{HelloText(c, h)}
            && s1.tasks == s.tasks && s1.wall == s.wall && s1.leases == s.leases && s1.log == s.log
            && (Accepts(s.seen, (h.client, h.helloNonce), s.wall) ==>
                  s1.seen == s.seen[(h.client, h.helloNonce) := Min(s.wall + Min(2 * c.skew, U64_MAX), I64_MAX)])
  {
  }

  /** A HELLO that the server admits gets a nonce minted for exactly this client and endpoint,
      valid for the configured time from now. */
  lemma HelloIsChallenged(c: Config, s: State, t: Target, tid: nat, h: Hello, source: Endpoint, nonce: Bytes, s1: State)
    requires 1 <= c.leaseMaxSeconds && t.server == c.server && tid !in s.tasks && nonce !in s.minted
    requires h == HelloFor(t, h.client, h.timestamp, h.helloNonce)
    requires h.client in c.clients && H.Allows(c.limits, s.rates, source.ip, s.mono)
    requires h.timestamp - c.skew <= s.wall <= h.timestamp + c.skew
    requires (h.client, h.helloNonce) in s.seen ==> s.seen[(h.client, h.helloNonce)] < s.wall
    requires Path(c, s, HelloSteps(tid, h, HelloText(c, h), source, nonce), s1)
    ensures s1.minted == s.minted[nonce := Binding(h.client, source, Min(s.wall + c.nonceTtl, I64_MAX),
                                                   HelloText(c, h))]
    ensures s1.nonces
         == s.nonces[nonce := N.NonceEntry(h.client, source, s.wall, Min(s.wall + c.nonceTtl, I64_MAX), false)]
    ensures s1.seen == s.seen[(h.client, h.helloNonce) := Min(s.wall + Min(2 * c.skew, U64_MAX), I64_MAX)]
    ensures s1.hellosAccepted == s.hellosAccepted + 1 && s1.accepted == s.accepted + multiset{HelloText(c, h)}
    ensures s1.tasks == s.tasks && s1.wall == s.wall && s1.leases == s.leases && s1.log == s.log
  {
    HelloPath(c, s, tid, h, HelloText(c, h), source, nonce, s1);
    ExchangeIs(c, s, tid, h, source, nonce);
    ChallengeEffects(c, s, h, source, nonce);
    var s2 := Mint(c, AfterHello(c, s, h, source), h, source, nonce, AddClamped(s.wall, c.nonceTtl));
    assert s1 == s2.(hellosAccepted := s.hellosAccepted + 1);
  }

  /** A task that is gone takes no more steps. */
  lemma Idle(c: Config, s: State, tid: nat, nonce: Bytes)
    requires 1 <= c.leaseMaxSeconds && tid !in s.tasks
    ensures Next(c, s, Advance(tid, nonce, true)) == s
  {
  }

  lemma EndsAtTwo(c: Config, s: State, s1: State, s2: State, tid: nat, nonce: Bytes)
    requires 1 <= c.leaseMaxSeconds && tid !in s2.tasks
    requires Next(c, s, Advance(tid, nonce, true)) == s1 && Next(c, s1, Advance(tid, nonce, true)) == s2
    ensures Four(c, s, tid, nonce) == s2
  {
    Idle(c, s2, tid, nonce);
  }

  lemma Departs(s: State, tid: nat, t: Task)
    requires tid !in s.tasks
    ensures Drop(Move(s, tid, t), tid) == s
  {
    TaskGone(s.tasks, tid, t);
  }

  lemma Limited(s: State, tid: nat, t: Task, t1: Task, rates: H.Table)
    ensures Move(s, tid, t).(rates := rates, tasks := Move(s, tid, t).tasks[tid := t1])
            == Move(s.(rates := rates), tid, t1)
    ensures Move(s, tid, t).(rates := rates) == Move(s.(rates := rates), tid, t)
  {
    assert s.tasks[tid := t][tid := t1] == s.tasks[tid := t1];
  }

  lemma RefusedNext(c: Config, s: State, tid: nat, h: Hello, source: Endpoint, nonce: Bytes)
    requires 1 <= c.leaseMaxSeconds && tid in s.tasks && s.tasks[tid] == HelloTask(h, source, HelloAdmitted)
    requires !AcceptsHello(c, s, h)
    ensures Next(c, s, Advance(tid, nonce, true)) == Drop(s, tid)
  {
  }

  lemma OverLimitNext(c: Config, s: State, tid: nat, h: Hello, source: Endpoint, nonce: Bytes)
    requires 1 <= c.leaseMaxSeconds && tid in s.tasks && s.tasks[tid] == HelloTask(h, source, HelloArrived)
    requires !H.Allows(c.limits, s.rates, source.ip, s.mono)
    ensures Next(c, s, Advance(tid, nonce, true))
         == Drop(s.(rates := H.AfterCheck(c.limits, s.rates, source.ip, s.mono)), tid)
  {
  }

  lemma OverLimitRuns(c: Config, s: State, tid: nat, h: Hello, source: Endpoint, nonce: Bytes)
    requires 1 <= c.leaseMaxSeconds && tid !in s.tasks && !H.Allows(c.limits, s.rates, source.ip, s.mono)
    ensures Four(c, Move(s, tid, HelloTask(h, source, HelloArrived)), tid, nonce)
         == s.(rates := H.AfterCheck(c.limits, s.rates, source.ip, s.mono))
  {
    var s1 := s.(rates := H.AfterCheck(c.limits, s.rates, source.ip, s.mono));
    var task := HelloTask(h, source, HelloArrived);
    OverLimitNext(c, Move(s, tid, task), tid, h, source, nonce);
    Limited(s, tid, task, task, s1.rates);
    Departs(s1, tid, task);
    Idle(c, s1, tid, nonce);
    EndsAtTwo(c, Move(s, tid, task), s1, s1, tid, nonce);
  }

  lemma RefusedRuns(c: Config, s: State, tid: nat, h: Hello, source: Endpoint, nonce: Bytes)
    requires 1 <= c.leaseMaxSeconds && tid !in s.tasks && H.Allows(c.limits, s.rates, source.ip, s.mono)
    requires !AcceptsHello(c, s, h)
    ensures Four(c, Move(s, tid, HelloTask(h, source, HelloArrived)), tid, nonce)
         == s.(rates := H.AfterCheck(c.limits, s.rates, source.ip, s.mono))
  {
    var s1 := s.(rates := H.AfterCheck(c.limits, s.rates, source.ip, s.mono));
    var arrived, admitted := HelloTask(h, source, HelloArrived), HelloTask(h, source, HelloAdmitted);
    LimitedNext(c, Move(s, tid, arrived), tid, h, source, nonce);
    Limited(s, tid, arrived, admitted, s1.rates);
    RefusedNext(c, Move(s1, tid, admitted), tid, h, source, nonce);
    Departs(s1, tid, admitted);
    EndsAtTwo(c, Move(s, tid, arrived), Move(s1, tid, admitted), s1, tid, nonce);
  }

  /** What the exchange leaves behind when the HELLO is refused. */
  lemma RefusalIs(c: Config, s: State, tid: nat, h: Hello, source: Endpoint, nonce: Bytes)
    requires 1 <= c.leaseMaxSeconds && tid !in s.tasks && !Admits(c, s, h, source)
    requires Verifies(h.signature, h.client, HelloText(c, h))
    ensures HelloExchange(c, s, tid, h, HelloText(c, h), source, nonce)
         == s.(signed := s.signed + {(h.client, HelloText(c, h))},
               rates := H.AfterCheck(c.limits, s.rates, source.ip, s.mono))
  {
    var signed := s.(signed := s.signed + {(h.client, HelloText(c, h))});
    HelloArrives(c, s, tid, h, source);
    if H.Allows(c.limits, s.rates, source.ip, s.mono) {
      RefusedRuns(c, signed, tid, h, source, nonce);
    } else {
      OverLimitRuns(c, signed, tid, h, source, nonce);
    }
  }

  /** In any state at all, a HELLO signed by the client it names gets its nonce if and only if the
      client is configured and within the rate limit, the timestamp is at most the skew behind or
      ahead of the server's clock, and the replay cache does not hold the HELLO. Any other leaves
      everything the server stores, except the rate table, as it was. */
  lemma HelloIsAnsweredIff(c: Config, s: State, t: Target, tid: nat, h: Hello, source: Endpoint, nonce: Bytes,
                           s1: State)
    requires 1 <= c.leaseMaxSeconds && t.server == c.server && tid !in s.tasks && nonce !in s.minted
    requires h == HelloFor(t, h.client, h.timestamp, h.helloNonce)
    requires Path(c, s, HelloSteps(tid, h, HelloText(c, h), source, nonce), s1)
    ensures nonce in s1.minted <==>
              && h.client in c.clients && H.Allows(c.limits, s.rates, source.ip, s.mono)
              && h.timestamp - c.skew <= s.wall <= h.timestamp + c.skew
              && ((h.client, h.helloNonce) in s.seen ==> s.seen[(h.client, h.helloNonce)] < s.wall)
    ensures nonce !in s1.minted ==>
              s1 == s.(signed := s.signed + {(h.client, HelloText(c, h))}, rates := s1.rates)
  {
    if Admits(c, s, h, source) {
      HelloIsChallenged(c, s, t, tid, h, source, nonce, s1);
    } else {
      HelloPath(c, s, tid, h, HelloText(c, h), source, nonce, s1);
      RefusalIs(c, s, tid, h, source, nonce);
    }
  }

  // ----- The second half: RESPONSE or BYE -----

  lemma CheckedNext(c: Config, s: State, tid: nat, p: Proof, source: Endpoint)
    requires 1 <= c.leaseMaxSeconds && tid in s.tasks && s.tasks[tid] == ProofTask(p, source, ProofArrived)
    requires ChecksOut(c, s, p, source)
    ensures Next(c, s, Advance(tid, [], true)) == Move(s, tid, ProofTask(p, source, ProofChecked))
  {
  }

  lemma ClaimedNext(c: Config, s: State, tid: nat, p: Proof, source: Endpoint)
    requires 1 <= c.leaseMaxSeconds && tid in s.tasks && s.tasks[tid] == ProofTask(p, source, ProofChecked)
    requires N.Validated(s.nonces, p.nonce, p.client, source, s.wall).Ok?
    ensures Next(c, s, Advance(tid, [], true))
         == Move(Record(Consume(s, p, source), CONSUMED, p, source), tid, ProofTask(p, source, ProofClaimed))
  {
  }

  lemma VerifiedNext(c: Config, s: State, tid: nat, p: Proof, source: Endpoint, param: Option<string>)
    requires 1 <= c.leaseMaxSeconds && tid in s.tasks && s.tasks[tid] == ProofTask(p, source, ProofClaimed)
    requires AdmitParam(c, p.param) == Some(param)
    ensures Next(c, s, Advance(tid, [], true)) == Verify(s, tid, ProofTask(p, source, ProofClaimed), param)
  {
  }

  /** The client signs and sends its answer, and the answer's task takes its first `k` steps. */
  function AnswerSteps(tid: nat, p: Proof, message: Message, source: Endpoint, k: nat): seq<Step> {
    [Sign(p.client, message)] + ([Deliver(tid, ProofPacket(p), source)] + Turns(tid, [], true, k))
  }

  /** The state after three of them. */
  function AnswerExchange(c: Config, s: State, tid: nat, p: Proof, message: Message, source: Endpoint): State
    requires 1 <= c.leaseMaxSeconds
  {
    var s1 := Next(c, s, Sign(p.client, message));
    var s2 := Next(c, s1, Deliver(tid, ProofPacket(p), source));
    var checked := Next(c, s2, Advance(tid, [], true));
    var claimed := Next(c, checked, Advance(tid, [], true));
    Next(c, claimed, Advance(tid, [], true))
  }

  lemma AnswerPath(c: Config, s: State, tid: nat, p: Proof, message: Message, source: Endpoint, k: nat, last: State)
    requires 1 <= c.leaseMaxSeconds && k >= 3 && Path(c, s, AnswerSteps(tid, p, message, source, k), last)
    ensures Path(c, AnswerExchange(c, s, tid, p, message, source), Turns(tid, [], true, k - 3), last)
  {
    var s1 := Next(c, s, Sign(p.client, message));
    var deliver, go := Deliver(tid, ProofPacket(p), source), Advance(tid, [], true);
    Cons(c, s, Sign(p.client, message), [deliver] + Turns(tid, [], true, k), last);
    Cons(c, s1, deliver, Turns(tid, [], true, k), last);
    var s2 := Next(c, s1, deliver);
    Turn(c, s2, tid, [], true, k, last);
    Turn(c, Next(c, s2, go), tid, [], true, k - 1, last);
    Turn(c, Next(c, Next(c, s2, go), go), tid, [], true, k - 2, last);
  }

  lemma AnswerArrives(c: Config, s: State, tid: nat, p: Proof, message: Message, source: Endpoint)
    requires 1 <= c.leaseMaxSeconds && tid !in s.tasks && Verifies(p.signature, p.client, message)
    ensures Next(c, Next(c, s, Sign(p.client, message)), Deliver(tid, ProofPacket(p), source))
         == Move(s.(signed := s.signed + {(p.client, message)}), tid, ProofTask(p, source, ProofArrived))
  {
    ArrivalNext(c, Next(c, s, Sign(p.client, message)), tid, ProofPacket(p), source);
  }

  /** The state once the nonce is consumed. */
  function AfterClaim(s: State, p: Proof, message: Message, source: Endpoint): State {
    Record(Consume(s.(signed := s.signed + {(p.client, message)}), p, source), CONSUMED, p, source)
  }

  lemma AnswerClaims(c: Config, s: State, tid: nat, p: Proof, message: Message, source: Endpoint)
    requires 1 <= c.leaseMaxSeconds && ChecksOut(c, s, p, source)
    ensures var arrived := Move(s.(signed := s.signed + {(p.client, message)}), tid,
                                ProofTask(p, source, ProofArrived));
            Next(c, Next(c, arrived, Advance(tid, [], true)), Advance(tid, [], true))
              == Move(AfterClaim(s, p, message, source), tid, ProofTask(p, source, ProofClaimed))
  {
    var arrived := Move(s.(signed := s.signed + {(p.client, message)}), tid, ProofTask(p, source, ProofArrived));
    CheckedNext(c, arrived, tid, p, source);
    ClaimedNext(c, Move(arrived, tid, ProofTask(p, source, ProofChecked)), tid, p, source);
  }

  lemma AnswerFinishes(c: Config, s: State, tid: nat, p: Proof, source: Endpoint, param: Option<string>)
    requires 1 <= c.leaseMaxSeconds && AdmitParam(c, p.param) == Some(param)
    ensures var t := ProofTask(p, source, ProofClaimed);
            Next(c, Move(s, tid, t), Advance(tid, [], true)) == Verify(s, tid, t, param)
  {
    var t := ProofTask(p, source, ProofClaimed);
    VerifiedNext(c, Move(s, tid, t), tid, p, source, param);
    var done := t.(pphase := ProofAccepted(param));
    assert s.tasks[tid := t][tid := done] == s.tasks[tid := done];
  }

  lemma AnswerRuns(c: Config, s: State, tid: nat, p: Proof, message: Message, source: Endpoint, param: Option<string>)
    requires 1 <= c.leaseMaxSeconds && tid !in s.tasks && ChecksOut(c, s, p, source)
    requires Verifies(p.signature, p.client, message) && AdmitParam(c, p.param) == Some(param)
    ensures AnswerExchange(c, s, tid, p, message, source)
         == Verify(AfterClaim(s, p, message, source), tid, ProofTask(p, source, ProofClaimed), param)
  {
    AnswerArrives(c, s, tid, p, message, source);
    AnswerClaims(c, s, tid, p, message, source);
    AnswerFinishes(c, AfterClaim(s, p, message, source), tid, p, source, param);
  }

  /** A challenge that the server has issued and that is still good, to a client that has not
      answered it. */
  predicate Open(c: Config, s: State, key: ClientKey, challenge: Challenge, source: Endpoint) {
    && key in c.clients && challenge.client == key && challenge.nonce in s.minted
    && s.minted[challenge.nonce].client == key && s.minted[challenge.nonce].source == source
    && s.minted[challenge.nonce].expiresAt == challenge.expiresAt && s.wall <= challenge.expiresAt
    && Unanswered(s, key, challenge.nonce)
  }

  predicate Unanswered(s: State, key: ClientKey, nonce: Bytes) {
    forall x :: x in s.signed && x.0 == key && x.1.ProofMessage? ==> x.1.nonce != nonce
  }

  lemma ClaimIsSigned(c: Config, s: State, nonce: Bytes)
    requires A.Inv(c, s) && nonce in s.claims && nonce in s.minted
    ensures !Unanswered(s, s.minted[nonce].client, nonce)
  {
    assert (s.claims[nonce].client, A.ClaimText(c, s, nonce)) in s.signed;
  }

  /** Its nonce is neither consumed nor forgotten, so the right answer from the right endpoint
      passes every check. */
  lemma AnswerPasses(c: Config, s: State, t: Target, key: ClientKey, param: Option<string>, bye: bool,
                     challenge: Challenge, source: Endpoint)
    requires A.Inv(c, s) && t.server == c.server && Open(c, s, key, challenge, source)
    ensures ChecksOut(c, s, Answer(t, key, param, bye, challenge).value, source)
    ensures challenge.nonce !in s.claims
  {
    if challenge.nonce in s.claims {
      ClaimIsSigned(c, s, challenge.nonce);
    }
  }

  /** `v` is the state in which the task of a verified answer is at its fourth step. */
  ghost predicate AtFourth(s: State, v: State, tid: nat, p: Proof, source: Endpoint, param: Option<string>) {
    && v.verified == s.verified + (if p.bye then 0 else 1) && v.claims == s.claims[p.nonce := ClaimOf(p, source)]
    && v.leases == s.leases && v.cooldowns == s.cooldowns && v.mono == s.mono
    && v.log == s.log + multiset{Event(CONSUMED, p.nonce, ClaimOf(p, source))}
                      + multiset{Event(ACCEPTED, p.nonce, ClaimOf(p, source))}
    && v.tasks == s.tasks[tid := ProofTask(p, source, ProofAccepted(param))]
  }

  lemma VerifyEffects(s: State, tid: nat, p: Proof, message: Message, source: Endpoint, param: Option<string>)
    ensures AtFourth(s, Verify(AfterClaim(s, p, message, source), tid, ProofTask(p, source, ProofClaimed), param),
                     tid, p, source, param)
  {
  }

  lemma AnswerIs(c: Config, s: State, t: Target, tid: nat, key: ClientKey, param: Option<string>, bye: bool,
                 challenge: Challenge, source: Endpoint)
    requires 1 <= c.leaseMaxSeconds && A.Inv(c, s) && t.server == c.server && tid !in s.tasks
    requires Open(c, s, key, challenge, source) && Readable(c, t) && Allowed(c, t, param)
    ensures var p := Answer(t, key, param, bye, challenge).value;
            AnswerExchange(c, s, tid, p, p.signature.message, source)
              == Verify(AfterClaim(s, p, p.signature.message, source), tid, ProofTask(p, source, ProofClaimed), param)
    ensures challenge.nonce !in s.claims
  {
    var p := Answer(t, key, param, bye, challenge).value;
    AnswerPasses(c, s, t, key, param, bye, challenge, source);
    if param.Some? {
      ParamSurvivesIff(c, t, param.value);
    }
    AnswerRuns(c, s, tid, p, p.signature.message, source, param);
  }

  /** From any reachable state, the answer to an open challenge is verified: the one nonce it
      takes was not taken before, and its task goes on with the very param the client sent. */
  lemma AnswerIsVerified(c: Config, s: State, t: Target, tid: nat, key: ClientKey, param: Option<string>, bye: bool,
                         challenge: Challenge, source: Endpoint, p: Proof, k: nat, last: State) returns (v: State)
    requires 1 <= c.leaseMaxSeconds && Reachable(c, s) && t.server == c.server && tid !in s.tasks && k >= 3
    requires Open(c, s, key, challenge, source) && Readable(c, t) && Allowed(c, t, param)
    requires Answer(t, key, param, bye, challenge) == Some(p)
    requires Path(c, s, AnswerSteps(tid, p, ProofText(c, p, challenge.expiresAt), source, k), last)
    ensures challenge.nonce !in s.claims && AtFourth(s, v, tid, p, source, param)
    ensures Path(c, v, Turns(tid, [], true, k - 3), last)
  {
    var message := ProofText(c, p, challenge.expiresAt);
    A.ReachableInv(c, s);
    v := AnswerExchange(c, s, tid, p, message, source);
    AnswerPath(c, s, tid, p, message, source, k, last);
    AnswerIs(c, s, t, tid, key, param, bye, challenge, source);
    VerifyEffects(s, tid, p, message, source, param);
  }

  // ----- After a RESPONSE: the lease and the hook -----

  lemma RenewedNext(c: Config, s: State, tid: nat, p: Proof, source: Endpoint, param: Option<string>)
    requires 1 <= c.leaseMaxSeconds && !p.bye && tid in s.tasks
    requires s.tasks[tid] == ProofTask(p, source, ProofAccepted(param))
    ensures Next(c, s, Advance(tid, [], true)) == RenewLease(c, s, tid, s.tasks[tid])
  {
  }

  lemma ConsideredNext(c: Config, s: State, tid: nat, p: Proof, source: Endpoint, param: Option<string>, isNew: bool)
    requires 1 <= c.leaseMaxSeconds && tid in s.tasks && s.tasks[tid] == ProofTask(p, source, Renewed(param, isNew))
    requires isNew || !C.Cooling(c.cooldown, s.cooldowns, p.client, s.mono)
    ensures Next(c, s, Advance(tid, [], true)) == Move(s, tid, ProofTask(p, source, GrantDue(param, isNew)))
  {
  }

  lemma GrantedNext(c: Config, s: State, tid: nat, p: Proof, source: Endpoint, param: Option<string>, isNew: bool)
    requires 1 <= c.leaseMaxSeconds && tid in s.tasks && s.tasks[tid] == ProofTask(p, source, GrantDue(param, isNew))
    ensures Next(c, s, Advance(tid, [], true))
            == Move(Record(s, HOOKED, p, source), tid, ProofTask(p, source, GrantRan))
  {
  }

  lemma MarkedNext(c: Config, s: State, tid: nat, p: Proof, source: Endpoint)
    requires 1 <= c.leaseMaxSeconds && tid in s.tasks && s.tasks[tid] == ProofTask(p, source, GrantRan)
    ensures Next(c, s, Advance(tid, [], true))
         == Drop(s.(cooldowns := C.AfterMark(c.cooldown, s.cooldowns, p.client, s.mono)), tid)
  {
  }

  lemma HookRuns(c: Config, s: State, tid: nat, p: Proof, source: Endpoint, param: Option<string>, isNew: bool)
    requires 1 <= c.leaseMaxSeconds && tid in s.tasks && s.tasks[tid] == ProofTask(p, source, Renewed(param, isNew))
    requires isNew || !C.Cooling(c.cooldown, s.cooldowns, p.client, s.mono)
    ensures var considered := Next(c, s, Advance(tid, [], true));
            var granted := Next(c, considered, Advance(tid, [], true));
            Next(c, granted, Advance(tid, [], true))
              == Drop(Record(s, HOOKED, p, source)
                        .(cooldowns := C.AfterMark(c.cooldown, s.cooldowns, p.client, s.mono)), tid)
  {
    ConsideredNext(c, s, tid, p, source, param, isNew);
    var considered := Move(s, tid, ProofTask(p, source, GrantDue(param, isNew)));
    GrantedNext(c, considered, tid, p, source, param, isNew);
    var granted := Move(Record(considered, HOOKED, p, source), tid, ProofTask(p, source, GrantRan));
    MarkedNext(c, granted, tid, p, source);
    assert granted.tasks - {tid} == s.tasks - {tid};
  }

  /** Whether the grant hook is to run: for a new session, or out of cooldown. */
  predicate GrantDueFor(c: Config, s: State, client: ClientKey) {
    !L.Live(s.leases, client, s.mono) || !C.Cooling(c.cooldown, s.cooldowns, client, s.mono)
  }

  lemma HookSkipped(c: Config, s: State, tid: nat, p: Proof, source: Endpoint, param: Option<string>)
    requires 1 <= c.leaseMaxSeconds && tid in s.tasks && s.tasks[tid] == ProofTask(p, source, Renewed(param, false))
    requires C.Cooling(c.cooldown, s.cooldowns, p.client, s.mono)
    ensures var go := Advance(tid, [], true);
            Next(c, Next(c, Next(c, s, go), go), go) == Drop(s, tid)
  {
    assert Next(c, s, Advance(tid, [], true)) == Drop(s, tid);
    assert Next(c, Drop(s, tid), Advance(tid, [], true)) == Drop(s, tid);
  }

  lemma RenewalIs(c: Config, s: State, tid: nat, p: Proof, source: Endpoint, param: Option<string>)
    requires 1 <= c.leaseMaxSeconds && !p.bye && tid in s.tasks
    requires s.tasks[tid] == ProofTask(p, source, ProofAccepted(param))
    ensures var s1 := Four(c, s, tid, []);
            && s1.leases == L.AfterRenew(c.leaseCap, s.leases, p.client, LeaseFor(c, s, p, source, param))
            && s1.log == s.log + multiset{Event(LEASED, p.nonce, ClaimOf(p, source))}
                         + (if GrantDueFor(c, s, p.client) then multiset{Event(HOOKED, p.nonce, ClaimOf(p, source))}
                            else multiset{})
            && s1.tasks == s.tasks - {tid}
            && s1.cooldowns == (if GrantDueFor(c, s, p.client)
                                then C.AfterMark(c.cooldown, s.cooldowns, p.client, s.mono) else s.cooldowns)
            && s1.claims == s.claims && s1.verified == s.verified && s1.mono == s.mono
  {
    RenewedNext(c, s, tid, p, source, param);
    var renewed := RenewLease(c, s, tid, s.tasks[tid]);
    assert renewed.tasks - {tid} == s.tasks - {tid};
    if GrantDueFor(c, s, p.client) {
      HookRuns(c, renewed, tid, p, source, param, !L.Live(s.leases, p.client, s.mono));
    } else {
      HookSkipped(c, renewed, tid, p, source, param);
    }
  }

  /** The new lease and the condition of the hook, in full. */
  lemma RenewalSpelled(c: Config, s: State, p: Proof, source: Endpoint, param: Option<string>)
    requires 1 <= c.leaseMaxSeconds
    ensures var ttl := L.LeaseTtl(p.interval, c.multiplier, c.leaseMaxSeconds) * 1_000_000_000;
            L.AfterRenew(c.leaseCap, s.leases, p.client, LeaseFor(c, s, p, source, param))
              == if p.client in s.leases || |s.leases| < c.leaseCap
                 then s.leases[p.client := L.Lease(s.mono + ttl, source.ip, source.port, param)] else s.leases
    ensures GrantDueFor(c, s, p.client) <==>
              || (p.client in s.leases ==> s.leases[p.client].expiresAt <= s.mono)
              || c.cooldown == 0
              || (p.client in s.cooldowns ==> c.cooldown <= Since(s.mono, s.cooldowns[p.client]))
  {
  }

  /** What a verified RESPONSE leads to. Its lease is renewed whatever the cooldown says, if the
      client is tracked or the table has room; the grant hook runs exactly for a new session or
      out of cooldown, and then marks the client. */
  lemma RenewalGrants(c: Config, s: State, tid: nat, p: Proof, source: Endpoint, param: Option<string>, last: State)
    requires 1 <= c.leaseMaxSeconds && !p.bye && tid in s.tasks
    requires s.tasks[tid] == ProofTask(p, source, ProofAccepted(param))
    requires Path(c, s, Turns(tid, [], true, 4), last)
    ensures var ttl := L.LeaseTtl(p.interval, c.multiplier, c.leaseMaxSeconds) * 1_000_000_000;
            last.leases == if p.client in s.leases || |s.leases| < c.leaseCap
                           then s.leases[p.client := L.Lease(s.mono + ttl, source.ip, source.port, param)] else s.leases
    ensures var runs := || (p.client in s.leases ==> s.leases[p.client].expiresAt <= s.mono)
                        || c.cooldown == 0
                        || (p.client in s.cooldowns ==> c.cooldown <= Since(s.mono, s.cooldowns[p.client]));
            && last.log == s.log + multiset{Event(LEASED, p.nonce, ClaimOf(p, source))}
                           + (if runs then multiset{Event(HOOKED, p.nonce, ClaimOf(p, source))} else multiset{})
            && last.cooldowns == if runs && c.cooldown != 0 then s.cooldowns[p.client := s.mono] else s.cooldowns
    ensures last.tasks == s.tasks - {tid}
  {
    FourTurns(c, s, tid, [], last);
    RenewalIs(c, s, tid, p, source, param);
    RenewalSpelled(c, s, p, source, param);
  }

  lemma ReleasedNext(c: Config, s: State, tid: nat, p: Proof, source: Endpoint, param: Option<string>)
    requires 1 <= c.leaseMaxSeconds && p.bye && tid in s.tasks
    requires s.tasks[tid] == ProofTask(p, source, ProofAccepted(param))
    ensures Next(c, s, Advance(tid, [], true)) == ReleaseLease(c, s, tid, s.tasks[tid])
  {
  }

  // ----- Both halves -----

  /** The challenge stays open while the clock allows and the client has not answered. */
  lemma ChallengeStaysOpen(c: Config, s: State, t: Target, tid: nat, h: Hello, source: Endpoint, nonce: Bytes,
                           challenged: State,
                           between: seq<Step>, later: State)
    requires 1 <= c.leaseMaxSeconds && t.server == c.server && tid !in s.tasks && nonce !in s.minted
    requires h == HelloFor(t, h.client, h.timestamp, h.helloNonce)
    requires h.client in c.clients && H.Allows(c.limits, s.rates, source.ip, s.mono)
    requires h.timestamp - c.skew <= s.wall <= h.timestamp + c.skew
    requires (h.client, h.helloNonce) in s.seen ==> s.seen[(h.client, h.helloNonce)] < s.wall
    requires Path(c, s, HelloSteps(tid, h, HelloText(c, h), source, nonce), challenged)
    requires Path(c, challenged, between, later)
    ensures later.wall <= AddClamped(s.wall, c.nonceTtl) && Unanswered(later, h.client, nonce) ==>
              Open(c, later, h.client, Challenge(h.client, nonce, AddClamped(s.wall, c.nonceTtl)), source)
  {
    HelloIsChallenged(c, s, t, tid, h, source, nonce, challenged);
    MintedForGood(c, challenged, between, later, nonce);
  }

  /** A client that never answered a nonce has no event on it. */
  lemma NothingDoneYet(c: Config, s: State, nonce: Bytes, e: Event)
    requires A.Inv(c, s) && nonce !in s.claims && e.nonce == nonce
    ensures e !in s.log
  {
  }

  lemma HookedIff(before: multiset<Event>, a: Event, b: Event, d: Event, e: Event, runs: bool)
    requires e !in before && e != a && e != b && e != d
    ensures e in before + multiset{a} + multiset{b} + multiset{d} + (if runs then multiset{e} else multiset{}) <==> runs
  {
  }

  lemma SameLease(c: Config, s: State, v: State, p: Proof, source: Endpoint, param: Option<string>)
    requires 1 <= c.leaseMaxSeconds && v.mono == s.mono && v.leases == s.leases && v.cooldowns == s.cooldowns
    ensures LeaseFor(c, v, p, source, param) == LeaseFor(c, s, p, source, param)
    ensures GrantDueFor(c, v, p.client) == GrantDueFor(c, s, p.client)
  {
  }

  lemma TaskGone(tasks: map<nat, Task>, tid: nat, t: Task)
    requires tid !in tasks
    ensures tasks[tid := t] - {tid} == tasks
  {
  }

  /** From the fourth step of a RESPONSE's task to its end. */
  lemma RenewsFromFourth(c: Config, s: State, v: State, tid: nat, p: Proof, source: Endpoint, param: Option<string>,
                         last: State)
    requires 1 <= c.leaseMaxSeconds && !p.bye && tid !in s.tasks
    requires AtFourth(s, v, tid, p, source, param) && last == Four(c, v, tid, [])
    ensures last.claims == v.claims && last.verified == v.verified && last.mono == s.mono && last.tasks == s.tasks
    ensures last.leases == L.AfterRenew(c.leaseCap, s.leases, p.client, LeaseFor(c, s, p, source, param))
  {
    RenewalIs(c, v, tid, p, source, param);
    SameLease(c, s, v, p, source, param);
    TaskGone(s.tasks, tid, ProofTask(p, source, ProofAccepted(param)));
  }

  lemma HooksFromFourth(c: Config, s: State, v: State, tid: nat, p: Proof, source: Endpoint, param: Option<string>,
                        last: State)
    requires 1 <= c.leaseMaxSeconds && !p.bye
    requires Event(HOOKED, p.nonce, ClaimOf(p, source)) !in s.log
    requires AtFourth(s, v, tid, p, source, param) && last == Four(c, v, tid, [])
    ensures Event(HOOKED, p.nonce, ClaimOf(p, source)) in last.log <==> GrantDueFor(c, s, p.client)
  {
    RenewalIs(c, v, tid, p, source, param);
    SameLease(c, s, v, p, source, param);
    var k := ClaimOf(p, source);
    HookedIff(s.log, Event(CONSUMED, p.nonce, k), Event(ACCEPTED, p.nonce, k), Event(LEASED, p.nonce, k),
              Event(HOOKED, p.nonce, k), GrantDueFor(c, s, p.client));
  }

  /** The phase of a BYE whose revoke hook is due. */
  function RevokePhase(m: L.Table, now: Instant, client: ClientKey, param: Option<string>): ProofPhase
    requires client in m
  {
    var lease := m[client];
    var remaining := |set o | o in m && o != client && now < m[o].expiresAt && m[o].ip == lease.ip|;
    RevokeDue(L.Ended(L.ExpiredLease(lease.ip, client, lease.port, lease.param), remaining),
              if param.Some? then param else lease.param)
  }

  lemma RemainingSpelled(m: L.Table, client: ClientKey, now: Instant)
    requires client in m
    ensures L.Others(m, m[client].ip, client, now)
         == |set o | o in m && o != client && now < m[o].expiresAt && m[o].ip == m[client].ip|
  {
    assert (set o | o in m && o != client && now < m[o].expiresAt && m[o].ip == m[client].ip)
        == L.LiveOn(m, m[client].ip, now) - {client};
  }

  /** The task of a released lease, if there is a hook to run. */
  lemma RevokeTask(c: Config, s: State, tid: nat, p: Proof, source: Endpoint, param: Option<string>)
    requires p.bye && tid in s.tasks && s.tasks[tid] == ProofTask(p, source, ProofAccepted(param))
    requires p.client in s.leases && c.revokes
    ensures ReleaseLease(c, s, tid, s.tasks[tid]).tasks
         == s.tasks[tid := ProofTask(p, source, RevokePhase(s.leases, s.mono, p.client, param))]
  {
    RemainingSpelled(s.leases, p.client, s.mono);
    var s1 := Record(s.(leases := s.leases - {p.client}), LEASED, p, source);
    assert ReleaseLease(c, s, tid, s.tasks[tid])
        == Move(s1, tid, ProofTask(p, source, RevokePhase(s.leases, s.mono, p.client, param)));
  }

  lemma NoRevokeTask(c: Config, s: State, tid: nat, p: Proof, source: Endpoint, param: Option<string>)
    requires p.bye && tid in s.tasks && s.tasks[tid] == ProofTask(p, source, ProofAccepted(param))
    requires !(p.client in s.leases && c.revokes)
    ensures ReleaseLease(c, s, tid, s.tasks[tid]).tasks == s.tasks - {tid}
  {
    var s1 := Record(s.(leases := s.leases - {p.client}), LEASED, p, source);
    if p.client in s.leases {
      assert ReleaseLease(c, s, tid, s.tasks[tid]) == Drop(s1, tid);
    } else {
      assert ReleaseLease(c, s, tid, s.tasks[tid]) == Drop(s, tid);
    }
  }

  lemma RevokesFromFourth(c: Config, s: State, v: State, tid: nat, p: Proof, source: Endpoint, param: Option<string>)
    requires p.bye && tid !in s.tasks && AtFourth(s, v, tid, p, source, param)
    ensures ReleaseLease(c, v, tid, v.tasks[tid]).tasks
         == if p.client in s.leases && c.revokes
            then s.tasks[tid := ProofTask(p, source, RevokePhase(s.leases, s.mono, p.client, param))] else s.tasks
  {
    if p.client in s.leases && c.revokes {
      RevokeTask(c, v, tid, p, source, param);
    } else {
      NoRevokeTask(c, v, tid, p, source, param);
      TaskGone(s.tasks, tid, ProofTask(p, source, ProofAccepted(param)));
    }
  }

  lemma ReleaseEffects(c: Config, s: State, tid: nat, p: Proof, source: Endpoint, param: Option<string>)
    requires p.bye && tid in s.tasks && s.tasks[tid] == ProofTask(p, source, ProofAccepted(param))
    ensures var s1 := ReleaseLease(c, s, tid, s.tasks[tid]);
            s1.leases == s.leases - {p.client} && s1.claims == s.claims && s1.verified == s.verified
  {
    var s1 := ReleaseLease(c, s, tid, s.tasks[tid]);
    var s2 := Record(s.(leases := s.leases - {p.client}), LEASED, p, source);
    if p.client !in s.leases {
      assert s1 == Drop(s, tid);
    } else if c.revokes {
      assert s1 == Move(s2, tid, s1.tasks[tid]);
    } else {
      assert s1 == Drop(s2, tid);
    }
  }

  /** The RESPONSE to an open challenge, from its signature to the end of its task. */
  lemma AnswerRenews(c: Config, s: State, t: Target, tid: nat, key: ClientKey, param: Option<string>,
                     challenge: Challenge, source: Endpoint, p: Proof, last: State)
    requires 1 <= c.leaseMaxSeconds && Reachable(c, s) && t.server == c.server && tid !in s.tasks
    requires Open(c, s, key, challenge, source) && Readable(c, t) && Allowed(c, t, param)
    requires Answer(t, key, param, false, challenge) == Some(p)
    requires Path(c, s, AnswerSteps(tid, p, ProofText(c, p, challenge.expiresAt), source, 7), last)
    ensures challenge.nonce !in s.claims && last.claims == s.claims[challenge.nonce := ClaimOf(p, source)]
    ensures last.verified == s.verified + 1 && last.mono == s.mono && last.tasks == s.tasks
    ensures last.leases == L.AfterRenew(c.leaseCap, s.leases, key, LeaseFor(c, s, p, source, param))
    ensures Event(HOOKED, challenge.nonce, ClaimOf(p, source)) in last.log <==> GrantDueFor(c, s, key)
  {
    var v := AnswerIsVerified(c, s, t, tid, key, param, false, challenge, source, p, 7, last);
    FourTurns(c, v, tid, [], last);
    A.ReachableInv(c, s);
    NothingDoneYet(c, s, challenge.nonce, Event(HOOKED, challenge.nonce, ClaimOf(p, source)));
    RenewsFromFourth(c, s, v, tid, p, source, param, last);
    HooksFromFourth(c, s, v, tid, p, source, param, last);
  }

  /** The handshake completes: in any reachable state that admits the HELLO, the client gets
      its challenge; after any steps whatever in between, its RESPONSE, sent from the same
      endpoint before the expiry, is verified, the one nonce it takes is that one, and the
      client's lease is renewed, or begun if there is room, with the very param it sent. */
  lemma HandshakeCompletes(c: Config, s: State, t: Target, h: Hello, source: Endpoint, nonce: Bytes, hid: nat,
                           challenged: State,
                           between: seq<Step>, later: State, param: Option<string>, p: Proof, rid: nat, last: State)
    requires 1 <= c.leaseMaxSeconds && t.server == c.server && Readable(c, t) && Allowed(c, t, param)
    requires Reachable(c, s) && hid !in s.tasks && nonce !in s.minted
    requires h == HelloFor(t, h.client, h.timestamp, h.helloNonce)
    requires h.client in c.clients && H.Allows(c.limits, s.rates, source.ip, s.mono)
    requires h.timestamp - c.skew <= s.wall <= h.timestamp + c.skew
    requires (h.client, h.helloNonce) in s.seen ==> s.seen[(h.client, h.helloNonce)] < s.wall
    requires Path(c, s, HelloSteps(hid, h, HelloText(c, h), source, nonce), challenged)
    requires Path(c, challenged, between, later)
    requires later.wall <= AddClamped(s.wall, c.nonceTtl) && Unanswered(later, h.client, nonce) && rid !in later.tasks
    requires Answer(t, h.client, param, false, Challenge(h.client, nonce, AddClamped(s.wall, c.nonceTtl))) == Some(p)
    requires Path(c, later, AnswerSteps(rid, p, ProofText(c, p, AddClamped(s.wall, c.nonceTtl)), source, 7), last)
    ensures nonce !in later.claims && last.claims == later.claims[nonce := ClaimOf(p, source)]
    ensures last.verified == later.verified + 1
    ensures var ttl := L.LeaseTtl(p.interval, c.multiplier, c.leaseMaxSeconds) * 1_000_000_000;
            last.leases == if h.client in later.leases || |later.leases| < c.leaseCap
                           then later.leases[h.client := L.Lease(later.mono + ttl, source.ip, source.port, param)]
                           else later.leases
    ensures Event(HOOKED, nonce, ClaimOf(p, source)) in last.log <==>
              || (h.client in later.leases ==> later.leases[h.client].expiresAt <= later.mono)
              || c.cooldown == 0
              || (h.client in later.cooldowns ==> c.cooldown <= Since(later.mono, later.cooldowns[h.client]))
    ensures last.tasks == later.tasks
  {
    Reach(c, s, HelloSteps(hid, h, HelloText(c, h), source, nonce), challenged);
    Reach(c, challenged, between, later);
    ChallengeStaysOpen(c, s, t, hid, h, source, nonce, challenged, between, later);
    var challenge := Challenge(h.client, nonce, AddClamped(s.wall, c.nonceTtl));
    AnswerRenews(c, later, t, rid, h.client, param, challenge, source, p, last);
    RenewalSpelled(c, later, p, source, param);
  }

  /** Likewise a BYE: it is verified and releases exactly the client's own lease. If there was one,
      and a revoke hook is configured, that hook is due next: it is to be told of that lease, of
      the param of the BYE or else the one stored with the lease, and of how many other clients
      have a live lease on the address. */
  lemma ReleaseCompletes(c: Config, s: State, t: Target, tid: nat, key: ClientKey, param: Option<string>,
                         challenge: Challenge, source: Endpoint, p: Proof, last: State)
    requires 1 <= c.leaseMaxSeconds && Reachable(c, s) && t.server == c.server && tid !in s.tasks
    requires Open(c, s, key, challenge, source) && Readable(c, t) && Allowed(c, t, param)
    requires Answer(t, key, param, true, challenge) == Some(p)
    requires Path(c, s, AnswerSteps(tid, p, ProofText(c, p, challenge.expiresAt), source, 4), last)
    ensures challenge.nonce !in s.claims && last.claims == s.claims[challenge.nonce := ClaimOf(p, source)]
    ensures last.verified == s.verified && last.leases == s.leases - {key}
    ensures key in s.leases && c.revokes ==>
              var lease := s.leases[key];
              var remaining := |set o | o in s.leases && o != key && s.mono < s.leases[o].expiresAt
                                        && s.leases[o].ip == lease.ip|;
              last.tasks == s.tasks[tid := ProofTask(p, source, RevokeDue(
                                      L.Ended(L.ExpiredLease(lease.ip, key, lease.port, lease.param), remaining),
                                      if param.Some? then param else lease.param))]
    ensures !(key in s.leases && c.revokes) ==> last.tasks == s.tasks
  {
    var v := AnswerIsVerified(c, s, t, tid, key, param, true, challenge, source, p, 4, last);
    Turn(c, v, tid, [], true, 1, last);
    Stayed(c, Next(c, v, Advance(tid, [], true)), last);
    ReleasedNext(c, v, tid, p, source, param);
    ReleaseEffects(c, v, tid, p, source, param);
    RevokesFromFourth(c, s, v, tid, p, source, param);
  }
}
