/** The tests at the head of the receive loop, which shed packets by source address alone:
    blacklisted senders, and under lockdown every sender not recently active. */
module Gates {
  import opened Types
  import Finite
  import B = Blacklists

  // ----- Recently active addresses -----

  type Table = map<Ip, Instant>

  predicate Active(ttl: nat, seen: Table, ip: Ip, now: Instant) {
    ip in seen && Since(now, seen[ip]) < ttl
  }

  /** A full table takes no new address. */
  function AfterMark(cap: nat, seen: Table, ip: Ip, now: Instant): Table {
    if ip in seen || |seen| < cap then seen[ip := now] else seen
  }

  function AfterPurge(ttl: nat, seen: Table, now: Instant): Table {
    map ip | ip in seen && Since(now, seen[ip]) < ttl :: seen[ip]
  }

  class ActiveIps {
    const ttl: nat
    const cap: nat
    var seen: Table

    constructor (ttlSeconds: u64, maxEntries: nat)
      ensures ttl == Max(ttlSeconds, 1) * 1_000_000_000 && cap == Max(maxEntries, 1) && seen == map[]
    {
      ttl := Max(ttlSeconds, 1) * NANOS_PER_SECOND;
      cap := Max(maxEntries, 1);
      seen := map[];
    }

    /** Called for an authenticated HELLO and for a verified pulse. */
    method Mark(ip: Ip, now: Instant)
      modifies this
      ensures seen == AfterMark(cap, old(seen), ip, now)
      ensures ip in old(seen) || |old(seen)| < cap ==> seen == old(seen)[ip := now]
      ensures ip !in old(seen) && cap <= |old(seen)| ==> seen == old(seen)
      ensures |old(seen)| <= cap ==> |seen| <= cap
    {
      if ip in seen || |seen| < cap {
        assert seen[ip := now].Keys == seen.Keys + {ip};
        seen := seen[ip := now];
      }
    }

    method IsActive(ip: Ip, now: Instant) returns (active: bool)
      ensures active == Active(ttl, seen, ip, now)
      ensures active <==> ip in seen && Since(now, seen[ip]) < ttl
    {
      active := ip in seen && Since(now, seen[ip]) < ttl;
    }

    method PurgeStale(now: Instant)
      modifies this
      ensures seen == AfterPurge(ttl, old(seen), now)
      ensures forall ip :: ip in seen <==> ip in old(seen) && Since(now, old(seen)[ip]) < ttl
      ensures forall ip :: ip in seen ==> seen[ip] == old(seen)[ip]
    {
      seen := map ip | ip in seen && Since(now, seen[ip]) < ttl :: seen[ip];
    }
  }

  datatype Op = Mark(ip: Ip, now: Instant) | Purge(now: Instant)

  predicate Ordered(ops: seq<Op>, from: Instant, until: Instant) {
    if ops == [] then from <= until else from <= ops[0].now && Ordered(ops[1..], ops[0].now, until)
  }

  function After(ttl: nat, cap: nat, seen: Table, ops: seq<Op>): Table
    decreases |ops|
  {
    if ops == [] then seen
    else
      var next := match ops[0]
        case Mark(ip, now) => AfterMark(cap, seen, ip, now)
        case Purge(now) => AfterPurge(ttl, seen, now);
      After(ttl, cap, next, ops[1..])
  }

  /** An address taken into the table at `marked` stays active for the whole of its time to
      live, whatever is marked and purged meanwhile. */
  lemma {:induction false} StaysActive(ttl: nat, cap: nat, seen: Table, ops: seq<Op>, ip: Ip, marked: Instant,
                                       from: Instant, now: Instant)
    requires ip in seen && marked <= seen[ip] <= from && Ordered(ops, from, now) && now < marked + ttl
    ensures Active(ttl, After(ttl, cap, seen, ops), ip, now)
    decreases |ops|
  {
    if ops != [] {
      OrderedReaches(ops[1..], ops[0].now, now);
      match ops[0] {
        case Mark(other, t) => StaysActive(ttl, cap, AfterMark(cap, seen, other, t), ops[1..], ip, marked, t, now);
        case Purge(t) => StaysActive(ttl, cap, AfterPurge(ttl, seen, t), ops[1..], ip, marked, t, now);
      }
    }
  }

  lemma {:induction false} OrderedReaches(ops: seq<Op>, from: Instant, until: Instant)
    requires Ordered(ops, from, until)
    ensures from <= until
    decreases |ops|
  {
    if ops != [] {
      OrderedReaches(ops[1..], ops[0].now, until);
    }
  }

  /** Only addresses marked within the time to live are active, and never more than the cap
      are stored: a spoofer that cannot get itself marked gains nothing. */
  lemma {:induction false} ActiveOnlyIfMarked(ttl: nat, cap: nat, ops: seq<Op>, from: Instant, ip: Ip, now: Instant)
    requires Ordered(ops, from, now)
    ensures |After(ttl, cap, map[], ops)| <= cap
    ensures Active(ttl, After(ttl, cap, map[], ops), ip, now) ==>
              exists k :: 0 <= k < |ops| && ops[k].Mark? && ops[k].ip == ip && now - ops[k].now < ttl
  {
    MarkedFrom(ttl, cap, map[], ops, from, ip, now);
  }

  lemma {:induction false} MarkedFrom(ttl: nat, cap: nat, seen: Table, ops: seq<Op>, from: Instant, ip: Ip,
                                      now: Instant)
    requires Ordered(ops, from, now) && |seen| <= cap
    ensures |After(ttl, cap, seen, ops)| <= cap
    ensures Active(ttl, After(ttl, cap, seen, ops), ip, now) ==>
              Active(ttl, seen, ip, now)
              || exists k :: 0 <= k < |ops| && ops[k].Mark? && ops[k].ip == ip && now - ops[k].now < ttl
    decreases |ops|
  {
    if ops != [] {
      var t := ops[0].now;
      OrderedReaches(ops[1..], t, now);
      var next: Table;
      match ops[0] {
        case Mark(other, _) =>
          next := AfterMark(cap, seen, other, t);
          assert seen[other := t].Keys == seen.Keys + {other};
        case Purge(_) =>
          next := AfterPurge(ttl, seen, t);
          Finite.SubsetCardinality(next.Keys, seen.Keys);
      }
      MarkedFrom(ttl, cap, next, ops[1..], t, ip, now);
      if Active(ttl, After(ttl, cap, seen, ops), ip, now) && !Active(ttl, seen, ip, now) {
        if Active(ttl, next, ip, now) {
          assert ops[0].Mark? && ops[0].ip == ip;
        } else {
          var k :| 0 <= k < |ops[1..]| && ops[1..][k].Mark? && ops[1..][k].ip == ip && now - ops[1..][k].now < ttl;
          assert ops[k + 1] == ops[1..][k];
        }
      }
    }
  }

  // ----- The gate -----

  datatype Verdict = Admitted | DroppedAsBlocked | ShedUnderLockdown

  function Judge(b: B.Config, s: B.State, ttl: nat, seen: Table, ip: Ip, now: Instant): (v: Verdict)
    ensures v == DroppedAsBlocked <==> B.Blocked(b, s, ip, now)
    ensures v == ShedUnderLockdown <==>
              !B.Blocked(b, s, ip, now) && B.UnderAttack(b, s, now) && !Active(ttl, seen, ip, now)
  {
    if B.Blocked(b, s, ip, now) then DroppedAsBlocked
    else if B.UnderAttack(b, s, now) && !Active(ttl, seen, ip, now) then ShedUnderLockdown
    else Admitted
  }

  class Gate {
    const blacklist: B.Blacklist
    const active: ActiveIps

    constructor (blacklist: B.Blacklist, active: ActiveIps)
      ensures this.blacklist == blacklist && this.active == active
    {
      this.blacklist := blacklist;
      this.active := active;
    }

    /** Judges a packet before anything is allocated, spawned or decrypted for it. Only packets
        shed under lockdown, not those of blacklisted senders, keep the lockdown latched. */
    method Admit(ip: Ip, now: Instant) returns (v: Verdict)
      modifies blacklist
      ensures v == Judge(blacklist.config, old(blacklist.Contents()), active.ttl, active.seen, ip, now)
      ensures blacklist.Contents()
           == if v == ShedUnderLockdown then B.AfterDrop(blacklist.config, old(blacklist.Contents()), now)
              else old(blacklist.Contents())
    {
      var blocked := blacklist.IsBlocked(ip, now);
      if blocked {
        return DroppedAsBlocked;
      }
      var attacked := blacklist.IsUnderAttack(now);
      if attacked {
        var known := active.IsActive(ip, now);
        if !known {
          blacklist.NoteLockdownDrop(now);
          return ShedUnderLockdown;
        }
      }
      return Admitted;
    }
  }

  /** The lockdown spares a client in the middle of its handshake: from the HELLO that got its
      address into the table on, its packets pass for the whole time to live, however the
      attack goes, unless its own address is blacklisted. */
  lemma LockdownSparesTheActive(b: B.Config, s: B.State, ttl: nat, cap: nat, seen: Table, ops: seq<Op>, ip: Ip,
                                marked: Instant, now: Instant)
    requires (ip in seen || |seen| < cap) && Ordered(ops, marked, now) && now < marked + ttl
    ensures var later := After(ttl, cap, AfterMark(cap, seen, ip, marked), ops);
            Judge(b, s, ttl, later, ip, now) == (if B.Blocked(b, s, ip, now) then DroppedAsBlocked else Admitted)
  {
    StaysActive(ttl, cap, AfterMark(cap, seen, ip, marked), ops, ip, marked, marked, now);
  }

  // ----- Runs of faulty packets and purges -----

  datatype Fault = Faulty(ip: Ip, now: Instant) | Cleanup(now: Instant)

  function AfterFaults(c: B.Config, s: B.State, ops: seq<Fault>): B.State {
    if ops == [] then s
    else
      var s1 := AfterFaults(c, s, ops[..|ops| - 1]);
      match ops[|ops| - 1]
      case Faulty(ip, now) => B.AfterFaulty(c, s1, ip, now)
      case Cleanup(now) => B.AfterPurge(c, s1, now)
  }

  // ----- Who is blocked -----

  /** The packet ops[k] starts or extends a block of its sender: it blacklists it, or comes less
      than one block length after a packet of the same sender that does. */
  predicate Blocking(c: B.Config, ops: seq<Fault>, k: nat)
    requires k < |ops|
    decreases k
  {
    ops[k].Faulty?
    && (B.Trips(c, AfterFaults(c, B.INITIAL, ops[..k]), ops[k].ip)
        || exists j :: 0 <= j < k && Blocking(c, ops, j) && ops[j].ip == ops[k].ip
                                  && ops[k].now < ops[j].now + c.duration)
  }

  /** A faulty packet of `ip` that starts or extends a block lies less than one block length before `now`. */
  predicate BlockedSince(c: B.Config, ops: seq<Fault>, ip: Ip, now: Instant) {
    exists k :: 0 <= k < |ops| && Blocking(c, ops, k) && ops[k].ip == ip && now < ops[k].now + c.duration
  }

  predicate InOrder(ops: seq<Fault>, now: Instant) {
    && (forall i :: 0 <= i < |ops| ==> ops[i].now <= now)
    && (forall i, j :: 0 <= i < j < |ops| ==> ops[i].now <= ops[j].now)
  }

  lemma {:induction false} BlockingBefore(c: B.Config, init: seq<Fault>, op: Fault, k: nat)
    requires k < |init|
    ensures Blocking(c, init + [op], k) <==> Blocking(c, init, k)
    decreases k
  {
    var ops := init + [op];
    assert ops[..k] == init[..k] && ops[k] == init[k];
    forall j | 0 <= j < k ensures Blocking(c, ops, j) <==> Blocking(c, init, j) {
      BlockingBefore(c, init, op, j);
    }
  }

  /** One more packet or purge. */
  lemma BlockedSinceStep(c: B.Config, init: seq<Fault>, op: Fault, ip: Ip, now: Instant)
    requires InOrder(init + [op], now)
    ensures BlockedSince(c, init + [op], ip, now) <==>
              || BlockedSince(c, init, ip, now)
              || (&& op.Faulty? && op.ip == ip && now < op.now + c.duration
                  && (B.Trips(c, AfterFaults(c, B.INITIAL, init), ip) || BlockedSince(c, init, ip, op.now)))
  {
    var ops, n := init + [op], |init|;
    assert ops[..n] == init && ops[n] == op;
    forall k | 0 <= k < n ensures ops[k] == init[k] && (Blocking(c, ops, k) <==> Blocking(c, init, k)) {
      BlockingBefore(c, init, op, k);
    }
    if BlockedSince(c, init, ip, now) {
      var k :| 0 <= k < n && Blocking(c, init, k) && init[k].ip == ip && now < init[k].now + c.duration;
      assert Blocking(c, ops, k);
    }
    if op.Faulty? && op.ip == ip && BlockedSince(c, init, ip, op.now) {
      var k :| 0 <= k < n && Blocking(c, init, k) && init[k].ip == ip && op.now < init[k].now + c.duration;
      assert Blocking(c, ops, k);
    }
  }

  lemma BlockedStep(c: B.Config, s: B.State, op: Fault, ip: Ip, now: Instant)
    requires op.now <= now
    ensures var s1 := match op
              case Faulty(src, t) => B.AfterFaulty(c, s, src, t)
              case Cleanup(t) => B.AfterPurge(c, s, t);
            B.Blocked(c, s1, ip, now) <==>
              if op.Faulty? && op.ip == ip && (B.Trips(c, s, ip) || B.Blocked(c, s, ip, op.now))
              then now < op.now + c.duration
              else B.Blocked(c, s, ip, now)
  {
  }

  lemma {:induction false} BlockedIff(c: B.Config, ops: seq<Fault>, ip: Ip, now: Instant)
    requires InOrder(ops, now)
    ensures B.Blocked(c, AfterFaults(c, B.INITIAL, ops), ip, now) <==> BlockedSince(c, ops, ip, now)
    decreases |ops|
  {
    if ops != [] {
      var init, op := ops[..|ops| - 1], ops[|ops| - 1];
      assert ops == init + [op];
      BlockedIff(c, init, ip, now);
      BlockedIff(c, init, ip, op.now);
      BlockedStep(c, AfterFaults(c, B.INITIAL, init), op, ip, now);
      BlockedSinceStep(c, init, op, ip, now);
      SinceEarlier(c, init, ip, op.now, now);
    }
  }

  lemma SinceEarlier(c: B.Config, ops: seq<Fault>, ip: Ip, now: Instant, later: Instant)
    requires now <= later && InOrder(ops, now)
    ensures BlockedSince(c, ops, ip, later) ==> BlockedSince(c, ops, ip, now) && later < now + c.duration
  {
    if BlockedSince(c, ops, ip, later) {
      var k :| 0 <= k < |ops| && Blocking(c, ops, k) && ops[k].ip == ip && later < ops[k].now + c.duration;
      assert Blocking(c, ops, k) && now < ops[k].now + c.duration;
    }
  }

  /** In every time-ordered run of faulty packets and purges the gate drops a sender as blocked
      if and only if a packet of that sender which blacklisted it, or came while it was
      blacklisted, lies less than one block length back. */
  lemma {:induction false} DroppedIffFaultedWithin(c: B.Config, ops: seq<Fault>, ttl: nat, seen: Table, ip: Ip,
                                                   now: Instant)
    requires InOrder(ops, now)
    ensures Judge(c, AfterFaults(c, B.INITIAL, ops), ttl, seen, ip, now) == DroppedAsBlocked <==>
              exists k :: 0 <= k < |ops| && Blocking(c, ops, k) && ops[k].ip == ip && now < ops[k].now + c.duration
  {
    BlockedIff(c, ops, ip, now);
  }

  // ----- What a purge forgives -----

  /** Faulty packets of `ip` since the last purge, but for those that a full table does not track. */
  function FaultsSince(c: B.Config, s: B.State, ops: seq<Fault>, ip: Ip): nat {
    if ops == [] || ops[|ops| - 1].Cleanup? then 0
    else
      var init, last := ops[..|ops| - 1], ops[|ops| - 1];
      FaultsSince(c, s, init, ip) + (if last.ip == ip && B.Tracked(c, AfterFaults(c, s, init), ip) then 1 else 0)
  }

  /** Nothing is held against `ip`, from `from` on: it is not tracked, or its block is over. */
  predicate Clean(s: B.State, ip: Ip, from: Instant) {
    ip in s.table ==> s.table[ip].blockedUntil.Some? && s.table[ip].blockedUntil.value <= from
  }

  /** Up to every point of `ops`, `ip` has not exceeded the threshold since the last purge. */
  ghost predicate WithinThreshold(c: B.Config, s: B.State, ops: seq<Fault>, ip: Ip) {
    forall n {:trigger ops[..n]} :: 0 <= n <= |ops| ==> FaultsSince(c, s, ops[..n], ip) <= c.threshold
  }

  lemma {:induction false} FaultsCounted(c: B.Config, s: B.State, from: Instant, ops: seq<Fault>, ip: Ip)
    requires c.threshold > 0 && Clean(s, ip, from) && forall op :: op in ops ==> from <= op.now
    requires WithinThreshold(c, s, ops, ip)
    ensures var k, s1 := FaultsSince(c, s, ops, ip), AfterFaults(c, s, ops);
            if k == 0 then Clean(s1, ip, from) else ip in s1.table && s1.table[ip] == B.Entry(k, None)
  {
    if ops != [] {
      var init := ops[..|ops| - 1];
      forall n {:trigger init[..n]} | 0 <= n <= |init| ensures FaultsSince(c, s, init[..n], ip) <= c.threshold {
        assert init[..n] == ops[..n];
      }
      assert forall op :: op in init ==> op in ops;
      FaultsCounted(c, s, from, init, ip);
      assert ops[|ops| - 1] in ops && ops[..|ops|] == ops;
      assert FaultsSince(c, s, ops, ip) <= c.threshold;
      OneMoreFault(c, AfterFaults(c, s, init), from, ops[|ops| - 1], ip, FaultsSince(c, s, init, ip));
    }
  }

  lemma OneMoreFault(c: B.Config, s: B.State, from: Instant, op: Fault, ip: Ip, k: nat)
    requires c.threshold > 0 && from <= op.now
    requires if k == 0 then Clean(s, ip, from) else ip in s.table && s.table[ip] == B.Entry(k, None)
    requires op.Faulty? && op.ip == ip && B.Tracked(c, s, ip) ==> k < c.threshold
    ensures var k1 := if op.Cleanup? then 0 else k + (if op.ip == ip && B.Tracked(c, s, ip) then 1 else 0);
            var s1 := match op
              case Faulty(src, now) => B.AfterFaulty(c, s, src, now)
              case Cleanup(now) => B.AfterPurge(c, s, now);
            if k1 == 0 then Clean(s1, ip, from) else ip in s1.table && s1.table[ip] == B.Entry(k1, None)
  {
  }

  /** From any state that holds nothing against an address, whatever went before, and for any
      cap: a faulty packet blacklists its sender exactly when it is the first to exceed the
      threshold since the last purge. Every purge, not only a quiet spell, starts the count
      afresh, so a sender that stays at the threshold between purges is never blacklisted. */
  lemma {:induction false} TripsIffOverSincePurge(c: B.Config, s: B.State, from: Instant, ops: seq<Fault>, ip: Ip)
    requires c.threshold > 0 && Clean(s, ip, from) && forall op :: op in ops ==> from <= op.now
    requires WithinThreshold(c, s, ops, ip)
    ensures B.Trips(c, AfterFaults(c, s, ops), ip) <==> FaultsSince(c, s, ops, ip) == c.threshold
  {
    FaultsCounted(c, s, from, ops, ip);
  }
}
