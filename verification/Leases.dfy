/** Access leases, one per client, and the per-address counts reported to the hooks. */
module Leases {
  import opened Types

  datatype Lease = Lease(expiresAt: Instant, ip: Ip, port: u16, param: Option<string>)

  /** What the revoke hook is told about a lease that ended. */
  datatype ExpiredLease = ExpiredLease(ip: Ip, client: ClientKey, port: u16, param: Option<string>)

  /** An ended lease and how many other clients still hold a live lease on its address. */
  datatype Ended = Ended(lease: ExpiredLease, remaining: nat)

  type Table = map<ClientKey, Lease>

  /** The lease length in seconds for a client that pulses every `interval` seconds. */
  function LeaseTtl(interval: u32, multiplier: u32, maxSeconds: u64): (ttl: nat)
    requires 1 <= maxSeconds
    ensures 1 <= ttl <= maxSeconds
    ensures 1 <= interval * multiplier <= maxSeconds ==> ttl == interval * multiplier
    ensures interval == 0 || multiplier == 0 ==> ttl == 1
    ensures interval * multiplier > maxSeconds ==> ttl == maxSeconds
  {
    var product: int := interval * multiplier;
    Min(Max(Min(product, U64_MAX), 1), maxSeconds)
  }

  predicate Live(m: Table, client: ClientKey, now: Instant) {
    client in m && now < m[client].expiresAt
  }

  /** The clients that hold a live lease on `ip`. */
  function LiveOn(m: Table, ip: Ip, now: Instant): set<ClientKey> {
    set c | c in m && now < m[c].expiresAt && m[c].ip == ip
  }

  function Others(m: Table, ip: Ip, client: ClientKey, now: Instant): nat {
    |LiveOn(m, ip, now) - {client}|
  }

  function Report(m: Table, client: ClientKey): ExpiredLease
    requires client in m
  {
    ExpiredLease(m[client].ip, client, m[client].port, m[client].param)
  }

  function AfterRenew(cap: nat, m: Table, client: ClientKey, lease: Lease): Table {
    if client in m || |m| < cap then m[client := lease] else m
  }

  function ExpiredKeys(m: Table, now: Instant): set<ClientKey> {
    set c | c in m && m[c].expiresAt <= now
  }

  function AfterScan(m: Table, now: Instant): Table {
    map c | c in m && now < m[c].expiresAt :: m[c]
  }

  /** `ended` lists exactly the expired leases of `m`, each once, each with its own data
      and with the number of leases on its address that are live at `now`. */
  ghost predicate DrainReport(m: Table, now: Instant, ended: seq<Ended>) {
    && (forall i :: 0 <= i < |ended| ==>
          && ended[i].lease.client in ExpiredKeys(m, now)
          && ended[i].lease == Report(m, ended[i].lease.client)
          && ended[i].remaining == |LiveOn(m, ended[i].lease.ip, now)|)
    && (forall i, j :: 0 <= i < j < |ended| ==> ended[i].lease.client != ended[j].lease.client)
    && (forall c :: c in ExpiredKeys(m, now) ==> exists i :: 0 <= i < |ended| && ended[i].lease.client == c)
  }

  class LeaseTracker {
    const cap: nat
    var leases: Table

    constructor (maxEntries: nat)
      ensures cap == Max(maxEntries, 1) && leases == map[]
    {
      cap := Max(maxEntries, 1);
      leases := map[];
    }

    /** Creates or renews a lease; true when the client held no live lease before. */
    method Renew(client: ClientKey, source: Endpoint, param: Option<string>, ttl: nat, now: Instant)
      returns (isNew: bool)
      modifies this
      ensures isNew == !Live(old(leases), client, now)
      ensures isNew <==> (client in old(leases) ==> old(leases)[client].expiresAt <= now)
      ensures leases == AfterRenew(cap, old(leases), client, Lease(now + ttl, source.ip, source.port, param))
      ensures leases == if client in old(leases) || |old(leases)| < cap
                        then old(leases)[client := Lease(now + ttl, source.ip, source.port, param)] else old(leases)
    {
      isNew := if client in leases then now >= leases[client].expiresAt else true;
      var lease := Lease(now + ttl, source.ip, source.port, param);
      if client in leases || |leases| < cap {
        leases := leases[client := lease];
      }
    }

    /** Ends the client's own lease on its request; None when it holds none. */
    method Release(client: ClientKey, now: Instant) returns (ended: Option<Ended>)
      modifies this
      ensures leases == old(leases) - {client}
      ensures ended.Some? <==> client in old(leases)
      ensures ended.Some? ==>
                var Lease(_, ip, port, param) := old(leases)[client];
                && ended.value.lease == ExpiredLease(ip, client, port, param) == Report(old(leases), client)
                && ended.value.remaining == Others(old(leases), ip, client, now)
                   == |set o | o in leases && now < leases[o].expiresAt && leases[o].ip == ip|
    {
      if client !in leases {
        assert leases == leases - {client};
        return None;
      }
      CountsAgree(leases, client, now);
      var l := leases[client];
      leases := leases - {client};
      var remaining := |set o | o in leases && now < leases[o].expiresAt && leases[o].ip == l.ip|;
      assert (set o | o in leases && now < leases[o].expiresAt && leases[o].ip == l.ip) == LiveOn(leases, l.ip, now);
      ended := Some(Ended(ExpiredLease(l.ip, client, l.port, l.param), remaining));
    }

    /** How many other clients hold a live lease on `ip`. */
    method OthersOnIp(ip: Ip, client: ClientKey, now: Instant) returns (n: nat)
      ensures n == Others(leases, ip, client, now)
      ensures n == |set o | o in leases && o != client && now < leases[o].expiresAt && leases[o].ip == ip|
    {
      n := |set c | c in leases && now < leases[c].expiresAt && leases[c].ip == ip && c != client|;
      assert (set c | c in leases && now < leases[c].expiresAt && leases[c].ip == ip && c != client)
          == (set o | o in leases && o != client && now < leases[o].expiresAt && leases[o].ip == ip)
          == LiveOn(leases, ip, now) - {client};
    }

    /** Removes every expired lease and reports each with the count left on its address. */
    method TakeExpired(now: Instant) returns (ended: seq<Ended>)
      modifies this
      ensures leases == AfterScan(old(leases), now)
      ensures forall c :: c in leases <==> c in old(leases) && now < old(leases)[c].expiresAt
      ensures forall c :: c in leases ==> leases[c] == old(leases)[c]
      ensures DrainReport(old(leases), now, ended)
    {
      ghost var m := leases;
      var pending := set c | c in leases && now >= leases[c].expiresAt;
      var taken: seq<Lease> := [];
      var ids: seq<ClientKey> := [];
      while pending != {}
        invariant pending <= ExpiredKeys(m, now)
        invariant leases.Keys == m.Keys - (ExpiredKeys(m, now) - pending)
        invariant forall c :: c in leases ==> leases[c] == m[c]
        invariant |ids| == |taken|
        invariant forall i :: 0 <= i < |ids| ==> ids[i] in ExpiredKeys(m, now) - pending && taken[i] == m[ids[i]]
        invariant forall i, j :: 0 <= i < j < |ids| ==> ids[i] != ids[j]
        invariant forall c :: c in ExpiredKeys(m, now) - pending ==> c in ids
        decreases pending
      {
        var k :| k in pending;
        taken := taken + [leases[k]];
        ids := ids + [k];
        leases := leases - {k};
        pending := pending - {k};
      }
      assert leases == AfterScan(m, now);
      ended := [];
      while |ended| < |taken|
        invariant |ended| <= |taken|
        invariant leases == AfterScan(m, now)
        invariant forall i :: 0 <= i < |ended| ==>
                    ended[i] == Ended(Report(m, ids[i]), |LiveOn(m, m[ids[i]].ip, now)|)
      {
        var l, id := taken[|ended|], ids[|ended|];
        var remaining := |set o | o in leases && leases[o].ip == l.ip|;
        assert (set o | o in leases && leases[o].ip == l.ip) == LiveOn(m, l.ip, now);
        ended := ended + [Ended(ExpiredLease(l.ip, id, l.port, l.param), remaining)];
      }
      forall c | c in ExpiredKeys(m, now) ensures exists i :: 0 <= i < |ended| && ended[i].lease.client == c {
        assert c in ids;
        var i :| 0 <= i < |ids| && ids[i] == c;
        assert ended[i].lease.client == c;
      }
    }

    /** How many leases are live, for the status dump. */
    method ActiveCount(now: Instant) returns (n: nat)
      ensures n == |AfterScan(leases, now)| == |set c | c in leases && now < leases[c].expiresAt|
    {
      n := |set c | c in leases && now < leases[c].expiresAt|;
      assert (set c | c in leases && now < leases[c].expiresAt) == AfterScan(leases, now).Keys;
    }
  }

  /** A client is listed exactly when its lease has run out, with the address, port and param of
      that lease and the number of other clients that still have a lease on the address. */
  lemma DrainReportLists(m: Table, now: Instant, ended: seq<Ended>, client: ClientKey)
    requires DrainReport(m, now, ended)
    ensures client in m && m[client].expiresAt <= now <==>
              exists i :: 0 <= i < |ended| && ended[i].lease.client == client
    ensures forall i :: 0 <= i < |ended| && ended[i].lease.client == client ==>
              && ended[i].lease == ExpiredLease(m[client].ip, client, m[client].port, m[client].param)
              && ended[i].remaining
                 == |set o | o in m && o != client && now < m[o].expiresAt && m[o].ip == m[client].ip|
  {
    if client in m && m[client].expiresAt <= now {
      assert client in ExpiredKeys(m, now);
      assert (set o | o in m && o != client && now < m[o].expiresAt && m[o].ip == m[client].ip)
          == LiveOn(m, m[client].ip, now);
    }
  }

  /** The three ways the server computes `{ip_clients}` agree: the unfiltered count left
      after draining, the filtered count left after removing one client, and the count of
      other clients before either. */
  lemma CountsAgree(m: Table, client: ClientKey, now: Instant)
    requires client in m
    ensures var ip := m[client].ip;
            && |LiveOn(m - {client}, ip, now)| == Others(m, ip, client, now)
            && (!Live(m, client, now) ==>
                  |set o | o in AfterScan(m, now) && AfterScan(m, now)[o].ip == ip| == Others(m, ip, client, now))
  {
    var ip := m[client].ip;
    assert LiveOn(m - {client}, ip, now) == LiveOn(m, ip, now) - {client};
    if !Live(m, client, now) {
      assert (set o | o in AfterScan(m, now) && AfterScan(m, now)[o].ip == ip) == LiveOn(m, ip, now) - {client};
    }
  }

  // ----- Runs -----

  datatype Op =
    | Renew(client: ClientKey, source: Endpoint, param: Option<string>, ttl: nat, now: Instant)
    | Release(client: ClientKey, now: Instant)
    | Scan(now: Instant)

  function After(cap: nat, m: Table, op: Op): Table {
    match op
    case Renew(c, src, param, ttl, now) => AfterRenew(cap, m, c, Lease(now + ttl, src.ip, src.port, param))
    case Release(c, _) => m - {c}
    case Scan(now) => AfterScan(m, now)
  }

  /** `tables` is the run of `ops` from the empty table: tables[k] is the table just before
      ops[k], and the last one is the table at the end. */
  ghost predicate IsRun(cap: nat, ops: seq<Op>, tables: seq<Table>) {
    && |tables| == |ops| + 1
    && tables[0] == map[]
    && (forall k {:trigger ops[k]} :: 0 <= k < |ops| ==> tables[k + 1] == After(cap, tables[k], ops[k]))
  }

  /** Every sequence of operations has exactly one run. */
  function RunOf(cap: nat, ops: seq<Op>): (tables: seq<Table>)
    ensures IsRun(cap, ops, tables)
  {
    if ops == [] then [map[]]
    else
      var before := RunOf(cap, ops[..|ops| - 1]);
      assert forall k {:trigger ops[k]} :: 0 <= k < |ops| - 1 ==> ops[..|ops| - 1][k] == ops[k];
      before + [After(cap, before[|ops| - 1], ops[|ops| - 1])]
  }

  /** The leases that `op` ends. */
  function EndedBy(m: Table, op: Op): set<ClientKey> {
    match op
    case Renew(_, _, _, _, _) => {}
    case Release(c, _) => if c in m then {c} else {}
    case Scan(now) => ExpiredKeys(m, now)
  }

  /** `op` begins a session: a renewal adds a client that was not tracked. */
  predicate Starts(cap: nat, m: Table, op: Op, client: ClientKey) {
    op.Renew? && op.client == client && client !in m && client in After(cap, m, op)
  }

  /** Who is tracked after one operation, and with which data. */
  lemma StepEffect(cap: nat, m: Table, op: Op, client: ClientKey)
    ensures client in After(cap, m, op) <==> (client in m && client !in EndedBy(m, op)) || Starts(cap, m, op, client)
    ensures client in After(cap, m, op) && !(op.Renew? && op.client == client) ==>
              After(cap, m, op)[client] == m[client]
    ensures client in After(cap, m, op) && op.Renew? && op.client == client ==>
              After(cap, m, op)[client].expiresAt == op.now + op.ttl
  {
  }

  lemma RenewSize(cap: nat, m: Table, op: Op)
    requires |m| <= cap && op.Renew?
    ensures |After(cap, m, op)| <= cap
    ensures |m| + (if Starts(cap, m, op, op.client) then 1 else 0) == |After(cap, m, op)| + |EndedBy(m, op)|
  {
  }

  lemma EndSize(cap: nat, m: Table, op: Op)
    requires !op.Renew?
    ensures |m| == |After(cap, m, op)| + |EndedBy(m, op)|
  {
    var after, ended := After(cap, m, op), EndedBy(m, op);
    assert |after| == |after.Keys| && |m| == |m.Keys|;
    assert after.Keys == m.Keys - ended && ended <= m.Keys;
  }

  /** 1 when `op` begins a session, and else 0. */
  function StartedBy(cap: nat, m: Table, op: Op): nat {
    if op.Renew? && Starts(cap, m, op, op.client) then 1 else 0
  }

  lemma StepSize(cap: nat, m: Table, op: Op)
    requires |m| <= cap
    ensures |After(cap, m, op)| <= cap
    ensures |m| + StartedBy(cap, m, op) == |After(cap, m, op)| + |EndedBy(m, op)|
  {
    if op.Renew? {
      RenewSize(cap, m, op);
    } else {
      EndSize(cap, m, op);
    }
  }

  function Started(cap: nat, ops: seq<Op>, tables: seq<Table>, n: nat): nat
    requires n <= |ops| < |tables|
  {
    if n == 0 then 0 else Started(cap, ops, tables, n - 1) + StartedBy(cap, tables[n - 1], ops[n - 1])
  }

  function Finished(cap: nat, ops: seq<Op>, tables: seq<Table>, n: nat): nat
    requires n <= |ops| < |tables|
  {
    if n == 0 then 0 else Finished(cap, ops, tables, n - 1) + |EndedBy(tables[n - 1], ops[n - 1])|
  }

  lemma SizeAt(cap: nat, ops: seq<Op>, tables: seq<Table>, k: nat)
    requires IsRun(cap, ops, tables) && k < |ops| && |tables[k]| <= cap
    ensures |tables[k + 1]| <= cap
    ensures |tables[k]| + StartedBy(cap, tables[k], ops[k]) == |tables[k + 1]| + |EndedBy(tables[k], ops[k])|
  {
    StepSize(cap, tables[k], ops[k]);
  }

  /** In every run, sessions started are the leases still tracked plus the leases ended by
      expiry or BYE, and the table never outgrows its cap. */
  lemma {:induction false} SessionAccounting(cap: nat, ops: seq<Op>, tables: seq<Table>, n: nat)
    requires IsRun(cap, ops, tables) && n <= |ops|
    ensures Started(cap, ops, tables, n) == |tables[n]| + Finished(cap, ops, tables, n)
    ensures |tables[n]| <= cap
  {
    if n > 0 {
      SessionAccounting(cap, ops, tables, n - 1);
      SizeAt(cap, ops, tables, n - 1);
    }
  }

  lemma {:induction false} SessionStartsInBetween(cap: nat, ops: seq<Op>, tables: seq<Table>, client: ClientKey,
                                                  i: nat, j: nat) returns (k: nat)
    requires IsRun(cap, ops, tables) && i <= j <= |ops|
    requires client !in tables[i] && client in tables[j]
    ensures i <= k < j && Starts(cap, tables[k], ops[k], client)
  {
    StepEffect(cap, tables[j - 1], ops[j - 1], client);
    if client in tables[j - 1] {
      k := SessionStartsInBetween(cap, ops, tables, client, i, j - 1);
    } else {
      k := j - 1;
    }
  }

  /** Between two ends of one client's leases lies a renewal that was reported as new. */
  lemma NewSessionBetweenEnds(cap: nat, ops: seq<Op>, tables: seq<Table>, client: ClientKey, i: nat, j: nat)
    requires IsRun(cap, ops, tables) && i < j < |ops|
    requires client in EndedBy(tables[i], ops[i]) && client in EndedBy(tables[j], ops[j])
    ensures exists k {:trigger Starts(cap, tables[k], ops[k], client)} ::
              i < k < j && Starts(cap, tables[k], ops[k], client)
                        && !Live(tables[k], client, ops[k].now)
  {
    StepEffect(cap, tables[i], ops[i], client);
    var k := SessionStartsInBetween(cap, ops, tables, client, i + 1, j);
  }

  // ----- Keep-alive and revocation -----

  /** When the lease from the latest pulse of `client` in ops[from..n] runs out. */
  function Deadline(ops: seq<Op>, client: ClientKey, from: nat, n: nat): Instant
    requires from < n <= |ops| && ops[from].Renew?
    decreases n
  {
    var last := ops[n - 1];
    if n == from + 1 || (last.Renew? && last.client == client) then last.now + last.ttl
    else Deadline(ops, client, from, n - 1)
  }

  /** ops[from] is a pulse of `client` that the table accepted. */
  predicate TrackedPulse(cap: nat, ops: seq<Op>, tables: seq<Table>, client: ClientKey, from: nat)
    requires |ops| < |tables|
  {
    && from < |ops| && ops[from].Renew? && ops[from].client == client
    && (client in tables[from] || |tables[from]| < cap)
  }

  /** Up to operation n, everything happens before the client's current lease runs out and
      the client does not say BYE: each pulse comes less than one lease after the last. */
  predicate PulsesInTime(ops: seq<Op>, client: ClientKey, from: nat, n: nat)
    requires from < n <= |ops| && ops[from].Renew?
  {
    forall k {:trigger Deadline(ops, client, from, k)} :: from < k < n ==>
      ops[k].now < Deadline(ops, client, from, k) && !(ops[k].Release? && ops[k].client == client)
  }

  /** One operation before the lease runs out: a pulse renews it, all else leaves it. */
  lemma LeaseStays(cap: nat, m: Table, op: Op, client: ClientKey)
    requires client in m && op.now < m[client].expiresAt && !(op.Release? && op.client == client)
    ensures client in After(cap, m, op)
    ensures After(cap, m, op)[client].expiresAt
         == if op.Renew? && op.client == client then op.now + op.ttl else m[client].expiresAt
  {
    StepEffect(cap, m, op, client);
  }

  lemma InTimeEarlier(ops: seq<Op>, client: ClientKey, from: nat, n: nat, k: nat)
    requires from < k < n <= |ops| && ops[from].Renew? && PulsesInTime(ops, client, from, n)
    ensures PulsesInTime(ops, client, from, k)
    ensures ops[k].now < Deadline(ops, client, from, k) && !(ops[k].Release? && ops[k].client == client)
  {
    assert ops[k].now < Deadline(ops, client, from, k);
    forall i {:trigger Deadline(ops, client, from, i)} | from < i < k
      ensures ops[i].now < Deadline(ops, client, from, i) && !(ops[i].Release? && ops[i].client == client)
    {
      var deadline := Deadline(ops, client, from, i);
    }
  }

  lemma DeadlineStep(ops: seq<Op>, client: ClientKey, from: nat, k: nat)
    requires from < k < |ops| && ops[from].Renew?
    ensures Deadline(ops, client, from, k + 1)
         == if ops[k].Renew? && ops[k].client == client then ops[k].now + ops[k].ttl else Deadline(ops, client, from, k)
  {
  }

  lemma {:induction false} LeaseFollowsPulses(cap: nat, ops: seq<Op>, tables: seq<Table>, client: ClientKey, from: nat,
                                              n: nat)
    requires IsRun(cap, ops, tables) && TrackedPulse(cap, ops, tables, client, from) && from < n <= |ops|
    requires PulsesInTime(ops, client, from, n)
    ensures client in tables[n]
    ensures tables[n][client].expiresAt == Deadline(ops, client, from, n)
    decreases n
  {
    var k := n - 1;
    assert tables[k + 1] == After(cap, tables[k], ops[k]);
    if n > from + 1 {
      InTimeEarlier(ops, client, from, n, k);
      LeaseFollowsPulses(cap, ops, tables, client, from, k);
      DeadlineStep(ops, client, from, k);
      LeaseStays(cap, tables[k], ops[k], client);
    }
  }

  lemma AliveBetween(cap: nat, ops: seq<Op>, tables: seq<Table>, client: ClientKey, from: nat, n: nat, k: nat)
    requires IsRun(cap, ops, tables) && TrackedPulse(cap, ops, tables, client, from) && from < k < n <= |ops|
    requires PulsesInTime(ops, client, from, n)
    ensures client !in EndedBy(tables[k], ops[k])
    ensures Live(tables[k], client, ops[k].now)
  {
    InTimeEarlier(ops, client, from, n, k);
    LeaseFollowsPulses(cap, ops, tables, client, from, k);
  }

  predicate Pulses(op: Op, client: ClientKey) {
    op.Renew? && op.client == client
  }

  predicate TimeOrdered(ops: seq<Op>) {
    forall i, j :: 0 <= i < j < |ops| ==> ops[i].now <= ops[j].now
  }

  /** No pulse of `client` in ops[i + 1..j]. */
  predicate NoneBetween(ops: seq<Op>, client: ClientKey, i: nat, j: nat)
    requires j <= |ops|
  {
    forall k :: i < k < j ==> !Pulses(ops[k], client)
  }

  /** In ops[from..last + 1] each pulse of `client` leases for `ttl`, the next pulse comes less
      than `ttl` later, and the client does not say BYE. Nothing is said of anyone else, nor of
      when scans take place. */
  predicate PulseGapsBelow(ops: seq<Op>, client: ClientKey, from: nat, last: nat, ttl: nat)
    requires from <= last < |ops|
  {
    && (forall i :: from <= i <= last && Pulses(ops[i], client) ==> ops[i].ttl == ttl)
    && (forall i, j {:trigger NoneBetween(ops, client, i, j)} ::
          from <= i < j <= last && Pulses(ops[i], client) && Pulses(ops[j], client)
              && NoneBetween(ops, client, i, j) ==>
            ops[j].now - ops[i].now < ttl)
    && (forall i :: from <= i <= last ==> !(ops[i].Release? && ops[i].client == client))
  }

  lemma {:induction false} PulseBefore(ops: seq<Op>, client: ClientKey, from: nat, k: nat) returns (p: nat)
    requires from < k <= |ops| && Pulses(ops[from], client)
    ensures from <= p < k && Pulses(ops[p], client) && NoneBetween(ops, client, p, k)
    ensures Deadline(ops, client, from, k) == ops[p].now + ops[p].ttl
    decreases k
  {
    if k == from + 1 || Pulses(ops[k - 1], client) {
      p := k - 1;
    } else {
      p := PulseBefore(ops, client, from, k - 1);
    }
  }

  lemma {:induction false} PulseAfter(ops: seq<Op>, client: ClientKey, k: nat, last: nat) returns (m: nat)
    requires k <= last < |ops| && Pulses(ops[last], client)
    ensures k <= m <= last && Pulses(ops[m], client) && forall i :: k <= i < m ==> !Pulses(ops[i], client)
    decreases last - k
  {
    if Pulses(ops[k], client) {
      m := k;
    } else {
      m := PulseAfter(ops, client, k + 1, last);
    }
  }

  lemma GapsAreInTime(ops: seq<Op>, client: ClientKey, from: nat, last: nat, ttl: nat)
    requires from < last < |ops| && TimeOrdered(ops) && Pulses(ops[from], client) && Pulses(ops[last], client)
    requires PulseGapsBelow(ops, client, from, last, ttl)
    ensures PulsesInTime(ops, client, from, last + 1)
  {
    forall k | from < k < last + 1 ensures ops[k].now < Deadline(ops, client, from, k) {
      var p := PulseBefore(ops, client, from, k);
      var m := PulseAfter(ops, client, k, last);
      assert NoneBetween(ops, client, p, m);
      assert k < m ==> ops[k].now <= ops[m].now;
    }
  }

  /** Keep-alive: from a tracked pulse to any later one, if each pulse comes less than the lease
      length after the one before it, the client is never drained and never flagged new again,
      however many scans take place and whenever they do. */
  lemma KeptAlive(cap: nat, ops: seq<Op>, tables: seq<Table>, client: ClientKey, from: nat, last: nat, k: nat,
                  interval: u32, multiplier: u32, maxSeconds: u64)
    requires IsRun(cap, ops, tables) && TimeOrdered(ops) && TrackedPulse(cap, ops, tables, client, from)
    requires from < k <= last < |ops| && Pulses(ops[last], client) && 1 <= maxSeconds
    requires PulseGapsBelow(ops, client, from, last, LeaseTtl(interval, multiplier, maxSeconds) * NANOS_PER_SECOND)
    ensures client !in EndedBy(tables[k], ops[k])
    ensures Live(tables[k], client, ops[k].now)
  {
    GapsAreInTime(ops, client, from, last, LeaseTtl(interval, multiplier, maxSeconds) * NANOS_PER_SECOND);
    AliveBetween(cap, ops, tables, client, from, last + 1, k);
  }

  predicate Silent(ops: seq<Op>, client: ClientKey, from: nat) {
    forall k :: from < k < |ops| ==> ops[k].Scan? || ops[k].client != client
  }

  /** A scan in ops[from+1..n] took place at or after `deadline`. */
  predicate ScannedLate(ops: seq<Op>, from: nat, n: nat, deadline: Instant)
    requires n <= |ops|
  {
    exists j :: from < j < n && ops[j].Scan? && deadline <= ops[j].now
  }

  lemma {:induction false} SilentLease(cap: nat, ops: seq<Op>, tables: seq<Table>, client: ClientKey, from: nat, n: nat)
    requires IsRun(cap, ops, tables) && TrackedPulse(cap, ops, tables, client, from) && Silent(ops, client, from)
    requires from < n <= |ops|
    ensures client in tables[n] <==> !ScannedLate(ops, from, n, ops[from].now + ops[from].ttl)
    ensures client in tables[n] ==>
              tables[n][client].expiresAt == ops[from].now + ops[from].ttl
    decreases n
  {
    var deadline := ops[from].now + ops[from].ttl;
    StepEffect(cap, tables[n - 1], ops[n - 1], client);
    if n > from + 1 {
      SilentLease(cap, ops, tables, client, from, n - 1);
      if ops[n - 1].Scan? && deadline <= ops[n - 1].now {
        assert ScannedLate(ops, from, n, deadline);
      } else {
        assert ScannedLate(ops, from, n - 1, deadline) == ScannedLate(ops, from, n, deadline);
      }
    }
  }

  /** A silent client is reported by exactly one operation: the first scan at or after the
      expiry of its last pulse's lease. */
  lemma SilentClientRevokedOnce(cap: nat, ops: seq<Op>, tables: seq<Table>, client: ClientKey, from: nat, n: nat)
    requires IsRun(cap, ops, tables) && TrackedPulse(cap, ops, tables, client, from) && Silent(ops, client, from)
    requires from < n < |ops|
    ensures client in EndedBy(tables[n], ops[n])
       <==> (var deadline := ops[from].now + ops[from].ttl;
             ops[n].Scan? && deadline <= ops[n].now && !ScannedLate(ops, from, n, deadline))
  {
    SilentLease(cap, ops, tables, client, from, n);
  }
}
