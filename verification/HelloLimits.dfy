/** The fixed-window limiter on HELLOs per source address. */
module HelloLimits {
  import opened Types

  datatype Window = Window(start: Instant, count: nat)

  type Table = map<Ip, Window>

  /** `maxPerWindow == 0` switches the limiter off; `maxEntries == 0` means no cap. */
  datatype Limits = Limits(maxPerWindow: u32, window: nat, maxEntries: nat)

  /** False when the table is full and `ip` is new: such a HELLO passes untracked. */
  predicate Tracked(c: Limits, m: Table, ip: Ip) {
    c.maxEntries == 0 || |m| < c.maxEntries || ip in m
  }

  /** The window a HELLO at `now` falls into, before it is counted. */
  function Current(c: Limits, m: Table, ip: Ip, now: Instant): Window {
    if ip in m && Since(now, m[ip].start) < c.window then m[ip] else Window(now, 0)
  }

  predicate Allows(c: Limits, m: Table, ip: Ip, now: Instant) {
    c.maxPerWindow == 0 || !Tracked(c, m, ip) || Current(c, m, ip, now).count < c.maxPerWindow
  }

  function AfterCheck(c: Limits, m: Table, ip: Ip, now: Instant): Table {
    if c.maxPerWindow == 0 || !Tracked(c, m, ip) then m
    else
      var w := Current(c, m, ip, now);
      m[ip := if w.count < c.maxPerWindow then w.(count := w.count + 1) else w]
  }

  function AfterPurge(c: Limits, m: Table, now: Instant): Table {
    map ip | ip in m && Since(now, m[ip].start) < c.window :: m[ip]
  }

  class HelloRateLimiter {
    const limits: Limits
    var state: Table

    constructor (maxPerWindow: u32, windowSeconds: u64, maxEntries: nat)
      ensures state == map[]
      ensures limits == Limits(maxPerWindow, Max(windowSeconds, 1) * 1_000_000_000, maxEntries)
      ensures limits.window > 0
    {
      limits := Limits(maxPerWindow, Max(windowSeconds, 1) * NANOS_PER_SECOND, maxEntries);
      state := map[];
    }

    /** Whether a HELLO from `ip` at `now` is within budget; counts it if so. A refusal changes
        nothing, and the first HELLO of a new window is always within budget. */
    method Check(ip: Ip, now: Instant) returns (allowed: bool)
      requires limits.window > 0
      modifies this
      ensures allowed == Allows(limits, old(state), ip, now)
      ensures state == AfterCheck(limits, old(state), ip, now)
      ensures limits.maxPerWindow == 0 || (ip !in old(state) && 0 < limits.maxEntries <= |old(state)|) ==>
                allowed && state == old(state)
      ensures !(limits.maxPerWindow == 0 || (ip !in old(state) && 0 < limits.maxEntries <= |old(state)|)) ==>
                if ip in old(state) && Since(now, old(state)[ip].start) < limits.window then
                  var Window(start, count) := old(state)[ip];
                  && allowed == (count < limits.maxPerWindow)
                  && state == if allowed then old(state)[ip := Window(start, count + 1)] else old(state)
                else allowed && state == old(state)[ip := Window(now, 1)]
      ensures 0 < limits.maxEntries && |old(state)| <= limits.maxEntries ==> |state| <= limits.maxEntries
    {
      if limits.maxPerWindow == 0 {
        return true;
      }
      if limits.maxEntries > 0 && |state| >= limits.maxEntries && ip !in state {
        return true;
      }
      var entry := if ip in state then state[ip] else Window(now, 0);
      if Since(now, entry.start) >= limits.window {
        entry := Window(now, 0);
      }
      if entry.count >= limits.maxPerWindow {
        state := state[ip := entry];
        return false;
      }
      state := state[ip := entry.(count := entry.count + 1)];
      return true;
    }

    /** Drops the windows that lie wholly in the past. */
    method PurgeStale(now: Instant)
      modifies this
      ensures state == AfterPurge(limits, old(state), now)
      ensures forall ip :: ip in state <==> ip in old(state) && Since(now, old(state)[ip].start) < limits.window
      ensures forall ip :: ip in state ==> state[ip] == old(state)[ip]
    {
      state := map ip | ip in state && Since(now, state[ip].start) < limits.window :: state[ip];
    }
  }

  // ----- Runs -----

  datatype Call = Hello(ip: Ip, now: Instant) | Purge(now: Instant)

  predicate Ordered(calls: seq<Call>, from: Instant) {
    calls == [] || (from <= calls[0].now && Ordered(calls[1..], calls[0].now))
  }

  /** One answer per call: for a HELLO, whether it was admitted; a purge admits nothing.
      With `purging` off, purges are ignored. */
  function Answers(c: Limits, m: Table, calls: seq<Call>, purging: bool): (r: seq<bool>)
    ensures |r| == |calls|
    decreases |calls|
  {
    if calls == [] then []
    else match calls[0]
      case Hello(ip, now) => [Allows(c, m, ip, now)] + Answers(c, AfterCheck(c, m, ip, now), calls[1..], purging)
      case Purge(now) => [false] + Answers(c, if purging then AfterPurge(c, m, now) else m, calls[1..], purging)
  }

  /** How many HELLOs from `ip` in the closed interval [lo, hi] were admitted. */
  function Admitted(calls: seq<Call>, answers: seq<bool>, ip: Ip, lo: int, hi: int): nat
    requires |answers| == |calls|
    decreases |calls|
  {
    if calls == [] then 0
    else
      var counted := calls[0].Hello? && calls[0].ip == ip && lo <= calls[0].now <= hi && answers[0];
      (if counted then 1 else 0) + Admitted(calls[1..], answers[1..], ip, lo, hi)
  }

  // ----- Purging is invisible without a cap -----

  ghost predicate Shadows(c: Limits, purged: Table, full: Table, now: Instant) {
    && (forall ip :: ip in purged ==> ip in full && purged[ip] == full[ip])
    && (forall ip :: ip in full && ip !in purged ==> c.window <= Since(now, full[ip].start))
  }

  lemma {:induction false} ShadowAnswers(c: Limits, purged: Table, full: Table, calls: seq<Call>, from: Instant)
    requires c.maxEntries == 0 && c.window > 0
    requires Ordered(calls, from) && Shadows(c, purged, full, from)
    ensures Answers(c, purged, calls, true) == Answers(c, full, calls, false)
    decreases |calls|
  {
    if calls != [] {
      var t := calls[0].now;
      match calls[0] {
        case Hello(ip, _) =>
          ShadowAnswers(c, AfterCheck(c, purged, ip, t), AfterCheck(c, full, ip, t), calls[1..], t);
        case Purge(_) =>
          ShadowAnswers(c, AfterPurge(c, purged, t), full, calls[1..], t);
      }
    }
  }

  /** A limiter purged at arbitrary times and one never purged admit the same HELLOs. */
  lemma PurgeTransparent(c: Limits, calls: seq<Call>, from: Instant)
    requires c.maxEntries == 0 && c.window > 0 && Ordered(calls, from)
    ensures Answers(c, map[], calls, true) == Answers(c, map[], calls, false)
  {
    ShadowAnswers(c, map[], map[], calls, from);
  }

  // ----- A sliding bound from a fixed window -----

  /** How many HELLOs from `ip` in the closed interval [lo, hi] were admitted and counted by the
      limiter, when `calls` run from `m`, purges included: all those admitted, except the ones
      that pass because the table is full. */
  function Counted(c: Limits, m: Table, calls: seq<Call>, ip: Ip, lo: Instant, hi: Instant): nat
    decreases |calls|
  {
    if calls == [] then 0
    else match calls[0]
      case Purge(now) => Counted(c, AfterPurge(c, m, now), calls[1..], ip, lo, hi)
      case Hello(src, now) =>
        (if src == ip && lo <= now <= hi && Tracked(c, m, ip) && Allows(c, m, ip, now) then 1 else 0)
        + Counted(c, AfterCheck(c, m, src, now), calls[1..], ip, lo, hi)
  }

  /** What a limiter that has counted `n` HELLOs from `ip` since `lo` looks like at `from`,
      before lo + window has passed: at most one earlier window can have contributed to `n`. */
  ghost predicate Accounted(c: Limits, m: Table, ip: Ip, lo: Instant, n: nat, from: Instant) {
    if ip !in m then n <= c.maxPerWindow && (n > 0 ==> lo < from)
    else
      var w := m[ip];
      && w.count <= c.maxPerWindow
      && (w.start <= lo ==> n <= w.count)
      && (w.start < lo && n > 0 ==> lo < w.start + c.window)
      && (lo < w.start ==> n <= c.maxPerWindow + w.count)
  }

  lemma {:induction false} CountedFrom(c: Limits, m: Table, calls: seq<Call>, from: Instant, ip: Ip, lo: Instant,
                                       n: nat)
    requires c.window > 0 && c.maxPerWindow > 0
    requires Ordered(calls, from)
    requires ip in m ==> m[ip].start <= from
    requires from < lo ==> n == 0
    requires n <= 2 * c.maxPerWindow
    requires from <= lo + c.window ==> Accounted(c, m, ip, lo, n, from)
    ensures n + Counted(c, m, calls, ip, lo, lo + c.window) <= 2 * c.maxPerWindow
    decreases |calls|
  {
    if calls != [] {
      var t := calls[0].now;
      match calls[0] {
        case Purge(_) =>
          CountedFrom(c, AfterPurge(c, m, t), calls[1..], t, ip, lo, n);
        case Hello(src, _) =>
          var counted := src == ip && lo <= t <= lo + c.window && Tracked(c, m, ip) && Allows(c, m, ip, t);
          CountedFrom(c, AfterCheck(c, m, src, t), calls[1..], t, ip, lo, if counted then n + 1 else n);
      }
    }
  }

  /** For every cap, and with purges at any times: any closed interval one window long counts
      at most twice the budget from one address. */
  lemma CountedBound(c: Limits, calls: seq<Call>, from: Instant, ip: Ip, lo: Instant)
    requires c.window > 0 && c.maxPerWindow > 0 && Ordered(calls, from)
    ensures Counted(c, map[], calls, ip, lo, lo + c.window) <= 2 * c.maxPerWindow
  {
    CountedFrom(c, map[], calls, from, ip, lo, 0);
  }

  /** Without a cap every admitted HELLO is counted. */
  lemma {:induction false} AllCounted(c: Limits, m: Table, calls: seq<Call>, ip: Ip, lo: Instant, hi: Instant)
    requires c.maxEntries == 0
    ensures Admitted(calls, Answers(c, m, calls, true), ip, lo, hi) == Counted(c, m, calls, ip, lo, hi)
    decreases |calls|
  {
    if calls != [] {
      var t := calls[0].now;
      var answers, rest := Answers(c, m, calls, true), calls[1..];
      match calls[0] {
        case Purge(_) =>
          assert answers == [false] + Answers(c, AfterPurge(c, m, t), rest, true);
          AllCounted(c, AfterPurge(c, m, t), rest, ip, lo, hi);
        case Hello(src, _) =>
          assert answers == [Allows(c, m, src, t)] + Answers(c, AfterCheck(c, m, src, t), rest, true);
          AllCounted(c, AfterCheck(c, m, src, t), rest, ip, lo, hi);
      }
    }
  }

  /** So without a cap, any closed interval one window long admits at most twice the budget. */
  lemma SlidingBound(c: Limits, calls: seq<Call>, from: Instant, ip: Ip, lo: Instant)
    requires c.maxEntries == 0 && c.window > 0 && c.maxPerWindow > 0
    requires Ordered(calls, from)
    ensures Admitted(calls, Answers(c, map[], calls, true), ip, lo, lo + c.window) <= 2 * c.maxPerWindow
  {
    AllCounted(c, map[], calls, ip, lo, lo + c.window);
    CountedBound(c, calls, from, ip, lo);
  }

  /** Twice the budget is reached, by a HELLO in one window and one at the start of the
      next, so the bound cannot be improved. */
  lemma SlidingBoundIsTight()
    ensures var c, calls := Limits(1, 10, 0), [Hello(1, 0), Hello(1, 10)];
            Admitted(calls, Answers(c, map[], calls, true), 1, 0, 10) == 2
  {
    var c, first, second := Limits(1, 10, 0), Hello(1, 0), Hello(1, 10);
    var m := AfterCheck(c, map[], 1, 0);
    assert Allows(c, m, 1, 10);
    assert Answers(c, m, [second], true) == [true];
    assert [first, second][1..] == [second];
    assert Answers(c, map[], [first, second], true) == [true, true];
    assert [true, true][1..] == [true];
    assert Admitted([second], [true], 1, 0, 10) == 1;
  }

  // ----- Who is refused -----

  /** The table after `calls`. */
  function After(c: Limits, m: Table, calls: seq<Call>): Table
    decreases |calls|
  {
    if calls == [] then m
    else match calls[0]
      case Hello(ip, now) => After(c, AfterCheck(c, m, ip, now), calls[1..])
      case Purge(now) => After(c, AfterPurge(c, m, now), calls[1..])
  }

  lemma {:induction false} LastAnswer(c: Limits, m: Table, calls: seq<Call>, ip: Ip, now: Instant)
    ensures Answers(c, m, calls + [Hello(ip, now)], true)[|calls|] == Allows(c, After(c, m, calls), ip, now)
    decreases |calls|
  {
    var all := calls + [Hello(ip, now)];
    if calls == [] {
      assert all == [Hello(ip, now)];
    } else {
      assert all[0] == calls[0] && all[1..] == calls[1..] + [Hello(ip, now)];
      match calls[0] {
        case Hello(src, t) => LastAnswer(c, AfterCheck(c, m, src, t), calls[1..], ip, now);
        case Purge(t) => LastAnswer(c, AfterPurge(c, m, t), calls[1..], ip, now);
      }
    }
  }

  /** How far a window of `ip` that begins at `start` has been used up. */
  function UsedUp(m: Table, ip: Ip, start: Instant): nat {
    if ip in m && m[ip].start == start then m[ip].count else 0
  }

  lemma UsedUpStep(c: Limits, m: Table, src: Ip, now: Instant, ip: Ip, start: Instant, hi: Instant)
    requires now <= hi && (ip in m ==> m[ip].start <= now)
    ensures UsedUp(AfterCheck(c, m, src, now), ip, start)
         <= UsedUp(m, ip, start) + (if src == ip && start <= now <= hi && Allows(c, m, src, now) then 1 else 0)
    ensures ip in AfterCheck(c, m, src, now) ==> AfterCheck(c, m, src, now)[ip].start <= now
  {
  }

  /** What the table counts was admitted. */
  lemma {:induction false} UsedUpIsAdmitted(c: Limits, m: Table, calls: seq<Call>, from: Instant, ip: Ip,
                                            start: Instant, hi: Instant)
    requires Ordered(calls + [Hello(ip, hi)], from) && (ip in m ==> m[ip].start <= from)
    ensures UsedUp(After(c, m, calls), ip, start)
         <= UsedUp(m, ip, start) + Admitted(calls, Answers(c, m, calls, true), ip, start, hi)
    ensures ip in After(c, m, calls) ==> After(c, m, calls)[ip].start <= hi
    decreases |calls|
  {
    var all := calls + [Hello(ip, hi)];
    if calls != [] {
      var rest, t := calls[1..], calls[0].now;
      assert all[0] == calls[0] && all[1..] == rest + [Hello(ip, hi)];
      LastIsLatest(rest, t, ip, hi);
      match calls[0] {
        case Hello(src, _) =>
          assert calls == [Hello(src, t)] + rest;
          UsedUpStep(c, m, src, t, ip, start, hi);
          UsedUpIsAdmitted(c, AfterCheck(c, m, src, t), rest, t, ip, start, hi);
          FirstAnswer(c, m, src, t, rest, true, ip, start, hi);
        case Purge(_) =>
          assert calls == [Purge(t)] + rest;
          UsedUpIsAdmitted(c, AfterPurge(c, m, t), rest, t, ip, start, hi);
          FirstPurge(c, m, t, rest, true, ip, start, hi);
      }
    } else {
      assert all[0] == Hello(ip, hi);
    }
  }

  lemma {:induction false} LastIsLatest(calls: seq<Call>, from: Instant, ip: Ip, last: Instant)
    requires Ordered(calls + [Hello(ip, last)], from)
    ensures from <= last
    decreases |calls|
  {
    var all := calls + [Hello(ip, last)];
    if calls != [] {
      assert all[0] == calls[0] && all[1..] == calls[1..] + [Hello(ip, last)];
      LastIsLatest(calls[1..], calls[0].now, ip, last);
    } else {
      assert all[0] == Hello(ip, last);
    }
  }

  lemma {:induction false} AdmittedWidens(calls: seq<Call>, answers: seq<bool>, ip: Ip, lo: int, lo1: int, hi: int)
    requires |answers| == |calls| && lo1 <= lo
    ensures Admitted(calls, answers, ip, lo, hi) <= Admitted(calls, answers, ip, lo1, hi)
    decreases |calls|
  {
    if calls != [] {
      AdmittedWidens(calls[1..], answers[1..], ip, lo, lo1, hi);
    }
  }

  /** The other half of the limiter: with purges at any times and for every cap, a HELLO is
      refused only if a whole budget of HELLOs from its address was admitted less than one
      window before it. So an address is let in again, however often it retries meanwhile. */
  lemma RefusedOnlyOverBudget(c: Limits, calls: seq<Call>, from: Instant, ip: Ip, now: Instant)
    requires c.window > 0 && Ordered(calls + [Hello(ip, now)], from)
    requires !Answers(c, map[], calls + [Hello(ip, now)], true)[|calls|]
    ensures 0 < c.maxPerWindow <= Admitted(calls, Answers(c, map[], calls, true), ip, now - c.window + 1, now)
  {
    var m := After(c, map[], calls);
    LastAnswer(c, map[], calls, ip, now);
    var start := m[ip].start;
    UsedUpIsAdmitted(c, map[], calls, from, ip, start, now);
    AdmittedWidens(calls, Answers(c, map[], calls, true), ip, start, now - c.window + 1, now);
  }

  // ----- What a cap changes -----

  /** `k` HELLOs from address 0. */
  function Flood(k: nat, now: Instant): seq<Call> {
    if k == 0 then [] else [Hello(0, now)] + Flood(k - 1, now)
  }

  /** One HELLO each from addresses n down to 1, at time zero, and then `rest`. */
  function Filling(n: nat, rest: seq<Call>): seq<Call> {
    if n == 0 then rest else [Hello(n, 0)] + Filling(n - 1, rest)
  }

  lemma {:induction false} FloodOrdered(k: nat, now: Instant, from: Instant)
    requires from <= now
    ensures Ordered(Flood(k, now), from)
  {
    if k > 0 {
      FloodOrdered(k - 1, now, now);
      assert Flood(k, now)[1..] == Flood(k - 1, now);
    }
  }

  lemma {:induction false} FillingOrdered(n: nat, rest: seq<Call>)
    requires Ordered(rest, 0)
    ensures Ordered(Filling(n, rest), 0)
  {
    if n > 0 {
      FillingOrdered(n - 1, rest);
      assert Filling(n, rest)[1..] == Filling(n - 1, rest);
    }
  }

  /** The answer to a first HELLO, and how it counts. */
  lemma FirstAnswer(c: Limits, m: Table, src: Ip, now: Instant, rest: seq<Call>, purging: bool, ip: Ip, lo: Instant,
                    hi: Instant)
    ensures var calls, m1 := [Hello(src, now)] + rest, AfterCheck(c, m, src, now);
            Admitted(calls, Answers(c, m, calls, purging), ip, lo, hi)
              == (if src == ip && lo <= now <= hi && Allows(c, m, src, now) then 1 else 0)
                 + Admitted(rest, Answers(c, m1, rest, purging), ip, lo, hi)
  {
    var calls, m1 := [Hello(src, now)] + rest, AfterCheck(c, m, src, now);
    assert calls[1..] == rest;
    assert Answers(c, m, calls, purging) == [Allows(c, m, src, now)] + Answers(c, m1, rest, purging);
    assert Answers(c, m, calls, purging)[1..] == Answers(c, m1, rest, purging);
  }

  /** The table after a filling. */
  function Filled(c: Limits, m: Table, n: nat): Table
    decreases n
  {
    if n == 0 then m else Filled(c, AfterCheck(c, m, n, 0), n - 1)
  }

  lemma FirstTracked(c: Limits, m: Table, ip: Ip)
    requires c.maxPerWindow > 0 && |m| < c.maxEntries && ip !in m
    ensures AfterCheck(c, m, ip, 0) == m[ip := Window(0, 1)] && |AfterCheck(c, m, ip, 0)| == |m| + 1
  {
    assert m[ip := Window(0, 1)].Keys == m.Keys + {ip};
  }

  lemma {:induction false} FilledIsFull(c: Limits, m: Table, n: nat)
    requires c.maxPerWindow > 0 && c.maxEntries > 0 && |m| + n == c.maxEntries && 0 !in m
    requires forall ip :: ip in m ==> n < ip && m[ip].start == 0
    ensures var full := Filled(c, m, n);
            |full| == c.maxEntries && 0 !in full && forall ip :: ip in full ==> full[ip].start == 0
    decreases n
  {
    if n > 0 {
      FirstTracked(c, m, n);
      FilledIsFull(c, m[n := Window(0, 1)], n - 1);
    }
  }

  lemma {:induction false} FillingFills(c: Limits, m: Table, n: nat, rest: seq<Call>, purging: bool, lo: Instant,
                                        hi: Instant)
    ensures Admitted(Filling(n, rest), Answers(c, m, Filling(n, rest), purging), 0, lo, hi)
         == Admitted(rest, Answers(c, Filled(c, m, n), rest, purging), 0, lo, hi)
    decreases n
  {
    if n > 0 {
      FillingFills(c, AfterCheck(c, m, n, 0), n - 1, rest, purging, lo, hi);
      FirstAnswer(c, m, n, 0, Filling(n - 1, rest), purging, 0, lo, hi);
    }
  }

  /** A full table lets a new address flood. */
  lemma {:induction false} FloodPasses(c: Limits, m: Table, k: nat, now: Instant, purging: bool, lo: Instant,
                                       hi: Instant)
    requires 0 < c.maxEntries <= |m| && 0 !in m && lo <= now <= hi
    ensures Admitted(Flood(k, now), Answers(c, m, Flood(k, now), purging), 0, lo, hi) == k
  {
    if k > 0 {
      FirstAnswer(c, m, 0, now, Flood(k - 1, now), purging, 0, lo, hi);
      FloodPasses(c, m, k - 1, now, purging, lo, hi);
    }
  }

  /** With any cap some run admits more than any number given, all at one instant. */
  lemma CapLetsFloodsPass(c: Limits, k: nat) returns (calls: seq<Call>)
    requires c.maxEntries > 0 && c.maxPerWindow > 0
    ensures Ordered(calls, 0) && Admitted(calls, Answers(c, map[], calls, true), 0, 0, c.window) == k
  {
    calls := Filling(c.maxEntries, Flood(k, 0));
    FloodOrdered(k, 0, 0);
    FillingOrdered(c.maxEntries, Flood(k, 0));
    FilledIsFull(c, map[], c.maxEntries);
    FillingFills(c, map[], c.maxEntries, Flood(k, 0), true, 0, c.window);
    FloodPasses(c, Filled(c, map[], c.maxEntries), k, 0, true, 0, c.window);
  }

  /** How many HELLOs from `ip` a fresh limiter admits in the window that begins at `lo`. */
  function AdmittedSince(c: Limits, calls: seq<Call>, ip: Ip, lo: Instant): nat {
    Admitted(calls, Answers(c, map[], calls, true), ip, lo, lo + c.window)
  }

  /** The limiter keeps every address to twice its budget per window in every run. */
  ghost predicate KeepsBound(c: Limits) {
    forall calls: seq<Call>, from: Instant, ip: Ip, lo: Instant
      {:trigger Ordered(calls, from), AdmittedSince(c, calls, ip, lo)} ::
      Ordered(calls, from) ==> AdmittedSince(c, calls, ip, lo) <= 2 * c.maxPerWindow
  }

  /** It does so if and only if its table is not capped. */
  lemma KeepsBoundIff(c: Limits)
    requires c.window > 0 && c.maxPerWindow > 0
    ensures KeepsBound(c) <==> c.maxEntries == 0
  {
    if c.maxEntries == 0 {
      forall calls: seq<Call>, from: Instant, ip: Ip, lo: Instant
        {:trigger Ordered(calls, from), AdmittedSince(c, calls, ip, lo)} | Ordered(calls, from)
        ensures AdmittedSince(c, calls, ip, lo) <= 2 * c.maxPerWindow
      {
        SlidingBound(c, calls, from, ip, lo);
      }
    } else {
      var calls := CapLetsFloodsPass(c, 2 * c.maxPerWindow + 1);
      assert Ordered(calls, 0) && AdmittedSince(c, calls, 0, 0) > 2 * c.maxPerWindow;
    }
  }

  /** A tracked address is kept to its budget. */
  lemma {:induction false} FloodIsStopped(c: Limits, m: Table, k: nat, now: Instant, purging: bool, lo: Instant,
                                          hi: Instant)
    requires c.window > 0 && 0 < c.maxPerWindow && Tracked(c, m, 0) && lo <= now <= hi
    requires Current(c, m, 0, now).start <= now && Since(now, Current(c, m, 0, now).start) < c.window
    requires Current(c, m, 0, now).count <= c.maxPerWindow
    ensures Admitted(Flood(k, now), Answers(c, m, Flood(k, now), purging), 0, lo, hi)
         == Min(k, c.maxPerWindow - Current(c, m, 0, now).count)
    decreases k
  {
    if k > 0 {
      FirstAnswer(c, m, 0, now, Flood(k - 1, now), purging, 0, lo, hi);
      FloodIsStopped(c, AfterCheck(c, m, 0, now), k - 1, now, purging, lo, hi);
    }
  }

  lemma FirstPurge(c: Limits, m: Table, now: Instant, rest: seq<Call>, purging: bool, ip: Ip, lo: Instant, hi: Instant)
    ensures var calls := [Purge(now)] + rest;
            Admitted(calls, Answers(c, m, calls, purging), ip, lo, hi)
              == Admitted(rest, Answers(c, if purging then AfterPurge(c, m, now) else m, rest, purging), ip, lo, hi)
  {
    var calls := [Purge(now)] + rest;
    var m1 := if purging then AfterPurge(c, m, now) else m;
    assert calls[1..] == rest;
    assert Answers(c, m, calls, purging) == [false] + Answers(c, m1, rest, purging);
    assert Answers(c, m, calls, purging)[1..] == Answers(c, m1, rest, purging);
  }

  /** With a cap, a purge can be seen: it makes room for an address that would else pass untracked. */
  lemma CapMakesPurgesVisible(c: Limits) returns (calls: seq<Call>)
    requires c.maxEntries > 0 && c.maxPerWindow > 0 && c.window > 0
    ensures Ordered(calls, 0) && Answers(c, map[], calls, true) != Answers(c, map[], calls, false)
  {
    var w, k := c.window, c.maxPerWindow + 1;
    var rest := [Purge(w)] + Flood(k, w);
    calls := Filling(c.maxEntries, rest);
    FloodOrdered(k, w, w);
    assert rest[1..] == Flood(k, w);
    FillingOrdered(c.maxEntries, rest);
    var full := Filled(c, map[], c.maxEntries);
    FilledIsFull(c, map[], c.maxEntries);
    FillingFills(c, map[], c.maxEntries, rest, true, w, w);
    FillingFills(c, map[], c.maxEntries, rest, false, w, w);
    FirstPurge(c, full, w, Flood(k, w), true, 0, w, w);
    FirstPurge(c, full, w, Flood(k, w), false, 0, w, w);
    assert AfterPurge(c, full, w) == map[];
    FloodIsStopped(c, map[], k, w, true, w, w);
    FloodPasses(c, full, k, w, false, w, w);
  }

  lemma {:induction false} OffAdmitsAll(c: Limits, m: Table, m1: Table, calls: seq<Call>)
    requires c.maxPerWindow == 0
    ensures Answers(c, m, calls, true) == Answers(c, m1, calls, false)
    decreases |calls|
  {
    if calls != [] {
      match calls[0] {
        case Hello(_, _) => OffAdmitsAll(c, m, m1, calls[1..]);
        case Purge(now) => OffAdmitsAll(c, AfterPurge(c, m, now), m1, calls[1..]);
      }
    }
  }

  ghost predicate PurgesInvisible(c: Limits) {
    forall calls, from :: Ordered(calls, from) ==> Answers(c, map[], calls, true) == Answers(c, map[], calls, false)
  }

  /** Purges change no answer in any run if and only if the table is not capped or the limiter
      is off. */
  lemma PurgesInvisibleIff(c: Limits)
    requires c.window > 0
    ensures PurgesInvisible(c) <==> c.maxEntries == 0 || c.maxPerWindow == 0
  {
    if c.maxEntries == 0 || c.maxPerWindow == 0 {
      forall calls, from | Ordered(calls, from)
        ensures Answers(c, map[], calls, true) == Answers(c, map[], calls, false)
      {
        if c.maxPerWindow == 0 {
          OffAdmitsAll(c, map[], map[], calls);
        } else {
          PurgeTransparent(c, calls, from);
        }
      }
    } else {
      var calls := CapMakesPurgesVisible(c);
    }
  }
}
