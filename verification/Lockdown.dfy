/** What the trimmed windows, the drop counter and the hold-down timer of the blacklist
    mean in terms of everything that happened since the server started. */
module Lockdown {
  import opened Types
  import opened Blacklists

  datatype Op = Rejection(now: Instant) | Drop(now: Instant) | Faulty(ip: Ip, now: Instant) | Purge(now: Instant)

  /** Everything that happened, never trimmed: the times of rejections, the times (in
      milliseconds) of shed packets, the times and addresses of blacklistings, and the
      operations that armed lockdown; also when each trimmed window was last trimmed. */
  datatype History = History(
    clock: Instant, rejections: seq<Instant>, drops: seq<nat>, tripTimes: seq<Instant>, tripIps: seq<Ip>,
    armings: seq<Op>, rejectionsTrimmed: Instant, eventsTrimmed: Instant)

  datatype World = World(s: State, h: History)

  const START := World(INITIAL, History(0, [], [], [], [], [], 0, 0))

  predicate Arms(c: Config, s: State, op: Op) {
    match op
    case Rejection(now) => RejectionArms(c, s, now)
    case Drop(now) => DropArms(c, s, now)
    case Faulty(ip, now) => TripArms(c, s, ip, now)
    case Purge(_) => false
  }

  predicate Tripped(c: Config, s: State, op: Op) {
    op.Faulty? && Trips(c, s, op.ip)
  }

  function NextState(c: Config, s: State, op: Op): State {
    match op
    case Rejection(now) => AfterRejection(c, s, now)
    case Drop(now) => AfterDrop(c, s, now)
    case Faulty(ip, now) => AfterFaulty(c, s, ip, now)
    case Purge(now) => AfterPurge(c, s, now)
  }

  function NextHistory(c: Config, w: World, op: Op): History {
    var h := w.h;
    History(
      op.now,
      if op.Rejection? then h.rejections + [op.now] else h.rejections,
      if op.Drop? then h.drops + [Ms(op.now)] else h.drops,
      if Tripped(c, w.s, op) then h.tripTimes + [op.now] else h.tripTimes,
      if Tripped(c, w.s, op) then h.tripIps + [op.ip] else h.tripIps,
      if Arms(c, w.s, op) then h.armings + [op] else h.armings,
      if op.Rejection? || op.Purge? then op.now else h.rejectionsTrimmed,
      if Tripped(c, w.s, op) || op.Purge? then op.now else h.eventsTrimmed)
  }

  function Next(c: Config, w: World, op: Op): World {
    World(NextState(c, w.s, op), NextHistory(c, w, op))
  }

  /** `worlds` is the run of `ops`, in time order, from a fresh blacklist. */
  ghost predicate IsRun(c: Config, ops: seq<Op>, worlds: seq<World>) {
    && |worlds| == |ops| + 1
    && worlds[0] == START
    && (forall k {:trigger ops[k]} :: 0 <= k < |ops| ==>
          worlds[k].h.clock <= ops[k].now && worlds[k + 1] == Next(c, worlds[k], ops[k]))
  }

  // ----- Histories and their recent parts -----

  predicate Sorted(q: seq<nat>) {
    forall i, j :: 0 <= i < j < |q| ==> q[i] <= q[j]
  }

  predicate AllUpTo(q: seq<nat>, limit: nat) {
    forall i :: 0 <= i < |q| ==> q[i] <= limit
  }

  /** `q` is the part of `history` no older than `window` at `now`. */
  predicate IsRecent(q: seq<Instant>, history: seq<Instant>, window: nat, now: Instant) {
    && |q| <= |history| && q == history[|history| - |q|..]
    && (forall i :: 0 <= i < |history| - |q| ==> window < now - history[i])
    && (forall i :: |history| - |q| <= i < |history| ==> now - history[i] <= window)
  }

  /** How many entries of `history` lie in the closed interval [lo, hi]. */
  function Within(history: seq<nat>, lo: int, hi: int): nat {
    if history == [] then 0
    else
      var last := history[|history| - 1];
      Within(history[..|history| - 1], lo, hi) + (if lo <= last <= hi then 1 else 0)
  }

  lemma {:induction false} WithinWidens(history: seq<nat>, lo: int, hi: int, lo1: int, hi1: int)
    requires lo1 <= lo && hi <= hi1
    ensures Within(history, lo, hi) <= Within(history, lo1, hi1)
  {
    if history != [] {
      WithinWidens(history[..|history| - 1], lo, hi, lo1, hi1);
    }
  }

  lemma WithinAppend(history: seq<nat>, x: nat, lo: int, hi: int)
    ensures Within(history + [x], lo, hi) == Within(history, lo, hi) + (if lo <= x <= hi then 1 else 0)
  {
    assert (history + [x])[..|history|] == history;
  }

  lemma {:induction false} TrimmedIsRecent(window: nat, q: seq<Instant>, history: seq<Instant>, now: Instant)
    requires Sorted(history) && AllUpTo(history, now)
    requires |q| <= |history| && q == history[|history| - |q|..]
    requires forall i :: 0 <= i < |history| - |q| ==> window < now - history[i]
    ensures IsRecent(Trimmed(window, q, now), history, window, now)
    decreases |q|
  {
    if q != [] && window < Since(now, q[0]) {
      TrimmedIsRecent(window, q[1..], history, now);
    }
  }

  /** Trimming at a later time, after at most one more entry, again leaves the recent part. */
  lemma TrimAgain(window: nat, q: seq<Instant>, history: seq<Instant>, was: Instant, pushed: seq<Instant>, now: Instant)
    requires IsRecent(q, history, window, was) && was <= now
    requires Sorted(history) && AllUpTo(history, now)
    requires pushed == [] || pushed == [now]
    ensures IsRecent(Trimmed(window, q + pushed, now), history + pushed, window, now)
  {
    var h := history + pushed;
    assert q + pushed == h[|h| - |q + pushed|..];
    TrimmedIsRecent(window, q + pushed, h, now);
  }

  /** A time-ordered history, and the deque that keeps its recent part as of `trimmed`. */
  predicate WindowTrue(q: seq<Instant>, history: seq<Instant>, window: nat, trimmed: Instant) {
    Sorted(history) && AllUpTo(history, trimmed) && IsRecent(q, history, window, trimmed)
  }

  lemma WindowPush(q: seq<Instant>, history: seq<Instant>, window: nat, trimmed: Instant, now: Instant)
    requires WindowTrue(q, history, window, trimmed) && trimmed <= now
    ensures WindowTrue(Trimmed(window, q + [now], now), history + [now], window, now)
    ensures WindowTrue(Trimmed(window, q, now), history, window, now)
  {
    TrimAgain(window, q, history, trimmed, [now], now);
    TrimAgain(window, q, history, trimmed, [], now);
    assert q + [] == q && history + [] == history;
  }

  lemma {:induction false} RecentCounts(q: seq<Instant>, history: seq<Instant>, window: nat, now: Instant)
    requires IsRecent(q, history, window, now) && AllUpTo(history, now)
    ensures Within(history, now - window, now) == |q|
    decreases |history|
  {
    if history != [] {
      var h, p := history[..|history| - 1], if q == [] then q else q[..|q| - 1];
      if q == [] {
        assert window < now - history[|history| - |q| - 1];
      } else {
        assert p == h[|h| - |p|..];
      }
      RecentCounts(p, h, window, now);
    }
  }

  // ----- The rejection window -----

  /** The rejection deque is the full history of rejections restricted to the last window,
      as of the moment it was last trimmed: at a rejection or at a purge. */
  predicate RejectionsTrue(c: Config, w: World) {
    c.rejectionThreshold != 0 ==>
      && w.h.rejectionsTrimmed <= w.h.clock
      && WindowTrue(w.s.rejections, w.h.rejections, c.Window(), w.h.rejectionsTrimmed)
  }

  lemma RejectionsStep(c: Config, w: World, op: Op)
    requires RejectionsTrue(c, w) && w.h.clock <= op.now
    ensures RejectionsTrue(c, Next(c, w, op))
  {
    if c.rejectionThreshold != 0 {
      WindowPush(w.s.rejections, w.h.rejections, c.Window(), w.h.rejectionsTrimmed, op.now);
    }
  }

  /** A rejection arms lockdown exactly when it makes more than the threshold within one window. */
  lemma RejectionArmsIff(c: Config, w: World, op: Op)
    requires RejectionsTrue(c, w) && w.h.clock <= op.now && op.Rejection?
    ensures Arms(c, w.s, op) <==>
              && c.rejectionThreshold != 0
              && Within(Next(c, w, op).h.rejections, op.now - c.Window(), op.now) > c.rejectionThreshold
  {
    if c.rejectionThreshold != 0 {
      RejectionsStep(c, w, op);
      var w1 := Next(c, w, op);
      RecentCounts(w1.s.rejections, w1.h.rejections, c.Window(), op.now);
    }
  }

  // ----- The window of blacklistings -----

  /** The deque of blacklistings likewise, trimmed at a blacklisting or at a purge. */
  predicate EventsTrue(c: Config, w: World) {
    && w.h.eventsTrimmed <= w.h.clock
    && WindowTrue(w.s.events, w.h.tripTimes, c.Window(), w.h.eventsTrimmed)
  }

  lemma EventsStep(c: Config, w: World, op: Op)
    requires EventsTrue(c, w) && w.h.clock <= op.now
    ensures EventsTrue(c, Next(c, w, op))
  {
    WindowPush(w.s.events, w.h.tripTimes, c.Window(), w.h.eventsTrimmed, op.now);
  }

  /** A faulty packet arms lockdown exactly when it blacklists its sender and makes more
      than the threshold of blacklistings within one window. */
  lemma TripArmsIff(c: Config, w: World, op: Op)
    requires EventsTrue(c, w) && w.h.clock <= op.now && op.Faulty?
    ensures Arms(c, w.s, op) <==>
              && Trips(c, w.s, op.ip)
              && Within(Next(c, w, op).h.tripTimes, op.now - c.Window(), op.now) > c.attackThreshold
  {
    if Trips(c, w.s, op.ip) {
      EventsStep(c, w, op);
      var w1 := Next(c, w, op);
      RecentCounts(w1.s.events, w1.h.tripTimes, c.Window(), op.now);
    }
  }

  // ----- The drop counter -----

  /** When the current fixed window of the drop counter opened: windows are opened by the first
      packet shed more than one window after the last one opened; the first is open from the start. */
  function WindowStart(windowMs: nat, drops: seq<nat>): nat {
    if drops == [] then 0
    else
      var before, last := WindowStart(windowMs, drops[..|drops| - 1]), drops[|drops| - 1];
      if before + windowMs < last then last else before
  }

  /** The drop counter is the number of packets shed since the current fixed window opened. */
  predicate DropsTrue(c: Config, w: World) {
    DropThreshold(c) != 0 ==>
      && w.s.dropStart == WindowStart(c.windowMs, w.h.drops) <= Ms(w.h.clock)
      && AllUpTo(w.h.drops, Min(Ms(w.h.clock), w.s.dropStart + c.windowMs))
      && w.s.dropCount == Within(w.h.drops, w.s.dropStart, Ms(w.h.clock))
  }

  lemma WindowStartAppend(windowMs: nat, drops: seq<nat>, last: nat)
    ensures var before := WindowStart(windowMs, drops);
            WindowStart(windowMs, drops + [last]) == if before + windowMs < last then last else before
  {
    assert (drops + [last])[..|drops|] == drops;
  }

  lemma {:induction false} NoneWithin(history: seq<nat>, limit: nat, lo: int, hi: int)
    requires AllUpTo(history, limit) && limit < lo
    ensures Within(history, lo, hi) == 0
  {
    if history != [] {
      NoneWithin(history[..|history| - 1], limit, lo, hi);
    }
  }

  lemma {:induction false} AllWithinLater(history: seq<nat>, lo: int, hi: int, hi1: int)
    requires hi <= hi1 && forall i :: 0 <= i < |history| ==> history[i] <= hi
    ensures Within(history, lo, hi) == Within(history, lo, hi1)
  {
    if history != [] {
      AllWithinLater(history[..|history| - 1], lo, hi, hi1);
    }
  }

  lemma DropsStep(c: Config, w: World, op: Op)
    requires DropsTrue(c, w) && w.h.clock <= op.now
    ensures DropsTrue(c, Next(c, w, op))
  {
    if DropThreshold(c) != 0 {
      var now := Ms(op.now);
      AllWithinLater(w.h.drops, w.s.dropStart, Ms(w.h.clock), now);
      if op.Drop? {
        DropCounted(c, w.h.drops, w.s.dropStart, now);
      }
    }
  }

  /** One more packet shed: it opens a window that holds it alone, or joins the current one. */
  lemma DropCounted(c: Config, drops: seq<nat>, start: nat, now: nat)
    requires start == WindowStart(c.windowMs, drops) && AllUpTo(drops, Min(now, start + c.windowMs))
    ensures start + c.windowMs < now ==>
              WindowStart(c.windowMs, drops + [now]) == now && Within(drops + [now], now, now) == 1
    ensures now <= start + c.windowMs ==>
              && WindowStart(c.windowMs, drops + [now]) == start
              && Within(drops + [now], start, now) == Within(drops, start, now) + (if start <= now then 1 else 0)
  {
    WindowStartAppend(c.windowMs, drops, now);
    WithinAppend(drops, now, start, now);
    WithinAppend(drops, now, now, now);
    if start + c.windowMs < now {
      NoneWithin(drops, start + c.windowMs, now, now);
    }
  }

  /** A shed packet arms lockdown exactly when it makes more than the threshold shed since the
      current fixed window opened. */
  lemma DropArmsIff(c: Config, w: World, op: Op)
    requires DropsTrue(c, w) && w.h.clock <= op.now && op.Drop?
    ensures var drops := Next(c, w, op).h.drops;
            Arms(c, w.s, op) <==>
              && DropThreshold(c) != 0
              && Within(drops, WindowStart(c.windowMs, drops), Ms(op.now)) > DropThreshold(c)
  {
    if DropThreshold(c) != 0 {
      AllWithinLater(w.h.drops, w.s.dropStart, Ms(w.h.clock), Ms(op.now));
      DropCounted(c, w.h.drops, w.s.dropStart, Ms(op.now));
    }
  }

  /** So it does so only when it makes more than the threshold shed within one window. */
  lemma DropArmsOnlyIf(c: Config, w: World, op: Op)
    requires DropsTrue(c, w) && w.h.clock <= op.now && op.Drop? && Arms(c, w.s, op)
    ensures Within(Next(c, w, op).h.drops, Ms(op.now) - c.windowMs, Ms(op.now)) > DropThreshold(c)
  {
    var now, drops := Ms(op.now), Next(c, w, op).h.drops;
    DropArmsIff(c, w, op);
    DropCounted(c, w.h.drops, w.s.dropStart, now);
    WithinWidens(drops, WindowStart(c.windowMs, drops), now, now - c.windowMs, now);
  }

  // ----- The hold-down timer -----

  predicate TimerTrue(c: Config, w: World) {
    && (forall i :: 0 <= i < |w.h.armings| ==>
          w.h.armings[i].now <= w.h.clock && Ms(w.h.armings[i].now) + c.windowMs <= w.s.lockdownUntil)
    && (w.s.lockdownUntil == 0
        || exists i :: 0 <= i < |w.h.armings| && w.s.lockdownUntil == Ms(w.h.armings[i].now) + c.windowMs)
  }

  lemma TimerOnlyArmed(c: Config, s: State, op: Op)
    ensures NextState(c, s, op).lockdownUntil
         == if Arms(c, s, op) then Max(s.lockdownUntil, Ms(op.now) + c.windowMs) else s.lockdownUntil
  {
  }

  lemma TimerStep(c: Config, w: World, op: Op)
    requires TimerTrue(c, w) && w.h.clock <= op.now
    ensures TimerTrue(c, Next(c, w, op))
  {
    TimerOnlyArmed(c, w.s, op);
    var until, armings := NextState(c, w.s, op).lockdownUntil, NextHistory(c, w, op).armings;
    if until != 0 {
      if until == w.s.lockdownUntil {
        var i :| 0 <= i < |w.h.armings| && w.s.lockdownUntil == Ms(w.h.armings[i].now) + c.windowMs;
        assert armings[i] == w.h.armings[i];
      } else {
        assert armings[|w.h.armings|] == op;
      }
    }
  }

  /** Some arming lies less than one window before `now`. */
  predicate ArmedWithin(c: Config, h: History, now: Instant) {
    exists i :: 0 <= i < |h.armings| && Ms(now) < Ms(h.armings[i].now) + c.windowMs
  }

  // ----- Every arming had its cause -----

  /** More than the matching threshold of events of the arming's kind lay within one window before it. */
  predicate Justified(c: Config, h: History, arming: Op) {
    match arming
    case Rejection(a) => Within(h.rejections, a - c.Window(), a) > c.rejectionThreshold > 0
    case Faulty(_, a) => Within(h.tripTimes, a - c.Window(), a) > c.attackThreshold
    case Drop(a) => Within(h.drops, Ms(a) - c.windowMs, Ms(a)) > DropThreshold(c) > 0
    case Purge(_) => false
  }

  predicate ArmingsTrue(c: Config, w: World) {
    forall i :: 0 <= i < |w.h.armings| ==> Justified(c, w.h, w.h.armings[i])
  }

  lemma HistoryGrows(c: Config, w: World, op: Op, lo: int, hi: int)
    ensures var h, h1 := w.h, NextHistory(c, w, op);
            && Within(h.rejections, lo, hi) <= Within(h1.rejections, lo, hi)
            && Within(h.tripTimes, lo, hi) <= Within(h1.tripTimes, lo, hi)
            && Within(h.drops, lo, hi) <= Within(h1.drops, lo, hi)
  {
    WithinAppend(w.h.rejections, op.now, lo, hi);
    WithinAppend(w.h.tripTimes, op.now, lo, hi);
    WithinAppend(w.h.drops, Ms(op.now), lo, hi);
  }

  lemma JustifiedStays(c: Config, w: World, op: Op, arming: Op)
    requires Justified(c, w.h, arming)
    ensures Justified(c, NextHistory(c, w, op), arming)
  {
    HistoryGrows(c, w, op, arming.now - c.Window(), arming.now);
    HistoryGrows(c, w, op, Ms(arming.now) - c.windowMs, Ms(arming.now));
  }

  lemma NewlyJustified(c: Config, w: World, op: Op)
    requires RejectionsTrue(c, w) && EventsTrue(c, w) && DropsTrue(c, w) && w.h.clock <= op.now
    requires Arms(c, w.s, op)
    ensures Justified(c, Next(c, w, op).h, op)
  {
    match op {
      case Rejection(_) => RejectionArmsIff(c, w, op);
      case Faulty(_, _) => TripArmsIff(c, w, op);
      case Drop(_) => DropArmsOnlyIf(c, w, op);
    }
  }

  lemma ArmingsStep(c: Config, w: World, op: Op)
    requires RejectionsTrue(c, w) && EventsTrue(c, w) && DropsTrue(c, w) && ArmingsTrue(c, w) && w.h.clock <= op.now
    ensures ArmingsTrue(c, Next(c, w, op))
  {
    var w1 := Next(c, w, op);
    forall i | 0 <= i < |w1.h.armings| ensures Justified(c, w1.h, w1.h.armings[i]) {
      if i < |w.h.armings| {
        JustifiedStays(c, w, op, w.h.armings[i]);
      } else {
        NewlyJustified(c, w, op);
      }
    }
  }

  // ----- Blacklistings of one address are a block apart -----

  predicate Spaced(h: History, gap: nat)
    requires |h.tripIps| == |h.tripTimes|
  {
    forall i, j :: 0 <= i < j < |h.tripIps| && h.tripIps[i] == h.tripIps[j] ==> h.tripTimes[i] + gap <= h.tripTimes[j]
  }

  /** Each past blacklisting either still blocks its address for its full term, or that term is over. */
  predicate BlocksTrue(c: Config, w: World) {
    && |w.h.tripIps| == |w.h.tripTimes| && AllUpTo(w.h.tripTimes, w.h.clock) && Spaced(w.h, c.duration)
    && (forall i :: 0 <= i < |w.h.tripIps| ==>
          || w.h.tripTimes[i] + c.duration <= w.h.clock
          || StillBlocked(w.s.table, w.h.tripIps[i], w.h.tripTimes[i] + c.duration))
  }

  predicate StillBlocked(table: Table, ip: Ip, until: Instant) {
    ip in table && table[ip].blockedUntil.Some? && until <= table[ip].blockedUntil.value
  }

  lemma StillBlockedStep(c: Config, s: State, op: Op, ip: Ip, until: Instant)
    requires StillBlocked(s.table, ip, until) && until <= op.now + c.duration
    ensures until <= op.now || StillBlocked(NextState(c, s, op).table, ip, until)
    ensures Tripped(c, s, op) ==> ip != op.ip
  {
  }

  lemma BlocksStep(c: Config, w: World, op: Op)
    requires BlocksTrue(c, w) && w.h.clock <= op.now
    ensures BlocksTrue(c, Next(c, w, op))
  {
    forall i | 0 <= i < |w.h.tripIps| && w.h.clock < w.h.tripTimes[i] + c.duration
      ensures var until := w.h.tripTimes[i] + c.duration;
              && (until <= op.now || StillBlocked(NextState(c, w.s, op).table, w.h.tripIps[i], until))
              && (Tripped(c, w.s, op) ==> w.h.tripIps[i] != op.ip)
    {
      StillBlockedStep(c, w.s, op, w.h.tripIps[i], w.h.tripTimes[i] + c.duration);
    }
  }

  // ----- Every run -----

  predicate Inv(c: Config, w: World) {
    && RejectionsTrue(c, w) && EventsTrue(c, w) && DropsTrue(c, w)
    && TimerTrue(c, w) && ArmingsTrue(c, w) && BlocksTrue(c, w)
  }

  lemma InvStep(c: Config, w: World, op: Op)
    requires Inv(c, w) && w.h.clock <= op.now
    ensures Inv(c, Next(c, w, op))
  {
    RejectionsStep(c, w, op);
    EventsStep(c, w, op);
    DropsStep(c, w, op);
    TimerStep(c, w, op);
    ArmingsStep(c, w, op);
    BlocksStep(c, w, op);
  }

  /** In every run the two deques are the recent part of the full history, the drop counter
      counts the packets shed in the current fixed window, and every arming had its cause. */
  lemma {:induction false} HistoryTrue(c: Config, ops: seq<Op>, worlds: seq<World>, n: nat)
    requires IsRun(c, ops, worlds) && n <= |ops|
    ensures Inv(c, worlds[n])
  {
    if n > 0 {
      HistoryTrue(c, ops, worlds, n - 1);
      assert worlds[n] == Next(c, worlds[n - 1], ops[n - 1]);
      InvStep(c, worlds[n - 1], ops[n - 1]);
    }
  }

  /** Lockdown is engaged at `now` exactly when some arming lies less than one window back,
      and each arming had more than its threshold of causes within one window before it. */
  lemma LockdownIffArmed(c: Config, ops: seq<Op>, worlds: seq<World>, n: nat, now: Instant)
    requires IsRun(c, ops, worlds) && n <= |ops|
    requires c.attackThreshold != 0 || c.rejectionThreshold != 0
    ensures UnderAttack(c, worlds[n].s, now) <==> ArmedWithin(c, worlds[n].h, now)
    ensures forall i :: 0 <= i < |worlds[n].h.armings| ==> Justified(c, worlds[n].h, worlds[n].h.armings[i])
  {
    HistoryTrue(c, ops, worlds, n);
  }

  /** Over the last two windows, no kind of event whose trigger is on exceeded its threshold. */
  predicate Quiet(c: Config, h: History, now: Instant) {
    && (c.rejectionThreshold != 0 ==> Within(h.rejections, now - 2 * c.Window(), now) <= c.rejectionThreshold)
    && Within(h.tripTimes, now - 2 * c.Window(), now) <= c.attackThreshold
    && (DropThreshold(c) != 0 ==> Within(h.drops, Ms(now) - 2 * c.windowMs, Ms(now)) <= DropThreshold(c))
  }

  lemma ArmingDisturbs(c: Config, h: History, arming: Op, now: Instant)
    requires Justified(c, h, arming) && arming.now <= now && Ms(now) < Ms(arming.now) + c.windowMs
    ensures !Quiet(c, h, now)
  {
    var a: int, w: int := arming.now, c.Window();
    assert now < a + w;
    WithinWidens(h.rejections, a - w, a, now - 2 * w, now);
    WithinWidens(h.tripTimes, a - w, a, now - 2 * w, now);
    WithinWidens(h.drops, Ms(a) - c.windowMs, Ms(a), Ms(now) - 2 * c.windowMs, Ms(now));
  }

  /** A trickle cannot hold lockdown: after two quiet windows it is off. */
  lemma QuietTurnsLockdownOff(c: Config, ops: seq<Op>, worlds: seq<World>, n: nat, now: Instant)
    requires IsRun(c, ops, worlds) && n <= |ops| && worlds[n].h.clock <= now
    requires Quiet(c, worlds[n].h, now)
    ensures !UnderAttack(c, worlds[n].s, now)
  {
    HistoryTrue(c, ops, worlds, n);
    var h := worlds[n].h;
    if UnderAttack(c, worlds[n].s, now) {
      var i :| 0 <= i < |h.armings| && Ms(now) < Ms(h.armings[i].now) + c.windowMs;
      ArmingDisturbs(c, h, h.armings[i], now);
    }
  }

  /** When blocks outlast the attack window, the deque of blacklistings never counts one
      address twice: "over the threshold" means that many distinct addresses. */
  lemma EventsAreDistinctAddresses(c: Config, ops: seq<Op>, worlds: seq<World>, n: nat)
    requires IsRun(c, ops, worlds) && n <= |ops| && c.Window() < c.duration
    ensures |worlds[n].s.events| <= |worlds[n].h.tripIps|
    ensures forall i: int, j: int :: |worlds[n].h.tripIps| - |worlds[n].s.events| <= i < j < |worlds[n].h.tripIps| ==>
              worlds[n].h.tripIps[i] != worlds[n].h.tripIps[j]
  {
    HistoryTrue(c, ops, worlds, n);
  }
}
