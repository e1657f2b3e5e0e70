/** Per-address blacklisting of faulty senders, and the lockdown that a burst of
    blacklistings, of rejections or of shed packets engages. */
module Blacklists {
  import opened Types

  /** `windowMs` is the attack window; thresholds of zero switch their trigger off, except
      that the trip trigger has no such test. `maxEntries == 0` means no cap. */
  datatype Config = Config(
    threshold: u32, duration: nat, attackThreshold: u32, rejectionThreshold: u32, windowMs: nat, maxEntries: nat)
  {
    function Window(): (window: nat)
      ensures window == windowMs * 1_000_000
    {
      windowMs * NANOS_PER_MILLI
    }
  }

  datatype Entry = Entry(faults: nat, blockedUntil: Option<Instant>)

  type Table = map<Ip, Entry>

  /** All the fields that change. Lockdown and drop-window times are in milliseconds. */
  datatype State = State(
    table: Table, events: seq<Instant>, rejections: seq<Instant>,
    lockdownUntil: nat, dropStart: nat, dropCount: nat)

  const INITIAL := State(map[], [], [], 0, 0, 0)

  /** Milliseconds since the server started. */
  function Ms(now: Instant): (ms: nat)
    ensures ms * 1_000_000 <= now < (ms + 1) * 1_000_000
  {
    now / NANOS_PER_MILLI
  }

  /** `q` without the entries at its front that are older than `window`. */
  function Trimmed(window: nat, q: seq<Instant>, now: Instant): seq<Instant> {
    if q == [] || Since(now, q[0]) <= window then q else Trimmed(window, q[1..], now)
  }

  predicate UnderAttack(c: Config, s: State, now: Instant) {
    !(c.attackThreshold == 0 && c.rejectionThreshold == 0) && Ms(now) < s.lockdownUntil
  }

  function Armed(c: Config, s: State, now: Instant): State {
    s.(lockdownUntil := Max(s.lockdownUntil, Ms(now) + c.windowMs))
  }

  // ----- Rejections -----

  predicate RejectionArms(c: Config, s: State, now: Instant) {
    c.rejectionThreshold != 0 && |Trimmed(c.Window(), s.rejections + [now], now)| > c.rejectionThreshold
  }

  function AfterRejection(c: Config, s: State, now: Instant): State {
    if c.rejectionThreshold == 0 then s
    else
      var s1 := s.(rejections := Trimmed(c.Window(), s.rejections + [now], now));
      if RejectionArms(c, s, now) then Armed(c, s1, now) else s1
  }

  // ----- Packets shed under lockdown -----

  /** The drop-rate threshold: that for rejections if set, else that for blacklistings. */
  function DropThreshold(c: Config): (threshold: u32)
    ensures c.rejectionThreshold != 0 ==> threshold == c.rejectionThreshold
    ensures c.rejectionThreshold == 0 ==> threshold == c.attackThreshold
  {
    if c.rejectionThreshold > 0 then c.rejectionThreshold else c.attackThreshold
  }

  predicate DropOpensWindow(c: Config, s: State, now: Instant) {
    s.dropStart + c.windowMs < Ms(now)
  }

  predicate DropArms(c: Config, s: State, now: Instant) {
    DropThreshold(c) != 0 && !DropOpensWindow(c, s, now) && s.dropCount + 1 > DropThreshold(c)
  }

  function AfterDrop(c: Config, s: State, now: Instant): State {
    if DropThreshold(c) == 0 then s
    else if DropOpensWindow(c, s, now) then s.(dropStart := Ms(now), dropCount := 1)
    else
      var s1 := s.(dropCount := s.dropCount + 1);
      if DropArms(c, s, now) then Armed(c, s1, now) else s1
  }

  // ----- Faulty packets -----

  predicate Blocked(c: Config, s: State, ip: Ip, now: Instant) {
    c.threshold != 0 && ip in s.table && s.table[ip].blockedUntil.Some? && now < s.table[ip].blockedUntil.value
  }

  predicate Tracked(c: Config, s: State, ip: Ip) {
    c.maxEntries == 0 || |s.table| < c.maxEntries || ip in s.table
  }

  function Entered(s: State, ip: Ip): Entry {
    if ip in s.table then s.table[ip] else Entry(0, None)
  }

  /** The packet that newly blacklists its sender. */
  predicate Trips(c: Config, s: State, ip: Ip) {
    && c.threshold != 0 && Tracked(c, s, ip)
    && Entered(s, ip).blockedUntil.None? && Entered(s, ip).faults + 1 > c.threshold
  }

  predicate TripArms(c: Config, s: State, ip: Ip, now: Instant) {
    Trips(c, s, ip) && |Trimmed(c.Window(), s.events + [now], now)| > c.attackThreshold
  }

  function FaultyEntry(c: Config, e: Entry, now: Instant): Entry {
    if e.blockedUntil.Some? then
      if now < e.blockedUntil.value then e.(blockedUntil := Some(now + c.duration)) else Entry(1, None)
    else if e.faults + 1 > c.threshold then Entry(e.faults + 1, Some(now + c.duration))
    else Entry(e.faults + 1, None)
  }

  function AfterFaulty(c: Config, s: State, ip: Ip, now: Instant): State {
    if c.threshold == 0 || !Tracked(c, s, ip) then s
    else
      var s1 := s.(table := s.table[ip := FaultyEntry(c, Entered(s, ip), now)]);
      if !Trips(c, s, ip) then s1
      else
        var s2 := s1.(events := Trimmed(c.Window(), s.events + [now], now));
        if TripArms(c, s, ip, now) then Armed(c, s2, now) else s2
  }

  function AfterPurge(c: Config, s: State, now: Instant): State {
    s.(table := map ip | ip in s.table && s.table[ip].blockedUntil.Some? && now < s.table[ip].blockedUntil.value ::
                  s.table[ip],
       events := Trimmed(c.Window(), s.events, now),
       rejections := Trimmed(c.Window(), s.rejections, now))
  }

  class Blacklist {
    const config: Config
    var table: Table
    var events: seq<Instant>
    var rejections: seq<Instant>
    var lockdownUntil: nat
    var dropStart: nat
    var dropCount: nat

    function Contents(): State
      reads this
    {
      State(table, events, rejections, lockdownUntil, dropStart, dropCount)
    }

    constructor (threshold: u32, durationSeconds: u64, attackThreshold: u32, rejectionThreshold: u32,
                 attackWindowSeconds: u64, maxEntries: nat)
      ensures Contents() == INITIAL
      ensures config == Config(threshold, durationSeconds * 1_000_000_000, attackThreshold, rejectionThreshold,
                               Max(attackWindowSeconds, 1) * 1000, maxEntries)
    {
      config := Config(threshold, durationSeconds * NANOS_PER_SECOND, attackThreshold, rejectionThreshold,
                       Max(attackWindowSeconds, 1) * 1000, maxEntries);
      table, events, rejections := map[], [], [];
      lockdownUntil, dropStart, dropCount := 0, 0, 0;
    }

    /** Whether lockdown is engaged. */
    method IsUnderAttack(now: Instant) returns (b: bool)
      ensures b == UnderAttack(config, Contents(), now)
      ensures b <==> (config.attackThreshold != 0 || config.rejectionThreshold != 0) && Ms(now) < lockdownUntil
    {
      if config.attackThreshold == 0 && config.rejectionThreshold == 0 {
        return false;
      }
      b := Ms(now) < lockdownUntil;
    }

    /** Engages or extends lockdown for one attack window from now. */
    method ArmLockdown(now: Instant)
      modifies this`lockdownUntil
      ensures Contents() == Armed(config, old(Contents()), now)
      ensures lockdownUntil == Max(old(lockdownUntil), Ms(now) + config.windowMs)
    {
      var until := Ms(now) + config.windowMs;
      if lockdownUntil < until {
        lockdownUntil := until;
      }
    }

    /** Pops the entries at the front that are older than `window`. */
    static method Trim(window: nat, q: seq<Instant>, now: Instant) returns (r: seq<Instant>)
      ensures r == Trimmed(window, q, now)
      ensures |r| <= |q| && r == q[|q| - |r|..] && (r != [] ==> Since(now, r[0]) <= window)
      ensures forall i :: 0 <= i < |q| - |r| ==> Since(now, q[i]) > window
    {
      r := q;
      while r != [] && Since(now, r[0]) > window
        invariant Trimmed(window, r, now) == Trimmed(window, q, now)
        invariant |r| <= |q| && r == q[|q| - |r|..]
        invariant forall i :: 0 <= i < |q| - |r| ==> Since(now, q[i]) > window
        decreases |r|
      {
        r := r[1..];
      }
    }

    /** Counts a rejected packet toward lockdown. */
    method NoteRejection(now: Instant)
      modifies this
      ensures Contents() == AfterRejection(config, old(Contents()), now)
      ensures Contents() == old(Contents()).(rejections := rejections, lockdownUntil := lockdownUntil)
      ensures rejections == if config.rejectionThreshold == 0 then old(rejections)
                            else Trimmed(config.windowMs * 1_000_000, old(rejections) + [now], now)
      ensures lockdownUntil == if 0 < config.rejectionThreshold < |rejections|
                               then Max(old(lockdownUntil), Ms(now) + config.windowMs) else old(lockdownUntil)
    {
      if config.rejectionThreshold == 0 {
        return;
      }
      rejections := rejections + [now];
      rejections := Trim(config.Window(), rejections, now);
      if |rejections| > config.rejectionThreshold {
        ArmLockdown(now);
      }
    }

    /** Counts a packet dropped at the lockdown gate; re-arms while the drop rate is high. */
    method NoteLockdownDrop(now: Instant)
      modifies this
      ensures Contents() == AfterDrop(config, old(Contents()), now)
      ensures Contents() == old(Contents()).(dropStart := dropStart, dropCount := dropCount,
                                             lockdownUntil := lockdownUntil)
      ensures config.rejectionThreshold == config.attackThreshold == 0 ==> Contents() == old(Contents())
      ensures config.rejectionThreshold != 0 || config.attackThreshold != 0 ==>
                if old(dropStart) + config.windowMs < Ms(now)
                then dropStart == Ms(now) && dropCount == 1 && lockdownUntil == old(lockdownUntil)
                else && dropStart == old(dropStart) && dropCount == old(dropCount) + 1
                     && lockdownUntil
                        == if (if config.rejectionThreshold != 0 then config.rejectionThreshold
                               else config.attackThreshold) < dropCount
                           then Max(old(lockdownUntil), Ms(now) + config.windowMs) else old(lockdownUntil)
    {
      var thresh := config.rejectionThreshold;
      if thresh == 0 {
        if config.attackThreshold == 0 {
          return;
        }
        thresh := config.attackThreshold;
      }
      if Since(Ms(now), dropStart) > config.windowMs {
        dropStart := Ms(now);
        dropCount := 1;
      } else {
        dropCount := dropCount + 1;
        if dropCount > thresh {
          ArmLockdown(now);
        }
      }
    }

    /** The gate in front of all expensive work. */
    method IsBlocked(ip: Ip, now: Instant) returns (b: bool)
      ensures b == Blocked(config, Contents(), ip, now)
      ensures b <==> && config.threshold != 0 && ip in table
                     && table[ip].blockedUntil.Some? && now < table[ip].blockedUntil.value
    {
      if config.threshold == 0 {
        return false;
      }
      b := ip in table && table[ip].blockedUntil.Some? && now < table[ip].blockedUntil.value;
    }

    /** Records an undecryptable or undecodable packet; true when it newly blacklists its sender.
        A blocked sender's block is extended, and a sender whose block is over starts afresh. */
    method RecordFaulty(ip: Ip, now: Instant) returns (tripped: bool)
      modifies this
      ensures tripped == Trips(config, old(Contents()), ip)
      ensures Contents() == AfterFaulty(config, old(Contents()), ip, now)
      ensures config.threshold == 0 || (ip !in old(table) && 0 < config.maxEntries <= |old(table)|) ==>
                !tripped && Contents() == old(Contents())
      ensures !(config.threshold == 0 || (ip !in old(table) && 0 < config.maxEntries <= |old(table)|)) ==>
                && ip in table && table - {ip} == old(table) - {ip}
                && table[ip] == (
                     if ip !in old(table) then Entry(1, if tripped then Some(now + config.duration) else None)
                     else
                       var Entry(faults, until) := old(table)[ip];
                       if until.None? then Entry(faults + 1, if tripped then Some(now + config.duration) else None)
                       else if now < until.value then Entry(faults, Some(now + config.duration))
                       else Entry(1, None))
                && (tripped <==> table[ip].faults > config.threshold
                                 && (ip in old(table) ==> old(table)[ip].blockedUntil.None?))
      ensures events == if tripped then Trimmed(config.windowMs * 1_000_000, old(events) + [now], now) else old(events)
      ensures lockdownUntil == if tripped && |events| > config.attackThreshold
                               then Max(old(lockdownUntil), Ms(now) + config.windowMs) else old(lockdownUntil)
      ensures rejections == old(rejections) && dropStart == old(dropStart) && dropCount == old(dropCount)
      ensures 0 < config.maxEntries && |old(table)| <= config.maxEntries ==> |table| <= config.maxEntries
    {
      if config.threshold == 0 {
        return false;
      }
      tripped := false;
      if config.maxEntries > 0 && |table| >= config.maxEntries && ip !in table {
        return;
      }
      var entry := if ip in table then table[ip] else Entry(0, None);
      if entry.blockedUntil.Some? {
        if now < entry.blockedUntil.value {
          table := table[ip := entry.(blockedUntil := Some(now + config.duration))];
        } else {
          table := table[ip := Entry(1, None)];
          tripped := 1 > config.threshold;
        }
      } else {
        entry := entry.(faults := entry.faults + 1);
        if entry.faults > config.threshold {
          entry := entry.(blockedUntil := Some(now + config.duration));
          tripped := true;
        }
        table := table[ip := entry];
      }
      if tripped {
        events := events + [now];
        events := Trim(config.Window(), events, now);
        if |events| > config.attackThreshold {
          ArmLockdown(now);
        }
      }
    }

    /** Forgets every address that is not blocked right now, and trims the two windows. */
    method PurgeStale(now: Instant)
      modifies this
      ensures Contents() == AfterPurge(config, old(Contents()), now)
      ensures forall ip :: ip in table <==>
                && ip in old(table) && old(table)[ip].blockedUntil.Some? && now < old(table)[ip].blockedUntil.value
      ensures forall ip :: ip in table ==> table[ip] == old(table)[ip]
      ensures events == Trimmed(config.windowMs * 1_000_000, old(events), now)
      ensures rejections == Trimmed(config.windowMs * 1_000_000, old(rejections), now)
      ensures lockdownUntil == old(lockdownUntil) && dropStart == old(dropStart) && dropCount == old(dropCount)
    {
      table := map ip | ip in table && table[ip].blockedUntil.Some? && now < table[ip].blockedUntil.value :: table[ip];
      events := Trim(config.Window(), events, now);
      rejections := Trim(config.Window(), rejections, now);
    }
  }
}
