/** Leases are kept per client, the firewall per source address. This module runs the lease
    table, the grant cooldown and the firewall together, with the hooks acting as the
    sample hook script does: a grant opens the address, a revoke closes it when it is told
    that no other client is left on it. */
module Firewall {
  import opened Types
  import opened Cooldowns
  import opened Leases

  datatype Config = Config(cap: nat, cooldown: nat)

  datatype State = State(leases: Leases.Table, granted: Marks<ClientKey>, open: set<Ip>)

  datatype Event =
    | Pulse(client: ClientKey, source: Endpoint, param: Option<string>, ttl: nat, now: Instant)
    | Bye(client: ClientKey, now: Instant)
    | LeaseScan(now: Instant)

  /** Whether a verified pulse runs the grant hook: always for a new session, and for a
      continued one unless the client's last grant is too recent. */
  predicate Grants(c: Config, s: State, client: ClientKey, now: Instant) {
    !Live(s.leases, client, now) || !Cooling(c.cooldown, s.granted, client, now)
  }

  /** The addresses a scan at `now` closes: those of expired leases with no live lease left. */
  function Closed(m: Leases.Table, now: Instant): set<Ip> {
    set c | c in m && m[c].expiresAt <= now && LiveOn(m, m[c].ip, now) == {} :: m[c].ip
  }

  function Next(c: Config, s: State, e: Event): State {
    match e
    case Pulse(client, src, param, ttl, now) =>
      var leases := AfterRenew(c.cap, s.leases, client, Lease(now + ttl, src.ip, src.port, param));
      if Grants(c, s, client, now)
      then State(leases, AfterMark(c.cooldown, s.granted, client, now), s.open + {src.ip})
      else s.(leases := leases)
    case Bye(client, now) =>
      if client !in s.leases then s
      else
        var ip := s.leases[client].ip;
        State(s.leases - {client}, s.granted,
              if Others(s.leases, ip, client, now) == 0 then s.open - {ip} else s.open)
    case LeaseScan(now) =>
      State(AfterScan(s.leases, now), s.granted, s.open - Closed(s.leases, now))
  }

  // ----- The revoke hooks of one scan -----

  /** The firewall after the revoke hooks of one scan have run one after the other. */
  function RevokeEach(open: set<Ip>, ended: seq<Ended>): set<Ip> {
    if ended == [] then open
    else
      var before := RevokeEach(open, ended[..|ended| - 1]);
      var last := ended[|ended| - 1];
      if last.remaining == 0 then before - {last.lease.ip} else before
  }

  lemma {:induction false} RevokeEachCloses(open: set<Ip>, ended: seq<Ended>, ip: Ip)
    ensures ip in RevokeEach(open, ended) <==>
              ip in open && !exists i :: 0 <= i < |ended| && ended[i].remaining == 0 && ended[i].lease.ip == ip
  {
    if ended != [] {
      RevokeEachCloses(open, ended[..|ended| - 1], ip);
    }
  }

  /** Whatever order the drained leases are reported in, their revoke hooks leave the same
      addresses open: all but those that lost their last live lease. */
  lemma RevokeOrderIrrelevant(m: Leases.Table, now: Instant, ended: seq<Ended>, open: set<Ip>)
    requires DrainReport(m, now, ended)
    ensures RevokeEach(open, ended) == open - Closed(m, now)
  {
    forall ip ensures ip in RevokeEach(open, ended) <==> ip in open - Closed(m, now) {
      RevokeEachCloses(open, ended, ip);
      if ip in Closed(m, now) {
        var c :| c in m && m[c].expiresAt <= now && LiveOn(m, m[c].ip, now) == {} && m[c].ip == ip;
        assert c in ExpiredKeys(m, now);
        var i :| 0 <= i < |ended| && ended[i].lease.client == c;
        assert ended[i].remaining == 0 && ended[i].lease.ip == ip;
      }
    }
  }

  // ----- Runs -----

  /** `states` is the run of `events`, in time order, from empty tables and a closed firewall. */
  ghost predicate IsRun(c: Config, events: seq<Event>, states: seq<State>) {
    && |states| == |events| + 1
    && states[0] == State(map[], map[], {})
    && (forall k {:trigger events[k]} :: 0 <= k < |events| ==> states[k + 1] == Next(c, states[k], events[k]))
    && (forall j, k :: 0 <= j < k < |events| ==> events[j].now <= events[k].now)
  }

  /** Every client with a live lease finds its address open. */
  ghost predicate Covered(s: State, now: Instant) {
    forall client :: Live(s.leases, client, now) ==> s.leases[client].ip in s.open
  }

  /** The one way a pulse can leave a live lease behind a closed firewall. */
  predicate LocksOut(c: Config, s: State, e: Event) {
    e.Pulse? && !Grants(c, s, e.client, e.now) && e.source.ip !in s.open
  }

  /** A step keeps every live lease's address open if, and only if, it is not a pulse from
      a closed address whose grant the cooldown suppresses. */
  lemma StepCovers(c: Config, s: State, e: Event, before: Instant)
    requires e.Pulse? ==> e.ttl > 0
    requires before <= e.now && Covered(s, before)
    ensures Covered(Next(c, s, e), e.now) <==> !LocksOut(c, s, e)
  {
    var after := Next(c, s, e);
    match e {
      case Pulse(client, src, _, ttl, now) =>
        PulseCovers(c, s, e, before);
      case Bye(client, now) =>
        forall x | Live(after.leases, x, now) ensures after.leases[x].ip in after.open {
          if client in s.leases && s.leases[client].ip == s.leases[x].ip {
            assert x in LiveOn(s.leases, s.leases[client].ip, now) - {client};
          }
        }
      case LeaseScan(now) =>
        forall x | Live(after.leases, x, now) ensures after.leases[x].ip in after.open {
          assert x in LiveOn(s.leases, s.leases[x].ip, now);
        }
    }
  }

  lemma PulseCovers(c: Config, s: State, e: Event, before: Instant)
    requires e.Pulse? && e.ttl > 0
    requires before <= e.now && Covered(s, before)
    ensures Covered(Next(c, s, e), e.now) <==> !LocksOut(c, s, e)
  {
    var after := Next(c, s, e);
    assert forall x :: x != e.client && x in after.leases ==> x in s.leases && after.leases[x] == s.leases[x];
    if LocksOut(c, s, e) {
      assert Live(s.leases, e.client, e.now);
      assert Live(after.leases, e.client, e.now);
    }
  }

  /** Enough for that: no cooldown, or no pulse that moves a live lease to another address. */
  predicate KeepsAddress(c: Config, s: State, e: Event) {
    e.Pulse? && c.cooldown != 0 && Live(s.leases, e.client, e.now) ==> s.leases[e.client].ip == e.source.ip
  }

  ghost predicate AddressesKept(c: Config, events: seq<Event>, states: seq<State>, n: nat)
    requires n <= |events| < |states|
  {
    forall k {:trigger KeepsAddress(c, states[k], events[k])} :: 0 <= k < n ==>
      KeepsAddress(c, states[k], events[k])
  }

  /** Lease lengths are positive, as the clamp in the RESPONSE handler makes them. */
  predicate LeasesLast(events: seq<Event>) {
    forall k :: 0 <= k < |events| && events[k].Pulse? ==> events[k].ttl > 0
  }

  lemma {:induction false} CoveredAfter(c: Config, events: seq<Event>, states: seq<State>, n: nat, now: Instant)
    requires IsRun(c, events, states) && n <= |events|
    requires AddressesKept(c, events, states, n) && LeasesLast(events)
    requires n > 0 ==> events[n - 1].now <= now
    ensures Covered(states[n], now)
  {
    if n > 0 {
      var s, e := states[n - 1], events[n - 1];
      assert KeepsAddress(c, states[n - 1], events[n - 1]);
      CoveredAfter(c, events, states, n - 1, if n > 1 then events[n - 2].now else 0);
      StepCovers(c, s, e, if n > 1 then events[n - 2].now else 0);
      assert states[n] == Next(c, s, e);
      assert !LocksOut(c, s, e);
    }
  }

  /** Safety: in every reachable state, at every later moment, the address of every live
      lease is open, provided there is no cooldown or live leases keep their address. */
  lemma LiveLeasesAreOpen(c: Config, events: seq<Event>, states: seq<State>, n: nat, client: ClientKey, now: Instant)
    requires IsRun(c, events, states) && n <= |events|
    requires AddressesKept(c, events, states, n) && LeasesLast(events)
    requires n > 0 ==> events[n - 1].now <= now
    requires Live(states[n].leases, client, now)
    ensures states[n].leases[client].ip in states[n].open
  {
    CoveredAfter(c, events, states, n, now);
  }

  // ----- Exactness -----

  /** The pulse neither moves a tracked lease nor is refused by a full table. */
  predicate Tracks(c: Config, s: State, e: Event) {
    e.Pulse? ==>
      if e.client in s.leases then s.leases[e.client].ip == e.source.ip else |s.leases| < c.cap
  }

  /** The addresses of tracked leases, expired or not. */
  function TrackedIps(m: Leases.Table): set<Ip> {
    set c | c in m :: m[c].ip
  }

  /** The two ways a pulse leaves an address open that no lease accounts for: a client
      refused by the full table is granted an address nobody tracks, or the last tracked
      client on an open address moves away. */
  predicate Leaks(c: Config, s: State, e: Event) {
    e.Pulse? &&
    if e.client in s.leases then
      var was := s.leases[e.client].ip;
      was != e.source.ip && was in s.open && was !in TrackedIps(s.leases - {e.client})
    else
      c.cap <= |s.leases| && e.source.ip !in TrackedIps(s.leases)
  }

  /** A step keeps every open address accounted for if, and only if, it is not one of those. */
  lemma StepLeaks(c: Config, s: State, e: Event)
    requires s.open <= TrackedIps(s.leases)
    ensures Next(c, s, e).open <= TrackedIps(Next(c, s, e).leases) <==> !Leaks(c, s, e)
  {
    if e.Pulse? {
      PulseLeaks(c, s, e);
    } else {
      RevokesNeverLeak(c, s, e);
    }
  }

  lemma PulseLeaks(c: Config, s: State, e: Event)
    requires e.Pulse? && s.open <= TrackedIps(s.leases)
    ensures Next(c, s, e).open <= TrackedIps(Next(c, s, e).leases) <==> !Leaks(c, s, e)
  {
    var openAfter := if Grants(c, s, e.client, e.now) then s.open + {e.source.ip} else s.open;
    assert Next(c, s, e).open == openAfter;
    if e.client in s.leases || |s.leases| < c.cap {
      var lease := Lease(e.now + e.ttl, e.source.ip, e.source.port, e.param);
      assert Next(c, s, e).leases == s.leases[e.client := lease];
      MovedAddresses(s.leases, e.client, lease);
    } else {
      assert Next(c, s, e).leases == s.leases;
    }
  }

  lemma MovedAddresses(m: Leases.Table, client: ClientKey, lease: Lease)
    ensures TrackedIps(m[client := lease]) == TrackedIps(m - {client}) + {lease.ip}
    ensures TrackedIps(m) == TrackedIps(m - {client}) + (if client in m then {m[client].ip} else {})
  {
    var after, without := m[client := lease], m - {client};
    forall ip | ip in TrackedIps(without) ensures ip in TrackedIps(after) && ip in TrackedIps(m) {
      var x :| x in without && without[x].ip == ip;
      assert x in after && after[x].ip == ip && x in m && m[x].ip == ip;
    }
    forall ip | ip in TrackedIps(m) ensures ip in TrackedIps(without) || (client in m && ip == m[client].ip) {
      var x :| x in m && m[x].ip == ip;
      assert x != client ==> x in without && without[x].ip == ip;
    }
    forall ip | ip in TrackedIps(after) ensures ip in TrackedIps(without) || ip == lease.ip {
      var x :| x in after && after[x].ip == ip;
      assert x != client ==> x in without && without[x].ip == ip;
    }
    assert client in after && after[client].ip == lease.ip;
  }

  lemma RevokesNeverLeak(c: Config, s: State, e: Event)
    requires !e.Pulse? && s.open <= TrackedIps(s.leases)
    ensures Next(c, s, e).open <= TrackedIps(Next(c, s, e).leases)
  {
    var after := Next(c, s, e);
    forall ip | ip in after.open ensures ip in TrackedIps(after.leases) {
      var x :| x in s.leases && s.leases[x].ip == ip;
      if x in after.leases {
        assert after.leases[x].ip == ip;
      } else {
        var y :| y in LiveOn(s.leases, ip, e.now) && y in after.leases;
        assert after.leases[y].ip == ip;
      }
    }
  }

  /** The addresses of live leases. */
  function LiveIps(m: Leases.Table, now: Instant): set<Ip> {
    set c | c in m && now < m[c].expiresAt :: m[c].ip
  }

  ghost predicate AllTracked(c: Config, events: seq<Event>, states: seq<State>, n: nat)
    requires n <= |events| < |states|
  {
    forall k {:trigger Tracks(c, states[k], events[k])} :: 0 <= k < n ==> Tracks(c, states[k], events[k])
  }

  lemma {:induction false} NeverLeaks(c: Config, events: seq<Event>, states: seq<State>, n: nat)
    requires IsRun(c, events, states) && n <= |events|
    requires AllTracked(c, events, states, n)
    ensures states[n].open <= TrackedIps(states[n].leases)
  {
    if n > 0 {
      assert Tracks(c, states[n - 1], events[n - 1]);
      NeverLeaks(c, events, states, n - 1);
      StepLeaks(c, states[n - 1], events[n - 1]);
      assert states[n] == Next(c, states[n - 1], events[n - 1]);
    }
  }

  /** If no tracked lease moves and no client is refused, then right after every scan the
      open addresses are exactly those of the live leases. */
  lemma ScanSynchronises(c: Config, events: seq<Event>, states: seq<State>, n: nat)
    requires IsRun(c, events, states) && n < |events| && events[n].LeaseScan?
    requires AllTracked(c, events, states, n + 1) && LeasesLast(events)
    ensures states[n + 1].open == LiveIps(states[n + 1].leases, events[n].now)
  {
    var s, now := states[n + 1], events[n].now;
    assert s == Next(c, states[n], events[n]);
    forall k {:trigger KeepsAddress(c, states[k], events[k])} | 0 <= k <= n
      ensures KeepsAddress(c, states[k], events[k])
    {
      assert Tracks(c, states[k], events[k]);
    }
    CoveredAfter(c, events, states, n + 1, now);
    NeverLeaks(c, events, states, n + 1);
    forall ip | ip in s.open ensures ip in LiveIps(s.leases, now) {
      var client :| client in s.leases && s.leases[client].ip == ip;
      assert Live(s.leases, client, now);
    }
    forall ip | ip in LiveIps(s.leases, now) ensures ip in s.open {
      var client :| client in s.leases && now < s.leases[client].expiresAt && s.leases[client].ip == ip;
      assert Live(s.leases, client, now);
    }
  }

  // ----- The side conditions are needed -----

  /** A client that moves within its cooldown holds a live lease on a closed address. */
  lemma MovedClientIsLockedOut()
    ensures var c := Config(4, 100);
            var events := [Pulse("a", Endpoint(1, 9), None, 50, 0), Pulse("a", Endpoint(2, 9), None, 50, 10)];
            exists states: seq<State> :: IsRun(c, events, states) && !Covered(states[2], 10)
  {
    var c := Config(4, 100);
    var events := [Pulse("a", Endpoint(1, 9), None, 50, 0), Pulse("a", Endpoint(2, 9), None, 50, 10)];
    var s0 := State(map[], map[], {});
    var s1 := Next(c, s0, events[0]);
    var s2 := Next(c, s1, events[1]);
    assert IsRun(c, events, [s0, s1, s2]);
    assert Live(s2.leases, "a", 10) && s2.leases["a"].ip == 2 && 2 !in s2.open;
  }

  /** An open address on which nobody is tracked is closed by nothing. */
  lemma UntrackedStaysOpen(c: Config, s: State, e: Event, ip: Ip)
    requires ip in s.open && ip !in TrackedIps(s.leases)
    ensures ip in Next(c, s, e).open
  {
    if e.LeaseScan? {
      assert Closed(s.leases, e.now) <= TrackedIps(s.leases);
    }
  }

  /** The state after `events`, from any state. */
  function After(c: Config, s: State, events: seq<Event>): State {
    if events == [] then s else Next(c, After(c, s, events[..|events| - 1]), events[|events| - 1])
  }

  /** Nobody is tracked on `ip` in any state before the last of `events`. */
  ghost predicate NeverTracked(c: Config, s: State, events: seq<Event>, ip: Ip) {
    forall n :: 0 <= n < |events| ==> ip !in TrackedIps(After(c, s, events[..n]).leases)
  }

  lemma {:induction false} StaysOpen(c: Config, s: State, events: seq<Event>, ip: Ip)
    requires ip in s.open && NeverTracked(c, s, events, ip)
    ensures ip in After(c, s, events).open
  {
    if events != [] {
      var init := events[..|events| - 1];
      forall n | 0 <= n < |init| ensures ip !in TrackedIps(After(c, s, init[..n]).leases) {
        assert init[..n] == events[..n];
      }
      StaysOpen(c, s, init, ip);
      UntrackedStaysOpen(c, After(c, s, init), events[|events| - 1], ip);
    }
  }

  /** An address granted to a client that the full table refuses, and on which nobody is
      tracked, stays open through every later scan and BYE, until someone is tracked on it. */
  lemma RefusedAddressStaysOpen(c: Config, s: State, e: Event, events: seq<Event>)
    requires e.Pulse? && e.client !in s.leases && c.cap <= |s.leases|
    requires NeverTracked(c, Next(c, s, e), events, e.source.ip)
    ensures e.source.ip in After(c, Next(c, s, e), events).open
  {
    assert e.source.ip in Next(c, s, e).open;
    StaysOpen(c, Next(c, s, e), events, e.source.ip);
  }

  // ----- Revoke hooks that run later than the scan that ordered them -----

  /** The revoke hook of one drained lease, run in whatever state has come about meanwhile. */
  function RevokeLate(s: State, e: Ended): State {
    s.(open := RevokeEach(s.open, [e]))
  }

  /** A late revoke leaves every live lease's address open if, and only if, it closes nothing
      or nobody has come back to its address: the re-check before each revoke that the scan's
      comment describes, and its code leaves out, is exactly what would be needed. */
  lemma LateRevokeIsSafeIff(s: State, e: Ended, now: Instant)
    requires Covered(s, now)
    ensures Covered(RevokeLate(s, e), now) <==> e.remaining != 0 || LiveOn(s.leases, e.lease.ip, now) == {}
  {
    RevokeEachCloses(s.open, [e], e.lease.ip);
    forall client | Live(s.leases, client, now)
      ensures s.leases[client].ip in RevokeLate(s, e).open <==> e.remaining != 0 || s.leases[client].ip != e.lease.ip
    {
      RevokeEachCloses(s.open, [e], s.leases[client].ip);
      assert [e][0] == e;
    }
    if client :| client in LiveOn(s.leases, e.lease.ip, now) {
      assert Live(s.leases, client, now);
    }
    forall client | Live(s.leases, client, now) ensures client in LiveOn(s.leases, s.leases[client].ip, now) {
    }
  }

  /** A client whose lease runs out, and that pulses again before the hook of the scan has run,
      holds a live lease on a closed address. */
  lemma ReturningClientIsLockedOut(c: Config, s: State, client: ClientKey, source: Endpoint, ttl: nat, now: Instant)
    requires client in s.leases && s.leases[client].ip == source.ip && s.leases[client].expiresAt <= now
    requires LiveOn(s.leases, source.ip, now) == {} && ttl > 0 && c.cap > |AfterScan(s.leases, now)|
    ensures var scanned := s.(leases := AfterScan(s.leases, now));
            var back := Next(c, scanned, Pulse(client, source, None, ttl, now));
            var ended := Ended(Report(s.leases, client), |LiveOn(s.leases, source.ip, now)|);
            && source.ip in back.open && Live(back.leases, client, now)
            && source.ip !in RevokeLate(back, ended).open && Live(RevokeLate(back, ended).leases, client, now)
  {
    var scanned := s.(leases := AfterScan(s.leases, now));
    var back := Next(c, scanned, Pulse(client, source, None, ttl, now));
    var ended := Ended(Report(s.leases, client), |LiveOn(s.leases, source.ip, now)|);
    RevokeEachCloses(back.open, [ended], source.ip);
    assert [ended][0].remaining == 0 && [ended][0].lease.ip == source.ip;
  }
}
