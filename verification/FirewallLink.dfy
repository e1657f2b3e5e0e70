/** The firewall's events are what the handlers do: the lease table, the cooldown marks, the
    grant and the revoke counts in `Firewall` are those of the server's stores. */
module FirewallLink {
  import opened Types
  import opened Handshake
  import opened Servers
  import F = Firewall
  import L = Leases

  function Rules(c: Config): F.Config {
    F.Config(c.leaseCap, c.cooldown)
  }

  /** The server's stores, with the set of open addresses. */
  function With(d: Stores, open: set<Ip>): F.State {
    F.State(d.leases, d.cooldowns, open)
  }

  /** The event that a verified RESPONSE is. */
  function PulseOf(c: Config, p: Proof, source: Endpoint, mono: Instant): F.Event
    requires 1 <= c.leaseMaxSeconds && AdmitParam(c, p.param).Some?
  {
    var ttl := L.LeaseTtl(p.interval, c.multiplier, c.leaseMaxSeconds) * NANOS_PER_SECOND;
    F.Pulse(p.client, source, AdmitParam(c, p.param).value, ttl, mono)
  }

  /** A verified RESPONSE whose hook succeeds is a pulse: same leases, same marks, a positive
      lease length, and its source address opened exactly when the grant hook runs. */
  lemma ResponseIsPulse(c: Config, d: Stores, p: Proof, source: Endpoint, peek: i64, take: i64, mono: Instant,
                        open: set<Ip>)
    requires 1 <= c.leaseMaxSeconds && Verified(c, d, p, source, peek, take)
    ensures var e := PulseOf(c, p, source, mono);
            && e.ttl > 0
            && (F.Grants(Rules(c), With(d, open), p.client, mono) <==> RunsGrant(c, d, p, source, peek, take, mono))
            && F.Next(Rules(c), With(d, open), e)
               == With(AfterResponse(c, d, p, source, true, peek, take, mono),
                       if RunsGrant(c, d, p, source, peek, take, mono) then open + {source.ip} else open)
  {
  }

  /** A verified BYE whose hook succeeds is a bye: it closes the address exactly when the count
      that the hook is given, the live leases left on the address, is zero. */
  lemma ByeIsBye(c: Config, d: Stores, p: Proof, source: Endpoint, peek: i64, take: i64, mono: Instant, open: set<Ip>)
    requires Verified(c, d, p, source, peek, take)
    ensures var after := AfterBye(c, d, p, source, peek, take);
            F.Next(Rules(c), With(d, open), F.Bye(p.client, mono))
            == With(after, if p.client in d.leases && L.LiveOn(after.leases, d.leases[p.client].ip, mono) == {}
                           then open - {d.leases[p.client].ip} else open)
  {
    var after := AfterBye(c, d, p, source, peek, take);
    if p.client in d.leases {
      L.CountsAgree(d.leases, p.client, mono);
    } else {
      assert after.leases == d.leases;
    }
  }

  /** The scan of the cleanup tick is a lease scan: it closes the addresses of the drained
      leases that its report gives a count of zero. */
  lemma TickIsScan(c: Config, d: Stores, mono: Instant, ended: seq<L.Ended>, open: set<Ip>)
    requires L.DrainReport(d.leases, mono, ended)
    ensures F.Next(Rules(c), With(d, open), F.LeaseScan(mono))
         == With(d.(leases := L.AfterScan(d.leases, mono)), F.RevokeEach(open, ended))
  {
    F.RevokeOrderIrrelevant(d.leases, mono, ended, open);
  }
}
