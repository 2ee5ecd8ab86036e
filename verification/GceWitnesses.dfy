/** Starting states from which a run without failures leaves something other than what was asked
    for: one for each exact condition of GceLoadBalancer. */
module GceWitnesses {
  import opened Wrappers
  import opened Faults
  import opened GceCloud
  import opened GceLoadBalancer

  /** One TCP port, no session affinity, open to everyone. */
  function Web(healthPort: Option<int>): Service {
    Service([ServicePort(TCP, 80)], None, NoAffinity, Some({"0.0.0.0/0"}), healthPort)
  }

  lemma WebPorts(healthPort: Option<int>)
    ensures var svc := Web(healthPort); PortRange(svc.ports) == Some((80, 80)) && PortNumbers(svc.ports) == multiset{80}
  {
    var ports := Web(healthPort).ports;
    assert ports[..0] == [] && ports[..|ports| - 1] == ports[..0];
    assert LowestPort([]) == 65536 && HighestPort([]) == 0;
  }

  /** A run on one host in which every call succeeds. */
  method RunOnce(c: Cloud, svc: Service) returns (ok: bool, ip: Ip, d: Cloud)
    requires CanEnsure(c, svc, [0], _ => true)
    ensures ok && Ensured(c, d, svc, [0], ip)
    ensures Chosen(c, svc, _ => true).Some? ==> ip == Chosen(c, svc, _ => true).value
  {
    var schedule: nat -> Outcome := _ => Ok;
    var listed: Ip -> bool := _ => true;
    var g := new Gce(c, schedule, _ => "10.0.0.1", listed);
    assert AllOk(schedule);
    SameListed(c, svc, listed);
    ok, ip := g.EnsureLoadBalancer(svc, Some([0]), Watch(false, false, None, None));
    d := g.cloud;
  }

  lemma SameListed(c: Cloud, svc: Service, listed: Ip -> bool)
    requires forall x :: listed(x)
    ensures CanEnsure(c, svc, [0], listed) <==> CanEnsure(c, svc, [0], _ => true)
    ensures Chosen(c, svc, listed) == Chosen(c, svc, _ => true)
  {
  }

  /** A health check without a pool: the next run will tear everything down again. */
  method StrayHealthCheck() returns (c: Cloud, ip: Ip, d: Cloud)
    ensures c == Cloud(None, None, None, Some(HealthCheck(8080, true)), None, {})
    ensures Ensured(c, d, Web(None), [0], ip) && d.rule.Some? && d.pool.Some? && !Stands(d, Web(None))
  {
    c := Cloud(None, None, None, Some(HealthCheck(8080, true)), None, {});
    WebPorts(None);
    var ok;
    ok, ip, d := RunOnce(c, Web(None));
    StandsAfterEnsure(c, d, Web(None), [0], ip, _ => true);
  }

  /** Another address reserved under the load balancer's name: the rule moves to it. */
  method ShadowedAddress() returns (c: Cloud, ip: Ip, d: Cloud)
    ensures RuleOn(c, "10.0.0.1") && c.address == Some("10.0.0.2")
    ensures Ensured(c, d, Web(None), [0], ip) && RuleOn(d, "10.0.0.2")
  {
    c := Cloud(Some(Rule("10.0.0.1", (80, 80), TCP)), None, None, None, Some("10.0.0.2"), {});
    WebPorts(None);
    var ok;
    ok, ip, d := RunOnce(c, Web(None));
    AddressKeptExactly(c, d, Web(None), [0], ip, "10.0.0.1", _ => true);
  }

  /** A firewall that differs in its protocol only: it still allows UDP. */
  method WrongProtocol() returns (c: Cloud, ip: Ip, d: Cloud)
    ensures c.firewall == Some(Firewall("10.0.0.1", UDP, multiset{80}, {"0.0.0.0/0"}))
    ensures Ensured(c, d, Web(None), [0], ip) && d.firewall == c.firewall
  {
    var firewall := Firewall("10.0.0.1", UDP, multiset{80}, {"0.0.0.0/0"});
    c := Cloud(None, None, Some(firewall), None, Some("10.0.0.1"), {});
    WebPorts(None);
    var ok;
    ok, ip, d := RunOnce(c, Web(None));
  }

  /** A drifted health check and no pool: the check keeps the port it had. */
  method DriftedHealthPort() returns (c: Cloud, ip: Ip, d: Cloud)
    ensures c.health == Some(HealthCheck(8080, false)) && c.pool.None?
    ensures Ensured(c, d, Web(Some(30000)), [0], ip) && d.health == Some(HealthCheck(8080, true))
  {
    c := Cloud(None, None, None, Some(HealthCheck(8080, false)), None, {});
    WebPorts(Some(30000));
    var ok;
    ok, ip, d := RunOnce(c, Web(Some(30000)));
    HealthPortExactly(c, d, Web(Some(30000)), [0], ip);
  }
}
