/** EnsureLoadBalancer and EnsureLoadBalancerDeleted of the Google Compute Engine provider. */
module GceLoadBalancer {
  import opened Wrappers
  import opened Faults
  import opened GceCloud

  const MAX_CREATE_INSTANCES: nat := 200

  // ---- what the checks compare ----

  function Min(a: int, b: int): int { if b < a then b else a }
  function Max(a: int, b: int): int { if b > a then b else a }

  function LowestPort(ports: seq<ServicePort>): int {
    if ports == [] then 65536
    else Min(LowestPort(ports[..|ports| - 1]), ports[|ports| - 1].port)
  }

  function HighestPort(ports: seq<ServicePort>): int {
    if ports == [] then 0
    else Max(HighestPort(ports[..|ports| - 1]), ports[|ports| - 1].port)
  }

  /** The port range of the forwarding rule; None when the ports are refused. */
  function PortRange(ports: seq<ServicePort>): Option<(int, int)> {
    if ports == [] || ports[0].protocol.OtherProtocol? then None
    else Some((LowestPort(ports), HighestPort(ports)))
  }

  function PortNumbers(ports: seq<ServicePort>): multiset<int> {
    if ports == [] then multiset{}
    else PortNumbers(ports[..|ports| - 1]) + multiset{ports[|ports| - 1].port}
  }

  predicate RuleCurrent(r: Rule, svc: Service) {
    && (svc.requestedIP.Some? ==> svc.requestedIP.value == r.ip)
    && PortRange(svc.ports) == Some(r.range)
    && svc.ports != [] && svc.ports[0].protocol == r.protocol
  }

  predicate PoolCurrent(p: Pool, svc: Service) {
    p.affinity.Some? ==> p.affinity.value == svc.affinity
  }

  /** The check does not look at which of TCP and UDP the firewall allows. */
  predicate FirewallCurrent(f: Firewall, svc: Service, ip: Ip) {
    && f.ip == ip && !f.protocol.OtherProtocol?
    && f.ports == PortNumbers(svc.ports) && svc.sourceRanges == Some(f.ranges)
  }

  /** A health check is there exactly when the service needs one. */
  predicate HealthAgrees(c: Cloud, svc: Service) {
    c.health.Some? <==> svc.healthPort.Some?
  }

  predicate RuleStands(c: Cloud, svc: Service) {
    c.rule.Some? && RuleCurrent(c.rule.value, svc)
  }

  predicate PoolStands(c: Cloud, svc: Service) {
    c.pool.Some? && PoolCurrent(c.pool.value, svc) && HealthAgrees(c, svc)
  }

  /** Neither rule nor pool has to be torn down for this service. */
  predicate Stands(c: Cloud, svc: Service) {
    RuleStands(c, svc) && PoolStands(c, svc)
  }

  /** The address a run settles on; None when it has to allocate one. */
  function Chosen(c: Cloud, svc: Service, listed: Ip -> bool): Option<Ip> {
    match svc.requestedIP
    case Some(z) => if listed(z) && Reserved(c, z) then Some(z) else if c.address.Some? then c.address else Some(z)
    case None => if c.address.Some? then c.address else if c.rule.Some? then Some(c.rule.value.ip) else None
  }

  predicate UserOwned(c: Cloud, svc: Service, listed: Ip -> bool) {
    svc.requestedIP.Some? && listed(svc.requestedIP.value) && Reserved(c, svc.requestedIP.value)
  }

  /** The reservation a successful run leaves when no call fails: the user's own is kept, and so is
      one adopted from an earlier run that nothing had to be rebuilt for; any other is released. */
  function AddressAfter(c: Cloud, svc: Service, listed: Ip -> bool): Option<Ip> {
    if UserOwned(c, svc, listed) || (svc.requestedIP.None? && c.address.Some? && Stands(c, svc)) then c.address
    else None
  }

  /** An address can be had: the one asked for is the user's own or the rule's, and the address to
      reserve is not reserved under another name. */
  predicate AddressAvailable(c: Cloud, svc: Service, listed: Ip -> bool) {
    match svc.requestedIP
    case Some(z) => UserOwned(c, svc, listed) || (RuleOn(c, z) && Promotable(c))
    case None => Promotable(c)
  }

  /** The address of the rule, if any, can be reserved under the load balancer's name. */
  predicate Promotable(c: Cloud) {
    c.address.Some? || c.rule.None? || c.rule.value.ip !in c.others
  }

  /** Beyond the first hosts the pool is filled and its size compared with the number of hosts. */
  predicate Fillable(hosts: seq<Host>) {
    |hosts| > MAX_CREATE_INSTANCES ==> |HostSet(hosts)| == |hosts|
  }

  /** Ports and source ranges are accepted, and an address can be had. */
  predicate CanSettle(c: Cloud, svc: Service, listed: Ip -> bool) {
    PortRange(svc.ports).Some? && svc.sourceRanges.Some? && AddressAvailable(c, svc, listed)
  }

  /** What a run needs to succeed. */
  predicate CanEnsure(c: Cloud, svc: Service, hosts: seq<Host>, listed: Ip -> bool) {
    && CanSettle(c, svc, listed)
    && (!PoolStands(c, svc) ==> Fillable(hosts))
  }

  /** A watch that a run of EnsureLoadBalancer keeps when it starts in state c. */
  predicate Watchable(w: Watch, c: Cloud, svc: Service) {
    && Watched(w, c)
    && (w.address.Some? ==>
          && RuleOn(c, w.address.value)
          && (c.address.Some? ==> c.address == w.address)
          && (svc.requestedIP.Some? ==> svc.requestedIP == w.address))
    && (w.fixed.Some? ==> Stands(c, svc))
  }

  function NewFirewall(svc: Service, ip: Ip): Firewall
    requires svc.ports != [] && svc.sourceRanges.Some?
  {
    Firewall(ip, svc.ports[0].protocol, PortNumbers(svc.ports), svc.sourceRanges.value)
  }

  /** The firewall after a sync: the address, ports and ranges of the service; the service's
      protocol too unless the firewall was left as it was. */
  predicate FirewallMatches(before: Option<Firewall>, f: Firewall, svc: Service, ip: Ip) {
    && f.ip == ip && f.ports == PortNumbers(svc.ports) && svc.sourceRanges == Some(f.ranges)
    && if before.Some? && FirewallCurrent(before.value, svc, ip) then f == before.value
       else svc.ports != [] && f.protocol == svc.ports[0].protocol
  }

  predicate NewRule(r: Rule, svc: Service, ip: Ip) {
    r.ip == ip && PortRange(svc.ports) == Some(r.range) && svc.ports != [] && svc.ports[0].protocol == r.protocol
  }

  /** Rule and pool after a successful replacement. */
  predicate Replaced(c: Cloud, d: Cloud, svc: Service, hosts: seq<Host>, ip: Ip, replacePool: bool) {
    && (if replacePool then d.pool == Some(Pool(Some(svc.affinity), HostSet(hosts))) else d.pool == c.pool)
    && (if c.rule.Some? && RuleCurrent(c.rule.value, svc) && !replacePool then d.rule == c.rule
        else d.rule.Some? && NewRule(d.rule.value, svc, ip))
  }

  /** What a successful run leaves behind, given the state c it started from. */
  predicate Ensured(c: Cloud, d: Cloud, svc: Service, hosts: seq<Host>, ip: Ip) {
    && Replaced(c, d, svc, hosts, ip, !PoolStands(c, svc))
    && d.firewall.Some? && FirewallMatches(c.firewall, d.firewall.value, svc, ip)
    && d.health == HealthAfter(c, svc)
  }

  /** The health check a successful run leaves behind. A pool that is rebuilt is given the check as
      it was read, so a drifted port comes back. */
  function HealthAfter(c: Cloud, svc: Service): Option<HealthCheck> {
    match svc.healthPort
    case Some(port) =>
      if c.health.Some? && !PoolStands(c, svc) then Some(HealthCheck(c.health.value.port, true))
      else Some(HealthCheck(port, true))
    case None => if c.pool.Some? then None else c.health
  }

  function HostSet(hosts: seq<Host>): set<Host> {
    set h | h in hosts
  }

  /** The provider's view of the cloud. Each call consumes one entry of the failure schedule;
      history holds every state the cloud has been in. listed tells whether an address is on the
      pages of the address list that are read. */
  class Gce {
    var cloud: Cloud
    var calls: nat
    const schedule: nat -> Outcome
    const allocate: nat -> Ip
    const listed: Ip -> bool
    ghost var history: seq<Cloud>

    ghost predicate Valid(w: Watch)
      reads this
    {
      && history != [] && history[|history| - 1] == cloud && Watched(w, cloud)
      && forall c :: c in history ==> Watched(w, c)
    }

    constructor (cloud: Cloud, schedule: nat -> Outcome, allocate: nat -> Ip, listed: Ip -> bool)
      ensures this.cloud == cloud && this.schedule == schedule && this.allocate == allocate
      ensures this.listed == listed && history == [cloud]
    {
      this.cloud := cloud;
      this.schedule := schedule;
      this.allocate := allocate;
      this.listed := listed;
      calls := 0;
      history := [cloud];
    }

    /** A call that changes nothing. */
    method Read(ghost w: Watch) returns (ok: bool)
      requires Valid(w)
      modifies this`calls
      ensures Valid(w) && (AllOk(schedule) ==> ok)
    {
      ok := schedule(calls).Ok?;
      calls := calls + 1;
    }

    /** A call that would bring the cloud to the state next. */
    method Call(next: Cloud, ghost w: Watch) returns (ok: bool)
      requires Valid(w) && Watched(w, next)
      modifies this
      ensures Valid(w) && old(history) <= history
      ensures ok ==> cloud == next
      ensures !ok ==> cloud == old(cloud) || cloud == next
      ensures AllOk(schedule) ==> ok
    {
      var outcome := schedule(calls);
      calls := calls + 1;
      if !outcome.FailBefore? {
        cloud := next;
        history := history + [next];
      }
      ok := outcome.Ok?;
    }

    static method LoadBalancerPortRange(ports: seq<ServicePort>) returns (r: Option<(int, int)>)
      ensures r == PortRange(ports)
    {
      if ports == [] || ports[0].protocol.OtherProtocol? { return None; }
      var minPort, maxPort := 65536, 0;
      for i := 0 to |ports|
        invariant minPort == LowestPort(ports[..i]) && maxPort == HighestPort(ports[..i])
      {
        assert ports[..i + 1][..i] == ports[..i];
        if ports[i].port < minPort { minPort := ports[i].port; }
        if ports[i].port > maxPort { maxPort := ports[i].port; }
      }
      assert ports[..|ports|] == ports;
      r := Some((minPort, maxPort));
    }

    /** Whether the rule exists, has to be replaced, and its address. */
    method ForwardingRuleNeedsUpdate(svc: Service, ghost w: Watch)
      returns (ok: bool, exists_: bool, needsUpdate: bool, ip: Option<Ip>)
      requires Valid(w)
      modifies this`calls
      ensures Valid(w)
      ensures ok ==> exists_ == cloud.rule.Some?
      ensures ok ==> needsUpdate == !(cloud.rule.Some? && RuleCurrent(cloud.rule.value, svc))
      ensures ok && cloud.rule.Some? ==> ip == Some(cloud.rule.value.ip)
      ensures ok && cloud.rule.None? ==> ip.None?
      ensures AllOk(schedule) && PortRange(svc.ports).Some? ==> ok
    {
      ok := Read(w);
      exists_, needsUpdate, ip := true, false, None;
      if !ok { return; }
      if cloud.rule.None? { return true, false, true, None; }
      var rule := cloud.rule.value;
      if svc.requestedIP.Some? && svc.requestedIP.value != rule.ip { return true, true, true, Some(rule.ip); }
      var range := LoadBalancerPortRange(svc.ports);
      if range.None? { return false, true, false, None; }
      if range.value != rule.range || svc.ports[0].protocol != rule.protocol {
        return true, true, true, Some(rule.ip);
      }
      return true, true, false, Some(rule.ip);
    }

    /** Reserves an address under the load balancer's name, or finds the one already there. */
    method EnsureStaticIP(existing: Option<Ip>, ghost w: Watch) returns (ok: bool, ip: Ip, existed: bool)
      requires Valid(w) && (w.address.Some? ==> RuleOn(cloud, w.address.value))
      modifies this
      ensures Valid(w) && old(history) <= history
      ensures cloud == old(cloud).(address := cloud.address)
      ensures old(cloud).address.Some? ==> cloud == old(cloud)
      ensures ok ==> cloud.address == Some(ip) && existed == old(cloud).address.Some?
      ensures ok && !existed && existing.Some? ==> ip == existing.value
      ensures ok ==> existed || existing.None? || existing.value !in cloud.others
      ensures AllOk(schedule) && (old(cloud).address.Some? || existing.None? || existing.value !in cloud.others) ==> ok
    {
      ip, existed := "", cloud.address.Some?;
      if existed {
        ok := Read(w);
      } else {
        var want := if existing.Some? then existing.value else allocate(calls);
        if existing.Some? && want in cloud.others {
          ok := false;
        } else {
          ok := Call(cloud.(address := Some(want)), w);
        }
      }
      if !ok { return; }
      ok := Read(w);
      if ok { ip := cloud.address.value; }
    }

    method DeleteStaticIP(ghost w: Watch) returns (ok: bool)
      requires Valid(w) && Watched(w, cloud.(address := None))
      modifies this
      ensures Valid(w) && old(history) <= history
      ensures cloud == old(cloud) || cloud == old(cloud).(address := None)
      ensures AllOk(schedule) ==> cloud.address.None?
    {
      ok := Call(cloud.(address := None), w);
    }

    /** Lines 633-707 of EnsureLoadBalancer: settles the address and whether it may be released. */
    method ChooseAddress(svc: Service, ruleIP: Option<Ip>, ghost w: Watch)
      returns (ok: bool, ip: Ip, isUserOwned: bool, isSafeToRelease: bool)
      requires Valid(w) && Watchable(w, cloud, svc)
      requires ruleIP == if cloud.rule.Some? then Some(cloud.rule.value.ip) else None
      modifies this
      ensures Valid(w) && old(history) <= history
      ensures cloud == old(cloud).(address := cloud.address)
      ensures old(cloud).address.Some? ==> cloud == old(cloud)
      ensures ok && isUserOwned ==> Reserved(cloud, ip) && cloud == old(cloud) && !isSafeToRelease
      ensures ok && !isUserOwned ==> cloud.address == Some(ip)
      ensures ok && Chosen(old(cloud), svc, listed).Some? ==> ip == Chosen(old(cloud), svc, listed).value
      ensures ok ==> isUserOwned == UserOwned(old(cloud), svc, listed)
      ensures ok && !isUserOwned ==> isSafeToRelease == (svc.requestedIP.Some? || old(cloud).address.None?)
      ensures ok ==> AddressAvailable(old(cloud), svc, listed)
      ensures AllOk(schedule) && AddressAvailable(old(cloud), svc, listed) ==> ok
    {
      ip, isUserOwned, isSafeToRelease := "", false, false;
      var existed;
      if svc.requestedIP.Some? {
        var requested := svc.requestedIP.value;
        ok := Read(w);
        if !ok { return; }
        if listed(requested) && Reserved(cloud, requested) {
          isUserOwned, ip := true, requested;
        } else if ruleIP == Some(requested) {
          isSafeToRelease := true;
          ok, ip, existed := EnsureStaticIP(ruleIP, w);
        } else {
          ok := false;
        }
      } else {
        ok, ip, existed := EnsureStaticIP(ruleIP, w);
        if ok { isSafeToRelease := !existed; }
      }
    }

    /** Lines 709-740 of EnsureLoadBalancer: the firewall is updated in place or created. */
    method SyncFirewall(svc: Service, ip: Ip, ghost w: Watch) returns (ok: bool)
      requires Valid(w)
      modifies this
      ensures Valid(w) && old(history) <= history
      ensures cloud == old(cloud).(firewall := cloud.firewall)
      ensures old(cloud).firewall.Some? ==> cloud.firewall.Some?
      ensures ok ==> cloud.firewall.Some? && FirewallMatches(old(cloud).firewall, cloud.firewall.value, svc, ip)
      ensures AllOk(schedule) && svc.sourceRanges.Some? && svc.ports != [] ==> ok
    {
      if svc.sourceRanges.None? { return false; }
      ok := Read(w);
      if !ok || (cloud.firewall.Some? && FirewallCurrent(cloud.firewall.value, svc, ip)) { return; }
      // The firewall's protocol is that of the first port, and its target tags may have to be listed.
      ok := Read(w);
      if !ok || svc.ports == [] { return false; }
      ok := Call(cloud.(firewall := Some(NewFirewall(svc, ip))), w);
    }

    method TargetPoolNeedsUpdate(svc: Service, ghost w: Watch)
      returns (ok: bool, exists_: bool, needsUpdate: bool)
      requires Valid(w)
      modifies this`calls
      ensures Valid(w)
      ensures ok ==> exists_ == cloud.pool.Some?
      ensures ok ==> needsUpdate == !(cloud.pool.Some? && PoolCurrent(cloud.pool.value, svc))
      ensures AllOk(schedule) ==> ok
    {
      ok := Read(w);
      exists_ := cloud.pool.Some?;
      needsUpdate := !(exists_ && PoolCurrent(cloud.pool.value, svc));
    }

    /** Creates the health check or corrects its parameters; the check it returns is the one it
        read, with the parameters from before the correction. */
    method EnsureHttpHealthCheck(port: int, ghost w: Watch) returns (ok: bool, hc: HealthCheck)
      requires Valid(w)
      modifies this
      ensures Valid(w) && old(history) <= history
      ensures cloud == old(cloud).(health := cloud.health)
      ensures old(cloud).health.Some? ==> cloud.health.Some?
      ensures ok ==> cloud.health == Some(HealthCheck(port, true))
      ensures ok ==> hc == if old(cloud).health.Some? then old(cloud).health.value else HealthCheck(port, true)
      ensures AllOk(schedule) ==> ok
    {
      hc := HealthCheck(port, true);
      var found := Read(w);
      if !found || cloud.health.None? {
        if cloud.health.Some? { return false, hc; }
        ok := Call(cloud.(health := Some(hc)), w);
        if ok { ok := Read(w); }
      } else {
        hc := cloud.health.value;
        ok := true;
        if hc != HealthCheck(port, true) {
          ok := Call(cloud.(health := Some(HealthCheck(port, true))), w);
        }
      }
    }

    /** Lines 754-778 of EnsureLoadBalancer: the health check decides whether the pool must be
        replaced; toCreate is what the new pool will be given. */
    method SyncHealthCheck(svc: Service, ghost w: Watch)
      returns (ok: bool, replacePool: bool, existing: Option<HealthCheck>, toCreate: Option<HealthCheck>)
      requires Valid(w)
      modifies this
      ensures Valid(w) && old(history) <= history
      ensures cloud == old(cloud).(health := cloud.health)
      ensures ok ==> existing == old(cloud).health && replacePool == !HealthAgrees(old(cloud), svc)
      ensures ok && svc.healthPort.None? ==> toCreate.None? && cloud.health == old(cloud).health
      ensures ok && svc.healthPort.Some? ==>
                && cloud.health == Some(HealthCheck(svc.healthPort.value, true))
                && toCreate == Some(if old(cloud).health.Some? then old(cloud).health.value
                                    else HealthCheck(svc.healthPort.value, true))
      ensures AllOk(schedule) ==> ok
    {
      replacePool, existing, toCreate := false, cloud.health, None;
      ok := Read(w);
      if !ok { return; }
      replacePool := !HealthAgrees(cloud, svc);
      if svc.healthPort.Some? {
        var hc;
        ok, hc := EnsureHttpHealthCheck(svc.healthPort.value, w);
        toCreate := Some(hc);
      }
    }

    method DeleteForwardingRule(ghost w: Watch) returns (ok: bool)
      requires Valid(w) && Watched(w, cloud.(rule := None))
      modifies this
      ensures Valid(w) && old(history) <= history
      ensures ok ==> cloud == old(cloud).(rule := None)
      ensures cloud == old(cloud) || cloud == old(cloud).(rule := None)
      ensures AllOk(schedule) ==> ok
    {
      ok := Call(cloud.(rule := None), w);
    }

    /** Deletes the pool, then the health check: hc when it is known, else whatever is left. */
    method DeleteTargetPool(hc: Option<HealthCheck>, ghost w: Watch) returns (ok: bool)
      requires Valid(w) && cloud.rule.None? && w.fixed.None?
      modifies this
      ensures Valid(w) && old(history) <= history
      ensures cloud == old(cloud).(pool := cloud.pool, health := cloud.health)
      ensures cloud.health.None? || cloud.health == old(cloud).health
      ensures ok ==> cloud.pool.None? && (hc.Some? ==> cloud.health.None?)
      ensures AllOk(schedule) ==> ok
    {
      ok := Call(cloud.(pool := None), w);
      if !ok { return; }
      var deleted := Call(cloud.(health := None), w);
      if hc.Some? { ok := deleted; }
    }

    method CreateTargetPool(svc: Service, hosts: seq<Host>, hc: Option<HealthCheck>, ghost w: Watch) returns (ok: bool)
      requires Valid(w) && cloud.pool.None? && cloud.rule.None? && w.fixed.None?
      modifies this
      ensures Valid(w) && old(history) <= history
      ensures cloud == old(cloud).(pool := cloud.pool, health := cloud.health)
      ensures hc.None? ==> cloud.health == old(cloud).health
      ensures ok ==> cloud.pool == Some(Pool(Some(svc.affinity), HostSet(hosts)))
      ensures ok && hc.Some? ==> cloud.health == Some(HealthCheck(hc.value.port, true))
      ensures AllOk(schedule) ==> ok
    {
      if hc.Some? {
        var ensured;
        ok, ensured := EnsureHttpHealthCheck(hc.value.port, w);
        if !ok { return; }
      }
      ok := Call(cloud.(pool := Some(Pool(Some(svc.affinity), HostSet(hosts)))), w);
    }

    /** Adds the hosts the pool lacks and removes those it should not have. */
    method UpdateTargetPool(existing: set<Host>, hosts: seq<Host>, ghost w: Watch) returns (ok: bool)
      requires Valid(w) && cloud.pool.Some? && existing == cloud.pool.value.hosts && w.fixed.None?
      modifies this
      ensures Valid(w) && old(history) <= history
      ensures cloud == old(cloud).(pool := cloud.pool) && cloud.pool.Some?
      ensures cloud.pool.value.affinity == old(cloud).pool.value.affinity
      ensures ok ==> cloud.pool.value.hosts == HostSet(hosts) && |HostSet(hosts)| == |hosts|
      ensures AllOk(schedule) && |HostSet(hosts)| == |hosts| ==> ok
    {
      var left, toAdd := existing, {};
      for i := 0 to |hosts|
        invariant left == existing - HostSet(hosts[..i])
        invariant toAdd <= HostSet(hosts[..i]) && HostSet(hosts[..i]) <= existing + toAdd
      {
        assert HostSet(hosts[..i + 1]) == HostSet(hosts[..i]) + {hosts[i]};
        if hosts[i] !in left { toAdd := toAdd + {hosts[i]}; }
        left := left - {hosts[i]};
      }
      assert hosts[..|hosts|] == hosts;
      if toAdd != {} {
        ok := Call(cloud.(pool := Some(cloud.pool.value.(hosts := existing + toAdd))), w);
        if !ok { return; }
      }
      assert cloud.pool.value.hosts == existing + toAdd;
      if left != {} {
        ok := Call(cloud.(pool := Some(cloud.pool.value.(hosts := existing + toAdd - left))), w);
        if !ok { return; }
      }
      assert cloud.pool.value.hosts == HostSet(hosts);
      ok := Read(w);
      ok := ok && |cloud.pool.value.hosts| == |hosts|;
    }

    method CreateForwardingRule(svc: Service, ip: Ip, ghost w: Watch) returns (ok: bool)
      requires Valid(w) && cloud.rule.None? && cloud.pool.Some? && w.fixed.None?
      requires w.firewall ==> cloud.firewall.Some?
      requires w.address.Some? ==> Reserved(cloud, w.address.value)
      modifies this
      ensures Valid(w) && old(history) <= history
      ensures cloud == old(cloud).(rule := cloud.rule)
      ensures ok ==> cloud.rule.Some? && NewRule(cloud.rule.value, svc, ip)
      ensures AllOk(schedule) && PortRange(svc.ports).Some? ==> ok
    {
      var range := LoadBalancerPortRange(svc.ports);
      if range.None? { return false; }
      ok := Call(cloud.(rule := Some(Rule(ip, range.value, svc.ports[0].protocol))), w);
    }

    /** Lines 813-841 of EnsureLoadBalancer: the pool is created with the first hosts, then filled. */
    method BuildPool(svc: Service, hosts: seq<Host>, hc: Option<HealthCheck>, ghost w: Watch) returns (ok: bool)
      requires Valid(w) && cloud.pool.None? && cloud.rule.None? && w.fixed.None?
      modifies this
      ensures Valid(w) && old(history) <= history
      ensures cloud == old(cloud).(pool := cloud.pool, health := cloud.health)
      ensures hc.None? ==> cloud.health == old(cloud).health
      ensures ok ==> cloud.pool == Some(Pool(Some(svc.affinity), HostSet(hosts)))
      ensures ok && hc.Some? ==> cloud.health == Some(HealthCheck(hc.value.port, true))
      ensures ok ==> Fillable(hosts)
      ensures AllOk(schedule) && Fillable(hosts) ==> ok
    {
      if |hosts| <= MAX_CREATE_INSTANCES {
        ok := CreateTargetPool(svc, hosts, hc, w);
      } else {
        ok := CreateTargetPool(svc, hosts[..MAX_CREATE_INSTANCES], hc, w);
        if ok { ok := UpdateTargetPool(HostSet(hosts[..MAX_CREATE_INSTANCES]), hosts, w); }
      }
    }

    /** Lines 786-811 of EnsureLoadBalancer: the rule goes first, then the pool under it. From the
        deletion of the rule on, the reservation is not to be released. */
    method TearDown(svc: Service, replaceRule: bool, replacePool: bool, hcExisting: Option<HealthCheck>, ghost w: Watch)
      returns (ok: bool)
      requires Valid(w) && replaceRule == (cloud.rule.Some? && (replacePool || !RuleCurrent(cloud.rule.value, svc)))
      requires replacePool ==> w.fixed.None?
      requires replaceRule ==> w.fixed.None?
      requires w.address.Some? ==> Reserved(cloud, w.address.value)
      requires hcExisting.None? && svc.healthPort.None? ==> cloud.health.None?
      modifies this
      ensures Valid(w) && old(history) <= history
      ensures cloud == old(cloud).(rule := cloud.rule, pool := cloud.pool, health := cloud.health)
      ensures ok ==> cloud.rule == if replaceRule then None else old(cloud).rule
      ensures ok ==> cloud.pool == if replacePool then None else old(cloud).pool
      ensures ok && !(old(cloud).pool.Some? && replacePool) ==> cloud.health == old(cloud).health
      ensures ok && old(cloud).pool.Some? && replacePool && svc.healthPort.None? ==> cloud.health.None?
      ensures !replaceRule && !replacePool ==> ok && cloud == old(cloud)
      ensures AllOk(schedule) ==> ok
    {
      ok := true;
      if replaceRule {
        ok := DeleteForwardingRule(w);
        if !ok { return; }
      }
      if cloud.pool.Some? && replacePool {
        var hc := hcExisting;
        if svc.healthPort.Some? {
          var found := Read(w);
          hc := if found then cloud.health else None;
        }
        ok := DeleteTargetPool(hc, w);
      }
    }

    /** Lines 786-853 of EnsureLoadBalancer: the critical section. */
    method Replace(svc: Service, hosts: seq<Host>, ip: Ip, replacePool: bool, safe: bool,
                   hcExisting: Option<HealthCheck>, hcToCreate: Option<HealthCheck>, ghost w: Watch)
      returns (ok: bool, isSafeToRelease: bool)
      requires Valid(w) && (!replacePool ==> cloud.pool.Some?)
      requires replacePool || (cloud.rule.Some? && !RuleCurrent(cloud.rule.value, svc)) ==> w.fixed.None?
      requires w.address.Some? ==> w.address.value == ip && Reserved(cloud, ip)
      requires w.firewall ==> cloud.firewall.Some?
      requires hcExisting.None? && svc.healthPort.None? ==> cloud.health.None?
      requires svc.healthPort.None? ==> hcToCreate.None?
      requires w.address.Some? && safe ==> RuleOn(cloud, ip)
      modifies this
      ensures Valid(w) && old(history) <= history
      ensures cloud == old(cloud).(rule := cloud.rule, pool := cloud.pool, health := cloud.health)
      ensures isSafeToRelease && w.address.Some? ==> RuleOn(cloud, ip)
      ensures ok ==>
                isSafeToRelease == (safe || replacePool || !RuleStands(old(cloud), svc))
      ensures ok ==> Replaced(old(cloud), cloud, svc, hosts, ip, replacePool)
      ensures ok && svc.healthPort.None? ==>
                cloud.health == if replacePool && old(cloud).pool.Some? then None else old(cloud).health
      ensures ok && hcToCreate.Some? && replacePool ==> cloud.health == Some(HealthCheck(hcToCreate.value.port, true))
      ensures ok && !replacePool ==> cloud.health == old(cloud).health
      ensures RuleStands(old(cloud), svc) && !replacePool ==> ok && cloud == old(cloud)
      ensures ok && replacePool ==> Fillable(hosts)
      ensures AllOk(schedule) && PortRange(svc.ports).Some? && (replacePool ==> Fillable(hosts)) ==> ok
    {
      var rebuildRule := cloud.rule.None? || replacePool || !RuleCurrent(cloud.rule.value, svc);
      isSafeToRelease := safe && !(cloud.rule.Some? && rebuildRule);
      ok := TearDown(svc, cloud.rule.Some? && rebuildRule, replacePool, hcExisting, w);
      if !ok { return; }
      if replacePool {
        ok := BuildPool(svc, hosts, hcToCreate, w);
        if !ok { return; }
      }
      if rebuildRule {
        ok := CreateForwardingRule(svc, ip, w);
        if ok { isSafeToRelease := true; }
      }
    }

    /** Lines 602-740 of EnsureLoadBalancer: the rule is looked at, the address and the firewall
        are settled. */
    method Settle(svc: Service, ghost w: Watch)
      returns (ok: bool, ip: Ip, isUserOwned: bool, isSafeToRelease: bool)
      requires Valid(w) && Watchable(w, cloud, svc)
      modifies this
      ensures Valid(w) && old(history) <= history
      ensures cloud == old(cloud).(address := cloud.address, firewall := cloud.firewall)
      ensures old(cloud).address.Some? ==> cloud.address == old(cloud).address
      ensures !isUserOwned && isSafeToRelease ==> Watched(w, cloud.(address := None))
      ensures ok && isUserOwned ==> Reserved(cloud, ip) && cloud.address == old(cloud).address && !isSafeToRelease
      ensures ok && !isUserOwned ==> cloud.address == Some(ip)
      ensures ok && Chosen(old(cloud), svc, listed).Some? ==> ip == Chosen(old(cloud), svc, listed).value
      ensures ok ==> isUserOwned == UserOwned(old(cloud), svc, listed)
      ensures ok && !isUserOwned ==> isSafeToRelease == (svc.requestedIP.Some? || old(cloud).address.None?)
      ensures ok ==> cloud.firewall.Some? && FirewallMatches(old(cloud).firewall, cloud.firewall.value, svc, ip)
      ensures ok ==> AddressAvailable(old(cloud), svc, listed)
      ensures AllOk(schedule) && CanSettle(old(cloud), svc, listed) ==> ok
    {
      ip, isUserOwned, isSafeToRelease := "", false, false;
      var ruleExists, ruleNeedsUpdate, ruleIP;
      ok, ruleExists, ruleNeedsUpdate, ruleIP := ForwardingRuleNeedsUpdate(svc, w);
      if !ok { return; }
      ok, ip, isUserOwned, isSafeToRelease := ChooseAddress(svc, ruleIP, w);
      if !ok { return; }
      ok := SyncFirewall(svc, ip, w);
    }

    /** EnsureLoadBalancer up to its deferred release. */
    method EnsureBody(svc: Service, hosts: seq<Host>, ghost w: Watch)
      returns (ok: bool, ip: Ip, isUserOwned: bool, isSafeToRelease: bool)
      requires Valid(w) && Watchable(w, cloud, svc)
      modifies this
      ensures Valid(w) && old(history) <= history
      ensures !isUserOwned && isSafeToRelease ==> Watched(w, cloud.(address := None))
      ensures ok ==> isUserOwned == UserOwned(old(cloud), svc, listed)
      ensures ok && !isUserOwned ==>
                isSafeToRelease == (svc.requestedIP.Some? || old(cloud).address.None? || !Stands(old(cloud), svc))
      ensures ok && !(!isUserOwned && isSafeToRelease) ==> cloud.address == old(cloud).address
      ensures ok ==> Ensured(old(cloud), cloud, svc, hosts, ip)
      ensures ok && Chosen(old(cloud), svc, listed).Some? ==> ip == Chosen(old(cloud), svc, listed).value
      ensures cloud.others == old(cloud).others
      ensures ok ==> CanEnsure(old(cloud), svc, hosts, listed)
      ensures AllOk(schedule) && CanEnsure(old(cloud), svc, hosts, listed) ==> ok
    {
      ok, ip, isUserOwned, isSafeToRelease := Settle(svc, w);
      if !ok { return; }
      var poolExists, poolNeedsUpdate;
      ok, poolExists, poolNeedsUpdate := TargetPoolNeedsUpdate(svc, w);
      if !ok { return; }
      var hcReplace, hcExisting, hcToCreate;
      ok, hcReplace, hcExisting, hcToCreate := SyncHealthCheck(svc, w);
      if !ok { return; }
      ok, isSafeToRelease := Replace(svc, hosts, ip, poolNeedsUpdate || hcReplace, isSafeToRelease,
                                     hcExisting, hcToCreate, w);
    }

    /** Every state the run passes through satisfies the watch; hosts is None when the instances
        cannot be listed. */
    method EnsureLoadBalancer(svc: Service, hosts: Option<seq<Host>>, ghost w: Watch) returns (ok: bool, ip: Ip)
      requires Valid(w) && Watchable(w, cloud, svc)
      modifies this
      ensures Valid(w) && old(history) <= history
      ensures ok ==> hosts.Some? && hosts.value != [] && Ensured(old(cloud), cloud, svc, hosts.value, ip)
      ensures ok && Chosen(old(cloud), svc, listed).Some? ==> ip == Chosen(old(cloud), svc, listed).value
      ensures cloud.others == old(cloud).others
      ensures ok && AllOk(schedule) ==> cloud.address == AddressAfter(old(cloud), svc, listed)
      ensures ok ==> CanEnsure(old(cloud), svc, hosts.value, listed)
      ensures AllOk(schedule) && hosts.Some? && hosts.value != [] ==>
                CanEnsure(old(cloud), svc, hosts.value, listed) ==> ok
    {
      if hosts.None? || hosts.value == [] { return false, ""; }
      var isUserOwned, isSafeToRelease;
      ok, ip, isUserOwned, isSafeToRelease := EnsureBody(svc, hosts.value, w);
      if !isUserOwned && isSafeToRelease {
        var released := DeleteStaticIP(w);
      }
    }

    /** The three concurrent tasks of EnsureLoadBalancerDeleted, one call at a time in any order:
        the firewall, the reserved address, and the rule followed by pool and health check. */
    method EnsureLoadBalancerDeleted(svc: Service, ghost w: Watch) returns (ok: bool)
      requires Valid(w) && w == Watch(w.pool, false, None, None)
      modifies this
      ensures Valid(w) && old(history) <= history
      ensures ok ==> cloud.rule.None? && cloud.pool.None? && cloud.firewall.None? && cloud.address.None?
      ensures ok && svc.healthPort.Some? ==> cloud.health.None?
      ensures cloud.others == old(cloud).others
      ensures AllOk(schedule) ==> ok && cloud.health.None?
    {
      var hc := None;
      if svc.healthPort.Some? {
        ok := Read(w);
        if !ok { return; }
        hc := cloud.health;
      }
      ok := true;
      var firewallPending, addressPending, layer := true, true, 0;
      while
        invariant Valid(w) && old(history) <= history && 0 <= layer <= 3
        invariant cloud.others == old(cloud).others
        invariant layer > 0 && ok ==> cloud.rule.None?
        invariant 0 < layer < 3 ==> cloud.rule.None?
        invariant layer > 1 && ok ==> cloud.pool.None?
        invariant hc.None? && svc.healthPort.Some? ==> cloud.health.None?
        invariant layer > 2 && ok && hc.Some? ==> cloud.health.None?
        invariant !firewallPending && ok ==> cloud.firewall.None?
        invariant !addressPending && ok ==> cloud.address.None?
        invariant AllOk(schedule) ==> ok && (layer > 2 ==> cloud.health.None?)
        decreases firewallPending, addressPending, 3 - layer
      {
        case firewallPending =>
          var done := Call(cloud.(firewall := None), w);
          firewallPending, ok := false, ok && done;
        case addressPending =>
          var done := Call(cloud.(address := None), w);
          addressPending, ok := false, ok && done;
        case layer == 0 =>
          var done := Call(cloud.(rule := None), w);
          layer, ok := if done then 1 else 3, ok && done;
        case layer == 1 =>
          var done := Call(cloud.(pool := None), w);
          layer, ok := if done then 2 else 3, ok && done;
        case layer == 2 =>
          var done := Call(cloud.(health := None), w);
          layer, ok := 3, ok && (done || hc.None?);
      }
    }
  }

  /** The address of the service is never lost, whatever fails: a service that asks for no address,
      or for the one its rule has, finds its rule on that address or the address reserved in every
      state of the run, and on success its rule is on it. */
  method EnsureKeepsAddress(g: Gce, svc: Service, hosts: Option<seq<Host>>, x: Ip) returns (ok: bool, ip: Ip)
    requires g.history == [g.cloud] && RuleOn(g.cloud, x)
    requires g.cloud.address.Some? ==> g.cloud.address == Some(x)
    requires svc.requestedIP.Some? ==> svc.requestedIP == Some(x)
    modifies g
    ensures [old(g.cloud)] <= g.history && g.history[|g.history| - 1] == g.cloud
    ensures forall c :: c in g.history ==> Held(c, x)
    ensures ok ==> ip == x && RuleOn(g.cloud, x)
  {
    ghost var w := Watch(false, false, Some(x), None);
    ok, ip := g.EnsureLoadBalancer(svc, hosts, w);
  }

  /** Where the address moves: after success the rule is still on the address x it had exactly when
      nothing was rebuilt or the run settled on x, that is, when no other address was reserved under
      the load balancer's name. The address reported is the rule's under the same kind of condition. */
  lemma AddressKeptExactly(c: Cloud, d: Cloud, svc: Service, hosts: seq<Host>, ip: Ip, x: Ip, listed: Ip -> bool)
    requires Ensured(c, d, svc, hosts, ip) && RuleOn(c, x)
    requires svc.requestedIP.Some? ==> svc.requestedIP == Some(x)
    requires Chosen(c, svc, listed).Some? ==> ip == Chosen(c, svc, listed).value
    ensures RuleOn(d, x) <==> Stands(c, svc) || c.address.None? || c.address == Some(x)
                              || (svc.requestedIP.Some? && listed(x) && Reserved(c, x))
    ensures RuleOn(d, ip) <==> !Stands(c, svc) || ip == x
  {
    assert Chosen(c, svc, listed).Some?;
    assert Chosen(c, svc, listed) == Some(x) || c.address.Some?;
  }

  /** The firewall ends up with the service's protocol unless only the protocol was wrong: the check
      does not compare it. */
  lemma FirewallProtocolExactly(c: Cloud, d: Cloud, svc: Service, hosts: seq<Host>, ip: Ip)
    requires Ensured(c, d, svc, hosts, ip)
    ensures svc.ports != [] && d.firewall.Some?
    ensures d.firewall.value.protocol == svc.ports[0].protocol <==>
            !(c.firewall.Some? && FirewallCurrent(c.firewall.value, svc, ip)
              && c.firewall.value.protocol != svc.ports[0].protocol)
  {
  }

  /** The health check ends up on the service's port unless a drifted check met a pool that had to
      be rebuilt. */
  lemma HealthPortExactly(c: Cloud, d: Cloud, svc: Service, hosts: seq<Host>, ip: Ip)
    requires Ensured(c, d, svc, hosts, ip) && svc.healthPort.Some?
    ensures d.health == Some(HealthCheck(svc.healthPort.value, true)) <==>
            !(c.health.Some? && c.health.value.port != svc.healthPort.value
              && !(c.pool.Some? && PoolCurrent(c.pool.value, svc)))
  {
  }

  /** For valid port numbers the range covers every port, and its ends are ports: it runs from the
      lowest to the highest. */
  lemma {:induction false} PortRangeIsTight(ports: seq<ServicePort>) returns (lo: ServicePort, hi: ServicePort)
    requires ports != [] && forall p :: p in ports ==> 0 < p.port < 65536
    ensures lo in ports && lo.port == LowestPort(ports) && hi in ports && hi.port == HighestPort(ports)
    ensures forall i :: 0 <= i < |ports| ==> lo.port <= ports[i].port <= hi.port
  {
    var init, last := ports[..|ports| - 1], ports[|ports| - 1];
    assert last in ports;
    lo, hi := last, last;
    if init != [] {
      var l, h := PortRangeIsTight(init);
      assert l in ports && h in ports;
      if l.port < last.port { lo := l; }
      if h.port > last.port { hi := h; }
    }
  }

  function PortList(ports: seq<ServicePort>): seq<int> {
    seq(|ports|, i requires 0 <= i < |ports| => ports[i].port)
  }

  /** The numbers of the ports, each as often as it occurs. */
  lemma {:induction false} PortNumbersExactly(ports: seq<ServicePort>)
    ensures PortNumbers(ports) == multiset(PortList(ports))
  {
    if ports != [] {
      var n := |ports| - 1;
      PortNumbersExactly(ports[..n]);
      assert PortList(ports) == PortList(ports[..n]) + [ports[n].port];
    }
  }

  /** The rule forwards from the lowest to the highest port of the service, in its protocol. */
  ghost predicate Forwards(r: Rule, svc: Service) {
    && svc.ports != [] && (svc.ports[0].protocol == TCP || svc.ports[0].protocol == UDP)
    && r.protocol == svc.ports[0].protocol
    && (forall i :: 0 <= i < |svc.ports| ==> r.range.0 <= svc.ports[i].port <= r.range.1)
    && (exists i :: 0 <= i < |svc.ports| && svc.ports[i].port == r.range.0)
    && (exists i :: 0 <= i < |svc.ports| && svc.ports[i].port == r.range.1)
  }

  ghost predicate ValidPorts(ports: seq<ServicePort>) {
    forall p :: p in ports ==> 0 < p.port < 65536
  }

  lemma RangeForwards(r: Rule, svc: Service)
    requires ValidPorts(svc.ports)
    ensures PortRange(svc.ports) == Some(r.range) && svc.ports[0].protocol == r.protocol <==> Forwards(r, svc)
  {
    if svc.ports != [] {
      var lo, hi := PortRangeIsTight(svc.ports);
      var i :| 0 <= i < |svc.ports| && svc.ports[i] == lo;
      var j :| 0 <= j < |svc.ports| && svc.ports[j] == hi;
      assert svc.ports[i].port == LowestPort(svc.ports) && svc.ports[j].port == HighestPort(svc.ports);
      if Forwards(r, svc) { assert r.range == (lo.port, hi.port); }
    }
  }

  /** The rule is kept: it forwards the service's ports and is on the address asked for, if any. */
  ghost predicate KeepsRule(c: Cloud, svc: Service) {
    c.rule.Some? && Forwards(c.rule.value, svc) &&
    (svc.requestedIP.None? || svc.requestedIP.value == c.rule.value.ip)
  }

  /** The pool is kept: its affinity is the service's or not known, and there is a health check exactly
      when the service has a port for one. */
  ghost predicate KeepsPool(c: Cloud, svc: Service) {
    && c.pool.Some? && (c.pool.value.affinity.None? || c.pool.value.affinity.value == svc.affinity)
    && (c.health.Some? <==> svc.healthPort.Some?)
  }

  /** What a successful run comes to, whatever it started from: which of rule and pool stay and what
      the others become, and the firewall and health check. */
  lemma EnsuredMeans(c: Cloud, d: Cloud, svc: Service, hosts: seq<Host>, ip: Ip)
    requires Ensured(c, d, svc, hosts, ip) && ValidPorts(svc.ports)
    ensures d.rule.Some? && Forwards(d.rule.value, svc)
    ensures if KeepsRule(c, svc) && KeepsPool(c, svc) then d.rule == c.rule else d.rule.value.ip == ip
    ensures if KeepsPool(c, svc) then d.pool == c.pool
            else d.pool.Some? && d.pool.value.affinity == Some(svc.affinity) &&
                 forall h :: h in d.pool.value.hosts <==> h in hosts
    ensures d.firewall.Some? && d.firewall.value.ip == ip && Some(d.firewall.value.ranges) == svc.sourceRanges
    ensures d.firewall.value.ports == multiset(PortList(svc.ports))
    ensures svc.healthPort.Some? ==> d.health.Some? && d.health.value.standard
    ensures svc.healthPort.None? ==> d.health == if c.pool.Some? then None else c.health
  {
    PortNumbersExactly(svc.ports);
    RangeForwards(d.rule.value, svc);
    if c.rule.Some? { RangeForwards(c.rule.value, svc); }
  }

  predicate AcceptablePorts(svc: Service) {
    svc.ports != [] && !svc.ports[0].protocol.OtherProtocol? && svc.sourceRanges.Some?
  }

  /** Which service a run can succeed for at all, in the terms of the request: an address asked for has
      to be reserved and listed, or the rule's own; and the rule's address must not be reserved under
      another name unless one is reserved under this. */
  lemma CanEnsureMeans(c: Cloud, svc: Service, hosts: seq<Host>, listed: Ip -> bool)
    ensures CanEnsure(c, svc, hosts, listed) ==> svc.sourceRanges.Some? && svc.ports != []
    ensures CanEnsure(c, svc, hosts, listed) ==> svc.ports[0].protocol == TCP || svc.ports[0].protocol == UDP
    ensures CanEnsure(c, svc, hosts, listed) && svc.requestedIP.Some? ==>
              var z := svc.requestedIP.value;
              || (listed(z) && (c.address == Some(z) || z in c.others))
              || (c.rule.Some? && c.rule.value.ip == z && (c.address.Some? || z !in c.others))
    ensures CanEnsure(c, svc, hosts, listed) && svc.requestedIP.None? && c.rule.Some? && c.address.None? ==>
              c.rule.value.ip !in c.others
    ensures AcceptablePorts(svc) && svc.requestedIP.None? && c.rule.None? && |hosts| <= 200 ==>
              CanEnsure(c, svc, hosts, listed)
    ensures !KeepsPool(c, svc) && |hosts| > 200 && (exists i, j :: 0 <= i < j < |hosts| && hosts[i] == hosts[j]) ==>
              !CanEnsure(c, svc, hosts, listed)
  {
    if i, j :| 0 <= i < j < |hosts| && hosts[i] == hosts[j] { RepeatedHost(hosts, i, j); }
  }

  lemma RepeatedHost(hosts: seq<Host>, i: nat, j: nat)
    requires i < j < |hosts| && hosts[i] == hosts[j]
    ensures |HostSet(hosts)| < |hosts|
  {
    var rest := hosts[..j] + hosts[j + 1..];
    assert hosts[i] == rest[i];
    forall h ensures h in HostSet(hosts) <==> h in HostSet(rest) {
      if h in hosts && h != hosts[j] {
        var k :| 0 <= k < |hosts| && hosts[k] == h;
        assert if k < j then rest[k] == h else rest[k - 1] == h;
      }
    }
    assert HostSet(hosts) == HostSet(rest);
    HostsAtMost(rest);
  }

  lemma {:induction false} HostsAtMost(hosts: seq<Host>)
    ensures |HostSet(hosts)| <= |hosts|
  {
    if hosts != [] {
      var n := |hosts| - 1;
      HostsAtMost(hosts[..n]);
      assert hosts == hosts[..n] + [hosts[n]];
      assert HostSet(hosts) == HostSet(hosts[..n]) + {hosts[n]};
    }
  }

  /** Which address a run settles on, and what becomes of the reservation when no call fails. */
  lemma SettlesOn(c: Cloud, svc: Service, listed: Ip -> bool)
    ensures svc.requestedIP.Some? && (c.address.None? || c.address == svc.requestedIP) ==>
              Chosen(c, svc, listed) == svc.requestedIP
    ensures svc.requestedIP.Some? && listed(svc.requestedIP.value) && svc.requestedIP.value in c.others ==>
              Chosen(c, svc, listed) == svc.requestedIP && AddressAfter(c, svc, listed) == c.address
    ensures svc.requestedIP.Some? && !listed(svc.requestedIP.value) && c.address.Some? ==>
              Chosen(c, svc, listed) == c.address
    ensures svc.requestedIP.None? && c.address.Some? ==> Chosen(c, svc, listed) == c.address
    ensures svc.requestedIP.None? && Stands(c, svc) ==> AddressAfter(c, svc, listed) == c.address
    ensures svc.requestedIP.None? && c.address.None? && c.rule.Some? ==>
              Chosen(c, svc, listed) == Some(c.rule.value.ip)
    ensures Chosen(c, svc, listed).None? <==> svc.requestedIP.None? && c.address.None? && c.rule.None?
    ensures svc.requestedIP.Some? && c.address == svc.requestedIP && listed(svc.requestedIP.value) ==>
              AddressAfter(c, svc, listed) == c.address
    ensures svc.requestedIP.Some? && !listed(svc.requestedIP.value) ==> AddressAfter(c, svc, listed).None?
    ensures svc.requestedIP.None? && !Stands(c, svc) ==> AddressAfter(c, svc, listed).None?
    ensures AddressAfter(c, svc, listed).Some? ==> AddressAfter(c, svc, listed) == c.address
  {
  }

  /** No health check is left over from a pool that is gone. */
  predicate NoStrayHealthCheck(c: Cloud, svc: Service) {
    svc.healthPort.None? && c.pool.None? ==> c.health.None?
  }

  /** The requested address is not shadowed by another one reserved under the same name. */
  predicate NoShadowedRequest(c: Cloud, svc: Service, listed: Ip -> bool) {
    svc.requestedIP.Some? && !Stands(c, svc) ==> Chosen(c, svc, listed) == svc.requestedIP
  }

  /** After a successful run the rule and pool stand for the same service exactly when the run did
      not start with a stray health check or a shadowed request. */
  lemma StandsAfterEnsure(c: Cloud, d: Cloud, svc: Service, hosts: seq<Host>, ip: Ip, listed: Ip -> bool)
    requires Ensured(c, d, svc, hosts, ip)
    requires Chosen(c, svc, listed).Some? ==> ip == Chosen(c, svc, listed).value
    ensures Stands(d, svc) <==> NoStrayHealthCheck(c, svc) && NoShadowedRequest(c, svc, listed)
    ensures d.rule.Some? && d.pool.Some? && d.firewall.Some?
  {
    assert svc.requestedIP.Some? ==> Chosen(c, svc, listed).Some?;
  }

  /** A second run right after a successful one deletes and recreates nothing, whatever fails: rule
      and pool stay as they are in every state of it, and the firewall stays in place. The history
      is restarted between the two runs. */
  method EnsureTwice(g: Gce, svc: Service, hosts: Option<seq<Host>>) returns (ok: bool, ip: Ip)
    requires g.history == [g.cloud]
    requires NoStrayHealthCheck(g.cloud, svc) && NoShadowedRequest(g.cloud, svc, g.listed)
    modifies g
    ensures g.history != [] && g.history[|g.history| - 1] == g.cloud
    ensures ok ==> hosts.Some? && Ensured(old(g.cloud), g.history[0], svc, hosts.value, ip)
    ensures ok ==> g.history[0].rule.Some? && g.history[0].pool.Some?
    ensures ok ==> forall c :: c in g.history ==>
              c.rule == g.history[0].rule && c.pool == g.history[0].pool && c.firewall.Some?
  {
    ghost var c := g.cloud;
    ok, ip := g.EnsureLoadBalancer(svc, hosts, Watch(false, false, None, None));
    if ok {
      StandsAfterEnsure(c, g.cloud, svc, hosts.value, ip, g.listed);
      g.history := [g.cloud];
      ghost var w := Watch(true, true, None, Some((g.cloud.rule.value, g.cloud.pool.value)));
      var again, ip2 := g.EnsureLoadBalancer(svc, hosts, w);
    }
  }

  datatype Run = EnsureRun(svc: Service, hosts: Option<seq<Host>>) | DeleteRun(svc: Service)

  /** Any sequence of runs, each failing or succeeding as it may: a forwarding rule never exists
      without its pool, and as long as nothing is deleted not without its firewall either. */
  method Drive(g: Gce, runs: seq<Run>)
    requires g.history == [g.cloud] && RuleHasPool(g.cloud)
    modifies g
    ensures [old(g.cloud)] <= g.history && g.history[|g.history| - 1] == g.cloud
    ensures forall c :: c in g.history ==> RuleHasPool(c)
    ensures RuleHasFirewall(old(g.cloud)) && (forall r :: r in runs ==> r.EnsureRun?) ==>
              forall c :: c in g.history ==> RuleHasFirewall(c)
  {
    ghost var w := Watch(true, RuleHasFirewall(g.cloud) && forall r :: r in runs ==> r.EnsureRun?, None, None);
    for i := 0 to |runs|
      invariant g.Valid(w) && [old(g.cloud)] <= g.history
    {
      match runs[i]
      case EnsureRun(svc, hosts) => var ok, ip := g.EnsureLoadBalancer(svc, hosts, w);
      case DeleteRun(svc) =>
        assert runs[i] in runs;
        var ok := g.EnsureLoadBalancerDeleted(svc, w);
    }
  }
}
