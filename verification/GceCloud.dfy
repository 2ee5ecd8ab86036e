/** The Google Compute Engine resources behind one load balancer. */
module GceCloud {
  import opened Wrappers

  type Ip = string
  type Host = nat

  datatype Protocol = TCP | UDP | OtherProtocol
  datatype Affinity = NoAffinity | ClientIP
  datatype ServicePort = ServicePort(protocol: Protocol, port: int)

  /** The parts of a Service the provider reads. sourceRanges is None when they do not parse;
      healthPort is the node port of its health check, None when it needs no health check. */
  datatype Service = Service(ports: seq<ServicePort>, requestedIP: Option<Ip>, affinity: Affinity,
                             sourceRanges: Option<set<string>>, healthPort: Option<int>)

  datatype Rule = Rule(ip: Ip, range: (int, int), protocol: Protocol)
  /** affinity is None for the undocumented empty string. */
  datatype Pool = Pool(affinity: Option<Affinity>, hosts: set<Host>)
  /** ip is the address in the description; ports are compared regardless of order. */
  datatype Firewall = Firewall(ip: Ip, protocol: Protocol, ports: multiset<int>, ranges: set<string>)
  /** standard says whether the check's intervals and thresholds are the provider's own. */
  datatype HealthCheck = HealthCheck(port: int, standard: bool)

  /** Everything stored under the load balancer's name, and the addresses reserved under others. */
  datatype Cloud = Cloud(rule: Option<Rule>, pool: Option<Pool>, firewall: Option<Firewall>,
                         health: Option<HealthCheck>, address: Option<Ip>, others: set<Ip>)

  /** A property to hold in every state a run passes through, on request: a rule has its pool, a
      rule has its firewall, an address is not lost, and rule and pool are left as they are. */
  datatype Watch = Watch(pool: bool, firewall: bool, address: Option<Ip>, fixed: Option<(Rule, Pool)>)

  predicate RuleHasPool(c: Cloud) { c.rule.Some? ==> c.pool.Some? }
  predicate RuleHasFirewall(c: Cloud) { c.rule.Some? ==> c.firewall.Some? }

  predicate RuleOn(c: Cloud, x: Ip) { c.rule.Some? && c.rule.value.ip == x }
  predicate Reserved(c: Cloud, x: Ip) { c.address == Some(x) || x in c.others }
  predicate Held(c: Cloud, x: Ip) { RuleOn(c, x) || Reserved(c, x) }

  predicate Watched(w: Watch, c: Cloud) {
    && (w.pool ==> RuleHasPool(c))
    && (w.firewall ==> RuleHasFirewall(c))
    && (w.address.Some? ==> Held(c, w.address.value))
    && (w.fixed.Some? ==> c.rule == Some(w.fixed.value.0) && c.pool == Some(w.fixed.value.1))
  }
}
