/** ensureLoadBalancer of the AWS provider on an existing classic load balancer: listeners and
    proxy-protocol policies. */
module ElbSync {
  import opened Wrappers
  import opened Faults

  const PROXY_POLICY: string := "k8s-proxyprotocol-enabled"

  datatype Listener = Listener(protocol: string, instanceProtocol: string, instancePort: int, port: int,
                               certificate: string)

  /** policies holds the backend ports that have any. */
  datatype Elb = Elb(listeners: set<Listener>, policies: map<int, set<string>>, policyCreated: bool)

  datatype Backend = Backend(instancePort: int, policies: set<string>)

  ghost predicate DistinctPorts(s: seq<Listener>) {
    forall i, j :: 0 <= i < |s| && 0 <= j < |s| && s[i].port == s[j].port ==> i == j
  }

  /** What ELB guarantees: one listener per port. */
  ghost predicate ElbOk(e: Elb) {
    forall l, k :: l in e.listeners && k in e.listeners && l.port == k.port ==> l == k
  }

  ghost predicate Described(descriptions: seq<Option<Listener>>, e: Elb) {
    forall l :: Some(l) in descriptions <==> l in e.listeners
  }

  ghost predicate BackendsDescribed(backends: seq<Backend>, e: Elb) {
    && (forall b :: b in backends ==> b.instancePort in e.policies && e.policies[b.instancePort] == b.policies)
    && forall port :: port in e.policies ==> Backend(port, e.policies[port]) in backends
  }

  predicate ProxyOn(e: Elb, port: int) {
    port in e.policies && PROXY_POLICY in e.policies[port]
  }

  predicate ServesBackend(expected: seq<Listener>, port: int) {
    exists l :: l in expected && l.instancePort == port
  }

  /** Proxy protocol as requested on every backend port in use, no policies on any other, and a
      backend that was as requested left as it was. One that was not ends with the proxy policy alone,
      or with none. */
  ghost predicate PoliciesSynced(before: Elb, after: Elb, expected: seq<Listener>, proxy: bool) {
    && (forall l :: l in expected ==> ProxyOn(after, l.instancePort) == proxy)
    && (forall port :: port in after.policies && after.policies[port] != {} ==> ServesBackend(expected, port))
    && (forall l :: l in expected && ProxyOn(before, l.instancePort) == proxy ==>
         SamePolicies(before, after, l.instancePort))
    && (forall l :: l in expected && ProxyOn(before, l.instancePort) != proxy ==>
         HasPolicies(after, l.instancePort, if proxy then {PROXY_POLICY} else {}))
    && (forall port :: !ServesBackend(expected, port) ==>
         if port in before.policies then HasPolicies(after, port, {}) else port !in after.policies)
  }

  ghost predicate HasPolicies(e: Elb, port: int, policies: set<string>) {
    port in e.policies && e.policies[port] == policies
  }

  ghost predicate SamePolicies(a: Elb, b: Elb, port: int) {
    && (port in a.policies <==> port in b.policies)
    && (port in a.policies ==> a.policies[port] == b.policies[port])
  }

  // ---- the listener changes ----

  ghost function ToSet(s: seq<Listener>): set<Listener> {
    set l | l in s
  }

  /** The changes a sync asks for. */
  ghost predicate Changes(actual: set<Listener>, expected: seq<Listener>, removals: seq<int>,
                          additions: seq<Listener>) {
    && (forall l :: l in actual && l !in expected ==> l.port in removals)
    && (forall port :: port in removals ==> exists l :: l in actual && l !in expected && l.port == port)
    && (forall l :: l in additions <==> l in expected && l !in actual)
  }

  function WithoutPorts(ls: set<Listener>, ports: seq<int>): set<Listener> {
    set l | l in ls && l.port !in ports
  }

  /** Deletions then additions leave exactly the expected listeners, and no addition collides. */
  lemma ChangesSuffice(e: Elb, expected: seq<Listener>, removals: seq<int>, additions: seq<Listener>)
    requires ElbOk(e) && DistinctPorts(expected) && Changes(e.listeners, expected, removals, additions)
    ensures var kept := WithoutPorts(e.listeners, removals);
      && kept == (set l | l in e.listeners && l in expected)
      && kept + ToSet(additions) == ToSet(expected)
      && forall l, k :: l in kept && k in additions ==> l.port != k.port
  {
    var kept := WithoutPorts(e.listeners, removals);
    assert kept == set l | l in e.listeners && l in expected;
  }

  class LoadBalancer {
    var elb: Elb
    var calls: nat
    const schedule: nat -> Outcome

    ghost predicate Valid()
      reads this
    {
      ElbOk(elb)
    }

    constructor (elb: Elb, schedule: nat -> Outcome)
      requires ElbOk(elb)
      ensures Valid() && this.elb == elb && this.schedule == schedule
    {
      this.elb := elb;
      this.schedule := schedule;
      calls := 0;
    }

    /** A call that would bring the load balancer to the state next, unless it is refused. */
    method Call(next: Elb, allowed: bool) returns (ok: bool)
      requires Valid() && (allowed ==> ElbOk(next))
      modifies this
      ensures Valid()
      ensures ok ==> allowed && elb == next
      ensures elb == old(elb) || (allowed && elb == next)
      ensures AllOk(schedule) ==> ok == allowed
    {
      var outcome := schedule(calls);
      calls := calls + 1;
      if allowed && !outcome.FailBefore? { elb := next; }
      ok := allowed && outcome.Ok?;
    }

    /** The index of the last expected listener that agrees, -1 when none does. */
    static method Find(actual: Listener, expected: seq<Listener>) returns (found: int)
      ensures found == -1 <==> actual !in expected
      ensures found != -1 ==> 0 <= found < |expected| && expected[found] == actual
    {
      found := -1;
      for i := 0 to |expected|
        invariant found == -1 ==> forall j :: 0 <= j < i ==> expected[j] != actual
        invariant found != -1 ==> 0 <= found < i && expected[found] == actual
      {
        if actual.protocol != expected[i].protocol { continue; }
        if actual.instanceProtocol != expected[i].instanceProtocol { continue; }
        if actual.instancePort != expected[i].instancePort { continue; }
        if actual.port != expected[i].port { continue; }
        if actual.certificate != expected[i].certificate { continue; }
        found := i;
      }
    }

    static method Compare(descriptions: seq<Option<Listener>>, expected: seq<Listener>, ghost e: Elb)
      returns (removals: seq<int>, additions: seq<Listener>)
      requires Described(descriptions, e) && DistinctPorts(expected)
      ensures Changes(e.listeners, expected, removals, additions)
    {
      var foundSet: set<int> := {};
      removals := [];
      for d := 0 to |descriptions|
        invariant forall i :: i in foundSet <==> 0 <= i < |expected| && Some(expected[i]) in descriptions[..d]
        invariant forall l :: Some(l) in descriptions[..d] && l !in expected ==> l.port in removals
        invariant forall port :: port in removals ==>
                    exists l :: Some(l) in descriptions && l !in expected && l.port == port
      {
        assert descriptions[..d + 1] == descriptions[..d] + [descriptions[d]] && descriptions[d] in descriptions;
        if descriptions[d].None? { continue; }
        var found := Find(descriptions[d].value, expected);
        if found != -1 {
          foundSet := foundSet + {found};
        } else {
          removals := removals + [descriptions[d].value.port];
        }
      }
      assert descriptions[..|descriptions|] == descriptions;
      additions := [];
      for i := 0 to |expected|
        invariant forall l :: l in additions <==> l in expected[..i] && l !in e.listeners
      {
        assert expected[..i + 1] == expected[..i] + [expected[i]];
        if i in foundSet { continue; }
        additions := additions + [expected[i]];
      }
      assert expected[..|expected|] == expected;
    }

    /** Whatever fails, only listeners that are not expected go and only expected ones come. */
    method SyncListeners(descriptions: seq<Option<Listener>>, expected: seq<Listener>) returns (ok: bool)
      requires Valid() && Described(descriptions, elb) && DistinctPorts(expected)
      modifies this
      ensures Valid() && elb == old(elb).(listeners := elb.listeners)
      ensures old(elb).listeners * ToSet(expected) <= elb.listeners <= old(elb).listeners + ToSet(expected)
      ensures ok ==> elb.listeners == ToSet(expected)
      ensures AllOk(schedule) ==> ok
      ensures old(elb).listeners == ToSet(expected) ==> ok && elb == old(elb) && calls == old(calls)
    {
      ghost var e := elb;
      var removals, additions := Compare(descriptions, expected, elb);
      ChangesSuffice(elb, expected, removals, additions);
      Quiet(e.listeners, expected, removals, additions);
      if |removals| != 0 {
        ok := Call(elb.(listeners := WithoutPorts(elb.listeners, removals)), true);
        if !ok { return; }
      }
      if |additions| != 0 {
        ok := Call(elb.(listeners := elb.listeners + set l | l in additions),
                   forall l, k :: l in elb.listeners && k in additions ==> l.port != k.port);
        return;
      }
      return true;
    }

    // ---- proxy protocol ----

    method SetBackendPolicies(port: int, policies: set<string>) returns (ok: bool)
      requires Valid()
      modifies this
      ensures Valid()
      ensures elb == old(elb).(policies := old(elb).policies[port := policies]) || (!ok && elb == old(elb))
      ensures AllOk(schedule) && (PROXY_POLICY in policies ==> old(elb).policyCreated) ==> ok
    {
      ok := Call(elb.(policies := elb.policies[port := policies]), PROXY_POLICY in policies ==> elb.policyCreated);
    }

    static method ReadBackends(backends: seq<Backend>, ghost e: Elb)
      returns (foundBackends: map<int, bool>, proxyBackends: map<int, bool>)
      requires BackendsDescribed(backends, e)
      ensures foundBackends.Keys == proxyBackends.Keys == e.policies.Keys
      ensures forall port :: port in foundBackends ==> !foundBackends[port]
      ensures forall port :: port in proxyBackends ==> proxyBackends[port] == ProxyOn(e, port)
    {
      foundBackends, proxyBackends := map[], map[];
      for i := 0 to |backends|
        invariant foundBackends.Keys == proxyBackends.Keys <= e.policies.Keys
        invariant forall j :: 0 <= j < i ==> backends[j].instancePort in foundBackends
        invariant forall port :: port in foundBackends ==> !foundBackends[port]
        invariant forall port :: port in proxyBackends ==> proxyBackends[port] == ProxyOn(e, port)
      {
        var b := backends[i];
        assert b in backends;
        foundBackends := foundBackends[b.instancePort := false];
        proxyBackends := proxyBackends[b.instancePort := PROXY_POLICY in b.policies];
      }
      forall port | port in e.policies ensures port in foundBackends {
        var i :| 0 <= i < |backends| && backends[i] == Backend(port, e.policies[port]);
      }
    }

    method SyncInUse(ghost e: Elb, expected: seq<Listener>, proxy: bool, foundBackends: map<int, bool>,
                     proxyBackends: map<int, bool>)
      returns (ok: bool, found: map<int, bool>)
      requires Valid() && SamePart(e, elb) && e.policies == elb.policies && (proxy ==> elb.policyCreated)
      requires foundBackends.Keys == proxyBackends.Keys == e.policies.Keys
      requires forall port :: port in foundBackends ==> !foundBackends[port]
      requires forall port :: port in proxyBackends ==> proxyBackends[port] == ProxyOn(e, port)
      modifies this
      ensures Valid() && SamePart(old(elb), elb)
      ensures ok ==> PortsDone(e, elb, expected, |expected|, proxy, found)
      ensures AllOk(schedule) ==> ok
    {
      found := foundBackends;
      var proxyPolicies := if proxy then {PROXY_POLICY} else {};
      NoneDone(e, elb, expected, proxy, found);
      for i := 0 to |expected|
        invariant Valid() && SamePart(old(elb), elb) && PortsDone(e, elb, expected, i, proxy, found)
      {
        var port := expected[i].instancePort;
        ghost var before, was := elb, found;
        var setPolicy;
        if port !in proxyBackends {
          setPolicy := proxy;
        } else {
          found := found[port := true];
          setPolicy := proxyBackends[port] != proxy;
        }
        if setPolicy {
          ok := SetBackendPolicies(port, proxyPolicies);
          if !ok { return; }
        }
        OneMoreDone(e, before, elb, expected, i, proxy, was, found);
      }
      ok := true;
    }

    method SyncStale(foundBackends: map<int, bool>) returns (ok: bool)
      requires Valid()
      modifies this
      ensures Valid() && SamePart(old(elb), elb)
      ensures ok ==> forall port :: port in foundBackends && !foundBackends[port] ==>
                port in elb.policies && elb.policies[port] == {}
      ensures ok ==> forall port :: !(port in foundBackends && !foundBackends[port]) ==>
                SamePolicies(old(elb), elb, port)
      ensures AllOk(schedule) ==> ok
    {
      var left: set<int> := foundBackends.Keys;
      while left != {}
        invariant Valid() && SamePart(old(elb), elb) && left <= foundBackends.Keys
        invariant forall port :: port in foundBackends && port !in left && !foundBackends[port] ==>
                    port in elb.policies && elb.policies[port] == {}
        invariant forall port :: !(port in foundBackends && !foundBackends[port]) ==> SamePolicies(old(elb), elb, port)
        decreases |left|
      {
        PickPort(left);
        var port :| port in left;
        left := left - {port};
        if !foundBackends[port] {
          ok := SetBackendPolicies(port, {});
          if !ok { return; }
        }
      }
      ok := true;
    }

    method SyncProxy(backends: seq<Backend>, expected: seq<Listener>, proxy: bool) returns (ok: bool)
      requires Valid() && BackendsDescribed(backends, elb)
      modifies this
      ensures Valid() && elb.listeners == old(elb).listeners
      ensures ok ==> PoliciesSynced(old(elb), elb, expected, proxy)
      ensures AllOk(schedule) ==> ok
    {
      ghost var e := elb;
      if proxy {
        ok := Call(elb.(policyCreated := true), true);
        if !ok { return; }
      }
      var foundBackends, proxyBackends := ReadBackends(backends, e);
      ok, foundBackends := SyncInUse(e, expected, proxy, foundBackends, proxyBackends);
      if !ok { return; }
      ghost var mid := elb;
      ok := SyncStale(foundBackends);
      if ok { AllDone(e, mid, elb, expected, proxy, foundBackends); }
    }

    /** Both parts in their order, from one description of the load balancer. */
    method EnsureLoadBalancer(descriptions: seq<Option<Listener>>, backends: seq<Backend>, expected: seq<Listener>,
                              proxy: bool)
      returns (ok: bool)
      requires Valid() && Described(descriptions, elb) && BackendsDescribed(backends, elb) && DistinctPorts(expected)
      modifies this
      ensures Valid()
      ensures ok ==> elb.listeners == ToSet(expected) && PoliciesSynced(old(elb), elb, expected, proxy)
      ensures AllOk(schedule) ==> ok
      ensures old(elb).listeners * ToSet(expected) <= elb.listeners <= old(elb).listeners + ToSet(expected)
    {
      ok := SyncListeners(descriptions, expected);
      if !ok { return; }
      ghost var mid := elb;
      ok := SyncProxy(backends, expected, proxy);
      if ok { SameStart(old(elb), mid, elb, expected, proxy); }
    }
  }

  /** Everything but the policies of backends. */
  ghost predicate SamePart(a: Elb, b: Elb) {
    a.listeners == b.listeners && (a.policyCreated ==> b.policyCreated)
  }

  /** How the policies of a backend port stand against those at the start, once its use is settled. */
  ghost predicate PortDone(e: Elb, now: Elb, port: int, used: bool, proxy: bool) {
    if used then
      && ProxyOn(now, port) == proxy
      && if ProxyOn(e, port) == proxy then SamePolicies(e, now, port)
         else HasPolicies(now, port, if proxy then {PROXY_POLICY} else {})
    else SamePolicies(e, now, port)
  }

  /** After the first i listeners. */
  ghost predicate PortsDone(e: Elb, now: Elb, expected: seq<Listener>, i: nat, proxy: bool, found: map<int, bool>) {
    && i <= |expected| && found.Keys == e.policies.Keys
    && (forall port :: port in found ==> found[port] == ServesBackend(expected[..i], port))
    && forall port {:trigger ServesBackend(expected[..i], port)} ::
         PortDone(e, now, port, ServesBackend(expected[..i], port), proxy)
  }

  lemma NoneDone(e: Elb, now: Elb, expected: seq<Listener>, proxy: bool, found: map<int, bool>)
    requires e.policies == now.policies && found.Keys == e.policies.Keys
    requires forall port :: port in found ==> !found[port]
    ensures PortsDone(e, now, expected, 0, proxy, found)
  {
    assert expected[..0] == [];
  }

  lemma OneMoreServed(expected: seq<Listener>, i: nat, port: int)
    requires i < |expected|
    ensures ServesBackend(expected[..i + 1], port) <==>
              ServesBackend(expected[..i], port) || port == expected[i].instancePort
  {
    assert expected[..i + 1] == expected[..i] + [expected[i]];
    assert expected[i] in expected[..i + 1];
    if ServesBackend(expected[..i], port) {
      var l :| l in expected[..i] && l.instancePort == port;
      assert l in expected[..i + 1];
    }
  }

  lemma OneMoreDone(e: Elb, before: Elb, now: Elb, expected: seq<Listener>, i: nat, proxy: bool, was: map<int, bool>,
                    found: map<int, bool>)
    requires i < |expected| && PortsDone(e, before, expected, i, proxy, was)
    requires var port := expected[i].instancePort;
      && found == (if port in was then was[port := true] else was)
      && now.policies == (if ProxyOn(e, port) == proxy then before.policies
                          else before.policies[port := if proxy then {PROXY_POLICY} else {}])
    ensures PortsDone(e, now, expected, i + 1, proxy, found)
  {
    var done := expected[..i + 1];
    forall port ensures PortDone(e, now, port, ServesBackend(done, port), proxy) {
      OneMoreServed(expected, i, port);
      assert PortDone(e, before, port, ServesBackend(expected[..i], port), proxy);
    }
    forall port | port in found ensures found[port] == ServesBackend(expected[..i + 1], port) {
      OneMoreServed(expected, i, port);
    }
  }

  lemma AllDone(e: Elb, mid: Elb, now: Elb, expected: seq<Listener>, proxy: bool, found: map<int, bool>)
    requires PortsDone(e, mid, expected, |expected|, proxy, found)
    requires forall port :: port in found && !found[port] ==> port in now.policies && now.policies[port] == {}
    requires forall port :: !(port in found && !found[port]) ==> SamePolicies(mid, now, port)
    ensures PoliciesSynced(e, now, expected, proxy)
  {
    assert expected[..|expected|] == expected;
    forall l | l in expected
      ensures ProxyOn(now, l.instancePort) == proxy
      ensures ProxyOn(e, l.instancePort) == proxy ==> SamePolicies(e, now, l.instancePort)
      ensures ProxyOn(e, l.instancePort) != proxy ==>
                HasPolicies(now, l.instancePort, if proxy then {PROXY_POLICY} else {})
    {
      assert ServesBackend(expected, l.instancePort);
      assert PortDone(e, mid, l.instancePort, true, proxy);
    }
    forall port | !ServesBackend(expected, port)
      ensures if port in e.policies then HasPolicies(now, port, {}) else port !in now.policies
    {
      assert PortDone(e, mid, port, ServesBackend(expected[..|expected|], port), proxy);
    }
    forall port | port in now.policies && now.policies[port] != {} ensures ServesBackend(expected, port) {
      assert PortDone(e, mid, port, ServesBackend(expected[..|expected|], port), proxy);
    }
  }

  lemma SameStart(e: Elb, mid: Elb, now: Elb, expected: seq<Listener>, proxy: bool)
    requires e.policies == mid.policies && PoliciesSynced(mid, now, expected, proxy)
    ensures PoliciesSynced(e, now, expected, proxy)
  {
    forall l | l in expected && ProxyOn(e, l.instancePort) == proxy ensures SamePolicies(e, now, l.instancePort) {
      assert SamePolicies(mid, now, l.instancePort);
    }
  }

  lemma Quiet(actual: set<Listener>, expected: seq<Listener>, removals: seq<int>, additions: seq<Listener>)
    requires Changes(actual, expected, removals, additions) && DistinctPorts(expected)
    ensures actual == ToSet(expected) ==> removals == [] && additions == []
    ensures removals == [] ==> WithoutPorts(actual, removals) == actual
    ensures forall l, k :: l in additions && k in additions && l.port == k.port ==> l == k
  {
    SomePort(removals);
    SomeListener(additions);
  }

  lemma PickPort(s: set<int>)
    ensures s == {} || exists x :: x in s
  {
    if forall x :: x !in s { assert s == {}; }
  }

  lemma SomePort(s: seq<int>)
    ensures s == [] || exists x :: x in s
  {
    if s != [] {
      var x := s[0];
      assert x in s;
    }
  }

  lemma SomeListener(s: seq<Listener>)
    ensures s == [] || exists x :: x in s
  {
    if s != [] { assert s[0] in s; }
  }
}
