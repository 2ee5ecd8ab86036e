/** EnsureLoadBalancer of the OpenStack LBaaS v2 provider: listeners, pools, members, monitors. */
module LbaasV2 {
  import opened Wrappers
  import opened Faults
  import opened LbaasSlices
  import opened LbaasCloud
  import opened LbaasMembers
  import P = LbaasPorts

  datatype Affinity = NoAffinity | ClientIP | OtherAffinity

  /** allowAll is None when the source ranges do not parse. */
  datatype Service = Service(ports: seq<ServicePort>, allowAll: Option<bool>, affinity: Affinity)

  /** The request passes the checks made before any call. */
  ghost predicate Accepted(svc: Service, manageGroups: bool) {
    && svc.ports != [] && P.AllTcp(svc.ports)
    && svc.allowAll.Some? && (svc.allowAll.value || manageGroups)
    && !svc.affinity.OtherAffinity?
  }

  /** What is refused before any call is made. */
  lemma RefusedExactly(svc: Service, manageGroups: bool)
    ensures !Accepted(svc, manageGroups) <==>
            || |svc.ports| == 0
            || (exists i :: 0 <= i < |svc.ports| && svc.ports[i].protocol != "TCP")
            || svc.allowAll.None?
            || (svc.allowAll == Some(false) && !manageGroups)
            || (svc.affinity != NoAffinity && svc.affinity != ClientIP)
  {
    if p :| p in svc.ports && p.protocol != "TCP" {
      var i :| 0 <= i < |svc.ports| && svc.ports[i] == p;
    }
    if i :| 0 <= i < |svc.ports| && svc.ports[i].protocol != "TCP" { assert svc.ports[i] in svc.ports; }
  }

  /** Distinct ports, none of them taken by a listener for another protocol, and nodes that all
      have an address of their own. */
  ghost predicate CanServe(lb: Lb, ports: seq<ServicePort>, nodes: seq<Option<string>>) {
    DistinctPorts(ports) && PortsFree(lb, ports) && NodesOk(nodes)
  }

  /** The provider's view of one load balancer. Each call consumes one entry of the failure
      schedule. */
  class Provider {
    var lb: Lb
    var nextId: Id
    var calls: nat
    const schedule: nat -> Outcome
    const createMonitor: bool
    const manageSecurityGroups: bool

    ghost predicate Valid()
      reads this
    {
      LbOk(lb, nextId)
    }

    constructor (lb: Lb, nextId: Id, schedule: nat -> Outcome, createMonitor: bool, manageSecurityGroups: bool)
      requires LbOk(lb, nextId)
      ensures Valid() && this.lb == lb && this.schedule == schedule
      ensures this.createMonitor == createMonitor && this.manageSecurityGroups == manageSecurityGroups
    {
      this.lb := lb;
      this.nextId := nextId;
      this.schedule := schedule;
      this.createMonitor := createMonitor;
      this.manageSecurityGroups := manageSecurityGroups;
      calls := 0;
    }

    method Read() returns (ok: bool)
      modifies this`calls
      ensures AllOk(schedule) ==> ok
    {
      ok := schedule(calls).Ok?;
      calls := calls + 1;
    }

    /** A call that would bring the load balancer to the state next, unless the API refuses it. */
    method Call(next: Lb, allowed: bool) returns (ok: bool)
      requires Valid() && (allowed ==> LbOk(next, nextId))
      modifies this`lb, this`calls
      ensures Valid()
      ensures ok ==> allowed && lb == next
      ensures !ok ==> lb == old(lb) || (allowed && lb == next)
      ensures AllOk(schedule) ==> ok == allowed
    {
      var outcome := schedule(calls);
      calls := calls + 1;
      if allowed && !outcome.FailBefore? {
        lb := next;
      }
      ok := allowed && outcome.Ok?;
    }

    // ---- members of one pool ----

    /** The pool of listener id has the members ms, and nothing else differs from lb0. */
    ghost predicate PoolHas(lb0: Lb, id: Id, ms: set<Member>)
      reads this
    {
      id in lb0.pools && lb == WithMembers(lb0, id, ms)
    }

    method ListMembers(ms: set<Member>) returns (members: array<Member>)
      requires MembersOk(ms)
      ensures fresh(members) && DistinctAddresses(members[..])
      ensures forall m :: m in members[..] <==> m in ms
    {
      var left, s := ms, [];
      while left != {}
        invariant left <= ms && DistinctAddresses(s)
        invariant forall m :: m in s <==> m in ms && m !in left
        decreases |left|
      {
        var m :| m in left;
        s := s + [m];
        left := left - {m};
      }
      members := new Member[|s|](i requires 0 <= i < |s| => s[i]);
      assert members[..] == s;
    }

    method CreateMember(ghost lb0: Lb, id: Id, addr: string, port: int) returns (ok: bool, ghost m: Member)
      requires Valid() && id in lb.pools && PoolHas(lb0, id, lb.pools[id].members)
      modifies this
      ensures Valid() && m.addr == addr && m.port == port
      ensures PoolHas(lb0, id, old(lb).pools[id].members) || PoolHas(lb0, id, old(lb).pools[id].members + {m})
      ensures HasMember(old(lb).pools[id].members, addr, port) ==> !ok && lb == old(lb)
      ensures ok ==> PoolHas(lb0, id, old(lb).pools[id].members + {m})
      ensures AllOk(schedule) && !HasMember(old(lb).pools[id].members, addr, port) ==> ok
    {
      var pool := lb.pools[id];
      var created := Member(nextId, addr, port);
      m := created;
      assert PoolOk(lb, id, nextId);
      LaterIds(lb, nextId, nextId + 1);
      nextId := nextId + 1;
      var allowed := !HasMember(pool.members, addr, port);
      if allowed {
        assert forall x :: x in pool.members && x.addr == addr && x.port == port ==> Matches(x, addr, port);
        WithMembersOk(lb, id, pool.members + {created}, nextId);
      }
      ok := Call(WithMembers(lb, id, pool.members + {created}), allowed);
    }

    /** One round of the loop over the nodes. */
    method SyncNode(ghost lb0: Lb, ghost was: set<Member>, id: Id, members: array<Member>, n: nat,
                    ghost nodes: seq<Option<string>>, ghost i: nat, addr: string, port: int)
      returns (r: Option<nat>)
      requires Valid() && n <= members.Length
      requires id in lb.pools && PoolHas(lb0, id, lb.pools[id].members)
      requires i < |nodes| && nodes[i] == Some(addr) && Syncing(was, lb.pools[id].members, members[..n], nodes, i, port)
      modifies this, members
      ensures Valid() && id in lb.pools && PoolHas(lb0, id, lb.pools[id].members)
      ensures was <= lb.pools[id].members
      ensures r.Some? ==> r.value <= n && Syncing(was, lb.pools[id].members, members[..r.value], nodes, i + 1, port)
      ensures MembersServe(was, nodes, port) ==> lb == old(lb)
      ensures AllOk(schedule) && Some(addr) !in nodes[..i] ==> r.Some?
    {
      ghost var now, rest := lb.pools[id].members, members[..n];
      var found := MemberExists(members, n, addr, port);
      if found {
        DistinctNeverOverruns(rest, n, addr, port);
        r := PopMember(members, n, addr, port);
        RemovedFromDistinct(rest, members[..r.value], addr, port);
        SyncKeeps(was, now, rest, members[..r.value], nodes, i, port, addr);
      } else {
        Refused(was, now, rest, nodes, i, port, addr);
        if MembersServe(was, nodes, port) { SyncIdle(was, now, rest, nodes, i, port); }
        var ok;
        ghost var m;
        ok, m := CreateMember(lb0, id, addr, port);
        if !ok { return None; }
        SyncAdds(was, now, rest, nodes, i, port, m);
        return Some(n);
      }
    }

    method DeleteMember(ghost lb0: Lb, id: Id, m: Member) returns (ok: bool)
      requires Valid() && id in lb.pools && PoolHas(lb0, id, lb.pools[id].members)
      modifies this`lb, this`calls
      ensures Valid() && id in lb.pools && PoolHas(lb0, id, lb.pools[id].members)
      ensures lb.pools[id].members == old(lb).pools[id].members - {m} || (!ok && lb == old(lb))
      ensures AllOk(schedule) ==> ok
    {
      assert PoolOk(lb, id, nextId);
      WithMembersOk(lb, id, lb.pools[id].members - {m}, nextId);
      ok := Call(WithMembers(lb, id, lb.pools[id].members - {m}), true);
    }

    /** Deletes the members left on the list. */
    method DeleteMembers(ghost lb0: Lb, id: Id, obsolete: seq<Member>) returns (ok: bool)
      requires Valid() && id in lb.pools && PoolHas(lb0, id, lb.pools[id].members)
      modifies this`lb, this`calls
      ensures Valid() && id in lb.pools && PoolHas(lb0, id, lb.pools[id].members)
      ensures forall m :: m in old(lb).pools[id].members && m !in obsolete ==> m in lb.pools[id].members
      ensures ok ==> lb.pools[id].members == old(lb).pools[id].members - set m | m in obsolete
      ensures (forall m :: m !in obsolete) ==> lb == old(lb)
      ensures AllOk(schedule) ==> ok
    {
      ghost var now := lb.pools[id].members;
      for i := 0 to |obsolete|
        invariant Valid() && id in lb.pools && PoolHas(lb0, id, lb.pools[id].members)
        invariant lb.pools[id].members == now - set m | m in obsolete[..i]
        invariant lb == old(lb) || (i > 0 && obsolete[0] in obsolete)
      {
        assert obsolete[..i + 1] == obsolete[..i] + [obsolete[i]] && obsolete[i] in obsolete;
        ok := DeleteMember(lb0, id, obsolete[i]);
        if !ok { return; }
      }
      assert obsolete[..|obsolete|] == obsolete;
      ok := true;
    }

    /** Brings the members of listener id's pool in line with the nodes. */
    method SyncMembers(id: Id, nodes: seq<Option<string>>, port: int) returns (ok: bool)
      requires Valid() && id in lb.pools
      modifies this
      ensures Valid() && id in lb.pools && PoolHas(old(lb), id, lb.pools[id].members)
      ensures PoolKept(old(lb).pools[id], lb.pools[id], nodes, port)
      ensures ok ==> NodesOk(nodes) && MembersServe(lb.pools[id].members, nodes, port)
      ensures MembersServe(old(lb).pools[id].members, nodes, port) ==> lb == old(lb)
      ensures AllOk(schedule) && NodesOk(nodes) ==> ok
    {
      ghost var lb0 := lb;
      ghost var was := lb.pools[id].members;
      assert PoolOk(lb, id, nextId);
      ok := Read();
      if !ok { return; }
      var members := ListMembers(lb.pools[id].members);
      var n := members.Length;
      assert members[..n] == members[..];
      SyncStarts(was, members[..n], nodes, port);
      for i := 0 to |nodes|
        invariant 0 <= n <= members.Length && Valid() && id in lb.pools && PoolHas(lb0, id, lb.pools[id].members)
        invariant Syncing(was, lb.pools[id].members, members[..n], nodes, i, port)
        invariant MembersServe(was, nodes, port) ==> lb == lb0
      {
        Prefix(nodes, i);
        if nodes[i].None? { return false; }
        var r := SyncNode(lb0, was, id, members, n, nodes, i, nodes[i].value, port);
        if r.None? { return false; }
        n := r.value;
      }
      ghost var now := lb.pools[id].members;
      ghost var rest := members[..n];
      if MembersServe(was, nodes, port) { SyncIdle(was, now, rest, nodes, |nodes|, port); }
      assert nodes[..|nodes|] == nodes;
      ok := DeleteMembers(lb0, id, members[..n]);
      if ok { SyncEnds(was, now, rest, lb.pools[id].members, nodes, port); }
    }

    method EnsurePool(l: Listener) returns (ok: bool)
      requires Valid() && l in lb.listeners
      modifies this`lb, this`calls
      ensures Valid() && (ok ==> l.id in lb.pools) && (AllOk(schedule) ==> ok)
      ensures lb == old(lb) ||
                (l.id !in old(lb).pools && lb == old(lb).(pools := old(lb).pools[l.id := Pool(false, {})]))
    {
      ok := Read();
      if ok && l.id !in lb.pools {
        WithPoolOk(lb, l.id, Pool(false, {}), nextId);
        ok := Call(lb.(pools := lb.pools[l.id := Pool(false, {})]), true);
      }
    }

    method CreateMonitor(id: Id) returns (ok: bool)
      requires Valid() && id in lb.pools
      modifies this`lb, this`calls
      ensures Valid() && (AllOk(schedule) ==> ok)
      ensures lb == old(lb).(pools := old(lb).pools[id := old(lb).pools[id].(monitor := true)]) ||
                (!ok && lb == old(lb))
    {
      assert PoolOk(lb, id, nextId);
      WithPoolOk(lb, id, lb.pools[id].(monitor := true), nextId);
      ok := Call(lb.(pools := lb.pools[id := lb.pools[id].(monitor := true)]), true);
    }

    /** Finds or creates the pool of a listener, and syncs its members and its monitor. */
    method ServeListener(l: Listener, p: ServicePort, nodes: seq<Option<string>>) returns (ok: bool)
      requires Valid() && l in lb.listeners
      modifies this
      ensures Valid() && OnlyPool(old(lb), lb, l.id)
      ensures l.id in old(lb).pools ==>
                l.id in lb.pools && PoolKept(old(lb).pools[l.id], lb.pools[l.id], nodes, p.nodePort)
      ensures ok ==> NodesOk(nodes) && PoolServes(lb, l.id, p, nodes, createMonitor)
      ensures PoolServes(old(lb), l.id, p, nodes, createMonitor) ==> lb == old(lb)
      ensures AllOk(schedule) && NodesOk(nodes) ==> ok
    {
      ok := EnsurePool(l);
      if !ok { return; }
      var hadMonitor := lb.pools[l.id].monitor;
      ok := SyncMembers(l.id, nodes, p.nodePort);
      if !ok { return; }
      if !hadMonitor && createMonitor {
        ok := CreateMonitor(l.id);
      }
    }

    // ---- listeners ----

    method ListListeners() returns (listeners: array<Listener>)
      requires Valid()
      ensures fresh(listeners) && P.DistinctIds(listeners[..])
      ensures forall l :: l in listeners[..] <==> l in lb.listeners
    {
      var left, s := lb.listeners, [];
      while left != {}
        invariant left <= lb.listeners && P.DistinctIds(s)
        invariant forall l :: l in s <==> l in lb.listeners && l !in left
        decreases |left|
      {
        var l :| l in left;
        s := s + [l];
        left := left - {l};
      }
      listeners := new Listener[|s|](i requires 0 <= i < |s| => s[i]);
      assert listeners[..] == s;
    }

    method GetListenerForPort(listeners: array<Listener>, n: nat, p: ServicePort) returns (r: Option<Listener>)
      requires n <= listeners.Length
      ensures r.None? ==> !P.Has(listeners[..n], p)
      ensures r.Some? ==> r.value in listeners[..n] && ListensFor(r.value, p)
    {
      for i := 0 to n
        invariant forall j :: 0 <= j < i ==> !ListensFor(listeners[j], p)
      {
        if ListensFor(listeners[i], p) {
          assert listeners[i] == listeners[..n][i];
          return Some(listeners[i]);
        }
      }
      return None;
    }

    method CreateListener(p: ServicePort) returns (ok: bool, l: Listener)
      requires Valid()
      modifies this
      ensures Valid() && ListensFor(l, p) && l.id !in old(lb).pools && l !in old(lb).listeners
      ensures ok ==> !P.PortTaken(old(lb), p.port)
      ensures lb == old(lb).(listeners := old(lb).listeners + {l}) || (!ok && lb == old(lb))
      ensures P.PortTaken(old(lb), p.port) ==> lb == old(lb)
      ensures AllOk(schedule) && !P.PortTaken(old(lb), p.port) ==> ok
    {
      l := Listener(nextId, p.protocol, p.port);
      P.NewListenerOk(lb, l, nextId);
      LaterIds(lb, nextId, nextId + 1);
      nextId := nextId + 1;
      ok := Call(lb.(listeners := lb.listeners + {l}), !exists k :: k in lb.listeners && k.port == p.port);
    }

    /** The listener of port i: one of the first n listed, or a new one. */
    method EnsureListener(ghost was: Lb, listeners: array<Listener>, n: nat, ports: seq<ServicePort>, i: nat,
                          ghost nodes: seq<Option<string>>)
      returns (r: Option<Listener>)
      requires Valid() && n <= listeners.Length && i < |ports| && P.AllTcp(ports)
      requires P.Porting(was, lb, listeners[..n], ports, i, nodes, createMonitor)
      modifies this
      ensures Valid()
      ensures r.Some? ==>
                && ListensFor(r.value, ports[i]) && lb == old(lb).(listeners := old(lb).listeners + {r.value})
                && (r.value in was.listeners ==> !Asked(r.value, ports[..i]))
                && DistinctPorts(ports[..i + 1]) && PortsFree(was, ports[..i + 1])
      ensures r.None? && DistinctPorts(ports) ==> Undisturbed(was, lb, ports, nodes)
      ensures Serves(was, ports, nodes, createMonitor) && old(lb) == was ==>
                lb == was && (r.Some? ==> PoolServes(was, r.value.id, ports[i], nodes, createMonitor))
      ensures AllOk(schedule) && DistinctPorts(ports) && PortsFree(was, ports) ==> r.Some?
    {
      ghost var now, rest := lb, listeners[..n];
      var found := GetListenerForPort(listeners, n, ports[i]);
      if Serves(was, ports, nodes, createMonitor) && now == was {
        P.PortIdle(was, rest, ports, i, nodes, createMonitor, if found.Some? then found.value else Listener(0, "", 0));
      }
      if found.Some? {
        P.Accepted(was, now, rest, ports, i, nodes, createMonitor, found.value);
        assert lb == now.(listeners := now.listeners + {found.value});
        return found;
      }
      P.Refused(was, now, rest, ports, i, nodes, createMonitor);
      var ok, l := CreateListener(ports[i]);
      if !ok {
        P.FailedCreate(was, now, lb, ports, i, nodes, createMonitor, l);
        return None;
      }
      return Some(l);
    }

    /** One round of the loop over the ports. */
    method SyncPort(ghost was: Lb, listeners: array<Listener>, n: nat, ports: seq<ServicePort>, i: nat,
                    nodes: seq<Option<string>>)
      returns (r: Option<nat>)
      requires Valid() && n <= listeners.Length && i < |ports| && P.AllTcp(ports)
      requires P.Porting(was, lb, listeners[..n], ports, i, nodes, createMonitor)
      modifies this, listeners
      ensures Valid()
      ensures r.Some? ==> r.value <= n && P.Porting(was, lb, listeners[..r.value], ports, i + 1, nodes, createMonitor)
      ensures r.None? && DistinctPorts(ports) ==> Undisturbed(was, lb, ports, nodes)
      ensures Serves(was, ports, nodes, createMonitor) && old(lb) == was ==> lb == was
      ensures AllOk(schedule) && NodesOk(nodes) && DistinctPorts(ports) && PortsFree(was, ports) ==> r.Some?
    {
      ghost var now, rest := lb, listeners[..n];
      var found := EnsureListener(was, listeners, n, ports, i, nodes);
      if found.None? { return None; }
      var l := found.value;
      ghost var mid := lb;
      var k := PopListener(listeners, n, l.id);
      var ok := ServeListener(l, ports[i], nodes);
      if !ok {
        P.FailedServe(was, now, mid, lb, ports, i, nodes, createMonitor, l);
        return None;
      }
      P.PortStep(was, now, mid, lb, rest, listeners[..k], ports, i, nodes, createMonitor, l);
      return Some(k);
    }

    // ---- obsolete listeners ----

    /** Deletes the monitor, the members and the pool of a listener, then the listener. */
    method DeleteListener(l: Listener) returns (ok: bool)
      requires Valid() && l in lb.listeners
      modifies this`lb, this`calls
      ensures Valid()
      ensures lb.pools - {l.id} == old(lb).pools - {l.id}
      ensures lb.listeners == old(lb).listeners - {l} || (!ok && lb.listeners == old(lb).listeners)
      ensures AllOk(schedule) ==> ok
    {
      ok := Read();
      if !ok { return; }
      if l.id in lb.pools {
        ok := DeletePool(l.id);
        if !ok { return; }
      }
      P.WithoutListenerOk(lb, l, nextId);
      ok := Call(lb.(listeners := lb.listeners - {l}), true);
    }

    method DeletePool(id: Id) returns (ok: bool)
      requires Valid() && id in lb.pools
      modifies this`lb, this`calls
      ensures Valid() && OnlyPool(old(lb), lb, id) && (ok ==> id !in lb.pools) && (AllOk(schedule) ==> ok)
    {
      assert PoolOk(lb, id, nextId);
      if lb.pools[id].monitor {
        WithPoolOk(lb, id, lb.pools[id].(monitor := false), nextId);
        ok := Call(lb.(pools := lb.pools[id := lb.pools[id].(monitor := false)]), true);
        if !ok { return; }
      }
      ok := Read();
      if !ok { return; }
      ghost var lb1 := lb;
      assert PoolOk(lb, id, nextId) && lb == WithMembers(lb1, id, lb.pools[id].members);
      var members := ListMembers(lb.pools[id].members);
      ok := DeleteMembers(lb1, id, members[..]);
      if !ok { return; }
      WithoutPoolOk(lb, id, nextId);
      ok := Call(lb.(pools := lb.pools - {id}), true);
    }

    method DeleteObsolete(obsolete: seq<Listener>) returns (ok: bool)
      requires Valid() && P.DistinctIds(obsolete) && forall l :: l in obsolete ==> l in lb.listeners
      modifies this`lb, this`calls
      ensures Valid() && P.Pruned(old(lb), lb, obsolete)
      ensures ok ==> lb.listeners == old(lb).listeners - set l | l in obsolete
      ensures (forall l :: l !in obsolete) ==> lb == old(lb)
      ensures AllOk(schedule) ==> ok
    {
      ghost var now := lb;
      for i := 0 to |obsolete|
        invariant Valid() && P.Pruned(now, lb, obsolete)
        invariant lb.listeners == now.listeners - set l | l in obsolete[..i]
        invariant lb == now || (i > 0 && obsolete[0] in obsolete)
      {
        assert obsolete[..i + 1] == obsolete[..i] + [obsolete[i]] && obsolete[i] in obsolete;
        ghost var before := lb;
        ok := DeleteListener(obsolete[i]);
        P.PruneStep(now, before, lb, obsolete, i);
        if !ok { return; }
      }
      assert obsolete[..|obsolete|] == obsolete;
      ok := true;
    }

    // ---- the whole run ----

    method CheckService(svc: Service) returns (ok: bool)
      ensures ok == Accepted(svc, manageSecurityGroups)
    {
      if svc.ports == [] { return false; }
      for i := 0 to |svc.ports|
        invariant forall j :: 0 <= j < i ==> svc.ports[j].protocol == TCP
      {
        if svc.ports[i].protocol != TCP { return false; }
      }
      if svc.allowAll.None? { return false; }
      if !svc.allowAll.value && !manageSecurityGroups { return false; }
      return !svc.affinity.OtherAffinity?;
    }

    /** A successful run leaves exactly what the service asks for, and when no call fails a run is
        successful exactly for the services it can serve. Whatever fails, nothing that serves the
        service is taken away, and a load balancer that is as it should be is left alone. */
    method EnsureLoadBalancer(svc: Service, nodes: seq<Option<string>>) returns (ok: bool)
      requires Valid()
      modifies this
      ensures Valid()
      ensures ok ==> Accepted(svc, manageSecurityGroups) && CanServe(old(lb), svc.ports, nodes)
      ensures ok ==> Serves(lb, svc.ports, nodes, createMonitor)
      ensures AllOk(schedule) && Accepted(svc, manageSecurityGroups) && CanServe(old(lb), svc.ports, nodes) ==> ok
      ensures DistinctPorts(svc.ports) ==> Undisturbed(old(lb), lb, svc.ports, nodes)
      ensures Serves(old(lb), svc.ports, nodes, createMonitor) ==> lb == old(lb)
      ensures !Accepted(svc, manageSecurityGroups) ==> lb == old(lb)
    {
      ghost var was := lb;
      var ports := svc.ports;
      P.SelfUndisturbed(was, ports, nodes);
      ok := CheckService(svc);
      if !ok { return; }
      ok := Read();
      if !ok { return; }
      var listeners := ListListeners();
      var n := listeners.Length;
      assert listeners[..n] == listeners[..];
      P.PortsStart(was, listeners[..n], ports, nodes, createMonitor);
      for i := 0 to |ports|
        invariant Valid() && 0 <= n <= listeners.Length
        invariant P.Porting(was, lb, listeners[..n], ports, i, nodes, createMonitor)
        invariant Serves(was, ports, nodes, createMonitor) ==> lb == was
      {
        var r := SyncPort(was, listeners, n, ports, i, nodes);
        if r.None? { return false; }
        n := r.value;
      }
      ghost var now, rest := lb, listeners[..n];
      P.AllListed(was, now, rest, ports, nodes, createMonitor);
      ok := DeleteObsolete(listeners[..n]);
      P.PruneUndisturbed(was, now, lb, rest, ports, nodes, createMonitor);
      if ok { P.PruneEnds(was, now, lb, rest, ports, nodes, createMonitor); }
    }
  }
}
