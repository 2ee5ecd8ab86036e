/** One OpenStack load balancer as the LBaaS v2 API holds it, and what a service asks of it. */
module LbaasCloud {
  import opened Wrappers
  import opened LbaasSlices

  const TCP: string := "TCP"

  datatype ServicePort = ServicePort(protocol: string, port: int, nodePort: int)
  datatype Pool = Pool(monitor: bool, members: set<Member>)

  /** A listener has at most one pool, found under the listener's id. */
  datatype Lb = Lb(listeners: set<Listener>, pools: map<Id, Pool>)

  // ---- what the API guarantees: one listener per port, one member per address and port ----

  ghost predicate MembersOk(ms: set<Member>) {
    forall m, m' :: m in ms && m' in ms && m.addr == m'.addr && m.port == m'.port ==> m == m'
  }

  ghost predicate ListenersOk(ls: set<Listener>) {
    forall l, l' :: l in ls && l' in ls && (l.id == l'.id || l.port == l'.port) ==> l == l'
  }

  ghost predicate HasListener(ls: set<Listener>, id: Id) {
    exists l :: l in ls && l.id == id
  }

  ghost predicate PoolOk(lb: Lb, id: Id, nextId: Id)
    requires id in lb.pools
  {
    && HasListener(lb.listeners, id) && MembersOk(lb.pools[id].members)
    && forall m :: m in lb.pools[id].members ==> m.id < nextId
  }

  ghost predicate LbOk(lb: Lb, nextId: Id) {
    && ListenersOk(lb.listeners) && (forall l :: l in lb.listeners ==> l.id < nextId)
    && forall id {:trigger PoolOk(lb, id, nextId)} :: id in lb.pools ==> PoolOk(lb, id, nextId)
  }

  // ---- what a service asks for ----

  /** The member serves a node of the service. */
  predicate WantedMember(m: Member, nodes: seq<Option<string>>, port: int) {
    m.port == port && Some(m.addr) in nodes
  }

  predicate HasMember(ms: set<Member>, addr: string, port: int) {
    exists m :: m in ms && Matches(m, addr, port)
  }

  /** A member for every node and no other. */
  ghost predicate MembersServe(ms: set<Member>, nodes: seq<Option<string>>, port: int) {
    && (forall m :: m in ms ==> WantedMember(m, nodes, port))
    && forall addr :: Some(addr) in nodes ==> HasMember(ms, addr, port)
  }

  ghost predicate NodesOk(nodes: seq<Option<string>>) {
    && (forall i :: 0 <= i < |nodes| ==> nodes[i].Some?)
    && forall i, j :: 0 <= i < |nodes| && 0 <= j < |nodes| && nodes[i] == nodes[j] ==> i == j
  }

  predicate ListensFor(l: Listener, p: ServicePort) { l.protocol == p.protocol && l.port == p.port }

  /** The port has a listener whose pool has a member for every node and no other. */
  ghost predicate PortServed(lb: Lb, p: ServicePort, nodes: seq<Option<string>>, monitor: bool) {
    exists l :: l in lb.listeners && ListensFor(l, p) && PoolServes(lb, l.id, p, nodes, monitor)
  }

  ghost predicate PoolServes(lb: Lb, id: Id, p: ServicePort, nodes: seq<Option<string>>, monitor: bool) {
    && id in lb.pools && MembersServe(lb.pools[id].members, nodes, p.nodePort)
    && (monitor ==> lb.pools[id].monitor)
  }

  /** The load balancer is exactly what the service asks for. */
  ghost predicate Serves(lb: Lb, ports: seq<ServicePort>, nodes: seq<Option<string>>, monitor: bool) {
    && (forall p :: p in ports ==> PortServed(lb, p, nodes, monitor))
    && forall l :: l in lb.listeners ==> Asked(l, ports)
  }

  predicate Asked(l: Listener, ports: seq<ServicePort>) {
    exists p :: p in ports && ListensFor(l, p)
  }

  ghost predicate DistinctPorts(ports: seq<ServicePort>) {
    forall i, j :: 0 <= i < |ports| && 0 <= j < |ports| && ports[i].port == ports[j].port ==> i == j
  }

  /** No listener for another protocol sits on a port of the service. */
  ghost predicate PortsFree(lb: Lb, ports: seq<ServicePort>) {
    forall l, p :: l in lb.listeners && p in ports && l.port == p.port ==> l.protocol == p.protocol
  }

  // ---- what a run must not disturb ----

  ghost predicate PoolKept(before: Pool, after: Pool, nodes: seq<Option<string>>, port: int) {
    && (before.monitor ==> after.monitor)
    && forall m :: m in before.members && WantedMember(m, nodes, port) ==> m in after.members
  }

  /** The listener of a service port, its pool, and the members for its nodes are still there. */
  ghost predicate ListenerKept(before: Lb, after: Lb, l: Listener, p: ServicePort, nodes: seq<Option<string>>) {
    && l in after.listeners
    && (l.id in before.pools ==>
         l.id in after.pools && PoolKept(before.pools[l.id], after.pools[l.id], nodes, p.nodePort))
  }

  ghost predicate Undisturbed(before: Lb, after: Lb, ports: seq<ServicePort>, nodes: seq<Option<string>>) {
    forall l, p {:trigger ListenerKept(before, after, l, p, nodes)} ::
      l in before.listeners && p in ports && ListensFor(l, p) ==> ListenerKept(before, after, l, p, nodes)
  }

  // ---- updates ----

  /** Only the pool of listener id differs. */
  ghost predicate OnlyPool(before: Lb, after: Lb, id: Id) {
    && after.listeners == before.listeners
    && after.pools - {id} == before.pools - {id}
  }

  function WithMembers(lb: Lb, id: Id, ms: set<Member>): Lb
    requires id in lb.pools
  {
    lb.(pools := lb.pools[id := lb.pools[id].(members := ms)])
  }

  lemma LaterIds(lb: Lb, nextId: Id, later: Id)
    requires LbOk(lb, nextId) && nextId <= later
    ensures LbOk(lb, later)
  {
    forall id | id in lb.pools ensures PoolOk(lb, id, later) { assert PoolOk(lb, id, nextId); }
  }

  /** Giving a listener of the load balancer another pool. */
  lemma WithPoolOk(lb: Lb, id: Id, pool: Pool, nextId: Id)
    requires LbOk(lb, nextId) && HasListener(lb.listeners, id)
    requires MembersOk(pool.members) && forall m :: m in pool.members ==> m.id < nextId
    ensures LbOk(lb.(pools := lb.pools[id := pool]), nextId)
  {
    var lb' := lb.(pools := lb.pools[id := pool]);
    forall x | x in lb'.pools ensures PoolOk(lb', x, nextId) {
      if x != id { assert PoolOk(lb, x, nextId); }
    }
  }

  lemma WithMembersOk(lb: Lb, id: Id, ms: set<Member>, nextId: Id)
    requires LbOk(lb, nextId) && id in lb.pools && MembersOk(ms) && forall m :: m in ms ==> m.id < nextId
    ensures LbOk(WithMembers(lb, id, ms), nextId)
  {
    assert PoolOk(lb, id, nextId);
    WithPoolOk(lb, id, lb.pools[id].(members := ms), nextId);
  }

  lemma WithoutPoolOk(lb: Lb, id: Id, nextId: Id)
    requires LbOk(lb, nextId)
    ensures LbOk(lb.(pools := lb.pools - {id}), nextId)
  {
    var lb' := lb.(pools := lb.pools - {id});
    forall x | x in lb'.pools ensures PoolOk(lb', x, nextId) { assert PoolOk(lb, x, nextId); }
  }
}
