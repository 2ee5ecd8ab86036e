/** How the listeners of a load balancer are brought in line with the ports of a service, as a
    computation on values: the steps the sync takes over the listeners it listed. */
module LbaasPorts {
  import opened Wrappers
  import opened LbaasSlices
  import opened LbaasCloud

  ghost predicate DistinctIds(s: seq<Listener>) {
    forall i, j :: 0 <= i < |s| && 0 <= j < |s| && s[i].id == s[j].id ==> i == j
  }

  ghost predicate SamePool(a: Lb, b: Lb, id: Id) {
    && (id in a.pools <==> id in b.pools)
    && (id in a.pools ==> a.pools[id] == b.pools[id])
  }

  ghost predicate Has(rest: seq<Listener>, p: ServicePort) {
    exists l :: l in rest && ListensFor(l, p)
  }

  ghost predicate PortTaken(lb: Lb, port: int) {
    exists l :: l in lb.listeners && l.port == port
  }

  /** After the first i ports: was is the load balancer at the start, now what it has become, and
      rest the listeners still listed as obsolete. */
  ghost predicate Porting(was: Lb, now: Lb, rest: seq<Listener>, ports: seq<ServicePort>, i: nat,
                          nodes: seq<Option<string>>, monitor: bool)
  {
    && i <= |ports| && DistinctIds(rest)
    && Progress(was, now, ports[..i], nodes, monitor)
    && (forall l :: l in rest <==> l in was.listeners && !Asked(l, ports[..i]))
  }

  ghost predicate Progress(was: Lb, now: Lb, done: seq<ServicePort>, nodes: seq<Option<string>>, monitor: bool) {
    && ListenersOk(now.listeners) && was.listeners <= now.listeners
    && DistinctPorts(done) && PortsFree(was, done)
    && (forall l :: l in now.listeners && l !in was.listeners ==> Asked(l, done))
    && (forall l {:trigger SamePool(was, now, l.id)} :: l in was.listeners && !Asked(l, done) ==>
         SamePool(was, now, l.id))
    && (forall p :: p in done ==> PortServed(now, p, nodes, monitor))
    && Undisturbed(was, now, done, nodes)
    && (done != [] ==> NodesOk(nodes))
  }

  lemma PortsStart(was: Lb, rest: seq<Listener>, ports: seq<ServicePort>, nodes: seq<Option<string>>, monitor: bool)
    requires ListenersOk(was.listeners) && DistinctIds(rest) && forall l :: l in rest <==> l in was.listeners
    ensures Porting(was, was, rest, ports, 0, nodes, monitor)
  {
    assert ports[..0] == [];
  }

  ghost predicate AllTcp(ports: seq<ServicePort>) {
    forall p :: p in ports ==> p.protocol == TCP
  }

  /** A port that has no listener listed can be given one exactly when no earlier port is the same
      and no listener for another protocol has it. */
  lemma Refused(was: Lb, now: Lb, rest: seq<Listener>, ports: seq<ServicePort>, i: nat, nodes: seq<Option<string>>,
                monitor: bool)
    requires Porting(was, now, rest, ports, i, nodes, monitor) && i < |ports| && AllTcp(ports)
    requires !Has(rest, ports[i])
    ensures PortTaken(now, ports[i].port) ==> !DistinctPorts(ports) || !PortsFree(was, ports)
    ensures !PortTaken(now, ports[i].port) ==> DistinctPorts(ports[..i + 1]) && PortsFree(was, ports[..i + 1])
  {
    var p := ports[i];
    assert ports[..i + 1] == ports[..i] + [p] && p in ports;
    if PortTaken(now, p.port) {
      var l :| l in now.listeners && l.port == p.port;
      if Asked(l, ports[..i]) {
        var q :| q in ports[..i] && ListensFor(l, q);
        var j :| 0 <= j < i && ports[j] == q;
      } else {
        assert l in rest && !ListensFor(l, p);
      }
    } else {
      forall q | q in ports[..i] ensures q.port != p.port {
        var l :| l in now.listeners && ListensFor(l, q) && PoolServes(now, l.id, q, nodes, monitor);
      }
    }
  }

  /** A listed listener of the port: the port is new and free for it. */
  lemma Accepted(was: Lb, now: Lb, rest: seq<Listener>, ports: seq<ServicePort>, i: nat, nodes: seq<Option<string>>,
                 monitor: bool, l: Listener)
    requires Porting(was, now, rest, ports, i, nodes, monitor) && i < |ports| && AllTcp(ports)
    requires l in rest && ListensFor(l, ports[i])
    ensures l in now.listeners && DistinctPorts(ports[..i + 1]) && PortsFree(was, ports[..i + 1])
  {
    var p := ports[i];
    assert ports[..i + 1] == ports[..i] + [p] && p in ports;
    forall q | q in ports[..i] ensures q.port != p.port {
      assert q in ports;
      assert !ListensFor(l, q);
    }
  }

  lemma StillServed(mid: Lb, after: Lb, l: Listener, q: ServicePort, nodes: seq<Option<string>>, monitor: bool)
    requires ListenersOk(mid.listeners) && l in mid.listeners && OnlyPool(mid, after, l.id)
    requires PortServed(mid, q, nodes, monitor) && q.port != l.port
    ensures PortServed(after, q, nodes, monitor)
  {
    var k :| k in mid.listeners && ListensFor(k, q) && PoolServes(mid, k.id, q, nodes, monitor);
    assert k.id in mid.pools - {l.id};
    assert k.id in after.pools - {l.id} && after.pools[k.id] == (after.pools - {l.id})[k.id];
  }

  /** A step on listener l, created just before (mid) or there all along, keeps everything else. */
  lemma PoolStep(was: Lb, now: Lb, mid: Lb, after: Lb, done: seq<ServicePort>, nodes: seq<Option<string>>,
                 monitor: bool, l: Listener, p: ServicePort)
    requires Progress(was, now, done, nodes, monitor) && ListensFor(l, p)
    requires mid == now.(listeners := now.listeners + {l}) && ListenersOk(mid.listeners) && OnlyPool(mid, after, l.id)
    requires l in was.listeners ==> !Asked(l, done)
    requires l.id in mid.pools ==>
               l.id in after.pools && PoolKept(mid.pools[l.id], after.pools[l.id], nodes, p.nodePort)
    requires DistinctPorts(done + [p])
    ensures Undisturbed(was, after, done + [p], nodes)
    ensures forall k {:trigger SamePool(was, after, k.id)} :: k in was.listeners && !Asked(k, done + [p]) ==>
              SamePool(was, after, k.id)
  {
    forall k, q | k in was.listeners && q in done + [p] && ListensFor(k, q)
      ensures ListenerKept(was, after, k, q, nodes)
    {
      if k == l {
        assert SamePool(was, now, k.id) && q == p;
      } else {
        assert k.id != l.id && k.port != l.port;
        assert q in done;
        assert ListenerKept(was, now, k, q, nodes);
        assert k.id in now.pools ==> k.id in mid.pools - {l.id};
        assert k.id in now.pools ==> (after.pools - {l.id})[k.id] == now.pools[k.id];
      }
    }
    forall k | k in was.listeners && !Asked(k, done + [p]) ensures SamePool(was, after, k.id) {
      assert forall q :: q in done ==> q in done + [p];
      assert SamePool(was, now, k.id);
      assert p in done + [p];
      assert k != l && k.id != l.id;
      assert k.id in mid.pools - {l.id} <==> k.id in after.pools - {l.id};
    }
  }

  /** A finished step: the port is served, by its own listener alone. */
  lemma PortStep(was: Lb, now: Lb, mid: Lb, after: Lb, rest: seq<Listener>, rest': seq<Listener>,
                 ports: seq<ServicePort>, i: nat,
                 nodes: seq<Option<string>>, monitor: bool, l: Listener)
    requires Porting(was, now, rest, ports, i, nodes, monitor) && i < |ports| && ListensFor(l, ports[i])
    requires mid == now.(listeners := now.listeners + {l}) && ListenersOk(mid.listeners) && OnlyPool(mid, after, l.id)
    requires l in was.listeners ==> !Asked(l, ports[..i])
    requires l.id in mid.pools ==>
               l.id in after.pools && PoolKept(mid.pools[l.id], after.pools[l.id], nodes, ports[i].nodePort)
    requires DistinctPorts(ports[..i + 1]) && PortsFree(was, ports[..i + 1])
    requires NodesOk(nodes) && PoolServes(after, l.id, ports[i], nodes, monitor)
    requires DistinctIds(rest') && forall k :: k in rest' <==> k in rest && k.id != l.id
    ensures Porting(was, after, rest', ports, i + 1, nodes, monitor)
  {
    var p, done := ports[i], ports[..i];
    assert ports[..i + 1] == done + [p];
    PoolStep(was, now, mid, after, done, nodes, monitor, l, p);
    assert PortServed(after, p, nodes, monitor);
    forall q | q in done ensures PortServed(after, q, nodes, monitor) {
      var k :| k in now.listeners && ListensFor(k, q) && PoolServes(now, k.id, q, nodes, monitor);
      assert PoolServes(mid, k.id, q, nodes, monitor);
      assert q.port != p.port by {
        var j :| 0 <= j < i && ports[j] == q;
        assert ports[..i + 1][j].port != ports[..i + 1][i].port;
      }
      StillServed(mid, after, l, q, nodes, monitor);
    }
    assert p in done + [p] && Asked(l, done + [p]);
    forall k | k in was.listeners ensures k in rest' <==> !Asked(k, done + [p]) {
      assert forall q :: q in done ==> q in done + [p];
      assert ListensFor(k, p) ==> k == l;
    }
    forall k | k in after.listeners && k !in was.listeners ensures Asked(k, done + [p]) {
      if k != l {
        var q :| q in done && ListensFor(k, q);
        assert q in done + [p];
      }
    }
  }

  /** What holds for the ports done so far holds for all of them: the others were not touched. */
  lemma NoneDisturbed(was: Lb, after: Lb, done: seq<ServicePort>, ports: seq<ServicePort>, nodes: seq<Option<string>>)
    requires DistinctPorts(ports) && done <= ports && was.listeners <= after.listeners &&
               Undisturbed(was, after, done, nodes)
    requires forall k {:trigger SamePool(was, after, k.id)} :: k in was.listeners && !Asked(k, done) ==>
               SamePool(was, after, k.id)
    ensures Undisturbed(was, after, ports, nodes)
  {
    forall k, p | k in was.listeners && p in ports && ListensFor(k, p) ensures ListenerKept(was, after, k, p, nodes) {
      if Asked(k, done) {
        var q :| q in done && ListensFor(k, q);
        assert q in ports && q == p;
      } else {
        assert SamePool(was, after, k.id);
      }
    }
  }

  /** A load balancer that is as it should be gives no cause for a change. */
  lemma PortIdle(was: Lb, rest: seq<Listener>, ports: seq<ServicePort>, i: nat, nodes: seq<Option<string>>,
                 monitor: bool, l: Listener)
    requires Porting(was, was, rest, ports, i, nodes, monitor) && i < |ports| && Serves(was, ports, nodes, monitor)
    ensures PortTaken(was, ports[i].port)
    ensures l in rest && ListensFor(l, ports[i]) ==> PoolServes(was, l.id, ports[i], nodes, monitor)
  {
    assert ports[i] in ports;
    var k :| k in was.listeners && ListensFor(k, ports[i]) && PoolServes(was, k.id, ports[i], nodes, monitor);
  }

  /** A listener that may have been created although the call was reported failed. */
  lemma FailedCreate(was: Lb, now: Lb, after: Lb, ports: seq<ServicePort>, i: nat, nodes: seq<Option<string>>,
                     monitor: bool, l: Listener)
    requires i < |ports| && Progress(was, now, ports[..i], nodes, monitor)
    requires after == now || (after == now.(listeners := now.listeners + {l}) && ListenersOk(after.listeners)
      && ListensFor(l, ports[i]) && l !in was.listeners)
    ensures DistinctPorts(ports) ==> Undisturbed(was, after, ports, nodes)
  {
    if DistinctPorts(ports) {
      assert ports[..i] + [ports[i]] <= ports;
      if after == now {
        NoneDisturbed(was, now, ports[..i], ports, nodes);
      } else {
        PoolStep(was, now, after, after, ports[..i], nodes, monitor, l, ports[i]);
        NoneDisturbed(was, after, ports[..i] + [ports[i]], ports, nodes);
      }
    }
  }

  /** A port whose pool or members could not be brought in line. */
  lemma FailedServe(was: Lb, now: Lb, mid: Lb, after: Lb, ports: seq<ServicePort>, i: nat, nodes: seq<Option<string>>,
                    monitor: bool, l: Listener)
    requires i < |ports| && Progress(was, now, ports[..i], nodes, monitor) && ListensFor(l, ports[i])
    requires mid == now.(listeners := now.listeners + {l}) && ListenersOk(mid.listeners) && OnlyPool(mid, after, l.id)
    requires l in was.listeners ==> !Asked(l, ports[..i])
    requires l.id in mid.pools ==>
               l.id in after.pools && PoolKept(mid.pools[l.id], after.pools[l.id], nodes, ports[i].nodePort)
    requires DistinctPorts(ports[..i + 1])
    ensures DistinctPorts(ports) ==> Undisturbed(was, after, ports, nodes)
  {
    assert ports[..i + 1] == ports[..i] + [ports[i]] && ports[..i] + [ports[i]] <= ports;
    PoolStep(was, now, mid, after, ports[..i], nodes, monitor, l, ports[i]);
    if DistinctPorts(ports) { NoneDisturbed(was, after, ports[..i] + [ports[i]], ports, nodes); }
  }

  lemma NewListenerOk(lb: Lb, l: Listener, nextId: Id)
    requires LbOk(lb, nextId) && l.id == nextId
    ensures l.id !in lb.pools && l !in lb.listeners
    ensures !PortTaken(lb, l.port) ==> LbOk(lb.(listeners := lb.listeners + {l}), nextId + 1)
  {
    forall id | id in lb.pools ensures id != l.id { assert PoolOk(lb, id, nextId); }
    if !PortTaken(lb, l.port) {
      var lb' := lb.(listeners := lb.listeners + {l});
      forall id | id in lb'.pools ensures PoolOk(lb', id, nextId + 1) {
        assert PoolOk(lb, id, nextId);
        var k :| k in lb.listeners && k.id == id;
        assert k in lb'.listeners;
      }
    }
  }

  // ---- deleting what is left on the list ----

  /** Nothing outside the list has changed. */
  ghost predicate Pruned(now: Lb, after: Lb, rest: seq<Listener>) {
    && after.listeners <= now.listeners
    && forall l {:trigger SamePool(now, after, l.id)} :: l in now.listeners && l !in rest ==>
         l in after.listeners && SamePool(now, after, l.id)
  }

  lemma PruneUndisturbed(was: Lb, now: Lb, after: Lb, rest: seq<Listener>, ports: seq<ServicePort>,
                         nodes: seq<Option<string>>, monitor: bool)
    requires Porting(was, now, rest, ports, |ports|, nodes, monitor) && Pruned(now, after, rest)
    ensures Undisturbed(was, after, ports, nodes)
  {
    assert ports[..|ports|] == ports;
    forall k, p | k in was.listeners && p in ports && ListensFor(k, p) ensures ListenerKept(was, after, k, p, nodes) {
      assert ListenerKept(was, now, k, p, nodes);
      assert Asked(k, ports) && k !in rest;
      assert SamePool(now, after, k.id);
    }
  }

  lemma PruneEnds(was: Lb, now: Lb, after: Lb, rest: seq<Listener>, ports: seq<ServicePort>,
                  nodes: seq<Option<string>>, monitor: bool)
    requires Porting(was, now, rest, ports, |ports|, nodes, monitor) && Pruned(now, after, rest)
    requires after.listeners == now.listeners - set l | l in rest
    ensures Serves(after, ports, nodes, monitor) && DistinctPorts(ports) && PortsFree(was, ports)
  {
    assert ports[..|ports|] == ports;
    forall p | p in ports ensures PortServed(after, p, nodes, monitor) {
      var l :| l in now.listeners && ListensFor(l, p) && PoolServes(now, l.id, p, nodes, monitor);
      assert Asked(l, ports) && l !in rest;
      assert SamePool(now, after, l.id) && PoolServes(after, l.id, p, nodes, monitor);
    }
  }

  lemma SelfUndisturbed(was: Lb, ports: seq<ServicePort>, nodes: seq<Option<string>>)
    ensures Undisturbed(was, was, ports, nodes)
  {
  }

  lemma AllListed(was: Lb, now: Lb, rest: seq<Listener>, ports: seq<ServicePort>, nodes: seq<Option<string>>,
                  monitor: bool)
    requires Porting(was, now, rest, ports, |ports|, nodes, monitor)
    ensures forall l :: l in rest ==> l in now.listeners
    ensures ports != [] ==> NodesOk(nodes)
    ensures Serves(was, ports, nodes, monitor) ==> forall l :: l !in rest
  {
    assert ports[..|ports|] == ports;
  }

  lemma WithoutListenerOk(lb: Lb, l: Listener, nextId: Id)
    requires LbOk(lb, nextId) && l.id !in lb.pools
    ensures LbOk(lb.(listeners := lb.listeners - {l}), nextId)
  {
    var lb' := lb.(listeners := lb.listeners - {l});
    forall id | id in lb'.pools ensures PoolOk(lb', id, nextId) {
      assert PoolOk(lb, id, nextId);
      var k :| k in lb.listeners && k.id == id;
      assert k in lb'.listeners;
    }
  }

  lemma PruneStep(now: Lb, before: Lb, after: Lb, rest: seq<Listener>, i: nat)
    requires i < |rest| && ListenersOk(now.listeners) && rest[i] in now.listeners && Pruned(now, before, rest)
    requires after.pools - {rest[i].id} == before.pools - {rest[i].id}
    requires after.listeners == before.listeners - {rest[i]} || after.listeners == before.listeners
    ensures Pruned(now, after, rest)
  {
    forall l | l in now.listeners && l !in rest ensures l in after.listeners && SamePool(now, after, l.id) {
      assert rest[i] in rest && l.id != rest[i].id;
      assert SamePool(now, before, l.id);
      assert l.id in before.pools <==> l.id in before.pools - {rest[i].id};
      assert l.id in after.pools <==> l.id in after.pools - {rest[i].id};
    }
  }
}
