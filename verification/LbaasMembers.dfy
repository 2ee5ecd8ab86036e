/** How the members of one pool are brought in line with the nodes, as a computation on values:
    the steps the sync takes over the members it listed. */
module LbaasMembers {
  import opened Wrappers
  import opened LbaasSlices
  import opened LbaasCloud

  /** After the first i nodes: was are the members listed at the start, now those the pool has, and
      rest the ones still listed as obsolete. */
  ghost predicate Syncing(was: set<Member>, now: set<Member>, rest: seq<Member>, nodes: seq<Option<string>>, i: nat,
                          port: int) {
    && i <= |nodes| && was <= now && MembersOk(now) && DistinctAddresses(rest)
    && NodesOk(nodes[..i])
    && (forall m :: m in rest <==> m in was && !WantedMember(m, nodes[..i], port))
    && (forall m :: m in now && m !in was ==> WantedMember(m, nodes[..i], port))
    && (forall addr :: Some(addr) in nodes[..i] ==> HasMember(now, addr, port))
  }

  lemma SyncStarts(was: set<Member>, rest: seq<Member>, nodes: seq<Option<string>>, port: int)
    requires MembersOk(was) && DistinctAddresses(rest) && forall m :: m in rest <==> m in was
    ensures Syncing(was, was, rest, nodes, 0, port)
  {
    assert nodes[..0] == [];
  }

  /** A listed member is found for a node exactly when one was there and no earlier node has the
      same address. */
  lemma Found(was: set<Member>, now: set<Member>, rest: seq<Member>, nodes: seq<Option<string>>, i: nat, port: int,
              addr: string)
    requires Syncing(was, now, rest, nodes, i, port)
    ensures (exists m :: m in rest && Matches(m, addr, port)) <==>
              HasMember(was, addr, port) && Some(addr) !in nodes[..i]
  {
    if HasMember(was, addr, port) && Some(addr) !in nodes[..i] {
      var m :| m in was && Matches(m, addr, port);
      assert m in rest;
    }
  }

  lemma Prefix(nodes: seq<Option<string>>, i: nat)
    requires i < |nodes|
    ensures forall x :: x in nodes[..i + 1] <==> x in nodes[..i] || x == nodes[i]
    ensures NodesOk(nodes[..i]) && nodes[i].Some? && nodes[i] !in nodes[..i] ==> NodesOk(nodes[..i + 1])
    ensures nodes[i].None? || nodes[i] in nodes[..i] ==> !NodesOk(nodes)
  {
    assert nodes[..i + 1] == nodes[..i] + [nodes[i]];
    if nodes[i] in nodes[..i] {
      var j :| 0 <= j < i && nodes[j] == nodes[i];
    }
  }

  /** The node's member was there: it is taken off the list. */
  lemma SyncKeeps(was: set<Member>, now: set<Member>, rest: seq<Member>, rest': seq<Member>,
                  nodes: seq<Option<string>>, i: nat, port: int, addr: string)
    requires Syncing(was, now, rest, nodes, i, port) && i < |nodes| && nodes[i] == Some(addr)
    requires exists m :: m in rest && Matches(m, addr, port)
    requires DistinctAddresses(rest') && forall m :: m in rest' <==> m in rest && !Matches(m, addr, port)
    ensures Syncing(was, now, rest', nodes, i + 1, port)
  {
    Found(was, now, rest, nodes, i, port, addr);
    Prefix(nodes, i);
    var m :| m in rest && Matches(m, addr, port);
    assert m in now;
  }

  /** The node's member was missing: it has been created. */
  lemma SyncAdds(was: set<Member>, now: set<Member>, rest: seq<Member>, nodes: seq<Option<string>>, i: nat, port: int,
                 m: Member)
    requires Syncing(was, now, rest, nodes, i, port) && i < |nodes| && nodes[i] == Some(m.addr) && m.port == port
    requires !HasMember(now, m.addr, port)
    ensures Syncing(was, now + {m}, rest, nodes, i + 1, port)
  {
    Prefix(nodes, i);
    var now' := now + {m};
    assert Matches(m, m.addr, port) && HasMember(now', m.addr, port);
    forall x, y | x in now' && y in now' && x.addr == y.addr && x.port == y.port ensures x == y {
      assert x == m ==> Matches(y, m.addr, port);
      assert y == m ==> Matches(x, m.addr, port);
    }
    forall addr | Some(addr) in nodes[..i + 1] ensures HasMember(now', addr, port) {
      if addr != m.addr {
        var x :| x in now && Matches(x, addr, port);
        assert x in now';
      }
    }
    forall x | x in was && !WantedMember(x, nodes[..i], port) ensures !WantedMember(x, nodes[..i + 1], port) {
      assert x in now && (x.addr == m.addr && x.port == port ==> Matches(x, m.addr, port));
    }
  }

  /** Creating the member of a node that has none listed is refused exactly when an earlier node
      has the same address. */
  lemma Refused(was: set<Member>, now: set<Member>, rest: seq<Member>, nodes: seq<Option<string>>, i: nat, port: int,
                addr: string)
    requires Syncing(was, now, rest, nodes, i, port)
    requires !exists m :: m in rest && Matches(m, addr, port)
    ensures HasMember(now, addr, port) <==> Some(addr) in nodes[..i]
  {
    Found(was, now, rest, nodes, i, port, addr);
    if HasMember(now, addr, port) {
      var m :| m in now && Matches(m, addr, port);
      assert m in was ==> HasMember(was, addr, port);
    }
  }

  /** Deleting what is left on the list leaves a member for every node and no other. */
  lemma SyncEnds(was: set<Member>, now: set<Member>, rest: seq<Member>, end: set<Member>, nodes: seq<Option<string>>,
                 port: int)
    requires Syncing(was, now, rest, nodes, |nodes|, port) && end == now - (set m | m in rest)
    ensures NodesOk(nodes) && MembersServe(end, nodes, port) && MembersOk(end)
  {
    assert nodes[..|nodes|] == nodes;
    forall addr | Some(addr) in nodes ensures HasMember(end, addr, port) {
      var m :| m in now && Matches(m, addr, port);
      assert m in end;
    }
  }

  /** Nothing is done to a pool that is as it should be. */
  lemma SyncIdle(was: set<Member>, now: set<Member>, rest: seq<Member>, nodes: seq<Option<string>>, i: nat, port: int)
    requires Syncing(was, now, rest, nodes, i, port) && MembersServe(was, nodes, port)
    ensures now == was
    ensures i == |nodes| ==> forall m :: m !in rest
    ensures i < |nodes| && nodes[i].Some? && !(exists m :: m in rest && Matches(m, nodes[i].value, port)) ==>
              HasMember(now, nodes[i].value, port)
  {
    forall m | m in now ensures m in was {
      assert m !in was ==> HasMember(was, m.addr, port);
    }
    assert i == |nodes| ==> nodes[..i] == nodes;
    if i < |nodes| && nodes[i].Some? { assert HasMember(was, nodes[i].value, port); }
  }

  /** Removal of one member's matches from a list with distinct addresses. */
  lemma RemovedFromDistinct(s: seq<Member>, kept: seq<Member>, addr: string, port: int)
    requires DistinctAddresses(s) && Removed(s, kept, addr, port)
    ensures DistinctAddresses(kept)
    ensures forall m :: m in kept <==> m in s && !Matches(m, addr, port)
  {
    forall m ensures m in kept <==> m in s && !Matches(m, addr, port) {
      assert m in kept <==> multiset(kept)[m] > 0;
      assert m in s <==> multiset(s)[m] > 0;
    }
    forall i, j | 0 <= i < |kept| && 0 <= j < |kept| && kept[i].addr == kept[j].addr && kept[i].port == kept[j].port
      ensures i == j
    {
      assert kept[i] in kept && kept[j] in kept;
      assert kept[i] == kept[j];
      if i != j {
        TwiceIn(kept, if i < j then i else j, if i < j then j else i);
        OnceIn(s, kept[i]);
      }
    }
  }

  lemma TwiceIn(s: seq<Member>, i: nat, j: nat)
    requires i < j < |s| && s[i] == s[j]
    ensures multiset(s)[s[i]] >= 2
  {
    assert s == s[..i] + [s[i]] + s[i + 1..j] + [s[j]] + s[j + 1..];
  }

  lemma OnceIn(s: seq<Member>, m: Member)
    requires DistinctAddresses(s) && m in s
    ensures multiset(s)[m] == 1
  {
    var i :| 0 <= i < |s| && s[i] == m;
    assert s == s[..i] + [s[i]] + s[i + 1..];
    assert m !in s[..i] && m !in s[i + 1..];
  }
}
