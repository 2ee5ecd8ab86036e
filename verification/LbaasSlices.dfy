/** The in-place removals from slices that the OpenStack LBaaS v2 provider keeps its lists in.
    A slice is an array and the length in use. */
module LbaasSlices {
  import opened Wrappers

  type Id = nat
  datatype Member = Member(id: Id, addr: string, port: int)
  datatype Listener = Listener(id: Id, protocol: string, port: int)

  predicate Matches(m: Member, addr: string, port: int) { m.addr == addr && m.port == port }

  /** How many of the first i members match. */
  function Count(s: seq<Member>, i: nat, addr: string, port: int): nat
    requires i <= |s|
  {
    if i == 0 then 0 else Count(s, i - 1, addr, port) + if Matches(s[i - 1], addr, port) then 1 else 0
  }

  /** The last position below i that matches, -1 when there is none. */
  function LastMatch(s: seq<Member>, i: nat, addr: string, port: int): int
    requires i <= |s|
  {
    if i == 0 then -1 else if Matches(s[i - 1], addr, port) then i - 1 else LastMatch(s, i - 1, addr, port)
  }

  /** Some match among the first i lies past the end of the slice as shrunken by the matches before
      it: the last one does, when any does. */
  predicate Overruns(s: seq<Member>, i: nat, addr: string, port: int)
    requires i <= |s|
  {
    Count(s, i, addr, port) > 0 && LastMatch(s, i, addr, port) + Count(s, i, addr, port) > |s|
  }

  lemma {:induction false} LastMatchIsLast(s: seq<Member>, i: nat, addr: string, port: int)
    requires i <= |s|
    ensures -1 <= LastMatch(s, i, addr, port) < i
    ensures LastMatch(s, i, addr, port) == -1 <==> Count(s, i, addr, port) == 0
    ensures LastMatch(s, i, addr, port) >= 0 ==> Matches(s[LastMatch(s, i, addr, port)], addr, port)
    ensures forall j :: LastMatch(s, i, addr, port) < j < i ==> !Matches(s[j], addr, port)
  {
    if i > 0 { LastMatchIsLast(s, i - 1, addr, port); }
  }

  /** An overrun is not mended by what follows. */
  lemma {:induction false} OverrunStays(s: seq<Member>, i: nat, n: nat, addr: string, port: int)
    requires i <= n <= |s| && Overruns(s, i, addr, port)
    ensures Overruns(s, n, addr, port)
    decreases n
  {
    if i < n {
      OverrunStays(s, i, n - 1, addr, port);
      LastMatchIsLast(s, n - 1, addr, port);
    }
  }

  ghost predicate DistinctAddresses(s: seq<Member>) {
    forall i, j :: 0 <= i < |s| && 0 <= j < |s| && s[i].addr == s[j].addr && s[i].port == s[j].port ==> i == j
  }

  /** Members with distinct addresses and ports, as OpenStack keeps them within a pool, never
      overrun. */
  lemma {:induction false} DistinctNeverOverruns(s: seq<Member>, i: nat, addr: string, port: int)
    requires DistinctAddresses(s) && i <= |s|
    ensures Count(s, i, addr, port) <= 1 && !Overruns(s, i, addr, port)
  {
    if i > 0 {
      DistinctNeverOverruns(s, i - 1, addr, port);
      LastMatchIsLast(s, i - 1, addr, port);
      LastMatchIsLast(s, i, addr, port);
    }
  }

  /** A duplicate at the end makes the removal overrun. */
  lemma DuplicateOverruns(a: Member, b: Member)
    requires Matches(b, a.addr, a.port)
    ensures Overruns([a, b], 2, a.addr, a.port)
  {
    assert Count([a, b], 1, a.addr, a.port) == 1;
  }

  // ---- one removal ----

  method MemberExists(members: array<Member>, n: nat, addr: string, port: int) returns (found: bool)
    requires n <= members.Length
    ensures found <==> exists m :: m in members[..n] && Matches(m, addr, port)
  {
    for i := 0 to n
      invariant forall j :: 0 <= j < i ==> !Matches(members[j], addr, port)
    {
      if Matches(members[i], addr, port) {
        assert members[i] in members[..n];
        return true;
      }
    }
    return false;
  }

  lemma SwapDelete(before: seq<Member>, after: seq<Member>, i: nat, n: nat, m: Member)
    requires i < n <= |before| && after == before[i := before[n - 1]]
    ensures multiset(before[..n])[m] == multiset(after[..n - 1])[m] + if before[i] == m then 1 else 0
  {
    var a := before[..n - 1];
    assert before[..n] == a + [before[n - 1]];
    if i == n - 1 {
      assert after[..n - 1] == a;
    } else {
      assert after[..n - 1] == a[i := before[n - 1]];
      assert multiset(a[i := before[n - 1]]) == multiset(a) - multiset{a[i]} + multiset{before[n - 1]};
    }
  }

  lemma Split(s: seq<Member>, i: nat, m: Member)
    requires i < |s|
    ensures multiset(s[i..])[m] == multiset(s[i + 1..])[m] + if s[i] == m then 1 else 0
    ensures multiset(s[..i + 1])[m] == multiset(s[..i])[m] + if s[i] == m then 1 else 0
  {
    assert s[i..] == [s[i]] + s[i + 1..];
    assert s[..i + 1] == s[..i] + [s[i]];
  }

  /** Of the first i positions of s the matches are gone; the rest is still to be walked. */
  ghost predicate Kept(s: seq<Member>, now: seq<Member>, i: nat, k: nat, addr: string, port: int, m: Member)
    requires i <= |s| && k <= |now|
  {
    multiset(now[..k])[m] == multiset(s[i..])[m] + if Matches(m, addr, port) then 0 else multiset(s[..i])[m]
  }

  /** The state of the walk over s at position i, with the first k of now in use. */
  ghost predicate Popping(s: seq<Member>, now: seq<Member>, i: nat, k: nat, addr: string, port: int) {
    && i <= |s| && |now| == |s| && k == |s| - Count(s, i, addr, port)
    && !Overruns(s, i, addr, port)
    && (forall j :: i <= j < |s| ==> now[j] == s[j])
    && forall m {:trigger Kept(s, now, i, k, addr, port, m)} :: Kept(s, now, i, k, addr, port, m)
  }

  lemma PopStarts(s: seq<Member>, addr: string, port: int)
    ensures Popping(s, s, 0, |s|, addr, port)
  {
    assert s[..0] == [] && s[0..] == s == s[..|s|];
    forall m ensures Kept(s, s, 0, |s|, addr, port, m) {}
  }

  lemma PopSkips(s: seq<Member>, now: seq<Member>, i: nat, j: nat, k: nat, addr: string, port: int)
    requires i < |s| && j == i + 1 && Popping(s, now, i, k, addr, port) && !Matches(s[i], addr, port)
    ensures Popping(s, now, j, k, addr, port)
  {
    forall m ensures Kept(s, now, j, k, addr, port, m) {
      assert Kept(s, now, i, k, addr, port, m);
      Split(s, i, m);
    }
  }

  lemma PopDrops(s: seq<Member>, now: seq<Member>, i: nat, j: nat, k: nat, k': nat, addr: string, port: int)
    requires i < |s| && j == i + 1 && Popping(s, now, i, k, addr, port) && Matches(s[i], addr, port)
    requires i < k && k' == k - 1
    ensures Popping(s, now[i := now[k']], j, k', addr, port)
  {
    var next := now[i := now[k']];
    forall m ensures Kept(s, next, j, k', addr, port, m) {
      assert Kept(s, now, i, k, addr, port, m);
      Split(s, i, m);
      SwapDelete(now, next, i, k, m);
    }
  }

  lemma SamePopping(s: seq<Member>, now: seq<Member>, now': seq<Member>, i: nat, k: nat, k': nat, addr: string,
                    port: int)
    requires Popping(s, now, i, k, addr, port) && now == now' && k == k'
    ensures Popping(s, now', i, k', addr, port)
  {
  }

  lemma PopOverruns(s: seq<Member>, now: seq<Member>, i: nat, k: nat, addr: string, port: int)
    requires i < |s| && Popping(s, now, i, k, addr, port) && Matches(s[i], addr, port) && i >= k
    ensures Overruns(s, |s|, addr, port)
  {
    LastMatchIsLast(s, i, addr, port);
    OverrunStays(s, i + 1, |s|, addr, port);
  }

  /** The multiset of s without its matches. */
  ghost predicate Removed(s: seq<Member>, kept: seq<Member>, addr: string, port: int) {
    forall m :: multiset(kept)[m] == if Matches(m, addr, port) then 0 else multiset(s)[m]
  }

  lemma PopEnds(s: seq<Member>, now: seq<Member>, k: nat, addr: string, port: int)
    requires Popping(s, now, |s|, k, addr, port)
    ensures Removed(s, now[..k], addr, port) && !Overruns(s, |s|, addr, port) && k == |s| - Count(s, |s|, addr, port)
  {
    assert s[..|s|] == s && s[|s|..] == [];
    forall m ensures multiset(now[..k])[m] == if Matches(m, addr, port) then 0 else multiset(s)[m] {
      assert Kept(s, now, |s|, k, addr, port, m);
    }
  }

  /** The source's popMember removes every match without stopping at the first, over the range the
      slice had at the start. None is an index out of range: exactly when the last match and the
      number of matches together exceed the length. Otherwise the matches are gone from what stays
      in use, and nothing else is. */
  method PopMember(members: array<Member>, n: nat, addr: string, port: int) returns (r: Option<nat>)
    requires n <= members.Length
    modifies members
    ensures r.None? <==> Overruns(old(members[..n]), n, addr, port)
    ensures r.Some? ==> r.value == n - Count(old(members[..n]), n, addr, port) && r.value <= n
    ensures r.Some? ==> Removed(old(members[..n]), members[..r.value], addr, port)
  {
    ghost var s := members[..n];
    ghost var now := s;
    var k := n;
    PopStarts(s, addr, port);
    for i := 0 to n
      invariant |now| == n && forall j :: 0 <= j < n ==> members[j] == now[j]
      invariant 0 <= k <= n && Popping(s, now, i, k, addr, port)
    {
      ghost var i' := i + 1;
      if Matches(members[i], addr, port) {
        if i >= k {
          PopOverruns(s, now, i, k, addr, port);
          return None;
        }
        ghost var before, k' := now, k - 1;
        PopDrops(s, now, i, i', k, k', addr, port);
        members[i] := members[k - 1];
        now := now[i := now[k']];
        k := k - 1;
        SamePopping(s, before[i := before[k']], now, i', k', k, addr, port);
      } else {
        PopSkips(s, now, i, i', k, addr, port);
      }
    }
    PopEnds(s, now, k, addr, port);
    assert members[..k] == now[..k];
    return Some(k);
  }

  /** The source's popListener stops at the first listener with the id; at most one has it. */
  method PopListener(listeners: array<Listener>, n: nat, id: Id) returns (k: nat)
    requires n <= listeners.Length
    requires forall i, j :: 0 <= i < n && 0 <= j < n && listeners[i].id == listeners[j].id ==> i == j
    modifies listeners
    ensures k <= n
    ensures forall l :: l in listeners[..k] <==> l in old(listeners[..n]) && l.id != id
    ensures forall i, j :: 0 <= i < k && 0 <= j < k && listeners[i].id == listeners[j].id ==> i == j
  {
    ghost var s := listeners[..n];
    for i := 0 to n
      invariant listeners[..n] == s
      invariant forall j :: 0 <= j < i ==> s[j].id != id
    {
      if listeners[i].id == id {
        listeners[i] := listeners[n - 1];
        k := n - 1;
        forall l | l in s && l.id != id ensures l in listeners[..k] {
          var j :| 0 <= j < n && s[j] == l;
          assert l == listeners[..k][if j == n - 1 then i else j];
        }
        return;
      }
    }
    return n;
  }
}
