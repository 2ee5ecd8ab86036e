/** setSecurityGroupIngress: making the ingress rules of an EC2 security group the requested ones. */
module SecurityGroupIngress {
  import opened Wrappers
  import opened Faults
  import opened IpPermissions

  /** The rules after both requests took effect, given the ungrouped permissions described and
      wanted. */
  function Applied(rules: set<Rule>, actual: set<Permission>, wanted: set<Permission>): set<Rule> {
    (rules + Rules(wanted - actual)) - Rules(actual - wanted)
  }

  /** No rule of a permission that stays also belongs to one that goes. */
  predicate Separate(actual: set<Permission>, wanted: set<Permission>) {
    Rules(actual - wanted) !! Rules(actual * wanted)
  }

  lemma RulesIn(s: set<Permission>, t: set<Permission>)
    requires s <= t
    ensures Rules(s) <= Rules(t)
  {
  }

  lemma RulesSplit(s: set<Permission>, t: set<Permission>)
    ensures Rules(s) == Rules(s - t) + Rules(s * t)
  {
    RulesIn(s - t, s);
    RulesIn(s * t, s);
    forall x | x in Rules(s) ensures x in Rules(s - t) + Rules(s * t) {
      var p, src :| p in s && src in Sources(p) && x == Rule(p.protocol, p.from, p.to, src);
      assert p in s - t || p in s * t;
    }
  }

  /** When EC2 accepts what is added, the outcome is what was wanted exactly when no kept
      permission shares a rule with a removed one. */
  lemma AppliedExactlyWhen(rules: set<Rule>, actual: set<Permission>, wanted: set<Permission>)
    requires Rules(actual) == rules && Rules(wanted - actual) !! rules
    ensures Applied(rules, actual, wanted) == Rules(wanted) <==> Separate(actual, wanted)
  {
    RulesSplit(actual, wanted);
    RulesSplit(wanted, actual);
    assert actual * wanted == wanted * actual;
    var end, keep, drop, add := Applied(rules, actual, wanted), Rules(actual * wanted), Rules(actual - wanted),
      Rules(wanted - actual);
    assert end == (keep - drop) + add;
    if end == Rules(wanted) {
      forall x | x in keep ensures x !in drop { assert x in end; }
    }
  }

  ghost predicate AllPlain(s: set<Permission>) {
    forall p :: p in s ==> Plain(p)
  }

  ghost predicate PiecesOf(s: set<Permission>, r: set<Permission>) {
    forall q :: q in r <==> exists p :: p in s && PieceOf(p, q)
  }

  /** Sources of one kind split into permissions with one source, hence one rule, each. */
  lemma OneRuleEach(s: set<Permission>, r: set<Permission>, q: Permission, x: Rule)
    requires AllPlain(s) && PiecesOf(s, r) && q in r
    ensures exists src :: Sources(q) == {src}
    ensures Allows(q, x) ==> q == Alone(x)
  {
    var p :| p in s && PieceOf(p, q);
    assert Plain(p);
    if q.ranges != [] { assert q.ranges == [q.ranges[0]] && Sources(q) == {Range(q.ranges[0])}; }
    if q.pairs != [] { assert q.pairs == [q.pairs[0]] && Sources(q) == {Pair(q.pairs[0])}; }
    if q.prefixes != [] { assert q.prefixes == [q.prefixes[0]] && Sources(q) == {Prefix(q.prefixes[0])}; }
  }

  /** The permission for one rule. */
  function Alone(x: Rule): Permission {
    Permission(x.protocol, x.from, x.to,
               if x.source.Range? then [x.source.cidr] else [],
               if x.source.Pair? then [x.source.pair] else [],
               if x.source.Prefix? then [x.source.list] else [])
  }

  /** Among such permissions, rules and permissions correspond. */
  lemma RuleIsPermission(s: set<Permission>, r: set<Permission>, t: set<Permission>, x: Rule)
    requires AllPlain(s) && PiecesOf(s, r) && t <= r
    ensures x in Rules(t) <==> Alone(x) in t
  {
    if x in Rules(t) {
      var q, src :| q in t && src in Sources(q) && x == Rule(q.protocol, q.from, q.to, src);
      OneRuleEach(s, r, q, x);
    }
    assert Allows(Alone(x), x);
    if Alone(x) in t { assert x.source in Sources(Alone(x)); }
  }

  lemma PlainIsSeparate(s: set<Permission>, actual: set<Permission>, s': set<Permission>, wanted: set<Permission>)
    requires AllPlain(s) && PiecesOf(s, actual) && AllPlain(s') && PiecesOf(s', wanted)
    ensures Separate(actual, wanted) && Rules(wanted - actual) !! Rules(actual)
  {
    forall x ensures !(x in Rules(actual - wanted) && x in Rules(actual * wanted)) {
      RuleIsPermission(s, actual, actual - wanted, x);
      RuleIsPermission(s, actual, actual * wanted, x);
    }
    forall x ensures !(x in Rules(wanted - actual) && x in Rules(actual)) {
      RuleIsPermission(s', wanted, wanted - actual, x);
      RuleIsPermission(s, actual, actual, x);
    }
  }

  lemma SameRules(s: set<Permission>, actual: set<Permission>, s': set<Permission>, wanted: set<Permission>)
    requires AllPlain(s) && PiecesOf(s, actual) && AllPlain(s') && PiecesOf(s', wanted)
    requires Rules(actual) <= Rules(wanted)
    ensures actual <= wanted
  {
    forall q | q in actual ensures q in wanted {
      OneRuleEach(s, actual, q, Rule(q.protocol, q.from, q.to, Range("")));
      var src :| Sources(q) == {src};
      var x := Rule(q.protocol, q.from, q.to, src);
      assert src in Sources(q) && Allows(q, x);
      OneRuleEach(s, actual, q, x);
      RuleIsPermission(s', wanted, wanted, x);
    }
  }

  /** For permissions with sources of one kind nothing is refused and nothing is lost. */
  lemma PlainOutcome(s: set<Permission>, actual: set<Permission>, s': set<Permission>, wanted: set<Permission>)
    requires AllPlain(s) && AllPlain(s') && IsUngrouped(s, actual) && IsUngrouped(s', wanted)
    ensures Separate(actual, wanted) && Rules(wanted - actual) !! Rules(actual)
    ensures actual == wanted <==> Rules(actual) == Rules(wanted)
  {
    PlainPieces(s, actual);
    PlainPieces(s', wanted);
    PlainIsSeparate(s, actual, s', wanted);
    if Rules(actual) == Rules(wanted) {
      SameRules(s, actual, s', wanted);
      SameRules(s', wanted, s, actual);
    }
  }

  lemma PlainPieces(s: set<Permission>, r: set<Permission>)
    requires AllPlain(s) && IsUngrouped(s, r)
    ensures PiecesOf(s, r)
  {
    var l :| Lists(l, s) && Lists(Ungrouped(l), r);
    UngroupedSet(l, s, r);
  }

  /** Two pairs in one described permission: asking for the second alone removes both, in a run
      where every request is accepted. */
  lemma LosesWantedRule(p: Permission, q: Permission, actual: set<Permission>, wanted: set<Permission>)
    requires p.ranges == [] && |p.pairs| == 2 && p.pairs[0] != p.pairs[1] && p.prefixes == [] &&
               q == p.(pairs := [p.pairs[1]])
    requires Lists(Ungrouped([p]), actual) && Lists(Ungrouped([q]), wanted)
    ensures wanted - actual == {} && Rules(actual - wanted) <= Rules({p})
    ensures Rules({q}) != {} && Applied(Rules({p}), actual, wanted) == {}
  {
    LastPairKept(p, q, actual, wanted);
    assert actual - wanted == {p} && wanted - actual == {};
    assert Rules({}) == {};
    assert Pair(q.pairs[0]) in Sources(q);
    assert Rule(q.protocol, q.from, q.to, Pair(q.pairs[0])) in Rules({q});
  }

  lemma LastPairKept(p: Permission, q: Permission, actual: set<Permission>, wanted: set<Permission>)
    requires p.ranges == [] && |p.pairs| == 2 && p.prefixes == [] && q == p.(pairs := [p.pairs[1]])
    requires Lists(Ungrouped([p]), actual) && Lists(Ungrouped([q]), wanted)
    ensures actual == {p, q} && wanted == {q} && p != q
  {
    TwoPairs(p);
    OnePair(q);
    assert |p.pairs| != |q.pairs|;
    assert forall o :: o in [p, q] <==> o in {p, q};
    assert forall o :: o in [q] <==> o in {q};
  }

  /** Two permissions with several pairs each, and a request for the last pair of the first alone.
      Listed last, the first has a piece of its own: both are removed and the requested rule is
      lost. Listed first, it has none: the request would add a rule that is there, and is refused. */
  lemma OrderMatters(p: Permission, o: Permission, q: Permission, last: set<Permission>, first: set<Permission>)
    requires p.ranges == [] && |p.pairs| == 2 && p.prefixes == [] && q == p.(pairs := [p.pairs[1]])
    requires o.ranges == [] && |o.pairs| == 2 && o.prefixes == [] && p.from != o.from
    requires Lists(Ungrouped([o, p]), last) && Lists(Ungrouped([p, o]), first)
    ensures {q} - last == {} && Rules({q}) != {} && Rules({q}) !! Applied(Rules({p, o}), last, {q})
    ensures !(Rules({q} - first) !! Rules({p, o}))
  {
    FourPairs(o, p);
    FourPairs(p, o);
    var x := Rule(q.protocol, q.from, q.to, Pair(q.pairs[0]));
    var r := o.(pairs := [o.pairs[1]]);
    assert q in [o, p, q] && p in [o, p, q] && q !in [p, o, r] && |p.pairs| != |q.pairs|;
    assert {q} - last == {} && p in last - {q} && {q} - first == {q};
    NoRules();
    OneRule(q, p, x);
    RulesIn({p}, last - {q});
    RulesIn({p}, {p, o});
  }

  lemma OneRule(q: Permission, p: Permission, x: Rule)
    requires p.ranges == [] && |p.pairs| == 2 && p.prefixes == [] && q == p.(pairs := [p.pairs[1]])
    requires x == Rule(q.protocol, q.from, q.to, Pair(q.pairs[0]))
    ensures Rules({q}) == {x} && x in Rules({p})
  {
    assert Sources(q) == {Pair(q.pairs[0])};
    assert Pair(q.pairs[0]) in Sources(p) && Pair(q.pairs[0]) in Sources(q);
  }

  lemma FourPairs(p: Permission, o: Permission)
    requires p.ranges == [] && |p.pairs| == 2 && p.prefixes == [] && o.ranges == [] && |o.pairs| == 2 &&
               o.prefixes == []
    ensures Ungrouped([p, o]) == [p, o, o.(pairs := [o.pairs[1]])]
  {
    var r := o.(pairs := [o.pairs[1]]);
    SplitIdle([p, o]);
    assert SplitPairs([p, o], 2) == [p, o] + [r] == [p, o, r];
    PrefixIdle([p, o, r]);
  }

  lemma {:induction false} SplitIdle(l: seq<Permission>)
    requires forall i :: 0 <= i < |l| ==> |l[i].ranges| <= 1
    ensures SplitRanges(l) == l
  {
    if l != [] {
      SplitIdle(l[..|l| - 1]);
      assert RangeCopies(l[|l| - 1]) == [l[|l| - 1]];
    }
  }

  lemma {:induction false} PrefixIdle(l: seq<Permission>)
    requires forall i :: 0 <= i < |l| ==> |l[i].prefixes| <= 1
    ensures SplitPrefixes(l) == l
  {
    if l != [] {
      PrefixIdle(l[..|l| - 1]);
      assert PrefixCopies(l[|l| - 1]) == [l[|l| - 1]];
    }
  }

  lemma TwoPairs(p: Permission)
    requires p.ranges == [] && |p.pairs| == 2 && p.prefixes == []
    ensures Ungrouped([p]) == [p, p.(pairs := [p.pairs[1]])]
  {
    var q := p.(pairs := [p.pairs[1]]);
    assert [p][..0] == [] && SplitRanges([]) == [];
    assert SplitRanges([p]) == [p];
    assert SplitPairs([p], 1) == [p, q];
    assert [p, q][..1] == [p];
    assert SplitPrefixes([p]) == [p];
  }

  lemma OnePair(q: Permission)
    requires q.ranges == [] && |q.pairs| == 1 && q.prefixes == []
    ensures Ungrouped([q]) == [q]
  {
    assert [q][..0] == [] && SplitRanges([]) == [];
    assert SplitRanges([q]) == [q];
    assert SplitPairs([q], 1) == SplitPairs([q], 0) + [q];
    assert SplitPrefixes([q]) == [q];
  }

  class Group {
    var rules: set<Rule>
    var calls: nat
    const schedule: nat -> Outcome
    ghost var history: seq<set<Rule>>

    constructor (rules: set<Rule>, schedule: nat -> Outcome)
      ensures this.rules == rules && this.schedule == schedule && history == [rules]
    {
      this.rules := rules;
      this.schedule := schedule;
      calls := 0;
      history := [rules];
    }

    /** A request EC2 refuses unless it is allowed. */
    method Request(next: set<Rule>, allowed: bool) returns (ok: bool)
      modifies this
      ensures ok ==> allowed && rules == next
      ensures rules == old(rules) || (allowed && rules == next)
      ensures AllOk(schedule) ==> ok == allowed
      ensures history == old(history) + [rules]
    {
      var outcome := schedule(calls);
      calls := calls + 1;
      if allowed && !outcome.FailBefore? { rules := next; }
      ok := allowed && outcome.Ok?;
      history := history + [rules];
    }

    /** EC2 refuses to authorize a rule that is there already. */
    method Authorize(permissions: set<Permission>) returns (ok: bool)
      modifies this
      ensures ok ==> Rules(permissions) !! old(rules) && rules == old(rules) + Rules(permissions)
      ensures rules == old(rules) || rules == old(rules) + Rules(permissions)
      ensures AllOk(schedule) ==> ok == (Rules(permissions) !! old(rules))
      ensures history == old(history) + [rules]
    {
      ok := Request(rules + Rules(permissions), Rules(permissions) !! rules);
    }

    /** EC2 refuses to revoke a rule that is not there. */
    method Revoke(permissions: set<Permission>) returns (ok: bool)
      modifies this
      ensures ok ==> Rules(permissions) <= old(rules) && rules == old(rules) - Rules(permissions)
      ensures rules == old(rules) || rules == old(rules) - Rules(permissions)
      ensures AllOk(schedule) ==> ok == (Rules(permissions) <= old(rules))
      ensures history == old(history) + [rules]
    {
      ok := Request(rules - Rules(permissions), Rules(permissions) <= rules);
    }

    /** described is what EC2 reports, grouped as it pleases; None when there is no such group. The
        result says whether changes were made, None on an error; actual and wanted are the ungrouped
        permissions. The rules never exceed those there were and those requested, whatever fails.
        Without failures an error means that a rule to be added was there already, and a success
        leaves exactly the requested rules if and only if no kept permission shares a rule with a
        removed one. For permissions with sources of one kind each neither can go wrong, and a change
        is reported exactly when the rules differed. */
    method SetSecurityGroupIngress(described: Option<seq<Permission>>, permissions: set<Permission>)
      returns (r: Option<bool>, ghost actual: set<Permission>, ghost wanted: set<Permission>)
      requires described.Some? ==> Rules(SetOf(described.value)) == rules
      modifies this
      ensures old(history) <= history
      ensures forall i :: |old(history)| <= i < |history| ==> history[i] <= old(rules) + Rules(permissions)
      ensures r == Some(false) || described.None? ==> rules == old(rules)
      ensures described.None? ==> r.None?
      ensures described.Some? ==> IsUngrouped(SetOf(described.value), actual) && IsUngrouped(permissions, wanted)
      ensures r.Some? ==> (rules == Rules(permissions) <==> Separate(actual, wanted))
      ensures AllOk(schedule) && described.Some? ==> (r.Some? <==> Rules(wanted - actual) !! old(rules))
      ensures described.Some? && AllPlain(SetOf(described.value)) && AllPlain(permissions) ==>
                && (r.Some? ==> rules == Rules(permissions) && (r.value <==> old(rules) != Rules(permissions)))
                && (AllOk(schedule) ==> r.Some?)
    {
      actual, wanted := {}, {};
      if described.None? { return None, actual, wanted; }
      var reported := NewSet(described.value);
      assert reported == SetOf(described.value);
      var wantedSet := Ungroup(permissions);
      var actualSet := Ungroup(reported);
      actual, wanted := actualSet, wantedSet;
      if AllPlain(reported) && AllPlain(permissions) { PlainOutcome(reported, actual, permissions, wanted); }
      r := Replace(actualSet, wantedSet);
    }

    /** From the ungrouped permissions actual to wanted. */
    method Replace(actual: set<Permission>, wanted: set<Permission>) returns (r: Option<bool>)
      requires Rules(actual) == rules
      modifies this
      ensures old(history) <= history
      ensures forall i :: |old(history)| <= i < |history| ==> history[i] <= old(rules) + Rules(wanted)
      ensures r == Some(false) ==> rules == old(rules)
      ensures r.Some? ==> (r.value <==> actual != wanted) && (rules == Rules(wanted) <==> Separate(actual, wanted))
      ensures AllOk(schedule) ==> (r.Some? <==> Rules(wanted - actual) !! old(rules))
    {
      var remove := Difference(actual, wanted);
      var add := Difference(wanted, actual);
      RulesIn(add, wanted);
      RulesIn(remove, actual);
      if |add| == 0 && |remove| == 0 {
        assert add == {} && remove == {};
        NothingToDo(actual, wanted);
        return Some(false);
      }
      assert actual != wanted;
      ghost var before := rules;
      var ok := Modify(add, remove);
      if !ok { return None; }
      AppliedExactlyWhen(before, actual, wanted);
      return Some(true);
    }

    method Modify(add: set<Permission>, remove: set<Permission>) returns (ok: bool)
      modifies this
      ensures old(history) <= history
      ensures forall i :: |old(history)| <= i < |history| ==> history[i] <= old(rules) + Rules(add)
      ensures ok ==> rules == (old(rules) + Rules(add)) - Rules(remove) && Rules(add) !! old(rules)
      ensures AllOk(schedule) && Rules(add) !! old(rules) && Rules(remove) <= old(rules) ==> ok
    {
      NoRules();
      if |add| != 0 {
        ok := Authorize(add);
        if !ok { return; }
      } else {
        assert add == {};
      }
      if |remove| != 0 {
        ok := Revoke(remove);
        return;
      }
      assert remove == {};
      return true;
    }
  }

  lemma NoRules()
    ensures Rules({}) == {}
  {
  }

  lemma NothingToDo(actual: set<Permission>, wanted: set<Permission>)
    requires actual - wanted == {} && wanted - actual == {}
    ensures actual == wanted && Separate(actual, wanted) && Rules(wanted - actual) == {}
  {
    NoRules();
  }
}
