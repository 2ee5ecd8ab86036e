/** EC2 IP permissions: a permission may group several sources, and Ungroup splits them. */
module IpPermissions {
  import opened Wrappers

  type Cidr = string
  type GroupPair = string
  type PrefixList = string

  datatype Permission = Permission(protocol: string, from: Option<int>, to: Option<int>,
                                   ranges: seq<Cidr>, pairs: seq<GroupPair>, prefixes: seq<PrefixList>)

  datatype Source = Range(cidr: Cidr) | Pair(pair: GroupPair) | Prefix(list: PrefixList)

  /** What EC2 enforces: one protocol, one port range, one source. */
  datatype Rule = Rule(protocol: string, from: Option<int>, to: Option<int>, source: Source)

  function Sources(p: Permission): set<Source> {
    (set r | r in p.ranges :: Range(r)) + (set u | u in p.pairs :: Pair(u)) + (set v | v in p.prefixes :: Prefix(v))
  }

  predicate Allows(p: Permission, x: Rule) {
    p.protocol == x.protocol && p.from == x.from && p.to == x.to && x.source in Sources(p)
  }

  /** The rules of a set of permissions, whose key is taken to be injective. */
  function Rules(s: set<Permission>): set<Rule> {
    set p, src | p in s && src in Sources(p) :: Rule(p.protocol, p.from, p.to, src)
  }

  /** A rule belongs to a set exactly when a permission with its protocol and ports lists its source. */
  lemma RuleMeans(s: set<Permission>, x: Rule)
    ensures x in Rules(s) <==>
            exists p :: p in s && p.protocol == x.protocol && p.from == x.from && p.to == x.to && HasSource(p, x.source)
  {
    if p :| p in s && p.protocol == x.protocol && p.from == x.from && p.to == x.to && HasSource(p, x.source) {
      assert x.source in Sources(p);
    }
  }

  predicate HasSource(p: Permission, source: Source) {
    match source
    case Range(cidr) => cidr in p.ranges
    case Pair(pair) => pair in p.pairs
    case Prefix(list) => list in p.prefixes
  }

  ghost predicate AnyAllows(l: seq<Permission>, x: Rule) {
    exists p :: p in l && Allows(p, x)
  }

  predicate Single(p: Permission) { |p.ranges| <= 1 && |p.pairs| <= 1 && |p.prefixes| <= 1 }

  /** Sources of one kind only, and not several pairs. */
  predicate Plain(p: Permission) {
    || (p.ranges != [] && p.pairs == [] && p.prefixes == [])
    || (p.ranges == [] && |p.pairs| == 1 && p.prefixes == [])
    || (p.ranges == [] && p.pairs == [] && p.prefixes != [])
  }

  // ---- the three passes ----

  function RangeCopies(p: Permission): seq<Permission> {
    if |p.ranges| <= 1 then [p]
    else seq(|p.ranges|, i requires 0 <= i < |p.ranges| => p.(ranges := [p.ranges[i]]))
  }

  function PrefixCopies(p: Permission): seq<Permission> {
    if |p.prefixes| <= 1 then [p]
    else seq(|p.prefixes|, i requires 0 <= i < |p.prefixes| => p.(prefixes := [p.prefixes[i]]))
  }

  function SplitRanges(l: seq<Permission>): seq<Permission> {
    if l == [] then [] else SplitRanges(l[..|l| - 1]) + RangeCopies(l[|l| - 1])
  }

  /** The second pass over the first i of l. A permission with several pairs starts over from the
      whole of l, with a single copy for its last pair. */
  function SplitPairs(l: seq<Permission>, i: nat): seq<Permission>
    requires i <= |l|
  {
    if i == 0 then []
    else
      var p := l[i - 1];
      if |p.pairs| <= 1 then SplitPairs(l, i - 1) + [p] else l + [p.(pairs := [p.pairs[|p.pairs| - 1]])]
  }

  function SplitPrefixes(l: seq<Permission>): seq<Permission> {
    if l == [] then [] else SplitPrefixes(l[..|l| - 1]) + PrefixCopies(l[|l| - 1])
  }

  function Ungrouped(l: seq<Permission>): seq<Permission> {
    var ranges := SplitRanges(l);
    SplitPrefixes(SplitPairs(ranges, |ranges|))
  }

  // ---- meaning ----

  lemma CopiesAllow(p: Permission, x: Rule)
    ensures AnyAllows(RangeCopies(p), x) <==> Allows(p, x)
    ensures AnyAllows(PrefixCopies(p), x) <==> Allows(p, x)
  {
    if Allows(p, x) {
      if |p.ranges| > 1 {
        var i := if x.source.Range? then IndexOf(p.ranges, x.source.cidr) else 0;
        assert RangeCopies(p)[i] in RangeCopies(p) && Allows(RangeCopies(p)[i], x);
      } else {
        assert p in RangeCopies(p);
      }
      if |p.prefixes| > 1 {
        var i := if x.source.Prefix? then IndexOf(p.prefixes, x.source.list) else 0;
        assert PrefixCopies(p)[i] in PrefixCopies(p) && Allows(PrefixCopies(p)[i], x);
      } else {
        assert p in PrefixCopies(p);
      }
    }
  }

  ghost function IndexOf(s: seq<string>, v: string): (i: nat)
    requires v in s
    ensures i < |s| && s[i] == v
  {
    var i :| 0 <= i < |s| && s[i] == v;
    i
  }

  lemma RangesKeepRules(l: seq<Permission>, x: Rule)
    ensures AnyAllows(SplitRanges(l), x) <==> AnyAllows(l, x)
  {
    if AnyAllows(SplitRanges(l), x) {
      var q :| q in SplitRanges(l) && Allows(q, x);
      RangesExactly(l, q);
      var p :| p in l && q in RangeCopies(p);
      CopiesAllow(p, x);
    }
    if AnyAllows(l, x) {
      var p :| p in l && Allows(p, x);
      CopiesAllow(p, x);
      var q :| q in RangeCopies(p) && Allows(q, x);
      RangesExactly(l, q);
    }
  }

  lemma PrefixesKeepRules(l: seq<Permission>, x: Rule)
    ensures AnyAllows(SplitPrefixes(l), x) <==> AnyAllows(l, x)
  {
    if AnyAllows(SplitPrefixes(l), x) {
      var q :| q in SplitPrefixes(l) && Allows(q, x);
      PrefixesExactly(l, q);
      var p :| p in l && q in PrefixCopies(p);
      CopiesAllow(p, x);
    }
    if AnyAllows(l, x) {
      var p :| p in l && Allows(p, x);
      CopiesAllow(p, x);
      var q :| q in PrefixCopies(p) && Allows(q, x);
      PrefixesExactly(l, q);
    }
  }

  /** The second pass loses no permission of l, and adds none beyond copies. */
  lemma {:induction false} PairsKeepAll(l: seq<Permission>, i: nat)
    requires i <= |l|
    ensures forall j :: 0 <= j < i ==> l[j] in SplitPairs(l, i)
    ensures forall q :: q in SplitPairs(l, i) ==> q in l || exists p :: p in l && CopyOfLast(p, q)
  {
    if i > 0 {
      PairsKeepAll(l, i - 1);
      var p := l[i - 1];
      if |p.pairs| > 1 { assert CopyOfLast(p, p.(pairs := [p.pairs[|p.pairs| - 1]])); }
    }
  }

  predicate CopyOfLast(p: Permission, q: Permission) {
    |p.pairs| > 1 && q == p.(pairs := [p.pairs[|p.pairs| - 1]])
  }

  lemma PairsKeepRules(l: seq<Permission>, x: Rule)
    ensures AnyAllows(SplitPairs(l, |l|), x) <==> AnyAllows(l, x)
  {
    PairsKeepAll(l, |l|);
    if AnyAllows(SplitPairs(l, |l|), x) {
      var q :| q in SplitPairs(l, |l|) && Allows(q, x);
      if q !in l {
        var p :| p in l && CopyOfLast(p, q);
        assert Sources(q) <= Sources(p);
      }
    }
  }

  /** Ungrouping changes no rule, for any permissions. */
  lemma UngroupKeepsRules(l: seq<Permission>, x: Rule)
    ensures AnyAllows(Ungrouped(l), x) <==> AnyAllows(l, x)
  {
    RangesKeepRules(l, x);
    PairsKeepRules(SplitRanges(l), x);
    PrefixesKeepRules(SplitPairs(SplitRanges(l), |SplitRanges(l)|), x);
  }

  // ---- normal form ----

  /** What a pass over ranges or prefixes does to the permissions one by one. */
  lemma {:induction false} RangesExactly(l: seq<Permission>, q: Permission)
    ensures q in SplitRanges(l) <==> exists p :: p in l && q in RangeCopies(p)
  {
    if l != [] {
      var t, p := l[..|l| - 1], l[|l| - 1];
      RangesExactly(t, q);
      assert l == t + [p];
      assert q in SplitRanges(l) <==> q in SplitRanges(t) || q in RangeCopies(p);
      assert p in l && forall o :: o in l <==> o in t || o == p;
    }
  }

  lemma {:induction false} PrefixesExactly(l: seq<Permission>, q: Permission)
    ensures q in SplitPrefixes(l) <==> exists p :: p in l && q in PrefixCopies(p)
  {
    if l != [] {
      var t, p := l[..|l| - 1], l[|l| - 1];
      PrefixesExactly(t, q);
      assert l == t + [p];
      assert q in SplitPrefixes(l) <==> q in SplitPrefixes(t) || q in PrefixCopies(p);
      assert p in l && forall o :: o in l <==> o in t || o == p;
    }
  }

  lemma {:induction false} PairsIdle(l: seq<Permission>, i: nat)
    requires i <= |l| && forall p :: p in l ==> |p.pairs| <= 1
    ensures SplitPairs(l, i) == l[..i]
  {
    if i > 0 {
      PairsIdle(l, i - 1);
      assert l[..i] == l[..i - 1] + [l[i - 1]];
    }
  }

  /** One permission ungrouped on its own. */
  predicate PieceOf(p: Permission, q: Permission) {
    && q.protocol == p.protocol && q.from == p.from && q.to == p.to && q.pairs == p.pairs
    && (if |p.ranges| <= 1 then q.ranges == p.ranges else |q.ranges| == 1 && q.ranges[0] in p.ranges)
    && (if |p.prefixes| <= 1 then q.prefixes == p.prefixes else |q.prefixes| == 1 && q.prefixes[0] in p.prefixes)
  }

  lemma CopiesArePieces(p: Permission, q: Permission)
    ensures PieceOf(p, q) <==> exists o :: o in RangeCopies(p) && q in PrefixCopies(o)
  {
    if PieceOf(p, q) {
      var o := p.(ranges := q.ranges);
      if |p.ranges| > 1 { assert o == RangeCopies(p)[IndexOf(p.ranges, q.ranges[0])]; }
      if |o.prefixes| > 1 { assert q == PrefixCopies(o)[IndexOf(o.prefixes, q.prefixes[0])]; }
      assert o in RangeCopies(p) && q in PrefixCopies(o);
    }
  }

  /** Without several pairs in one permission, ungrouping yields exactly the pieces of each. */
  lemma UngroupExactly(l: seq<Permission>, q: Permission)
    requires forall p :: p in l ==> |p.pairs| <= 1
    ensures q in Ungrouped(l) <==> exists p :: p in l && PieceOf(p, q)
  {
    var m := SplitRanges(l);
    forall o | o in m ensures |o.pairs| <= 1 { RangesExactly(l, o); }
    PairsIdle(m, |m|);
    assert m[..|m|] == m;
    PrefixesExactly(m, q);
    if q in Ungrouped(l) {
      var o :| o in m && q in PrefixCopies(o);
      RangesExactly(l, o);
      var p :| p in l && o in RangeCopies(p);
      CopiesArePieces(p, q);
    }
    if p :| p in l && PieceOf(p, q) {
      CopiesArePieces(p, q);
      var o :| o in RangeCopies(p) && q in PrefixCopies(o);
      RangesExactly(l, o);
    }
  }

  /** Every result has at most one source of each kind exactly when no permission had several
      pairs: a permission that had keeps them. */
  lemma SingleExactlyWhen(l: seq<Permission>)
    ensures (forall q :: q in Ungrouped(l) ==> Single(q)) <==> forall p :: p in l ==> |p.pairs| <= 1
  {
    if forall p :: p in l ==> |p.pairs| <= 1 {
      forall q | q in Ungrouped(l) ensures Single(q) { UngroupExactly(l, q); }
    } else {
      var p :| p in l && |p.pairs| > 1;
      var o := RangeCopies(p)[0];
      RangesExactly(l, o);
      var m := SplitRanges(l);
      PairsKeepAll(m, |m|);
      var q := PrefixCopies(o)[0];
      PrefixesExactly(SplitPairs(m, |m|), q);
      assert q in Ungrouped(l) && |q.pairs| > 1;
    }
  }

  // ---- the set ----

  function SetOf(l: seq<Permission>): set<Permission> {
    set p | p in l
  }

  ghost predicate Lists(l: seq<Permission>, s: set<Permission>) {
    forall p :: p in l <==> p in s
  }

  /** The contents in some order. */
  method List(s: set<Permission>) returns (l: seq<Permission>)
    ensures Lists(l, s) && |l| == |s|
  {
    l := [];
    var left := s;
    while left != {}
      invariant left <= s && |l| + |left| == |s| && forall p :: p in l <==> p in s && p !in left
      decreases |left|
    {
      var p :| p in left;
      l := l + [p];
      left := left - {p};
    }
  }

  method NewSet(items: seq<Permission>) returns (s: set<Permission>)
    ensures Lists(items, s)
  {
    s := {};
    for i := 0 to |items|
      invariant forall p :: p in s <==> p in items[..i]
    {
      assert items[..i + 1] == items[..i] + [items[i]];
      s := s + {items[i]};
    }
    assert items[..|items|] == items;
  }

  /** One of the results of ungrouping: with several pairs in several permissions it depends on the
      order in which they are listed. */
  ghost predicate IsUngrouped(s: set<Permission>, r: set<Permission>) {
    exists l :: Lists(l, s) && Lists(Ungrouped(l), r)
  }

  method Ungroup(s: set<Permission>) returns (r: set<Permission>)
    ensures IsUngrouped(s, r) && Rules(r) == Rules(s)
    ensures (forall q :: q in r ==> Single(q)) <==> forall p :: p in s ==> |p.pairs| <= 1
    ensures (forall p :: p in s ==> |p.pairs| <= 1) ==> forall q :: q in r <==> exists p :: p in s && PieceOf(p, q)
  {
    var list := List(s);
    var l: seq<Permission> := [];
    for i := 0 to |list|
      invariant l == SplitRanges(list[..i])
    {
      assert list[..i + 1][..i] == list[..i];
      var p := list[i];
      if |p.ranges| <= 1 {
        l := l + [p];
      } else {
        ghost var before := l;
        for j := 0 to |p.ranges|
          invariant l == before + RangeCopies(p)[..j]
        {
          assert RangeCopies(p)[..j + 1] == RangeCopies(p)[..j] + [RangeCopies(p)[j]];
          l := l + [p.(ranges := [p.ranges[j]])];
        }
      }
    }
    var l2 := UngroupPairs(l);
    var l3 := UngroupPrefixes(l2);
    assert list[..|list|] == list && l3 == Ungrouped(list);
    r := NewSet(l3);
    UngroupedSet(list, s, r);
  }

  method UngroupPairs(l: seq<Permission>) returns (l2: seq<Permission>)
    ensures l2 == SplitPairs(l, |l|)
  {
    l2 := [];
    for i := 0 to |l|
      invariant l2 == SplitPairs(l, i)
    {
      var p := l[i];
      if |p.pairs| <= 1 {
        l2 := l2 + [p];
      } else {
        for j := 0 to |p.pairs|
          invariant j > 0 ==> l2 == l + [p.(pairs := [p.pairs[j - 1]])]
        {
          l2 := l + [p.(pairs := [p.pairs[j]])];
        }
      }
    }
  }

  method UngroupPrefixes(l2: seq<Permission>) returns (l3: seq<Permission>)
    ensures l3 == SplitPrefixes(l2)
  {
    l3 := [];
    for i := 0 to |l2|
      invariant l3 == SplitPrefixes(l2[..i])
    {
      assert l2[..i + 1][..i] == l2[..i];
      var p := l2[i];
      if |p.prefixes| <= 1 {
        l3 := l3 + [p];
      } else {
        ghost var before := l3;
        for j := 0 to |p.prefixes|
          invariant l3 == before + PrefixCopies(p)[..j]
        {
          assert PrefixCopies(p)[..j + 1] == PrefixCopies(p)[..j] + [PrefixCopies(p)[j]];
          l3 := l3 + [p.(prefixes := [p.prefixes[j]])];
        }
      }
    }
    assert l2[..|l2|] == l2;
  }

  lemma RulesOfList(l: seq<Permission>, s: set<Permission>, x: Rule)
    requires Lists(l, s)
    ensures x in Rules(s) <==> AnyAllows(l, x)
  {
    if AnyAllows(l, x) {
      var p :| p in l && Allows(p, x);
      assert x == Rule(p.protocol, p.from, p.to, x.source);
    }
    if x in Rules(s) {
      var p, src :| p in s && src in Sources(p) && x == Rule(p.protocol, p.from, p.to, src);
      assert Allows(p, x);
    }
  }

  lemma UngroupedSet(l: seq<Permission>, s: set<Permission>, r: set<Permission>)
    requires Lists(l, s) && Lists(Ungrouped(l), r)
    ensures Rules(r) == Rules(s)
    ensures (forall q :: q in r ==> Single(q)) <==> forall p :: p in s ==> |p.pairs| <= 1
    ensures (forall p :: p in s ==> |p.pairs| <= 1) ==> forall q :: q in r <==> exists p :: p in s && PieceOf(p, q)
  {
    forall x ensures x in Rules(r) <==> x in Rules(s) {
      RulesOfList(l, s, x);
      RulesOfList(Ungrouped(l), r, x);
      UngroupKeepsRules(l, x);
    }
    SingleExactlyWhen(l);
    if forall p :: p in s ==> |p.pairs| <= 1 {
      forall q ensures q in r <==> exists p :: p in s && PieceOf(p, q) { UngroupExactly(l, q); }
    }
  }

  method Difference(s: set<Permission>, s2: set<Permission>) returns (result: set<Permission>)
    ensures result == s - s2
  {
    result := {};
    var left := s;
    while left != {}
      invariant left <= s && result == (s - left) - s2
      decreases |left|
    {
      var p :| p in left;
      left := left - {p};
      if p !in s2 { result := result + {p}; }
    }
  }

  /** Equal lengths and one inclusion decide equality. */
  method Equal(s1: set<Permission>, s2: set<Permission>) returns (r: bool)
    ensures r <==> s1 == s2
  {
    if |s1| != |s2| { return false; }
    var left := s2;
    while left != {}
      invariant left <= s2 && s2 - left <= s1
      decreases |left|
    {
      var p :| p in left;
      if p !in s1 { return false; }
      left := left - {p};
    }
    SameSize(s2, s1);
    return true;
  }

  lemma {:induction false} SameSize(a: set<Permission>, b: set<Permission>)
    requires a <= b && |a| == |b|
    ensures a == b
  {
    assert |b - a| == |b| - |a|;
    assert b == a + (b - a);
  }
}
