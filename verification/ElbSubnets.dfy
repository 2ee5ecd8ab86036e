/** The subnets an AWS load balancer is attached to: one per availability zone. */
module ElbSubnets {
  import opened Wrappers

  datatype Association = Association(subnetId: string, main: bool)
  datatype RouteTable = RouteTable(associations: seq<Association>, gateways: seq<string>)
  datatype Subnet = Subnet(az: string, id: string, tags: set<string>)

  const TAG_INTERNAL: string := "kubernetes.io/role/internal-elb"
  const TAG_PUBLIC: string := "kubernetes.io/role/elb"

  predicate Explicit(t: RouteTable, id: string) {
    exists a :: a in t.associations && a.subnetId == id
  }

  predicate IsMain(t: RouteTable) {
    exists a :: a in t.associations && a.main
  }

  predicate HasGateway(t: RouteTable) {
    exists g :: g in t.gateways && "igw" <= g
  }

  /** The last of the first n tables that names the subnet. */
  function LastExplicit(rt: seq<RouteTable>, id: string, n: nat): (j: Option<nat>)
    requires n <= |rt|
    ensures j.Some? ==> j.value < n
  {
    if n == 0 then None else if Explicit(rt[n - 1], id) then Some(n - 1) else LastExplicit(rt, id, n - 1)
  }

  function LastMain(rt: seq<RouteTable>, n: nat): (j: Option<nat>)
    requires n <= |rt|
    ensures j.Some? ==> j.value < n
  {
    if n == 0 then None else if IsMain(rt[n - 1]) then Some(n - 1) else LastMain(rt, n - 1)
  }

  /** The table that decides for the subnet: the last one that names it, or else the last main
      one. */
  function TableFor(rt: seq<RouteTable>, id: string): (j: Option<nat>)
    ensures j.Some? ==> j.value < |rt|
  {
    var e := LastExplicit(rt, id, |rt|);
    if e.Some? then e else LastMain(rt, |rt|)
  }

  predicate Public(rt: seq<RouteTable>, id: string) {
    var j := TableFor(rt, id);
    j.Some? && HasGateway(rt[j.value])
  }

  method ScanExplicit(rt: seq<RouteTable>, id: string) returns (found: Option<nat>)
    ensures found == LastExplicit(rt, id, |rt|)
  {
    found := None;
    for i := 0 to |rt|
      invariant found == LastExplicit(rt, id, i)
    {
      var t := rt[i];
      ghost var before := found;
      for j := 0 to |t.associations|
        invariant found == before && forall k :: 0 <= k < j ==> t.associations[k].subnetId != id
      {
        if t.associations[j].subnetId == id {
          assert t.associations[j] in t.associations;
          found := Some(i);
          break;
        }
      }
    }
  }

  method ScanMain(rt: seq<RouteTable>) returns (found: Option<nat>)
    ensures found == LastMain(rt, |rt|)
  {
    found := None;
    for i := 0 to |rt|
      invariant found == LastMain(rt, i)
    {
      var t := rt[i];
      ghost var before := found;
      for j := 0 to |t.associations|
        invariant found == before && forall k :: 0 <= k < j ==> !t.associations[k].main
      {
        if t.associations[j].main {
          assert t.associations[j] in t.associations;
          found := Some(i);
          break;
        }
      }
    }
  }

  /** None when no table can be located. */
  method IsSubnetPublic(rt: seq<RouteTable>, id: string) returns (r: Option<bool>)
    ensures r == if TableFor(rt, id).None? then None else Some(Public(rt, id))
  {
    var found := ScanExplicit(rt, id);
    if found.None? {
      found := ScanMain(rt);
    }
    if found.None? { return None; }
    var gateways := rt[found.value].gateways;
    for i := 0 to |gateways|
      invariant forall k :: 0 <= k < i ==> !("igw" <= gateways[k])
    {
      if "igw" <= gateways[i] {
        assert gateways[i] in gateways;
        return Some(true);
      }
    }
    return Some(false);
  }

  /** A subnet that some table names is decided by the last such table, whatever the others say. */
  lemma {:induction false} LastExplicitIsLast(rt: seq<RouteTable>, id: string, n: nat)
    requires n <= |rt|
    ensures var j := LastExplicit(rt, id, n);
      && (j.None? <==> forall k :: 0 <= k < n ==> !Explicit(rt[k], id))
      && (j.Some? ==> Explicit(rt[j.value], id) && forall k :: j.value < k < n ==> !Explicit(rt[k], id))
  {
    if n > 0 { LastExplicitIsLast(rt, id, n - 1); }
  }

  /** A subnet that no table names is decided by the last main table. */
  lemma {:induction false} LastMainIsLast(rt: seq<RouteTable>, n: nat)
    requires n <= |rt|
    ensures var j := LastMain(rt, n);
      && (j.None? <==> forall k :: 0 <= k < n ==> !IsMain(rt[k]))
      && (j.Some? ==> IsMain(rt[j.value]) && forall k :: j.value < k < n ==> !IsMain(rt[k]))
  {
    if n > 0 { LastMainIsLast(rt, n - 1); }
  }

  ghost predicate Names(t: RouteTable, id: string) {
    exists i :: 0 <= i < |t.associations| && t.associations[i].subnetId == id
  }

  ghost predicate Main(t: RouteTable) {
    exists i :: 0 <= i < |t.associations| && t.associations[i].main
  }

  ghost predicate RoutesOut(t: RouteTable) {
    exists i :: 0 <= i < |t.gateways| && |t.gateways[i]| >= 3 && t.gateways[i][..3] == "igw"
  }

  lemma TableTests(t: RouteTable, id: string)
    ensures Explicit(t, id) <==> Names(t, id)
    ensures IsMain(t) <==> Main(t)
    ensures HasGateway(t) <==> RoutesOut(t)
  {
    if Explicit(t, id) {
      var a :| a in t.associations && a.subnetId == id;
      var i :| 0 <= i < |t.associations| && t.associations[i] == a;
    }
    if IsMain(t) {
      var a :| a in t.associations && a.main;
      var i :| 0 <= i < |t.associations| && t.associations[i] == a;
    }
    if HasGateway(t) {
      var g :| g in t.gateways && "igw" <= g;
      var i :| 0 <= i < |t.gateways| && t.gateways[i] == g;
      assert g[..3] == "igw";
    }
    if RoutesOut(t) {
      var i :| 0 <= i < |t.gateways| && |t.gateways[i]| >= 3 && t.gateways[i][..3] == "igw";
      assert t.gateways[i] in t.gateways && "igw" <= t.gateways[i];
    }
  }

  ghost predicate AnyNames(rt: seq<RouteTable>, id: string) {
    exists k :: 0 <= k < |rt| && Names(rt[k], id)
  }

  ghost predicate LastNaming(rt: seq<RouteTable>, id: string, j: nat) {
    j < |rt| && Names(rt[j], id) && forall k :: j < k < |rt| ==> !Names(rt[k], id)
  }

  ghost predicate LastOfMain(rt: seq<RouteTable>, j: nat) {
    j < |rt| && Main(rt[j]) && forall k :: j < k < |rt| ==> !Main(rt[k])
  }

  /** Which table decides for a subnet: the last that names it, whatever the main tables are; the last
      main one when none names it; and none exactly when there is neither. */
  lemma TableForExactly(rt: seq<RouteTable>, id: string, j: nat)
    ensures TableFor(rt, id) == Some(j) <==>
            if AnyNames(rt, id) then LastNaming(rt, id, j) else LastOfMain(rt, j)
    ensures TableFor(rt, id).None? <==> forall k :: 0 <= k < |rt| ==> !Names(rt[k], id) && !Main(rt[k])
  {
    forall k | 0 <= k < |rt| ensures Explicit(rt[k], id) == Names(rt[k], id) && IsMain(rt[k]) == Main(rt[k]) {
      TableTests(rt[k], id);
    }
    LastExplicitIsLast(rt, id, |rt|);
    LastMainIsLast(rt, |rt|);
  }

  /** A subnet named by a table without an internet gateway is private, whatever the main table has. */
  lemma ExplicitWins(named: RouteTable, main: RouteTable, id: string)
    requires Names(named, id) && !RoutesOut(named) && Main(main) && !Names(main, id)
    ensures !Public([named, main], id) && !Public([main, named], id)
  {
    TableTests(named, id);
    TableTests(main, id);
    LastExplicitIsLast([named, main], id, 2);
    LastExplicitIsLast([main, named], id, 2);
  }

  // ---- the choice ----

  predicate Named(s: Subnet) { s.az != "" && s.id != "" }

  predicate Eligible(s: Subnet, rt: seq<RouteTable>, internal: bool) {
    Named(s) && (internal || Public(rt, s.id))
  }

  function RoleTag(internal: bool): string { if internal then TAG_INTERNAL else TAG_PUBLIC }

  predicate Tagged(s: Subnet, internal: bool) { RoleTag(internal) in s.tags }

  function Eligibles(subnets: seq<Subnet>, rt: seq<RouteTable>, internal: bool): seq<bool> {
    seq(|subnets|, k requires 0 <= k < |subnets| => Eligible(subnets[k], rt, internal))
  }

  /** Among the first n subnets, of which ok tells the eligible ones, j is the zone's choice: the
      earliest eligible one with the role tag, or the earliest eligible one when none has it. */
  ghost predicate Choice(subnets: seq<Subnet>, n: nat, ok: seq<bool>, internal: bool, az: string, j: nat) {
    && j < n <= |subnets| == |ok| && subnets[j].az == az && ok[j]
    && forall k :: 0 <= k < n && k != j && subnets[k].az == az && ok[k] ==>
         if Tagged(subnets[j], internal) then k > j || !Tagged(subnets[k], internal)
         else k > j && !Tagged(subnets[k], internal)
  }

  ghost predicate ZoneServed(subnets: seq<Subnet>, n: nat, ok: seq<bool>, internal: bool, az: string, s: Subnet) {
    exists j: nat :: Choice(subnets, n, ok, internal, az, j) && s == subnets[j]
  }

  /** Every zone with an eligible subnet among the first n has its choice, and no other zone any. */
  ghost predicate Chosen(subnets: seq<Subnet>, n: nat, ok: seq<bool>, internal: bool, byZone: map<string, Subnet>) {
    && n <= |subnets| == |ok|
    && (forall az {:trigger ZoneServed(subnets, n, ok, internal, az, byZone[az])} ::
          az in byZone ==> ZoneServed(subnets, n, ok, internal, az, byZone[az]))
    && forall k :: 0 <= k < n && ok[k] ==> subnets[k].az in byZone
  }

  /** What one more subnet does to the choice of its zone. */
  function Considered(byZone: map<string, Subnet>, s: Subnet, eligible: bool, internal: bool): map<string, Subnet> {
    if !eligible then byZone
    else if s.az !in byZone then byZone[s.az := s]
    else if Tagged(s, internal) && !Tagged(byZone[s.az], internal) then byZone[s.az := s]
    else byZone
  }

  lemma ChoiceStays(subnets: seq<Subnet>, n: nat, m: nat, ok: seq<bool>, internal: bool, az: string, j: nat)
    requires m == n + 1 <= |subnets| == |ok| && Choice(subnets, n, ok, internal, az, j)
    requires subnets[n].az == az && ok[n] && Tagged(subnets[n], internal) ==> Tagged(subnets[j], internal)
    ensures ZoneServed(subnets, m, ok, internal, az, subnets[j])
  {
    assert Choice(subnets, m, ok, internal, az, j);
  }

  lemma ChoiceMoves(subnets: seq<Subnet>, n: nat, m: nat, ok: seq<bool>, internal: bool, az: string)
    requires m == n + 1 <= |subnets| == |ok| && subnets[n].az == az && ok[n]
    requires forall k :: 0 <= k < n && subnets[k].az == az && ok[k] ==>
               Tagged(subnets[n], internal) && !Tagged(subnets[k], internal)
    ensures ZoneServed(subnets, m, ok, internal, az, subnets[n])
  {
    assert Choice(subnets, m, ok, internal, az, n);
  }

  lemma OneMoreSubnet(subnets: seq<Subnet>, n: nat, m: nat, ok: seq<bool>, internal: bool,
                      before: map<string, Subnet>, after: map<string, Subnet>)
    requires m == n + 1 <= |subnets| == |ok| && Chosen(subnets, n, ok, internal, before)
    requires after == Considered(before, subnets[n], ok[n], internal)
    ensures Chosen(subnets, m, ok, internal, after)
  {
    var s := subnets[n];
    forall az | az in after ensures ZoneServed(subnets, m, ok, internal, az, after[az]) {
      if az in before {
        assert ZoneServed(subnets, n, ok, internal, az, before[az]);
        var j: nat :| Choice(subnets, n, ok, internal, az, j) && before[az] == subnets[j];
        if ok[n] && az == s.az && Tagged(s, internal) && !Tagged(before[az], internal) {
          ChoiceMoves(subnets, n, m, ok, internal, az);
        } else {
          ChoiceStays(subnets, n, m, ok, internal, az, j);
        }
      } else {
        ChoiceMoves(subnets, n, m, ok, internal, az);
      }
    }
  }

  /** None is an error: some named subnet has no route table. Otherwise there is one subnet for each
      zone with an eligible one. */
  method FindElbSubnets(subnets: seq<Subnet>, rt: seq<RouteTable>, internal: bool)
    returns (r: Option<seq<string>>, ghost byZone: map<string, Subnet>)
    ensures r.None? <==> exists s :: s in subnets && Named(s) && TableFor(rt, s.id).None?
    ensures r.Some? ==> Chosen(subnets, |subnets|, Eligibles(subnets, rt, internal), internal, byZone)
    ensures r.Some? ==> |r.value| == |byZone.Keys|
    ensures r.Some? ==> forall id :: id in r.value <==> exists az :: az in byZone && byZone[az].id == id
  {
    var subnetsByAZ: map<string, Subnet> := map[];
    ghost var eligible := Eligibles(subnets, rt, internal);
    for i := 0 to |subnets|
      invariant Chosen(subnets, i, eligible, internal, subnetsByAZ)
      invariant forall k :: 0 <= k < i && Named(subnets[k]) ==> TableFor(rt, subnets[k].id).Some?
    {
      var subnet := subnets[i];
      ghost var before := subnetsByAZ;
      if subnet.az != "" && subnet.id != "" {
        var isPublic := IsSubnetPublic(rt, subnet.id);
        if isPublic.None? {
          byZone := map[];
          return None, byZone;
        }
        if internal || isPublic.value {
          subnetsByAZ := Consider(subnetsByAZ, subnet, internal);
        }
      }
      OneMoreSubnet(subnets, i, i + 1, eligible, internal, before, subnetsByAZ);
    }
    byZone := subnetsByAZ;
    var ids := Ids(subnetsByAZ);
    return Some(ids), byZone;
  }

  /** Ties within a zone are broken by the role tag, then by order. */
  method Consider(subnetsByAZ: map<string, Subnet>, subnet: Subnet, internal: bool) returns (r: map<string, Subnet>)
    ensures r == Considered(subnetsByAZ, subnet, true, internal)
  {
    if subnet.az !in subnetsByAZ {
      return subnetsByAZ[subnet.az := subnet];
    }
    var existing := subnetsByAZ[subnet.az];
    var existingHasTag := RoleTag(internal) in existing.tags;
    var subnetHasTag := RoleTag(internal) in subnet.tags;
    if existingHasTag != subnetHasTag {
      if subnetHasTag {
        return subnetsByAZ[subnet.az := subnet];
      }
    }
    return subnetsByAZ;
  }

  method Ids(byZone: map<string, Subnet>) returns (ids: seq<string>)
    ensures |ids| == |byZone.Keys|
    ensures forall id :: id in ids <==> exists az :: az in byZone && byZone[az].id == id
  {
    ids := [];
    var left := byZone.Keys;
    while left != {}
      invariant left <= byZone.Keys && |ids| + |left| == |byZone.Keys|
      invariant forall id :: id in ids <==> exists az :: az in byZone && az !in left && byZone[az].id == id
      decreases |left|
    {
      var az :| az in left;
      left := left - {az};
      ids := ids + [byZone[az].id];
    }
  }

  /** What the choice comes to: the subnets of an external load balancer all route to an internet
      gateway by their own table, those of an internal one need not, and the tag that is preferred
      is the one for its kind. */
  lemma ChosenMeans(subnets: seq<Subnet>, rt: seq<RouteTable>, internal: bool, byZone: map<string, Subnet>, az: string)
    requires Chosen(subnets, |subnets|, Eligibles(subnets, rt, internal), internal, byZone)
    ensures az in byZone ==>
              && byZone[az] in subnets && byZone[az].az == az && az != "" && byZone[az].id != ""
              && (internal || exists j :: TableFor(rt, byZone[az].id) == Some(j) && RoutesOut(rt[j]))
    ensures az != "" && internal ==> (az in byZone <==> exists s :: s in subnets && s.az == az && s.id != "")
    ensures az in byZone && (exists s :: s in subnets && InZone(s, az) && Preferred(s, internal) &&
                                         (internal || Public(rt, s.id))) ==>
              Preferred(byZone[az], internal)
  {
    var ok := Eligibles(subnets, rt, internal);
    if az in byZone {
      assert ZoneServed(subnets, |subnets|, ok, internal, az, byZone[az]);
      var j: nat :| Choice(subnets, |subnets|, ok, internal, az, j) && byZone[az] == subnets[j];
      assert subnets[j] in subnets && Eligible(subnets[j], rt, internal);
      if !internal {
        var t := TableFor(rt, subnets[j].id).value;
        TableTests(rt[t], subnets[j].id);
        assert RoutesOut(rt[t]);
      }
      forall s | s in subnets && InZone(s, az) && Preferred(s, internal) && (internal || Public(rt, s.id))
        ensures Preferred(byZone[az], internal)
      {
        var k :| 0 <= k < |subnets| && subnets[k] == s;
        assert ok[k] && Tagged(s, internal);
      }
    } else if internal {
      forall k | 0 <= k < |subnets| ensures InZone(subnets[k], az) ==> az in byZone { assert ok[k] || !ok[k]; }
    }
  }

  predicate InZone(s: Subnet, az: string) { s.az == az && s.az != "" && s.id != "" }

  predicate Preferred(s: Subnet, internal: bool) {
    if internal then "kubernetes.io/role/internal-elb" in s.tags else "kubernetes.io/role/elb" in s.tags
  }

  /** The choice of a zone is unique, so the rule above fixes the result. */
  lemma ChoiceIsUnique(subnets: seq<Subnet>, n: nat, ok: seq<bool>, internal: bool, az: string, i: nat, j: nat)
    requires Choice(subnets, n, ok, internal, az, i) && Choice(subnets, n, ok, internal, az, j)
    ensures i == j
  {
  }
}
