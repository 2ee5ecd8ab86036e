/** updateInstanceSecurityGroupsForLoadBalancer: which instance security groups let the AWS load
    balancer's traffic in. */
module InstanceGroups {
  import opened Wrappers
  import opened Faults

  type GroupId = string

  /** The lookup of an instance's security group. */
  datatype Lookup = LookupError | NoGroup | Group(id: GroupId)

  /** The groups the instances need open. */
  function Wanted(instances: seq<Lookup>): set<GroupId> {
    set g | g in instances && g.Group? && g.id != "" :: g.id
  }

  /** A group is wanted exactly when some instance's lookup finds it and it has an id. */
  lemma WantedExactly(instances: seq<Lookup>, id: GroupId)
    ensures id in Wanted(instances) <==> id != "" && exists i :: 0 <= i < |instances| && instances[i] == Group(id)
  {
    if id in Wanted(instances) {
      var g :| g in instances && g.Group? && g.id != "" && g.id == id;
      var i :| 0 <= i < |instances| && instances[i] == g;
      assert instances[i] == Group(id);
    }
    if i :| 0 <= i < |instances| && instances[i] == Group(id) { assert Group(id) in instances; }
  }

  function Times(ids: seq<GroupId>, id: GroupId): nat {
    multiset(ids)[id]
  }

  /** The change for a group: true to add, false to remove. A wanted group that is listed twice is
      taken off the map by the first listing and put back for removal by the second. */
  function Change(wanted: bool, listed: nat): Option<bool> {
    if wanted then (if listed == 0 then Some(true) else if listed == 1 then None else Some(false))
    else if listed == 0 then None else Some(false)
  }

  ghost predicate IsChangeMap(changes: map<GroupId, bool>, wanted: set<GroupId>, actual: seq<GroupId>) {
    forall id :: Entry(changes, id) == Due(id, wanted, actual)
  }

  function Entry(changes: map<GroupId, bool>, id: GroupId): Option<bool> {
    if id in changes then Some(changes[id]) else None
  }

  /** The change due for a group; groups without an id are ignored. */
  function Due(id: GroupId, wanted: set<GroupId>, actual: seq<GroupId>): Option<bool> {
    if id == "" then None else Change(id in wanted, Times(actual, id))
  }

  function Apply(open: set<GroupId>, changes: map<GroupId, bool>): set<GroupId> {
    set id | id in open + changes.Keys && (if id in changes then changes[id] else id in open)
  }

  ghost predicate Listed(actual: seq<GroupId>, open: set<GroupId>) {
    forall id :: id != "" ==> (id in actual <==> id in open)
  }

  /** No wanted group is listed twice. */
  ghost predicate ListedOnce(wanted: set<GroupId>, actual: seq<GroupId>) {
    forall id :: id in wanted ==> Times(actual, id) <= 1
  }

  lemma ListedTimes(ids: seq<GroupId>, id: GroupId)
    ensures id in ids <==> Times(ids, id) > 0
  {
  }

  /** Applying the changes opens exactly the wanted groups exactly when none of them is listed
      twice. */
  lemma ApplyExactlyWhen(open: set<GroupId>, wanted: set<GroupId>, actual: seq<GroupId>, changes: map<GroupId, bool>)
    requires Listed(actual, open) && "" !in open && "" !in wanted && IsChangeMap(changes, wanted, actual)
    ensures Apply(open, changes) == wanted <==> ListedOnce(wanted, actual)
  {
    var end := Apply(open, changes);
    forall id ensures id in end <==> id in wanted && Times(actual, id) <= 1 {
      ListedTimes(actual, id);
      assert Entry(changes, id) == Due(id, wanted, actual);
    }
    if end == wanted {
      forall id | id in wanted ensures Times(actual, id) <= 1 { assert id in end; }
    }
  }

  /** A wanted group that is open and listed twice is closed. */
  lemma ClosesWantedGroup(changes: map<GroupId, bool>)
    requires IsChangeMap(changes, {"sg"}, ["sg", "sg"])
    ensures changes == map["sg" := false] && Apply({"sg"}, changes) == {}
  {
    forall id ensures id in changes <==> id == "sg" {
      assert Entry(changes, id) == Due(id, {"sg"}, ["sg", "sg"]);
      if id != "sg" { ListedTimes(["sg", "sg"], id); }
    }
    assert Entry(changes, "sg") == Due("sg", {"sg"}, ["sg", "sg"]);
    assert Times(["sg", "sg"], "sg") == 2;
  }

  /** With distinct listed ids the map is true exactly on wanted minus listed and false exactly on
      listed minus wanted. */
  lemma DistinctChangeMap(wanted: set<GroupId>, actual: seq<GroupId>, changes: map<GroupId, bool>, id: GroupId)
    requires "" !in wanted && IsChangeMap(changes, wanted, actual) && forall x :: Times(actual, x) <= 1
    ensures id in changes && changes[id] <==> id in wanted && id !in actual
    ensures id in changes && !changes[id] <==> id != "" && id in actual && id !in wanted
  {
    ListedTimes(actual, id);
    assert Entry(changes, id) == Due(id, wanted, actual);
  }

  class Groups {
    var open: set<GroupId>
    var calls: nat
    const schedule: nat -> Outcome

    constructor (open: set<GroupId>, schedule: nat -> Outcome)
      ensures this.open == open && this.schedule == schedule
    {
      this.open := open;
      this.schedule := schedule;
      calls := 0;
    }

    method SetIngress(id: GroupId, add: bool) returns (ok: bool)
      modifies this
      ensures open == (if add then old(open) + {id} else old(open) - {id}) || (!ok && open == old(open))
      ensures AllOk(schedule) ==> ok
    {
      var outcome := schedule(calls);
      calls := calls + 1;
      if !outcome.FailBefore? {
        open := if add then open + {id} else open - {id};
      }
      ok := outcome.Ok?;
    }

    /** None when an instance's group cannot be determined. */
    static method WantedGroups(instances: seq<Lookup>) returns (ids: Option<map<GroupId, bool>>)
      ensures ids.None? <==> LookupError in instances
      ensures ids.Some? ==> ids.value == map id | id in Wanted(instances) :: true
    {
      var m: map<GroupId, bool> := map[];
      for i := 0 to |instances|
        invariant LookupError !in instances[..i]
        invariant m == map id | id in Wanted(instances[..i]) :: true
      {
        var g := instances[i];
        assert instances[..i + 1] == instances[..i] + [g];
        if g.LookupError? { return None; }
        ghost var before := Wanted(instances[..i]);
        assert Wanted(instances[..i + 1]) == if g.Group? && g.id != "" then before + {g.id} else before;
        if g.NoGroup? { continue; }
        if g.id == "" { continue; }
        m := m[g.id := true];
      }
      assert instances[..|instances|] == instances;
      return Some(m);
    }

    static method CompareToActual(ids: map<GroupId, bool>, actual: seq<GroupId>) returns (changes: map<GroupId, bool>)
      requires "" !in ids && forall id :: id in ids ==> ids[id]
      ensures IsChangeMap(changes, ids.Keys, actual)
    {
      changes := ids;
      for i := 0 to |actual|
        invariant IsChangeMap(changes, ids.Keys, actual[..i])
      {
        var id := actual[i];
        ghost var before := changes;
        if id != "" {
          if id in changes && changes[id] {
            changes := changes - {id};
          } else {
            changes := changes[id := false];
          }
        }
        OneMoreListed(before, changes, ids.Keys, actual, i);
      }
      assert actual[..|actual|] == actual;
    }

    /** On success the open groups are the wanted ones exactly when none of those is listed twice.
        Whatever fails, only wanted groups are opened, and none of them is closed unless one is
        listed twice. */
    method UpdateInstanceSecurityGroups(instances: seq<Lookup>, actual: seq<GroupId>) returns (ok: bool)
      requires Listed(actual, open) && "" !in open
      modifies this
      ensures ok ==> (open == Wanted(instances) <==> ListedOnce(Wanted(instances), actual))
      ensures open <= old(open) + Wanted(instances)
      ensures ListedOnce(Wanted(instances), actual) ==> old(open) * Wanted(instances) <= open
      ensures LookupError in instances ==> !ok && open == old(open)
      ensures AllOk(schedule) && LookupError !in instances ==> ok
    {
      ghost var was := open;
      var ids := WantedGroups(instances);
      if ids.None? { return false; }
      var changes := CompareToActual(ids.value, actual);
      ghost var wanted := Wanted(instances);
      assert ids.value.Keys == wanted;
      ApplyExactlyWhen(was, wanted, actual, changes);
      ChangesAreApt(was, wanted, actual, changes);
      var left := changes.Keys;
      while left != {}
        invariant left <= changes.Keys
        invariant forall id :: id in open <==> if id in changes && id !in left then changes[id] else id in was
        decreases |left|
      {
        var id :| id in left;
        left := left - {id};
        ok := SetIngress(id, changes[id]);
        if !ok { return; }
      }
      assert open == Apply(was, changes);
      ok := true;
    }
  }

  lemma ChangesAreApt(open: set<GroupId>, wanted: set<GroupId>, actual: seq<GroupId>, changes: map<GroupId, bool>)
    requires Listed(actual, open) && "" !in open && "" !in wanted && IsChangeMap(changes, wanted, actual)
    ensures forall id :: id in changes && changes[id] ==> id in wanted
    ensures ListedOnce(wanted, actual) ==> forall id :: id in changes && !changes[id] ==> id !in wanted
  {
    forall id | id in changes
      ensures changes[id] ==> id in wanted
      ensures ListedOnce(wanted, actual) && !changes[id] ==> id !in wanted
    {
      assert Entry(changes, id) == Due(id, wanted, actual);
    }
  }

  lemma OneMoreListed(before: map<GroupId, bool>, after: map<GroupId, bool>, wanted: set<GroupId>,
                      actual: seq<GroupId>, i: nat)
    requires i < |actual| && IsChangeMap(before, wanted, actual[..i])
    requires var id := actual[i];
      after == if id == "" then before else if id in before && before[id] then before - {id} else before[id := false]
    ensures IsChangeMap(after, wanted, actual[..i + 1])
  {
    assert actual[..i + 1] == actual[..i] + [actual[i]];
    forall id
      ensures Entry(after, id) == Due(id, wanted, actual[..i + 1])
    {
      assert Entry(before, id) == Due(id, wanted, actual[..i]);
      assert Times(actual[..i + 1], id) == Times(actual[..i], id) + if id == actual[i] then 1 else 0;
    }
  }
}
