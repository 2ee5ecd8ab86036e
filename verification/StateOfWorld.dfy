/** The desired and actual state of world as the controller keeps them, one pass of the reconciler
    and one pass of the populator over them. */
module StateOfWorld {
  import opened Wrappers
  import opened SnapshotNames
  import opened Controller
  import opened ControllerInvariant
  import opened InformerSync
  import opened ControllerRaces

  class SnapshotCache {
    var snapshots: map<string, Snapshot>

    constructor ()
      ensures snapshots == map[]
    {
      snapshots := map[];
    }

    method AddSnapshot(snapshot: Snapshot)
      modifies this
      ensures snapshots == old(snapshots)[snapshot.Key() := snapshot]
    {
      snapshots := snapshots[snapshot.Key() := snapshot];
    }

    method DeleteSnapshot(name: string)
      modifies this
      ensures snapshots == old(snapshots) - {name}
    {
      snapshots := snapshots - {name};
    }

    /** A copy, made entry by entry. */
    method GetSnapshots() returns (copy: map<string, Snapshot>)
      ensures copy == snapshots
    {
      copy := map[];
      var left := snapshots.Keys;
      while left != {}
        invariant left <= snapshots.Keys && copy == map k | k in snapshots && k !in left :: snapshots[k]
        decreases |left|
      {
        var k :| k in left;
        left := left - {k};
        copy := copy[k := snapshots[k]];
      }
    }

    predicate SnapshotExists(name: string)
      reads this
    {
      name in snapshots
    }
  }

  // ---- the reconciler ----

  type Snapshots = map<string, Snapshot>

  /** The entries of one map whose names the other lacks. */
  function Missing(a: Snapshots, b: Snapshots): Snapshots {
    map k | k in a && k !in b :: a[k]
  }

  /** The order in which a loop visits the names of a map: any, each name once. */
  ghost predicate Visits(order: seq<string>, all: Snapshots) {
    && (forall i, j :: 0 <= i < j < |order| ==> order[i] != order[j])
    && forall k :: k in order <==> k in all
  }

  /** The caches change between any two accesses to them. A loop that copied its map at access start
      looks up its i-th name at this access, and may look it up again at the next one. */
  function When(start: nat, i: nat): nat { start + 1 + 2 * i }

  ghost predicate FiredAt(fired: Snapshots, all: Snapshots, other: Snapshots, k: string) {
    && (k in fired <==> k !in other)
    && (k in fired ==> k in all && fired[k] == all[k])
  }

  /** Of the first n names visited, exactly those were fired that the other cache lacked when they
      were looked up, each with the copied object. */
  ghost predicate Fires(fired: Snapshots, all: Snapshots, other: nat -> Snapshots, order: seq<string>, start: nat,
                        n: nat)
    requires n <= |order|
  {
    && (forall k :: k in fired ==> Among(order, n, k))
    && forall i {:trigger FiredAt(fired, all, other(When(start, i)), order[i])} ::
         0 <= i < n ==> FiredAt(fired, all, other(When(start, i)), order[i])
  }

  /** The name is among the first n visited. */
  ghost predicate Among(order: seq<string>, n: nat, k: string)
    requires n <= |order|
  {
    exists i :: 0 <= i < n && order[i] == k
  }

  lemma FiresFrozen(fired: Snapshots, all: Snapshots, other: nat -> Snapshots, order: seq<string>, start: nat)
    requires Visits(order, all) && Fires(fired, all, other, order, start, |order|)
    requires forall t: nat :: other(t) == other(0)
    ensures fired == Missing(all, other(0))
  {
    forall k ensures k in fired <==> k in Missing(all, other(0)) {
      if k in order {
        var i :| 0 <= i < |order| && order[i] == k;
        assert FiredAt(fired, all, other(When(start, i)), order[i]);
      }
    }
    forall k | k in fired ensures fired[k] == all[k] {
      var i :| 0 <= i < |order| && order[i] == k;
      assert FiredAt(fired, all, other(When(start, i)), order[i]);
    }
  }

  lemma FiresOneMore(fired: Snapshots, fired': Snapshots, all: Snapshots, other: nat -> Snapshots, order: seq<string>,
                     start: nat, n: nat)
    requires n < |order| && Visits(order, all) && Fires(fired, all, other, order, start, n)
    requires fired' == if order[n] in other(When(start, n)) then fired else fired[order[n] := all[order[n]]]
    ensures Fires(fired', all, other, order, start, n + 1)
  {
    forall k | k in fired' ensures Among(order, n + 1, k) {
      if k != order[n] { assert Among(order, n, k); }
    }
    assert !Among(order, n, order[n]);
    forall i | 0 <= i < n + 1 ensures FiredAt(fired', all, other(When(start, i)), order[i]) {
      if i < n { assert FiredAt(fired, all, other(When(start, i)), order[i]); }
    }
  }

  /** The first loop of a pass: a copied name that desired lacks is to be deleted. */
  method ReconcileActual(actual: nat -> Snapshots, desired: nat -> Snapshots, start: nat, order: seq<string>)
    returns (deletes: Snapshots)
    requires Visits(order, actual(start))
    ensures Fires(deletes, actual(start), desired, order, start, |order|)
  {
    deletes := map[];
    for i := 0 to |order|
      invariant Fires(deletes, actual(start), desired, order, start, i)
    {
      ghost var before := deletes;
      if order[i] !in desired(When(start, i)) {
        deletes := deletes[order[i] := actual(start)[order[i]]];
      }
      FiresOneMore(before, deletes, actual(start), desired, order, start, i);
    }
  }

  /** There at one access and gone at the next. */
  predicate Vanished(actual: nat -> Snapshots, t: nat, k: string) {
    k in actual(t) && k !in actual(t + 1)
  }

  ghost predicate NoneVanished(actual: nat -> Snapshots, order: seq<string>, start: nat, n: nat)
    requires n <= |order|
  {
    forall i {:trigger Vanished(actual, When(start, i), order[i])} ::
      0 <= i < n ==> !Vanished(actual, When(start, i), order[i])
  }

  /** There at both, without a data name. */
  predicate Unrepaired(actual: nat -> Snapshots, t: nat, k: string) {
    k in actual(t) && k in actual(t + 1) && actual(t + 1)[k].dataName.None?
  }

  /** Of the first n names visited, exactly these are repaired. */
  ghost predicate Repairs(repairs: set<string>, actual: nat -> Snapshots, order: seq<string>, start: nat, n: nat)
    requires n <= |order|
  {
    && (forall k :: k in repairs ==> Among(order, n, k))
    && forall i {:trigger Unrepaired(actual, When(start, i), order[i])} ::
         0 <= i < n ==> (order[i] in repairs <==> Unrepaired(actual, When(start, i), order[i]))
  }

  lemma RepairsOneMore(repairs: set<string>, repairs': set<string>, actual: nat -> Snapshots, order: seq<string>,
                       start: nat, n: nat)
    requires n < |order| && !Among(order, n, order[n]) && Repairs(repairs, actual, order, start, n)
    requires repairs' == if Unrepaired(actual, When(start, n), order[n]) then repairs + {order[n]} else repairs
    ensures Repairs(repairs', actual, order, start, n + 1)
  {
    forall k | k in repairs' ensures Among(order, n + 1, k) {
      if k != order[n] { assert Among(order, n, k); }
    }
    forall i | 0 <= i < n + 1 ensures order[i] in repairs' <==> Unrepaired(actual, When(start, i), order[i]) {
      if i < n { assert order[i] in repairs <==> Unrepaired(actual, When(start, i), order[i]); }
    }
  }

  /** The second loop. A copied name that actual lacks is to be created. One that it has is looked up
      again for its object: if it has gone in between, the object is nil and the pass crashes there. */
  method ReconcileDesired(actual: nat -> Snapshots, desired: nat -> Snapshots, start: nat, order: seq<string>)
    returns (creates: Snapshots, repairs: set<string>, visited: nat)
    requires Visits(order, desired(start))
    ensures visited <= |order| && NoneVanished(actual, order, start, visited)
    ensures visited < |order| ==> Vanished(actual, When(start, visited), order[visited])
    ensures Fires(creates, desired(start), actual, order, start, visited)
    ensures Repairs(repairs, actual, order, start, visited)
  {
    creates, repairs := map[], {};
    for i := 0 to |order|
      invariant NoneVanished(actual, order, start, i)
      invariant Fires(creates, desired(start), actual, order, start, i)
      invariant Repairs(repairs, actual, order, start, i)
    {
      var k, t := order[i], When(start, i);
      ghost var creates0, repairs0 := creates, repairs;
      assert !Among(order, i, k);
      if k !in actual(t) {
        creates := creates[k := desired(start)[k]];
      } else if k !in actual(t + 1) {
        return creates, repairs, i;
      } else if actual(t + 1)[k].dataName.None? {
        repairs := repairs + {k};
      }
      FiresOneMore(creates0, creates, desired(start), actual, order, start, i);
      RepairsOneMore(repairs0, repairs, actual, order, start, i);
    }
    visited := |order|;
  }

  /** A whole pass. It crashes exactly when a name leaves the actual state of world between the two
      lookups of it, and then at the first such name. Caches that do not change during the pass give
      exactly the two differences. */
  method Reconcile(actual: nat -> Snapshots, desired: nat -> Snapshots, first: seq<string>, second: seq<string>)
    returns (deletes: Snapshots, creates: Snapshots, repairs: set<string>, visited: nat, crashed: bool)
    requires Visits(first, actual(0)) && Visits(second, desired(When(0, |first|)))
    ensures Fires(deletes, actual(0), desired, first, 0, |first|)
    ensures crashed <==>
            exists i :: 0 <= i < |second| && Vanished(actual, When(When(0, |first|), i), second[i])
    ensures visited <= |second| && (crashed <==> visited < |second|)
    ensures NoneVanished(actual, second, When(0, |first|), visited)
    ensures crashed ==> Vanished(actual, When(When(0, |first|), visited), second[visited])
    ensures Fires(creates, desired(When(0, |first|)), actual, second, When(0, |first|), visited)
    ensures Repairs(repairs, actual, second, When(0, |first|), visited)
    ensures (forall t: nat :: actual(t) == actual(0) && desired(t) == desired(0)) ==>
              !crashed && deletes == Missing(actual(0), desired(0)) && creates == Missing(desired(0), actual(0))
  {
    deletes := ReconcileActual(actual, desired, 0, first);
    var copied := When(0, |first|);
    creates, repairs, visited := ReconcileDesired(actual, desired, copied, second);
    crashed := visited < |second|;
    if forall t: nat :: actual(t) == actual(0) && desired(t) == desired(0) {
      FiresFrozen(deletes, actual(0), desired, first, 0);
      assert !crashed by {
        var t := When(copied, visited);
        assert actual(t) == actual(0) == actual(t + 1);
      }
      FiresFrozen(creates, desired(copied), actual, second, copied);
      assert desired(copied) == desired(0);
    }
  }

  // ---- a pass as steps of the transition system ----

  lemma {:induction false} SeenGrowsInRun(s: State, labels: seq<Label>)
    requires Exec(s, labels).Some?
    ensures var t := Exec(s, labels).value;
      s.front.seenDesired <= t.front.seenDesired && s.front.seenActual <= t.front.seenActual
    decreases |labels|
  {
    if labels != [] {
      SeenGrows(s, labels[0]);
      SeenGrowsInRun(Apply(s, labels[0]), labels[1..]);
    }
  }

  /** Whatever happens between the copy and the call, a delete that a pass fires for a copied entry is
      a step of the controller unless an operation of its name is running. */
  lemma DeletesAreSteps(s: State, labels: seq<Label>, t: State, k: string)
    requires Reachable(s) && Exec(s, labels) == Some(t) && k in s.front.actual
    ensures Enabled(t, FireDelete(s.front.actual[k])) <==> DeleteOpName(s.front.actual[k]) !in t.ops
  {
    ReachableInv(s);
    EntryFacts(s, k);
    SeenGrowsInRun(s, labels);
  }

  /** And so is a create. */
  lemma CreatesAreSteps(s: State, labels: seq<Label>, t: State, k: string)
    requires Reachable(s) && Exec(s, labels) == Some(t) && k in s.front.desired
    ensures Enabled(t, FireCreate(s.front.desired[k])) <==> CreateOpName(s.front.desired[k]) !in t.ops
  {
    ReachableInv(s);
    EntryFacts(s, k);
    SeenGrowsInRun(s, labels);
  }

  lemma EntryFacts(s: State, k: string)
    requires Inv(s)
    ensures k in s.front.actual ==> s.front.actual[k].Key() == k && s.front.actual[k] in s.front.seenActual
    ensures k in s.front.desired ==> s.front.desired[k].Key() == k && s.front.desired[k] in s.front.seenDesired
  {
  }

  /** A run of the controller: it moves on between two accesses of a pass, or not at all. */
  ghost predicate Runs(states: nat -> State) {
    Reachable(states(0)) && forall t: nat :: Moves(states(t), states(t + 1))
  }

  ghost predicate Moves(s: State, t: State) {
    s == t || exists l :: Enabled(s, l) && Apply(s, l) == t
  }

  function ActualOf(states: nat -> State): nat -> Snapshots { (t: nat) => states(t).front.actual }
  function DesiredOf(states: nat -> State): nat -> Snapshots { (t: nat) => states(t).front.desired }

  /** A run of the controller in which a pass crashes: the last step of a delete operation falls
      between the two lookups of a name that has been created anew. */
  lemma CrashReachable(o: Snapshot) returns (states: nat -> State, first: seq<string>, second: seq<string>)
    requires Fresh(o)
    ensures Runs(states) && Visits(first, ActualOf(states)(0))
    ensures Visits(second, DesiredOf(states)(When(0, |first|)))
    ensures exists i :: 0 <= i < |second| && Vanished(ActualOf(states), When(When(0, |first|), i), second[i])
  {
    var s, l := VanishingEntry(o);
    var labels :| Exec(Init, labels) == Some(s) && HarmlessRun(Init, labels);
    first, second := [o.Key()], [o.Key()];
    states := t => if t <= 4 || !Enabled(s, l) then s else Apply(s, l);
    assert Moves(s, Apply(s, l));
    assert When(0, |first|) == 3 && When(3, 0) == 4;
    assert o.Key() in s.front.actual.Keys && o.Key() in s.front.desired.Keys;
    assert Vanished(ActualOf(states), When(When(0, |first|), 0), second[0]);
  }

  /** When a pass looks at reachable states, however they change under it, nothing is to be repaired. */
  lemma NothingToRepair(states: nat -> State, t: nat, k: string)
    requires forall n: nat :: Reachable(states(n))
    ensures !Unrepaired(ActualOf(states), t, k)
  {
    if k in states(t + 1).front.actual { ActualEntries(states(t + 1), k); }
  }

  /** A pass over caches at rest fires nothing exactly when the reconciler has nothing to do. */
  lemma PassIdleExactlyWhen(f: Front)
    ensures Missing(f.actual, f.desired) == map[] == Missing(f.desired, f.actual) <==> f.actual.Keys == f.desired.Keys
  {
    if f.actual.Keys == f.desired.Keys {
      forall k ensures k !in Missing(f.actual, f.desired) && k !in Missing(f.desired, f.actual) {
        assert k in f.actual.Keys <==> k in f.desired.Keys;
      }
    } else {
      forall k ensures k in f.actual.Keys ==> k in f.desired.Keys || k in Missing(f.actual, f.desired) {}
      forall k ensures k in f.desired.Keys ==> k in f.actual.Keys || k in Missing(f.desired, f.actual) {}
    }
  }

  // ---- the populator ----

  ghost predicate Keyed(snapshots: map<string, Snapshot>) {
    forall k :: k in snapshots ==>
      snapshots[k].Key() == k && NoSlash(snapshots[k].namespace) && NoSlash(snapshots[k].name)
  }

  ghost predicate StoreKeyed(store: map<ObjectId, Snapshot>) {
    forall id :: id in store ==> store[id].Id() == id && NoSlash(id.0) && NoSlash(id.1)
  }

  method FindAndRemoveDeletedSnapshots(desired: SnapshotCache, store: map<ObjectId, Snapshot>)
    requires Keyed(desired.snapshots)
    modifies desired
    ensures forall k :: k in desired.snapshots <==>
              k in old(desired.snapshots) && old(desired.snapshots)[k].Id() in store
    ensures forall k :: k in desired.snapshots ==> desired.snapshots[k] == old(desired.snapshots)[k]
  {
    var all := desired.GetSnapshots();
    var left := all.Keys;
    while left != {}
      invariant left <= all.Keys
      invariant forall k :: k in desired.snapshots <==> k in all && (k in left || all[k].Id() in store)
      invariant forall k :: k in desired.snapshots ==> desired.snapshots[k] == all[k]
      decreases |left|
    {
      var k :| k in left;
      left := left - {k};
      if all[k].Id() !in store {
        desired.DeleteSnapshot(MakeSnapshotName(all[k].namespace, all[k].name));
      }
    }
  }

  method FindAndAddActiveSnapshots(desired: SnapshotCache, store: map<ObjectId, Snapshot>)
    requires Keyed(desired.snapshots) && StoreKeyed(store)
    modifies desired
    ensures Keyed(desired.snapshots)
    ensures forall k :: k in old(desired.snapshots) ==>
              k in desired.snapshots && desired.snapshots[k] == old(desired.snapshots)[k]
    ensures forall id :: id in store ==> store[id].Key() in desired.snapshots
    ensures forall k :: k in desired.snapshots && k !in old(desired.snapshots) ==>
              FromStore(desired.snapshots[k], store)
  {
    var left := store.Keys;
    while left != {}
      invariant left <= store.Keys && Keyed(desired.snapshots)
      invariant forall k :: k in old(desired.snapshots) ==>
                  k in desired.snapshots && desired.snapshots[k] == old(desired.snapshots)[k]
      invariant forall id :: id in store && id !in left ==> store[id].Key() in desired.snapshots
      invariant forall k :: k in desired.snapshots && k !in old(desired.snapshots) ==>
                  FromStore(desired.snapshots[k], store)
      decreases |left|
    {
      var id :| id in left;
      left := left - {id};
      if !desired.SnapshotExists(store[id].Key()) {
        desired.AddSnapshot(store[id]);
      }
    }
  }

  ghost predicate FromStore(o: Snapshot, store: map<ObjectId, Snapshot>) {
    o.Id() in store && store[o.Id()] == o
  }

  /** After a pass of the populator the desired names are the informer's, an entry that stays is the
      same object and a new one is the informer's. */
  method Populate(desired: SnapshotCache, store: map<ObjectId, Snapshot>)
    requires Keyed(desired.snapshots) && StoreKeyed(store)
    modifies desired
    ensures Keyed(desired.snapshots)
    ensures forall k :: k in desired.snapshots ==> desired.snapshots[k].Id() in store
    ensures forall id :: id in store ==>
              store[id].Key() in desired.snapshots && desired.snapshots[store[id].Key()].Id() == id
    ensures forall k :: k in desired.snapshots ==>
              desired.snapshots[k] ==
                if k in old(desired.snapshots) then old(desired.snapshots)[k] else store[desired.snapshots[k].Id()]
  {
    ghost var before := desired.snapshots;
    FindAndRemoveDeletedSnapshots(desired, store);
    ghost var mid := desired.snapshots;
    FindAndAddActiveSnapshots(desired, store);
    ghost var after := desired.snapshots;
    forall k | k in after && k in before && k !in mid ensures false {
      SameKeySameId(after[k], before[k]);
    }
    forall id | id in store ensures after[store[id].Key()].Id() == id {
      SameKeySameId(after[store[id].Key()], store[id]);
    }
  }
}
