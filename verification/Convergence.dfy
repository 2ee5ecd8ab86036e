/** Convergence of the controller once users have stopped: serving a name means that the populator
    removes it, or that a reconcile pass fires its operation, every call of the operation succeeds
    and the resulting watch events are delivered. Each service is a run of the transition system. */
module Convergence {
  import opened Wrappers
  import opened Faults
  import opened SnapshotNames
  import opened Controller
  import opened ControllerInvariant
  import opened InformerSync

  /** No event is pending and no operation is running. */
  ghost predicate Drained(s: State) {
    s.front.events == [] && s.ops == map[]
  }

  /** Drained, and the informer and the desired state of world have what the API server has. The
      desired state may have more. */
  ghost predicate Quiescent(s: State) {
    && Drained(s) && s.front.store == s.front.snaps
    && (forall id {:trigger Synced(s.front, id)} :: Synced(s.front, id))
  }

  /** A desired name is that of a snapshot on the API server. */
  predicate Backed(f: Front, k: string) {
    k in f.desired ==> f.desired[k].Id() in f.snaps
  }

  /** The names the populator or the reconciler acts on. */
  ghost predicate Needed(f: Front, k: string) {
    !Backed(f, k) || (k in f.desired) != (k in f.actual)
  }

  ghost predicate Settled(s: State) {
    forall k :: !Needed(s.front, k)
  }

  function Go(n: string, pick: DataName): Label { Advance(n, Ok, pick) }

  function BindLabels(o: Snapshot, pick: DataName): seq<Label> {
    var n := CreateOpName(o);
    [FireCreate(o)] + ([Go(n, 0)] + ([Go(n, 0)] + ([Go(n, 0)] + BindTailLabels(n, pick))))
  }

  function BindTailLabels(n: string, pick: DataName): seq<Label> {
    [Go(n, pick)] + ([Go(n, 0)] + [Deliver])
  }

  function ReadyLabels(o: Snapshot): seq<Label> {
    var n := CreateOpName(o);
    [FireCreate(o)] + ([Go(n, 0)] + ([Go(n, 0)] + []))
  }

  function StatusLabels(o: Snapshot): seq<Label> {
    var n := CreateOpName(o);
    [FireCreate(o)] + ([Go(n, 0)] + ([Go(n, 0)] + ([Go(n, 0)] + ([Go(n, 0)] + ([Go(n, 0)] + [])))))
  }

  function DeleteLabels(o: Snapshot, pick: DataName): seq<Label> {
    var n := DeleteOpName(o);
    [FireDelete(o)] + ([Go(n, pick)] + ([Go(n, 0)] + ([Go(n, 0)] + ([Go(n, 0)] + []))))
  }

  /** The run that serves name k; pick is the data object the by-name lookup returns. */
  function ServeLabels(s: State, k: string, pick: DataName): seq<Label>
    requires k in s.front.desired || k in s.front.actual
  {
    if !Backed(s.front, k) then [PopulatorRemove(s.front.desired[k])]
    else if k !in s.front.desired then DeleteLabels(s.front.actual[k], pick)
    else
      var o := s.front.desired[k];
      if o.dataName.None? then BindLabels(o, pick)
      else if o.dataName.value in s.back.data && s.back.data[o.dataName.value].ready then ReadyLabels(o)
      else StatusLabels(o)
  }

  ghost predicate Serves(s: State, k: string, pick: DataName, t: State) {
    Needed(s.front, k) && Exec(s, ServeLabels(s, k, pick)) == Some(t)
  }

  // ---- what each kind of service does ----

  function BackAfterPost(b: Back, o: Snapshot): Back {
    Post(AfterTaking(b), b.nextData, PendingData(o, b.nextBackend))
  }

  function BoundObject(f: Front, live: Snapshot, pick: DataName): Snapshot {
    live.(dataName := Some(pick), version := f.version)
  }

  function FrontAfterBind(f: Front, live: Snapshot, pick: DataName): Front {
    var o := BoundObject(f, live, pick);
    AddDesired(f.(snaps := f.snaps[o.Id() := o], version := f.version + 1,
                  store := f.store[o.Id() := o], seenStore := f.seenStore + {o}), o)
  }

  function BackAfterStatus(b: Back, d: DataName): Back
    requires d in b.data
  {
    if b.data[d].ready then b
    else SetReady(b.(completed := b.completed + {b.data[d].source}), d, b.data[d])
  }

  function BackAfterDelete(b: Back, d: DataName): Back
    requires d in b.data
  {
    RemoveData(Release(b, d, b.data[d].source), d)
  }

  /** The state while one operation runs. */
  function Running(f: Front, b: Back, n: string, op: Option<Op>): State {
    State(f, b, SetOp(map[], n, op))
  }

  /** One successful call of the only running operation. */
  lemma GoStep(f: Front, b: Back, n: string, op: Op, pick: DataName, rest: seq<Label>)
    ensures Exec(Running(f, b, n, Some(op)), [Go(n, pick)] + rest) ==
            if OpEnabled(f, b, op, Ok, pick) then
              var (c, next) := NextOp(f, b, op, Ok, pick);
              Exec(Running(NextFront(f, op, Ok), c, n, next), rest)
            else None
  {
    var s := Running(f, b, n, Some(op));
    assert s.ops == map[n := op];
    assert ([Go(n, pick)] + rest)[1..] == rest;
    if OpEnabled(f, b, op, Ok, pick) {
      var (c, next) := NextOp(f, b, op, Ok, pick);
      assert SetOp(s.ops, n, next) == SetOp(map[], n, next);
    }
  }

  lemma FireStep(s: State, l: Label, rest: seq<Label>)
    requires Enabled(s, l)
    ensures Exec(s, [l] + rest) == Exec(Apply(s, l), rest)
  {
    assert ([l] + rest)[1..] == rest;
  }

  lemma BindHead(f: Front, b: Back, n: string, o: Snapshot, tail: seq<Label>)
    requires b.nextData !in b.data && ParseSnapshotName(o.Key()) == Some(o.Id()) && o.Id() in f.snaps
    ensures Exec(Running(f, b, n, Some(CreateTake(o))), [Go(n, 0)] + ([Go(n, 0)] + ([Go(n, 0)] + tail))) ==
            Exec(Running(f, BackAfterPost(b, o), n, Some(BindLookup(o, f.snaps[o.Id()]))), tail)
  {
    TakeStep(f, b, n, o, [Go(n, 0)] + ([Go(n, 0)] + tail));
    AfterTake(f, b, n, o, tail);
  }

  lemma AfterTake(f: Front, b: Back, n: string, o: Snapshot, tail: seq<Label>)
    requires b.nextData !in b.data && ParseSnapshotName(o.Key()) == Some(o.Id()) && o.Id() in f.snaps
    ensures Exec(Running(f, AfterTaking(b), n, Some(CreatePost(o, b.nextBackend, b.nextData, 0))),
                 [Go(n, 0)] + ([Go(n, 0)] + tail)) ==
            Exec(Running(f, BackAfterPost(b, o), n, Some(BindLookup(o, f.snaps[o.Id()]))), tail)
  {
    PostAndGet(f, AfterTaking(b), n, o, b.nextBackend, b.nextData, tail);
  }

  function AfterTaking(b: Back): Back {
    Take(b).(nextData := b.nextData + 1)
  }

  lemma PostAndGet(f: Front, b: Back, n: string, o: Snapshot, source: BackendId, uid: DataName, tail: seq<Label>)
    requires uid !in b.data && ParseSnapshotName(o.Key()) == Some(o.Id()) && o.Id() in f.snaps
    ensures Exec(Running(f, b, n, Some(CreatePost(o, source, uid, 0))), [Go(n, 0)] + ([Go(n, 0)] + tail)) ==
            Exec(Running(f, Post(b, uid, PendingData(o, source)), n, Some(BindLookup(o, f.snaps[o.Id()]))), tail)
  {
    PostStep(f, b, n, o, source, uid, [Go(n, 0)] + tail);
    BindGetStep(f, Post(b, uid, PendingData(o, source)), n, o, tail);
  }

  lemma TakeStep(f: Front, b: Back, n: string, o: Snapshot, tail: seq<Label>)
    ensures Exec(Running(f, b, n, Some(CreateTake(o))), [Go(n, 0)] + tail) ==
            Exec(Running(f, AfterTaking(b), n, Some(CreatePost(o, b.nextBackend, b.nextData, 0))), tail)
  {
    GoStep(f, b, n, CreateTake(o), 0, tail);
  }

  lemma PostStep(f: Front, b: Back, n: string, o: Snapshot, source: BackendId, uid: DataName, tail: seq<Label>)
    requires uid !in b.data
    ensures Exec(Running(f, b, n, Some(CreatePost(o, source, uid, 0))), [Go(n, 0)] + tail) ==
            Exec(Running(f, Post(b, uid, PendingData(o, source)), n, Some(BindGet(o))), tail)
  {
    GoStep(f, b, n, CreatePost(o, source, uid, 0), 0, tail);
  }

  lemma BindGetStep(f: Front, c: Back, n: string, o: Snapshot, tail: seq<Label>)
    requires ParseSnapshotName(o.Key()) == Some(o.Id()) && o.Id() in f.snaps
    ensures Exec(Running(f, c, n, Some(BindGet(o))), [Go(n, 0)] + tail) ==
            Exec(Running(f, c, n, Some(BindLookup(o, f.snaps[o.Id()]))), tail)
  {
    GoStep(f, c, n, BindGet(o), 0, tail);
  }

  lemma BindTail(f: Front, c: Back, n: string, o: Snapshot, live: Snapshot, pick: DataName)
    requires live.Id() in f.snaps && f.snaps[live.Id()] == live && f.events == []
    requires live.Id() in f.store && f.store[live.Id()].dataName.None?
    ensures Exec(Running(f, c, n, Some(BindLookup(o, live))), BindTailLabels(n, pick)) ==
            if Finds(c.data, o.Key(), pick)
            then Some(State(FrontAfterBind(f, live, pick), c, map[])) else None
  {
    GoStep(f, c, n, BindLookup(o, live), pick, [Go(n, 0)] + [Deliver]);
    if Finds(c.data, o.Key(), pick) {
      GoStep(f, c, n, BindPut(o, live, pick), 0, [Deliver]);
      DeliverBound(f, c, live, pick);
    }
  }

  lemma DeliverBound(f: Front, c: Back, live: Snapshot, pick: DataName)
    requires f.events == [] && live.Id() in f.store && f.store[live.Id()].dataName.None?
    ensures Exec(State(Bind(f, live, pick), c, map[]), [Deliver]) ==
            Some(State(FrontAfterBind(f, live, pick), c, map[]))
  {
    var g := Bind(f, live, pick);
    var bound := BoundObject(f, live, pick);
    assert g.events == [Upserted(bound)] && g.events[1..] == [];
    assert Handle(g.(events := []), Upserted(bound)) == FrontAfterBind(f, live, pick);
  }

  /** What firing the operation of a desired but not actual name starts from. */
  ghost predicate Startable(s: State, o: Snapshot) {
    && s.ops == map[] && s.front.events == []
    && o in s.front.seenDesired && o.Key() !in s.front.actual
    && ParseSnapshotName(o.Key()) == Some(o.Id())
    && o.Id() in s.front.snaps && Agree(o, s.front.snaps[o.Id()])
    && o.Id() in s.front.store && s.front.store[o.Id()].dataName == o.dataName
    && s.back.nextData !in s.back.data
  }

  lemma DesiredIsStartable(s: State, o: Snapshot)
    requires Inv(s) && Quiescent(s) && o.Key() in s.front.desired && o == s.front.desired[o.Key()]
    requires o.Key() !in s.front.actual && Backed(s.front, o.Key())
    ensures Startable(s, o)
  {
    MakeThenParse(o.namespace, o.name);
    assert Synced(s.front, o.Id());
    assert s.front.snaps[o.Id()].Id() == o.Id();
    assert s.front.snaps[o.Id()].Key() == o.Key();
  }

  lemma FireCreateStep(s: State, o: Snapshot, rest: seq<Label>)
    requires Startable(s, o)
    ensures Exec(s, [FireCreate(o)] + rest) ==
            Exec(Running(s.front, s.back, CreateOpName(o),
                         Some(if o.dataName.Some? then StatusGet(o) else CreateTake(o))), rest)
  {
    FireStep(s, FireCreate(o), rest);
  }

  /** A create operation of an unbound snapshot: it takes a backend snapshot, posts data for it and
      binds the API object to whichever matching data the lookup returned. */
  lemma BindService(s: State, o: Snapshot, pick: DataName)
    requires Startable(s, o) && o.dataName.None?
    ensures var c := BackAfterPost(s.back, o);
            Exec(s, BindLabels(o, pick)) ==
            if Finds(c.data, o.Key(), pick)
            then Some(State(FrontAfterBind(s.front, s.front.snaps[o.Id()], pick), c, map[])) else None
  {
    var n, f, b := CreateOpName(o), s.front, s.back;
    FireCreateStep(s, o, [Go(n, 0)] + ([Go(n, 0)] + ([Go(n, 0)] + BindTailLabels(n, pick))));
    BindHead(f, b, n, o, BindTailLabels(n, pick));
    BindTail(f, BackAfterPost(b, o), n, o, f.snaps[o.Id()], pick);
  }

  /** A create operation of a bound snapshot whose data exists: it makes the data Ready and records
      the snapshot in the actual state of world. Without the data it does not get past its first call. */
  lemma StatusService(s: State, o: Snapshot)
    requires Startable(s, o) && o.dataName.Some?
    ensures var b, d := s.back, o.dataName.value;
            Exec(s, if d in b.data && b.data[d].ready then ReadyLabels(o) else StatusLabels(o)) ==
            if d in b.data then Some(State(AddActual(s.front, o), BackAfterStatus(b, d), map[])) else None
  {
    var n, f, b, d := CreateOpName(o), s.front, s.back, o.dataName.value;
    var four := [Go(n, 0)] + ([Go(n, 0)] + ([Go(n, 0)] + ([Go(n, 0)] + [])));
    if d in b.data && b.data[d].ready {
      FireCreateStep(s, o, [Go(n, 0)] + ([Go(n, 0)] + []));
      GoStep(f, b, n, StatusGet(o), 0, [Go(n, 0)] + []);
      GoStep(f, b, n, StatusAdd(o), 0, []);
    } else {
      FireCreateStep(s, o, [Go(n, 0)] + four);
      GoStep(f, b, n, StatusGet(o), 0, four);
      if d in b.data { StatusTail(f, b, n, o); }
    }
  }

  lemma StatusTail(f: Front, b: Back, n: string, o: Snapshot)
    requires o.dataName.Some? && o.dataName.value in b.data && !b.data[o.dataName.value].ready
    ensures var seen := b.data[o.dataName.value];
            Exec(Running(f, b, n, Some(StatusDescribe(o, seen))),
                 [Go(n, 0)] + ([Go(n, 0)] + ([Go(n, 0)] + ([Go(n, 0)] + [])))) ==
            Some(State(AddActual(f, o), BackAfterStatus(b, o.dataName.value), map[]))
  {
    var d := o.dataName.value;
    var c := b.(completed := b.completed + {b.data[d].source});
    GoStep(f, b, n, StatusDescribe(o, b.data[d]), 0, [Go(n, 0)] + ([Go(n, 0)] + ([Go(n, 0)] + [])));
    GoStep(f, c, n, StatusReget(o), 0, [Go(n, 0)] + ([Go(n, 0)] + []));
    GoStep(f, c, n, StatusPut(o, b.data[d]), 0, [Go(n, 0)] + []);
    GoStep(f, BackAfterStatus(b, d), n, StatusAdd(o), 0, []);
  }

  /** A delete operation: it removes the backend snapshot, the data the lookup returned and the
      actual-state entry. Without matching data it does not get past the lookup. */
  lemma DeleteService(s: State, o: Snapshot, pick: DataName)
    requires s.ops == map[] && o in s.front.seenActual
    ensures Exec(s, DeleteLabels(o, pick)) ==
            if Finds(s.back.data, o.Key(), pick)
            then Some(State(s.front.(actual := s.front.actual - {o.Key()}),
                            BackAfterDelete(s.back, pick), map[]))
            else None
  {
    var n, f, b := DeleteOpName(o), s.front, s.back;
    FireStep(s, FireDelete(o), [Go(n, pick)] + ([Go(n, 0)] + ([Go(n, 0)] + ([Go(n, 0)] + []))));
    GoStep(f, b, n, DeleteLookup(o), pick, [Go(n, 0)] + ([Go(n, 0)] + ([Go(n, 0)] + [])));
    if Finds(b.data, o.Key(), pick) { DeleteTail(f, b, n, o, pick); }
  }

  lemma DeleteTail(f: Front, b: Back, n: string, o: Snapshot, d: DataName)
    requires d in b.data
    ensures Exec(Running(f, b, n, Some(DeleteBackend(o, d, b.data[d]))),
                 [Go(n, 0)] + ([Go(n, 0)] + ([Go(n, 0)] + []))) ==
            Some(State(f.(actual := f.actual - {o.Key()}), BackAfterDelete(b, d), map[]))
  {
    var c := Release(b, d, b.data[d].source);
    GoStep(f, b, n, DeleteBackend(o, d, b.data[d]), 0, [Go(n, 0)] + ([Go(n, 0)] + []));
    GoStep(f, c, n, DeleteData(o, d), 0, [Go(n, 0)] + []);
    GoStep(f, RemoveData(c, d), n, DeleteActual(o), 0, []);
  }

  // ---- the theorem ----

  /** The names of the snapshots on the API server. */
  function Names(f: Front): set<string> {
    set id | id in f.snaps :: f.snaps[id].Key()
  }

  /** The actual names, the desired names and the API server's are the same, and every snapshot is
      bound to Ready data. */
  ghost predicate Goal(s: State) {
    && s.front.actual.Keys == s.front.desired.Keys == Names(s.front)
    && forall id :: id in s.front.snaps ==> BoundToReady(s.back, s.front.snaps[id])
  }

  ghost predicate BoundToReady(b: Back, o: Snapshot) {
    o.dataName.Some? && o.dataName.value in b.data && b.data[o.dataName.value].ready
  }

  /** What can be checked before the controller is left to itself: an actual snapshot is bound to
      Ready data, a bound one still has its data, and a name to be deleted still has data to find. */
  ghost predicate Healthy(s: State) {
    && (forall id {:trigger SnapHealthy(s, id)} :: SnapHealthy(s, id))
    && (forall k {:trigger NameHealthy(s, k)} :: NameHealthy(s, k))
  }

  ghost predicate SnapHealthy(s: State, id: ObjectId) {
    id in s.front.snaps ==>
      var o := s.front.snaps[id];
      && (o.Key() in s.front.actual ==> BoundToReady(s.back, o))
      && (o.dataName.Some? ==> o.dataName.value in s.back.data)
  }

  ghost predicate NameHealthy(s: State, k: string) {
    k in s.front.actual && (k !in s.front.desired || !Backed(s.front, k)) ==> HasData(s.back, k)
  }

  ghost predicate HasData(b: Back, k: string) {
    exists d :: Finds(b.data, k, d)
  }

  lemma SameHealth(s: State, t: State)
    requires forall id {:trigger SnapHealthy(s, id)} {:trigger SnapHealthy(t, id)} ::
               SnapHealthy(s, id) <==> SnapHealthy(t, id)
    requires forall k {:trigger NameHealthy(s, k)} {:trigger NameHealthy(t, k)} ::
               NameHealthy(s, k) <==> NameHealthy(t, k)
    ensures Healthy(s) <==> Healthy(t)
  {
  }

  function Unbound(f: Front): set<string> {
    set k | k in f.desired && Backed(f, k) && k !in f.actual && f.desired[k].dataName.None?
  }

  function Pending(f: Front): set<string> {
    set k | k in f.desired && Backed(f, k) && k !in f.actual && f.desired[k].dataName.Some?
  }

  function Obsolete(f: Front): set<string> {
    set k | k in f.actual && k !in f.desired
  }

  function Unbacked(f: Front): set<string> {
    set k | k in f.desired && !Backed(f, k)
  }

  function Measure(f: Front): nat {
    2 * |Unbound(f)| + |Pending(f)| + |Obsolete(f)| + 2 * |Unbacked(f)|
  }

  lemma BindMeasure(f: Front, live: Snapshot, pick: DataName)
    requires live.Key() in f.desired && f.desired[live.Key()].dataName.None? && live.Key() !in f.actual
    requires live.Id() in f.snaps && f.desired[live.Key()].Id() == live.Id()
    ensures Measure(FrontAfterBind(f, live, pick)) < Measure(f)
  {
    var g, k := FrontAfterBind(f, live, pick), live.Key();
    assert BoundObject(f, live, pick).Key() == k && BoundObject(f, live, pick).Id() == live.Id();
    assert g.snaps.Keys == f.snaps.Keys;
    assert forall j :: Backed(g, j) <==> Backed(f, j);
    assert Unbacked(g) == Unbacked(f);
    assert Unbound(g) == Unbound(f) - {k};
    assert Pending(g) == Pending(f) + {k};
    assert Obsolete(g) == Obsolete(f);
  }

  lemma StatusMeasure(f: Front, o: Snapshot)
    requires o.Key() in f.desired && f.desired[o.Key()].dataName.Some? && o.Key() !in f.actual
    requires Backed(f, o.Key())
    ensures Measure(AddActual(f, o)) < Measure(f)
  {
    var g, k := AddActual(f, o), o.Key();
    assert Unbacked(g) == Unbacked(f);
    assert Unbound(g) == Unbound(f);
    assert Pending(g) == Pending(f) - {k};
    assert Obsolete(g) == Obsolete(f);
  }

  lemma DeleteMeasure(f: Front, k: string)
    requires k in f.actual && k !in f.desired
    ensures Measure(f.(actual := f.actual - {k})) < Measure(f)
  {
    var g := f.(actual := f.actual - {k});
    assert Unbacked(g) == Unbacked(f);
    assert Unbound(g) == Unbound(f);
    assert Pending(g) == Pending(f);
    assert Obsolete(g) == Obsolete(f) - {k};
  }

  // ---- a removal by the populator ----

  function WithoutDesired(f: Front, k: string): Front {
    f.(desired := f.desired - {k})
  }

  lemma RemoveMeasure(f: Front, k: string)
    requires k in f.desired && !Backed(f, k)
    ensures Measure(WithoutDesired(f, k)) < Measure(f)
  {
    var g := WithoutDesired(f, k);
    assert forall j :: j != k ==> (Backed(g, j) <==> Backed(f, j));
    assert Unbacked(g) == Unbacked(f) - {k};
    assert Unbound(g) == Unbound(f);
    assert Pending(g) == Pending(f);
    assert Obsolete(g) == if k in f.actual then Obsolete(f) + {k} else Obsolete(f);
  }

  lemma NoSnapOfUnbacked(s: State, k: string)
    requires Inv(s) && k in s.front.desired && !Backed(s.front, k)
    ensures forall id :: id in s.front.snaps ==> s.front.snaps[id].Key() != k
  {
    var o := s.front.desired[k];
    assert o in s.front.seenDesired && SnapOk(s.back, o) && o.Key() == k;
    forall id | id in s.front.snaps ensures s.front.snaps[id].Key() != k {
      SameKeySameId(s.front.snaps[id], o);
    }
  }

  lemma RemoveStep(s: State, k: string, t: State)
    requires Inv(s) && Quiescent(s) && k in s.front.desired && !Backed(s.front, k)
    requires t == s.(front := WithoutDesired(s.front, k))
    ensures Quiescent(t) && Measure(t.front) < Measure(s.front)
    ensures Healthy(s) <==> Healthy(t)
  {
    RemoveMeasure(s.front, k);
    NoSnapOfUnbacked(s, k);
    RemoveQuiescent(s, k, t);
    RemoveHealth(s, k, t);
  }

  lemma RemoveQuiescent(s: State, k: string, t: State)
    requires Quiescent(s) && t == s.(front := WithoutDesired(s.front, k))
    requires forall id :: id in s.front.snaps ==> s.front.snaps[id].Key() != k
    ensures Quiescent(t)
  {
    forall id ensures Synced(t.front, id) { assert Synced(s.front, id); }
  }

  lemma RemoveHealth(s: State, k: string, t: State)
    requires k in s.front.desired && !Backed(s.front, k) && t == s.(front := WithoutDesired(s.front, k))
    ensures Healthy(s) <==> Healthy(t)
  {
    forall id ensures SnapHealthy(s, id) <==> SnapHealthy(t, id) {}
    forall j ensures NameHealthy(s, j) <==> NameHealthy(t, j) {}
    SameHealth(s, t);
  }

  /** The populator's test holds when it removes the name, and its removal is the whole service. */
  lemma RemoveService(s: State, k: string)
    requires Inv(s) && Quiescent(s) && k in s.front.desired && !Backed(s.front, k)
    ensures Exec(s, [PopulatorRemove(s.front.desired[k])]) == Some(s.(front := WithoutDesired(s.front, k)))
    ensures Harmless(s, PopulatorRemove(s.front.desired[k]))
  {
    var l := PopulatorRemove(s.front.desired[k]);
    assert s.front.desired[k].Key() == k && [l][1..] == [];
  }

  // ---- a delete ----

  /** Data that name k finds was posted for k alone. */
  lemma FindsOnlyOwn(s: State, k: string, d: DataName)
    requires Inv(s) && k in s.front.actual && Finds(s.back.data, k, d)
    ensures d in s.back.posted && s.back.posted[d].refName == k
  {
    var o := s.front.actual[k];
    assert o in s.front.seenActual;
    LookupIsExact(s.back, o, d);
  }

  lemma SnapRef(s: State, id: ObjectId)
    requires Inv(s) && id in s.front.snaps && s.front.snaps[id].dataName.Some?
    ensures var o := s.front.snaps[id];
            o.dataName.value in s.back.posted && s.back.posted[o.dataName.value].refName == o.Key()
  {
  }

  lemma DeleteHealth(s: State, k: string, pick: DataName, t: State)
    requires Inv(s) && Quiescent(s) && k in s.front.actual && k !in s.front.desired
    requires Finds(s.back.data, k, pick)
    requires t == State(s.front.(actual := s.front.actual - {k}), BackAfterDelete(s.back, pick), map[])
    ensures Healthy(s) <==> Healthy(t)
  {
    FindsOnlyOwn(s, k, pick);
    forall id ensures SnapHealthy(s, id) <==> SnapHealthy(t, id) { DeleteSnapHealth(s, k, pick, t, id); }
    forall j ensures NameHealthy(s, j) <==> NameHealthy(t, j) {
      if j == k {
        assert HasData(s.back, k);
      } else if j in s.front.actual {
        DeleteKeepsData(s, j, k, pick);
      }
    }
    SameHealth(s, t);
  }

  lemma DeleteSnapHealth(s: State, k: string, pick: DataName, t: State, id: ObjectId)
    requires Inv(s) && Quiescent(s) && k in s.front.actual && k !in s.front.desired
    requires pick in s.back.data && pick in s.back.posted && s.back.posted[pick].refName == k
    requires t == State(s.front.(actual := s.front.actual - {k}), BackAfterDelete(s.back, pick), map[])
    ensures SnapHealthy(s, id) <==> SnapHealthy(t, id)
  {
    assert Synced(s.front, id);
    if id in s.front.snaps && s.front.snaps[id].dataName.Some? { SnapRef(s, id); }
  }

  lemma DeleteKeepsData(s: State, j: string, k: string, pick: DataName)
    requires Inv(s) && j in s.front.actual && j != k
    requires pick in s.back.data && pick in s.back.posted && s.back.posted[pick].refName == k
    ensures HasData(s.back, j) <==> HasData(BackAfterDelete(s.back, pick), j)
  {
    var c := BackAfterDelete(s.back, pick);
    if HasData(s.back, j) {
      var d :| Finds(s.back.data, j, d);
      FindsOnlyOwn(s, j, d);
      assert Finds(c.data, j, d);
    }
    if HasData(c, j) {
      var d :| Finds(c.data, j, d);
      assert Finds(s.back.data, j, d);
    }
  }

  lemma DeleteQuiescent(s: State, k: string, c: Back)
    requires Quiescent(s)
    ensures Quiescent(State(s.front.(actual := s.front.actual - {k}), c, map[]))
  {
    var t := State(s.front.(actual := s.front.actual - {k}), c, map[]);
    forall id ensures Synced(t.front, id) { assert Synced(s.front, id); }
  }

  lemma DeleteStep(s: State, k: string, pick: DataName, t: State)
    requires Inv(s) && Quiescent(s) && k in s.front.actual && k !in s.front.desired
    requires Exec(s, DeleteLabels(s.front.actual[k], pick)) == Some(t)
    ensures Quiescent(t) && Measure(t.front) < Measure(s.front)
    ensures Healthy(s) <==> Healthy(t)
  {
    var o := s.front.actual[k];
    assert o.Key() == k && o in s.front.seenActual;
    DeleteService(s, o, pick);
    DeleteMeasure(s.front, k);
    DeleteQuiescent(s, k, BackAfterDelete(s.back, pick));
    DeleteHealth(s, k, pick, t);
  }

  // ---- a bind ----

  lemma SnapOfKey(s: State, id: ObjectId, o: Snapshot)
    requires Inv(s) && id in s.front.snaps && NoSlash(o.namespace) && NoSlash(o.name)
    requires s.front.snaps[id].Key() == o.Key()
    ensures id == o.Id()
  {
    SameKeySameId(s.front.snaps[id], o);
  }

  lemma BindQuiescent(s: State, live: Snapshot, pick: DataName, c: Back)
    requires Inv(s) && Quiescent(s) && live.Id() in s.front.snaps && live == s.front.snaps[live.Id()]
    ensures Quiescent(State(FrontAfterBind(s.front, live, pick), c, map[]))
  {
    var f, g := s.front, FrontAfterBind(s.front, live, pick);
    var bound := BoundObject(f, live, pick);
    assert bound.Key() == live.Key() && bound.Id() == live.Id();
    forall id ensures Synced(g, id) {
      assert Synced(f, id);
      if id in f.snaps && f.snaps[id].Key() == live.Key() { SnapOfKey(s, id, live); }
    }
  }

  lemma BindHealth(s: State, o: Snapshot, pick: DataName, t: State)
    requires Inv(s) && Inv(t) && Startable(s, o) && o.dataName.None?
    requires o.Key() in s.front.desired && s.front.desired[o.Key()] == o
    requires t == State(FrontAfterBind(s.front, s.front.snaps[o.Id()], pick), BackAfterPost(s.back, o), map[])
    requires pick in t.back.data
    ensures Healthy(s) <==> Healthy(t)
  {
    forall id ensures SnapHealthy(s, id) <==> SnapHealthy(t, id) { BindSnapHealth(s, o, pick, t, id); }
    forall k ensures NameHealthy(s, k) <==> NameHealthy(t, k) { BindNameHealth(s, o, pick, t, k); }
    SameHealth(s, t);
  }

  lemma BindNameHealth(s: State, o: Snapshot, pick: DataName, t: State, k: string)
    requires Inv(s) && Inv(t) && Startable(s, o)
    requires o.Key() in s.front.desired && s.front.desired[o.Key()] == o
    requires t == State(FrontAfterBind(s.front, s.front.snaps[o.Id()], pick), BackAfterPost(s.back, o), map[])
    ensures NameHealthy(s, k) <==> NameHealthy(t, k)
  {
    if k in s.front.actual {
      var bound := BoundObject(s.front, s.front.snaps[o.Id()], pick);
      assert bound.Key() == o.Key() && bound.Id() == o.Id();
      BindKeepsData(s, t, o, k);
    }
  }

  lemma BindSnapHealth(s: State, o: Snapshot, pick: DataName, t: State, id: ObjectId)
    requires Inv(s) && Startable(s, o) && o.dataName.None?
    requires t == State(FrontAfterBind(s.front, s.front.snaps[o.Id()], pick), BackAfterPost(s.back, o), map[])
    requires pick in t.back.data
    ensures SnapHealthy(s, id) <==> SnapHealthy(t, id)
  {
    if id == o.Id() {
      OwnBindHealth(s, o, pick, t);
    } else if id in s.front.snaps {
      if s.front.snaps[id].dataName.Some? {
        SnapRef(s, id);
        assert s.front.snaps[id].dataName.value < s.back.nextData;
      }
      OtherBindHealth(s, o, pick, t, id);
    }
  }

  lemma OwnBindHealth(s: State, o: Snapshot, pick: DataName, t: State)
    requires Startable(s, o) && o.dataName.None? && pick in t.back.data
    requires t == State(FrontAfterBind(s.front, s.front.snaps[o.Id()], pick), BackAfterPost(s.back, o), map[])
    ensures SnapHealthy(s, o.Id()) && SnapHealthy(t, o.Id())
  {
    var bound := BoundObject(s.front, s.front.snaps[o.Id()], pick);
    assert bound.Key() == s.front.snaps[o.Id()].Key() == o.Key() && bound.Id() == o.Id();
  }

  lemma OtherBindHealth(s: State, o: Snapshot, pick: DataName, t: State, id: ObjectId)
    requires Startable(s, o) && id in s.front.snaps && id != o.Id()
    requires s.front.snaps[id].dataName.Some? ==> s.front.snaps[id].dataName.value != s.back.nextData
    requires t == State(FrontAfterBind(s.front, s.front.snaps[o.Id()], pick), BackAfterPost(s.back, o), map[])
    ensures SnapHealthy(s, id) <==> SnapHealthy(t, id)
  {
    assert BoundObject(s.front, s.front.snaps[o.Id()], pick).Id() == o.Id();
  }

  lemma BindKeepsData(s: State, t: State, o: Snapshot, k: string)
    requires Inv(s) && Inv(t) && k in t.front.actual && k != o.Key() && t.back == BackAfterPost(s.back, o)
    ensures HasData(s.back, k) <==> HasData(t.back, k)
  {
    if HasData(s.back, k) {
      var d :| Finds(s.back.data, k, d);
      assert d in s.back.posted;
      assert Finds(t.back.data, k, d);
    }
    if HasData(t.back, k) {
      var d :| Finds(t.back.data, k, d);
      FindsOnlyOwn(t, k, d);
      assert Finds(s.back.data, k, d);
    }
  }

  lemma BindStep(s: State, o: Snapshot, pick: DataName, t: State)
    requires Inv(s) && Inv(t) && Quiescent(s) && Startable(s, o) && o.Key() in s.front.desired
    requires o == s.front.desired[o.Key()] && o.dataName.None? && Exec(s, BindLabels(o, pick)) == Some(t)
    ensures Quiescent(t) && Measure(t.front) < Measure(s.front)
    ensures Healthy(s) <==> Healthy(t)
  {
    BindService(s, o, pick);
    var live := s.front.snaps[o.Id()];
    assert live.Key() == o.Key() && live.Id() == o.Id();
    BindMeasure(s.front, live, pick);
    BindQuiescent(s, live, pick, BackAfterPost(s.back, o));
    BindHealth(s, o, pick, t);
  }

  // ---- a status update ----

  lemma StatusQuiescent(s: State, o: Snapshot, c: Back)
    requires Quiescent(s)
    ensures Quiescent(State(AddActual(s.front, o), c, map[]))
  {
    var g := AddActual(s.front, o);
    forall id ensures Synced(g, id) { assert Synced(s.front, id); }
  }

  lemma StatusHealth(s: State, o: Snapshot, t: State)
    requires Inv(s) && Startable(s, o) && o.Key() in s.front.desired && Backed(s.front, o.Key())
    requires o.dataName.Some? && o.dataName.value in s.back.data
    requires t == State(AddActual(s.front, o), BackAfterStatus(s.back, o.dataName.value), map[])
    ensures Healthy(s) <==> Healthy(t)
  {
    forall id ensures SnapHealthy(s, id) <==> SnapHealthy(t, id) { StatusSnapHealth(s, o, t, id); }
    forall k ensures NameHealthy(s, k) <==> NameHealthy(t, k) {
      assert Backed(s.front, k) <==> Backed(t.front, k);
      StatusKeepsData(s.back, o.dataName.value, k);
    }
    SameHealth(s, t);
  }

  lemma StatusSnapHealth(s: State, o: Snapshot, t: State, id: ObjectId)
    requires Inv(s) && Startable(s, o)
    requires o.dataName.Some? && o.dataName.value in s.back.data
    requires t == State(AddActual(s.front, o), BackAfterStatus(s.back, o.dataName.value), map[])
    ensures SnapHealthy(s, id) <==> SnapHealthy(t, id)
  {
    if id == o.Id() {
      OwnStatusHealth(s, o, t);
    } else if id in s.front.snaps {
      OtherSnap(s, o, id);
      OtherStatusHealth(s, o, t, id);
    }
  }

  /** Another snapshot has another name, and other data. */
  lemma OtherSnap(s: State, o: Snapshot, id: ObjectId)
    requires Inv(s) && Startable(s, o) && id in s.front.snaps && id != o.Id()
    ensures s.front.snaps[id].Key() != o.Key()
    ensures o.dataName.Some? ==> s.front.snaps[id].dataName != o.dataName
  {
    var p := s.front.snaps[o.Id()];
    assert p.Key() == o.Key() && p.Id() == o.Id();
    SameKeySameId(s.front.snaps[id], p);
    if o.dataName.Some? { SnapRef(s, o.Id()); }
    if s.front.snaps[id].dataName.Some? { SnapRef(s, id); }
  }

  lemma OwnStatusHealth(s: State, o: Snapshot, t: State)
    requires Startable(s, o) && o.dataName.Some? && o.dataName.value in s.back.data
    requires t == State(AddActual(s.front, o), BackAfterStatus(s.back, o.dataName.value), map[])
    ensures SnapHealthy(s, o.Id()) && SnapHealthy(t, o.Id())
  {
    assert s.front.snaps[o.Id()].Key() == o.Key() && s.front.snaps[o.Id()].dataName == o.dataName;
  }

  lemma OtherStatusHealth(s: State, o: Snapshot, t: State, id: ObjectId)
    requires o.dataName.Some? && o.dataName.value in s.back.data && id in s.front.snaps
    requires s.front.snaps[id].Key() != o.Key() && s.front.snaps[id].dataName != o.dataName
    requires t == State(AddActual(s.front, o), BackAfterStatus(s.back, o.dataName.value), map[])
    ensures SnapHealthy(s, id) <==> SnapHealthy(t, id)
  {
  }

  lemma StatusKeepsData(b: Back, d: DataName, k: string)
    requires d in b.data
    ensures HasData(b, k) <==> HasData(BackAfterStatus(b, d), k)
  {
    var c := BackAfterStatus(b, d);
    if HasData(b, k) { var e :| Finds(b.data, k, e); assert Finds(c.data, k, e); }
    if HasData(c, k) { var e :| Finds(c.data, k, e); assert Finds(b.data, k, e); }
  }

  lemma StatusStep(s: State, o: Snapshot, t: State)
    requires Inv(s) && Quiescent(s) && Startable(s, o) && o.Key() in s.front.desired
    requires o == s.front.desired[o.Key()] && o.dataName.Some?
    requires var b, d := s.back, o.dataName.value;
             Exec(s, if d in b.data && b.data[d].ready then ReadyLabels(o) else StatusLabels(o)) == Some(t)
    ensures Quiescent(t) && Measure(t.front) < Measure(s.front)
    ensures Healthy(s) <==> Healthy(t)
  {
    StatusService(s, o);
    StatusMeasure(s.front, o);
    StatusQuiescent(s, o, BackAfterStatus(s.back, o.dataName.value));
    StatusHealth(s, o, t);
  }

  // ---- all services ----

  /** A finished service leads to a quiescent state with a smaller measure and the same health. */
  lemma ServiceStep(s: State, k: string, pick: DataName, t: State)
    requires Inv(s) && Quiescent(s) && Serves(s, k, pick, t)
    ensures Inv(t) && Quiescent(t) && Measure(t.front) < Measure(s.front)
    ensures Healthy(s) <==> Healthy(t)
  {
    RunKeepsInv(s, ServeLabels(s, k, pick));
    if !Backed(s.front, k) {
      RemoveService(s, k);
      RemoveStep(s, k, t);
    } else if k !in s.front.desired {
      DeleteStep(s, k, pick, t);
    } else {
      var o := s.front.desired[k];
      assert o.Key() == k;
      DesiredIsStartable(s, o);
      if o.dataName.None? { BindStep(s, o, pick, t); } else { StatusStep(s, o, t); }
    }
  }

  /** While the state is healthy every name that needs service can be served. */
  lemma Progress(s: State, k: string) returns (pick: DataName)
    requires Inv(s) && Quiescent(s) && Healthy(s) && Needed(s.front, k)
    ensures Exec(s, ServeLabels(s, k, pick)).Some?
  {
    if !Backed(s.front, k) {
      pick := 0;
      RemoveService(s, k);
    } else if k !in s.front.desired {
      var o := s.front.actual[k];
      assert NameHealthy(s, k) && o.Key() == k && o in s.front.seenActual;
      pick :| Finds(s.back.data, k, pick);
      DeleteService(s, o, pick);
    } else {
      var o := s.front.desired[k];
      assert o.Key() == k;
      DesiredIsStartable(s, o);
      pick := s.back.nextData;
      if o.dataName.None? {
        BindService(s, o, pick);
      } else {
        assert SnapHealthy(s, o.Id());
        StatusService(s, o);
      }
    }
  }

  /** With nothing left to serve, the goal is reached exactly when the state is healthy. */
  lemma SettledGoal(s: State)
    requires Inv(s) && Quiescent(s)
    ensures Goal(s) ==> Healthy(s)
    ensures Healthy(s) && Settled(s) ==> Goal(s)
  {
    if Goal(s) {
      forall id ensures SnapHealthy(s, id) {}
      forall k ensures NameHealthy(s, k) { GoalBacked(s, k); }
    }
    if Healthy(s) && Settled(s) {
      SettledNames(s);
      forall id | id in s.front.snaps ensures BoundToReady(s.back, s.front.snaps[id]) {
        assert SnapHealthy(s, id) && Synced(s.front, id);
        assert !Needed(s.front, s.front.snaps[id].Key());
      }
    }
  }

  lemma GoalBacked(s: State, k: string)
    requires Inv(s) && Goal(s)
    ensures k in s.front.actual ==> k in s.front.desired && Backed(s.front, k)
  {
    if k in s.front.actual {
      assert k in s.front.actual.Keys && k in s.front.desired.Keys && k in Names(s.front);
      NamedIsBacked(s, k);
    }
  }

  lemma NamedIsBacked(s: State, k: string)
    requires Inv(s) && k in s.front.desired && k in Names(s.front)
    ensures Backed(s.front, k)
  {
    if !Backed(s.front, k) { NoSnapOfUnbacked(s, k); }
  }

  lemma SettledNames(s: State)
    requires Inv(s) && Quiescent(s) && Settled(s)
    ensures s.front.actual.Keys == s.front.desired.Keys == Names(s.front)
  {
    var f := s.front;
    forall k ensures k in f.actual.Keys <==> k in f.desired.Keys { assert !Needed(f, k); }
    forall k | k in f.desired ensures k in Names(f) {
      assert !Needed(f, k);
      var id := f.desired[k].Id();
      assert f.snaps[id].Id() == id && f.desired[k].Key() == k;
      assert f.snaps[id].Key() == k;
    }
    forall k | k in Names(f) ensures k in f.desired {
      var id :| id in f.snaps && f.snaps[id].Key() == k;
      assert Synced(f, id);
    }
  }

  /** A sequence of services, one name after another. */
  ghost predicate ServiceRun(run: seq<State>) {
    && run != []
    && forall i {:trigger ServedAt(run, i)} :: 0 <= i < |run| - 1 ==> ServedAt(run, i)
  }

  ghost predicate ServedAt(run: seq<State>, i: nat)
    requires i + 1 < |run|
  {
    Served(run[i], run[i + 1])
  }

  ghost predicate Served(s: State, t: State) {
    exists k, pick :: Serves(s, k, pick, t)
  }

  ghost predicate Calm(s: State) {
    Inv(s) && Quiescent(s)
  }

  /** Any run of services is at most as long as the measure it starts from, and it keeps health. */
  lemma {:induction false} ServiceRunBounded(run: seq<State>)
    requires ServiceRun(run) && Calm(run[0])
    ensures |run| - 1 + Measure(run[|run| - 1].front) <= Measure(run[0].front)
    ensures Calm(run[|run| - 1])
    ensures Healthy(run[0]) <==> Healthy(run[|run| - 1])
    decreases |run|
  {
    if |run| > 1 {
      assert ServedAt(run, 0);
      var k, pick :| Serves(run[0], k, pick, run[1]);
      ServiceStep(run[0], k, pick, run[1]);
      TailRun(run);
      ServiceRunBounded(run[1..]);
    }
  }

  lemma TailRun(run: seq<State>)
    requires ServiceRun(run) && |run| > 1
    ensures ServiceRun(run[1..])
  {
    forall i | 0 <= i < |run[1..]| - 1 ensures ServedAt(run[1..], i) { assert ServedAt(run, i + 1); }
  }

  lemma ConsRun(first: seq<State>, rest: seq<State>)
    requires ServiceRun(first) && |first| == 2 && ServiceRun(rest) && rest[0] == first[1]
    ensures ServiceRun([first[0]] + rest)
  {
    var run := [first[0]] + rest;
    assert ServedAt(first, 0);
    forall i | 0 <= i < |run| - 1 ensures ServedAt(run, i) {
      if i > 0 { assert ServedAt(rest, i - 1); }
    }
  }

  lemma ServeOnce(s: State) returns (first: seq<State>)
    requires Calm(s) && Healthy(s) && !Settled(s)
    ensures ServiceRun(first) && |first| == 2 && first[0] == s
    ensures Calm(first[1]) && Healthy(first[1]) && Measure(first[1].front) < Measure(s.front)
  {
    var k :| Needed(s.front, k);
    var pick := Progress(s, k);
    var t := Exec(s, ServeLabels(s, k, pick)).value;
    ServiceStep(s, k, pick, t);
    assert Serves(s, k, pick, t);
    first := [s, t];
  }

  lemma {:induction false} ServiceRunExists(s: State) returns (run: seq<State>)
    requires Calm(s) && Healthy(s)
    ensures ServiceRun(run) && run[0] == s && Goal(run[|run| - 1])
    decreases Measure(s.front)
  {
    if Settled(s) {
      run := [s];
      SettledGoal(s);
    } else {
      var first := ServeOnce(s);
      var rest := ServiceRunExists(first[1]);
      ConsRun(first, rest);
      run := [s] + rest;
    }
  }

  /** From a quiescent state with the invariant the goal can be reached if and only if the state is
      healthy, and then every run of services is bounded by the measure and ends, once no name needs
      service, in the goal. */
  lemma CalmConverges(s: State)
    requires Calm(s)
    ensures Healthy(s) <==> exists run: seq<State> :: ServiceRun(run) && run[0] == s && Goal(run[|run| - 1])
    ensures forall run: seq<State> :: ServiceRun(run) && run[0] == s ==>
              && |run| - 1 <= Measure(s.front)
              && (Healthy(s) && Settled(run[|run| - 1]) ==> Goal(run[|run| - 1]))
  {
    if Healthy(s) { var run := ServiceRunExists(s); }
    forall run: seq<State> | ServiceRun(run) && run[0] == s
      ensures |run| - 1 <= Measure(s.front)
      ensures Goal(run[|run| - 1]) ==> Healthy(s)
      ensures Healthy(s) && Settled(run[|run| - 1]) ==> Goal(run[|run| - 1])
    {
      ServiceRunBounded(run);
      SettledGoal(run[|run| - 1]);
    }
  }

  lemma DrainedIsCalm(s: State)
    requires HarmlessReachable(s) && Drained(s)
    ensures Calm(s)
  {
    var labels :| Exec(Init, labels) == Some(s) && HarmlessRun(Init, labels);
    ReachableInv(s);
    DrainedIsSynced(s, ("", ""));
    forall id ensures Synced(s.front, id) { DrainedIsSynced(s, id); }
  }

  /** Convergence, exactly: once users have stopped, events are delivered and operations have ended,
      the controller can reach the goal if and only if the state is healthy, and then it cannot fail
      to. */
  lemma ConvergesIffHealthy(s: State)
    requires HarmlessReachable(s) && Drained(s)
    ensures Healthy(s) <==> exists run: seq<State> :: ServiceRun(run) && run[0] == s && Goal(run[|run| - 1])
    ensures forall run: seq<State> :: ServiceRun(run) && run[0] == s ==>
              && |run| - 1 <= Measure(s.front)
              && (Healthy(s) && Settled(run[|run| - 1]) ==> Goal(run[|run| - 1]))
  {
    DrainedIsCalm(s);
    CalmConverges(s);
  }
}
