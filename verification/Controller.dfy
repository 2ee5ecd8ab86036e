/** The snapshot controller as a transition system: the API server's objects, the volume backend,
    the informer, the desired and actual state of world, and the create and delete operations in
    flight. Every remote call is its own step and may fail before or after taking effect. */
module Controller {
  import opened Wrappers
  import opened Faults
  import opened SnapshotNames

  type DataName = nat
  type BackendId = nat
  type ObjectId = (string, string)

  /** VolumeSnapshot. dataName is Spec.SnapshotDataName with None for the empty string;
      version is the object's resource version. */
  datatype Snapshot = Snapshot(namespace: string, name: string, pvc: string,
                               dataName: Option<DataName>, version: nat)
  {
    function Id(): ObjectId { (namespace, name) }
    function Key(): string { MakeSnapshotName(namespace, name) }
  }

  /** VolumeSnapshotData: the VolumeSnapshotRef, the backend source, and whether the first
      condition is Ready. */
  datatype SnapshotData = SnapshotData(refNamespace: string, refName: string,
                                       source: BackendId, ready: bool)

  /** Watch events, in the order the API server made the changes. */
  datatype Event = Upserted(obj: Snapshot) | Removed(obj: Snapshot)

  /** A running operation, at the call it is about to make. */
  datatype Op =
    // updateSnapshotDataStatus, the create operation of an already bound snapshot
    | StatusGet(snap: Snapshot)
    | StatusDescribe(snap: Snapshot, seen: SnapshotData)
    | StatusReget(snap: Snapshot)
    | StatusPut(snap: Snapshot, copy: SnapshotData)
    | StatusAdd(snap: Snapshot)
    // the create operation of a snapshot without data
    | CreateTake(snap: Snapshot)
    | CreatePost(snap: Snapshot, source: BackendId, uid: DataName, tries: nat)
    | BindGet(snap: Snapshot)
    | BindLookup(snap: Snapshot, live: Snapshot)
    | BindPut(snap: Snapshot, live: Snapshot, found: DataName)
    // the delete operation
    | DeleteLookup(snap: Snapshot)
    | DeleteBackend(snap: Snapshot, found: DataName, data: SnapshotData)
    | DeleteData(snap: Snapshot, found: DataName)
    | DeleteActual(snap: Snapshot)

  /** The VolumeSnapshot side: the API server's objects and the controller's views of them.
      The seen fields record every object a view has ever held. */
  datatype Front = Front(
    snaps: map<ObjectId, Snapshot>,        // VolumeSnapshot objects on the API server
    version: nat,                          // the next resource version
    events: seq<Event>,                    // watch events not yet delivered
    store: map<ObjectId, Snapshot>,        // the informer's store
    desired: map<string, Snapshot>,        // desired state of world
    actual: map<string, Snapshot>,         // actual state of world
    seenStore: set<Snapshot>,
    seenDesired: set<Snapshot>,
    seenActual: set<Snapshot>)

  /** The data side: VolumeSnapshotData objects, the volume backend, and their history. */
  datatype Back = Back(
    data: map<DataName, SnapshotData>,     // VolumeSnapshotData objects on the API server
    backend: set<BackendId>,               // snapshots the volume backend holds
    nextData: DataName,
    nextBackend: BackendId,
    posted: map<DataName, SnapshotData>,   // every data object ever posted
    reposted: set<DataName>,               // data names whose POST took effect more than once
    completed: set<BackendId>,             // sources the plugin has reported complete
    released: set<DataName>)               // data whose source a delete operation has removed

  /** ops holds the running operations by operation name. */
  datatype State = State(front: Front, back: Back, ops: map<string, Op>)

  const Init := State(Front(map[], 0, [], map[], map[], map[], {}, {}, {}),
                      Back(map[], {}, 0, 0, map[], {}, {}, {}),
                      map[])

  const POST_RETRIES: nat := 5

  datatype Label =
    | UserCreate(namespace: string, name: string, pvc: string)
    | UserDelete(id: ObjectId)
    | Deliver
    | PopulatorRemove(obj: Snapshot)
    | PopulatorAdd(obj: Snapshot)
    | FireCreate(obj: Snapshot)
    | FireDelete(obj: Snapshot)
    | Advance(op: string, outcome: Outcome, pick: DataName)

  function CreateOpName(o: Snapshot): string { "create" + o.Key() + o.pvc }
  function DeleteOpName(o: Snapshot): string { "delete" + o.Key() + o.pvc }

  /** getSnapshotDataFromSnapshotName's test on one list item. */
  predicate RefMatches(d: SnapshotData, key: string) {
    d.refNamespace + "/" + d.refName == key || d.refName == key
  }

  /** The lookup returns the first match of a list in no particular order: any match. */
  predicate Finds(data: map<DataName, SnapshotData>, key: string, d: DataName) {
    d in data && RefMatches(data[d], key)
  }

  /** The reconciler and the populator look first and act later, on copies taken earlier: the object
      they act on is one the source map held at some earlier time, and what they saw may no longer
      hold when they act. */
  predicate Enabled(s: State, l: Label) {
    var f := s.front;
    match l
    case UserCreate(ns, n, _) => NoSlash(ns) && NoSlash(n) && (ns, n) !in f.snaps
    case UserDelete(id) => id in f.snaps
    case Deliver => f.events != []
    case PopulatorRemove(o) => o in f.seenDesired
    case PopulatorAdd(o) => o in f.seenStore
    case FireCreate(o) => o in f.seenDesired && CreateOpName(o) !in s.ops
    case FireDelete(o) => o in f.seenActual && DeleteOpName(o) !in s.ops
    case Advance(op, outcome, pick) => op in s.ops && OpEnabled(f, s.back, s.ops[op], outcome, pick)
  }

  /** The same object up to its resource version. */
  predicate Agree(o: Snapshot, p: Snapshot) {
    o.(version := 0) == p.(version := 0)
  }

  /** The populator does not remove the name of an object that is stored again, nor put another
      object in its place. */
  predicate Harmless(s: State, l: Label) {
    var store := s.front.store;
    match l
    case PopulatorRemove(o) => o.Id() !in store
    case PopulatorAdd(o) => o.Id() in store ==> Agree(o, store[o.Id()])
    case _ => true
  }

  /** A call can succeed only when the API server would let it. */
  predicate OpEnabled(f: Front, b: Back, op: Op, outcome: Outcome, pick: DataName) {
    outcome.Ok? ==>
      match op
      case StatusGet(o) => o.dataName.Some? && o.dataName.value in b.data
      case StatusReget(o) => o.dataName.Some? && o.dataName.value in b.data
      case StatusPut(o, _) => o.dataName.Some? && o.dataName.value in b.data
      case CreatePost(_, _, uid, _) => uid !in b.data
      case BindGet(o) => ParseSnapshotName(o.Key()).Some? && ParseSnapshotName(o.Key()).value in f.snaps
      case BindLookup(o, _) => Finds(b.data, o.Key(), pick)
      case BindPut(_, live, _) => Current(f, live)
      case DeleteLookup(o) => Finds(b.data, o.Key(), pick)
      case DeleteData(_, d) => d in b.data
      case _ => true
  }

  /** The API server refuses a PUT whose body carries an outdated resource version. */
  predicate Current(f: Front, live: Snapshot) {
    live.Id() in f.snaps && f.snaps[live.Id()].version == live.version
  }

  function Apply(s: State, l: Label): State
    requires Enabled(s, l)
  {
    var f := s.front;
    match l
    case UserCreate(ns, n, pvc) => s.(front := Write(f, Snapshot(ns, n, pvc, None, f.version)))
    case UserDelete(id) =>
      s.(front := f.(snaps := f.snaps - {id}, events := f.events + [Removed(f.snaps[id])]))
    case Deliver => s.(front := Handle(f.(events := f.events[1..]), f.events[0]))
    case PopulatorRemove(o) => s.(front := f.(desired := f.desired - {o.Key()}))
    case PopulatorAdd(o) => s.(front := AddDesired(f, o))
    case FireCreate(o) =>
      s.(ops := s.ops[CreateOpName(o) := if o.dataName.Some? then StatusGet(o) else CreateTake(o)])
    case FireDelete(o) => s.(ops := s.ops[DeleteOpName(o) := DeleteLookup(o)])
    case Advance(n, outcome, pick) => AdvanceOp(s, n, outcome, pick)
  }

  /** The API server stores an object and tells the watchers. */
  function Write(f: Front, o: Snapshot): Front {
    f.(snaps := f.snaps[o.Id() := o], events := f.events + [Upserted(o)], version := f.version + 1)
  }

  function AddDesired(f: Front, o: Snapshot): Front {
    f.(desired := f.desired[o.Key() := o], seenDesired := f.seenDesired + {o})
  }

  /** The informer updates its store, then calls onSnapshotAdd, onSnapshotUpdate or
      onSnapshotDelete. */
  function Handle(f: Front, e: Event): Front {
    match e
    case Upserted(o) =>
      var g := f.(store := f.store[o.Id() := o], seenStore := f.seenStore + {o});
      if o.Id() in f.store && f.store[o.Id()].dataName == o.dataName then g else AddDesired(g, o)
    case Removed(o) => f.(store := f.store - {o.Id()}, desired := f.desired - {o.Key()})
  }

  function Bind(f: Front, live: Snapshot, d: DataName): Front {
    Write(f, live.(dataName := Some(d), version := f.version))
  }

  function AddActual(f: Front, o: Snapshot): Front {
    f.(actual := f.actual[o.Key() := o], seenActual := f.seenActual + {o})
  }

  function PendingData(o: Snapshot, source: BackendId): SnapshotData {
    SnapshotData("", o.Key(), source, false)
  }

  function Post(b: Back, d: DataName, obj: SnapshotData): Back {
    b.(data := b.data[d := obj],
       posted := b.posted[d := obj],
       reposted := if d in b.posted then b.reposted + {d} else b.reposted)
  }

  function Take(b: Back): Back {
    b.(backend := b.backend + {b.nextBackend}, nextBackend := b.nextBackend + 1)
  }

  function SetReady(b: Back, d: DataName, copy: SnapshotData): Back {
    b.(data := b.data[d := copy.(ready := true)])
  }

  function Release(b: Back, d: DataName, source: BackendId): Back {
    b.(backend := b.backend - {source}, released := b.released + {d})
  }

  function RemoveData(b: Back, d: DataName): Back {
    b.(data := b.data - {d})
  }

  /** Where an operation is after a call: the new data side and the next call, None at the end.
      A failed call ends the operation; only the POST is retried. */
  function NextOp(f: Front, b: Back, op: Op, outcome: Outcome, pick: DataName): (Back, Option<Op>)
    requires OpEnabled(f, b, op, outcome, pick)
  {
    var ok := outcome.Ok?;
    var effect := !outcome.FailBefore?;
    match op
    case StatusGet(o) =>
      (b, if !ok then None
          else if b.data[o.dataName.value].ready then Some(StatusAdd(o))
          else Some(StatusDescribe(o, b.data[o.dataName.value])))
    case StatusDescribe(o, seen) =>
      if ok then (b.(completed := b.completed + {seen.source}), Some(StatusReget(o))) else (b, None)
    case StatusReget(o) => (b, if ok then Some(StatusPut(o, b.data[o.dataName.value])) else None)
    case StatusPut(o, copy) =>
      var took := effect && o.dataName.Some? && o.dataName.value in b.data;
      (if took then SetReady(b, o.dataName.value, copy) else b, if ok then Some(StatusAdd(o)) else None)
    case StatusAdd(o) => (b, None)
    case CreateTake(o) =>
      if ok then (Take(b).(nextData := b.nextData + 1), Some(CreatePost(o, b.nextBackend, b.nextData, 0)))
      else (if effect then Take(b) else b, None)
    case CreatePost(o, source, uid, tries) =>
      (if effect && uid !in b.data then Post(b, uid, PendingData(o, source)) else b,
       if ok then Some(BindGet(o))
       else if tries + 1 < POST_RETRIES then Some(CreatePost(o, source, uid, tries + 1))
       else None)
    case BindGet(o) =>
      (b, if ok then Some(BindLookup(o, f.snaps[ParseSnapshotName(o.Key()).value])) else None)
    case BindLookup(o, live) => (b, if ok then Some(BindPut(o, live, pick)) else None)
    case BindPut(o, live, d) => (b, None)
    case DeleteLookup(o) => (b, if ok then Some(DeleteBackend(o, pick, b.data[pick])) else None)
    case DeleteBackend(o, d, data) =>
      (if effect then Release(b, d, data.source) else b, if ok then Some(DeleteData(o, d)) else None)
    case DeleteData(o, d) =>
      (if effect then RemoveData(b, d) else b, if ok then Some(DeleteActual(o)) else None)
    case DeleteActual(o) => (b, None)
  }

  /** What a call changes on the VolumeSnapshot side. */
  function NextFront(f: Front, op: Op, outcome: Outcome): Front {
    match op
    case StatusAdd(o) => AddActual(f, o)
    case BindPut(_, live, d) => if !outcome.FailBefore? && Current(f, live) then Bind(f, live, d) else f
    case DeleteActual(o) => f.(actual := f.actual - {o.Key()})
    case _ => f
  }

  function SetOp(ops: map<string, Op>, n: string, op: Option<Op>): map<string, Op> {
    match op
    case Some(o) => ops[n := o]
    case None => ops - {n}
  }

  function AdvanceOp(s: State, n: string, outcome: Outcome, pick: DataName): State
    requires n in s.ops && OpEnabled(s.front, s.back, s.ops[n], outcome, pick)
  {
    var (b, next) := NextOp(s.front, s.back, s.ops[n], outcome, pick);
    State(NextFront(s.front, s.ops[n], outcome), b, SetOp(s.ops, n, next))
  }

  /** Runs a list of labels; None when some label is not enabled where it stands. */
  function Exec(s: State, labels: seq<Label>): Option<State>
    decreases |labels|
  {
    if labels == [] then Some(s)
    else if !Enabled(s, labels[0]) then None
    else Exec(Apply(s, labels[0]), labels[1..])
  }

  ghost predicate Reachable(s: State) {
    exists labels :: Exec(Init, labels) == Some(s)
  }

  /** Every step of the run was harmless. */
  ghost predicate HarmlessRun(s: State, labels: seq<Label>)
    decreases |labels|
  {
    labels != [] && Enabled(s, labels[0]) ==>
      Harmless(s, labels[0]) && HarmlessRun(Apply(s, labels[0]), labels[1..])
  }

  ghost predicate HarmlessReachable(s: State) {
    exists labels :: Exec(Init, labels) == Some(s) && HarmlessRun(Init, labels)
  }
}
