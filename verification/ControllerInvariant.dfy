/** The inductive invariant of the controller and what follows from it in every reachable state. */
module ControllerInvariant {
  import opened Wrappers
  import opened Faults
  import opened SnapshotNames
  import opened Controller

  ghost predicate BoundTo(b: Back, o: Snapshot, d: DataName) {
    d in b.posted && b.posted[d].refName == o.Key()
  }

  /** A VolumeSnapshot seen anywhere: if it is bound, the data object it names was posted for it. */
  ghost predicate SnapOk(b: Back, o: Snapshot) {
    && NoSlash(o.namespace) && NoSlash(o.name)
    && (o.dataName.Some? ==> BoundTo(b, o, o.dataName.value))
  }

  ghost predicate SameSpec(a: SnapshotData, b: SnapshotData) {
    a.(ready := false) == b.(ready := false)
  }

  ghost predicate PostedOk(b: Back) {
    && (forall d :: d in b.posted ==>
          && d < b.nextData && b.posted[d].refNamespace == ""
          && IsSnapshotName(b.posted[d].refName)
          && b.posted[d].source < b.nextBackend)
    && (forall d, e :: d in b.posted && e in b.posted && b.posted[d].source == b.posted[e].source ==> d == e)
  }

  ghost predicate DataOk(b: Back) {
    forall d :: d in b.data ==>
      && d in b.posted && SameSpec(b.data[d], b.posted[d])
      && (b.data[d].ready ==> b.data[d].source in b.completed)
      && (b.data[d].source in b.backend || d in b.released)
  }

  ghost predicate BackOk(b: Back) {
    PostedOk(b) && DataOk(b)
  }

  /** What holds of the data a snapshot is bound to once the snapshot may enter actual. */
  ghost predicate ReadyIfPresent(b: Back, d: DataName) {
    d in b.data && d !in b.reposted ==> b.data[d].ready
  }

  ghost predicate FrontOk(b: Back, f: Front) {
    && (forall id :: id in f.snaps ==> f.snaps[id].Id() == id && SnapOk(b, f.snaps[id]))
    && (forall id :: id in f.store ==> f.store[id].Id() == id && f.store[id] in f.seenStore)
    && (forall k :: k in f.desired ==> f.desired[k].Key() == k && f.desired[k] in f.seenDesired)
    && (forall k :: k in f.actual ==> f.actual[k].Key() == k && f.actual[k] in f.seenActual
                                      && f.actual[k].dataName.Some?
                                      && ReadyIfPresent(b, f.actual[k].dataName.value))
    && (forall e :: e in f.events ==> SnapOk(b, e.obj))
    && (forall o :: o in f.seenStore ==> SnapOk(b, o))
    && (forall o :: o in f.seenDesired ==> SnapOk(b, o))
    && (forall o :: o in f.seenActual ==> SnapOk(b, o) && o.dataName.Some?)
  }

  ghost predicate OpOk(b: Back, op: Op) {
    && SnapOk(b, op.snap)
    && match op
       case StatusGet(o) => o.dataName.Some?
       case StatusDescribe(o, seen) => o.dataName.Some? && seen.source == b.posted[o.dataName.value].source
       case StatusReget(o) => o.dataName.Some? && b.posted[o.dataName.value].source in b.completed
       case StatusPut(o, copy) =>
         && o.dataName.Some? && SameSpec(copy, b.posted[o.dataName.value])
         && copy.source in b.completed
       case StatusAdd(o) => o.dataName.Some? && ReadyIfPresent(b, o.dataName.value)
       case CreatePost(o, source, uid, _) => PostOk(b, o, source, uid)
       case BindLookup(o, live) => SnapOk(b, live) && live.Key() == o.Key()
       case BindPut(o, live, d) => SnapOk(b, live) && live.Key() == o.Key() && BoundTo(b, o, d)
       case DeleteBackend(_, d, data) => d in b.posted && data.source == b.posted[d].source
       case _ => true
  }

  ghost predicate PostOk(b: Back, o: Snapshot, source: BackendId, uid: DataName) {
    && source < b.nextBackend && uid < b.nextData
    && (uid in b.posted ==> b.posted[uid] == PendingData(o, source))
    && (forall d :: d in b.posted && b.posted[d].source == source ==> d == uid)
    && (source in b.backend || uid in b.released)
  }

  /** Two operations that are posting never share a source or a data name. */
  ghost predicate Apart(a: Op, b: Op) {
    a.CreatePost? && b.CreatePost? ==> a.source != b.source && a.uid != b.uid
  }

  ghost predicate OpsOk(b: Back, ops: map<string, Op>) {
    && (forall n :: n in ops ==> OpOk(b, ops[n]))
    && (forall n, m :: n in ops && m in ops && n != m ==> Apart(ops[n], ops[m]))
  }

  ghost predicate Inv(s: State) {
    BackOk(s.back) && FrontOk(s.back, s.front) && OpsOk(s.back, s.ops)
  }

  /** How the data side may evolve without disturbing what others know about it. */
  ghost predicate Grows(b: Back, c: Back) {
    && (forall d :: d in b.posted ==> d in c.posted && c.posted[d] == b.posted[d])
    && b.completed <= c.completed && b.released <= c.released
    && b.nextBackend <= c.nextBackend && b.nextData <= c.nextData
    && (forall d :: d in b.posted && ReadyIfPresent(b, d) ==> ReadyIfPresent(c, d))
    && (forall x :: x in b.backend && x !in c.backend ==>
          exists d :: d in c.posted && c.posted[d].source == x && d in c.released)
  }

  lemma FrontGrows(b: Back, c: Back, f: Front)
    requires Grows(b, c) && FrontOk(b, f)
    ensures FrontOk(c, f)
  {
  }

  lemma OpGrows(b: Back, c: Back, op: Op)
    requires Grows(b, c) && OpOk(b, op)
    requires op.CreatePost? ==>
               && (forall d :: d in c.posted && c.posted[d].source == op.source ==> d == op.uid)
               && (op.uid in c.posted ==> c.posted[op.uid] == PendingData(op.snap, op.source))
    ensures OpOk(c, op)
  {
  }

  /** Growth that posts nothing keeps every operation's knowledge. */
  lemma OpsGrow(b: Back, c: Back, ops: map<string, Op>)
    requires Grows(b, c) && c.posted == b.posted && OpsOk(b, ops)
    ensures OpsOk(c, ops)
  {
    forall n | n in ops ensures OpOk(c, ops[n]) { OpGrows(b, c, ops[n]); }
  }

  // ---- the data side, one effect at a time ----

  lemma CompleteOk(b: Back, x: BackendId)
    requires BackOk(b)
    ensures BackOk(b.(completed := b.completed + {x})) && Grows(b, b.(completed := b.completed + {x}))
  {
  }

  lemma SetReadyOk(b: Back, d: DataName, copy: SnapshotData)
    requires BackOk(b) && d in b.data && SameSpec(copy, b.posted[d]) && copy.source in b.completed
    ensures BackOk(SetReady(b, d, copy)) && Grows(b, SetReady(b, d, copy))
  {
    SetReadyDataOk(b, d, copy);
  }

  lemma SetReadyDataOk(b: Back, d: DataName, copy: SnapshotData)
    requires DataOk(b) && d in b.data && SameSpec(copy, b.posted[d]) && copy.source in b.completed
    ensures DataOk(SetReady(b, d, copy))
  {
    var c := SetReady(b, d, copy);
    assert c.data[d].source == b.posted[d].source == b.data[d].source;
  }

  lemma RemoveDataOk(b: Back, d: DataName)
    requires BackOk(b)
    ensures BackOk(RemoveData(b, d)) && Grows(b, RemoveData(b, d))
  {
  }

  lemma TakeOk(b: Back, next: DataName)
    requires BackOk(b) && b.nextData <= next
    ensures BackOk(Take(b).(nextData := next)) && Grows(b, Take(b).(nextData := next))
  {
  }

  lemma ReleaseOk(b: Back, d: DataName)
    requires BackOk(b) && d in b.posted
    ensures BackOk(Release(b, d, b.posted[d].source)) && Grows(b, Release(b, d, b.posted[d].source))
  {
    var c := Release(b, d, b.posted[d].source);
    assert d in c.posted && d in c.released;
  }

  lemma PostIsPosted(b: Back, o: Snapshot, source: BackendId, uid: DataName)
    requires PostedOk(b) && SnapOk(b, o) && PostOk(b, o, source, uid)
    ensures PostedOk(Post(b, uid, PendingData(o, source)))
  {
    assert IsSnapshotName(o.Key());
  }

  lemma PostIsData(b: Back, o: Snapshot, source: BackendId, uid: DataName)
    requires DataOk(b) && PostOk(b, o, source, uid) && uid !in b.data
    ensures var c := Post(b, uid, PendingData(o, source)); DataOk(c) && Grows(b, c)
  {
  }

  lemma PostedPendingOk(b: Back, o: Snapshot, source: BackendId, uid: DataName)
    requires BackOk(b) && SnapOk(b, o) && PostOk(b, o, source, uid) && uid !in b.data
    ensures var c := Post(b, uid, PendingData(o, source)); BackOk(c) && Grows(b, c)
  {
    PostIsPosted(b, o, source, uid);
    PostIsData(b, o, source, uid);
  }

  lemma PostKeepsOps(b: Back, ops: map<string, Op>, n: string)
    requires BackOk(b) && OpsOk(b, ops) && n in ops && ops[n].CreatePost? && ops[n].uid !in b.data
    ensures OpsOk(Post(b, ops[n].uid, PendingData(ops[n].snap, ops[n].source)), ops)
  {
    var op := ops[n];
    var c := Post(b, op.uid, PendingData(op.snap, op.source));
    assert OpOk(b, op);
    PostedPendingOk(b, op.snap, op.source, op.uid);
    forall m | m in ops ensures OpOk(c, ops[m]) {
      assert m != n ==> Apart(op, ops[m]);
      assert OpOk(b, ops[m]);
      OpGrows(b, c, ops[m]);
    }
  }

  /** The by-name lookup only finds data posted for exactly this name. */
  lemma LookupIsExact(b: Back, o: Snapshot, d: DataName)
    requires BackOk(b) && NoSlash(o.namespace) && NoSlash(o.name)
    requires Finds(b.data, o.Key(), d)
    ensures BoundTo(b, o, d)
  {
    assert IsSnapshotName(o.Key());
    PrefixedNameIsNoName(b.posted[d].refName);
  }

  /** Both ways of referring to a snapshot are understood: its namespace and name in their own fields,
      or its whole name in the name field. */
  lemma RefMatchesExactly(d: SnapshotData, ns: string, n: string)
    requires NoSlash(ns) && NoSlash(n)
    ensures RefMatches(d, MakeSnapshotName(ns, n)) <==>
            (d.refNamespace == ns && d.refName == n) || d.refName == MakeSnapshotName(ns, n)
  {
    var key, ref := MakeSnapshotName(ns, n), d.refNamespace + "/" + d.refName;
    if ref == key {
      assert ref[|d.refNamespace|] == '/' && key[|ns|] == '/';
      assert forall i :: 0 <= i < |ns| ==> key[i] == ns[i];
      assert forall i :: |ns| < i < |key| ==> key[i] == n[i - |ns| - 1];
      assert |d.refNamespace| == |ns|;
      assert ref[..|ns|] == d.refNamespace && key[..|ns|] == ns;
      assert ref[|ns| + 1..] == d.refName && key[|ns| + 1..] == n;
    }
  }

  /** Operations of one snapshot name collide exactly when they are of one kind and for one claim. */
  lemma OpNamesExactly(o: Snapshot, p: Snapshot)
    requires o.Key() == p.Key()
    ensures CreateOpName(o) == CreateOpName(p) <==> o.pvc == p.pvc
    ensures DeleteOpName(o) == DeleteOpName(p) <==> o.pvc == p.pvc
    ensures CreateOpName(o) != DeleteOpName(p)
  {
    var k := |"create" + o.Key()|;
    assert CreateOpName(o)[k..] == o.pvc && CreateOpName(p)[k..] == p.pvc;
    assert DeleteOpName(o)[k..] == o.pvc && DeleteOpName(p)[k..] == p.pvc;
    assert CreateOpName(o)[0] != DeleteOpName(p)[0];
  }

  // ---- operations ----

  lemma SetOpOk(b: Back, ops: map<string, Op>, n: string, op: Option<Op>)
    requires OpsOk(b, ops)
    requires op.Some? ==> OpOk(b, op.value)
    requires op.Some? ==> forall m :: m in ops && m != n ==> Apart(op.value, ops[m]) && Apart(ops[m], op.value)
    ensures OpsOk(b, SetOp(ops, n, op))
  {
  }

  /** The data side and the next call are fine after any call. */
  lemma NextOpOk(s: State, n: string, outcome: Outcome, pick: DataName)
    requires Inv(s) && n in s.ops && OpEnabled(s.front, s.back, s.ops[n], outcome, pick)
    ensures var (c, next) := NextOp(s.front, s.back, s.ops[n], outcome, pick);
            BackOk(c) && Grows(s.back, c) && OpsOk(c, s.ops) && (next.Some? ==> OpOk(c, next.value))
  {
    var op := s.ops[n];
    assert OpOk(s.back, op);
    if op.StatusGet? || op.StatusDescribe? || op.StatusReget? || op.StatusPut? || op.StatusAdd? {
      StatusOk(s, n, outcome, pick);
    } else if op.CreateTake? || op.CreatePost? {
      CreateOk(s, n, outcome, pick);
    } else if op.BindGet? || op.BindLookup? || op.BindPut? {
      BindOpOk(s, n, outcome, pick);
    } else {
      DeleteOk(s, n, outcome, pick);
    }
  }

  lemma StatusOk(s: State, n: string, outcome: Outcome, pick: DataName)
    requires Inv(s) && n in s.ops && OpEnabled(s.front, s.back, s.ops[n], outcome, pick)
    requires OpOk(s.back, s.ops[n])
    requires var op := s.ops[n];
             op.StatusGet? || op.StatusDescribe? || op.StatusReget? || op.StatusPut? || op.StatusAdd?
    ensures var (c, next) := NextOp(s.front, s.back, s.ops[n], outcome, pick);
            BackOk(c) && Grows(s.back, c) && OpsOk(c, s.ops) && (next.Some? ==> OpOk(c, next.value))
  {
    var b, op := s.back, s.ops[n];
    var (c, next) := NextOp(s.front, b, op, outcome, pick);
    if op.StatusDescribe? && outcome.Ok? {
      CompleteOk(b, op.seen.source);
      OpsGrow(b, c, s.ops);
    } else if op.StatusPut? && c != b {
      SetReadyOk(b, op.snap.dataName.value, op.copy);
      OpsGrow(b, c, s.ops);
    }
  }

  lemma CreateOk(s: State, n: string, outcome: Outcome, pick: DataName)
    requires Inv(s) && n in s.ops && OpEnabled(s.front, s.back, s.ops[n], outcome, pick)
    requires OpOk(s.back, s.ops[n]) && (s.ops[n].CreateTake? || s.ops[n].CreatePost?)
    ensures var (c, next) := NextOp(s.front, s.back, s.ops[n], outcome, pick);
            BackOk(c) && Grows(s.back, c) && OpsOk(c, s.ops) && (next.Some? ==> OpOk(c, next.value))
  {
    var b, op := s.back, s.ops[n];
    var (c, next) := NextOp(s.front, b, op, outcome, pick);
    if op.CreateTake? {
      if !outcome.FailBefore? {
        TakeOk(b, c.nextData);
        OpsGrow(b, c, s.ops);
        assert c == Take(b).(nextData := c.nextData);
      }
    } else if op.uid !in b.data && !outcome.FailBefore? {
      PostedPendingOk(b, op.snap, op.source, op.uid);
      PostKeepsOps(b, s.ops, n);
      assert OpOk(c, op);
    }
  }

  lemma BindOpOk(s: State, n: string, outcome: Outcome, pick: DataName)
    requires Inv(s) && n in s.ops && OpEnabled(s.front, s.back, s.ops[n], outcome, pick)
    requires OpOk(s.back, s.ops[n]) && (s.ops[n].BindGet? || s.ops[n].BindLookup? || s.ops[n].BindPut?)
    ensures var (c, next) := NextOp(s.front, s.back, s.ops[n], outcome, pick);
            BackOk(c) && Grows(s.back, c) && OpsOk(c, s.ops) && (next.Some? ==> OpOk(c, next.value))
  {
    var o := s.ops[n].snap;
    if outcome.Ok? {
      MakeThenParse(o.namespace, o.name);
      if s.ops[n].BindLookup? { LookupIsExact(s.back, o, pick); }
    }
  }

  lemma DeleteOk(s: State, n: string, outcome: Outcome, pick: DataName)
    requires Inv(s) && n in s.ops && OpEnabled(s.front, s.back, s.ops[n], outcome, pick)
    requires OpOk(s.back, s.ops[n])
    requires var op := s.ops[n];
             op.DeleteLookup? || op.DeleteBackend? || op.DeleteData? || op.DeleteActual?
    ensures var (c, next) := NextOp(s.front, s.back, s.ops[n], outcome, pick);
            BackOk(c) && Grows(s.back, c) && OpsOk(c, s.ops) && (next.Some? ==> OpOk(c, next.value))
  {
    var b, op := s.back, s.ops[n];
    var (c, next) := NextOp(s.front, b, op, outcome, pick);
    if op.DeleteBackend? && !outcome.FailBefore? {
      ReleaseOk(b, op.found);
      OpsGrow(b, c, s.ops);
    } else if op.DeleteData? && !outcome.FailBefore? {
      RemoveDataOk(b, op.found);
      OpsGrow(b, c, s.ops);
    }
  }

  /** The next call of an operation stays apart from every other operation. */
  lemma NextOpApart(s: State, n: string, m: string, outcome: Outcome, pick: DataName)
    requires OpsOk(s.back, s.ops) && n in s.ops && OpEnabled(s.front, s.back, s.ops[n], outcome, pick)
    requires m in s.ops && m != n
    ensures var (_, next) := NextOp(s.front, s.back, s.ops[n], outcome, pick);
            next.Some? ==> Apart(next.value, s.ops[m]) && Apart(s.ops[m], next.value)
  {
    assert Apart(s.ops[n], s.ops[m]) && OpOk(s.back, s.ops[m]);
  }

  lemma NextFrontOk(s: State, n: string, outcome: Outcome)
    requires Inv(s) && n in s.ops
    ensures FrontOk(s.back, NextFront(s.front, s.ops[n], outcome))
  {
    var op := s.ops[n];
    assert OpOk(s.back, op);
    if op.BindPut? {
      assert Bind(s.front, op.live, op.found) ==
             Write(s.front, op.live.(dataName := Some(op.found), version := s.front.version));
      WriteOk(s.back, s.front, op.live.(dataName := Some(op.found), version := s.front.version));
    }
  }

  lemma WriteOk(b: Back, f: Front, o: Snapshot)
    requires FrontOk(b, f) && SnapOk(b, o)
    ensures FrontOk(b, Write(f, o))
  {
  }

  lemma OpStepKeepsInv(s: State, n: string, outcome: Outcome, pick: DataName)
    requires Inv(s) && n in s.ops && OpEnabled(s.front, s.back, s.ops[n], outcome, pick)
    ensures Inv(AdvanceOp(s, n, outcome, pick))
  {
    var (c, next) := NextOp(s.front, s.back, s.ops[n], outcome, pick);
    NextOpOk(s, n, outcome, pick);
    NextFrontOk(s, n, outcome);
    FrontGrows(s.back, c, NextFront(s.front, s.ops[n], outcome));
    forall m | m in s.ops && m != n
      ensures next.Some? ==> Apart(next.value, s.ops[m]) && Apart(s.ops[m], next.value)
    {
      NextOpApart(s, n, m, outcome, pick);
    }
    SetOpOk(c, s.ops, n, next);
  }

  // ---- users, informer, populator and reconciler ----

  lemma HandleOk(b: Back, f: Front, e: Event)
    requires FrontOk(b, f) && SnapOk(b, e.obj)
    ensures FrontOk(b, Handle(f, e))
  {
  }

  lemma AddDesiredOk(b: Back, f: Front, o: Snapshot)
    requires FrontOk(b, f) && SnapOk(b, o)
    ensures FrontOk(b, AddDesired(f, o))
  {
  }

  lemma FewerEventsOk(b: Back, f: Front, events: seq<Event>)
    requires FrontOk(b, f) && forall e :: e in events ==> e in f.events
    ensures FrontOk(b, f.(events := events))
  {
  }

  lemma UserDeleteOk(b: Back, f: Front, id: ObjectId)
    requires FrontOk(b, f) && id in f.snaps
    ensures FrontOk(b, f.(snaps := f.snaps - {id}, events := f.events + [Removed(f.snaps[id])]))
  {
  }

  lemma FireOk(s: State, o: Snapshot, n: string, op: Op)
    requires Inv(s) && SnapOk(s.back, o) && OpOk(s.back, op) && !op.CreatePost?
    ensures OpsOk(s.back, s.ops[n := op])
  {
    SetOpOk(s.back, s.ops, n, Some(op));
  }

  lemma StepKeepsInv(s: State, l: Label)
    requires Inv(s) && Enabled(s, l)
    ensures Inv(Apply(s, l))
  {
    var f, b := s.front, s.back;
    match l
    case UserCreate(ns, n, pvc) => WriteOk(b, f, Snapshot(ns, n, pvc, None, f.version));
    case UserDelete(id) => UserDeleteOk(b, f, id);
    case Deliver =>
      assert f.events[0] in f.events;
      FewerEventsOk(b, f, f.events[1..]);
      HandleOk(b, f.(events := f.events[1..]), f.events[0]);
    case PopulatorRemove(_) =>
    case PopulatorAdd(o) => AddDesiredOk(b, f, o);
    case FireCreate(o) =>
      FireOk(s, o, CreateOpName(o), if o.dataName.Some? then StatusGet(o) else CreateTake(o));
    case FireDelete(o) => FireOk(s, o, DeleteOpName(o), DeleteLookup(o));
    case Advance(n, outcome, pick) => OpStepKeepsInv(s, n, outcome, pick);
  }

  lemma {:induction false} RunKeepsInv(s: State, labels: seq<Label>)
    requires Inv(s) && Exec(s, labels).Some?
    ensures Inv(Exec(s, labels).value)
    decreases |labels|
  {
    if labels != [] {
      StepKeepsInv(s, labels[0]);
      RunKeepsInv(Apply(s, labels[0]), labels[1..]);
    }
  }

  lemma ReachableInv(s: State)
    requires Reachable(s)
    ensures Inv(s)
  {
    var labels :| Exec(Init, labels) == Some(s);
    RunKeepsInv(Init, labels);
  }

  /** What a map has ever held is not forgotten. */
  lemma SeenGrows(s: State, l: Label)
    requires Enabled(s, l)
    ensures s.front.seenDesired <= Apply(s, l).front.seenDesired && s.front.seenActual <= Apply(s, l).front.seenActual
  {
  }

  // ---- what the invariant means, for every reachable state ----

  /** Two-way binding: a VolumeSnapshot that names an existing VolumeSnapshotData is the one that
      data refers back to; the back reference parses to the snapshot's own identity. */
  lemma TwoWayBinding(s: State, id: ObjectId)
    requires Reachable(s) && id in s.front.snaps
    requires s.front.snaps[id].dataName.Some? && s.front.snaps[id].dataName.value in s.back.data
    ensures ParseSnapshotName(s.back.data[s.front.snaps[id].dataName.value].refName) == Some(id)
  {
    ReachableInv(s);
    MakeThenParse(id.0, id.1);
  }

  /** The actual state of world: keyed by its own name, always bound (so the reconciler's repair
      branch is never taken), and its data is Ready when present, unless a retried POST has brought
      that data back after it was deleted. */
  lemma ActualEntries(s: State, key: string)
    requires Reachable(s) && key in s.front.actual
    ensures s.front.actual[key].Key() == key && s.front.actual[key].dataName.Some?
    ensures var d, b := s.front.actual[key].dataName.value, s.back;
            d in b.data && d !in b.reposted ==> b.data[d].ready && b.data[d].source in b.completed
  {
    ReachableInv(s);
  }

  /** Data exists only for a snapshot the backend took; it can be missing from the backend only
      after a delete operation for this very data has passed SnapshotDelete. */
  lemma BackendOrder(s: State, d: DataName)
    requires Reachable(s) && d in s.back.data
    ensures s.back.data[d].source < s.back.nextBackend
    ensures s.back.data[d].source !in s.back.backend ==> d in s.back.released
    ensures forall e :: e in s.back.data && s.back.data[e].source == s.back.data[d].source ==> e == d
  {
    ReachableInv(s);
  }

  /** Ready is never taken back, and only appears with a completion reported by the plugin. */
  lemma ReadyIsStable(s: State, l: Label, d: DataName)
    requires Reachable(s) && Enabled(s, l) && d in s.back.data
    ensures var b, c := s.back, Apply(s, l).back;
            d in c.data ==> (b.data[d].ready ==> c.data[d].ready)
                            && (c.data[d].ready ==> c.data[d].source in c.completed)
  {
    StepKeepsReady(s, l, d);
    ReadyIsComplete(s, l, d);
  }

  lemma ReadyIsComplete(s: State, l: Label, d: DataName)
    requires Reachable(s) && Enabled(s, l)
    ensures var c := Apply(s, l).back; d in c.data && c.data[d].ready ==> c.data[d].source in c.completed
  {
    ReachableInv(s);
    StepKeepsInv(s, l);
    assert DataOk(Apply(s, l).back);
  }

  lemma StepKeepsReady(s: State, l: Label, d: DataName)
    requires Enabled(s, l) && d in s.back.data
    ensures var c := Apply(s, l).back; d in c.data && s.back.data[d].ready ==> c.data[d].ready
  {
    if l.Advance? { OpKeepsReady(s.front, s.back, s.ops[l.op], l.outcome, l.pick, d); }
  }

  lemma OpKeepsReady(f: Front, b: Back, op: Op, outcome: Outcome, pick: DataName, d: DataName)
    requires OpEnabled(f, b, op, outcome, pick) && d in b.data
    ensures var (c, _) := NextOp(f, b, op, outcome, pick); d in c.data && b.data[d].ready ==> c.data[d].ready
  {
  }

  // ---- exactly which steps leave an actual entry without Ready data ----

  /** The data of the actual entry under key, if there is such an entry and its data exists, is
      Ready. */
  predicate ReadyAt(s: State, key: string) {
    key in s.front.actual && s.front.actual[key].dataName.Some? && s.front.actual[key].dataName.value in s.back.data
    ==> s.back.data[s.front.actual[key].dataName.value].ready
  }

  /** A POST takes effect for data that the actual entry under key names and that does not exist. */
  predicate BringsBack(s: State, l: Label, key: string) {
    l.Advance? && l.op in s.ops && s.ops[l.op].CreatePost? && !l.outcome.FailBefore?
    && s.ops[l.op].uid !in s.back.data
    && key in s.front.actual && s.front.actual[key].dataName == Some(s.ops[l.op].uid)
  }

  /** A snapshot becomes actual under key while its data exists and is not Ready. */
  predicate AddsPending(s: State, l: Label, key: string) {
    l.Advance? && l.op in s.ops && s.ops[l.op].StatusAdd? && s.ops[l.op].snap.Key() == key
    && s.ops[l.op].snap.dataName.Some? && s.ops[l.op].snap.dataName.value in s.back.data
    && !s.back.data[s.ops[l.op].snap.dataName.value].ready
  }

  predicate Breaks(s: State, l: Label, key: string) {
    BringsBack(s, l, key) || AddsPending(s, l, key)
  }

  /** A step leaves an entry without Ready data exactly when it is one of these two. */
  lemma BreaksExactly(s: State, l: Label, key: string)
    requires Enabled(s, l) && ReadyAt(s, key)
    ensures ReadyAt(Apply(s, l), key) <==> !Breaks(s, l, key)
  {
    if l.Advance? { OpBreaksExactly(s, l, key); }
  }

  lemma OpBreaksExactly(s: State, l: Label, key: string)
    requires l.Advance? && Enabled(s, l) && ReadyAt(s, key)
    ensures ReadyAt(Apply(s, l), key) <==> !Breaks(s, l, key)
  {
    var op := s.ops[l.op];
    var (c, next) := NextOp(s.front, s.back, op, l.outcome, l.pick);
    assert Apply(s, l).back == c && Apply(s, l).front == NextFront(s.front, op, l.outcome);
  }

  /** Every state of the run has the property. */
  ghost predicate AlwaysReady(s: State, labels: seq<Label>, key: string)
    decreases |labels|
  {
    ReadyAt(s, key) && (labels != [] && Enabled(s, labels[0]) ==> AlwaysReady(Apply(s, labels[0]), labels[1..], key))
  }

  ghost predicate NeverBreaks(s: State, labels: seq<Label>, key: string)
    decreases |labels|
  {
    labels != [] && Enabled(s, labels[0]) ==>
      !Breaks(s, labels[0], key) && NeverBreaks(Apply(s, labels[0]), labels[1..], key)
  }

  lemma {:induction false} RunReadyExactly(s: State, labels: seq<Label>, key: string)
    requires ReadyAt(s, key)
    ensures AlwaysReady(s, labels, key) <==> NeverBreaks(s, labels, key)
    decreases |labels|
  {
    if labels != [] && Enabled(s, labels[0]) {
      var t := Apply(s, labels[0]);
      BreaksExactly(s, labels[0], key);
      if ReadyAt(t, key) { RunReadyExactly(t, labels[1..], key); }
    }
  }

  /** Over every run from the start: the data of an actual entry is Ready whenever it exists, in all
      states, if and only if no step brings such data back and none adds an entry whose data is
      pending. */
  lemma ReadyExactlyWhen(labels: seq<Label>, key: string)
    ensures AlwaysReady(Init, labels, key) <==> NeverBreaks(Init, labels, key)
  {
    RunReadyExactly(Init, labels, key);
  }

  // ---- runs in which no POST is reported failed after taking effect ----

  /** The step is a POST of a data object that takes effect and is reported failed. */
  predicate AmbiguousPost(s: State, l: Label) {
    l.Advance? && l.outcome.FailAfter? && l.op in s.ops && s.ops[l.op].CreatePost?
  }

  ghost predicate NoAmbiguousPost(s: State, labels: seq<Label>)
    decreases |labels|
  {
    labels != [] && Enabled(s, labels[0]) ==>
      !AmbiguousPost(s, labels[0]) && NoAmbiguousPost(Apply(s, labels[0]), labels[1..])
  }

  ghost predicate PostsOnce(s: State) {
    s.back.reposted == {} && forall n :: n in s.ops && s.ops[n].CreatePost? ==> s.ops[n].uid !in s.back.posted
  }

  lemma PostStep(s: State, n: string, outcome: Outcome, pick: DataName)
    requires Inv(s) && PostsOnce(s) && n in s.ops && OpEnabled(s.front, s.back, s.ops[n], outcome, pick)
    requires !(outcome.FailAfter? && s.ops[n].CreatePost?)
    ensures PostsOnce(AdvanceOp(s, n, outcome, pick))
  {
    var t := AdvanceOp(s, n, outcome, pick);
    forall m | m in t.ops && t.ops[m].CreatePost? ensures t.ops[m].uid !in t.back.posted {
      if m != n {
        assert Apart(s.ops[n], s.ops[m]);
        assert OpOk(s.back, s.ops[m]);
      }
    }
  }

  lemma {:induction false} RunPostsOnce(s: State, labels: seq<Label>)
    requires Inv(s) && PostsOnce(s) && Exec(s, labels).Some? && NoAmbiguousPost(s, labels)
    ensures PostsOnce(Exec(s, labels).value)
    decreases |labels|
  {
    if labels != [] {
      var l := labels[0];
      StepKeepsInv(s, l);
      if l.Advance? { PostStep(s, l.op, l.outcome, l.pick); }
      RunPostsOnce(Apply(s, l), labels[1..]);
    }
  }

  /** Without such a POST no data object ever comes back, so the data of an actual entry is Ready
      whenever it is there. */
  lemma ActualReady(labels: seq<Label>, s: State, key: string)
    requires Exec(Init, labels) == Some(s) && NoAmbiguousPost(Init, labels) && key in s.front.actual
    ensures s.front.actual[key].dataName.Some?
    ensures var d := s.front.actual[key].dataName.value; d in s.back.data ==> s.back.data[d].ready
  {
    RunPostsOnce(Init, labels);
    ActualEntries(s, key);
  }
}
