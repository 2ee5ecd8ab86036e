/** The informer's store and the desired state of world follow the API server: once no event is
    pending, every VolumeSnapshot is stored, and desired as it is unless the populator did harm. */
module InformerSync {
  import opened Wrappers
  import opened Faults
  import opened SnapshotNames
  import opened Controller
  import opened ControllerInvariant

  ghost predicate Synced(f: Front, id: ObjectId) {
    id in f.snaps ==>
      && f.snaps[id].Key() in f.desired
      && Agree(f.desired[f.snaps[id].Key()], f.snaps[id])
      && id in f.store && f.store[id].dataName == f.snaps[id].dataName
  }

  // ---- pending events ----

  function PlayOne(store: map<ObjectId, Snapshot>, e: Event): map<ObjectId, Snapshot> {
    match e
    case Upserted(o) => store[o.Id() := o]
    case Removed(o) => store - {o.Id()}
  }

  function Play(store: map<ObjectId, Snapshot>, events: seq<Event>): map<ObjectId, Snapshot>
    decreases |events|
  {
    if events == [] then store else Play(PlayOne(store, events[0]), events[1..])
  }

  /** An update changes only the binding. */
  ghost predicate EventFits(store: map<ObjectId, Snapshot>, e: Event) {
    e.Upserted? && e.obj.Id() in store ==> store[e.obj.Id()].pvc == e.obj.pvc
  }

  ghost predicate EventsFit(store: map<ObjectId, Snapshot>, events: seq<Event>)
    decreases |events|
  {
    events != [] ==> EventFits(store, events[0]) && EventsFit(PlayOne(store, events[0]), events[1..])
  }

  lemma {:induction false} Append(store: map<ObjectId, Snapshot>, events: seq<Event>, e: Event)
    requires EventsFit(store, events) && EventFits(Play(store, events), e)
    ensures Play(store, events + [e]) == PlayOne(Play(store, events), e)
    ensures EventsFit(store, events + [e])
    decreases |events|
  {
    if events == [] {
      assert events + [e] == [e] && [e][1..] == [];
    } else {
      assert (events + [e])[1..] == events[1..] + [e];
      Append(PlayOne(store, events[0]), events[1..], e);
    }
  }

  // ---- the invariant ----

  /** The desired entry of a stored object is that object. */
  ghost predicate Matched(f: Front, id: ObjectId) {
    id in f.store ==>
      && f.store[id].Id() == id && f.store[id].Key() in f.desired
      && Agree(f.desired[f.store[id].Key()], f.store[id])
  }

  /** A copy read earlier is the current object if it has its resource version. */
  ghost predicate CopyOk(f: Front, live: Snapshot) {
    live.version < f.version && (Current(f, live) ==> f.snaps[live.Id()] == live)
  }

  ghost predicate CopiesOk(f: Front, ops: map<string, Op>) {
    && (forall n :: n in ops && (ops[n].BindLookup? || ops[n].BindPut?) ==> CopyOk(f, ops[n].live))
    && (forall id :: id in f.snaps ==> f.snaps[id].version < f.version)
  }

  /** Playing the pending events over the store gives the API server's objects. */
  ghost predicate Streamed(f: Front) {
    Play(f.store, f.events) == f.snaps && EventsFit(f.store, f.events)
  }

  ghost predicate StreamInv(s: State) {
    Streamed(s.front) && CopiesOk(s.front, s.ops)
  }

  ghost predicate AllMatched(f: Front) {
    forall id {:trigger Matched(f, id)} :: Matched(f, id)
  }

  ghost predicate SyncInv(s: State) {
    StreamInv(s) && AllMatched(s.front)
  }

  lemma SameKeySameId(a: Snapshot, b: Snapshot)
    requires NoSlash(a.namespace) && NoSlash(a.name) && NoSlash(b.namespace) && NoSlash(b.name)
    ensures a.Key() == b.Key() <==> a.Id() == b.Id()
  {
    MakeThenParse(a.namespace, a.name);
    MakeThenParse(b.namespace, b.name);
  }

  // ---- the stream of events, whatever the populator does ----

  lemma WriteStreamed(f: Front, o: Snapshot)
    requires Streamed(f) && (o.Id() in f.snaps ==> f.snaps[o.Id()].pvc == o.pvc)
    ensures Streamed(Write(f, o))
  {
    Append(f.store, f.events, Upserted(o));
  }

  lemma DeleteStreamed(f: Front, id: ObjectId)
    requires Streamed(f) && id in f.snaps && f.snaps[id].Id() == id
    ensures Streamed(f.(snaps := f.snaps - {id}, events := f.events + [Removed(f.snaps[id])]))
  {
    Append(f.store, f.events, Removed(f.snaps[id]));
  }

  /** A binding is written over the object its copy was read from. */
  lemma OpStreamed(s: State, n: string, outcome: Outcome)
    requires StreamInv(s) && n in s.ops
    ensures Streamed(NextFront(s.front, s.ops[n], outcome))
  {
    var f, op := s.front, s.ops[n];
    if op.BindPut? && !outcome.FailBefore? && Current(f, op.live) {
      assert CopyOk(f, op.live);
      WriteStreamed(f, op.live.(dataName := Some(op.found), version := f.version));
    }
  }

  lemma OpCopiesOk(s: State, n: string, outcome: Outcome, pick: DataName)
    requires CopiesOk(s.front, s.ops) && n in s.ops && OpEnabled(s.front, s.back, s.ops[n], outcome, pick)
    requires forall id :: id in s.front.snaps ==> s.front.snaps[id].Id() == id
    ensures var t := AdvanceOp(s, n, outcome, pick); CopiesOk(t.front, t.ops)
  {
    var f, t := s.front, AdvanceOp(s, n, outcome, pick);
    assert f.version <= t.front.version;
    forall m | m in t.ops && (t.ops[m].BindLookup? || t.ops[m].BindPut?) ensures CopyOk(t.front, t.ops[m].live) {
      if m != n { assert CopyOk(f, s.ops[m].live); }
    }
  }

  lemma UserKeepsStream(s: State, l: Label)
    requires Inv(s) && StreamInv(s) && (l.UserCreate? || l.UserDelete?) && Enabled(s, l)
    ensures StreamInv(Apply(s, l))
  {
    var f, t := s.front, Apply(s, l);
    if l.UserCreate? {
      WriteStreamed(f, Snapshot(l.namespace, l.name, l.pvc, None, f.version));
    } else {
      DeleteStreamed(f, l.id);
    }
    forall m | m in t.ops && (t.ops[m].BindLookup? || t.ops[m].BindPut?) ensures CopyOk(t.front, t.ops[m].live) {
      assert CopyOk(f, s.ops[m].live);
    }
  }

  /** Every step keeps store, pending events and objects in step. */
  lemma StepKeepsStream(s: State, l: Label)
    requires Inv(s) && StreamInv(s) && Enabled(s, l)
    ensures StreamInv(Apply(s, l))
  {
    match l
    case UserCreate(_, _, _) => UserKeepsStream(s, l);
    case UserDelete(_) => UserKeepsStream(s, l);
    case Deliver =>
    case PopulatorRemove(_) =>
    case PopulatorAdd(_) =>
    case FireCreate(_) =>
    case FireDelete(_) =>
    case Advance(n, outcome, pick) =>
      OpStreamed(s, n, outcome);
      OpCopiesOk(s, n, outcome, pick);
  }

  lemma {:induction false} RunKeepsStream(s: State, labels: seq<Label>)
    requires Inv(s) && StreamInv(s) && Exec(s, labels).Some?
    ensures StreamInv(Exec(s, labels).value)
    decreases |labels|
  {
    if labels != [] {
      StepKeepsInv(s, labels[0]);
      StepKeepsStream(s, labels[0]);
      RunKeepsStream(Apply(s, labels[0]), labels[1..]);
    }
  }

  /** In every reachable state, once the events are delivered the store is the API server's. */
  lemma DrainedStore(s: State)
    requires Reachable(s) && s.front.events == []
    ensures s.front.store == s.front.snaps
  {
    var labels :| Exec(Init, labels) == Some(s);
    RunKeepsStream(Init, labels);
  }

  // ---- the desired entries of stored objects ----

  lemma DeliverMatched(s: State, id: ObjectId)
    requires Inv(s) && SyncInv(s) && s.front.events != []
    ensures var f := s.front; Matched(Handle(f.(events := f.events[1..]), f.events[0]), id)
  {
    var f, o := s.front, s.front.events[0].obj;
    assert f.events[0] in f.events && SnapOk(s.back, o);
    assert Matched(f, id) && Matched(f.(events := f.events[1..]), id);
    if id in f.store {
      assert f.store[id] in f.seenStore && SnapOk(s.back, f.store[id]);
      SameKeySameId(f.store[id], o);
    }
    HandleMatched(f.(events := f.events[1..]), f.events[0], id);
  }

  lemma HandleMatched(f: Front, e: Event, id: ObjectId)
    requires Matched(f, id) && EventFits(f.store, e)
    requires id in f.store ==> (f.store[id].Key() == e.obj.Key() <==> id == e.obj.Id())
    ensures Matched(Handle(f, e), id)
  {
  }

  /** What a step of the populator does to the entry of a stored object. */
  lemma PopulatorMatched(s: State, l: Label, id: ObjectId)
    requires Inv(s) && Matched(s.front, id) && (l.PopulatorRemove? || l.PopulatorAdd?) && Enabled(s, l)
    ensures Matched(Apply(s, l).front, id) <==> Harmless(s, l) || id != l.obj.Id()
  {
    var f := s.front;
    assert SnapOk(s.back, l.obj);
    if id in f.store {
      assert f.store[id] in f.seenStore && SnapOk(s.back, f.store[id]);
      SameKeySameId(f.store[id], l.obj);
    }
  }

  /** A step that no populator takes keeps the entries of all stored objects. */
  lemma OtherMatched(s: State, l: Label, id: ObjectId)
    requires Inv(s) && SyncInv(s) && Enabled(s, l) && !l.PopulatorRemove? && !l.PopulatorAdd?
    ensures Matched(Apply(s, l).front, id)
  {
    assert Matched(s.front, id);
    if l.Deliver? { DeliverMatched(s, id); }
  }

  /** A step leaves a stored object without its desired entry exactly when it is harmful. */
  lemma HarmExactly(s: State, l: Label)
    requires Inv(s) && SyncInv(s) && Enabled(s, l)
    ensures SyncInv(Apply(s, l)) <==> Harmless(s, l)
  {
    StepKeepsStream(s, l);
    var g := Apply(s, l).front;
    if l.PopulatorRemove? || l.PopulatorAdd? {
      forall id ensures Matched(g, id) <==> Harmless(s, l) || id != l.obj.Id() {
        assert Matched(s.front, id);
        PopulatorMatched(s, l, id);
      }
      assert Matched(g, l.obj.Id()) <==> Harmless(s, l);
    } else {
      forall id ensures Matched(g, id) { OtherMatched(s, l, id); }
    }
  }

  /** What an event does to the desired state of world: a new object and a changed binding replace the
      entry, an update without one leaves it as it is, and a deletion removes it. */
  lemma HandledDesired(f: Front, e: Event)
    ensures var o, g := e.obj, Handle(f, e);
      && (e.Removed? ==> o.Key() !in g.desired && g.desired == f.desired - {o.Key()})
      && (e.Upserted? && o.Id() !in f.store ==> g.desired == f.desired[o.Key() := o])
      && (e.Upserted? && o.Id() in f.store ==>
           g.desired == if f.store[o.Id()].dataName == o.dataName then f.desired else f.desired[o.Key() := o])
      && g.store == PlayOne(f.store, e) && g.actual == f.actual && g.snaps == f.snaps
  {
  }

  // ---- over runs ----

  /** In every state of the run each stored object is desired as it is. */
  ghost predicate AlwaysMatched(s: State, labels: seq<Label>)
    decreases |labels|
  {
    AllMatched(s.front) && (labels != [] && Enabled(s, labels[0]) ==> AlwaysMatched(Apply(s, labels[0]), labels[1..]))
  }

  lemma {:induction false} RunSyncExactly(s: State, labels: seq<Label>)
    requires Inv(s) && SyncInv(s)
    ensures AlwaysMatched(s, labels) <==> HarmlessRun(s, labels)
    ensures HarmlessRun(s, labels) && Exec(s, labels).Some? ==> SyncInv(Exec(s, labels).value)
    decreases |labels|
  {
    if labels != [] && Enabled(s, labels[0]) {
      var t := Apply(s, labels[0]);
      StepKeepsInv(s, labels[0]);
      StepKeepsStream(s, labels[0]);
      HarmExactly(s, labels[0]);
      if SyncInv(t) { RunSyncExactly(t, labels[1..]); }
    }
  }

  /** Over every run from the start: stored objects are desired as they are, in all states, if and
      only if the populator never takes a harmful step. */
  lemma SyncExactlyWhen(labels: seq<Label>)
    ensures AlwaysMatched(Init, labels) <==> HarmlessRun(Init, labels)
  {
    RunSyncExactly(Init, labels);
  }

  /** In every state reached without a harmful step, once the events are delivered every snapshot is
      in the store and in the desired state of world as it is on the API server. */
  lemma DrainedIsSynced(s: State, id: ObjectId)
    requires HarmlessReachable(s) && s.front.events == []
    ensures Synced(s.front, id) && s.front.store == s.front.snaps
  {
    var labels :| Exec(Init, labels) == Some(s) && HarmlessRun(Init, labels);
    RunSyncExactly(Init, labels);
    assert Matched(s.front, id);
  }
}
