/** Concrete runs showing that the conditions in the controller's theorems are needed. */
module ControllerRaces {
  import opened Wrappers
  import opened Faults
  import opened SnapshotNames
  import opened Controller
  import opened Convergence
  import opened Draining
  import opened BackendSnapshots

  predicate Populates(l: Label) { l.PopulatorRemove? || l.PopulatorAdd? }

  lemma Then(s: State, labels: seq<Label>, t: State)
    requires HarmlessReachable(s) && Exec(s, labels) == Some(t) && forall l :: l in labels ==> !Populates(l)
    ensures HarmlessReachable(t)
  {
    var before :| Exec(Init, before) == Some(s) && HarmlessRun(Init, before);
    NoPopulatorIsHarmless(s, labels);
    HarmlessConcat(Init, before, labels);
    assert Exec(Init, before + labels) == Some(t);
  }

  lemma {:induction false} NoPopulatorIsHarmless(s: State, labels: seq<Label>)
    requires forall l :: l in labels ==> !Populates(l)
    ensures HarmlessRun(s, labels)
    decreases |labels|
  {
    if labels != [] && Enabled(s, labels[0]) {
      assert labels[0] in labels;
      NoPopulatorIsHarmless(Apply(s, labels[0]), labels[1..]);
    }
  }

  lemma ThenOne(s: State, l: Label)
    requires HarmlessReachable(s) && Enabled(s, l) && !Populates(l)
    ensures HarmlessReachable(Apply(s, l))
  {
    assert [l][1..] == [];
    Then(s, [l], Apply(s, l));
  }

  /** The user creates a snapshot and the informer delivers it. */
  function Created(o: Snapshot): State {
    State(Front(map[o.Id() := o], 1, [], map[o.Id() := o], map[o.Key() := o], map[], {o}, {o}, {}),
          Init.back, map[])
  }

  ghost predicate Fresh(o: Snapshot) {
    NoSlash(o.namespace) && NoSlash(o.name) && o.dataName.None? && o.version == 0
  }

  lemma CreatedReachable(o: Snapshot)
    requires Fresh(o)
    ensures HarmlessReachable(Created(o))
  {
    assert Exec(Init, []) == Some(Init) && HarmlessRun(Init, []);
    ThenOne(Init, UserCreate(o.namespace, o.name, o.pvc));
    var s := Apply(Init, UserCreate(o.namespace, o.name, o.pvc));
    assert s.front.events == [Upserted(o)] && s.front.events[1..] == [];
    ThenOne(s, Deliver);
    assert Apply(s, Deliver) == Created(o);
  }

  /** A create operation runs from its first call up to the lookup of the data by name. */
  lemma TakeAndPost(s: State, o: Snapshot)
    requires HarmlessReachable(s) && s.ops == map[] && o.dataName.None? && Enabled(s, FireCreate(o))
    requires s.back.nextData !in s.back.data && o.Id() in s.front.snaps
    requires NoSlash(o.namespace) && NoSlash(o.name)
    ensures HarmlessReachable(Running(s.front, BackAfterPost(s.back, o), CreateOpName(o),
                              Some(BindLookup(o, s.front.snaps[o.Id()]))))
  {
    var n := CreateOpName(o);
    var labels := [Go(n, 0)] + ([Go(n, 0)] + ([Go(n, 0)] + []));
    MakeThenParse(o.namespace, o.name);
    FireStep(s, FireCreate(o), labels);
    BindHead(s.front, s.back, n, o, []);
    Then(s, [FireCreate(o)] + labels,
         Running(s.front, BackAfterPost(s.back, o), n, Some(BindLookup(o, s.front.snaps[o.Id()]))));
  }

  /** The create operation binds the API object to data d and ends. */
  lemma LookupAndBind(f: Front, b: Back, o: Snapshot, live: Snapshot, d: DataName)
    requires var s := Running(f, b, CreateOpName(o), Some(BindLookup(o, live))); HarmlessReachable(s)
    requires Finds(b.data, o.Key(), d) && Current(f, live)
    ensures HarmlessReachable(State(Bind(f, live, d), b, map[]))
  {
    var n := CreateOpName(o);
    GoStep(f, b, n, BindLookup(o, live), d, [Go(n, 0)] + []);
    GoStep(f, b, n, BindPut(o, live, d), 0, []);
    Then(Running(f, b, n, Some(BindLookup(o, live))), [Go(n, d)] + ([Go(n, 0)] + []),
         State(Bind(f, live, d), b, map[]));
  }

  lemma MakeReady(s: State, o: Snapshot)
    requires HarmlessReachable(s) && s.ops == map[] && Enabled(s, FireCreate(o)) && o.dataName.Some?
    requires o.dataName.value in s.back.data && !s.back.data[o.dataName.value].ready
    ensures HarmlessReachable(State(AddActual(s.front, o), BackAfterStatus(s.back, o.dataName.value), map[]))
  {
    var n, f, b := CreateOpName(o), s.front, s.back;
    var four := [Go(n, 0)] + ([Go(n, 0)] + ([Go(n, 0)] + ([Go(n, 0)] + [])));
    FireStep(s, FireCreate(o), [Go(n, 0)] + four);
    GoStep(f, b, n, StatusGet(o), 0, four);
    StatusTail(f, b, n, o);
    Then(s, [FireCreate(o)] + ([Go(n, 0)] + four),
         State(AddActual(f, o), BackAfterStatus(b, o.dataName.value), map[]));
  }

  /** The informer delivers the one pending binding while the operations stay as they are. */
  lemma DeliverOne(s: State, o: Snapshot)
    requires HarmlessReachable(s) && s.front.events == [Upserted(o)]
    ensures HarmlessReachable(s.(front := Handle(s.front.(events := []), Upserted(o))))
  {
    assert s.front.events[1..] == [];
    ThenOne(s, Deliver);
  }

  /** First half: the snapshot is bound to data 0, the informer has not said so yet, and the
      reconciler has fired the create operation once more from its copy of the desired state. */
  lemma FiredTwice(o: Snapshot)
    requires Fresh(o)
    ensures var f := Bind(Created(o).front, o, 0);
            var b := BackAfterPost(BackAfterPost(Init.back, o), o);
            HarmlessReachable(Running(f, b, CreateOpName(o), Some(BindLookup(o, BoundObject(Created(o).front, o, 0)))))
  {
    var s := Created(o);
    CreatedReachable(o);
    TakeAndPost(s, o);
    LookupAndBind(s.front, BackAfterPost(s.back, o), o, o, 0);
    var bound := BoundObject(s.front, o, 0);
    var t := State(Bind(s.front, o, 0), BackAfterPost(s.back, o), map[]);
    assert t.front.snaps[o.Id()] == bound;
    TakeAndPost(t, o);
  }

  /** Second half: the informer delivers the first binding, the second operation rebinds the
      snapshot to data 1, and data 0 is made Ready and enters the actual state. */
  lemma Rebound(o: Snapshot, f1: Front, b: Back, o1: Snapshot)
    requires Fresh(o) && o1 == BoundObject(Created(o).front, o, 0) && f1 == Bind(Created(o).front, o, 0)
    requires b == BackAfterPost(BackAfterPost(Init.back, o), o)
    requires HarmlessReachable(Running(f1, b, CreateOpName(o), Some(BindLookup(o, o1))))
    ensures var f2 := Handle(f1.(events := []), Upserted(o1));
            HarmlessReachable(State(AddActual(Bind(f2, o1, 1), o1), BackAfterStatus(b, 0), map[]))
  {
    assert f1.events == [Upserted(o1)];
    DeliverOne(Running(f1, b, CreateOpName(o), Some(BindLookup(o, o1))), o1);
    var f2 := Handle(f1.(events := []), Upserted(o1));
    LookupAndBind(f2, b, o, o1, 1);
    MakeReady(State(Bind(f2, o1, 1), b, map[]), o1);
  }

  /** The result is quiescent, and data 1 will never become Ready. */
  lemma StrandedSnapshot(o: Snapshot) returns (s: State)
    requires Fresh(o)
    ensures HarmlessReachable(s) && Drained(s) && !Healthy(s)
  {
    FiredTwice(o);
    var f0 := Created(o).front;
    var o1 := BoundObject(f0, o, 0);
    var f1, b := Bind(f0, o, 0), BackAfterPost(BackAfterPost(Init.back, o), o);
    Rebound(o, f1, b, o1);
    var f2 := Handle(f1.(events := []), Upserted(o1));
    s := StrandedEnd(o, o1, f2, b);
  }

  lemma StrandedEnd(o: Snapshot, o1: Snapshot, f2: Front, b: Back) returns (s: State)
    requires Fresh(o) && o1 == o.(dataName := Some(0), version := 1)
    requires f2.events == [] && f2.version == 2 && f2.snaps.Keys == f2.store.Keys == {o.Id()}
    requires f2.store[o.Id()].dataName == Some(0) && f2.desired.Keys == {o.Key()} && 0 in b.data && 1 in b.data &&
               !b.data[1].ready
    requires HarmlessReachable(State(AddActual(Bind(f2, o1, 1), o1), BackAfterStatus(b, 0), map[]))
    ensures HarmlessReachable(s) && Drained(s) && !Healthy(s)
  {
    var t := State(AddActual(Bind(f2, o1, 1), o1), BackAfterStatus(b, 0), map[]);
    var o2 := BoundObject(f2, o1, 1);
    assert t.front.events == [Upserted(o2)];
    DeliverOne(t, o2);
    s := t.(front := Handle(t.front.(events := []), Upserted(o2)));
    StrandedFinal(o, s);
  }

  lemma StrandedFinal(o: Snapshot, s: State)
    requires Fresh(o) && s.front.snaps == map[o.Id() := o.(dataName := Some(1), version := 2)]
    requires o.Key() in s.front.actual && 1 in s.back.data && !s.back.data[1].ready
    ensures !Healthy(s)
  {
    assert !SnapHealthy(s, o.Id());
  }

  // ---- a populator that acts on an outdated test ----

  function Gone(o: Snapshot): State {
    State(Front(map[], 1, [], map[], map[], map[], {o}, {o}, {}), Init.back, map[])
  }

  lemma GoneReachable(o: Snapshot)
    requires Fresh(o)
    ensures HarmlessReachable(Gone(o))
  {
    var s := Created(o);
    CreatedReachable(o);
    ThenOne(s, UserDelete(o.Id()));
    var s1 := Apply(s, UserDelete(o.Id()));
    assert s1.front.events == [Removed(o)] && s1.front.events[1..] == [];
    ThenOne(s1, Deliver);
    assert Apply(s1, Deliver) == Gone(o);
  }

  /** The user deletes the snapshot and creates it again, with this or another claim. */
  lemma DeletedAndCreated(o: Snapshot, p: Snapshot)
    requires Fresh(o) && p == o.(pvc := p.pvc, version := 1)
    ensures HarmlessReachable(State(Again(o, p), Init.back, map[]))
  {
    GoneReachable(o);
    var s, l := Gone(o), UserCreate(p.namespace, p.name, p.pvc);
    ThenOne(s, l);
    var s1 := Apply(s, l);
    assert s1.front.events == [Upserted(p)] && s1.front.events[1..] == [];
    ThenOne(s1, Deliver);
    assert Apply(s1, Deliver) == State(Again(o, p), Init.back, map[]);
  }

  /** The populator sees that the first object is gone, and removes the name after the second one has
      been delivered: nothing is pending, and a snapshot on the API server is not desired. */
  lemma HarmfulRemoval(o: Snapshot) returns (s: State)
    requires Fresh(o)
    ensures Reachable(s) && Drained(s) && o.Id() in s.front.snaps && o.Key() !in s.front.desired
  {
    s := LatePopulator(o, o.(version := 1), PopulatorRemove(o));
  }

  /** The populator sees that the name is not desired, and adds the first object after the second one
      has been delivered: a snapshot is desired with a claim it does not have. */
  lemma HarmfulAddition(o: Snapshot, pvc: string) returns (s: State)
    requires Fresh(o) && pvc != o.pvc
    ensures Reachable(s) && Drained(s) && o.Id() in s.front.snaps && s.front.snaps[o.Id()].pvc == pvc
    ensures o.Key() in s.front.desired && s.front.desired[o.Key()] == o
  {
    s := LatePopulator(o, o.(pvc := pvc, version := 1), PopulatorAdd(o));
  }

  lemma LatePopulator(o: Snapshot, p: Snapshot, l: Label) returns (s: State)
    requires Fresh(o) && p == o.(pvc := p.pvc, version := 1) && (l == PopulatorRemove(o) || l == PopulatorAdd(o))
    ensures var t := State(Again(o, p), Init.back, map[]); Enabled(t, l) && s == Apply(t, l)
    ensures Reachable(s)
  {
    DeletedAndCreated(o, p);
    var t := State(Again(o, p), Init.back, map[]);
    var labels :| Exec(Init, labels) == Some(t) && HarmlessRun(Init, labels);
    s := Apply(t, l);
    Extended(Init, labels, l);
    assert Exec(Init, labels + [l]) == Some(s);
  }

  lemma {:induction false} Extended(s: State, labels: seq<Label>, l: Label)
    requires Exec(s, labels).Some? && Enabled(Exec(s, labels).value, l)
    ensures Exec(s, labels + [l]) == Some(Apply(Exec(s, labels).value, l))
    decreases |labels|
  {
    if labels == [] {
      assert labels + [l] == [l] && [l][1..] == [];
    } else {
      assert (labels + [l])[0] == labels[0] && (labels + [l])[1..] == labels[1..] + [l];
      Extended(Apply(s, labels[0]), labels[1..], l);
    }
  }

  // ---- a snapshot in the backend that nothing names ----

  /** SnapshotCreate takes the snapshot and is reported failed: the operation ends. */
  lemma LostOnTaking(o: Snapshot) returns (s: State)
    requires Fresh(o)
    ensures HarmlessReachable(s) && Drained(s) && Orphan(s, 0)
  {
    var n := CreateOpName(o);
    CreatedReachable(o);
    ThenOne(Created(o), FireCreate(o));
    var t := Apply(Created(o), FireCreate(o));
    assert t == Running(t.front, t.back, n, Some(CreateTake(o)));
    ThenOne(t, Advance(n, FailAfter, 0));
    s := Apply(t, Advance(n, FailAfter, 0));
    assert s.ops == map[] && s.back.backend == {0} && s.back.data == map[];
  }

  /** The operation has taken the snapshot and is about to make its first POST. */
  lemma Taken(o: Snapshot)
    requires Fresh(o)
    ensures HarmlessReachable(Running(Created(o).front, AfterTaking(Init.back), CreateOpName(o),
                                Some(CreatePost(o, 0, 0, 0))))
  {
    var n, f := CreateOpName(o), Created(o).front;
    CreatedReachable(o);
    ThenOne(Created(o), FireCreate(o));
    var t := Apply(Created(o), FireCreate(o));
    assert t == Running(f, Init.back, n, Some(CreateTake(o)));
    ThenOne(t, Go(n, 0));
    assert Apply(t, Go(n, 0)) == Running(f, AfterTaking(Init.back), n, Some(CreatePost(o, 0, 0, 0)));
  }

  /** The operation has taken the snapshot, and some of its POSTs have failed without taking effect. */
  lemma {:induction false} PostsFailed(o: Snapshot, tries: nat)
    requires Fresh(o) && tries <= 4
    ensures HarmlessReachable(Running(Created(o).front, AfterTaking(Init.back), CreateOpName(o),
                                Some(CreatePost(o, 0, 0, tries))))
  {
    var n, f := CreateOpName(o), Created(o).front;
    if tries == 0 {
      Taken(o);
    } else {
      PostsFailed(o, tries - 1);
      var t := Running(f, AfterTaking(Init.back), n, Some(CreatePost(o, 0, 0, tries - 1)));
      ThenOne(t, Advance(n, FailBefore, 0));
      assert Apply(t, Advance(n, FailBefore, 0)) ==
             Running(f, AfterTaking(Init.back), n, Some(CreatePost(o, 0, 0, tries)));
    }
  }

  /** So does the fifth. */
  lemma LostOnPosting(o: Snapshot) returns (s: State)
    requires Fresh(o)
    ensures HarmlessReachable(s) && Drained(s) && Orphan(s, 0)
  {
    var n := CreateOpName(o);
    PostsFailed(o, 4);
    var t := Running(Created(o).front, AfterTaking(Init.back), n, Some(CreatePost(o, 0, 0, 4)));
    ThenOne(t, Advance(n, FailBefore, 0));
    s := Apply(t, Advance(n, FailBefore, 0));
    assert s.ops == map[] && s.back.data == map[] && 0 in s.back.backend;
  }

  // ---- an entry that leaves the actual state of world while its name is desired ----

  /** The snapshot is bound to its data, which becomes Ready, and it is actual. */
  lemma MadeActual(o: Snapshot, q: Snapshot, f: Front, b: Back)
    requires Fresh(o) && q == BoundObject(Created(o).front, o, 0) && f == FrontAfterBind(Created(o).front, o, 0)
    requires b == BackAfterPost(Init.back, o)
    ensures HarmlessReachable(State(AddActual(f, q), BackAfterStatus(b, 0), map[]))
  {
    var s := Created(o);
    CreatedReachable(o);
    MakeThenParse(o.namespace, o.name);
    BindService(s, o, 0);
    Then(s, BindLabels(o, 0), State(f, b, map[]));
    MakeReady(State(f, b, map[]), q);
  }

  /** The user deletes it, and it leaves the desired state. */
  lemma NotDesired(f: Front, b: Back, q: Snapshot)
    requires f.snaps == map[q.Id() := q] && f.events == [] && f.desired == map[q.Key() := q]
    requires f.store.Keys == {q.Id()} && HarmlessReachable(State(f, b, map[]))
    ensures HarmlessReachable(State(Undesired(f), b, map[]))
  {
    var s := State(f, b, map[]);
    ThenOne(s, UserDelete(q.Id()));
    var s1 := Apply(s, UserDelete(q.Id()));
    assert s1.front.events == [Removed(q)] && s1.front.events[1..] == [];
    ThenOne(s1, Deliver);
    assert f.snaps - {q.Id()} == map[] && f.desired - {q.Key()} == map[] && f.store - {q.Id()} == map[];
    assert Apply(s1, Deliver) == State(Undesired(f), b, map[]);
  }

  /** Its delete operation runs up to its last step. */
  lemma AlmostDeleted(f: Front, b: Back, q: Snapshot)
    requires q in f.seenActual && Finds(b.data, q.Key(), 0) && HarmlessReachable(State(f, b, map[]))
    ensures HarmlessReachable(Running(f, BackAfterDelete(b, 0), DeleteOpName(q), Some(DeleteActual(q))))
  {
    var s, n := State(f, b, map[]), DeleteOpName(q);
    var three := [Go(n, 0)] + ([Go(n, 0)] + ([Go(n, 0)] + []));
    FireStep(s, FireDelete(q), three);
    DeleteSteps(f, b, n, q);
    Then(s, [FireDelete(q)] + three, Running(f, BackAfterDelete(b, 0), n, Some(DeleteActual(q))));
  }

  /** The user creates the snapshot again and the informer delivers it. */
  lemma DesiredAgain(s: State, p: Snapshot) returns (f: Front)
    requires HarmlessReachable(s) && s.front.snaps == map[] && s.front.store == map[] && s.front.events == []
    requires NoSlash(p.namespace) && NoSlash(p.name) && p.dataName.None? && p.version == s.front.version
    ensures HarmlessReachable(s.(front := f)) && f.actual == s.front.actual
    ensures f.desired == s.front.desired[p.Key() := p]
  {
    var l := UserCreate(p.namespace, p.name, p.pvc);
    ThenOne(s, l);
    var t := Apply(s, l);
    assert t.front.events == [Upserted(p)] && t.front.events[1..] == [];
    ThenOne(t, Deliver);
    f := Apply(t, Deliver).front;
    assert s.(front := f) == Apply(t, Deliver);
  }

  /** The delete operation is at its last step, and the user has created the snapshot again. */
  lemma DeletingDesired(o: Snapshot) returns (f: Front, b: Back, q: Snapshot)
    requires Fresh(o)
    ensures q.Key() == o.Key() && f.actual == map[q.Key() := q] && f.desired.Keys == {q.Key()}
    ensures HarmlessReachable(Running(f, b, DeleteOpName(q), Some(DeleteActual(q))))
  {
    q := BoundObject(Created(o).front, o, 0);
    var f0, b0 := AddActual(FrontAfterBind(Created(o).front, o, 0), q), BackAfterPost(Init.back, o);
    MadeActual(o, q, FrontAfterBind(Created(o).front, o, 0), b0);
    NotDesired(f0, BackAfterStatus(b0, 0), q);
    AlmostDeleted(Undesired(f0), BackAfterStatus(b0, 0), q);
    b := BackAfterDelete(BackAfterStatus(b0, 0), 0);
    var p := o.(version := f0.version);
    f := DesiredAgain(Running(Undesired(f0), b, DeleteOpName(q), Some(DeleteActual(q))), p);
  }

  /** So a name that is desired can leave the actual state of world. */
  lemma VanishingEntry(o: Snapshot) returns (s: State, l: Label)
    requires Fresh(o)
    ensures HarmlessReachable(s) && Enabled(s, l)
    ensures s.front.desired.Keys == s.front.actual.Keys == {o.Key()}
    ensures Apply(s, l).front.desired == s.front.desired && Apply(s, l).front.actual == map[]
  {
    var f, b, q := DeletingDesired(o);
    var n := DeleteOpName(q);
    s, l := Running(f, b, n, Some(DeleteActual(q))), Go(n, 0);
    assert s.ops[n] == DeleteActual(q) && f.actual - {q.Key()} == map[];
  }

  // ---- a retried POST brings deleted data back ----

  ghost predicate Avoids(l: Label, a: string) {
    match l
    case Advance(n, _, _) => n != a
    case FireCreate(o) => CreateOpName(o) != a
    case FireDelete(o) => DeleteOpName(o) != a
    case PopulatorRemove(_) => false
    case PopulatorAdd(_) => false
    case _ => true
  }

  function With(s: State, a: string, x: Op): State {
    s.(ops := s.ops[a := x])
  }

  /** An operation that makes no call does not change what the others do. */
  lemma IdleStep(s: State, l: Label, a: string, x: Op)
    requires Enabled(s, l) && Avoids(l, a)
    ensures Enabled(With(s, a, x), l) && Apply(With(s, a, x), l) == With(Apply(s, l), a, x)
  {
    var t := Apply(With(s, a, x), l);
    assert t.ops == With(Apply(s, l), a, x).ops;
  }

  lemma {:induction false} IdleRun(s: State, labels: seq<Label>, a: string, x: Op)
    requires Exec(s, labels).Some? && forall l :: l in labels ==> Avoids(l, a)
    ensures Exec(With(s, a, x), labels) == Some(With(Exec(s, labels).value, a, x))
    decreases |labels|
  {
    if labels != [] {
      IdleStep(s, labels[0], a, x);
      IdleRun(Apply(s, labels[0]), labels[1..], a, x);
    }
  }

  /** The create operation's POST takes effect but is reported as failed: it will be retried. */
  lemma PostReportedFailed(o: Snapshot)
    requires Fresh(o)
    ensures var s := State(Created(o).front, BackAfterPost(Init.back, o), map[]);
            HarmlessReachable(With(s, CreateOpName(o), CreatePost(o, 0, 0, 1)))
  {
    var s, n := Created(o), CreateOpName(o);
    CreatedReachable(o);
    ThenOne(s, FireCreate(o));
    var s1 := Apply(s, FireCreate(o));
    assert s1 == Running(s.front, s.back, n, Some(CreateTake(o)));
    ThenOne(s1, Go(n, 0));
    var s2 := Apply(s1, Go(n, 0));
    assert s2.ops == map[n := CreatePost(o, 0, 0, 0)];
    ThenOne(s2, Advance(n, FailAfter, 0));
    var t := State(s.front, BackAfterPost(Init.back, o), map[]);
    assert Apply(s2, Advance(n, FailAfter, 0)) == With(t, n, CreatePost(o, 0, 0, 1));
  }

  /** Runs labels beside the waiting operation. */
  lemma ThenBeside(s: State, labels: seq<Label>, t: State, a: string, x: Op)
    requires HarmlessReachable(With(s, a, x)) && Exec(s, labels) == Some(t)
    requires forall l :: l in labels ==> Avoids(l, a)
    ensures HarmlessReachable(With(t, a, x))
  {
    IdleRun(s, labels, a, x);
    Then(With(s, a, x), labels, With(t, a, x));
  }

  lemma OneBeside(s: State, l: Label, a: string, x: Op)
    requires HarmlessReachable(With(s, a, x)) && Enabled(s, l) && Avoids(l, a)
    ensures HarmlessReachable(With(Apply(s, l), a, x))
  {
    assert [l][1..] == [];
    ThenBeside(s, [l], Apply(s, l), a, x);
  }

  /** The user deletes the snapshot and creates it again with another claim. */
  lemma Recreated(o: Snapshot, p: Snapshot, b: Back, a: string, x: Op)
    requires Fresh(o) && NoSlash(p.namespace) && p == o.(pvc := p.pvc, version := 1)
    requires HarmlessReachable(With(State(Created(o).front, b, map[]), a, x))
    ensures HarmlessReachable(With(State(Again(o, p), b, map[]), a, x))
  {
    var s := State(Created(o).front, b, map[]);
    OneBeside(s, UserDelete(o.Id()), a, x);
    var s1 := Apply(s, UserDelete(o.Id()));
    assert s1.front.events == [Removed(o)] && s1.front.events[1..] == [];
    OneBeside(s1, Deliver, a, x);
    var s2 := Apply(s1, Deliver);
    OneBeside(s2, UserCreate(p.namespace, p.name, p.pvc), a, x);
    var s3 := Apply(s2, UserCreate(p.namespace, p.name, p.pvc));
    assert s3.front.events == [Upserted(p)] && s3.front.events[1..] == [];
    OneBeside(s3, Deliver, a, x);
    assert Apply(s3, Deliver).front == Again(o, p);
  }

  function Again(o: Snapshot, p: Snapshot): Front {
    Front(map[p.Id() := p], 2, [], map[p.Id() := p], map[p.Key() := p], map[], {o, p}, {o, p}, {})
  }

  /** Its create operation finds the data of the ambiguous POST and binds to it. */
  lemma BoundAgain(o: Snapshot, p: Snapshot, b: Back, a: string, x: Op)
    requires Fresh(o) && NoSlash(p.namespace) && p == o.(pvc := p.pvc, version := 1) && CreateOpName(p) != a
    requires b == BackAfterPost(Init.back, o) && HarmlessReachable(With(State(Again(o, p), b, map[]), a, x))
    ensures HarmlessReachable(With(State(FrontAfterBind(Again(o, p), p, 0), BackAfterPost(b, p), map[]), a, x))
  {
    var s := State(Again(o, p), b, map[]);
    MakeThenParse(p.namespace, p.name);
    BindService(s, p, 0);
    ThenBeside(s, BindLabels(p, 0), State(FrontAfterBind(s.front, p, 0), BackAfterPost(b, p), map[]), a, x);
  }

  /** Its status is then updated: the data becomes Ready and the snapshot actual. */
  lemma ReadyAgain(f: Front, b: Back, q: Snapshot, a: string, x: Op)
    requires Startable(State(f, b, map[]), q) && q.dataName == Some(0) && CreateOpName(q) != a
    requires 0 in b.data && !b.data[0].ready && HarmlessReachable(With(State(f, b, map[]), a, x))
    ensures HarmlessReachable(With(State(AddActual(f, q), BackAfterStatus(b, 0), map[]), a, x))
  {
    var t := State(f, b, map[]);
    StatusService(t, q);
    ThenBeside(t, StatusLabels(q), State(AddActual(f, q), BackAfterStatus(b, 0), map[]), a, x);
  }

  /** The user deletes the snapshot once more, so it leaves the desired state. */
  lemma DeletedAgain(f: Front, b: Back, q: Snapshot, a: string, x: Op)
    requires f.snaps == map[q.Id() := q] && f.events == [] && f.desired == map[q.Key() := q]
    requires f.store.Keys == {q.Id()} && HarmlessReachable(With(State(f, b, map[]), a, x))
    ensures HarmlessReachable(With(State(Undesired(f), b, map[]), a, x))
  {
    var s := State(f, b, map[]);
    OneBeside(s, UserDelete(q.Id()), a, x);
    var s1 := Apply(s, UserDelete(q.Id()));
    assert s1.front.events == [Removed(q)] && s1.front.events[1..] == [];
    OneBeside(s1, Deliver, a, x);
    assert f.snaps - {q.Id()} == map[] && f.desired - {q.Key()} == map[] && f.store - {q.Id()} == map[];
    assert Apply(s1, Deliver).front == Undesired(f);
  }

  function Undesired(f: Front): Front {
    f.(snaps := map[], desired := map[], store := map[])
  }

  /** The delete operation removes the backend snapshot and the data object. */
  lemma DataDeleted(f: Front, b: Back, q: Snapshot, a: string, x: Op)
    requires f.desired == map[] && q in f.seenActual
    requires Finds(b.data, q.Key(), 0) && DeleteOpName(q) != a
    requires HarmlessReachable(With(State(f, b, map[]), a, x))
    ensures HarmlessReachable(With(Running(f, BackAfterDelete(b, 0), DeleteOpName(q), Some(DeleteActual(q))), a, x))
  {
    var s, n := State(f, b, map[]), DeleteOpName(q);
    var three := [Go(n, 0)] + ([Go(n, 0)] + ([Go(n, 0)] + []));
    FireStep(s, FireDelete(q), three);
    DeleteSteps(f, b, n, q);
    ThenBeside(s, [FireDelete(q)] + three, Running(f, BackAfterDelete(b, 0), n, Some(DeleteActual(q))), a, x);
  }

  lemma DeleteSteps(f: Front, b: Back, n: string, q: Snapshot)
    requires Finds(b.data, q.Key(), 0)
    ensures Exec(Running(f, b, n, Some(DeleteLookup(q))), [Go(n, 0)] + ([Go(n, 0)] + ([Go(n, 0)] + [])))
         == Some(Running(f, BackAfterDelete(b, 0), n, Some(DeleteActual(q))))
  {
    GoStep(f, b, n, DeleteLookup(q), 0, [Go(n, 0)] + ([Go(n, 0)] + []));
    GoStep(f, b, n, DeleteBackend(q, 0, b.data[0]), 0, [Go(n, 0)] + []);
    GoStep(f, Release(b, 0, b.data[0].source), n, DeleteData(q, 0), 0, []);
  }

  /** The waiting POST is retried and succeeds. */
  lemma PostRetried(f: Front, b: Back, n: string, q: Snapshot, o: Snapshot)
    requires n != CreateOpName(o)
    requires HarmlessReachable(With(Running(f, b, n, Some(DeleteActual(q))), CreateOpName(o), CreatePost(o, 0, 0, 1)))
    requires 0 !in b.data && 0 in b.posted
    ensures exists s :: HarmlessReachable(s) && s.front == f && s.back == Post(b, 0, PendingData(o, 0))
  {
    var a := CreateOpName(o);
    var s := With(Running(f, b, n, Some(DeleteActual(q))), a, CreatePost(o, 0, 0, 1));
    ThenOne(s, Go(a, 0));
    assert Apply(s, Go(a, 0)).back == Post(b, 0, PendingData(o, 0));
  }

  /** In the end an actual-state entry names data that is present and not Ready. */
  lemma ResurrectedData(o: Snapshot, pvc: string) returns (s: State, key: string)
    requires Fresh(o) && pvc != o.pvc
    ensures HarmlessReachable(s) && key in s.front.actual && s.front.actual[key].dataName.Some?
    ensures var d := s.front.actual[key].dataName.value;
            d in s.back.data && !s.back.data[d].ready && d in s.back.reposted
  {
    var p := o.(pvc := pvc, version := 1);
    var a, x := CreateOpName(o), CreatePost(o, 0, 0, 1);
    OpNamesDiffer(o, p);
    PostReportedFailed(o);
    var b0 := BackAfterPost(Init.back, o);
    Recreated(o, p, b0, a, x);
    BoundAgain(o, p, b0, a, x);
    var f, b, q := FrontAfterBind(Again(o, p), p, 0), BackAfterPost(b0, p), BoundObject(Again(o, p), p, 0);
    AgainFacts(o, p, f, b, q);
    ReadyAgain(f, b, q, a, x);
    s := Resurrected(o, q, AddActual(f, q), BackAfterStatus(b, 0));
    key := q.Key();
  }

  lemma AgainFacts(o: Snapshot, p: Snapshot, f: Front, b: Back, q: Snapshot)
    requires Fresh(o) && p == o.(pvc := p.pvc, version := 1)
    requires f == FrontAfterBind(Again(o, p), p, 0) && q == BoundObject(Again(o, p), p, 0)
    requires b == BackAfterPost(BackAfterPost(Init.back, o), p)
    ensures Startable(State(f, b, map[]), q) && q.dataName == Some(0) && CreateOpName(q) == CreateOpName(p)
    ensures q.Key() == o.Key() && q.Id() == o.Id()
    ensures f.snaps == map[q.Id() := q] && f.events == [] && f.desired == map[q.Key() := q] && f.store.Keys == {q.Id()}
    ensures 0 in b.data && !b.data[0].ready && Finds(BackAfterStatus(b, 0).data, q.Key(), 0) && 0 in b.posted
  {
    MakeThenParse(q.namespace, q.name);
  }

  lemma Resurrected(o: Snapshot, q: Snapshot, f: Front, b: Back) returns (s: State)
    requires q.Key() == o.Key() && q.Id() == o.Id() && q.dataName == Some(0)
    requires HarmlessReachable(With(State(f, b, map[]), CreateOpName(o), CreatePost(o, 0, 0, 1)))
    requires f.snaps == map[q.Id() := q] && f.events == [] && f.desired == map[q.Key() := q]
    requires f.store.Keys == {q.Id()} && q in f.seenActual
    requires Finds(b.data, q.Key(), 0) && 0 in b.posted
    ensures HarmlessReachable(s) && s.front.actual == f.actual
    ensures 0 in s.back.data && !s.back.data[0].ready && 0 in s.back.reposted
  {
    var a, x := CreateOpName(o), CreatePost(o, 0, 0, 1);
    assert DeleteOpName(q)[0] != a[0];
    DeletedAgain(f, b, q, a, x);
    DataDeleted(Undesired(f), b, q, a, x);
    PostRetried(Undesired(f), BackAfterDelete(b, 0), DeleteOpName(q), q, o);
    s :| HarmlessReachable(s) && s.front == Undesired(f) && s.back == Post(BackAfterDelete(b, 0), 0, PendingData(o, 0));
  }

  lemma OpNamesDiffer(o: Snapshot, p: Snapshot)
    requires p.Key() == o.Key() && p.pvc != o.pvc
    ensures CreateOpName(p) != CreateOpName(o)
  {
    var n := |"create" + o.Key()|;
    assert CreateOpName(o)[n..] == o.pvc && CreateOpName(p)[n..] == p.pvc;
  }
}
