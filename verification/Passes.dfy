/** A whole reconcile pass: the operations it fires run side by side, in any interleaving with each
    other and with the delivery of events, and all their calls succeed. */
module Passes {
  import opened Wrappers
  import opened Faults
  import opened SnapshotNames
  import opened Controller
  import opened ControllerInvariant
  import opened InformerSync
  import opened Convergence
  import opened Draining

  // ---- what a pass fires ----

  predicate ToDelete(f: Front, k: string) { k in f.actual && k !in f.desired }
  predicate ToCreate(f: Front, k: string) { k in f.desired && k !in f.actual }

  /** The object the operation of a name is fired with, and the operation's name. */
  function Target(f: Front, k: string): Snapshot
    requires ToDelete(f, k) || ToCreate(f, k)
  {
    if ToDelete(f, k) then f.actual[k] else f.desired[k]
  }

  function TargetOp(f: Front, k: string): string
    requires ToDelete(f, k) || ToCreate(f, k)
  {
    if ToDelete(f, k) then DeleteOpName(Target(f, k)) else CreateOpName(Target(f, k))
  }

  /** The operation of name k, fired by a pass that started from f, is running. */
  predicate Runs(f: Front, ops: map<string, Op>, k: string) {
    && (ToDelete(f, k) || ToCreate(f, k))
    && TargetOp(f, k) in ops && ops[TargetOp(f, k)].snap == Target(f, k)
  }

  predicate StatusKind(op: Op) {
    op.StatusGet? || op.StatusDescribe? || op.StatusReget? || op.StatusPut? || op.StatusAdd?
  }

  /** Data that was posted for name k. */
  predicate OwnData(b: Back, k: string, d: DataName) {
    d in b.data && d in b.posted && b.posted[d].refName == k
  }

  ghost predicate HasOwn(b: Back, k: string) {
    exists d :: OwnData(b, k, d)
  }

  // ---- where each name stands during a pass ----

  ghost predicate DeleteStands(f: Front, fired: set<string>, s: State, k: string)
    requires ToDelete(f, k)
  {
    if k !in fired then k in s.front.actual && HasOwn(s.back, k)
    else if Runs(f, s.ops, k) then
      match s.ops[TargetOp(f, k)]
      case DeleteLookup(_) => k in s.front.actual && HasOwn(s.back, k)
      case DeleteBackend(_, d, _) => OwnData(s.back, k, d)
      case DeleteData(_, d) => OwnData(s.back, k, d)
      case DeleteActual(_) => true
      case _ => false
    else k !in s.front.actual
  }

  ghost predicate StatusStands(f: Front, fired: set<string>, s: State, k: string)
    requires ToCreate(f, k) && f.desired[k].dataName.Some?
  {
    var o, d := f.desired[k], f.desired[k].dataName.value;
    && OwnData(s.back, k, d) && o.Id() in s.front.snaps && s.front.snaps[o.Id()].dataName == Some(d)
    && if k !in fired then k !in s.front.actual
       else if Runs(f, s.ops, k) then
         StatusKind(s.ops[TargetOp(f, k)]) && (s.ops[TargetOp(f, k)].StatusAdd? ==> s.back.data[d].ready)
       else k in s.front.actual && s.back.data[d].ready
  }

  ghost predicate BindStands(f: Front, fired: set<string>, s: State, k: string)
    requires ToCreate(f, k) && f.desired[k].dataName.None?
  {
    var id := f.desired[k].Id();
    && k !in s.front.actual && id in s.front.snaps
    && if k !in fired then s.front.snaps[id].dataName.None?
       else if Runs(f, s.ops, k) then
         match s.ops[TargetOp(f, k)]
         case CreateTake(_) => true
         case CreatePost(_, _, uid, tries) => tries == 0 && uid !in s.back.posted
         case BindGet(_) => HasOwn(s.back, k)
         case BindLookup(_, live) => HasOwn(s.back, k) && live == s.front.snaps[id]
         case BindPut(_, live, d) => OwnData(s.back, k, d) && live == s.front.snaps[id]
         case _ => false
       else s.front.snaps[id].dataName.Some? && OwnData(s.back, k, s.front.snaps[id].dataName.value)
  }

  /** A name that needs nothing stays as it is. */
  ghost predicate RestStands(f: Front, s: State, k: string) {
    if k in f.desired then
      && k in s.front.actual && f.desired[k].Id() in s.front.snaps
      && var o := s.front.snaps[f.desired[k].Id()];
         o.dataName.Some? && OwnData(s.back, k, o.dataName.value) && s.back.data[o.dataName.value].ready
    else k !in s.front.actual
  }

  ghost predicate Stands(f: Front, fired: set<string>, s: State, k: string) {
    if ToDelete(f, k) then DeleteStands(f, fired, s, k)
    else if !ToCreate(f, k) then RestStands(f, s, k)
    else if f.desired[k].dataName.Some? then StatusStands(f, fired, s, k)
    else BindStands(f, fired, s, k)
  }

  /** The desired names, the API server's ids and the kind of events do not change. */
  ghost predicate SameNames(f: Front, g: Front) {
    && g.desired.Keys == f.desired.Keys && g.snaps.Keys == f.snaps.Keys
    && forall e :: e in g.events ==> e.Upserted? && e.obj.Key() in f.desired
  }

  /** Every running operation was fired by the pass. */
  ghost predicate OpsFired(f: Front, fired: set<string>, ops: map<string, Op>) {
    forall n :: n in ops ==> OpFired(f, fired, n, ops[n])
  }

  ghost predicate OpFired(f: Front, fired: set<string>, n: string, op: Op) {
    var k := op.snap.Key();
    && k in fired && (ToDelete(f, k) || ToCreate(f, k)) && TargetOp(f, k) == n && op.snap == Target(f, k)
  }

  ghost predicate AllStand(f: Front, fired: set<string>, s: State) {
    forall k {:trigger Stands(f, fired, s, k)} :: Stands(f, fired, s, k)
  }

  /** Entries are under their own names, and have been seen. */
  ghost predicate Proper(f: Front) {
    && (forall k :: k in f.desired ==> ProperEntry(f.desired[k], k) && f.desired[k] in f.seenDesired)
    && (forall k :: k in f.actual ==> f.actual[k].Key() == k && f.actual[k] in f.seenActual)
  }

  ghost predicate ProperEntry(o: Snapshot, k: string) {
    o.Key() == k && NoSlash(o.namespace) && NoSlash(o.name)
  }

  ghost predicate SeenSince(f: Front, g: Front) {
    f.seenDesired <= g.seenDesired && f.seenActual <= g.seenActual
  }

  /** The invariant of a pass that started with the state of world f. */
  ghost predicate PassInv(f: Front, fired: set<string>, s: State) {
    && Proper(f) && SeenSince(f, s.front) && Inv(s) && SyncInv(s) && SameNames(f, s.front) &&
         OpsFired(f, fired, s.ops) && AllStand(f, fired, s)
  }

  // ---- a step about one name leaves the others alone ----

  ghost predicate DataAside(b: Back, c: Back, k: string) {
    forall j, d {:trigger OwnData(b, j, d)} ::
      j != k && OwnData(b, j, d) ==> OwnData(c, j, d) && (b.data[d].ready ==> c.data[d].ready)
  }

  ghost predicate FrontAside(f: Front, g: Front, k: string) {
    && (forall j :: j != k ==> (j in g.actual <==> j in f.actual))
    && (forall id :: id in f.snaps && f.snaps[id].Key() != k ==> id in g.snaps && g.snaps[id] == f.snaps[id])
  }

  /** Only the operation named n differs, and it is about name k. */
  ghost predicate OpsAside(ops: map<string, Op>, ops': map<string, Op>, n: string, k: string) {
    && ops - {n} == ops' - {n}
    && (n in ops ==> ops[n].snap.Key() == k) && (n in ops' ==> ops'[n].snap.Key() == k)
  }

  /** No data name another operation is about to post is posted. */
  ghost predicate PostAside(ops: map<string, Op>, b: Back, c: Back, n: string) {
    forall m :: m in ops && m != n && ops[m].CreatePost? && ops[m].uid !in b.posted ==> ops[m].uid !in c.posted
  }

  lemma SameRuns(f: Front, ops: map<string, Op>, ops': map<string, Op>, n: string, k: string, j: string)
    requires Proper(f) && OpsAside(ops, ops', n, k) && j != k
    ensures Runs(f, ops, j) <==> Runs(f, ops', j)
    ensures Runs(f, ops, j) ==> ops[TargetOp(f, j)] == ops'[TargetOp(f, j)]
  {
    if ToDelete(f, j) || ToCreate(f, j) {
      var m := TargetOp(f, j);
      assert Target(f, j).Key() == j;
      if m != n {
        assert m in ops <==> m in ops - {n};
        assert m in ops' <==> m in ops' - {n};
        assert m in ops ==> ops[m] == (ops - {n})[m] == (ops' - {n})[m] == ops'[m];
      }
    }
  }

  lemma OthersStand(f: Front, fired: set<string>, fired': set<string>, s: State, t: State, n: string, k: string,
                    j: string)
    requires Proper(f) && Stands(f, fired, s, j) && j != k
    requires DataAside(s.back, t.back, k) && FrontAside(s.front, t.front, k) && OpsAside(s.ops, t.ops, n, k)
    requires forall id :: id in s.front.snaps ==> s.front.snaps[id].Id() == id
    requires j in fired' <==> j in fired
    requires PostAside(s.ops, s.back, t.back, n) && (n in s.ops ==> s.ops[n].snap.Key() == k)
    ensures Stands(f, fired', t, j)
  {
    SameRuns(f, s.ops, t.ops, n, k, j);
    if HasOwn(s.back, j) {
      var d :| OwnData(s.back, j, d);
      assert OwnData(t.back, j, d);
    }
    if j in f.desired {
      var id := f.desired[j].Id();
      if id in s.front.snaps { assert s.front.snaps[id].Key() == f.desired[j].Key() == j; }
    }
  }

  // ---- a successful call keeps its own name standing ----

  /** The state after a successful call of the operation of name k. */
  ghost predicate Steps(f: Front, fired: set<string>, s: State, k: string, pick: DataName, t: State) {
    && Proper(f) && k in fired && Runs(f, s.ops, k)
    && OpEnabled(s.front, s.back, s.ops[TargetOp(f, k)], Ok, pick)
    && t == AdvanceOp(s, TargetOp(f, k), Ok, pick)
  }

  lemma FoundIsOwn(s: State, o: Snapshot, d: DataName)
    requires Inv(s) && NoSlash(o.namespace) && NoSlash(o.name) && Finds(s.back.data, o.Key(), d)
    ensures OwnData(s.back, o.Key(), d)
  {
    LookupIsExact(s.back, o, d);
  }

  lemma DeleteSteps(f: Front, fired: set<string>, s: State, k: string, pick: DataName, t: State)
    requires Inv(s) && Steps(f, fired, s, k, pick, t) && ToDelete(f, k) && DeleteStands(f, fired, s, k)
    ensures DeleteStands(f, fired, t, k)
  {
    var n := TargetOp(f, k);
    var op := s.ops[n];
    assert op.snap.Key() == k && SnapOk(s.back, op.snap);
    if op.DeleteLookup? { FoundIsOwn(s, op.snap, pick); }
  }

  lemma StatusSteps(f: Front, fired: set<string>, s: State, k: string, pick: DataName, t: State)
    requires Inv(s) && Steps(f, fired, s, k, pick, t) && ToCreate(f, k) && f.desired[k].dataName.Some?
    requires StatusStands(f, fired, s, k)
    ensures StatusStands(f, fired, t, k)
  {
    var n := TargetOp(f, k);
    assert s.ops[n].snap == f.desired[k] && f.desired[k].Key() == k;
  }

  lemma BindSteps(f: Front, fired: set<string>, s: State, k: string, pick: DataName, t: State)
    requires Inv(s) && Steps(f, fired, s, k, pick, t) && ToCreate(f, k) && f.desired[k].dataName.None?
    requires BindStands(f, fired, s, k)
    ensures BindStands(f, fired, t, k)
  {
    var n := TargetOp(f, k);
    var op, o := s.ops[n], f.desired[k];
    assert op.snap == o && o.Key() == k;
    if op.CreatePost? { assert OwnData(t.back, k, op.uid); }
    if op.BindGet? { MakeThenParse(o.namespace, o.name); OwnKept(s, t, k); }
    if op.BindLookup? { FoundIsOwn(s, o, pick); }
    if op.BindPut? { assert s.front.snaps[o.Id()].Id() == o.Id(); }
  }

  lemma OwnKept(s: State, t: State, k: string)
    requires t.back == s.back && HasOwn(s.back, k)
    ensures HasOwn(t.back, k)
  {
  }

  lemma OwnStands(f: Front, fired: set<string>, s: State, k: string, pick: DataName, t: State)
    requires Inv(s) && Steps(f, fired, s, k, pick, t) && Stands(f, fired, s, k)
    ensures Stands(f, fired, t, k)
  {
    if ToDelete(f, k) {
      DeleteSteps(f, fired, s, k, pick, t);
    } else if f.desired[k].dataName.Some? {
      StatusSteps(f, fired, s, k, pick, t);
    } else {
      BindSteps(f, fired, s, k, pick, t);
    }
  }

  /** And it leaves the other names alone. */
  lemma StepAside(f: Front, fired: set<string>, s: State, k: string, pick: DataName, t: State)
    requires Inv(s) && Steps(f, fired, s, k, pick, t) && Stands(f, fired, s, k)
    ensures DataAside(s.back, t.back, k) && FrontAside(s.front, t.front, k)
    ensures OpsAside(s.ops, t.ops, TargetOp(f, k), k) && PostAside(s.ops, s.back, t.back, TargetOp(f, k))
  {
    var op := s.ops[TargetOp(f, k)];
    assert Target(f, k).Key() == k && op.snap.Key() == k;
    if op.BindPut? { BindPutOwn(s, TargetOp(f, k)); }
    AdvanceFront(s.front, op, k);
    AdvanceOps(s, TargetOp(f, k), pick, k);
    BackAside(f, fired, s, k, pick, t.back);
    AdvancePosts(s, TargetOp(f, k), pick);
  }

  lemma AdvancePosts(s: State, n: string, pick: DataName)
    requires Inv(s) && n in s.ops && OpEnabled(s.front, s.back, s.ops[n], Ok, pick)
    ensures PostAside(s.ops, s.back, AdvanceOp(s, n, Ok, pick).back, n)
  {
    forall m | m in s.ops && m != n && s.ops[m].CreatePost? ensures Apart(s.ops[n], s.ops[m]) {}
  }

  lemma BindPutOwn(s: State, n: string)
    requires Inv(s) && n in s.ops && s.ops[n].BindPut?
    ensures s.ops[n].live.Key() == s.ops[n].snap.Key()
    ensures forall id :: id in s.front.snaps ==> s.front.snaps[id].Id() == id
  {
  }

  lemma AdvanceFront(f: Front, op: Op, k: string)
    requires op.snap.Key() == k && (op.BindPut? ==> op.live.Key() == k)
    requires op.BindPut? ==> forall id :: id in f.snaps ==> f.snaps[id].Id() == id
    ensures FrontAside(f, NextFront(f, op, Ok), k)
  {
    if op.BindPut? && Current(f, op.live) {
      assert f.snaps[op.live.Id()].Key() == op.live.Key();
    }
  }

  lemma AdvanceOps(s: State, n: string, pick: DataName, k: string)
    requires n in s.ops && s.ops[n].snap.Key() == k && OpEnabled(s.front, s.back, s.ops[n], Ok, pick)
    ensures OpsAside(s.ops, AdvanceOp(s, n, Ok, pick).ops, n, k)
  {
    var (c, next) := NextOp(s.front, s.back, s.ops[n], Ok, pick);
    var ops := SetOp(s.ops, n, next);
    assert s.ops - {n} == ops - {n};
  }

  lemma BackAside(f: Front, fired: set<string>, s: State, k: string, pick: DataName, c: Back)
    requires Proper(f) && k in fired && Runs(f, s.ops, k) && Stands(f, fired, s, k)
    requires OpEnabled(s.front, s.back, s.ops[TargetOp(f, k)], Ok, pick)
    requires c == NextOp(s.front, s.back, s.ops[TargetOp(f, k)], Ok, pick).0
    ensures DataAside(s.back, c, k)
  {
  }

  // ---- every step of a pass keeps the invariant ----

  /** What may happen during a pass: events are delivered, calls succeed, and each name that needs it
      is fired once, with the object the pass copied. */
  ghost predicate PassLabel(f: Front, fired: set<string>, l: Label) {
    match l
    case Deliver => true
    case Advance(_, outcome, _) => outcome == Ok
    case FireDelete(o) => ToDelete(f, o.Key()) && o == f.actual[o.Key()] && o.Key() !in fired
    case FireCreate(o) => ToCreate(f, o.Key()) && o == f.desired[o.Key()] && o.Key() !in fired
    case _ => false
  }

  function FiredAfter(fired: set<string>, l: Label): set<string> {
    if l.FireDelete? || l.FireCreate? then fired + {l.obj.Key()} else fired
  }

  /** Where a name stands does not depend on the informer. */
  lemma SameStands(f: Front, fired: set<string>, s: State, t: State, k: string)
    requires t.front.actual == s.front.actual && t.front.snaps == s.front.snaps && t.back == s.back && t.ops == s.ops
    requires Stands(f, fired, s, k)
    ensures Stands(f, fired, t, k)
  {
  }

  lemma DeliverPass(f: Front, fired: set<string>, s: State)
    requires SameNames(f, s.front) && AllStand(f, fired, s) && s.front.events != []
    ensures var t := Apply(s, Deliver); SameNames(f, t.front) && AllStand(f, fired, t)
  {
    var t := Apply(s, Deliver);
    assert s.front.events[0] in s.front.events;
    forall k ensures Stands(f, fired, t, k) {
      assert Stands(f, fired, s, k);
      SameStands(f, fired, s, t, k);
    }
  }

  lemma FireOwn(f: Front, fired: set<string>, s: State, l: Label, k: string)
    requires Proper(f) && (l.FireDelete? || l.FireCreate?) && Enabled(s, l) && PassLabel(f, fired, l) &&
               k == l.obj.Key()
    requires Stands(f, fired, s, k)
    ensures Stands(f, FiredAfter(fired, l), Apply(s, l), k)
  {
    assert Runs(f, Apply(s, l).ops, k);
  }

  lemma FireAside(f: Front, fired: set<string>, s: State, l: Label, k: string)
    requires (l.FireDelete? || l.FireCreate?) && Enabled(s, l) && PassLabel(f, fired, l) && k == l.obj.Key()
    ensures var t := Apply(s, l);
      DataAside(s.back, t.back, k) && FrontAside(s.front, t.front, k) && OpsAside(s.ops, t.ops, TargetOp(f, k), k)
      && PostAside(s.ops, s.back, t.back, TargetOp(f, k)) && TargetOp(f, k) !in s.ops
  {
    var n := TargetOp(f, k);
    assert Apply(s, l).ops - {n} == s.ops - {n};
  }

  lemma FireFired(f: Front, fired: set<string>, s: State, l: Label)
    requires Proper(f) && OpsFired(f, fired, s.ops)
    requires (l.FireDelete? || l.FireCreate?) && Enabled(s, l) && PassLabel(f, fired, l)
    ensures OpsFired(f, FiredAfter(fired, l), Apply(s, l).ops)
  {
    var t, n := Apply(s, l), TargetOp(f, l.obj.Key());
    forall m | m in t.ops ensures OpFired(f, FiredAfter(fired, l), m, t.ops[m]) {
      if m != n { assert OpFired(f, fired, m, s.ops[m]); }
    }
  }

  lemma FirePass(f: Front, fired: set<string>, s: State, l: Label)
    requires PassInv(f, fired, s) && (l.FireDelete? || l.FireCreate?) && Enabled(s, l) && PassLabel(f, fired, l)
    ensures AllStand(f, FiredAfter(fired, l), Apply(s, l))
  {
    var t, k, fired' := Apply(s, l), l.obj.Key(), FiredAfter(fired, l);
    SnapIds(s);
    FireAside(f, fired, s, l, k);
    forall j ensures Stands(f, fired', t, j) {
      assert Stands(f, fired, s, j);
      if j == k { FireOwn(f, fired, s, l, k); } else { OthersStand(f, fired, fired', s, t, TargetOp(f, k), k, j); }
    }
  }

  lemma SnapIds(s: State)
    requires Inv(s)
    ensures forall id :: id in s.front.snaps ==> s.front.snaps[id].Id() == id
  {
  }

  lemma AdvancePass(f: Front, fired: set<string>, s: State, n: string, pick: DataName)
    requires PassInv(f, fired, s) && n in s.ops && OpEnabled(s.front, s.back, s.ops[n], Ok, pick)
    ensures var t := AdvanceOp(s, n, Ok, pick); OpsFired(f, fired, t.ops) && AllStand(f, fired, t)
  {
    var t, k := AdvanceOp(s, n, Ok, pick), s.ops[n].snap.Key();
    assert OpFired(f, fired, n, s.ops[n]);
    assert Steps(f, fired, s, k, pick, t) && Stands(f, fired, s, k);
    StepAside(f, fired, s, k, pick, t);
    SnapIds(s);
    forall j ensures Stands(f, fired, t, j) {
      assert Stands(f, fired, s, j);
      if j == k { OwnStands(f, fired, s, k, pick, t); } else { OthersStand(f, fired, fired, s, t, n, k, j); }
    }
    AdvanceFired(f, fired, s, n, pick);
  }

  lemma AdvanceFired(f: Front, fired: set<string>, s: State, n: string, pick: DataName)
    requires OpsFired(f, fired, s.ops) && n in s.ops && OpEnabled(s.front, s.back, s.ops[n], Ok, pick)
    ensures OpsFired(f, fired, AdvanceOp(s, n, Ok, pick).ops)
  {
    var (_, next) := NextOp(s.front, s.back, s.ops[n], Ok, pick);
    assert OpFired(f, fired, n, s.ops[n]);
    assert next.Some? ==> next.value.snap == s.ops[n].snap;
  }

  lemma AdvanceNames(f: Front, fired: set<string>, s: State, n: string)
    requires Inv(s) && SameNames(f, s.front) && OpsFired(f, fired, s.ops) && AllStand(f, fired, s) && n in s.ops
    ensures SameNames(f, NextFront(s.front, s.ops[n], Ok))
  {
    var op := s.ops[n];
    if op.BindPut? {
      BindPutOwn(s, n);
      var k := op.snap.Key();
      assert OpFired(f, fired, n, op) && Stands(f, fired, s, k);
      assert k in f.desired;
      assert s.front.snaps.Keys == f.snaps.Keys;
    }
  }

  lemma PassStep(f: Front, fired: set<string>, s: State, l: Label)
    requires PassInv(f, fired, s) && Enabled(s, l) && PassLabel(f, fired, l)
    ensures PassInv(f, FiredAfter(fired, l), Apply(s, l))
  {
    StepKeepsInv(s, l);
    HarmExactly(s, l);
    SeenGrows(s, l);
    match l
    case Deliver => DeliverPass(f, fired, s);
    case Advance(n, _, pick) =>
      AdvancePass(f, fired, s, n, pick);
      AdvanceNames(f, fired, s, n);
    case _ =>
      FirePass(f, fired, s, l);
      FireFired(f, fired, s, l);
  }

  // ---- whole passes ----

  /** The labels are a pass from s that has fired the given names already. */
  ghost predicate PassRun(f: Front, fired: set<string>, s: State, labels: seq<Label>)
    decreases |labels|
  {
    labels != [] && Enabled(s, labels[0]) ==>
      PassLabel(f, fired, labels[0]) && PassRun(f, FiredAfter(fired, labels[0]), Apply(s, labels[0]), labels[1..])
  }

  function AllFired(fired: set<string>, labels: seq<Label>): set<string>
    decreases |labels|
  {
    if labels == [] then fired else AllFired(FiredAfter(fired, labels[0]), labels[1..])
  }

  lemma {:induction false} RunKeepsPass(f: Front, fired: set<string>, s: State, labels: seq<Label>)
    requires PassInv(f, fired, s) && Exec(s, labels).Some? && PassRun(f, fired, s, labels)
    ensures PassInv(f, AllFired(fired, labels), Exec(s, labels).value)
    decreases |labels|
  {
    if labels != [] {
      PassStep(f, fired, s, labels[0]);
      RunKeepsPass(f, FiredAfter(fired, labels[0]), Apply(s, labels[0]), labels[1..]);
    }
  }

  /** A quiescent, healthy state whose desired names are all backed: the populator has done its part. */
  ghost predicate Ready(s: State) {
    Calm(s) && SyncInv(s) && Healthy(s) && Unbacked(s.front) == {}
  }

  lemma ReadyWhen(s: State)
    requires HarmlessReachable(s) && Drained(s) && Healthy(s) && Unbacked(s.front) == {}
    ensures Ready(s)
  {
    var labels :| Exec(Init, labels) == Some(s) && HarmlessRun(Init, labels);
    DrainedIsCalm(s);
    RunSyncExactly(Init, labels);
  }

  lemma ReadyBacked(s: State, k: string)
    requires Ready(s) && k in s.front.desired
    ensures Backed(s.front, k)
  {
    assert Backed(s.front, k) || k in Unbacked(s.front);
  }

  lemma PassStarts(s: State)
    requires Ready(s)
    ensures PassInv(s.front, {}, s)
  {
    ProperFront(s);
    forall k ensures Stands(s.front, {}, s, k) { StartStands(s, k); }
  }

  lemma ProperFront(s: State)
    requires Inv(s)
    ensures Proper(s.front)
  {
  }

  lemma StartStands(s: State, k: string)
    requires Ready(s)
    ensures Stands(s.front, {}, s, k)
  {
    var f := s.front;
    if k in f.desired {
      ReadyBacked(s, k);
      StartCreate(s, k);
    } else if k in f.actual {
      assert NameHealthy(s, k);
      var d :| Finds(s.back.data, k, d);
      FindsOnlyOwn(s, k, d);
      assert OwnData(s.back, k, d);
    }
  }

  lemma StartCreate(s: State, k: string)
    requires Inv(s) && Quiescent(s) && Healthy(s) && k in s.front.desired && Backed(s.front, k)
    ensures Stands(s.front, {}, s, k)
  {
    var f, o := s.front, s.front.desired[k];
    var p := f.snaps[o.Id()];
    assert o.Key() == k && p.Id() == o.Id();
    assert p.Key() == k;
    assert Synced(f, o.Id()) && SnapHealthy(s, o.Id());
    if p.dataName.Some? { SnapRef(s, o.Id()); }
  }

  // ---- the end of a pass ----

  lemma SyncedWhenDrained(s: State)
    requires Inv(s) && SyncInv(s) && Drained(s)
    ensures Calm(s)
  {
    forall id ensures Synced(s.front, id) { assert Matched(s.front, id); }
  }

  /** Every name that needed an operation was given one. */
  ghost predicate Covers(f: Front, fired: set<string>) {
    forall k :: ToDelete(f, k) || ToCreate(f, k) ==> k in fired
  }

  /** Where a name stands when all has ended: the deleted ones are gone, the bound ones are actual and
      Ready, and those that were unbound are bound. */
  ghost predicate InPlace(f: Front, t: State, k: string) {
    && (k !in f.desired ==> k !in t.front.actual)
    && (k in f.desired ==>
          && f.desired[k].Id() in t.front.snaps
          && (k in t.front.actual <==> !(ToCreate(f, k) && f.desired[k].dataName.None?))
          && var o := t.front.snaps[f.desired[k].Id()];
             && o.dataName.Some? && o.dataName.value in t.back.data
             && (k in t.front.actual ==> t.back.data[o.dataName.value].ready))
  }

  lemma EndServed(f: Front, fired: set<string>, t: State, k: string)
    requires t.ops == map[] && Covers(f, fired) && Stands(f, fired, t, k)
    ensures InPlace(f, t, k)
  {
  }

  /** The desired entry of a name agrees with its snapshot, which is the one the pass started with. */
  lemma EndEntry(f: Front, t: State, k: string)
    requires Proper(f) && Calm(t) && SameNames(f, t.front) && k in f.desired && f.desired[k].Id() in t.front.snaps
    ensures k in t.front.desired && t.front.desired[k].Id() == f.desired[k].Id()
    ensures t.front.desired[k].dataName == t.front.snaps[f.desired[k].Id()].dataName
  {
    var id := f.desired[k].Id();
    assert k in t.front.desired.Keys;
    assert t.front.desired[k].Key() == k && t.front.desired[k] in t.front.seenDesired;
    SameKeySameId(t.front.desired[k], f.desired[k]);
    var p := t.front.snaps[id];
    assert p.Id() == id;
    assert p.Key() == f.desired[k].Key() == k;
    assert Synced(t.front, id);
  }

  lemma EndSets(f: Front, t: State)
    requires Proper(f) && Calm(t) && SameNames(f, t.front) && forall k :: InPlace(f, t, k)
    ensures Unbacked(t.front) == {} && Obsolete(t.front) == {} && Unbound(t.front) == {}
    ensures forall k :: k in Pending(t.front) <==> ToCreate(f, k) && f.desired[k].dataName.None?
  {
    forall k | k in t.front.desired
      ensures k in f.desired && t.front.desired[k].Id() in t.front.snaps && t.front.desired[k].dataName.Some?
    {
      assert k in t.front.desired.Keys && InPlace(f, t, k);
      EndEntry(f, t, k);
    }
    forall k ensures k in Pending(t.front) <==> ToCreate(f, k) && f.desired[k].dataName.None? {
      assert InPlace(f, t, k) && (k in f.desired.Keys <==> k in t.front.desired.Keys);
    }
    forall k ensures k !in Obsolete(t.front) {
      assert InPlace(f, t, k) && (k in f.desired.Keys <==> k in t.front.desired.Keys);
    }
  }

  lemma EndHealthy(f: Front, t: State)
    requires Calm(t) && SameNames(f, t.front) && Obsolete(t.front) == {} && Unbacked(t.front) == {}
    requires forall k :: InPlace(f, t, k)
    requires forall id :: id in f.snaps ==>
               exists k :: k in f.desired && f.desired[k].Id() == id && SnapName(t, id) == k
    ensures Healthy(t)
  {
    forall id ensures SnapHealthy(t, id) {
      if id in t.front.snaps {
        assert id in f.snaps.Keys;
        var k :| k in f.desired && f.desired[k].Id() == id && SnapName(t, id) == k;
        assert InPlace(f, t, k);
      }
    }
    forall k ensures NameHealthy(t, k) { assert k !in Obsolete(t.front) && k !in Unbacked(t.front); }
  }

  function SnapName(t: State, id: ObjectId): string {
    if id in t.front.snaps then t.front.snaps[id].Key() else ""
  }

  // ---- the theorems ----

  /** A pass in which every name that needs it is fired, and which has come to its end. */
  ghost predicate CompletePass(s: State, labels: seq<Label>, t: State) {
    && Exec(s, labels) == Some(t) && PassRun(s.front, {}, s, labels)
    && Covers(s.front, AllFired({}, labels)) && Drained(t)
  }

  lemma SnapsAreDesired(s: State, t: State, id: ObjectId)
    requires Calm(s) && Inv(t) && id in s.front.snaps && id in t.front.snaps
    ensures var k := SnapName(t, id); k in s.front.desired && s.front.desired[k].Id() == id
  {
    assert Synced(s.front, id) && s.front.snaps[id].Id() == id && t.front.snaps[id].Id() == id;
  }

  /** Whatever the interleaving, a complete pass deletes what is obsolete, makes the bound snapshots
      actual, binds the unbound ones, and leaves a state for the next pass. */
  lemma PassOutcome(s: State, labels: seq<Label>, t: State)
    requires Ready(s) && CompletePass(s, labels, t)
    ensures Ready(t) && Unbound(t.front) == {} && Obsolete(t.front) == {} && Pending(t.front) == Unbound(s.front)
  {
    var f, fired := s.front, AllFired({}, labels);
    PassStarts(s);
    RunKeepsPass(f, {}, s, labels);
    SyncedWhenDrained(t);
    forall k ensures InPlace(f, t, k) {
      assert Stands(f, fired, t, k);
      EndServed(f, fired, t, k);
    }
    EndSets(f, t);
    forall id | id in f.snaps ensures exists k :: k in f.desired && f.desired[k].Id() == id && SnapName(t, id) == k {
      assert id in t.front.snaps.Keys;
      SnapsAreDesired(s, t, id);
    }
    EndHealthy(f, t);
    PendingWereUnbound(s, t);
  }

  lemma PendingWereUnbound(s: State, t: State)
    requires Ready(s)
    requires forall k :: k in Pending(t.front) <==> ToCreate(s.front, k) && s.front.desired[k].dataName.None?
    ensures Pending(t.front) == Unbound(s.front)
  {
    forall k ensures k in Pending(t.front) <==> k in Unbound(s.front) {
      if k in s.front.desired { ReadyBacked(s, k); }
    }
  }

  /** So every complete pass lowers the measure until nothing is left to do. */
  lemma PassLowersMeasure(s: State, labels: seq<Label>, t: State)
    requires Ready(s) && CompletePass(s, labels, t) && !Settled(s)
    ensures Measure(t.front) == |Unbound(s.front)| < Measure(s.front)
  {
    PassOutcome(s, labels, t);
    var f := s.front;
    var k :| Needed(f, k);
    assert Backed(f, k) || k in Unbacked(f);
    assert k in Unbound(f) || k in Pending(f) || k in Obsolete(f);
  }

  /** Two complete passes reach the goal from every healthy state, in every interleaving. */
  lemma TwoPassesReachGoal(s: State, labels: seq<Label>, t: State, labels': seq<Label>, u: State)
    requires Ready(s) && CompletePass(s, labels, t) && CompletePass(t, labels', u)
    ensures Goal(u)
  {
    PassOutcome(s, labels, t);
    PassOutcome(t, labels', u);
    forall k ensures !Needed(u.front, k) {
      assert k !in Unbound(u.front) && k !in Pending(u.front) && k !in Obsolete(u.front);
      if k in u.front.desired { ReadyBacked(u, k); }
    }
    SettledGoal(u);
  }

  lemma OwnIsFound(s: State, k: string, d: DataName)
    requires Inv(s) && OwnData(s.back, k, d)
    ensures Finds(s.back.data, k, d)
  {
  }

  /** During a pass the running operation of a name can make its next call. */
  lemma CallEnabled(f: Front, fired: set<string>, s: State, k: string) returns (pick: DataName)
    requires Proper(f) && Inv(s) && k in fired && Runs(f, s.ops, k) && Stands(f, fired, s, k)
    ensures OpEnabled(s.front, s.back, s.ops[TargetOp(f, k)], Ok, pick)
  {
    var op, o := s.ops[TargetOp(f, k)], Target(f, k);
    assert op.snap == o && o.Key() == k && SnapOk(s.back, o);
    pick := 0;
    if op.DeleteLookup? || op.BindLookup? {
      pick :| OwnData(s.back, k, pick);
      OwnIsFound(s, k, pick);
    } else if op.BindGet? {
      MakeThenParse(o.namespace, o.name);
    } else if op.CreatePost? {
      assert op.uid in s.back.data ==> op.uid in s.back.posted;
    } else if op.BindPut? {
      assert s.front.snaps[o.Id()].Id() == o.Id();
    }
  }

  /** A pass never gets stuck before its end. */
  lemma PassContinues(f: Front, fired: set<string>, s: State) returns (l: Label)
    requires PassInv(f, fired, s) && !Drained(s)
    ensures Enabled(s, l) && Drains(l) && PassLabel(f, fired, l)
  {
    if s.front.events != [] {
      l := Deliver;
    } else {
      var n := AnyName(s.ops);
      var k := s.ops[n].snap.Key();
      assert OpFired(f, fired, n, s.ops[n]) && Stands(f, fired, s, k);
      var pick := CallEnabled(f, fired, s, k);
      l := Advance(n, Ok, pick);
    }
  }

  /** And a name that needs it can be fired as long as no operation of its name is running. */
  lemma CanFire(f: Front, fired: set<string>, s: State, k: string) returns (l: Label)
    requires PassInv(f, fired, s) && (ToDelete(f, k) || ToCreate(f, k)) && k !in fired && TargetOp(f, k) !in s.ops
    ensures Enabled(s, l) && PassLabel(f, fired, l) && FiredAfter(fired, l) == fired + {k} &&
              Apply(s, l).front == s.front
  {
    l := if ToDelete(f, k) then FireDelete(f.actual[k]) else FireCreate(f.desired[k]);
  }

  lemma {:induction false} FinishPass(f: Front, fired: set<string>, s: State) returns (labels: seq<Label>, t: State)
    requires PassInv(f, fired, s)
    ensures Exec(s, labels) == Some(t) && PassRun(f, fired, s, labels) && AllFired(fired, labels) == fired && Drained(t)
    decreases InFlight(s)
  {
    if Drained(s) {
      labels, t := [], s;
    } else {
      var l := PassContinues(f, fired, s);
      PassStep(f, fired, s, l);
      DrainStep(s, l);
      var rest;
      rest, t := FinishPass(f, fired, Apply(s, l));
      labels := [l] + rest;
      assert labels[1..] == rest;
    }
  }

  /** No two names that need it share an operation name. */
  ghost predicate DistinctOps(f: Front) {
    forall j, k {:trigger TargetOp(f, j), TargetOp(f, k)} ::
      (ToDelete(f, j) || ToCreate(f, j)) && (ToDelete(f, k) || ToCreate(f, k)) && TargetOp(f, j) == TargetOp(f, k) ==>
        j == k
  }

  lemma FreeName(f: Front, fired: set<string>, ops: map<string, Op>, k: string)
    requires OpsFired(f, fired, ops) && DistinctOps(f) && (ToDelete(f, k) || ToCreate(f, k)) && k !in fired
    ensures TargetOp(f, k) !in ops
  {
    forall n | n in ops ensures n != TargetOp(f, k) { assert OpFired(f, fired, n, ops[n]); }
  }

  function Unfired(f: Front, fired: set<string>): set<string> {
    set k | k in f.desired.Keys + f.actual.Keys && (ToDelete(f, k) || ToCreate(f, k)) && k !in fired
  }

  lemma {:induction false} FireAndFinish(f: Front, fired: set<string>, s: State) returns (labels: seq<Label>, t: State)
    requires PassInv(f, fired, s) && DistinctOps(f)
    ensures Exec(s, labels) == Some(t) && PassRun(f, fired, s, labels) && Covers(f, AllFired(fired, labels)) &&
              Drained(t)
    decreases Unfired(f, fired)
  {
    if Unfired(f, fired) == {} {
      labels, t := FinishPass(f, fired, s);
      assert forall k :: ToDelete(f, k) || ToCreate(f, k) ==> k in fired || k in Unfired(f, fired);
    } else {
      var k := AnyOf(Unfired(f, fired));
      FreeName(f, fired, s.ops, k);
      var l := CanFire(f, fired, s, k);
      PassStep(f, fired, s, l);
      var rest;
      assert Unfired(f, fired + {k}) < Unfired(f, fired) by { assert k in Unfired(f, fired); }
      rest, t := FireAndFinish(f, fired + {k}, Apply(s, l));
      labels := [l] + rest;
      assert labels[1..] == rest;
    }
  }

  ghost function AnyOf(names: set<string>): (k: string)
    requires names != {}
    ensures k in names
  {
    var k :| k in names;
    k
  }

  /** From a healthy state whose operations have different names a complete pass exists. */
  lemma PassExists(s: State) returns (labels: seq<Label>, t: State)
    requires Ready(s) && DistinctOps(s.front)
    ensures CompletePass(s, labels, t)
  {
    PassStarts(s);
    labels, t := FireAndFinish(s.front, {}, s);
  }
}
