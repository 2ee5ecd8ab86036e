/** What becomes of the snapshots in the volume backend: which of them a delete operation removes, in
    which order, and exactly when one is left that nothing names any more. */
module BackendSnapshots {
  import opened Wrappers
  import opened Faults
  import opened Controller
  import opened ControllerInvariant

  // ---- failed calls ----

  /** The calls of an operation that cannot fail. */
  predicate Local(op: Op) { op.StatusAdd? || op.DeleteActual? }

  /** A failed call ends its operation, except that the POST is made up to five times; and a call that
      fails before taking effect changes nothing else. */
  lemma FailedCall(s: State, n: string, outcome: Outcome, pick: DataName)
    requires n in s.ops && OpEnabled(s.front, s.back, s.ops[n], outcome, pick) && !outcome.Ok? && !Local(s.ops[n])
    ensures var op, t := s.ops[n], AdvanceOp(s, n, outcome, pick);
            && (n in t.ops <==> op.CreatePost? && op.tries < 4)
            && (n in t.ops ==> t.ops[n] == CreatePost(op.snap, op.source, op.uid, op.tries + 1))
            && (outcome.FailBefore? ==> t.front == s.front && t.back == s.back)
  {
  }

  // ---- the order of a deletion ----

  /** Released data was posted, and its source is not in the backend. */
  ghost predicate ReleasedOk(b: Back) {
    forall d :: d in b.released ==> d in b.posted && b.posted[d].source !in b.backend
  }

  /** Data that was posted and is gone has been released. */
  ghost predicate GoneOk(b: Back) {
    forall d :: d in b.posted && d !in b.data ==> d in b.released
  }

  ghost predicate TakenOk(b: Back) {
    forall x :: x in b.backend ==> x < b.nextBackend
  }

  /** Data posted for the snapshot has been released and then removed. */
  ghost predicate WasRemoved(b: Back, o: Snapshot, d: DataName) {
    BoundTo(b, o, d) && d in b.released && (d !in b.data || d in b.reposted)
  }

  ghost predicate DeletionOk(b: Back, op: Op) {
    match op
    case DeleteBackend(o, d, _) => BoundTo(b, o, d)
    case DeleteData(o, d) => BoundTo(b, o, d) && d in b.released
    case DeleteActual(o) => exists d :: WasRemoved(b, o, d)
    case _ => true
  }

  ghost predicate DeletionInv(s: State) {
    && LedgerOk(s.back)
    && forall n :: n in s.ops ==> DeletionOk(s.back, s.ops[n])
  }

  /** A change of the data side that keeps what deletions know. */
  ghost predicate Keeps(b: Back, c: Back) {
    && (forall d :: d in b.posted ==> d in c.posted && c.posted[d] == b.posted[d])
    && b.released <= c.released
    && (forall d :: d in b.posted && d in c.data && d !in b.data ==> d in c.reposted) && b.reposted <= c.reposted
  }

  lemma DeletionKeeps(b: Back, c: Back, op: Op)
    requires Keeps(b, c) && DeletionOk(b, op)
    ensures DeletionOk(c, op)
  {
    if op.DeleteActual? {
      var d :| WasRemoved(b, op.snap, d);
      assert WasRemoved(c, op.snap, d);
    }
  }

  // ---- one effect at a time ----

  ghost predicate KeepsLedger(b: Back, c: Back) {
    Keeps(b, c) && ReleasedOk(c) && GoneOk(c) && TakenOk(c)
  }

  ghost predicate LedgerOk(b: Back) {
    ReleasedOk(b) && GoneOk(b) && TakenOk(b)
  }

  lemma TakeKeeps(b: Back, next: DataName)
    requires PostedOk(b) && LedgerOk(b)
    ensures KeepsLedger(b, Take(b).(nextData := next))
  {
  }

  lemma PostKeeps(b: Back, o: Snapshot, source: BackendId, uid: DataName)
    requires LedgerOk(b) && PostOk(b, o, source, uid) && uid !in b.data
    ensures KeepsLedger(b, Post(b, uid, PendingData(o, source)))
  {
  }

  lemma ReadyKeeps(b: Back, d: DataName, copy: SnapshotData)
    requires LedgerOk(b) && d in b.data
    ensures KeepsLedger(b, SetReady(b, d, copy))
  {
  }

  lemma ReleaseKeeps(b: Back, d: DataName)
    requires PostedOk(b) && LedgerOk(b) && d in b.posted
    ensures KeepsLedger(b, Release(b, d, b.posted[d].source))
  {
  }

  lemma RemoveKeeps(b: Back, d: DataName)
    requires LedgerOk(b) && d in b.released
    ensures KeepsLedger(b, RemoveData(b, d))
  {
  }

  /** One call, on the data side. */
  lemma CallKeeps(s: State, n: string, outcome: Outcome, pick: DataName)
    requires Inv(s) && DeletionInv(s) && n in s.ops && OpEnabled(s.front, s.back, s.ops[n], outcome, pick)
    ensures var (c, _) := NextOp(s.front, s.back, s.ops[n], outcome, pick); KeepsLedger(s.back, c)
  {
    var b, op := s.back, s.ops[n];
    var (c, _) := NextOp(s.front, b, op, outcome, pick);
    assert OpOk(b, op) && DeletionOk(b, op);
    match op
    case StatusPut(o, copy) => if c != b { ReadyKeeps(b, o.dataName.value, copy); }
    case CreateTake(_) => if c != b { TakeKeeps(b, c.nextData); }
    case CreatePost(o, source, uid, _) => if c != b { PostKeeps(b, o, source, uid); }
    case DeleteBackend(_, d, _) => if c != b { ReleaseKeeps(b, d); }
    case DeleteData(_, d) => RemoveKeeps(b, d);
    case _ =>
  }

  /** The next call of the operation. */
  lemma NextDeletion(s: State, n: string, outcome: Outcome, pick: DataName)
    requires Inv(s) && DeletionInv(s) && n in s.ops && OpEnabled(s.front, s.back, s.ops[n], outcome, pick)
    ensures var (c, next) := NextOp(s.front, s.back, s.ops[n], outcome, pick);
            next.Some? ==> DeletionOk(c, next.value)
  {
    var op := s.ops[n];
    assert OpOk(s.back, op) && DeletionOk(s.back, op);
    var (c, next) := NextOp(s.front, s.back, op, outcome, pick);
    if op.DeleteLookup? && next.Some? {
      LookupIsExact(s.back, op.snap, pick);
    } else if op.DeleteData? && next.Some? {
      assert WasRemoved(c, op.snap, op.found);
    }
  }

  lemma StepKeepsDeletion(s: State, l: Label)
    requires Inv(s) && DeletionInv(s) && Enabled(s, l)
    ensures DeletionInv(Apply(s, l))
  {
    if l.Advance? {
      var n, t := l.op, Apply(s, l);
      CallKeeps(s, n, l.outcome, l.pick);
      NextDeletion(s, n, l.outcome, l.pick);
      forall m | m in t.ops ensures DeletionOk(t.back, t.ops[m]) {
        if m != n { DeletionKeeps(s.back, t.back, s.ops[m]); }
      }
    }
  }

  lemma {:induction false} RunKeepsDeletion(s: State, labels: seq<Label>)
    requires Inv(s) && DeletionInv(s) && Exec(s, labels).Some?
    ensures DeletionInv(Exec(s, labels).value)
    decreases |labels|
  {
    if labels != [] {
      StepKeepsInv(s, labels[0]);
      StepKeepsDeletion(s, labels[0]);
      RunKeepsDeletion(Apply(s, labels[0]), labels[1..]);
    }
  }

  lemma ReachableDeletion(s: State)
    requires Reachable(s)
    ensures Inv(s) && DeletionInv(s)
  {
    var labels :| Exec(Init, labels) == Some(s);
    ReachableInv(s);
    RunKeepsDeletion(Init, labels);
  }

  /** In every reachable state the backend snapshot of data that is gone is gone too. */
  lemma GoneWithSource(s: State, d: DataName)
    requires Reachable(s) && d in s.back.posted && d !in s.back.data
    ensures s.back.posted[d].source !in s.back.backend
  {
    ReachableDeletion(s);
  }

  /** A name leaves the actual state of world only after data posted for it, and before that the
      backend snapshot of this data, has been removed. */
  lemma LeavesActualLast(s: State, l: Label, k: string)
    requires Reachable(s) && Enabled(s, l) && k in s.front.actual && k !in Apply(s, l).front.actual
    ensures exists d :: WasRemoved(s.back, s.front.actual[k], d) && s.back.posted[d].source !in s.back.backend
  {
    ReachableDeletion(s);
    OnlyDeleteActual(s, l, k);
    assert DeletionOk(s.back, s.ops[l.op]);
    var d :| WasRemoved(s.back, s.ops[l.op].snap, d);
    assert s.front.actual[k].Key() == k && WasRemoved(s.back, s.front.actual[k], d);
  }

  lemma OnlyDeleteActual(s: State, l: Label, k: string)
    requires Enabled(s, l) && k in s.front.actual && k !in Apply(s, l).front.actual
    ensures l.Advance? && s.ops[l.op].DeleteActual? && s.ops[l.op].snap.Key() == k
  {
  }

  // ---- orphans ----

  ghost predicate NamedByData(b: Back, x: BackendId) {
    exists d :: d in b.data && b.data[d].source == x
  }

  predicate Posts(op: Op, x: BackendId) { op.CreatePost? && op.source == x }

  ghost predicate AboutToPost(ops: map<string, Op>, x: BackendId) {
    exists n :: n in ops && Posts(ops[n], x)
  }

  /** Nothing names the snapshot: no data object has it as its source, and no operation is about to
      post one. */
  ghost predicate Orphan(s: State, x: BackendId) {
    x in s.back.backend && !NamedByData(s.back, x) && !AboutToPost(s.ops, x)
  }

  /** SnapshotCreate is reported failed after it took the snapshot. */
  predicate LosesTaken(s: State, l: Label, x: BackendId) {
    l.Advance? && l.op in s.ops && s.ops[l.op].CreateTake? && l.outcome.FailAfter? && x == s.back.nextBackend
  }

  /** The fifth POST fails too, and the data does not exist. */
  predicate GivesUp(s: State, l: Label, x: BackendId) {
    l.Advance? && l.op in s.ops && s.ops[l.op].CreatePost? && s.ops[l.op].source == x
    && l.outcome.FailBefore? && s.ops[l.op].tries >= 4 && s.ops[l.op].uid !in s.back.data && x in s.back.backend
  }

  predicate Leaks(s: State, l: Label, x: BackendId) {
    LosesTaken(s, l, x) || GivesUp(s, l, x)
  }

  /** Another operation is about to post data with the source. */
  ghost predicate PostedElsewhere(ops: map<string, Op>, n: string, x: BackendId) {
    exists m :: m in ops && m != n && Posts(ops[m], x)
  }

  lemma PostsAt(ops: map<string, Op>, n: string, next: Option<Op>, x: BackendId)
    requires n in ops
    ensures AboutToPost(ops, x) <==> PostedElsewhere(ops, n, x) || Posts(ops[n], x)
    ensures AboutToPost(SetOp(ops, n, next), x) <==> PostedElsewhere(ops, n, x) || (next.Some? && Posts(next.value, x))
  {
    var after := SetOp(ops, n, next);
    forall m | m in ops && m != n ensures m in after && after[m] == ops[m] {}
    if next.Some? { assert n in after && after[n] == next.value; }
  }

  lemma PostNames(b: Back, d: DataName, obj: SnapshotData, x: BackendId)
    requires d !in b.data
    ensures NamedByData(Post(b, d, obj), x) <==> NamedByData(b, x) || obj.source == x
  {
    var c := Post(b, d, obj);
    assert d in c.data && c.data[d] == obj;
    forall e | e in b.data ensures e in c.data && c.data[e] == b.data[e] {}
  }

  lemma ReadyNames(b: Back, d: DataName, copy: SnapshotData, x: BackendId)
    requires d in b.data && copy.source == b.data[d].source
    ensures NamedByData(SetReady(b, d, copy), x) <==> NamedByData(b, x)
  {
    var c := SetReady(b, d, copy);
    forall e ensures e in c.data <==> e in b.data
      ensures e in b.data ==> c.data[e].source == b.data[e].source
    {}
  }

  /** Removing released data takes the name from no snapshot in the backend. */
  lemma RemoveNames(b: Back, d: DataName, x: BackendId)
    requires DataOk(b) && ReleasedOk(b) && d in b.released && x in b.backend
    ensures NamedByData(RemoveData(b, d), x) <==> NamedByData(b, x)
  {
    var c := RemoveData(b, d);
    forall e | e in b.data && b.data[e].source == x ensures e in c.data && c.data[e] == b.data[e] {}
  }

  /** A source in the backend that data was posted with is named by that data. */
  lemma SourceInUse(b: Back, d: DataName)
    requires BackOk(b) && LedgerOk(b) && d in b.posted && b.posted[d].source in b.backend
    ensures NamedByData(b, b.posted[d].source)
  {
    assert d in b.data && b.data[d].source == b.posted[d].source;
  }

  lemma TakeOrphans(s: State, l: Label, x: BackendId)
    requires Inv(s) && DeletionInv(s) && Enabled(s, l) && l.Advance? && s.ops[l.op].CreateTake?
    ensures Orphan(Apply(s, l), x) <==> Orphan(s, x) || Leaks(s, l, x)
  {
    var b, op := s.back, s.ops[l.op];
    var (c, next) := NextOp(s.front, b, op, l.outcome, l.pick);
    PostsAt(s.ops, l.op, next, x);
    assert NamedByData(c, x) <==> NamedByData(b, x);
    assert x == b.nextBackend ==> !NamedByData(b, x);
    if x == b.nextBackend {
      forall m | m in s.ops ensures !Posts(s.ops[m], x) { assert OpOk(b, s.ops[m]); }
    }
  }

  /** The data an operation is about to post is the only one with its source. */
  lemma OnlySource(b: Back, op: Op)
    requires DataOk(b) && op.CreatePost? && OpOk(b, op)
    ensures NamedByData(b, op.source) <==> op.uid in b.data
  {
    if op.uid in b.data { assert b.data[op.uid].source == op.source; }
  }

  lemma PostOrphans(s: State, l: Label, x: BackendId)
    requires Inv(s) && Enabled(s, l) && l.Advance? && s.ops[l.op].CreatePost?
    ensures Orphan(Apply(s, l), x) <==> Orphan(s, x) || Leaks(s, l, x)
  {
    var b, op := s.back, s.ops[l.op];
    var (c, next) := NextOp(s.front, b, op, l.outcome, l.pick);
    assert OpOk(b, op);
    PostsAt(s.ops, l.op, next, x);
    OnlySource(b, op);
    if op.uid !in b.data { PostNames(b, op.uid, PendingData(op.snap, op.source), x); }
    if op.source == x {
      forall m | m in s.ops && m != l.op ensures !Posts(s.ops[m], x) { assert Apart(op, s.ops[m]); }
    }
  }

  lemma DeleteOrphans(s: State, l: Label, x: BackendId)
    requires Inv(s) && DeletionInv(s) && Enabled(s, l) && l.Advance?
    requires s.ops[l.op].DeleteBackend? || s.ops[l.op].DeleteData?
    ensures Orphan(Apply(s, l), x) <==> Orphan(s, x)
  {
    var b, op := s.back, s.ops[l.op];
    var (c, next) := NextOp(s.front, b, op, l.outcome, l.pick);
    assert OpOk(b, op) && DeletionOk(b, op);
    PostsAt(s.ops, l.op, next, x);
    if op.DeleteBackend? {
      ReleaseNames(b, op.found, x);
    } else if x in b.backend {
      RemoveNames(b, op.found, x);
    }
  }

  /** Releasing data takes no snapshot that nothing names. */
  lemma ReleaseNames(b: Back, d: DataName, x: BackendId)
    requires BackOk(b) && LedgerOk(b) && d in b.posted
    ensures var c := Release(b, d, b.posted[d].source);
            NamedByData(c, x) == NamedByData(b, x) && (!NamedByData(b, x) ==> (x in c.backend <==> x in b.backend))
  {
    if b.posted[d].source == x && x in b.backend { SourceInUse(b, d); }
  }

  lemma OtherOrphans(s: State, l: Label, x: BackendId)
    requires Inv(s) && Enabled(s, l) && l.Advance?
    requires var op := s.ops[l.op]; !op.CreateTake? && !op.CreatePost? && !op.DeleteBackend? && !op.DeleteData?
    ensures Orphan(Apply(s, l), x) <==> Orphan(s, x)
  {
    var b, op := s.back, s.ops[l.op];
    var (c, next) := NextOp(s.front, b, op, l.outcome, l.pick);
    assert OpOk(b, op);
    PostsAt(s.ops, l.op, next, x);
    if op.StatusPut? && c != b {
      ReadyNames(b, op.snap.dataName.value, op.copy, x);
    } else {
      assert c.data == b.data && c.backend == b.backend;
    }
  }

  /** No step but a call changes what names a snapshot. */
  lemma QuietOrphans(s: State, l: Label, x: BackendId)
    requires Enabled(s, l) && !l.Advance?
    ensures Orphan(Apply(s, l), x) <==> Orphan(s, x)
  {
    var t := Apply(s, l);
    assert t.back == s.back;
    if l.FireCreate? || l.FireDelete? {
      forall n | n in s.ops ensures n in t.ops && t.ops[n] == s.ops[n] {}
    }
  }

  /** Nothing names a snapshot after a step exactly when nothing named it before, or the step lost it:
      once nothing names it, it stays in the backend for good. */
  lemma OrphansExactly(s: State, l: Label, x: BackendId)
    requires Inv(s) && DeletionInv(s) && Enabled(s, l)
    ensures Orphan(Apply(s, l), x) <==> Orphan(s, x) || Leaks(s, l, x)
  {
    if !l.Advance? {
      QuietOrphans(s, l, x);
    } else if s.ops[l.op].CreateTake? {
      TakeOrphans(s, l, x);
    } else if s.ops[l.op].CreatePost? {
      PostOrphans(s, l, x);
    } else if s.ops[l.op].DeleteBackend? || s.ops[l.op].DeleteData? {
      DeleteOrphans(s, l, x);
    } else {
      OtherOrphans(s, l, x);
    }
  }

  // ---- over runs ----

  /** Some step of the run loses the snapshot. */
  ghost predicate Leaked(s: State, labels: seq<Label>, x: BackendId)
    decreases |labels|
  {
    labels != [] && Enabled(s, labels[0]) &&
    (Leaks(s, labels[0], x) || Leaked(Apply(s, labels[0]), labels[1..], x))
  }

  lemma {:induction false} RunOrphans(s: State, labels: seq<Label>, x: BackendId)
    requires Inv(s) && DeletionInv(s) && Exec(s, labels).Some?
    ensures Orphan(Exec(s, labels).value, x) <==> Orphan(s, x) || Leaked(s, labels, x)
    decreases |labels|
  {
    if labels != [] {
      StepKeepsInv(s, labels[0]);
      StepKeepsDeletion(s, labels[0]);
      OrphansExactly(s, labels[0], x);
      RunOrphans(Apply(s, labels[0]), labels[1..], x);
    }
  }

  /** Over every run from the start: a snapshot is left in the backend with nothing to name it if and
      only if SnapshotCreate was reported failed after taking it, or all five POSTs of its data failed
      without the data being there. No delete operation ever leaves one. */
  lemma LeftBehindExactly(labels: seq<Label>, s: State, x: BackendId)
    requires Exec(Init, labels) == Some(s)
    ensures Orphan(s, x) <==> Leaked(Init, labels, x)
  {
    RunOrphans(Init, labels, x);
  }
}
