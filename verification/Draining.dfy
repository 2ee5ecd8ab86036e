/** What happens once users and the reconciler stop: every run of deliveries and calls, with any
    outcomes, is bounded, and it can only stop with nothing left in flight. */
module Draining {
  import opened Wrappers
  import opened Faults
  import opened Controller
  import opened Convergence

  /** How many calls an operation may still make, and events it may still cause. */
  function Rank(op: Op): nat {
    match op
    case StatusGet(_) => 5
    case StatusDescribe(_, _) => 4
    case StatusReget(_) => 3
    case StatusPut(_, _) => 2
    case StatusAdd(_) => 1
    case CreateTake(_) => 5 + POST_RETRIES
    case CreatePost(_, _, _, tries) => 4 + if tries < POST_RETRIES then POST_RETRIES - tries else 1
    case BindGet(_) => 4
    case BindLookup(_, _) => 3
    case BindPut(_, _, _) => 2
    case DeleteLookup(_) => 4
    case DeleteBackend(_, _, _) => 3
    case DeleteData(_, _) => 2
    case DeleteActual(_) => 1
  }

  ghost function AnyName(ops: map<string, Op>): (n: string)
    requires ops != map[]
    ensures n in ops
  {
    NonEmpty(ops);
    var n :| n in ops;
    n
  }

  lemma NonEmpty(ops: map<string, Op>)
    ensures ops == map[] || exists n :: n in ops
  {
    if forall n :: n !in ops { assert ops == map[]; }
  }

  ghost function Total(ops: map<string, Op>): nat
    decreases |ops|
  {
    if ops == map[] then 0
    else
      var n := AnyName(ops);
      Rank(ops[n]) + Total(ops - {n})
  }

  lemma {:induction false} TotalAt(ops: map<string, Op>, n: string)
    requires n in ops
    ensures Total(ops) == Rank(ops[n]) + Total(ops - {n})
    decreases |ops|
  {
    var m := AnyName(ops);
    if m != n {
      TotalAt(ops - {m}, n);
      TotalAt(ops - {n}, m);
      assert ops - {m} - {n} == ops - {n} - {m};
    }
  }

  ghost function InFlight(s: State): nat {
    |s.front.events| + Total(s.ops)
  }

  predicate Drains(l: Label) { l.Deliver? || l.Advance? }

  lemma OpRankFalls(f: Front, b: Back, op: Op, outcome: Outcome, pick: DataName)
    requires OpEnabled(f, b, op, outcome, pick)
    ensures var (_, next) := NextOp(f, b, op, outcome, pick);
      |NextFront(f, op, outcome).events| + (if next.Some? then Rank(next.value) else 0) < |f.events| + Rank(op)
  {
  }

  /** Every delivery and every call brings the end nearer. */
  lemma DrainStep(s: State, l: Label)
    requires Drains(l) && Enabled(s, l)
    ensures InFlight(Apply(s, l)) < InFlight(s)
  {
    if l.Advance? {
      var n := l.op;
      var (_, next) := NextOp(s.front, s.back, s.ops[n], l.outcome, l.pick);
      OpRankFalls(s.front, s.back, s.ops[n], l.outcome, l.pick);
      TotalAt(s.ops, n);
      var ops := SetOp(s.ops, n, next);
      if next.Some? { TotalAt(ops, n); }
      assert ops - {n} == s.ops - {n};
    }
  }

  /** A state with something in flight has a next step. */
  lemma DrainEnabled(s: State) returns (l: Label)
    requires !Drained(s)
    ensures Drains(l) && Enabled(s, l)
  {
    if s.front.events != [] {
      l := Deliver;
    } else {
      l := Advance(AnyName(s.ops), FailBefore, 0);
    }
  }

  /** No run of deliveries and calls is longer than what is in flight at its start. */
  lemma {:induction false} DrainBounded(s: State, labels: seq<Label>)
    requires Exec(s, labels).Some? && forall l :: l in labels ==> Drains(l)
    ensures |labels| + InFlight(Exec(s, labels).value) <= InFlight(s)
    decreases |labels|
  {
    if labels != [] {
      assert labels[0] in labels;
      DrainStep(s, labels[0]);
      DrainBounded(Apply(s, labels[0]), labels[1..]);
    }
  }

  /** From every state reached without a harmful step, letting everything in flight end in any
      order and with any outcomes leads to a state to which the convergence theorem applies. */
  lemma DrainsToCalm(s: State, labels: seq<Label>, t: State)
    requires HarmlessReachable(s) && Exec(s, labels) == Some(t) && forall l :: l in labels ==> Drains(l)
    ensures |labels| <= InFlight(s)
    ensures HarmlessReachable(t)
    ensures Drained(t) ==> Calm(t)
    ensures !Drained(t) ==> exists l :: Drains(l) && Enabled(t, l)
  {
    DrainBounded(s, labels);
    var before :| Exec(Init, before) == Some(s) && HarmlessRun(Init, before);
    DrainIsHarmless(s, labels);
    HarmlessConcat(Init, before, labels);
    assert Exec(Init, before + labels) == Some(t);
    if Drained(t) { DrainedIsCalm(t); } else { var l := DrainEnabled(t); }
  }

  lemma {:induction false} DrainIsHarmless(s: State, labels: seq<Label>)
    requires forall l :: l in labels ==> Drains(l)
    ensures HarmlessRun(s, labels)
    decreases |labels|
  {
    if labels != [] && Enabled(s, labels[0]) {
      assert labels[0] in labels;
      DrainIsHarmless(Apply(s, labels[0]), labels[1..]);
    }
  }

  lemma {:induction false} HarmlessConcat(s: State, a: seq<Label>, b: seq<Label>)
    requires Exec(s, a).Some? && HarmlessRun(s, a) && HarmlessRun(Exec(s, a).value, b)
    ensures Exec(s, a + b) == Exec(Exec(s, a).value, b) && HarmlessRun(s, a + b)
    decreases |a|
  {
    if a == [] {
      assert a + b == b;
    } else {
      assert (a + b)[0] == a[0] && (a + b)[1..] == a[1..] + b;
      HarmlessConcat(Apply(s, a[0]), a[1..], b);
    }
  }
}
