/** The process-wide back-off before AWS requests: decaying counts of requests and throttling
    errors, over the reals. */
module Backoff {
  const INITIAL_REQUESTS: real := 4.0
  const IGNORED_FRACTION: real := 0.1

  datatype Counts = Counts(errors: real, requests: real)

  /** factor is 1 when too little time has passed for the counts to decay. */
  datatype Event = Request(factor: real) | Error

  ghost predicate FactorOk(e: Event) { e.Request? ==> 0.0 < e.factor <= 1.0 }

  predicate CountsOk(c: Counts) { c.errors >= 0.0 && c.requests >= 0.0 }

  function Next(c: Counts, e: Event): Counts {
    match e
    case Request(d) => Counts(c.errors * d, c.requests * d + 1.0)
    case Error => Counts(c.errors + 1.0, c.requests)
  }

  function Run(c: Counts, events: seq<Event>): Counts {
    if events == [] then c else Next(Run(c, events[..|events| - 1]), events[|events| - 1])
  }

  function Fraction(c: Counts): real {
    if c.requests > 0.5 then c.errors / c.requests else 0.0
  }

  /** Whole seconds, for an error fraction f. */
  function DelayFor(f: real, maxDelay: real): int {
    if f < IGNORED_FRACTION then 0 else (maxDelay * f).Floor
  }

  function Delay(c: Counts, maxDelay: real): int {
    DelayFor(Fraction(c), maxDelay)
  }

  class State {
    const decayIntervalSeconds: int
    const maxDelay: real
    /** The decay factor for an elapsed time in seconds. */
    const decayFor: int -> real
    var countErrors: real
    var countRequests: real
    var lastDecay: int

    ghost predicate Valid()
      reads this
    {
      && CountsOk(View())
      && forall t :: t > decayIntervalSeconds ==> 0.0 < decayFor(t) < 1.0
    }

    ghost function View(): Counts
      reads this
    {
      Counts(countErrors, countRequests)
    }

    /** The factor the counts decay by at a request. */
    function FactorAt(now: int, last: int): real {
      if now - last > decayIntervalSeconds then decayFor(now - last) else 1.0
    }

    constructor (now: int, decayIntervalSeconds: int, decayFor: int -> real, maxDelay: real)
      requires forall t :: t > decayIntervalSeconds ==> 0.0 < decayFor(t) < 1.0
      ensures Valid() && View() == Counts(0.0, INITIAL_REQUESTS) && lastDecay == now
      ensures this.decayIntervalSeconds == decayIntervalSeconds && this.decayFor == decayFor &&
                this.maxDelay == maxDelay
    {
      this.decayIntervalSeconds := decayIntervalSeconds;
      this.decayFor := decayFor;
      this.maxDelay := maxDelay;
      lastDecay := now;
      countErrors, countRequests := 0.0, INITIAL_REQUESTS;
    }

    /** Counts decay only after more than an interval since they last did. */
    method ComputeDelayForRequest(now: int) returns (delay: int)
      requires Valid()
      modifies this
      ensures Valid()
      ensures FactorOk(Request(FactorAt(now, old(lastDecay))))
      ensures View() == Next(old(View()), Request(FactorAt(now, old(lastDecay))))
      ensures now - old(lastDecay) <= decayIntervalSeconds ==>
                countErrors == old(countErrors) && countRequests == old(countRequests) + 1.0
      ensures now - old(lastDecay) > decayIntervalSeconds ==>
                View() == Next(old(View()), Request(decayFor(now - old(lastDecay))))
      ensures lastDecay == if now - old(lastDecay) > decayIntervalSeconds then now else old(lastDecay)
      ensures delay == Delay(View(), maxDelay)
    {
      var timeDeltaSeconds := now - lastDecay;
      if timeDeltaSeconds > decayIntervalSeconds {
        var decay := decayFor(timeDeltaSeconds);
        ScaledOk(View(), decay);
        countErrors := countErrors * decay;
        countRequests := countRequests * decay;
        lastDecay := now;
      }
      countRequests := countRequests + 1.0;
      var errorFraction := 0.0;
      if countRequests > 0.5 {
        errorFraction := countErrors / countRequests;
      }
      if errorFraction < IGNORED_FRACTION {
        return 0;
      }
      return (maxDelay * errorFraction).Floor;
    }

    method ReportError()
      requires Valid()
      modifies this`countErrors
      ensures Valid() && View() == Next(old(View()), Error)
    {
      countErrors := countErrors + 1.0;
    }
  }

  lemma ScaledOk(c: Counts, d: real)
    requires CountsOk(c) && 0.0 < d <= 1.0
    ensures CountsOk(Counts(c.errors * d, c.requests * d)) && c.errors * d <= c.errors
  {
  }

  lemma {:induction false} RunOk(c: Counts, events: seq<Event>)
    requires CountsOk(c) && forall i :: 0 <= i < |events| ==> FactorOk(events[i])
    ensures CountsOk(Run(c, events))
  {
    if events != [] {
      var t, e := events[..|events| - 1], events[|events| - 1];
      RunOk(c, t);
      if e.Request? { ScaledOk(Run(c, t), e.factor); }
    }
  }

  // ---- the bound ----

  /** Each error belongs to the request just before it. */
  ghost predicate Prompt(events: seq<Event>) {
    forall i :: 0 <= i < |events| && events[i].Error? ==> i > 0 && events[i - 1].Request?
  }

  lemma RequestGap(c: Counts, d: real)
    requires c.errors < c.requests && 0.0 < d
    ensures Next(c, Request(d)).errors + 1.0 < Next(c, Request(d)).requests
  {
    Scale(c.errors, c.requests, d);
  }

  lemma {:induction false} PromptGap(events: seq<Event>)
    requires Prompt(events) && forall i :: 0 <= i < |events| ==> FactorOk(events[i])
    ensures var c := Run(Counts(0.0, INITIAL_REQUESTS), events);
      c.errors < c.requests && (events != [] && events[|events| - 1].Request? ==> c.errors + 1.0 < c.requests)
  {
    if events != [] {
      var t, e := events[..|events| - 1], events[|events| - 1];
      PromptGap(t);
      if e.Request? { RequestGap(Run(Counts(0.0, INITIAL_REQUESTS), t), e.factor); }
    }
  }

  lemma FractionBelow(c: Counts)
    requires CountsOk(c)
    ensures 0.0 <= Fraction(c)
    ensures c.requests > 0.5 ==> (Fraction(c) < 1.0 <==> c.errors < c.requests)
  {
    if c.requests > 0.5 {
      var f := c.errors / c.requests;
      assert f * c.requests == c.errors;
      assert f < 0.0 ==> f * c.requests < 0.0;
      assert f < 1.0 ==> f * c.requests < c.requests;
      assert f >= 1.0 ==> f * c.requests >= c.requests;
    }
  }

  lemma DelayForBounds(f: real, m: real)
    requires m > 0.0 && 0.0 <= f
    ensures 0 <= DelayFor(f, m)
    ensures f < 1.0 ==> (DelayFor(f, m) as real) < m
    ensures f >= 1.0 ==> DelayFor(f, m) as real > m - 1.0
  {
    assert 0.0 <= m * f;
    assert f < 1.0 ==> m * f < m * 1.0;
    assert f >= 1.0 ==> m * f >= m * 1.0;
  }

  lemma DelayBelow(c: Counts, maxDelay: real)
    requires CountsOk(c) && maxDelay > 0.0
    ensures c.errors < c.requests ==> 0 <= Delay(c, maxDelay) && (Delay(c, maxDelay) as real) < maxDelay
    ensures c.requests > 0.5 && c.errors >= c.requests ==> Delay(c, maxDelay) as real > maxDelay - 1.0
  {
    FractionBelow(c);
    DelayForBounds(Fraction(c), maxDelay);
  }

  lemma ScaleAtMost(a: real, b: real, m: real)
    requires a <= b && m > 0.0
    ensures a * m <= b * m
  {
  }

  lemma Scale(a: real, b: real, m: real)
    requires a < b && m > 0.0
    ensures m * a < m * b
  {
  }

  /** When every error is reported before the next request the delay stays below the maximum, for
      every history and all decay times. */
  lemma PromptStaysBelow(events: seq<Event>, maxDelay: real)
    requires Prompt(events) && (forall i :: 0 <= i < |events| ==> FactorOk(events[i])) && maxDelay > 0.0
    ensures var delay := Delay(Run(Counts(0.0, INITIAL_REQUESTS), events), maxDelay);
      0 <= delay && (delay as real) < maxDelay
  {
    PromptGap(events);
    RunOk(Counts(0.0, INITIAL_REQUESTS), events);
    DelayBelow(Run(Counts(0.0, INITIAL_REQUESTS), events), maxDelay);
  }

  // ---- what the delay is ----

  /** From one error in ten requests on, the delay is the maximum's share of errors in the requests,
      rounded down to whole seconds; below that there is none. */
  lemma DelayIsShare(c: Counts, m: real)
    requires CountsOk(c) && c.requests >= 1.0 && m >= 0.0
    ensures IsShare(Delay(c, m), c, m)
  {
    var f := c.errors / c.requests;
    ShareOf(c.errors, c.requests, f);
    if f >= IGNORED_FRACTION {
      var k := (m * f).Floor;
      assert Delay(c, m) == k;
      WholeShare(k, m * f, c, m, f);
    }
  }

  lemma WholeShare(k: int, x: real, c: Counts, m: real, f: real)
    requires k == x.Floor && c.requests >= 1.0 && x == m * f && f * c.requests == c.errors
    requires c.errors * 10.0 >= c.requests
    ensures IsShare(k, c, m)
  {
    var d := k as real;
    var above := d + 1.0;
    Regroup(m, f, c.requests);
    Between(d, x, above, c.requests);
    assert m * c.errors < above * c.requests;
  }

  predicate IsShare(delay: int, c: Counts, m: real) {
    var d, above := delay as real, delay as real + 1.0;
    if c.errors * 10.0 < c.requests then delay == 0
    else d * c.requests <= m * c.errors && m * c.errors < above * c.requests
  }

  lemma ShareOf(e: real, r: real, f: real)
    requires r >= 1.0 && f == e / r
    ensures f * r == e && (f < IGNORED_FRACTION <==> e * 10.0 < r)
  {
    assert f * r == e;
    if f < 0.1 { Scale(f, 0.1, r); } else { ScaleAtMost(0.1, f, r); }
  }

  lemma Between(a: real, x: real, b: real, r: real)
    requires a <= x < b && r > 0.0
    ensures a * r <= x * r && x * r < b * r
  {
    ScaleAtMost(a, x, r);
    Scale(x, b, r);
  }

  lemma Regroup(m: real, f: real, r: real)
    ensures (m * f) * r == m * (f * r)
  {
  }

  // ---- exactly when the delay is below the maximum ----

  /** For a maximum of m whole seconds. */
  lemma BelowExactly(c: Counts, m: nat)
    requires CountsOk(c) && c.requests >= 1.0 && m >= 1
    ensures Delay(c, m as real) < m <==> c.errors < c.requests
  {
    FractionBelow(c);
    DelayForWhole(Fraction(c), m);
  }

  lemma DelayForWhole(f: real, m: nat)
    requires 0.0 <= f && m >= 1
    ensures DelayFor(f, m as real) < m <==> f < 1.0
  {
    var x := m as real;
    assert f < 1.0 ==> x * f < x * 1.0;
    assert f >= 1.0 ==> x * f >= x * 1.0;
  }

  /** In the counts before the request and the factor they decay by. */
  lemma RequestBelowExactly(c: Counts, d: real, m: nat)
    requires CountsOk(c) && 0.0 < d <= 1.0 && m >= 1
    ensures Delay(Next(c, Request(d)), m as real) < m <==> (c.errors - c.requests) * d < 1.0
  {
    ScaledOk(c, d);
    BelowExactly(Next(c, Request(d)), m);
    assert (c.errors - c.requests) * d == c.errors * d - c.requests * d;
  }

  function Factor(e: Event): real { if e.Request? then e.factor else 1.0 }

  /** What one unit counted before the events is worth after them: the product of their factors. */
  function Decay(events: seq<Event>): real {
    if events == [] then 1.0 else Factor(events[0]) * Decay(events[1..])
  }

  /** The errors, or the requests, each weighted by the decay of what comes after it. */
  function Weighted(events: seq<Event>, errors: bool): real {
    if events == [] then 0.0
    else (if events[0].Error? == errors then Decay(events[1..]) else 0.0) + Weighted(events[1..], errors)
  }

  /** Counts c after a decay by x and the addition of weighted errors and requests. */
  function Plus(c: Counts, x: real, errors: real, requests: real): Counts {
    Counts(Scaled(c.errors, x, errors), Scaled(c.requests, x, requests))
  }

  function Scaled(count: real, x: real, more: real): real { count * x + more }

  lemma {:induction false} RunIsWeighted(c: Counts, events: seq<Event>)
    ensures Run(c, events) == Plus(c, Decay(events), Weighted(events, true), Weighted(events, false))
    decreases |events|
  {
    if events == [] {
      PlusNothing(c);
    } else {
      var rest := events[1..];
      RunFromFront(c, events);
      RunIsWeighted(Next(c, events[0]), rest);
      WeightsFront(events);
      FrontPlus(c, events[0], Decay(rest), Decay(events), Weighted(rest, true), Weighted(events, true),
                Weighted(rest, false), Weighted(events, false), Run(c, events));
    }
  }

  lemma PlusNothing(c: Counts)
    ensures Plus(c, 1.0, 0.0, 0.0) == c
  {
  }

  lemma WeightsFront(events: seq<Event>)
    requires events != []
    ensures Decay(events) == Factor(events[0]) * Decay(events[1..])
    ensures Weighted(events, true) == (if events[0].Error? then Decay(events[1..]) else 0.0) +
              Weighted(events[1..], true)
    ensures Weighted(events, false) == (if events[0].Error? then 0.0 else Decay(events[1..])) +
              Weighted(events[1..], false)
  {
  }

  lemma FrontPlus(c: Counts, e: Event, x: real, x': real, errors: real, errors': real, requests: real, requests': real,
                  end: Counts)
    requires x' == Factor(e) * x && errors' == (if e.Error? then x else 0.0) + errors
    requires requests' == (if e.Error? then 0.0 else x) + requests && end == Plus(Next(c, e), x, errors, requests)
    ensures end == Plus(c, x', errors', requests')
  {
    if e.Request? {
      RequestPlus(c, Next(c, e), e.factor, x, x', errors', requests, requests', end);
    } else {
      ErrorPlus(c, Next(c, e), x, x', errors, errors', requests', end);
    }
  }

  lemma RequestPlus(c: Counts, n: Counts, d: real, x: real, x': real, errors: real, requests: real, requests': real,
                    end: Counts)
    requires n.errors == c.errors * d && n.requests == c.requests * d + 1.0 && x' == d * x
    requires requests' == x + requests && end == Plus(n, x, errors, requests)
    ensures end == Plus(c, x', errors, requests')
  {
    ScaledTwice(c.errors, n.errors, d, x, x', errors);
    ScaledTwiceMore(c.requests, n.requests, d, x, x', requests, requests');
  }

  lemma ErrorPlus(c: Counts, n: Counts, x: real, x': real, errors: real, errors': real, requests: real, end: Counts)
    requires n.errors == c.errors + 1.0 && n.requests == c.requests && x' == 1.0 * x
    requires errors' == x + errors && end == Plus(n, x, errors, requests)
    ensures end == Plus(c, x', errors', requests)
  {
    assert x' == x;
    ScaledMore(c.errors, n.errors, x, errors, errors');
  }

  lemma ScaledTwice(a: real, b: real, d: real, x: real, x': real, more: real)
    requires b == a * d && x' == d * x
    ensures Scaled(b, x, more) == Scaled(a, x', more)
  {
    assert b * x == a * x';
  }

  lemma ScaledTwiceMore(a: real, b: real, d: real, x: real, x': real, more: real, more': real)
    requires b == a * d + 1.0 && x' == d * x && more' == x + more
    ensures Scaled(b, x, more) == Scaled(a, x', more')
  {
    assert b * x == a * x' + x;
  }

  lemma ScaledMore(a: real, b: real, x: real, more: real, more': real)
    requires b == a + 1.0 && more' == x + more
    ensures Scaled(b, x, more) == Scaled(a, x, more')
  {
    assert b * x == a * x + x;
  }

  lemma RunFromFront(c: Counts, events: seq<Event>)
    requires events != []
    ensures Run(c, events) == Run(Next(c, events[0]), events[1..])
  {
    var e := events[0];
    Concatenated(c, [e], events[1..]);
    Appended(c, [], e);
    assert [e] + events[1..] == events && [] + [e] == [e];
  }

  lemma LastRequestOk(c: Counts, events: seq<Event>)
    requires CountsOk(c) && events != [] && events[|events| - 1].Request?
    requires forall i :: 0 <= i < |events| ==> FactorOk(events[i])
    ensures CountsOk(Run(c, events)) && Run(c, events).requests >= 1.0
  {
    var t := events[..|events| - 1];
    RunOk(c, t);
    ScaledOk(Run(c, t), events[|events| - 1].factor);
  }

  /** Over every history that ends with a request the delay is below the maximum if and only if the
      weighted errors are fewer than the weighted requests, the four at the start included. */
  lemma HistoryBelowExactly(events: seq<Event>, m: nat)
    requires events != [] && events[|events| - 1].Request? && m >= 1
    requires forall i :: 0 <= i < |events| ==> FactorOk(events[i])
    ensures Delay(Run(Counts(0.0, INITIAL_REQUESTS), events), m as real) < m <==>
            Weighted(events, true) < INITIAL_REQUESTS * Decay(events) + Weighted(events, false)
  {
    var c := Counts(0.0, INITIAL_REQUESTS);
    LastRequestOk(c, events);
    RunIsWeighted(c, events);
    WeightedBelow(Run(c, events), Decay(events), Weighted(events, true), Weighted(events, false), m);
  }

  lemma WeightedBelow(end: Counts, x: real, errors: real, requests: real, m: nat)
    requires CountsOk(end) && end.requests >= 1.0 && m >= 1
    requires end == Plus(Counts(0.0, INITIAL_REQUESTS), x, errors, requests)
    ensures Delay(end, m as real) < m <==> errors < INITIAL_REQUESTS * x + requests
  {
    BelowExactly(end, m);
  }

  /** The decay fraction to the power of whole intervals. */
  function Power(x: real, n: nat): real { if n == 0 then 1.0 else x * Power(x, n - 1) }

  lemma TwelveIntervals()
    ensures Power(0.8, 12) == 0.068719476736
  {
    assert Power(0.8, 3) == 0.512;
    assert Power(0.8, 6) == 0.262144;
    assert Power(0.8, 9) == 0.134217728;
  }

  /** Errors reported late count in full against requests that have decayed: ten requests, one four
      minutes later, then the ten errors give a delay of 202 s for a maximum of 60 s. */
  lemma LateErrorsExceed()
    ensures Delay(Run(Counts(0.0, INITIAL_REQUESTS), LateErrors()), 60.0) == 202
    ensures forall i :: 0 <= i < |LateErrors()| ==> FactorOk(LateErrors()[i])
  {
    TwelveIntervals();
    var c, d := Counts(0.0, INITIAL_REQUESTS), Power(0.8, 12);
    RequestsAdd(c, Times(Request(1.0), 10));
    Appended(c, Times(Request(1.0), 10), Request(d));
    var mid := Times(Request(1.0), 10) + [Request(d)];
    var x := 14.0 * d + 1.0;
    assert Run(c, mid) == Counts(0.0, x);
    ErrorsAdd(Run(c, mid), Times(Error, 10));
    Concatenated(c, mid, Times(Error, 10));
    Appended(c, mid + Times(Error, 10), Request(1.0));
    LateDelay(x + 1.0);
  }

  lemma LateDelay(r: real)
    requires r == 2.962072674304
    ensures Delay(Counts(10.0, r), 60.0) == 202
  {
    var f := 10.0 / r;
    assert f * r == 10.0;
    assert 3.3666 < f < 3.3833 by {
      assert f <= 3.3666 ==> f * r <= 3.3666 * r;
      assert f >= 3.3833 ==> f * r >= 3.3833 * r;
    }
  }

  function Times(e: Event, n: nat): seq<Event> { seq(n, _ => e) }

  function LateErrors(): seq<Event> {
    Times(Request(1.0), 10) + [Request(Power(0.8, 12))] + Times(Error, 10) + [Request(1.0)]
  }

  lemma Appended(c: Counts, events: seq<Event>, e: Event)
    ensures Run(c, events + [e]) == Next(Run(c, events), e)
  {
    assert (events + [e])[..|events|] == events;
  }

  lemma {:induction false} Concatenated(c: Counts, a: seq<Event>, b: seq<Event>)
    ensures Run(c, a + b) == Run(Run(c, a), b)
  {
    if b == [] {
      assert a + b == a;
    } else {
      var t, e := b[..|b| - 1], b[|b| - 1];
      assert a + b == (a + t) + [e];
      Concatenated(c, a, t);
      Appended(c, a + t, e);
    }
  }

  lemma {:induction false} RequestsAdd(c: Counts, events: seq<Event>)
    requires forall i :: 0 <= i < |events| ==> events[i] == Request(1.0)
    ensures Run(c, events) == Counts(c.errors, c.requests + |events| as real)
  {
    if events != [] { RequestsAdd(c, events[..|events| - 1]); }
  }

  lemma {:induction false} ErrorsAdd(c: Counts, events: seq<Event>)
    requires forall i :: 0 <= i < |events| ==> events[i] == Error
    ensures Run(c, events) == Counts(c.errors + |events| as real, c.requests)
  {
    if events != [] { ErrorsAdd(c, events[..|events| - 1]); }
  }

  lemma {:induction false} UndecayedCounts(events: seq<Event>)
    requires forall i :: 0 <= i < |events| ==> events[i] == Request(1.0) || events[i] == Error
    ensures Run(Counts(0.0, INITIAL_REQUESTS), events)
         == Counts(Errors(events) as real, INITIAL_REQUESTS + (|events| - Errors(events)) as real)
  {
    if events != [] { UndecayedCounts(events[..|events| - 1]); }
  }

  /** As long as nothing decays only the number of errors matters, in whatever order: the delay is
      below the maximum exactly when there are fewer than the requests and the initial ones. */
  lemma UndecayedBelowExactly(events: seq<Event>, m: nat)
    requires forall i :: 0 <= i < |events| ==> events[i] == Request(1.0) || events[i] == Error
    requires m >= 1
    ensures Delay(Run(Counts(0.0, INITIAL_REQUESTS), events), m as real) < m <==> 2 * Errors(events) < 4 + |events|
  {
    UndecayedCounts(events);
    BelowExactly(Run(Counts(0.0, INITIAL_REQUESTS), events), m);
  }

  function Errors(events: seq<Event>): (n: nat)
    ensures n <= |events|
  {
    if events == [] then 0 else Errors(events[..|events| - 1]) + if events[|events| - 1].Error? then 1 else 0
  }

  // ---- recovery ----

  ghost predicate ErrorFree(events: seq<Event>) {
    forall i :: 0 <= i < |events| ==> events[i].Request? && FactorOk(events[i])
  }

  lemma RecoveryStep(e: real, s: real, c: Counts, d: real)
    requires 0.0 <= c.errors <= e && 0.0 <= c.requests && 0.0 <= s && 0.0 < d <= 1.0
    requires c.errors * s <= e * c.requests
    ensures c.errors * d <= e && c.errors * d * (s + 1.0) <= e * (c.requests * d + 1.0)
  {
    var x, y := c.errors * s, e * c.requests;
    ScaleAtMost(x, y, d);
    ScaledOk(c, d);
    assert c.errors * d * (s + 1.0) == x * d + c.errors * d;
    assert e * (c.requests * d + 1.0) == y * d + e;
  }

  /** The error fraction is at most e / s, stated without division. */
  predicate AtMost(c: Counts, e: real, s: real) {
    CountsOk(c) && c.errors <= e && c.errors * s <= e * c.requests
  }

  /** After n requests without an error the error fraction is at most e / (r + n), whatever decays. */
  lemma {:induction false} Recovers(c: Counts, events: seq<Event>)
    requires CountsOk(c) && ErrorFree(events)
    ensures AtMost(Run(c, events), c.errors, c.requests + |events| as real)
    ensures events != [] ==> Run(c, events).requests >= 1.0
  {
    if events != [] {
      var t, d := events[..|events| - 1], events[|events| - 1].factor;
      Recovers(c, t);
      OneMoreRequest(Run(c, t), d, c.errors, c.requests + |t| as real, c.requests + |events| as real);
    }
  }

  lemma OneMoreRequest(c: Counts, d: real, e: real, s: real, s': real)
    requires AtMost(c, e, s) && 0.0 <= s && s' == s + 1.0 && 0.0 < d <= 1.0
    ensures AtMost(Next(c, Request(d)), e, s') && Next(c, Request(d)).requests >= 1.0
  {
    RecoveryStep(e, s, c, d);
    ScaledOk(c, d);
  }

  /** From n requests with r + n > 10 e on, the delay is zero until the next error. */
  lemma RecoversToZero(c: Counts, events: seq<Event>, maxDelay: real)
    requires CountsOk(c) && ErrorFree(events) && events != []
    requires c.requests + |events| as real > 10.0 * c.errors
    ensures Delay(Run(c, events), maxDelay) == 0
  {
    Recovers(c, events);
    ZeroWhen(Run(c, events), c.errors, c.requests + |events| as real, maxDelay);
  }

  lemma ZeroWhen(now: Counts, e: real, s: real, maxDelay: real)
    requires AtMost(now, e, s) && now.requests >= 1.0 && s > 10.0 * e
    ensures Delay(now, maxDelay) == 0
  {
    if now.errors > 0.0 { FractionSmall(now.errors, now.requests, e, s); }
    IgnoredExactly(now);
  }

  lemma IgnoredExactly(c: Counts)
    requires CountsOk(c) && c.requests >= 1.0
    ensures Fraction(c) < IGNORED_FRACTION <==> c.errors * 10.0 < c.requests
  {
    var f := Fraction(c);
    assert f * c.requests == c.errors;
    assert f < 0.1 ==> f * c.requests < 0.1 * c.requests;
    assert f >= 0.1 ==> f * c.requests >= 0.1 * c.requests;
  }

  lemma FractionSmall(x: real, y: real, e: real, s: real)
    requires 0.0 < x <= e && y >= 1.0 && s > 10.0 * e && x * s <= e * y
    ensures x * 10.0 < y
  {
    Scale(10.0 * e, s, x);
    assert x * 10.0 >= y ==> e * (x * 10.0) >= e * y;
  }

  /** Without decay the bound is exact. */
  lemma ZeroExactlyWhen(c: Counts, n: nat, maxDelay: real)
    requires CountsOk(c) && n > 0 && maxDelay >= 10.0
    ensures Delay(Run(c, Times(Request(1.0), n)), maxDelay) == 0 <==> c.requests + n as real > 10.0 * c.errors
  {
    RequestsAdd(c, Times(Request(1.0), n));
    var now := Run(c, Times(Request(1.0), n));
    IgnoredExactly(now);
    NotIgnored(now, maxDelay);
  }

  lemma NotIgnored(c: Counts, maxDelay: real)
    requires maxDelay >= 10.0
    ensures Fraction(c) >= IGNORED_FRACTION ==> Delay(c, maxDelay) >= 1
  {
    var f := Fraction(c);
    assert f >= 0.1 ==> maxDelay * f >= 10.0 * f;
  }
}
