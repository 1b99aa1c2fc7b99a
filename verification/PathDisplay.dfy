/** The launcher's server-path display: a new route is shown only after three samples agree. */
module PathDisplay {
  import opened Text

  const CONFIRM_SAMPLES := 3

  datatype Sample = Sample(transport: string, family: string)

  /** Transport and address family, as shown or as waiting to be shown. */
  datatype Route = Route(transport: string, family: string)

  const NO_ROUTE := Route("", "")

  datatype State = State(shown: Route, pending: Route, count: nat)

  predicate SameRoute(a: Route, b: Route) {
    EqualIgnoringCase(a.transport, b.transport) && EqualIgnoringCase(a.family, b.family)
  }

  function Trimmed(x: Sample): Route { Route(Trim(x.transport), Trim(x.family)) }

  function Commit(s: State, r: Route): State {
    State(Route(r.transport, if r.family == "" then s.shown.family else r.family), NO_ROUTE, 0)
  }

  function Forget(s: State): State { s.(pending := NO_ROUTE, count := 0) }

  /** ApplyServerPathDisplaySample */
  function Apply(s: State, x: Sample): State {
    var r := Trimmed(x);
    if r.transport == "" then Forget(s)
    else if s.shown.transport == "" then Commit(s, r)
    else if SameRoute(Route(r.transport, if r.family == "" then s.shown.family else r.family), s.shown) then Forget(s)
    else if r.family == "" then Forget(s)
    else
      var s := if SameRoute(r, s.pending) then s.(count := s.count + 1) else s.(pending := r, count := 1);
      if s.count < CONFIRM_SAMPLES then s else Commit(s, r)
  }

  class ServerPathDisplay {
    var lastTransport: string
    var lastFamily: string
    var pendingTransport: string
    var pendingFamily: string
    var pendingCount: nat

    function View(): State reads this {
      State(Route(lastTransport, lastFamily), Route(pendingTransport, pendingFamily), pendingCount)
    }

    constructor ()
      ensures View() == State(NO_ROUTE, NO_ROUTE, 0)
    {
      lastTransport, lastFamily, pendingTransport, pendingFamily, pendingCount := "", "", "", "", 0;
    }

    method CommitDisplay(transport: string, family: string)
      modifies this
      ensures View() == Commit(old(View()), Route(transport, family))
    {
      lastTransport := transport;
      if family != "" { lastFamily := family; }
      pendingTransport, pendingFamily, pendingCount := "", "", 0;
    }

    method ApplySample(x: Sample)
      modifies this
      ensures View() == Apply(old(View()), x)
    {
      var transport, family := Trim(x.transport), Trim(x.family);
      if transport == "" {
        pendingTransport, pendingFamily, pendingCount := "", "", 0;
        return;
      }
      if lastTransport == "" {
        CommitDisplay(transport, family);
        return;
      }
      var comparable := if family == "" then lastFamily else family;
      if EqualIgnoringCase(transport, lastTransport) && EqualIgnoringCase(comparable, lastFamily) {
        pendingTransport, pendingFamily, pendingCount := "", "", 0;
        return;
      }
      if family == "" {
        pendingTransport, pendingFamily, pendingCount := "", "", 0;
        return;
      }
      if EqualIgnoringCase(transport, pendingTransport) && EqualIgnoringCase(family, pendingFamily) {
        pendingCount := pendingCount + 1;
      } else {
        pendingTransport, pendingFamily, pendingCount := transport, family, 1;
      }
      if pendingCount < CONFIRM_SAMPLES { return; }
      CommitDisplay(transport, family);
    }
  }

  // ---- what the filter means ----

  function Run(xs: seq<Sample>): State
    decreases |xs|
  {
    if xs == [] then State(NO_ROUTE, NO_ROUTE, 0) else Apply(Run(xs[..|xs| - 1]), xs[|xs| - 1])
  }

  predicate Complete(x: Sample) { Trim(x.transport) != "" && Trim(x.family) != "" }

  /** The last `n` samples are one and the same complete route. */
  predicate Agree(xs: seq<Sample>, n: nat) {
    n <= |xs| && forall i :: |xs| - n <= i < |xs| ==>
      Complete(xs[i]) && SameRoute(Trimmed(xs[i]), Trimmed(xs[|xs| - 1]))
  }

  /** The route on display, read off the samples alone. */
  function Shown(xs: seq<Sample>): Route
    decreases |xs|
  {
    if xs == [] then NO_ROUTE
    else
      var before, r := Shown(xs[..|xs| - 1]), Trimmed(xs[|xs| - 1]);
      if before.transport == "" then (if r.transport == "" then before else r)
      else if Agree(xs, 3) && !SameRoute(r, before) then r
      else before
  }

  /** How many of the last samples agree on a route other than the one shown, up to two. */
  ghost predicate CountsAgreement(xs: seq<Sample>, s: State) {
    && s.count <= 2
    && (s.count >= 1 <==> Agree(xs, 1) && xs != [] && !SameRoute(Trimmed(xs[|xs| - 1]), s.shown))
    && (s.count == 2 <==> Agree(xs, 2) && |xs| >= 2 && !SameRoute(Trimmed(xs[|xs| - 1]), s.shown))
    && (s.count >= 1 ==> SameRoute(s.pending, Trimmed(xs[|xs| - 1])))
    && (s.count == 0 ==> s.pending == NO_ROUTE)
    && (s.shown.transport == "" ==> s.shown == NO_ROUTE && forall i :: 0 <= i < |xs| ==> Trim(xs[i].transport) == "")
  }

  lemma SameRouteIsEquivalence(a: Route, b: Route, c: Route)
    ensures SameRoute(a, b) <==> SameRoute(b, a)
    ensures SameRoute(a, b) && SameRoute(b, c) ==> SameRoute(a, c)
    ensures SameRoute(a, b) ==> (a.transport == "" <==> b.transport == "") && (a.family == "" <==> b.family == "")
  {
    if SameRoute(a, b) {
      assert |a.transport| == |Lower(a.transport)| && |a.family| == |Lower(a.family)|;
      assert |b.transport| == |Lower(b.transport)| && |b.family| == |Lower(b.family)|;
    }
  }

  lemma AgreeOneMore(xs: seq<Sample>, x: Sample, n: nat)
    requires n >= 1
    ensures Agree(xs + [x], n) <==>
      Complete(x) && (n == 1 || (Agree(xs, n - 1) && SameRoute(Trimmed(xs[|xs| - 1]), Trimmed(x))))
  {
    var ys := xs + [x];
    assert ys[|ys| - 1] == x;
    if Agree(ys, n) {
      assert Complete(ys[|xs|]);
      if n > 1 { AgreeShrinks(xs, x, n); }
    }
    if n > 1 && Complete(x) && Agree(xs, n - 1) && SameRoute(Trimmed(xs[|xs| - 1]), Trimmed(x)) {
      AgreeGrows(xs, x, n);
    }
    if n == 1 && Complete(x) {
      assert forall i :: |ys| - 1 <= i < |ys| ==> ys[i] == x;
    }
  }

  lemma AgreeShrinks(xs: seq<Sample>, x: Sample, n: nat)
    requires n > 1 && Agree(xs + [x], n)
    ensures Agree(xs, n - 1) && SameRoute(Trimmed(xs[|xs| - 1]), Trimmed(x)) && Complete(x)
  {
    var ys := xs + [x];
    assert ys[|ys| - 1] == x && ys[|ys| - 2] == xs[|xs| - 1];
    forall i | |xs| - (n - 1) <= i < |xs|
      ensures Complete(xs[i]) && SameRoute(Trimmed(xs[i]), Trimmed(xs[|xs| - 1]))
    {
      assert ys[i] == xs[i];
    }
  }

  lemma AgreeGrows(xs: seq<Sample>, x: Sample, n: nat)
    requires n > 1 && Complete(x) && Agree(xs, n - 1) && SameRoute(Trimmed(xs[|xs| - 1]), Trimmed(x))
    ensures Agree(xs + [x], n)
  {
    var ys := xs + [x];
    forall i | |ys| - n <= i < |ys|
      ensures Complete(ys[i]) && SameRoute(Trimmed(ys[i]), Trimmed(x))
    {
      if i < |xs| { assert ys[i] == xs[i]; }
    }
  }

  lemma SampleKeepsCount(xs: seq<Sample>, s: State, x: Sample)
    requires CountsAgreement(xs, s)
    ensures CountsAgreement(xs + [x], Apply(s, x))
    ensures var before, r := s.shown, Trimmed(x);
      Apply(s, x).shown ==
        if before.transport == "" then (if r.transport == "" then before else r)
        else if Agree(xs + [x], 3) && !SameRoute(r, before) then r
        else before
  {
    AgreeOneMore(xs, x, 1);
    AgreeOneMore(xs, x, 2);
    AgreeOneMore(xs, x, 3);
    var r := Trimmed(x);
    assert (xs + [x])[|xs|] == x;
    SameRouteIsEquivalence(r, r, r);
    SameRouteIsEquivalence(r, s.shown, r);
    SameRouteIsEquivalence(r, s.pending, r);
    if xs != [] {
      var last := Trimmed(xs[|xs| - 1]);
      SameRouteIsEquivalence(last, r, s.shown);
      SameRouteIsEquivalence(r, last, s.shown);
      SameRouteIsEquivalence(r, s.pending, last);
      SameRouteIsEquivalence(s.pending, last, r);
      SameRouteIsEquivalence(last, s.pending, r);
    }
  }

  /** The filter has shown and counted what the samples alone say. */
  ghost predicate Follows(xs: seq<Sample>, s: State) {
    s.shown == Shown(xs) && CountsAgreement(xs, s)
  }

  lemma LastSample(xs: seq<Sample>, s: State)
    requires xs != [] && Follows(xs[..|xs| - 1], s)
    ensures Follows(xs, Apply(s, xs[|xs| - 1]))
  {
    SampleKeepsCount(xs[..|xs| - 1], s, xs[|xs| - 1]);
    assert xs == xs[..|xs| - 1] + [xs[|xs| - 1]];
  }

  /** The filter, over every sequence of samples: after the first route, the display changes at a
      sample exactly when the last three samples are one complete route other than the shown one. */
  lemma {:induction false} DisplayNeedsThreeSamples(xs: seq<Sample>)
    ensures Follows(xs, Run(xs))
    decreases |xs|
  {
    if xs != [] {
      DisplayNeedsThreeSamples(xs[..|xs| - 1]);
      LastSample(xs, Run(xs[..|xs| - 1]));
    }
  }
}
