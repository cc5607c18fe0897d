/**
 * The reconciliation loop of `main` in main.go: an initial listing that is
 * fatal on error and always enacted, then one tick per ticker period that
 * derives the routes again, compares them with the current ones and, only
 * when they differ, replaces the current routes and enacts them.
 */
module Reconcile {
  import opened Wrappers
  import opened Routes
  import opened Enactor

  /** One call of `configureRoutes`: the routes given, the actions taken, the closing report. */
  datatype Enactment = Enactment(routes: seq<Route>, trace: seq<Action>, report: Report)

  /** What one tick brings: the node listing, and how the external steps go if it enacts. */
  datatype TickInput = TickInput(list: NodeList, outcomes: StepOutcomes)

  /** `currentRoutes`, with the history of enactments so far. */
  datatype State = State(current: seq<Route>, enactments: seq<Enactment>)

  function Enact(routes: seq<Route>, cfg: Config, o: StepOutcomes): Enactment
  {
    Enactment(routes, PlannedTrace(routes, cfg, o), ReportOf(o))
  }

  /** Change detection as `reflect.DeepEqual` does it on two route slices: order matters. */
  predicate RoutesChanged(previous: seq<Route>, next: seq<Route>)
  {
    previous != next
  }

  /** The initial listing of `main`: None when it fails (the process exits), else one unconditional enactment. */
  function Init(cfg: Config, first: TickInput): Option<State>
  {
    match first.list
    case ListFailed(_) => None
    case Listed(nodes) =>
      var routes := Derive(nodes);
      Some(State(routes, [Enact(routes, cfg, first.outcomes)]))
  }

  /** One tick. A failed listing is not skipped: its empty result is compared like any other. */
  function Step(cfg: Config, s: State, t: TickInput): State
  {
    var next := Desired(t.list);
    if RoutesChanged(next, s.current) then
      State(next, s.enactments + [Enact(next, cfg, t.outcomes)])
    else
      s
  }

  /** A sequence of ticks, in order. */
  function Run(cfg: Config, s: State, ticks: seq<TickInput>): State
    decreases |ticks|
  {
    if ticks == [] then s else Run(cfg, Step(cfg, s, ticks[0]), ticks[1..])
  }

  /** The last enactment was of the current routes. */
  predicate Consistent(s: State)
  {
    s.enactments != [] && s.enactments[|s.enactments| - 1].routes == s.current
  }

  // ---------------------------------------------------------------------
  // Properties of the loop.
  // ---------------------------------------------------------------------

  /** The comparison is element-wise and order-sensitive. */
  lemma ChangedIffSomePositionDiffers(previous: seq<Route>, next: seq<Route>)
    ensures !RoutesChanged(previous, next)
        <==> |previous| == |next| && forall i :: 0 <= i < |previous| ==> previous[i] == next[i]
  {
  }

  /** The same routes in another order count as a change. */
  lemma ReorderIsChange(a: Route, b: Route)
    requires a != b
    ensures RoutesChanged([a, b], [b, a])
  {
  }

  /**
   * The initial listing is fatal exactly when it fails; otherwise its routes
   * become current and are enacted once, even when there are none.
   */
  lemma InitEnactsOnce(cfg: Config, first: TickInput)
    ensures Init(cfg, first).None? <==> first.list.ListFailed?
    ensures Init(cfg, first).Some? ==>
      var s := Init(cfg, first).value;
      s.current == Derive(first.list.nodes) && |s.enactments| == 1
      && s.enactments[0] == Enact(s.current, cfg, first.outcomes) && Consistent(s)
  {
  }

  /**
   * A tick makes the listed routes current, and enacts them (appending one
   * enactment of exactly those routes) if and only if they differ from the
   * routes that were current; earlier enactments are kept.
   */
  lemma StepEnactsIffChanged(cfg: Config, s: State, t: TickInput)
    ensures Step(cfg, s, t).current == Desired(t.list)
    ensures |Step(cfg, s, t).enactments| == |s.enactments| + (if Desired(t.list) != s.current then 1 else 0)
    ensures Step(cfg, s, t).enactments[..|s.enactments|] == s.enactments
    ensures Desired(t.list) != s.current ==>
      Step(cfg, s, t).enactments[|s.enactments|] == Enact(Desired(t.list), cfg, t.outcomes)
  {
  }

  /** A tick that lists the same routes again changes nothing and enacts nothing. */
  lemma StepIdempotent(cfg: Config, s: State, t: TickInput, t': TickInput)
    requires Desired(t'.list) == Desired(t.list)
    ensures Step(cfg, Step(cfg, s, t), t') == Step(cfg, s, t)
  {
  }

  /** Every tick keeps the last enactment in agreement with the current routes. */
  lemma {:induction false} RunKeepsConsistent(cfg: Config, s: State, ticks: seq<TickInput>)
    requires Consistent(s)
    ensures Consistent(Run(cfg, s, ticks))
    decreases |ticks|
  {
    if ticks != [] {
      RunKeepsConsistent(cfg, Step(cfg, s, ticks[0]), ticks[1..]);
    }
  }

  lemma {:induction false} RunAppend(cfg: Config, s: State, ticks: seq<TickInput>, t: TickInput)
    ensures Run(cfg, s, ticks + [t]) == Step(cfg, Run(cfg, s, ticks), t)
    decreases |ticks|
  {
    if ticks == [] {
      assert ticks + [t] == [t];
      assert [t][1..] == [];
    } else {
      assert (ticks + [t])[0] == ticks[0];
      assert (ticks + [t])[1..] == ticks[1..] + [t];
      RunAppend(cfg, Step(cfg, s, ticks[0]), ticks[1..], t);
    }
  }

  /**
   * Any number of ticks that all list the same routes enact at most once:
   * once if those routes differ from the current ones, otherwise never.
   */
  lemma {:induction false} RepeatedTicksEnactAtMostOnce(
    cfg: Config, s: State, ticks: seq<TickInput>, routes: seq<Route>)
    requires forall k :: 0 <= k < |ticks| ==> Desired(ticks[k].list) == routes
    ensures |Run(cfg, s, ticks).enactments|
         == |s.enactments| + (if ticks != [] && routes != s.current then 1 else 0)
    ensures ticks != [] ==> Run(cfg, s, ticks).current == routes
    decreases |ticks|
  {
    if ticks != [] {
      var s1 := Step(cfg, s, ticks[0]);
      assert s1.current == routes;
      RepeatedTicksEnactAtMostOnce(cfg, s1, ticks[1..], routes);
      if ticks[1..] != [] {
        assert Run(cfg, s1, ticks[1..]).enactments == s1.enactments by {
          UnchangedTicksEnactNothing(cfg, s1, ticks[1..]);
        }
      }
    }
  }

  /** Ticks that list the routes already current leave the state as it is. */
  lemma {:induction false} UnchangedTicksEnactNothing(cfg: Config, s: State, ticks: seq<TickInput>)
    requires forall k :: 0 <= k < |ticks| ==> Desired(ticks[k].list) == s.current
    ensures Run(cfg, s, ticks) == s
    decreases |ticks|
  {
    if ticks != [] {
      assert Step(cfg, s, ticks[0]) == s;
      UnchangedTicksEnactNothing(cfg, s, ticks[1..]);
    }
  }

  /**
   * A failed listing inside the loop behaves exactly like a listing of no
   * nodes: when routes were current, they are replaced by none and the empty
   * set is enacted.
   */
  lemma FailedListingActsAsEmpty(cfg: Config, s: State, reason: string, o: StepOutcomes)
    ensures Step(cfg, s, TickInput(ListFailed(reason), o)) == Step(cfg, s, TickInput(Listed([]), o))
    ensures s.current != [] ==>
      var s' := Step(cfg, s, TickInput(ListFailed(reason), o));
      s'.current == [] && s'.enactments == s.enactments + [Enact([], cfg, o)]
  {
  }

  /** A new next hop for node n1 is a change, and the new routes are enacted in full. */
  lemma NexthopChangeScenario(cfg: Config, o1: StepOutcomes, o2: StepOutcomes)
    ensures
      var before := [Node("n1", "10.1.0.0/24", [NodeAddress("InternalIP", "10.0.0.1")])];
      var after := [Node("n1", "10.1.0.0/24", [NodeAddress("InternalIP", "10.0.0.2")])];
      var s1 := Init(cfg, TickInput(Listed(before), o1)).value;
      var s2 := Step(cfg, s1, TickInput(Listed(after), o2));
      s2.current == [Route("10.1.0.0/24", "10.0.0.2", "n1")]
      && s2.enactments == s1.enactments + [Enact(s2.current, cfg, o2)]
  {
    var n1 := Node("n1", "10.1.0.0/24", [NodeAddress("InternalIP", "10.0.0.1")]);
    var n2 := Node("n1", "10.1.0.0/24", [NodeAddress("InternalIP", "10.0.0.2")]);
    assert [n1][..0] == [] && [n2][..0] == [];
    assert n1.addresses[..0] == [] && n2.addresses[..0] == [];
    assert Derive([n1]) == [Route("10.1.0.0/24", "10.0.0.1", "n1")];
    assert Derive([n2]) == [Route("10.1.0.0/24", "10.0.0.2", "n1")];
  }

  // ---------------------------------------------------------------------
  // The loop as `main` runs it, with `currentRoutes` updated in place.
  // ---------------------------------------------------------------------

  class Reconciler {
    const cfg: Config
    var currentRoutes: seq<Route>
    var enactments: seq<Enactment>

    function Snapshot(): State
      reads this
    {
      State(currentRoutes, enactments)
    }

    predicate Valid()
      reads this
    {
      Consistent(Snapshot())
    }

    constructor (cfg: Config, routes: seq<Route>)
      ensures this.cfg == cfg && currentRoutes == routes && enactments == []
    {
      this.cfg := cfg;
      currentRoutes := routes;
      enactments := [];
    }

    /** The initial part of `main`: list, exit on error, otherwise enact unconditionally. */
    static method Start(cfg: Config, first: TickInput) returns (r: Reconciler?)
      ensures r == null <==> first.list.ListFailed?
      ensures r != null ==> fresh(r) && r.cfg == cfg && Init(cfg, first) == Some(r.Snapshot()) && r.Valid()
    {
      var routes, err := GetRoutes(first.list);
      if err.Some? {
        return null;
      }
      r := new Reconciler(cfg, routes);
      r.EnactCurrent(first.outcomes);
      assert r.Snapshot() == State(routes, [Enact(routes, cfg, first.outcomes)]);
    }

    /** `configureRoutes(currentRoutes, ...)`, recorded in the enactment history. */
    method EnactCurrent(o: StepOutcomes)
      modifies this
      ensures currentRoutes == old(currentRoutes)
      ensures enactments == old(enactments) + [Enact(currentRoutes, cfg, o)]
    {
      var trace, report := ConfigureRoutes(currentRoutes, cfg, o);
      enactments := enactments + [Enactment(currentRoutes, trace, report)];
    }

    /** One pass of the ticker loop. A listing error is only logged: the tick goes on. */
    method Tick(t: TickInput)
      modifies this
      ensures Snapshot() == Step(cfg, old(Snapshot()), t)
      ensures old(Valid()) ==> Valid()
    {
      var newRoutes, err := GetRoutes(t.list);
      if RoutesChanged(newRoutes, currentRoutes) {
        currentRoutes := newRoutes;
        EnactCurrent(t.outcomes);
      }
    }

    /** The ticker loop over a finite sequence of ticks. */
    method Loop(ticks: seq<TickInput>)
      modifies this
      ensures Snapshot() == Run(cfg, old(Snapshot()), ticks)
      ensures old(Valid()) ==> Valid()
    {
      var i := 0;
      while i < |ticks|
        invariant 0 <= i <= |ticks|
        invariant Snapshot() == Run(cfg, old(Snapshot()), ticks[..i])
        invariant old(Valid()) ==> Valid()
      {
        RunAppend(cfg, old(Snapshot()), ticks[..i], ticks[i]);
        assert ticks[..i + 1] == ticks[..i] + [ticks[i]];
        Tick(ticks[i]);
        i := i + 1;
      }
      assert ticks[..i] == ticks;
    }
  }

  /** `main` after the client is built: the initial listing, then the ticks in order. */
  method RunAgent(cfg: Config, first: TickInput, ticks: seq<TickInput>) returns (r: Reconciler?)
    ensures r == null <==> first.list.ListFailed?
    ensures r != null ==> r.Valid() && r.Snapshot() == Run(cfg, Init(cfg, first).value, ticks)
  {
    r := Reconciler.Start(cfg, first);
    if r != null {
      r.Loop(ticks);
    }
  }
}
