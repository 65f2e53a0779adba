/** Decomposing a unit-capacity flow into arc-disjoint routes by greedy walks over the arcs that
    carry flow and are not used yet. */
module FlowPaths {
  import opened Options
  import opened Products
  import opened FlowNetworks
  import opened GreedyRoutes
  import opened ReturnWalks

  /** One arc further into a walk: what is still to come shrinks by it. */
  lemma WalkGrows(net: Network, order: seq<nat>, used: set<nat>, current: nat, a: nat, arcs: seq<nat>)
    requires net.Valid() && Lists(net, order)
    requires current != net.sink && NextArc(net, order, used, current) == Some(a)
    ensures net.IsArc(a) && a !in used
    ensures arcs + Walk(net, order, used, current) == (arcs + [a]) + Walk(net, order, used + {a}, net.head[a])
    ensures Unused(net, used + {a}) < Unused(net, used)
  {
    WalkGoesOn(net, order, used, current, a);
    var rest := Walk(net, order, used + {a}, net.head[a]);
    assert arcs + ([a] + rest) == (arcs + [a]) + rest;
  }

  lemma NodesSnoc(net: Network, arcs: seq<nat>, start: nat, a: nat)
    requires net.Valid() && net.IsArc(a) && forall i :: 0 <= i < |arcs| ==> net.IsArc(arcs[i])
    ensures forall i :: 0 <= i < |arcs + [a]| ==> net.IsArc((arcs + [a])[i])
    ensures Nodes(net, arcs + [a], start) == Nodes(net, arcs, start) + [net.head[a]]
    ensures EndOf(net, arcs + [a], start) == net.head[a]
  {
  }

  lemma WalkGoesOn(net: Network, order: seq<nat>, used: set<nat>, current: nat, a: nat)
    requires net.Valid() && Lists(net, order)
    requires current != net.sink && NextArc(net, order, used, current) == Some(a)
    ensures net.IsArc(a) && Walk(net, order, used, current) == [a] + Walk(net, order, used + {a}, net.head[a])
    ensures Unused(net, used + {a}) < Unused(net, used)
  {
    assert a in Unused(net, used);
  }

  lemma RoutesGrow(net: Network, order: seq<nat>, used: set<nat>, paths: seq<seq<nat>>, walks: seq<seq<nat>>,
                   arcs: seq<nat>)
    requires net.Valid() && Lists(net, order) && net.source != net.sink && Routes(net, used, paths, walks)
    requires arcs == Walk(net, order, used, net.source) && EndOf(net, arcs, net.source) == net.sink
    ensures Routes(net, used + Arcs(arcs), paths + [Nodes(net, arcs, net.source)], walks + [arcs])
  {
    RouteOfWalk(net, order, used);
    AddRoute(net, used, paths, walks, Nodes(net, arcs, net.source), arcs);
  }

  /** One more route found: the rest still to be found shrinks by it. */
  lemma FoundGrows(net: Network, order: seq<nat>, used: set<nat>, arcs: seq<nat>, walks: seq<seq<nat>>)
    requires net.Valid() && Lists(net, order) && net.source != net.sink
    requires arcs == Walk(net, order, used, net.source) && EndOf(net, arcs, net.source) == net.sink
    ensures walks + RoutesFound(net, order, used) == (walks + [arcs]) + RoutesFound(net, order, used + Arcs(arcs))
    ensures Unused(net, used + Arcs(arcs)) < Unused(net, used)
  {
    NextFound(net, order, used, arcs);
    var later := RoutesFound(net, order, used + Arcs(arcs));
    assert walks + ([arcs] + later) == (walks + [arcs]) + later;
  }

  class PathFinder {
    const net: Network
    const allArcs: seq<nat>  // the order in which arcs are tried
    var usedArcs: set<nat>

    constructor (net: Network, allArcs: seq<nat>)
      ensures this.net == net && this.allArcs == allArcs && usedArcs == {}
    {
      this.net := net;
      this.allArcs := allArcs;
      usedArcs := {};
    }

    /** Walk greedily from `start`; the answer is None when the walk gets stuck before the sink.
        The arcs taken stay used either way. */
    method FindPath(start: nat) returns (path: Option<seq<nat>>, ghost arcs: seq<nat>)
      requires net.Valid() && Lists(net, allArcs)
      modifies this
      ensures arcs == Walk(net, allArcs, old(usedArcs), start)
      ensures usedArcs == old(usedArcs) + Arcs(arcs)
      ensures GreedyWalk(net, old(usedArcs), arcs, start)
      ensures path == if EndOf(net, arcs, start) == net.sink then Some(Nodes(net, arcs, start)) else None
    {
      arcs := [];
      var nodes := [start];
      var current := start;
      WalkFacts(net, allArcs, usedArcs, start);
      while current != net.sink
        invariant usedArcs == old(usedArcs) + Arcs(arcs)
        invariant forall i :: 0 <= i < |arcs| ==> net.IsArc(arcs[i])
        invariant nodes == Nodes(net, arcs, start) && current == EndOf(net, arcs, start)
        invariant Walk(net, allArcs, old(usedArcs), start) == arcs + Walk(net, allArcs, usedArcs, current)
        decreases Unused(net, usedArcs)
      {
        var next := FirstUsable(current);
        if next == None {
          return None, arcs;
        }
        var arc := next.value;
        WalkGrows(net, allArcs, usedArcs, current, arc, arcs);
        NodesSnoc(net, arcs, start, arc);
        AppendArc(arcs, arc);
        usedArcs := usedArcs + {arc};
        current := net.head[arc];
        nodes := nodes + [current];
        arcs := arcs + [arc];
      }
      return Some(nodes), arcs;
    }

    /** The scan over all arcs, up to the first one that can be taken. */
    method FirstUsable(current: nat) returns (next: Option<nat>)
      requires net.Valid() && Lists(net, allArcs)
      ensures next == NextArc(net, allArcs, usedArcs, current)
    {
      assert allArcs[0..] == allArcs;
      for i := 0 to |allArcs|
        invariant NextArc(net, allArcs, usedArcs, current) == NextArc(net, allArcs[i..], usedArcs, current)
      {
        assert allArcs[i] in allArcs;
        if Usable(net, usedArcs, current, allArcs[i]) {
          return Some(allArcs[i]);
        }
        assert allArcs[i..][1..] == allArcs[i + 1..];
      }
      return None;
    }

    /** The loop that collects routes until none is found. Arc-disjoint walks from source to sink, at
        least as many as the flow value; exactly as many unless flow leads back from the sink to the
        source. */
    method CollectPaths() returns (paths: seq<seq<nat>>, ghost walks: seq<seq<nat>>)
      requires net.Valid() && Conserved(net) && net.source != net.sink
      requires Lists(net, allArcs) && usedArcs == {}
      modifies this
      ensures walks == RoutesFound(net, allArcs, {})
      ensures Routes(net, usedArcs, paths, walks)
      ensures |paths| >= Value(net)
      ensures !Returns(net) ==> |paths| == Value(net)
      ensures Optimal(net) || NoneEnters(net, net.source) || NoneLeaves(net, net.sink) ==>
                |paths| == Value(net)
    {
      paths, walks := [], [];
      BalancedAtFirst(net);
      FoundCount(net, allArcs, {}, 0);
      NoReturnCases(net);
      while true
        invariant Routes(net, usedArcs, paths, walks)
        invariant RoutesFound(net, allArcs, {}) == walks + RoutesFound(net, allArcs, usedArcs)
        decreases Unused(net, usedArcs)
      {
        ghost var before := usedArcs;
        var path, arcs := FindPath(net.source);
        if path == None {
          assert walks + [] == walks;
          break;
        }
        FoundGrows(net, allArcs, before, arcs, walks);
        RoutesGrow(net, allArcs, before, paths, walks, arcs);
        paths := paths + [path.value];
        walks := walks + [arcs];
      }
    }
  }

  lemma NoReturnCases(net: Network)
    requires net.Valid() && Conserved(net) && net.source != net.sink
    ensures Optimal(net) || NoneEnters(net, net.source) || NoneLeaves(net, net.sink) ==> !Returns(net)
  {
    if Optimal(net) {
      OptimalHasNoReturn(net);
    } else if NoneEnters(net, net.source) || NoneLeaves(net, net.sink) {
      NoReturnAtEnds(net);
    }
  }

  /** Each path is a source-to-sink walk over flow-carrying arcs that are used now, and no arc is used
      twice within a walk or by two walks. */
  ghost predicate Routes(net: Network, used: set<nat>, paths: seq<seq<nat>>, walks: seq<seq<nat>>) {
    && |walks| == |paths|
    && (forall k :: 0 <= k < |paths| ==> IsRoute(net, walks[k], paths[k]))
    && (forall k :: 0 <= k < |walks| ==> Distinct(walks[k]) && Arcs(walks[k]) <= used)
    && forall k, l :: 0 <= k < l < |walks| ==> Arcs(walks[k]) !! Arcs(walks[l])
  }

  lemma AddRoute(net: Network, used: set<nat>, paths: seq<seq<nat>>, walks: seq<seq<nat>>,
                 path: seq<nat>, arcs: seq<nat>)
    requires Routes(net, used, paths, walks) && IsRoute(net, arcs, path)
    requires Distinct(arcs) && Arcs(arcs) !! used
    ensures Routes(net, used + Arcs(arcs), paths + [path], walks + [arcs])
  {
  }

  // ----- the maximum number of disjoint routes -----

  /** Weight 1 on the given arcs. */
  function ArcWeights(net: Network, arcs: set<nat>): (w: seq<int>)
    ensures |w| == |net.flow|
    ensures forall a :: 0 <= a < |w| ==> w[a] == Indicator(a in arcs)
  {
    seq(|net.flow|, a requires 0 <= a < |net.flow| => Indicator(a in arcs))
  }

  lemma AddArcWeight(net: Network, arcs: set<nat>, a: nat, v: nat)
    requires net.Valid() && net.IsArc(a) && a !in arcs
    ensures Outflow(net, ArcWeights(net, arcs + {a}), v)
            == Outflow(net, ArcWeights(net, arcs), v) + Indicator(net.tail[a] == v) - Indicator(net.head[a] == v)
  {
    assert ArcWeights(net, arcs + {a}) == ArcWeights(net, arcs)[a := 1];
    OutflowUpdate(net, ArcWeights(net, arcs), v, a, 1, |net.flow|);
  }

  /** Laying a walk over new arcs sends one unit from its first node to its last. */
  lemma {:induction false} AddWalkWeight(net: Network, arcs: set<nat>, walk: seq<nat>, path: seq<nat>, v: nat, n: nat)
    requires net.Valid() && LeadsAlong(net, walk, path) && Distinct(walk) && Arcs(walk) !! arcs && n <= |walk|
    ensures Outflow(net, ArcWeights(net, arcs + Arcs(walk[..n])), v)
            == Outflow(net, ArcWeights(net, arcs), v) + Indicator(path[0] == v) - Indicator(path[n] == v)
  {
    if n == 0 {
      assert arcs + Arcs(walk[..0]) == arcs;
    } else {
      AddWalkWeight(net, arcs, walk, path, v, n - 1);
      var a := walk[n - 1];
      assert walk[..n] == walk[..n - 1] + [a];
      AppendArc(walk[..n - 1], a);
      assert a in Arcs(walk);
      AddArcWeight(net, arcs + Arcs(walk[..n - 1]), a, v);
      assert arcs + Arcs(walk[..n]) == arcs + Arcs(walk[..n - 1]) + {a};
    }
  }

  /** Arc-disjoint walks from the source to the sink, over any arcs of the network. */
  ghost predicate DisjointWalks(net: Network, paths: seq<seq<nat>>, walks: seq<seq<nat>>) {
    && net.Valid()
    && |walks| == |paths|
    && (forall k :: 0 <= k < |walks| ==>
          && LeadsAlong(net, walks[k], paths[k]) && Distinct(walks[k])
          && paths[k][0] == net.source && paths[k][|walks[k]|] == net.sink)
    && forall k, l :: 0 <= k < l < |walks| ==> Arcs(walks[k]) !! Arcs(walks[l])
  }

  ghost function AllArcsOf(walks: seq<seq<nat>>): set<nat> {
    if walks == [] then {} else AllArcsOf(walks[..|walks| - 1]) + Arcs(walks[|walks| - 1])
  }

  lemma {:induction false} LaterWalkDisjoint(walks: seq<seq<nat>>, walk: seq<nat>)
    requires forall k :: 0 <= k < |walks| ==> Arcs(walks[k]) !! Arcs(walk)
    ensures AllArcsOf(walks) !! Arcs(walk)
  {
    if walks != [] {
      LaterWalkDisjoint(walks[..|walks| - 1], walk);
    }
  }

  /** k disjoint walks laid over each other send k units from the source to the sink. */
  lemma {:induction false} WalksFlow(net: Network, paths: seq<seq<nat>>, walks: seq<seq<nat>>, v: nat)
    requires DisjointWalks(net, paths, walks)
    ensures Outflow(net, ArcWeights(net, AllArcsOf(walks)), v)
            == |walks| * (Indicator(v == net.source) - Indicator(v == net.sink))
  {
    if walks == [] {
      ZeroOutflow(net, ArcWeights(net, {}), v, |net.flow|);
    } else {
      var n := |walks| - 1;
      WalksFlow(net, paths[..n], walks[..n], v);
      LaterWalkDisjoint(walks[..n], walks[n]);
      AddWalkWeight(net, AllArcsOf(walks[..n]), walks[n], paths[n], v, |walks[n]|);
      assert walks[n][..|walks[n]|] == walks[n];
      TimesSuccessor(n, Indicator(v == net.source) - Indicator(v == net.sink));
    }
  }

  lemma {:induction false} ZeroOutflow(net: Network, w: seq<int>, v: nat, n: nat)
    requires net.Valid() && n <= |w| == |net.flow| && forall a :: 0 <= a < |w| ==> w[a] == 0
    ensures OutflowUpTo(net, w, v, n) == 0
  {
    if n > 0 {
      ZeroOutflow(net, w, v, n - 1);
    }
  }

  /** No family of arc-disjoint source-to-sink walks, over whatever arcs, is larger than the value of an
      optimal flow: the maximum flow is the maximum number of disjoint paths. */
  lemma WalksAtMostOptimal(net: Network, paths: seq<seq<nat>>, walks: seq<seq<nat>>)
    requires DisjointWalks(net, paths, walks) && Optimal(net) && net.source != net.sink
    ensures |walks| <= Value(net)
  {
    var w := ArcWeights(net, AllArcsOf(walks));
    forall v: nat
      ensures Outflow(net, w, v) == |walks| * (Indicator(v == net.source) - Indicator(v == net.sink))
    {
      WalksFlow(net, paths, walks, v);
    }
    assert IsFlow(net, w);
    assert Outflow(net, w, net.source) == |walks|;
  }
}
