/** When the number of routes found is the flow value: exactly when no flow-carrying walk leads back
    from the sink to the source. */
module ReturnWalks {
  import opened Options
  import opened FlowNetworks
  import opened GreedyRoutes

  // ----- taking a walk out of a flow -----

  /** A walk that repeats an arc can be cut short. */
  lemma {:induction false} DistinctWalk(net: Network, arcs: seq<nat>, path: seq<nat>)
    returns (cut: seq<nat>, nodes: seq<nat>)
    requires net.Valid() && FlowWalk(net, arcs, path)
    ensures FlowWalk(net, cut, nodes) && Distinct(cut)
    ensures nodes[0] == path[0] && nodes[|cut|] == path[|arcs|]
    decreases |arcs|
  {
    if arcs == [] {
      cut, nodes := arcs, path;
    } else {
      var n := |arcs| - 1;
      var a := arcs[n];
      cut, nodes := DistinctWalk(net, arcs[..n], path[..n + 1]);
      if i :| 0 <= i < |cut| && cut[i] == a {
        cut, nodes := cut[..i + 1], nodes[..i + 2];
      } else {
        cut, nodes := cut + [a], nodes + [net.head[a]];
      }
    }
  }

  /** Without the first n arcs of a walk, one unit less leaves its start and one less arrives at its end. */
  lemma {:induction false} RemoveWalk(net: Network, arcs: seq<nat>, path: seq<nat>, v: nat, n: nat)
    requires net.Valid() && FlowWalk(net, arcs, path) && Distinct(arcs) && n <= |arcs|
    ensures Outflow(net, Left(net, Arcs(arcs[..n])), v)
            == Outflow(net, net.flow, v) - Indicator(path[0] == v) + Indicator(path[n] == v)
  {
    if n == 0 {
      assert Left(net, Arcs(arcs[..0])) == net.flow;
    } else {
      RemoveWalk(net, arcs, path, v, n - 1);
      var a := arcs[n - 1];
      assert arcs[..n] == arcs[..n - 1] + [a];
      AppendArc(arcs[..n - 1], a);
      UseArc(net, Arcs(arcs[..n - 1]), a, v);
    }
  }

  /** The network with the flow on these arcs taken away. */
  ghost function Without(net: Network, arcs: seq<nat>): Network {
    net.(flow := Left(net, Arcs(arcs)))
  }

  lemma {:induction false} SameGraph(net: Network, flow: seq<int>, w: seq<int>, v: nat, n: nat)
    requires net.Valid() && net.(flow := flow).Valid() && n <= |w| == |net.flow|
    ensures OutflowUpTo(net.(flow := flow), w, v, n) == OutflowUpTo(net, w, v, n)
  {
    if n > 0 {
      SameGraph(net, flow, w, v, n - 1);
    }
  }

  /** Taking away a walk from the sink back to the source leaves a flow of one unit more. */
  lemma CancelReturn(net: Network) returns (arcs: seq<nat>)
    requires net.Valid() && Conserved(net) && net.source != net.sink && Returns(net)
    ensures var less := Without(net, arcs);
            && less.Valid() && Conserved(less) && Value(less) == Value(net) + 1
            && IsFlow(net, less.flow) && Outflow(net, less.flow, net.source) == Value(net) + 1
  {
    var walk, path :| FlowWalk(net, walk, path) && path[0] == net.sink && path[|walk|] == net.source;
    var nodes;
    arcs, nodes := DistinctWalk(net, walk, path);
    var less := Without(net, arcs);
    forall v: nat
      ensures Outflow(net, less.flow, v)
              == Outflow(net, net.flow, v) - Indicator(net.sink == v) + Indicator(net.source == v)
      ensures Outflow(less, less.flow, v) == Outflow(net, less.flow, v)
    {
      assert arcs[..|arcs|] == arcs;
      RemoveWalk(net, arcs, nodes, v, |arcs|);
      SameGraph(net, less.flow, less.flow, v, |net.flow|);
    }
  }

  // ----- when flow cannot lead back -----

  lemma OptimalHasNoReturn(net: Network)
    requires net.Valid() && Conserved(net) && net.source != net.sink && Optimal(net)
    ensures !Returns(net)
  {
    if Returns(net) {
      var arcs := CancelReturn(net);
    }
  }

  lemma NoReturnAtEnds(net: Network)
    requires net.Valid() && net.source != net.sink
    requires NoneEnters(net, net.source) || NoneLeaves(net, net.sink)
    ensures !Returns(net)
  {
    forall walk, path | FlowWalk(net, walk, path)
      ensures !(path[0] == net.sink && path[|walk|] == net.source)
    {
      EndsOfWalk(net, walk, path);
    }
  }

  /** A walk between different nodes leaves the first and enters the last. */
  lemma EndsOfWalk(net: Network, arcs: seq<nat>, path: seq<nat>)
    requires net.Valid() && FlowWalk(net, arcs, path)
    ensures path[0] != path[|arcs|] ==> !NoneLeaves(net, path[0]) && !NoneEnters(net, path[|arcs|])
  {
    if |arcs| > 0 {
      var first, last := arcs[0], arcs[|arcs| - 1];
      assert net.flow[first] > 0 && net.tail[first] == path[0];
      assert net.flow[last] > 0 && net.head[last] == path[|arcs|];
    }
  }

  // ----- one route more -----

  /** All arcs in increasing order, as the notebook lists them. */
  function Increasing(n: nat): (order: seq<nat>)
    ensures |order| == n && forall i :: 0 <= i < n ==> order[i] == i
  {
    seq(n, i => i)
  }

  lemma IncreasingLists(net: Network)
    requires net.Valid()
    ensures Lists(net, Increasing(|net.flow|))
  {
    var order := Increasing(|net.flow|);
    forall a: nat ensures a in order <==> net.IsArc(a) {
      if net.IsArc(a) {
        assert order[a] == a;
      }
    }
  }

  lemma {:induction false} TrailOfWithout(net: Network, gone: seq<nat>, used: set<nat>, arcs: seq<nat>, start: nat)
    requires net.Valid() && Without(net, gone).Valid() && Trail(Without(net, gone), used, arcs, start)
    ensures Trail(net, used, arcs, start)
    decreases |arcs|
  {
    if arcs != [] {
      TrailOfWithout(net, gone, used + {arcs[0]}, arcs[1..], net.head[arcs[0]]);
    }
  }

  /** When flow leads back, there are arc-disjoint routes for one unit more than the flow value. */
  lemma ExtraRoute(net: Network) returns (walks: seq<seq<nat>>)
    requires net.Valid() && Conserved(net) && net.source != net.sink && Returns(net)
    ensures Bundle(net, {}, walks) && |walks| >= Value(net) + 1
  {
    var gone := CancelReturn(net);
    var less := Without(net, gone);
    var order := Increasing(|less.flow|);
    IncreasingLists(less);
    BalancedAtFirst(less);
    FoundCount(less, order, {}, 0);
    FoundBundle(less, order, {});
    walks := RoutesFound(less, order, {});
    forall k | 0 <= k < |walks| ensures ToSink(net, {}, walks[k]) {
      assert ToSink(less, {}, walks[k]);
      TrailOfWithout(net, gone, {}, walks[k], net.source);
    }
  }

  // ----- an order that makes the loop find given routes -----

  ghost function Flatten(walks: seq<seq<nat>>): seq<nat> {
    if walks == [] then [] else walks[0] + Flatten(walks[1..])
  }

  /** The numbers below n that are not taken. */
  ghost function Others(n: nat, taken: seq<nat>): (rest: seq<nat>)
    ensures Distinct(rest) && forall a: nat :: a in rest <==> a < n && a !in taken
  {
    if n == 0 then [] else Others(n - 1, taken) + (if n - 1 in taken then [] else [n - 1])
  }

  lemma {:induction false} InFlatten(walks: seq<seq<nat>>, a: nat)
    requires a in Flatten(walks)
    ensures exists k :: 0 <= k < |walks| && a in Arcs(walks[k])
  {
    if a in walks[0] {
      assert a in Arcs(walks[0]);
    } else {
      var later := walks[1..];
      InFlatten(later, a);
      var k :| 0 <= k < |later| && a in Arcs(later[k]);
      assert walks[k + 1] == later[k];
    }
  }

  lemma {:induction false} FlattenDistinct(net: Network, used: set<nat>, walks: seq<seq<nat>>)
    requires net.Valid() && Bundle(net, used, walks)
    ensures Distinct(Flatten(walks))
    decreases |walks|
  {
    if walks != [] {
      var first, later := walks[0], walks[1..];
      assert ToSink(net, used, first);
      TrailIsWalk(net, used, first, net.source);
      FlattenDistinct(net, used, later);
      forall a | a in Flatten(later) ensures a !in Arcs(first) {
        InFlatten(later, a);
        var k :| 0 <= k < |later| && a in Arcs(later[k]);
        assert walks[k + 1] == later[k];
      }
      DistinctConcat(first, Flatten(later));
    }
  }

  lemma DistinctConcat(s: seq<nat>, t: seq<nat>)
    requires Distinct(s) && Distinct(t) && forall a :: a in t ==> a !in Arcs(s)
    ensures Distinct(s + t)
  {
    forall i, j | 0 <= i < |s| && 0 <= j < |t| ensures s[i] != t[j] {
      assert s[i] in Arcs(s) && t[j] in t;
    }
  }

  lemma BundleOrder(net: Network, walks: seq<seq<nat>>)
    requires net.Valid() && Bundle(net, {}, walks)
    ensures Lists(net, Flatten(walks) + Others(|net.flow|, Flatten(walks)))
  {
    var s := Flatten(walks);
    var t := Others(|net.flow|, s);
    FlattenDistinct(net, {}, walks);
    assert forall a :: a in Arcs(s) ==> a in s;
    DistinctConcat(s, t);
    forall a | a in s ensures net.IsArc(a) {
      InFlatten(walks, a);
      var k :| 0 <= k < |walks| && a in Arcs(walks[k]);
      assert ToSink(net, {}, walks[k]);
    }
  }

  lemma {:induction false} SkipUsed(net: Network, pre: seq<nat>, later: seq<nat>, used: set<nat>, v: nat)
    requires net.Valid() && forall a :: a in pre + later ==> net.IsArc(a)
    requires forall a :: a in pre ==> a in used
    ensures forall a :: a in later ==> net.IsArc(a)
    ensures NextArc(net, pre + later, used, v) == NextArc(net, later, used, v)
    decreases |pre|
  {
    assert forall a :: a in later ==> a in pre + later;
    if pre == [] {
      assert pre + later == later;
    } else {
      assert pre[0] in pre && (pre + later)[0] == pre[0];
      assert (pre + later)[1..] == pre[1..] + later;
      SkipUsed(net, pre[1..], later, used, v);
    }
  }

  /** When the arcs of a trail come next in the order, the walk follows it. */
  lemma {:induction false} FollowTrail(net: Network, order: seq<nat>, pre: seq<nat>, arcs: seq<nat>, post: seq<nat>,
                                       used: set<nat>, v: nat)
    requires net.Valid() && Lists(net, order) && order == pre + (arcs + post)
    requires forall a :: a in pre ==> a in used
    requires Trail(net, used, arcs, v) && forall i :: 0 <= i < |arcs| ==> net.IsArc(arcs[i])
    requires EndOf(net, arcs, v) == net.sink
    ensures Walk(net, order, used, v) == arcs
    decreases |arcs|
  {
    if arcs != [] {
      var a, rest := arcs[0], arcs[1..];
      SkipUsed(net, pre, arcs + post, used, v);
      assert (arcs + post)[0] == a;
      assert NextArc(net, order, used, v).value == a;
      assert order == (pre + [a]) + (rest + post);
      FollowTrail(net, order, pre + [a], rest, post, used + {a}, net.head[a]);
    }
  }

  lemma {:induction false} MoreUsed(net: Network, used: set<nat>, more: set<nat>, arcs: seq<nat>, start: nat)
    requires net.Valid() && used <= more && Trail(net, used, arcs, start) && Arcs(arcs) !! more - used
    ensures Trail(net, more, arcs, start)
    decreases |arcs|
  {
    if arcs != [] {
      var a, rest := arcs[0], arcs[1..];
      assert arcs == [a] + rest;
      PrependArc(rest, a);
      MoreUsed(net, used + {a}, more + {a}, rest, net.head[a]);
    }
  }

  lemma LaterBundle(net: Network, used: set<nat>, walks: seq<seq<nat>>)
    requires net.Valid() && Bundle(net, used, walks) && walks != []
    ensures Bundle(net, used + Arcs(walks[0]), walks[1..])
  {
    var first, later := walks[0], walks[1..];
    forall k | 0 <= k < |later| ensures ToSink(net, used + Arcs(first), later[k]) {
      assert later[k] == walks[k + 1] && ToSink(net, used, walks[k + 1]);
      MoreUsed(net, used, used + Arcs(first), later[k], net.source);
    }
  }

  lemma {:induction false} FollowBundle(net: Network, order: seq<nat>, pre: seq<nat>, walks: seq<seq<nat>>,
                                        post: seq<nat>, used: set<nat>)
    requires net.Valid() && Lists(net, order) && net.source != net.sink
    requires order == pre + (Flatten(walks) + post)
    requires forall a :: a in pre ==> a in used
    requires Bundle(net, used, walks)
    ensures |RoutesFound(net, order, used)| >= |walks|
    decreases |walks|
  {
    if walks != [] {
      var first, later := walks[0], walks[1..];
      assert ToSink(net, used, first);
      assert order == pre + (first + (Flatten(later) + post));
      FollowTrail(net, order, pre, first, Flatten(later) + post, used, net.source);
      LaterBundle(net, used, walks);
      assert order == (pre + first) + (Flatten(later) + post);
      assert forall a :: a in first ==> a in Arcs(first);
      FollowBundle(net, order, pre + first, later, post, used + Arcs(first));
    }
  }

  /** When flow leads back, some order of the arcs makes the loop find more routes than the flow value. */
  lemma MoreInSomeOrder(net: Network) returns (order: seq<nat>)
    requires net.Valid() && Conserved(net) && net.source != net.sink && Returns(net)
    ensures Lists(net, order) && |RoutesFound(net, order, {})| > Value(net)
  {
    var walks := ExtraRoute(net);
    var post := Others(|net.flow|, Flatten(walks));
    BundleOrder(net, walks);
    order := Flatten(walks) + post;
    assert order == [] + (Flatten(walks) + post);
    FollowBundle(net, order, [], walks, post, {});
  }

  /** The loop finds exactly the flow value of routes, whatever the order of the arcs, iff no
      flow-carrying walk leads back from the sink to the source. */
  lemma ExactIffNoReturn(net: Network)
    requires net.Valid() && Conserved(net) && net.source != net.sink
    ensures !Returns(net) <==>
            forall order :: Lists(net, order) ==> |RoutesFound(net, order, {})| == Value(net)
  {
    if Returns(net) {
      var order := MoreInSomeOrder(net);
    } else {
      BalancedAtFirst(net);
      forall order | Lists(net, order) ensures |RoutesFound(net, order, {})| == Value(net) {
        FoundCount(net, order, {}, 0);
      }
    }
  }

  // ----- a flow whose routes depend on the order -----

  lemma {:induction false} TakesFirst(net: Network, order: seq<nat>, used: set<nat>, v: nat, k: nat)
    requires net.Valid() && (forall a :: a in order ==> net.IsArc(a)) && k < |order|
    requires Usable(net, used, v, order[k])
    requires forall i :: 0 <= i < k ==> !Usable(net, used, v, order[i])
    ensures NextArc(net, order, used, v) == Some(order[k])
  {
    if k > 0 {
      TakesFirst(net, order[1..], used, v, k - 1);
    }
  }

  /** The walk takes the k-th arc of the order when it is the first usable one. */
  lemma WalkTakes(net: Network, order: seq<nat>, used: set<nat>, v: nat, k: nat)
    requires net.Valid() && Lists(net, order) && v != net.sink && k < |order|
    requires Usable(net, used, v, order[k])
    requires forall i :: 0 <= i < k ==> !Usable(net, used, v, order[i])
    ensures Walk(net, order, used, v) == [order[k]] + Walk(net, order, used + {order[k]}, net.head[order[k]])
  {
    TakesFirst(net, order, used, v, k);
  }

  lemma WalkTwo(net: Network, order: seq<nat>, v: nat, k: nat, l: nat)
    requires net.Valid() && Lists(net, order) && k < |order| && l < |order|
    requires v != net.sink && net.IsArc(order[k]) && net.head[order[k]] != net.sink && net.IsArc(order[l])
    requires Usable(net, {}, v, order[k]) && Usable(net, {order[k]}, net.head[order[k]], order[l])
    requires forall i :: 0 <= i < k ==> !Usable(net, {}, v, order[i])
    requires forall i :: 0 <= i < l ==> !Usable(net, {order[k]}, net.head[order[k]], order[i])
    ensures var a, b := order[k], order[l];
            Walk(net, order, {}, v) == [a, b] + Walk(net, order, {a, b}, net.head[b])
  {
    var a, b := order[k], order[l];
    WalkTakes(net, order, {}, v, k);
    WalkTakes(net, order, {a}, net.head[a], l);
    assert {} + {a} == {a} && {a} + {b} == {a, b};
  }

  lemma WalkStops(net: Network, order: seq<nat>, used: set<nat>, v: nat)
    requires net.Valid() && Lists(net, order)
    requires forall a :: 0 <= a < |net.flow| ==> !Usable(net, used, v, a)
    ensures Walk(net, order, used, v) == []
  {
    if NextArc(net, order, used, v).Some? {
      assert false;
    }
  }

  lemma WalkEndsAtSink(net: Network, order: seq<nat>, used: set<nat>)
    requires net.Valid() && Lists(net, order)
    ensures Walk(net, order, used, net.sink) == []
  {
  }

  /** Flow value 0, with walks both ways between source 0 and sink 1 through node 2. */
  const TWO_WAYS := Network([0, 2, 2, 1], [2, 0, 1, 2], [1, 1, 1, 1], 0, 1)

  lemma TwoWaysValue()
    ensures TWO_WAYS.Valid() && Conserved(TWO_WAYS) && Value(TWO_WAYS) == 0
  {
    var net := TWO_WAYS;
    forall v: nat
      ensures Outflow(net, net.flow, v) == 0
    {
      assert OutflowUpTo(net, net.flow, v, 1) == Indicator(0 == v) - Indicator(2 == v);
      assert OutflowUpTo(net, net.flow, v, 2) == 0;
      assert OutflowUpTo(net, net.flow, v, 3) == Indicator(2 == v) - Indicator(1 == v);
    }
  }

  /** What the loop finds can depend on the order of the arcs: here the flow value is 0, one order finds
      no route and another finds one. */
  lemma OrderMatters()
    ensures TWO_WAYS.Valid() && Conserved(TWO_WAYS) && Value(TWO_WAYS) == 0
    ensures Lists(TWO_WAYS, [0, 1, 2, 3]) && RoutesFound(TWO_WAYS, [0, 1, 2, 3], {}) == []
    ensures Lists(TWO_WAYS, [0, 2, 1, 3]) && RoutesFound(TWO_WAYS, [0, 2, 1, 3], {}) == [[0, 2]]
  {
    TwoWaysValue();
    BackToSource();
    ToTheSink();
  }

  lemma BackToSource()
    ensures Lists(TWO_WAYS, [0, 1, 2, 3]) && RoutesFound(TWO_WAYS, [0, 1, 2, 3], {}) == []
  {
    WalkTwo(TWO_WAYS, [0, 1, 2, 3], 0, 0, 1);
    WalkStops(TWO_WAYS, [0, 1, 2, 3], {0, 1}, 0);
    NoneFound(TWO_WAYS, [0, 1, 2, 3], {}, [0, 1]);
  }

  lemma ToTheSink()
    ensures Lists(TWO_WAYS, [0, 2, 1, 3]) && RoutesFound(TWO_WAYS, [0, 2, 1, 3], {}) == [[0, 2]]
  {
    WalkTwo(TWO_WAYS, [0, 2, 1, 3], 0, 0, 1);
    WalkEndsAtSink(TWO_WAYS, [0, 2, 1, 3], {0, 2});
    NextFound(TWO_WAYS, [0, 2, 1, 3], {}, [0, 2]);
    ArcsOfTwo(0, 2);
    WalkStops(TWO_WAYS, [0, 2, 1, 3], {0, 2}, 0);
    NoneFound(TWO_WAYS, [0, 2, 1, 3], {0, 2}, []);
  }

  lemma ArcsOfTwo(a: nat, b: nat)
    ensures {} + Arcs([a, b]) == {a, b}
  {
    AppendArc([], a);
    AppendArc([a], b);
    assert [a, b] == [a] + [b] && [a] == [] + [a];
  }
}
