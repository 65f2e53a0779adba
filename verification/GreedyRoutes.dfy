/** What the greedy walks compute, as functions of the order in which the arcs are tried: the walk of
    one call, all routes of the collecting loop, and how many routes there are. */
module GreedyRoutes {
  import opened Options
  import opened FlowNetworks

  /** The order in which the arcs are tried: every arc once. */
  ghost predicate Lists(net: Network, order: seq<nat>) {
    Distinct(order) && forall a: nat :: a in order <==> net.IsArc(a)
  }

  /** The first arc of the list that may be taken from node v. */
  function NextArc(net: Network, order: seq<nat>, used: set<nat>, v: nat): (next: Option<nat>)
    requires net.Valid() && forall a :: a in order ==> net.IsArc(a)
    ensures next.Some? ==> next.value in order && Usable(net, used, v, next.value)
    ensures next.None? ==> forall a :: a in order ==> !Usable(net, used, v, a)
  {
    if order == [] then None
    else if Usable(net, used, v, order[0]) then Some(order[0])
    else NextArc(net, order[1..], used, v)
  }

  ghost function Unused(net: Network, used: set<nat>): set<nat> {
    set a: nat | 0 <= a < |net.flow| && a !in used
  }

  /** The arcs of a greedy walk from node v; it ends at the sink or where it is stuck. */
  ghost function Walk(net: Network, order: seq<nat>, used: set<nat>, v: nat): (arcs: seq<nat>)
    requires net.Valid() && Lists(net, order)
    ensures forall i :: 0 <= i < |arcs| ==> net.IsArc(arcs[i])
    ensures arcs != [] ==> arcs[0] !in used
    decreases Unused(net, used)
  {
    if v == net.sink then []
    else
      match NextArc(net, order, used, v)
      case None => []
      case Some(a) =>
        assert a in Unused(net, used);
        [a] + Walk(net, order, used + {a}, net.head[a])
  }

  /** Where a walk from `start` ends. */
  function EndOf(net: Network, arcs: seq<nat>, start: nat): nat
    requires net.Valid() && forall i :: 0 <= i < |arcs| ==> net.IsArc(arcs[i])
  {
    if arcs == [] then start
    else
      assert net.IsArc(arcs[|arcs| - 1]);
      net.head[arcs[|arcs| - 1]]
  }

  /** The nodes a walk from `start` visits. */
  function Nodes(net: Network, arcs: seq<nat>, start: nat): seq<nat>
    requires net.Valid() && forall i :: 0 <= i < |arcs| ==> net.IsArc(arcs[i])
  {
    [start] + seq(|arcs|, i requires 0 <= i < |arcs| && net.IsArc(arcs[i]) => net.head[arcs[i]])
  }

  /** The walks that are collected until one gets stuck before the sink. */
  ghost function RoutesFound(net: Network, order: seq<nat>, used: set<nat>): (walks: seq<seq<nat>>)
    requires net.Valid() && Lists(net, order) && net.source != net.sink
    decreases Unused(net, used)
  {
    var arcs := Walk(net, order, used, net.source);
    if EndOf(net, arcs, net.source) != net.sink then []
    else
      assert arcs[0] in Unused(net, used) && arcs[0] in Arcs(arcs);
      [arcs] + RoutesFound(net, order, used + Arcs(arcs))
  }

  // ----- one walk -----

  lemma PrependArc(arcs: seq<nat>, a: nat)
    ensures Arcs([a] + arcs) == {a} + Arcs(arcs)
  {
    var s := [a] + arcs;
    forall x | x in {a} + Arcs(arcs) ensures x in Arcs(s) {
      if x == a {
        assert s[0] == a;
      } else {
        var i :| 0 <= i < |arcs| && arcs[i] == x;
        assert s[i + 1] == x;
      }
    }
  }

  /** One usable arc after the other, until the sink. */
  ghost predicate Trail(net: Network, used: set<nat>, arcs: seq<nat>, start: nat)
    requires net.Valid()
    decreases |arcs|
  {
    arcs == [] ||
    (&& net.IsArc(arcs[0]) && Usable(net, used, start, arcs[0]) && start != net.sink
     && Trail(net, used + {arcs[0]}, arcs[1..], net.head[arcs[0]]))
  }

  lemma {:induction false} TrailAt(net: Network, used: set<nat>, arcs: seq<nat>, start: nat, i: nat)
    requires net.Valid() && Trail(net, used, arcs, start) && i < |arcs|
    ensures net.IsArc(arcs[i]) && net.flow[arcs[i]] > 0 && arcs[i] !in used && net.tail[arcs[i]] != net.sink
    ensures i > 0 ==> net.IsArc(arcs[i - 1]) && net.tail[arcs[i]] == net.head[arcs[i - 1]]
    ensures i == 0 ==> net.tail[arcs[i]] == start
    ensures forall j :: 0 <= j < i ==> arcs[j] != arcs[i]
    decreases i
  {
    if i > 0 {
      var rest := arcs[1..];
      TrailAt(net, used + {arcs[0]}, rest, net.head[arcs[0]], i - 1);
      assert rest[i - 1] == arcs[i];
      forall j | 0 <= j < i ensures arcs[j] != arcs[i] {
        if j > 0 {
          assert arcs[j] == rest[j - 1];
        }
      }
    }
  }

  /** A trail is a walk over distinct unused flow-carrying arcs that never leaves the sink. */
  lemma TrailIsWalk(net: Network, used: set<nat>, arcs: seq<nat>, start: nat)
    requires net.Valid() && Trail(net, used, arcs, start)
    ensures Distinct(arcs) && Arcs(arcs) !! used
    ensures forall i :: 0 <= i < |arcs| ==> net.IsArc(arcs[i]) && net.tail[arcs[i]] != net.sink
    ensures FlowWalk(net, arcs, Nodes(net, arcs, start))
    ensures Nodes(net, arcs, start)[|arcs|] == EndOf(net, arcs, start)
  {
    forall i | 0 <= i < |arcs|
      ensures net.IsArc(arcs[i]) && net.flow[arcs[i]] > 0 && arcs[i] !in used && net.tail[arcs[i]] != net.sink
      ensures i == 0 ==> net.tail[arcs[i]] == start
      ensures i > 0 ==> net.IsArc(arcs[i - 1]) && net.tail[arcs[i]] == net.head[arcs[i - 1]]
      ensures forall j :: 0 <= j < i ==> arcs[j] != arcs[i]
    {
      TrailAt(net, used, arcs, start, i);
    }
  }

  lemma {:induction false} WalkIsTrail(net: Network, order: seq<nat>, used: set<nat>, v: nat)
    requires net.Valid() && Lists(net, order)
    ensures Trail(net, used, Walk(net, order, used, v), v)
    decreases Unused(net, used)
  {
    if v != net.sink && NextArc(net, order, used, v).Some? {
      var a := NextArc(net, order, used, v).value;
      assert a in Unused(net, used);
      WalkIsTrail(net, order, used + {a}, net.head[a]);
      assert Walk(net, order, used, v)[1..] == Walk(net, order, used + {a}, net.head[a]);
    }
  }

  /** A trail moves one unit of net outflow from where it starts to where it ends. */
  lemma {:induction false} TrailShifts(net: Network, before: set<nat>, used: set<nat>, arcs: seq<nat>,
                                       start: nat, at: nat)
    requires net.Valid() && Shifted(net, before, used, start, at) && Trail(net, used, arcs, at)
    ensures forall i :: 0 <= i < |arcs| ==> net.IsArc(arcs[i])
    ensures Shifted(net, before, used + Arcs(arcs), start, EndOf(net, arcs, at))
    decreases |arcs|
  {
    if arcs == [] {
      assert used + Arcs(arcs) == used;
    } else {
      var a, rest := arcs[0], arcs[1..];
      ShiftByArc(net, before, used, start, at, a);
      TrailShifts(net, before, used + {a}, rest, start, net.head[a]);
      assert arcs == [a] + rest;
      PrependArc(rest, a);
      assert used + {a} + Arcs(rest) == used + Arcs(arcs);
    }
  }

  lemma {:induction false} FewerUsed(net: Network, used: set<nat>, more: set<nat>, arcs: seq<nat>, start: nat)
    requires net.Valid() && used <= more && Trail(net, more, arcs, start)
    ensures Trail(net, used, arcs, start)
    decreases |arcs|
  {
    if arcs != [] {
      FewerUsed(net, used + {arcs[0]}, more + {arcs[0]}, arcs[1..], net.head[arcs[0]]);
    }
  }

  /** The walk stops before the sink only where no arc can be taken any more. */
  lemma {:induction false} WalkEnd(net: Network, order: seq<nat>, used: set<nat>, v: nat)
    requires net.Valid() && Lists(net, order)
    ensures var arcs := Walk(net, order, used, v);
            EndOf(net, arcs, v) != net.sink ==>
              forall a :: 0 <= a < |net.flow| ==> !Usable(net, used + Arcs(arcs), EndOf(net, arcs, v), a)
    decreases Unused(net, used)
  {
    var arcs := Walk(net, order, used, v);
    if v != net.sink {
      match NextArc(net, order, used, v)
      case None =>
        assert used + Arcs(arcs) == used;
        forall a | 0 <= a < |net.flow| ensures !Usable(net, used, v, a) {
          assert net.IsArc(a) && a in order;
        }
      case Some(a) =>
        assert a in Unused(net, used);
        var rest := Walk(net, order, used + {a}, net.head[a]);
        WalkEnd(net, order, used + {a}, net.head[a]);
        PrependArc(rest, a);
        assert used + {a} + Arcs(rest) == used + Arcs(arcs);
    }
  }

  /** Distinct unused flow-carrying arcs, one after the other, to the sink or to a dead end. */
  ghost predicate GreedyWalk(net: Network, used: set<nat>, arcs: seq<nat>, start: nat)
    requires net.Valid()
  {
    && Distinct(arcs) && Arcs(arcs) !! used
    && (forall i :: 0 <= i < |arcs| ==> net.IsArc(arcs[i]))
    && FlowWalk(net, arcs, Nodes(net, arcs, start))
    && Nodes(net, arcs, start)[|arcs|] == EndOf(net, arcs, start)
    && (EndOf(net, arcs, start) == net.sink ||
        forall a :: 0 <= a < |net.flow| ==> !Usable(net, used + Arcs(arcs), EndOf(net, arcs, start), a))
  }

  lemma WalkFacts(net: Network, order: seq<nat>, used: set<nat>, v: nat)
    requires net.Valid() && Lists(net, order)
    ensures GreedyWalk(net, used, Walk(net, order, used, v), v)
  {
    WalkIsTrail(net, order, used, v);
    TrailIsWalk(net, used, Walk(net, order, used, v), v);
    WalkEnd(net, order, used, v);
  }

  /** A walk from the source of what is left of a conserved flow gets stuck nowhere but back at the
      source, and only once the whole flow value has been routed. */
  lemma StuckOnlyAtSource(net: Network, before: set<nat>, after: set<nat>, at: nat)
    requires net.Valid() && net.source != net.sink && at != net.sink
    requires forall v: nat :: v != net.source && v != net.sink ==> Outflow(net, Left(net, before), v) == 0
    requires Shifted(net, before, after, net.source, at)
    requires forall a :: 0 <= a < |net.flow| ==> !Usable(net, after, at, a)
    ensures at == net.source && Outflow(net, Left(net, before), net.source) <= 0
  {
    forall a | 0 <= a < |net.flow| && net.tail[a] == at ensures Left(net, after)[a] == 0 {
      assert !Usable(net, after, at, a);
    }
    StuckOutflow(net, Left(net, after), at, |net.flow|);
    assert Outflow(net, Left(net, after), at) <= 0;
  }

  /** When no flow enters the source, a walk that has left it is never stuck before the sink. */
  lemma NeverStuckOnceLeft(net: Network, order: seq<nat>, used: set<nat>, k: nat)
    requires net.Valid() && Lists(net, order) && net.source != net.sink && Balanced(net, used, k)
    ensures var arcs := Walk(net, order, used, net.source);
            NoneEnters(net, net.source) && arcs != [] ==> EndOf(net, arcs, net.source) == net.sink
  {
    var arcs := Walk(net, order, used, net.source);
    var at := EndOf(net, arcs, net.source);
    WalkFacts(net, order, used, net.source);
    if arcs != [] && at != net.sink {
      WalkIsTrail(net, order, used, net.source);
      TrailShifts(net, used, used, arcs, net.source, net.source);
      StuckOnlyAtSource(net, used, used + Arcs(arcs), at);
      var last := arcs[|arcs| - 1];
      assert net.flow[last] > 0 && net.head[last] == net.source;
    }
  }

  // ----- all routes -----

  /** A walk over flow-carrying arcs from the source to the sink, printed as its nodes. */
  ghost predicate IsRoute(net: Network, arcs: seq<nat>, path: seq<nat>) {
    && net.Valid()
    && FlowWalk(net, arcs, path)
    && path[0] == net.source
    && path[|arcs|] == net.sink
    && arcs != []
  }

  /** Trails from the source to the sink, no arc on two of them or used before. */
  ghost predicate Bundle(net: Network, used: set<nat>, walks: seq<seq<nat>>)
    requires net.Valid()
  {
    && (forall k :: 0 <= k < |walks| ==> ToSink(net, used, walks[k]))
    && forall k, l :: 0 <= k < l < |walks| ==> Arcs(walks[k]) !! Arcs(walks[l])
  }

  ghost predicate ToSink(net: Network, used: set<nat>, arcs: seq<nat>)
    requires net.Valid()
  {
    && Trail(net, used, arcs, net.source)
    && (forall i :: 0 <= i < |arcs| ==> net.IsArc(arcs[i]))
    && EndOf(net, arcs, net.source) == net.sink
  }

  lemma ToSinkIsRoute(net: Network, used: set<nat>, arcs: seq<nat>)
    requires net.Valid() && net.source != net.sink && ToSink(net, used, arcs)
    ensures IsRoute(net, arcs, Nodes(net, arcs, net.source))
    ensures Distinct(arcs) && Arcs(arcs) !! used
  {
    TrailIsWalk(net, used, arcs, net.source);
  }

  lemma {:induction false} FoundBundle(net: Network, order: seq<nat>, used: set<nat>)
    requires net.Valid() && Lists(net, order) && net.source != net.sink
    ensures Bundle(net, used, RoutesFound(net, order, used))
    decreases Unused(net, used)
  {
    var arcs := Walk(net, order, used, net.source);
    WalkIsTrail(net, order, used, net.source);
    if EndOf(net, arcs, net.source) == net.sink {
      assert arcs[0] in Unused(net, used) && arcs[0] in Arcs(arcs);
      FoundBundle(net, order, used + Arcs(arcs));
      PrependRoute(net, used, arcs, RoutesFound(net, order, used + Arcs(arcs)));
    }
  }

  lemma PrependRoute(net: Network, used: set<nat>, arcs: seq<nat>, walks: seq<seq<nat>>)
    requires net.Valid() && ToSink(net, used, arcs) && Bundle(net, used + Arcs(arcs), walks)
    ensures Bundle(net, used, [arcs] + walks)
  {
    forall k | 0 <= k < |walks| ensures ToSink(net, used, walks[k]) && Arcs(arcs) !! Arcs(walks[k]) {
      var more := used + Arcs(arcs);
      assert ToSink(net, more, walks[k]);
      FewerUsed(net, used, more, walks[k], net.source);
      TrailIsWalk(net, more, walks[k], net.source);
    }
  }

  /** The nodes that flow from the sink can reach. */
  ghost function SinkSide(net: Network): set<nat>
    requires net.Valid()
  {
    set v | v in AllNodes(net) && Leads(net, net.sink, v)
  }

  lemma SinkSideClosed(net: Network, a: nat)
    requires net.Valid() && net.IsArc(a) && net.flow[a] > 0 && net.tail[a] in SinkSide(net)
    ensures net.head[a] in SinkSide(net)
  {
    LeadsOn(net, net.sink, a);
    assert net.head[a] in Arcs(net.head);
  }

  /** Unless flow leads back from the sink to the source, no more is ever routed than the flow value. */
  lemma NeverTooMany(net: Network, used: set<nat>, k: nat)
    requires net.Valid() && net.source != net.sink && Balanced(net, used, k)
    ensures !Returns(net) ==> k <= Value(net)
  {
    if !Returns(net) {
      var side, w := SinkSide(net), Left(net, used);
      assert FlowWalk(net, [], [net.sink]);
      assert net.sink in side && net.source !in side;
      forall a | 0 <= a < |w| && w[a] > 0 && net.tail[a] in side ensures net.head[a] in side {
        SinkSideClosed(net, a);
      }
      CutClosed(net, w, side, |w|);
      CutOfConserved(net, w, side);
    }
  }

  /** Each route takes one unit of the flow value, and never one too many unless flow leads back from
      the sink to the source. */
  lemma RouteCounts(net: Network, before: set<nat>, after: set<nat>, k: nat)
    requires net.Valid() && net.source != net.sink && Balanced(net, before, k)
    requires Shifted(net, before, after, net.source, net.sink)
    ensures Balanced(net, after, k + 1)
    ensures !Returns(net) ==> k + 1 <= Value(net)
  {
    NeverTooMany(net, after, k + 1);
  }

  /** The loop never stops short of the flow value, whatever the order of the arcs; and it stops there
      unless flow leads back from the sink to the source. */
  lemma {:induction false} FoundCount(net: Network, order: seq<nat>, used: set<nat>, k: nat)
    requires net.Valid() && Lists(net, order) && net.source != net.sink && Balanced(net, used, k)
    ensures k + |RoutesFound(net, order, used)| >= Value(net)
    ensures !Returns(net) ==> k + |RoutesFound(net, order, used)| == Value(net)
    decreases Unused(net, used)
  {
    var arcs := Walk(net, order, used, net.source);
    var after, at := used + Arcs(arcs), EndOf(net, arcs, net.source);
    WalkIsTrail(net, order, used, net.source);
    TrailShifts(net, used, used, arcs, net.source, net.source);
    if at == net.sink {
      RouteCounts(net, used, after, k);
      assert arcs[0] in Unused(net, used) && arcs[0] in Arcs(arcs);
      FoundCount(net, order, after, k + 1);
    } else {
      WalkEnd(net, order, used, net.source);
      StuckOnlyAtSource(net, used, after, at);
      NeverTooMany(net, used, k);
    }
  }

  lemma NextFound(net: Network, order: seq<nat>, used: set<nat>, arcs: seq<nat>)
    requires net.Valid() && Lists(net, order) && net.source != net.sink
    requires arcs == Walk(net, order, used, net.source) && EndOf(net, arcs, net.source) == net.sink
    ensures RoutesFound(net, order, used) == [arcs] + RoutesFound(net, order, used + Arcs(arcs))
    ensures Unused(net, used + Arcs(arcs)) < Unused(net, used)
  {
    assert arcs[0] in Unused(net, used) && arcs[0] in Arcs(arcs);
  }

  lemma NoneFound(net: Network, order: seq<nat>, used: set<nat>, arcs: seq<nat>)
    requires net.Valid() && Lists(net, order) && net.source != net.sink
    requires arcs == Walk(net, order, used, net.source) && EndOf(net, arcs, net.source) != net.sink
    ensures RoutesFound(net, order, used) == []
  {
  }

  lemma RouteOfWalk(net: Network, order: seq<nat>, used: set<nat>)
    requires net.Valid() && Lists(net, order) && net.source != net.sink
    ensures var arcs := Walk(net, order, used, net.source);
            EndOf(net, arcs, net.source) == net.sink ==>
              IsRoute(net, arcs, Nodes(net, arcs, net.source)) && Distinct(arcs) && Arcs(arcs) !! used
  {
    WalkFacts(net, order, used, net.source);
  }
}
