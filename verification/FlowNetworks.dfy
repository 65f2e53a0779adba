/** A directed multigraph with a 0/1 flow: net outflow of nodes and of sets of nodes, walks, and the
    balance that walks keep. */
module FlowNetworks {
  /** A directed multigraph with the solver's flow on each arc. */
  datatype Network = Network(tail: seq<nat>, head: seq<nat>, flow: seq<int>, source: nat, sink: nat) {
    predicate Valid() {
      |tail| == |head| == |flow| && forall a :: 0 <= a < |flow| ==> 0 <= flow[a] <= 1
    }

    predicate IsArc(a: int) {
      0 <= a < |flow|
    }
  }

  function Indicator(b: bool): int {
    if b then 1 else 0
  }

  /** Net outflow of node v under the weights w, over the first n arcs. */
  ghost function OutflowUpTo(net: Network, w: seq<int>, v: nat, n: nat): int
    requires net.Valid() && n <= |w| == |net.flow|
  {
    if n == 0 then 0
    else OutflowUpTo(net, w, v, n - 1)
         + w[n - 1] * (Indicator(net.tail[n - 1] == v) - Indicator(net.head[n - 1] == v))
  }

  ghost function Outflow(net: Network, w: seq<int>, v: nat): int
    requires net.Valid() && |w| == |net.flow|
  {
    OutflowUpTo(net, w, v, |w|)
  }

  /** The weights are a unit-capacity flow: 0 or 1 on each arc, conserved at every node but the source
      and the sink. */
  ghost predicate IsFlow(net: Network, w: seq<int>)
    requires net.Valid()
  {
    && |w| == |net.flow|
    && (forall a :: 0 <= a < |w| ==> 0 <= w[a] <= 1)
    && forall v: nat :: v != net.source && v != net.sink ==> Outflow(net, w, v) == 0
  }

  ghost predicate Conserved(net: Network)
    requires net.Valid()
  {
    IsFlow(net, net.flow)
  }

  /** The solver's answer is optimal: no other flow has a larger value. */
  ghost predicate Optimal(net: Network)
    requires net.Valid()
  {
    forall w: seq<int> :: IsFlow(net, w) ==> Outflow(net, w, net.source) <= Value(net)
  }

  /** The flow value: the net outflow of the source. */
  ghost function Value(net: Network): int
    requires net.Valid()
  {
    Outflow(net, net.flow, net.source)
  }

  predicate NoneEnters(net: Network, v: nat)
    requires net.Valid()
  {
    forall a :: 0 <= a < |net.flow| && net.flow[a] > 0 ==> net.head[a] != v
  }

  predicate NoneLeaves(net: Network, v: nat)
    requires net.Valid()
  {
    forall a :: 0 <= a < |net.flow| && net.flow[a] > 0 ==> net.tail[a] != v
  }

  /** The flow that is left once some arcs are used. */
  function Left(net: Network, used: set<nat>): (w: seq<int>)
    ensures |w| == |net.flow|
    ensures forall a :: 0 <= a < |w| ==> w[a] == if a in used then 0 else net.flow[a]
  {
    seq(|net.flow|, a requires 0 <= a < |net.flow| => if a in used then 0 else net.flow[a])
  }

  /** An arc `find_path` may take next from node v. */
  predicate Usable(net: Network, used: set<nat>, v: nat, a: nat)
    requires net.Valid() && net.IsArc(a)
  {
    a !in used && net.tail[a] == v && net.flow[a] > 0
  }

  /** After k routes the flow left over is conserved, with k units less to send. */
  ghost predicate Balanced(net: Network, used: set<nat>, k: nat)
    requires net.Valid()
  {
    && (forall v: nat :: v != net.source && v != net.sink ==> Outflow(net, Left(net, used), v) == 0)
    && Outflow(net, Left(net, used), net.source) == Value(net) - k
    && Outflow(net, Left(net, used), net.sink) == k - Value(net)
  }

  // ----- net outflow -----

  lemma {:induction false} OutflowUpdate(net: Network, w: seq<int>, v: nat, a: nat, x: int, n: nat)
    requires net.Valid() && n <= |w| == |net.flow| && a < |w|
    ensures OutflowUpTo(net, w[a := x], v, n)
            == OutflowUpTo(net, w, v, n)
               + if a < n then (x - w[a]) * (Indicator(net.tail[a] == v) - Indicator(net.head[a] == v)) else 0
  {
    if n > 0 {
      OutflowUpdate(net, w, v, a, x, n - 1);
      if a == n - 1 {
        Distribute(x, w[a], Indicator(net.tail[a] == v) - Indicator(net.head[a] == v));
      }
    }
  }

  lemma Distribute(x: int, y: int, d: int)
    ensures x * d == y * d + (x - y) * d
  {
  }

  /** Using an arc moves one unit of net outflow from its tail to its head. */
  lemma UseArc(net: Network, used: set<nat>, a: nat, v: nat)
    requires net.Valid() && net.IsArc(a) && a !in used && net.flow[a] > 0
    ensures Outflow(net, Left(net, used + {a}), v)
            == Outflow(net, Left(net, used), v) - Indicator(net.tail[a] == v) + Indicator(net.head[a] == v)
  {
    assert Left(net, used + {a}) == Left(net, used)[a := 0];
    OutflowUpdate(net, Left(net, used), v, a, 0, |net.flow|);
  }

  /** A node with no arc left to leave by has no positive net outflow. */
  lemma {:induction false} StuckOutflow(net: Network, w: seq<int>, v: nat, n: nat)
    requires net.Valid() && n <= |w| == |net.flow|
    requires forall a :: 0 <= a < n ==> w[a] >= 0
    requires forall a :: 0 <= a < n && net.tail[a] == v ==> w[a] == 0
    ensures OutflowUpTo(net, w, v, n) <= 0
  {
    if n > 0 {
      StuckOutflow(net, w, v, n - 1);
    }
  }

  // ----- net outflow of a set of nodes -----

  ghost function CutUpTo(net: Network, w: seq<int>, side: set<nat>, n: nat): int
    requires net.Valid() && n <= |w| == |net.flow|
  {
    if n == 0 then 0
    else CutUpTo(net, w, side, n - 1)
         + w[n - 1] * (Indicator(net.tail[n - 1] in side) - Indicator(net.head[n - 1] in side))
  }

  lemma {:induction false} CutStep(net: Network, w: seq<int>, side: set<nat>, v: nat, n: nat)
    requires net.Valid() && n <= |w| == |net.flow| && v !in side
    ensures CutUpTo(net, w, side + {v}, n) == CutUpTo(net, w, side, n) + OutflowUpTo(net, w, v, n)
  {
    if n > 0 {
      CutStep(net, w, side, v, n - 1);
      var t, h := net.tail[n - 1], net.head[n - 1];
      SplitFactor(w[n - 1], Indicator(t in side) - Indicator(h in side), Indicator(t == v) - Indicator(h == v),
                  Indicator(t in side + {v}) - Indicator(h in side + {v}));
    }
  }

  lemma SplitFactor(x: int, d: int, e: int, f: int)
    requires f == d + e
    ensures x * f == x * d + x * e
  {
  }

  lemma {:induction false} CutTrivial(net: Network, w: seq<int>, side: set<nat>, n: nat)
    requires net.Valid() && n <= |w| == |net.flow|
    requires forall a :: 0 <= a < n ==> (net.tail[a] in side <==> net.head[a] in side)
    ensures CutUpTo(net, w, side, n) == 0
  {
    if n > 0 {
      CutTrivial(net, w, side, n - 1);
    }
  }

  /** No arc with weight leaves the set. */
  lemma {:induction false} CutClosed(net: Network, w: seq<int>, side: set<nat>, n: nat)
    requires net.Valid() && n <= |w| == |net.flow|
    requires forall a :: 0 <= a < n ==> 0 <= w[a] <= 1
    requires forall a :: 0 <= a < n && w[a] > 0 && net.tail[a] in side ==> net.head[a] in side
    ensures CutUpTo(net, w, side, n) <= 0
  {
    if n > 0 {
      CutClosed(net, w, side, n - 1);
    }
  }

  /** Only source and sink contribute to the net outflow of a set of nodes. */
  lemma {:induction false} CutOfConserved(net: Network, w: seq<int>, side: set<nat>)
    requires net.Valid() && |w| == |net.flow| && net.source != net.sink
    requires forall v: nat :: v != net.source && v != net.sink ==> Outflow(net, w, v) == 0
    ensures CutUpTo(net, w, side, |w|)
            == (if net.source in side then Outflow(net, w, net.source) else 0)
               + (if net.sink in side then Outflow(net, w, net.sink) else 0)
    decreases |side|
  {
    if side == {} {
      CutTrivial(net, w, side, |w|);
    } else {
      var v :| v in side;
      var rest := side - {v};
      CutOfConserved(net, w, rest);
      CutStep(net, w, rest, v, |w|);
      assert rest + {v} == side;
      assert Outflow(net, w, v) == OutflowUpTo(net, w, v, |w|);
    }
  }

  /** The numbers in a list. */
  ghost function Arcs(s: seq<nat>): set<nat> {
    set i | 0 <= i < |s| :: s[i]
  }

  ghost function AllNodes(net: Network): set<nat> {
    Arcs(net.tail) + Arcs(net.head) + {net.source, net.sink}
  }

  /** What leaves the source arrives at the sink. */
  lemma SinkReceivesValue(net: Network)
    requires net.Valid() && Conserved(net) && net.source != net.sink
    ensures Outflow(net, net.flow, net.sink) == -Value(net)
  {
    var all := AllNodes(net);
    CutOfConserved(net, net.flow, all);
    CutTrivial(net, net.flow, all, |net.flow|);
  }

  lemma BalancedAtFirst(net: Network)
    requires net.Valid() && Conserved(net) && net.source != net.sink
    ensures Balanced(net, {}, 0)
  {
    assert Left(net, {}) == net.flow;
    SinkReceivesValue(net);
  }

  // ----- walks -----

  /** The arcs lead along the nodes of the path, one arc between each two of them. */
  ghost predicate LeadsAlong(net: Network, arcs: seq<nat>, path: seq<nat>)
    requires net.Valid()
  {
    && |path| == |arcs| + 1
    && (forall i :: 0 <= i < |arcs| ==> net.IsArc(arcs[i]))
    && forall i :: 0 <= i < |arcs| ==> net.tail[arcs[i]] == path[i] && net.head[arcs[i]] == path[i + 1]
  }

  ghost predicate Distinct(arcs: seq<nat>) {
    forall i, j :: 0 <= i < j < |arcs| ==> arcs[i] != arcs[j]
  }

  lemma AppendArc(arcs: seq<nat>, a: nat)
    ensures Arcs(arcs + [a]) == Arcs(arcs) + {a}
  {
    var s := arcs + [a];
    forall x | x in Arcs(arcs) + {a} ensures x in Arcs(s) {
      if x == a {
        assert s[|arcs|] == a;
      } else {
        var i :| 0 <= i < |arcs| && arcs[i] == x;
        assert s[i] == x;
      }
    }
  }

  /** A walk over flow-carrying arcs, with its nodes. */
  ghost predicate FlowWalk(net: Network, arcs: seq<nat>, path: seq<nat>)
    requires net.Valid()
  {
    && LeadsAlong(net, arcs, path)
    && forall i :: 0 <= i < |arcs| ==> net.flow[arcs[i]] > 0
  }

  /** A flow-carrying walk leads from u to v. */
  ghost predicate Leads(net: Network, u: nat, v: nat)
    requires net.Valid()
  {
    exists arcs, path :: FlowWalk(net, arcs, path) && path[0] == u && path[|arcs|] == v
  }

  lemma LeadsOn(net: Network, u: nat, a: nat)
    requires net.Valid() && net.IsArc(a) && net.flow[a] > 0 && Leads(net, u, net.tail[a])
    ensures Leads(net, u, net.head[a])
  {
    var arcs, path :| FlowWalk(net, arcs, path) && path[0] == u && path[|arcs|] == net.tail[a];
    assert FlowWalk(net, arcs + [a], path + [net.head[a]]);
  }

  /** A flow-carrying walk leads back from the sink to the source. */
  ghost predicate Returns(net: Network)
    requires net.Valid()
  {
    Leads(net, net.sink, net.source)
  }

  /** The balance that every walk from `start` to `at` keeps: it moves one unit of net outflow. */
  ghost predicate Shifted(net: Network, before: set<nat>, after: set<nat>, start: nat, at: nat)
    requires net.Valid()
  {
    forall v: nat :: Outflow(net, Left(net, after), v)
                     == Outflow(net, Left(net, before), v) - Indicator(v == start) + Indicator(v == at)
  }

  lemma ShiftByArc(net: Network, before: set<nat>, used: set<nat>, start: nat, at: nat, a: nat)
    requires net.Valid() && Shifted(net, before, used, start, at)
    requires net.IsArc(a) && Usable(net, used, at, a)
    ensures Shifted(net, before, used + {a}, start, net.head[a])
  {
    forall v: nat
      ensures Outflow(net, Left(net, used + {a}), v)
              == Outflow(net, Left(net, before), v) - Indicator(v == start) + Indicator(v == net.head[a])
    {
      UseArc(net, used, a, v);
    }
  }
}
