/** Histories of a direct-mapped cache as sequences of (line index, tag) pairs: which accesses are hits
    and evictions, and the laws of the three counters. */
module CacheHistory {
  import opened Options

  datatype Slot = Slot(index: nat, tag: nat)

  /** The tag of the most recent access to this line. */
  function LastTag(h: seq<Slot>, index: nat): Option<nat> {
    if h == [] then None
    else if h[|h| - 1].index == index then Some(h[|h| - 1].tag)
    else LastTag(h[..|h| - 1], index)
  }

  predicate IsHit(h: seq<Slot>, s: Slot) {
    LastTag(h, s.index) == Some(s.tag)
  }

  predicate IsEviction(h: seq<Slot>, s: Slot) {
    LastTag(h, s.index).Some? && LastTag(h, s.index) != Some(s.tag)
  }

  function Hits(h: seq<Slot>): nat {
    if h == [] then 0
    else Hits(h[..|h| - 1]) + (if IsHit(h[..|h| - 1], h[|h| - 1]) then 1 else 0)
  }

  function Evictions(h: seq<Slot>): nat {
    if h == [] then 0
    else Evictions(h[..|h| - 1]) + (if IsEviction(h[..|h| - 1], h[|h| - 1]) then 1 else 0)
  }

  lemma Append(h: seq<Slot>, s: Slot, index: nat)
    ensures LastTag(h + [s], index) == if s.index == index then Some(s.tag) else LastTag(h, index)
    ensures Hits(h + [s]) == Hits(h) + (if IsHit(h, s) then 1 else 0)
    ensures Evictions(h + [s]) == Evictions(h) + (if IsEviction(h, s) then 1 else 0)
  {
    assert (h + [s])[..|h|] == h;
  }

  /** The access at position k is the last one that mapped to this line. */
  ghost predicate MostRecent(h: seq<Slot>, index: nat, k: nat) {
    && k < |h| && h[k].index == index
    && forall j :: k < j < |h| ==> h[j].index != index
  }

  lemma {:induction false} LastTagMeaning(h: seq<Slot>, index: nat, tag: nat)
    ensures LastTag(h, index) == Some(tag) <==> exists k: nat :: MostRecent(h, index, k) && h[k].tag == tag
    ensures LastTag(h, index) == None <==> forall k :: 0 <= k < |h| ==> h[k].index != index
  {
    if h != [] {
      var n := |h| - 1;
      var front := h[..n];
      LastTagMeaning(front, index, tag);
      if h[n].index == index {
        assert MostRecent(h, index, n);
        assert forall k: nat :: MostRecent(h, index, k) ==> k == n;
      } else {
        assert forall k: nat :: MostRecent(h, index, k) <==> MostRecent(front, index, k);
      }
    }
  }

  /** An access is a hit iff the most recent earlier access to its line had its tag, and an eviction
      iff that access exists and had another tag. */
  lemma HitsAndEvictions(h: seq<Slot>, s: Slot)
    ensures IsHit(h, s) <==> exists k: nat :: MostRecent(h, s.index, k) && h[k].tag == s.tag
    ensures IsEviction(h, s) <==> exists k: nat :: MostRecent(h, s.index, k) && h[k].tag != s.tag
  {
    LastTagMeaning(h, s.index, s.tag);
    if IsEviction(h, s) {
      LastTagMeaning(h, s.index, LastTag(h, s.index).value);
    }
    forall k: nat | MostRecent(h, s.index, k) ensures LastTag(h, s.index) == Some(h[k].tag) {
      LastTagMeaning(h, s.index, h[k].tag);
    }
  }

  /** The access at position i repeats the last access to its line; or it replaces another tag there. */
  ghost predicate Repeats(h: seq<Slot>, i: nat) {
    i < |h| && exists k: nat :: k < i && h[k] == h[i] && LastBefore(h, k, i)
  }

  ghost predicate Replaces(h: seq<Slot>, i: nat) {
    i < |h| && exists k: nat :: k < i && h[k].tag != h[i].tag && LastBefore(h, k, i)
  }

  /** The access at k is the last one before i to the line of i. */
  predicate LastBefore(h: seq<Slot>, k: nat, i: nat)
    requires k < i < |h|
  {
    h[k].index == h[i].index && forall j :: k < j < i ==> h[j].index != h[i].index
  }

  lemma RepeatsIsHit(h: seq<Slot>)
    requires h != []
    ensures Repeats(h, |h| - 1) <==> IsHit(h[..|h| - 1], h[|h| - 1])
    ensures Replaces(h, |h| - 1) <==> IsEviction(h[..|h| - 1], h[|h| - 1])
  {
    var n := |h| - 1;
    var front, s := h[..n], h[n];
    HitsAndEvictions(front, s);
    assert forall k: nat :: k < n ==> (MostRecent(front, s.index, k) <==> LastBefore(h, k, n));
  }

  lemma RepeatsInFront(h: seq<Slot>, i: nat)
    requires i + 1 < |h|
    ensures Repeats(h, i) <==> Repeats(h[..|h| - 1], i)
    ensures Replaces(h, i) <==> Replaces(h[..|h| - 1], i)
  {
    var front := h[..|h| - 1];
    assert forall k: nat :: k < i ==> (LastBefore(h, k, i) <==> LastBefore(front, k, i));
  }

  ghost function Repeating(h: seq<Slot>): set<nat> {
    set i: nat | i < |h| && Repeats(h, i)
  }

  ghost function Replacing(h: seq<Slot>): set<nat> {
    set i: nat | i < |h| && Replaces(h, i)
  }

  lemma RepeatingSnoc(h: seq<Slot>)
    requires h != []
    ensures var n := |h| - 1;
            && Repeating(h) == Repeating(h[..n]) + (if IsHit(h[..n], h[n]) then {n} else {})
            && Replacing(h) == Replacing(h[..n]) + (if IsEviction(h[..n], h[n]) then {n} else {})
  {
    var n := |h| - 1;
    RepeatsIsHit(h);
    forall i: nat | i < n
      ensures Repeats(h, i) <==> Repeats(h[..n], i)
      ensures Replaces(h, i) <==> Replaces(h[..n], i)
    {
      RepeatsInFront(h, i);
    }
  }

  /** The hits of a history are its repeating accesses, the evictions its replacing ones. */
  lemma {:induction false} HitsAreRepeats(h: seq<Slot>)
    ensures Hits(h) == |Repeating(h)| && Evictions(h) == |Replacing(h)|
  {
    if h != [] {
      HitsAreRepeats(h[..|h| - 1]);
      RepeatingSnoc(h);
    }
  }

  /** The lines that were ever accessed. */
  function Touched(h: seq<Slot>): set<nat> {
    set k | 0 <= k < |h| :: h[k].index
  }

  lemma TouchedIffLastTag(h: seq<Slot>, index: nat)
    ensures index in Touched(h) <==> LastTag(h, index).Some?
  {
    LastTagMeaning(h, index, 0);
  }

  lemma TouchedAppend(h: seq<Slot>, s: Slot)
    ensures Touched(h + [s]) == Touched(h) + {s.index}
  {
    var g := h + [s];
    forall i | i in Touched(h) + {s.index} ensures i in Touched(g) {
      if i == s.index {
        assert g[|h|].index == i;
      } else {
        var k :| 0 <= k < |h| && h[k].index == i;
        assert g[k].index == i;
      }
    }
  }

  /** Hits and misses make up all accesses, and each miss that evicts nothing touches a new line:
      misses minus evictions is the number of lines in use. */
  lemma {:induction false} CounterLaw(h: seq<Slot>)
    ensures |h| - Hits(h) - Evictions(h) == |Touched(h)|
    ensures Hits(h) + Evictions(h) <= |h|
  {
    if h != [] {
      var front, s := h[..|h| - 1], h[|h| - 1];
      CounterLaw(front);
      assert h == front + [s];
      TouchedAppend(front, s);
      TouchedIffLastTag(front, s.index);
    }
  }

  lemma {:induction false} Below(n: nat) returns (all: set<nat>)
    ensures |all| == n && forall i: nat :: i in all <==> i < n
  {
    if n == 0 {
      all := {};
    } else {
      var rest := Below(n - 1);
      all := rest + {n - 1};
    }
  }

  lemma {:induction false} SubsetSize(a: set<nat>, b: set<nat>)
    requires a <= b
    ensures |a| <= |b|
  {
    if a != {} {
      var x :| x in a;
      SubsetSize(a - {x}, b - {x});
    }
  }

  /** The number of lines in use never decreases and never exceeds the number of lines. */
  lemma LinesInUse(h: seq<Slot>, s: Slot, numLines: nat)
    requires forall k :: 0 <= k < |h| ==> h[k].index < numLines
    ensures |Touched(h)| <= numLines
    ensures |Touched(h)| <= |Touched(h + [s])|
  {
    var all := Below(numLines);
    SubsetSize(Touched(h), all);
    TouchedAppend(h, s);
    SubsetSize(Touched(h), Touched(h + [s]));
  }
}
