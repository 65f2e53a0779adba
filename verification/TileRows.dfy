/** One row of the 2048 board as a value: dropping the zeros, merging leftmost equal pairs once,
    and the quantities a merge conserves. Rows have any length and any integer entries; a zero
    is an empty cell. */
module TileRows {
  import opened PowersOfTwo
  import opened Tiles

  /** `row[row != 0]` */
  function NonZero(s: seq<int>): (r: seq<int>)
    ensures |r| <= |s|
  {
    if s == [] then []
    else NonZero(s[..|s| - 1]) + (if s[|s| - 1] == 0 then [] else [s[|s| - 1]])
  }

  /** Merge leftmost equal pairs; a merged tile is not looked at again. */
  function Merge(s: seq<int>): (r: seq<int>)
    ensures |r| <= |s|
  {
    if |s| < 2 then s
    else if s[0] == s[1] then [2 * s[0]] + Merge(s[2..])
    else [s[0]] + Merge(s[1..])
  }

  /** The score those merges add. */
  function Gain(s: seq<int>): int {
    if |s| < 2 then 0
    else if s[0] == s[1] then 2 * s[0] + Gain(s[2..])
    else Gain(s[1..])
  }

  function Zeros(n: nat): (z: seq<int>)
    ensures |z| == n && forall i :: 0 <= i < n ==> z[i] == 0
  {
    seq(n, _ => 0)
  }

  /** Pad on the right with zeros: `np.append(row, [0] * (n - len(row)))`. */
  function Pad(s: seq<int>, n: nat): (r: seq<int>)
    requires |s| <= n
    ensures |r| == n && r[..|s|] == s
  {
    s + Zeros(n - |s|)
  }

  /** A whole left move of one row. */
  function Slide(s: seq<int>): (r: seq<int>)
    ensures |r| == |s|
  {
    Pad(Merge(NonZero(s)), |s|)
  }

  function Reverse<T>(s: seq<T>): (r: seq<T>)
    ensures |r| == |s|
    ensures forall i :: 0 <= i < |s| ==> r[i] == s[|s| - 1 - i]
  {
    seq(|s|, i requires 0 <= i < |s| => s[|s| - 1 - i])
  }

  lemma ReverseTwice<T>(s: seq<T>)
    ensures Reverse(Reverse(s)) == s
  {
  }

  // ----- NonZero -----

  lemma NonZeroSnoc(s: seq<int>, v: int)
    ensures NonZero(s + [v]) == if v == 0 then NonZero(s) else NonZero(s) + [v]
  {
    assert (s + [v])[..|s|] == s;
  }

  lemma {:induction false} NonZeroHasNoZero(s: seq<int>)
    ensures forall i :: 0 <= i < |NonZero(s)| ==> NonZero(s)[i] != 0
  {
    if s != [] {
      NonZeroHasNoZero(s[..|s| - 1]);
    }
  }

  lemma {:induction false} NonZeroFull(s: seq<int>)
    requires forall i :: 0 <= i < |s| ==> s[i] != 0
    ensures NonZero(s) == s
  {
    if s != [] {
      NonZeroFull(s[..|s| - 1]);
    }
  }

  lemma {:induction false} NonZeroShorter(s: seq<int>)
    requires 0 in s
    ensures |NonZero(s)| < |s|
  {
    if s[|s| - 1] != 0 {
      NonZeroShorter(s[..|s| - 1]);
    }
  }

  lemma {:induction false} NonZeroPadded(s: seq<int>, n: nat)
    ensures NonZero(s + Zeros(n)) == NonZero(s)
  {
    if n == 0 {
      assert s + Zeros(0) == s;
    } else {
      NonZeroPadded(s, n - 1);
      assert s + Zeros(n) == (s + Zeros(n - 1)) + [0];
      NonZeroSnoc(s + Zeros(n - 1), 0);
    }
  }

  // ----- sums of a per-tile quantity -----

  /** The sum of w over a row. */
  function Total(w: int -> int, s: seq<int>): int {
    if s == [] then 0 else w(s[0]) + Total(w, s[1..])
  }

  function Face(v: int): int { v }

  function Occupied(v: int): int { if v == 0 then 0 else 1 }

  lemma {:induction false} TotalConcat(w: int -> int, a: seq<int>, b: seq<int>)
    ensures Total(w, a + b) == Total(w, a) + Total(w, b)
  {
    if a == [] {
      assert a + b == b;
    } else {
      TotalConcat(w, a[1..], b);
      assert (a + b)[1..] == a[1..] + b;
    }
  }

  lemma {:induction false} TotalUpdate(w: int -> int, s: seq<int>, i: nat, v: int)
    requires i < |s|
    ensures Total(w, s[i := v]) == Total(w, s) - w(s[i]) + w(v)
  {
    var a, b := s[..i], s[i + 1..];
    assert s == a + ([s[i]] + b) && s[i := v] == a + ([v] + b);
    TotalConcat(w, a, [s[i]] + b);
    TotalConcat(w, a, [v] + b);
    assert ([s[i]] + b)[1..] == b && ([v] + b)[1..] == b;
  }

  lemma {:induction false} TotalReverse(w: int -> int, s: seq<int>)
    ensures Total(w, Reverse(s)) == Total(w, s)
  {
    if s == [] {
      assert Reverse(s) == s;
    } else {
      TotalReverse(w, s[1..]);
      assert Reverse(s) == Reverse(s[1..]) + [s[0]];
      TotalConcat(w, Reverse(s[1..]), [s[0]]);
      assert [s[0]][1..] == [];
    }
  }

  lemma {:induction false} TotalZeros(w: int -> int, n: nat)
    requires w(0) == 0
    ensures Total(w, Zeros(n)) == 0
  {
    if n > 0 {
      TotalZeros(w, n - 1);
      assert Zeros(n)[1..] == Zeros(n - 1);
    }
  }

  lemma TotalPad(w: int -> int, m: seq<int>, n: nat)
    requires w(0) == 0 && |m| <= n
    ensures Total(w, Pad(m, n)) == Total(w, m)
  {
    TotalConcat(w, m, Zeros(n - |m|));
    TotalZeros(w, n - |m|);
  }

  lemma {:induction false} TotalNonZero(w: int -> int, s: seq<int>)
    requires w(0) == 0
    ensures Total(w, NonZero(s)) == Total(w, s)
  {
    if s != [] {
      var front, v := s[..|s| - 1], s[|s| - 1];
      TotalNonZero(w, front);
      assert s == front + [v];
      TotalSnoc(w, front, v);
      TotalSnoc(w, NonZero(front), v);
      assert NonZero(front) + [] == NonZero(front);
    }
  }

  lemma TotalSnoc(w: int -> int, s: seq<int>, v: int)
    ensures Total(w, s + [v]) == Total(w, s) + w(v)
  {
    TotalConcat(w, s, [v]);
    assert [v][1..] == [];
  }

  /** A merge conserves the sum of the faces, whatever the entries. */
  lemma {:induction false} MergeConservesSum(s: seq<int>)
    ensures Total(Face, Merge(s)) == Total(Face, s)
  {
    if |s| < 2 {
    } else if s[0] == s[1] {
      MergeConservesSum(s[2..]);
      assert s[1..][1..] == s[2..];
    } else {
      MergeConservesSum(s[1..]);
    }
  }

  lemma {:induction false} SlideConservesSum(s: seq<int>)
    ensures Total(Face, Slide(s)) == Total(Face, s)
  {
    TotalPad(Face, Merge(NonZero(s)), |s|);
    MergeConservesSum(NonZero(s));
    TotalNonZero(Face, s);
  }

  // ----- rows of legal tiles -----

  predicate LegalRow(s: seq<int>) {
    forall i :: 0 <= i < |s| ==> LegalTile(s[i])
  }

  lemma {:induction false} NonZeroLegal(s: seq<int>)
    requires LegalRow(s)
    ensures LegalRow(NonZero(s))
  {
    if s != [] {
      NonZeroLegal(s[..|s| - 1]);
    }
  }

  /** On legal tiles a merge keeps legality, and the score it adds is the worth it creates. */
  lemma {:induction false} MergeLegal(s: seq<int>)
    requires LegalRow(s)
    requires forall i :: 0 <= i < |s| ==> s[i] != 0
    ensures LegalRow(Merge(s))
    ensures Total(Worth, Merge(s)) == Total(Worth, s) + Gain(s)
    ensures Gain(s) >= 0
  {
    if |s| < 2 {
    } else if s[0] == s[1] {
      MergeLegal(s[2..]);
      assert s[1..][1..] == s[2..];
      DoubledTile(s[0]);
    } else {
      MergeLegal(s[1..]);
    }
  }

  lemma {:induction false} SlideLegal(s: seq<int>)
    requires LegalRow(s)
    ensures LegalRow(Slide(s))
    ensures Total(Worth, Slide(s)) == Total(Worth, s) + Gain(NonZero(s))
    ensures Gain(NonZero(s)) >= 0
  {
    NonZeroLegal(s);
    NonZeroHasNoZero(s);
    MergeLegal(NonZero(s));
    TotalNonZero(Worth, s);
    PadLegal(Merge(NonZero(s)), |s|);
  }

  lemma PadLegal(m: seq<int>, n: nat)
    requires LegalRow(m) && |m| <= n
    ensures LegalRow(Pad(m, n)) && Total(Worth, Pad(m, n)) == Total(Worth, m)
  {
    TotalPad(Worth, m, n);
    forall i | 0 <= i < n ensures LegalTile(Pad(m, n)[i]) {
      if i < |m| {
        assert Pad(m, n)[i] == m[i];
      }
    }
  }

  /** A sum of m powers of two has at most m one-bits. */
  lemma {:induction false} BitsBoundedByTiles(s: seq<int>)
    requires LegalRow(s)
    ensures Total(Face, s) >= 0
    ensures BitCount(Total(Face, s)) <= Total(Occupied, s)
  {
    if s != [] {
      BitsBoundedByTiles(s[1..]);
      assert LegalTile(s[0]);
      BitCountSubadditive(s[0], Total(Face, s[1..]));
      if s[0] != 0 {
        BitCountPow2(s[0]);
      }
    }
  }

  lemma {:induction false} TileBelowTotal(s: seq<int>, i: nat)
    requires LegalRow(s) && i < |s|
    ensures 0 <= s[i] <= Total(Face, s)
  {
    assert LegalTile(s[0]) && LegalTile(s[i]);
    if i > 0 {
      TileBelowTotal(s[1..], i - 1);
    } else {
      BitsBoundedByTiles(s[1..]);
    }
  }

  /** Tiles up to 2^17 are worth at most 16 times their face. */
  lemma {:induction false} WorthBound(s: seq<int>)
    requires LegalRow(s)
    requires forall i :: 0 <= i < |s| ==> s[i] <= Pow2(17)
    ensures 0 <= Total(Worth, s) <= 16 * Total(Face, s)
  {
    if s != [] {
      WorthBound(s[1..]);
      TileWorthBound(s[0]);
    }
  }

  lemma {:induction false} OccupiedBound(s: seq<int>)
    ensures 0 <= Total(Occupied, s) <= |s|
    ensures 0 in s ==> Total(Occupied, s) < |s|
    ensures Total(Occupied, s) == 0 <==> forall i :: 0 <= i < |s| ==> s[i] == 0
  {
    if s != [] {
      OccupiedBound(s[1..]);
      assert forall i :: 1 <= i < |s| ==> s[i] == s[1..][i - 1];
    }
  }

  // ----- which tiles meet in a merge -----

  /** One tile that stays alone, or two equal neighbours that merge. */
  datatype Group = Single(tile: int) | Pair(tile: int) {
    ghost function Tiles(): seq<int> {
      if Single? then [tile] else [tile, tile]
    }

    ghost function Outcome(): int {
      if Single? then tile else tile + tile
    }
  }

  ghost function TilesOf(groups: seq<Group>): seq<int> {
    if groups == [] then [] else groups[0].Tiles() + TilesOf(groups[1..])
  }

  ghost function Outcomes(groups: seq<Group>): seq<int> {
    if groups == [] then [] else [groups[0].Outcome()] + Outcomes(groups[1..])
  }

  ghost function PairPoints(groups: seq<Group>): int {
    if groups == [] then 0
    else (if groups[0].Pair? then groups[0].Outcome() else 0) + PairPoints(groups[1..])
  }

  /** `groups` splits s, in order, into tiles that stay alone and pairs that merge, and a tile stays
      alone only when it differs from the next tile: pairs are taken leftmost first. */
  ghost predicate IsLeftmostPairing(groups: seq<Group>, s: seq<int>) {
    && TilesOf(groups) == s
    && forall i :: 0 < i < |groups| && groups[i - 1].Single? ==> groups[i - 1].tile != groups[i].tile
  }

  lemma TilesOfFirst(groups: seq<Group>)
    requires groups != []
    ensures TilesOf(groups) != [] && TilesOf(groups)[0] == groups[0].tile
  {
  }

  /** No tile takes part in two merges: every row has a leftmost pairing. */
  lemma {:induction false} LeftmostPairingExists(s: seq<int>) returns (groups: seq<Group>)
    ensures IsLeftmostPairing(groups, s)
  {
    if s == [] {
      groups := [];
    } else {
      var g := if |s| >= 2 && s[0] == s[1] then Pair(s[0]) else Single(s[0]);
      var k := |g.Tiles()|;
      var rest := LeftmostPairingExists(s[k..]);
      groups := [g] + rest;
      assert groups[1..] == rest;
      assert s == g.Tiles() + s[k..];
      if rest != [] {
        TilesOfFirst(rest);
      }
    }
  }

  /** A leftmost pairing determines the merged row and its score: each pair contributes one doubled
      tile and that many points, each other tile is copied. */
  lemma {:induction false} MergeByLeftmostPairing(groups: seq<Group>, s: seq<int>)
    requires IsLeftmostPairing(groups, s)
    ensures Merge(s) == Outcomes(groups) && Gain(s) == PairPoints(groups)
    decreases |groups|
  {
    if groups != [] {
      var g, rest := groups[0], groups[1..];
      var k := |g.Tiles()|;
      assert s[k..] == TilesOf(rest);
      MergeByLeftmostPairing(rest, s[k..]);
      if g.Single? && |s| >= 2 {
        TilesOfFirst(rest);
        assert s[1] == s[k..][0] == groups[1].tile;
        assert groups[1 - 1].Single?;
      }
    }
  }

  /** The positions `at` list the tiles of s from left to right, and t has their values. */
  ghost predicate TilesAt(s: seq<int>, t: seq<int>, at: seq<nat>) {
    && |at| == |t|
    && (forall i :: 0 <= i < |at| ==> at[i] < |s| && t[i] == s[at[i]] != 0)
    && (forall i, j :: 0 <= i < j < |at| ==> at[i] < at[j])
    && forall k :: 0 <= k < |s| && s[k] != 0 ==> k in at
  }

  /** Dropping the zeros keeps the tiles, all of them and in their order. */
  lemma {:induction false} NonZeroKeepsOrder(s: seq<int>) returns (at: seq<nat>)
    ensures TilesAt(s, NonZero(s), at)
  {
    if s == [] {
      at := [];
    } else {
      var n := |s| - 1;
      at := NonZeroKeepsOrder(s[..n]);
      assert s == s[..n] + [s[n]];
      at := TilesAtSnoc(s[..n], s[n], NonZero(s[..n]), at);
    }
  }

  lemma TilesAtSnoc(s: seq<int>, v: int, t: seq<int>, at: seq<nat>) returns (more: seq<nat>)
    requires TilesAt(s, t, at)
    ensures TilesAt(s + [v], if v == 0 then t else t + [v], more)
  {
    more := if v == 0 then at else at + [|s|];
    forall k | 0 <= k < |s| + 1 && (s + [v])[k] != 0 ensures k in more {
      if k < |s| {
        assert k in at;
      } else {
        assert more[|at|] == k;
      }
    }
  }

  /** A left move of one row: its tiles, from left to right, are split into single tiles and leftmost equal
      pairs; each of these gives one of the first cells, the pairs give the points, and the other cells
      are empty. */
  lemma SlideByPairing(s: seq<int>) returns (tiles: seq<int>, at: seq<nat>, groups: seq<Group>)
    ensures TilesAt(s, tiles, at) && IsLeftmostPairing(groups, tiles)
    ensures |Outcomes(groups)| <= |s| && Slide(s) == Outcomes(groups) + Zeros(|s| - |Outcomes(groups)|)
    ensures Gain(NonZero(s)) == PairPoints(groups)
  {
    tiles := NonZero(s);
    at := NonZeroKeepsOrder(s);
    groups := LeftmostPairingExists(tiles);
    MergeByLeftmostPairing(groups, tiles);
  }

  // ----- rows a left move does not change -----

  /** Zeros only at the end, and no two equal tiles side by side. */
  predicate Stuck(s: seq<int>) {
    && (forall i :: 0 <= i < |s| - 1 && s[i] == 0 ==> s[i + 1] == 0)
    && (forall i :: 0 <= i < |s| - 1 && s[i] == s[i + 1] ==> s[i] == 0)
  }

  /** A merge that keeps the length changes nothing; one that shortens met an equal pair. */
  lemma {:induction false} MergeLength(s: seq<int>)
    ensures |Merge(s)| == |s| <==> (forall i :: 0 <= i < |s| - 1 ==> s[i] != s[i + 1])
    ensures |Merge(s)| == |s| ==> Merge(s) == s && Gain(s) == 0
  {
    if |s| < 2 {
    } else if s[0] == s[1] {
    } else {
      MergeLength(s[1..]);
      assert forall i :: 1 <= i < |s| - 1 ==> s[i] == s[1..][i - 1] && s[i + 1] == s[1..][i];
    }
  }

  lemma {:induction false} ZerosOnlyLast(s: seq<int>, k: nat)
    requires k < |s| && s[k] == 0
    requires forall i :: 0 <= i < |s| - 1 && s[i] == 0 ==> s[i + 1] == 0
    ensures s[|s| - 1] == 0
    decreases |s| - k
  {
    if k + 1 < |s| {
      ZerosOnlyLast(s, k + 1);
    }
  }

  lemma {:induction false} NonZeroStuckPrefix(s: seq<int>)
    requires forall i :: 0 <= i < |s| - 1 && s[i] == 0 ==> s[i + 1] == 0
    ensures NonZero(s) == s[..|NonZero(s)|]
    ensures forall i :: |NonZero(s)| <= i < |s| ==> s[i] == 0
  {
    if s != [] {
      var front := s[..|s| - 1];
      if s[|s| - 1] == 0 {
        NonZeroStuckPrefix(front);
      } else {
        forall i | 0 <= i < |front| ensures s[i] != 0 {
          if s[i] == 0 {
            ZerosOnlyLast(s, i);
          }
        }
        NonZeroFull(s);
      }
    }
  }

  lemma StuckIsFixed(s: seq<int>)
    requires Stuck(s)
    ensures Slide(s) == s
  {
    var t := NonZero(s);
    NonZeroStuckPrefix(s);
    NonZeroHasNoZero(s);
    assert forall i :: 0 <= i < |t| ==> t[i] == s[i];
    MergeLength(t);
  }

  lemma FixedIsStuck(s: seq<int>)
    requires Slide(s) == s
    ensures Stuck(s) && Gain(NonZero(s)) == 0
  {
    var t := NonZero(s);
    TilesKept(s, Merge(t));
    NonZeroHasNoZero(s);
    MergeLength(t);
    assert forall i :: 0 <= i < |t| ==> s[i] == t[i];
    assert forall i :: |t| <= i < |s| ==> s[i] == 0;
  }

  /** Exactly the stuck rows are fixed by a left move, and a fixed row scores nothing. */
  lemma SlideFixed(s: seq<int>)
    ensures Slide(s) == s <==> Stuck(s)
    ensures Slide(s) == s ==> Gain(NonZero(s)) == 0
  {
    if Stuck(s) {
      StuckIsFixed(s);
    }
    if Slide(s) == s {
      FixedIsStuck(s);
    }
  }

  /** If a left move fixes s, the merge did not shorten its tiles. */
  lemma TilesKept(s: seq<int>, m: seq<int>)
    requires m == Merge(NonZero(s)) && Slide(s) == s
    ensures |m| == |NonZero(s)|
  {
    NonZeroPadded(m, |s| - |m|);
  }

  /** A left move that changes a row leaves an empty cell in it. */
  lemma SlideLeavesRoom(s: seq<int>)
    requires Slide(s) != s
    ensures 0 in Slide(s)
  {
    var m := Merge(NonZero(s));
    MergeLength(NonZero(s));
    if |m| == |s| {
      if 0 in s {
        NonZeroShorter(s);
      } else {
        NonZeroFull(s);
      }
    } else {
      assert Slide(s)[|s| - 1] == 0;
    }
  }
}
