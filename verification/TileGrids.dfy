/** The 4x4 board of the 2048 game as a value: the four moves, what each move conserves, when a move
    changes the board, and the invariant of every game. */
module TileGrids {
  import opened PowersOfTwo
  import opened Tiles
  import opened TileRows

  const SIZE: nat := 4

  predicate IsGrid(g: seq<seq<int>>) {
    |g| == SIZE && forall r :: 0 <= r < SIZE ==> |g[r]| == SIZE
  }

  type Grid = g: seq<seq<int>> | IsGrid(g) witness [Zeros(4), Zeros(4), Zeros(4), Zeros(4)]

  const EMPTY_GRID: Grid := [Zeros(4), Zeros(4), Zeros(4), Zeros(4)]

  function Column(g: Grid, c: nat): (s: seq<int>)
    requires c < SIZE
    ensures |s| == SIZE && forall r :: 0 <= r < SIZE ==> s[r] == g[r][c]
  {
    [g[0][c], g[1][c], g[2][c], g[3][c]]
  }

  function Transpose(g: Grid): (t: Grid)
    ensures forall r, c :: 0 <= r < SIZE && 0 <= c < SIZE ==> t[r][c] == g[c][r]
  {
    [Column(g, 0), Column(g, 1), Column(g, 2), Column(g, 3)]
  }

  function LeftGrid(g: Grid): (m: Grid)
  {
    [Slide(g[0]), Slide(g[1]), Slide(g[2]), Slide(g[3])]
  }

  function MirrorGrid(g: Grid): (m: Grid)
  {
    [Reverse(g[0]), Reverse(g[1]), Reverse(g[2]), Reverse(g[3])]
  }

  lemma LeftRow(g: Grid, r: nat)
    requires r < SIZE
    ensures LeftGrid(g)[r] == Slide(g[r])
  {
  }

  lemma MirrorRow(g: Grid, r: nat)
    requires r < SIZE
    ensures MirrorGrid(g)[r] == Reverse(g[r])
  {
  }

  function LeftGain(g: Grid): int {
    Gain(NonZero(g[0])) + Gain(NonZero(g[1])) + Gain(NonZero(g[2])) + Gain(NonZero(g[3]))
  }

  datatype Direction = Up | Left | Down | Right

  /** How a direction turns the board so that the move becomes a left move. */
  function Orient(g: Grid, d: Direction): Grid {
    match d
    case Up => Transpose(g)
    case Left => g
    case Down => MirrorGrid(Transpose(g))
    case Right => MirrorGrid(g)
  }

  function Unorient(g: Grid, d: Direction): Grid {
    match d
    case Up => Transpose(g)
    case Left => g
    case Down => Transpose(MirrorGrid(g))
    case Right => MirrorGrid(g)
  }

  /** Every direction is the left move conjugated by a symmetry of the board. */
  function Moved(g: Grid, d: Direction): Grid {
    Unorient(LeftGrid(Orient(g, d)), d)
  }

  function MoveGain(g: Grid, d: Direction): int {
    LeftGain(Orient(g, d))
  }

  // ----- the moves by rows and columns -----

  lemma LeftByRows(g: Grid)
    ensures forall r :: 0 <= r < SIZE ==> Moved(g, Left)[r] == Slide(g[r])
    ensures MoveGain(g, Left)
            == Gain(NonZero(g[0])) + Gain(NonZero(g[1])) + Gain(NonZero(g[2])) + Gain(NonZero(g[3]))
  {
  }

  lemma RightByRows(g: Grid)
    ensures forall r :: 0 <= r < SIZE ==> Moved(g, Right)[r] == Reverse(Slide(Reverse(g[r])))
    ensures MoveGain(g, Right)
            == Gain(NonZero(Reverse(g[0]))) + Gain(NonZero(Reverse(g[1])))
               + Gain(NonZero(Reverse(g[2]))) + Gain(NonZero(Reverse(g[3])))
  {
    forall r | 0 <= r < SIZE ensures Moved(g, Right)[r] == Reverse(Slide(Reverse(g[r]))) {
      MirrorRow(g, r);
      LeftRow(MirrorGrid(g), r);
      MirrorRow(LeftGrid(MirrorGrid(g)), r);
    }
  }

  /** A column of the transposed board is a row of the board. */
  lemma ColumnOfTranspose(g: Grid, c: nat)
    requires c < SIZE
    ensures Column(Transpose(g), c) == g[c] && Transpose(g)[c] == Column(g, c)
  {
    assert forall r :: 0 <= r < SIZE ==> Column(Transpose(g), c)[r] == g[c][r];
  }

  lemma UpByColumns(g: Grid)
    ensures forall c :: 0 <= c < SIZE ==> Column(Moved(g, Up), c) == Slide(Column(g, c))
    ensures MoveGain(g, Up)
            == Gain(NonZero(Column(g, 0))) + Gain(NonZero(Column(g, 1)))
               + Gain(NonZero(Column(g, 2))) + Gain(NonZero(Column(g, 3)))
  {
    var t := Transpose(g);
    forall c | 0 <= c < SIZE ensures Column(Moved(g, Up), c) == Slide(Column(g, c)) {
      ColumnOfTranspose(g, c);
      LeftRow(t, c);
      ColumnOfTranspose(LeftGrid(t), c);
    }
  }

  lemma DownByColumns(g: Grid)
    ensures forall c :: 0 <= c < SIZE ==> Column(Moved(g, Down), c) == Reverse(Slide(Reverse(Column(g, c))))
    ensures MoveGain(g, Down)
            == Gain(NonZero(Reverse(Column(g, 0)))) + Gain(NonZero(Reverse(Column(g, 1))))
               + Gain(NonZero(Reverse(Column(g, 2)))) + Gain(NonZero(Reverse(Column(g, 3))))
  {
    var m := MirrorGrid(Transpose(g));
    forall c | 0 <= c < SIZE ensures Column(Moved(g, Down), c) == Reverse(Slide(Reverse(Column(g, c)))) {
      ColumnOfTranspose(g, c);
      MirrorRow(Transpose(g), c);
      LeftRow(m, c);
      MirrorRow(LeftGrid(m), c);
      ColumnOfTranspose(MirrorGrid(LeftGrid(m)), c);
    }
  }

  lemma OrientInverse(g: Grid, d: Direction)
    ensures Unorient(Orient(g, d), d) == g && Orient(Unorient(g, d), d) == g
  {
    TransposeTwice(g);
    MirrorTwice(g);
    MirrorTwice(Transpose(g));
    TransposeTwice(MirrorGrid(g));
  }

  lemma TransposeTwice(g: Grid)
    ensures Transpose(Transpose(g)) == g
  {
    forall r | 0 <= r < SIZE ensures Transpose(Transpose(g))[r] == g[r] {
      forall c | 0 <= c < SIZE ensures Transpose(Transpose(g))[r][c] == g[r][c] {
        assert Transpose(g)[c][r] == g[r][c];
      }
    }
  }

  lemma MirrorTwice(g: Grid)
    ensures MirrorGrid(MirrorGrid(g)) == g
  {
    forall r | 0 <= r < SIZE ensures MirrorGrid(MirrorGrid(g))[r] == g[r] {
      MirrorRow(g, r);
      MirrorRow(MirrorGrid(g), r);
      ReverseTwice(g[r]);
    }
  }

  // ----- sums over the sixteen cells -----

  function Sum(w: int -> int, g: Grid): int {
    Total(w, g[0]) + Total(w, g[1]) + Total(w, g[2]) + Total(w, g[3])
  }

  lemma TotalOfFour(w: int -> int, s: seq<int>)
    requires |s| == SIZE
    ensures Total(w, s) == w(s[0]) + w(s[1]) + w(s[2]) + w(s[3])
  {
    assert s[3..][1..] == [] && Total(w, s[3..]) == w(s[3]);
    assert s[2..][1..] == s[3..] && Total(w, s[2..]) == w(s[2]) + Total(w, s[3..]);
    assert s[1..][1..] == s[2..] && Total(w, s[1..]) == w(s[1]) + Total(w, s[2..]);
  }

  lemma SumTranspose(w: int -> int, g: Grid)
    ensures Sum(w, Transpose(g)) == Sum(w, g)
  {
    var t := Transpose(g);
    TotalOfFour(w, g[0]); TotalOfFour(w, g[1]); TotalOfFour(w, g[2]); TotalOfFour(w, g[3]);
    TotalOfFour(w, t[0]); TotalOfFour(w, t[1]); TotalOfFour(w, t[2]); TotalOfFour(w, t[3]);
  }

  lemma SumMirror(w: int -> int, g: Grid)
    ensures Sum(w, MirrorGrid(g)) == Sum(w, g)
  {
    TotalReverse(w, g[0]); TotalReverse(w, g[1]); TotalReverse(w, g[2]); TotalReverse(w, g[3]);
  }

  lemma SumOrient(w: int -> int, g: Grid, d: Direction)
    ensures Sum(w, Orient(g, d)) == Sum(w, g) && Sum(w, Unorient(g, d)) == Sum(w, g)
  {
    SumTranspose(w, g);
    SumMirror(w, g);
    SumMirror(w, Transpose(g));
    SumTranspose(w, MirrorGrid(g));
  }

  lemma SumUpdate(w: int -> int, g: Grid, r: nat, c: nat, v: int)
    requires r < SIZE && c < SIZE
    ensures Sum(w, Put(g, r, c, v)) == Sum(w, g) - w(g[r][c]) + w(v)
  {
    TotalUpdate(w, g[r], c, v);
  }

  function Put(g: Grid, r: nat, c: nat, v: int): Grid
    requires r < SIZE && c < SIZE
  {
    g[r := g[r][c := v]]
  }

  predicate LegalGrid(g: Grid) {
    forall r :: 0 <= r < SIZE ==> LegalRow(g[r])
  }

  predicate HasEmpty(g: Grid) {
    exists r, c :: 0 <= r < SIZE && 0 <= c < SIZE && g[r][c] == 0
  }

  lemma LegalOrient(g: Grid, d: Direction)
    requires LegalGrid(g)
    ensures LegalGrid(Orient(g, d)) && LegalGrid(Unorient(g, d))
  {
    assert LegalGrid(Transpose(g));
    assert LegalGrid(MirrorGrid(g));
    assert LegalGrid(MirrorGrid(Transpose(g)));
    assert LegalGrid(Transpose(MirrorGrid(g)));
  }

  /** A move in any direction conserves the sum of the tiles, whatever the entries. */
  lemma MoveConservesSum(g: Grid, d: Direction)
    ensures Sum(Face, Moved(g, d)) == Sum(Face, g)
  {
    var o := Orient(g, d);
    SumOrient(Face, g, d);
    SumOrient(Face, LeftGrid(o), d);
    SlideConservesSum(o[0]); SlideConservesSum(o[1]); SlideConservesSum(o[2]); SlideConservesSum(o[3]);
  }

  /** A move keeps every tile legal and scores exactly the worth it creates. */
  lemma MoveScoresWorth(g: Grid, d: Direction)
    requires LegalGrid(g)
    ensures LegalGrid(Moved(g, d))
    ensures Sum(Worth, Moved(g, d)) == Sum(Worth, g) + MoveGain(g, d)
    ensures MoveGain(g, d) >= 0
  {
    var o := Orient(g, d);
    LegalOrient(g, d);
    LeftScoresWorth(o);
    LegalOrient(LeftGrid(o), d);
    SumOrient(Worth, g, d);
    SumOrient(Worth, LeftGrid(o), d);
  }

  lemma LeftScoresWorth(g: Grid)
    requires LegalGrid(g)
    ensures LegalGrid(LeftGrid(g))
    ensures Sum(Worth, LeftGrid(g)) == Sum(Worth, g) + LeftGain(g)
    ensures LeftGain(g) >= 0
  {
    forall r | 0 <= r < SIZE
      ensures LegalRow(Slide(g[r]))
      ensures Total(Worth, Slide(g[r])) == Total(Worth, g[r]) + Gain(NonZero(g[r]))
      ensures Gain(NonZero(g[r])) >= 0
    {
      SlideLegal(g[r]);
    }
  }

  /** A board with m tiles has a tile sum with at most m one-bits, and m < 16 while a cell is
      empty. */
  lemma SumBits(g: Grid)
    requires LegalGrid(g)
    ensures Sum(Face, g) >= 0
    ensures BitCount(Sum(Face, g)) <= if HasEmpty(g) then 15 else 16
  {
    SumBitsOfRows(g, if HasEmpty(g) then RowWithEmpty(g) else SIZE,
                  Total(Face, g[0]), Total(Face, g[1]), Total(Face, g[2]), Total(Face, g[3]));
  }

  lemma SumBitsOfRows(g: Grid, r: nat, a: int, b: int, c: int, d: int)
    requires LegalGrid(g) && (r < SIZE ==> 0 in g[r])
    requires a == Total(Face, g[0]) && b == Total(Face, g[1]) && c == Total(Face, g[2]) && d == Total(Face, g[3])
    ensures a >= 0 && b >= 0 && c >= 0 && d >= 0
    ensures BitCount(a + b + c + d) <= if r < SIZE then 15 else 16
  {
    RowBits(g[0], r == 0, a);
    RowBits(g[1], r == 1, b);
    RowBits(g[2], r == 2, c);
    RowBits(g[3], r == 3, d);
    FourBitCounts(a, b, c, d);
  }

  ghost function RowWithEmpty(g: Grid): (r: nat)
    requires HasEmpty(g)
    ensures r < SIZE && 0 in g[r]
  {
    var r: nat, c: nat :| r < SIZE && c < SIZE && g[r][c] == 0;
    r
  }

  lemma ThreeBitCounts(a: nat, b: nat, c: nat)
    ensures BitCount(a + b + c) <= BitCount(a) + BitCount(b) + BitCount(c)
  {
    BitCountSubadditive(a, b);
    BitCountSubadditive(a + b, c);
  }

  lemma FourBitCounts(a: nat, b: nat, c: nat, d: nat)
    ensures BitCount(a + b + c + d) <= BitCount(a) + BitCount(b) + BitCount(c) + BitCount(d)
  {
    ThreeBitCounts(a, b, c);
    BitCountSubadditive(a + b + c, d);
  }

  lemma RowBits(s: seq<int>, empty: bool, sum: int)
    requires |s| == SIZE && LegalRow(s) && (empty ==> 0 in s) && sum == Total(Face, s)
    ensures sum >= 0 && BitCount(sum) <= if empty then 3 else 4
  {
    BitsBoundedByTiles(s);
    OccupiedBound(s);
  }

  lemma TileBelowSum(g: Grid, r: nat, c: nat)
    requires LegalGrid(g) && r < SIZE && c < SIZE
    ensures g[r][c] <= Sum(Face, g)
  {
    TileBelowTotal(g[r], c);
    TileBelowTotal(g[0], 0); TileBelowTotal(g[1], 0); TileBelowTotal(g[2], 0); TileBelowTotal(g[3], 0);
  }

  lemma SumWorthBound(g: Grid)
    requires LegalGrid(g)
    requires forall r, c :: 0 <= r < SIZE && 0 <= c < SIZE ==> g[r][c] <= Pow2(17)
    ensures 0 <= Sum(Worth, g) <= 16 * Sum(Face, g)
  {
    WorthBound(g[0]); WorthBound(g[1]); WorthBound(g[2]); WorthBound(g[3]);
  }

  // ----- which moves change the board -----

  predicate StuckLeft(g: Grid) {
    forall r :: 0 <= r < SIZE ==> Stuck(g[r])
  }

  lemma LeftFixed(g: Grid)
    ensures LeftGrid(g) == g <==> StuckLeft(g)
    ensures LeftGrid(g) == g ==> LeftGain(g) == 0
  {
    forall r | 0 <= r < SIZE
      ensures Slide(g[r]) == g[r] <==> Stuck(g[r])
      ensures Slide(g[r]) == g[r] ==> Gain(NonZero(g[r])) == 0
    {
      SlideFixed(g[r]);
    }
    assert LeftGrid(g) == g <==> forall r :: 0 <= r < SIZE ==> LeftGrid(g)[r] == g[r];
  }

  /** A direction leaves the board alone exactly when the turned board is stuck, and then it
      scores nothing. */
  lemma MoveFixed(g: Grid, d: Direction)
    ensures Moved(g, d) == g <==> StuckLeft(Orient(g, d))
    ensures Moved(g, d) == g ==> MoveGain(g, d) == 0
  {
    var o := Orient(g, d);
    OrientInverse(g, d);
    OrientInverse(LeftGrid(o), d);
    LeftFixed(o);
  }

  /** A move that changes the board leaves an empty cell for the new tile. */
  lemma ChangedHasEmpty(g: Grid, d: Direction)
    requires Moved(g, d) != g
    ensures HasEmpty(Moved(g, d))
  {
    var o := Orient(g, d);
    OrientInverse(g, d);
    var r, c := LeftLeavesRoom(o);
    UnorientHasEmpty(LeftGrid(o), d, r, c);
  }

  lemma LeftLeavesRoom(g: Grid) returns (r: nat, c: nat)
    requires LeftGrid(g) != g
    ensures r < SIZE && c < SIZE && LeftGrid(g)[r][c] == 0
  {
    r :| 0 <= r < SIZE && LeftGrid(g)[r] != g[r];
    LeftRow(g, r);
    SlideLeavesRoom(g[r]);
    c :| 0 <= c < SIZE && Slide(g[r])[c] == 0;
  }

  lemma UnorientHasEmpty(g: Grid, d: Direction, r: nat, c: nat)
    requires r < SIZE && c < SIZE && g[r][c] == 0
    ensures HasEmpty(Unorient(g, d))
  {
    assert Transpose(g)[c][r] == 0;
    assert MirrorGrid(g)[r][SIZE - 1 - c] == 0;
    assert Transpose(MirrorGrid(g))[SIZE - 1 - c][r] == 0;
  }

  predicate SameAsAbove(g: Grid, r: nat, c: nat)
    requires r < SIZE && c < SIZE
  {
    r > 0 && g[r][c] == g[r - 1][c]
  }

  predicate SameAsLeft(g: Grid, r: nat, c: nat)
    requires r < SIZE && c < SIZE
  {
    c > 0 && g[r][c] == g[r][c - 1]
  }

  /** What `has_valid_moves` tests: an empty cell, or two equal neighbours in a row or a column. */
  predicate MovesRemain(g: Grid) {
    || HasEmpty(g)
    || exists r, c :: 0 <= r < SIZE && 0 <= c < SIZE && (SameAsAbove(g, r, c) || SameAsLeft(g, r, c))
  }

  predicate SomeMoveChanges(g: Grid) {
    exists d :: Moved(g, d) != g
  }

  /** Empty, or full without equal neighbours. */
  predicate Settled(s: seq<int>)
    requires |s| == SIZE
  {
    || (s[0] == 0 && s[1] == 0 && s[2] == 0 && s[3] == 0)
    || (&& s[0] != 0 && s[1] != 0 && s[2] != 0 && s[3] != 0
        && s[0] != s[1] && s[1] != s[2] && s[2] != s[3])
  }

  predicate AllSettled(g: Grid) {
    Settled(g[0]) && Settled(g[1]) && Settled(g[2]) && Settled(g[3])
  }

  lemma StuckBothWays(s: seq<int>)
    requires |s| == SIZE
    ensures Stuck(s) && Stuck(Reverse(s)) <==> Settled(s)
  {
    var t := Reverse(s);
    assert t[0] == s[3] && t[1] == s[2] && t[2] == s[1] && t[3] == s[0];
  }

  /** The rows fixed by both opposite left moves are the settled ones. */
  lemma SettledRows(g: Grid)
    ensures StuckLeft(g) && StuckLeft(MirrorGrid(g)) <==> AllSettled(g)
  {
    StuckBothWays(g[0]); StuckBothWays(g[1]); StuckBothWays(g[2]); StuckBothWays(g[3]);
    var m := MirrorGrid(g);
    assert StuckLeft(m) <==> Stuck(m[0]) && Stuck(m[1]) && Stuck(m[2]) && Stuck(m[3]);
    assert StuckLeft(g) <==> Stuck(g[0]) && Stuck(g[1]) && Stuck(g[2]) && Stuck(g[3]);
  }

  lemma NoMoveChanges(g: Grid)
    ensures !SomeMoveChanges(g) <==> AllSettled(g) && AllSettled(Transpose(g))
  {
    forall d: Direction ensures Moved(g, d) == g <==> StuckLeft(Orient(g, d)) {
      MoveFixed(g, d);
    }
    SettledRows(g);
    SettledRows(Transpose(g));
    if AllSettled(g) && AllSettled(Transpose(g)) {
      forall d: Direction ensures StuckLeft(Orient(g, d)) {
        match d case Up => case Left => case Down => case Right =>
      }
    }
    if !SomeMoveChanges(g) {
      assert StuckLeft(Orient(g, Left)) && StuckLeft(Orient(g, Right));
      assert StuckLeft(Orient(g, Up)) && StuckLeft(Orient(g, Down));
    }
  }

  /** The game-over test is exact on every board that holds a tile: it answers no iff none of the
      four directions changes the board. On the empty board it answers yes although nothing moves. */
  lemma GameOverIffStuck(g: Grid)
    ensures MovesRemain(g) <==> SomeMoveChanges(g) || g == EMPTY_GRID
  {
    NoMoveChanges(g);
    SettledBoard(g);
    if g == EMPTY_GRID {
      assert g[0][0] == 0;
    }
  }

  /** One tile fills its row, hence every column, hence the board. */
  lemma SettledBoard(g: Grid)
    ensures AllSettled(g) && AllSettled(Transpose(g)) <==> !MovesRemain(g) || g == EMPTY_GRID
  {
    if AllSettled(g) && AllSettled(Transpose(g)) {
      SettledGrid(g);
    }
    if !MovesRemain(g) {
      RemainingCells(g);
    }
  }

  lemma SettledGrid(g: Grid)
    requires AllSettled(g) && AllSettled(Transpose(g))
    ensures !MovesRemain(g) || g == EMPTY_GRID
  {
    var t := Transpose(g);
    forall r, c | 0 <= r < SIZE && 0 <= c < SIZE
      ensures Settled(g[r]) && Settled(t[c]) && t[c][r] == g[r][c]
      ensures g[r][c] == 0 <==> g[0][0] == 0
    {
      assert t[c][0] == g[0][c];
    }
    if g[0][0] == 0 {
      assert forall r :: 0 <= r < SIZE ==> g[r] == Zeros(SIZE);
    } else {
      forall r, c | 0 <= r < SIZE && 0 <= c < SIZE
        ensures !SameAsLeft(g, r, c) && !SameAsAbove(g, r, c)
      {
        if r > 0 {
          assert t[c][r - 1] == g[r - 1][c];
        }
      }
    }
  }

  lemma RemainingCells(g: Grid)
    requires !MovesRemain(g)
    ensures AllSettled(g) && AllSettled(Transpose(g))
  {
    var t := Transpose(g);
    forall r | 0 <= r < SIZE ensures Settled(g[r]) && Settled(t[r]) {
      assert !SameAsLeft(g, r, 1) && !SameAsLeft(g, r, 2) && !SameAsLeft(g, r, 3);
      assert !SameAsAbove(g, 1, r) && !SameAsAbove(g, 2, r) && !SameAsAbove(g, 3, r);
      assert forall c :: 0 <= c < SIZE ==> g[r][c] != 0 && t[r][c] == g[c][r] != 0;
    }
  }
}
