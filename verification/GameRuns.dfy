/** Runs of the 2048 game: the transition relation of a turn with an arbitrary new tile, and what
    holds in every game. */
module GameRuns {
  import opened Options
  import opened PowersOfTwo
  import opened Tiles
  import opened TileRows
  import opened TileGrids

  /** `fours` counts the 4-tiles that were ever spawned. */
  datatype State = State(grid: Grid, score: int, fours: nat)

  const BLANK := State(EMPTY_GRID, 0, 0)

  function Placed(s: State, r: nat, c: nat, v: int): State
    requires r < SIZE && c < SIZE
  {
    State(Put(s.grid, r, c, v), s.score, if v == 4 then s.fours + 1 else s.fours)
  }

  ghost predicate IsSpawn(s: State, r: nat, c: nat, v: int, s': State) {
    r < SIZE && c < SIZE && s.grid[r][c] == 0 && (v == 2 || v == 4) && s' == Placed(s, r, c, v)
  }

  /** A 2 or a 4 appears in some empty cell; a full board stays as it is. */
  ghost predicate Spawn(s: State, s': State) {
    if HasEmpty(s.grid) then exists r, c, v :: IsSpawn(s, r, c, v, s') else s' == s
  }

  ghost predicate Initial(s: State) {
    exists first :: Spawn(BLANK, first) && Spawn(first, s)
  }

  function AfterMove(s: State, d: Direction): State {
    State(Moved(s.grid, d), s.score + MoveGain(s.grid, d), s.fours)
  }

  /** The keys the game knows. Any other string is refused. */
  function Key(direction: string): Option<Direction> {
    if direction == "w" then Some(Up)
    else if direction == "a" then Some(Left)
    else if direction == "s" then Some(Down)
    else if direction == "d" then Some(Right)
    else None
  }

  /** One call of `play_turn`. */
  ghost predicate Turn(s: State, direction: string, s': State) {
    match Key(direction)
    case None => s' == s
    case Some(d) =>
      var m := AfterMove(s, d);
      if m.grid == s.grid then s' == m else Spawn(m, s')
  }

  lemma TurnTaken(s: State, direction: string, m: State, s': State)
    requires m == match Key(direction) case None => s case Some(d) => AfterMove(s, d)
    requires if Key(direction).None? || m.grid == s.grid then s' == m else Spawn(m, s')
    ensures Turn(s, direction, s')
  {
  }

  // ----- keys, lines and cells -----

  /** What a key does to a board, by its rows and columns, and the points it makes. */
  predicate MovedByKey(direction: string, g: Grid, m: Grid, points: int) {
    if direction == "w" then
      && (forall c :: 0 <= c < SIZE ==> Column(m, c) == Slide(Column(g, c)))
      && points == Gain(NonZero(Column(g, 0))) + Gain(NonZero(Column(g, 1)))
                   + Gain(NonZero(Column(g, 2))) + Gain(NonZero(Column(g, 3)))
    else if direction == "a" then
      && (forall r :: 0 <= r < SIZE ==> m[r] == Slide(g[r]))
      && points == Gain(NonZero(g[0])) + Gain(NonZero(g[1])) + Gain(NonZero(g[2])) + Gain(NonZero(g[3]))
    else if direction == "s" then
      && (forall c :: 0 <= c < SIZE ==> Column(m, c) == Reverse(Slide(Reverse(Column(g, c)))))
      && points == Gain(NonZero(Reverse(Column(g, 0)))) + Gain(NonZero(Reverse(Column(g, 1))))
                   + Gain(NonZero(Reverse(Column(g, 2)))) + Gain(NonZero(Reverse(Column(g, 3))))
    else if direction == "d" then
      && (forall r :: 0 <= r < SIZE ==> m[r] == Reverse(Slide(Reverse(g[r]))))
      && points == Gain(NonZero(Reverse(g[0]))) + Gain(NonZero(Reverse(g[1])))
                   + Gain(NonZero(Reverse(g[2]))) + Gain(NonZero(Reverse(g[3])))
    else m == g && points == 0
  }

  lemma KeyByLines(direction: string, g: Grid)
    ensures Key(direction).Some? <==> direction in {"w", "a", "s", "d"}
    ensures Key(direction).Some? ==>
              MovedByKey(direction, g, Moved(g, Key(direction).value), MoveGain(g, Key(direction).value))
  {
    if direction == "w" {
      UpByColumns(g);
    } else if direction == "a" {
      LeftByRows(g);
    } else if direction == "s" {
      DownByColumns(g);
    } else if direction == "d" {
      RightByRows(g);
    }
  }

  lemma MoveByLines(s: State, direction: string, s': State)
    requires s' == match Key(direction) case None => s case Some(d) => AfterMove(s, d)
    ensures Key(direction).Some? <==> direction in {"w", "a", "s", "d"}
    ensures MovedByKey(direction, s.grid, s'.grid, s'.score - s.score)
  {
    KeyByLines(direction, s.grid);
  }

  /** A turn moves the board to m as its key says. If m is the old board nothing changes; otherwise a 2 or
      a 4 appears in an empty cell of m. */
  lemma TurnByKey(s: State, direction: string, s': State) returns (m: Grid)
    requires Turn(s, direction, s')
    ensures MovedByKey(direction, s.grid, m, s'.score - s.score)
    ensures if m == s.grid then s' == s else OneTileMore(s, m, s')
  {
    KeyByLines(direction, s.grid);
    match Key(direction)
    case None => m := s.grid;
    case Some(d) => m := TurnInDirection(s, direction, d, s');
  }

  lemma TurnInDirection(s: State, direction: string, d: Direction, s': State) returns (m: Grid)
    requires Turn(s, direction, s') && Key(direction) == Some(d)
    ensures m == Moved(s.grid, d) && s'.score == s.score + MoveGain(s.grid, d)
    ensures if m == s.grid then s' == s else OneTileMore(s, m, s')
  {
    m := Moved(s.grid, d);
    MoveFixed(s.grid, d);
    if m != s.grid {
      ChangedHasEmpty(s.grid, d);
      SpawnByCell(AfterMove(s, d), s');
    }
  }

  /** The board is m but for one cell that was empty and now holds a 2 or a 4. */
  ghost predicate OneTileMore(s: State, m: Grid, s': State) {
    exists r, c :: 0 <= r < SIZE && 0 <= c < SIZE && NewTile(m, s'.grid, r, c)
                   && s'.fours == s.fours + (if s'.grid[r][c] == 4 then 1 else 0)
  }

  predicate NewTile(m: Grid, g: Grid, r: nat, c: nat)
    requires r < SIZE && c < SIZE
  {
    && m[r][c] == 0 && (g[r][c] == 2 || g[r][c] == 4)
    && forall i, j :: 0 <= i < SIZE && 0 <= j < SIZE && !(i == r && j == c) ==> g[i][j] == m[i][j]
  }

  lemma SpawnByCell(s: State, s': State)
    requires HasEmpty(s.grid) && Spawn(s, s')
    ensures OneTileMore(s, s.grid, s') && s'.score == s.score
  {
    var r: nat, c: nat, v :| IsSpawn(s, r, c, v, s');
    assert NewTile(s.grid, s'.grid, r, c);
  }

  // ----- the invariant -----

  const SUM_LIMIT: int := 262140  // 2^18 - 4

  ghost predicate Invariant(s: State) {
    && LegalGrid(s.grid)
    && Sum(Face, s.grid) <= SUM_LIMIT
    && s.score == Sum(Worth, s.grid) - 4 * s.fours
    && s.score >= 0
  }

  lemma Pow2Of18()
    ensures Pow2(17) == 131072 && Pow2(18) == 262144
  {
    assert Pow2(9) == 512;
    Pow2Add(9, 8);
    assert Pow2(8) == 256;
  }

  /** An empty cell keeps the tile sum 8 below 2^18, so one more tile fits under the limit. */
  lemma RoomForOneMore(g: Grid)
    requires LegalGrid(g) && HasEmpty(g) && Sum(Face, g) <= SUM_LIMIT
    ensures Sum(Face, g) + 4 <= SUM_LIMIT
  {
    SumBits(g);
    Pow2Of18();
    FewBitsLeaveRoom(Sum(Face, g), 18);
  }

  lemma SmallTiles()
    ensures LegalTile(2) && LegalTile(4) && Worth(2) == 0 && Worth(4) == 4 && Worth(0) == 0
  {
    assert IsPow2(1) && IsPow2(2) && IsPow2(4);
  }

  lemma PlacedKeepsInvariant(s: State, r: nat, c: nat, v: int, s': State)
    requires Invariant(s) && IsSpawn(s, r, c, v, s')
    ensures Invariant(s') && Sum(Face, s'.grid) == Sum(Face, s.grid) + v
  {
    assert HasEmpty(s.grid);
    RoomForOneMore(s.grid);
    SumUpdate(Face, s.grid, r, c, v);
    SumUpdate(Worth, s.grid, r, c, v);
    SmallTiles();
    assert LegalGrid(s'.grid);
  }

  lemma SpawnKeepsInvariant(s: State, s': State)
    requires Invariant(s) && Spawn(s, s')
    ensures Invariant(s')
    ensures HasEmpty(s.grid) ==> Sum(Face, s'.grid) - Sum(Face, s.grid) in {2, 4}
  {
    if HasEmpty(s.grid) {
      var r: nat, c: nat, v :| IsSpawn(s, r, c, v, s');
      PlacedKeepsInvariant(s, r, c, v, s');
    }
  }

  lemma BlankInvariant()
    ensures Invariant(BLANK) && Sum(Face, BLANK.grid) == 0 && HasEmpty(BLANK.grid)
  {
    TotalZeros(Face, 4);
    TotalZeros(Worth, 4);
    assert BLANK.grid[0][0] == 0;
  }

  lemma SecondSpawnHasRoom(first: State)
    requires Spawn(BLANK, first)
    ensures HasEmpty(first.grid)
  {
    BlankInvariant();
    var r: nat, c: nat, v :| IsSpawn(BLANK, r, c, v, first);
    var r': nat := if r == 0 then 1 else 0;
    assert first.grid[r'] == Zeros(4);
    assert first.grid[r'][0] == 0;
  }

  /** A new game has exactly two tiles. */
  lemma InitialInvariant(s: State)
    requires Initial(s)
    ensures Invariant(s) && Sum(Face, s.grid) >= 4 && Sum(Occupied, s.grid) == 2 && s.score == 0
  {
    BlankInvariant();
    var first :| Spawn(BLANK, first) && Spawn(first, s);
    SpawnKeepsInvariant(BLANK, first);
    SecondSpawnHasRoom(first);
    SpawnKeepsInvariant(first, s);
    TotalZeros(Occupied, 4);
    SpawnAddsTile(BLANK, first);
    SpawnAddsTile(first, s);
  }

  lemma SpawnAddsTile(s: State, s': State)
    requires HasEmpty(s.grid) && Spawn(s, s')
    ensures Sum(Occupied, s'.grid) == Sum(Occupied, s.grid) + 1 && s'.score == s.score
  {
    var r: nat, c: nat, v :| IsSpawn(s, r, c, v, s');
    SumUpdate(Occupied, s.grid, r, c, v);
  }

  /** A turn either changes nothing at all, or moves to a board with an empty cell and then raises
      the tile sum by exactly 2 or 4. */
  lemma TurnKeepsInvariant(s: State, direction: string, s': State)
    requires Invariant(s) && Turn(s, direction, s')
    ensures Invariant(s')
    ensures s' == s || Sum(Face, s'.grid) - Sum(Face, s.grid) in {2, 4}
    ensures s'.grid == s.grid <==> s' == s
  {
    match Key(direction)
    case None =>
    case Some(d) =>
      var m := AfterMove(s, d);
      MoveConservesSum(s.grid, d);
      MoveScoresWorth(s.grid, d);
      assert Invariant(m);
      MoveFixed(s.grid, d);
      if m.grid != s.grid {
        ChangedHasEmpty(s.grid, d);
        SpawnKeepsInvariant(m, s');
      }
  }

  // ----- whole games -----

  ghost predicate IsGame(states: seq<State>, keys: seq<string>) {
    && |states| == |keys| + 1
    && Initial(states[0])
    && forall i :: 0 <= i < |keys| ==> Turn(states[i], keys[i], states[i + 1])
  }

  function BoardChanges(states: seq<State>): nat {
    if |states| < 2 then 0
    else BoardChanges(states[..|states| - 1])
         + (if states[|states| - 2].grid != states[|states| - 1].grid then 1 else 0)
  }

  lemma {:induction false} GamePrefix(states: seq<State>, keys: seq<string>)
    requires IsGame(states, keys)
    ensures Invariant(states[|keys|])
    ensures Sum(Face, states[|keys|].grid) >= 4 + 2 * BoardChanges(states)
  {
    if |keys| == 0 {
      InitialInvariant(states[0]);
    } else {
      var n := |keys|;
      GamePrefix(states[..n], keys[..n - 1]);
      TurnKeepsInvariant(states[n - 1], keys[n - 1], states[n]);
    }
  }

  /** In every game, at every moment: tiles are powers of two from 2 to 2^17, the tile sum is at
      most 2^18 - 4, and the score is the worth of the tiles less 4 for every 4-tile spawned. */
  lemma GameInvariant(states: seq<State>, keys: seq<string>, n: nat)
    requires IsGame(states, keys) && n < |states|
    ensures LegalGrid(states[n].grid)
    ensures 4 <= Sum(Face, states[n].grid) <= 262140
    ensures forall r, c :: 0 <= r < SIZE && 0 <= c < SIZE ==> states[n].grid[r][c] <= 131072
    ensures states[n].score == Sum(Worth, states[n].grid) - 4 * states[n].fours
    ensures 0 <= states[n].score <= 16 * 262140
  {
    GamePrefix(states[..n + 1], keys[..n]);
    var g := states[n].grid;
    forall r, c | 0 <= r < SIZE && 0 <= c < SIZE ensures g[r][c] <= Pow2(17) {
      TileBelowSum(g, r, c);
      Pow2Of18();
      TileBelowPow2(g[r][c], 18);
    }
    Pow2Of18();
    SumWorthBound(g);
  }

  /** A power of two below 2^m is at most 2^(m-1). */
  lemma TileBelowPow2(v: int, m: nat)
    requires LegalTile(v) && v < Pow2(m) && m > 0
    ensures v <= Pow2(m - 1)
  {
    if v != 0 {
      var k := IsPow2Exponent(v);
      if k >= m {
        Pow2Monotone(m, k);
      } else {
        Pow2Monotone(k, m - 1);
      }
    }
  }

  /** Turn i changes the board. */
  predicate Changes(states: seq<State>, i: nat) {
    i + 1 < |states| && states[i].grid != states[i + 1].grid
  }

  function ChangingTurns(states: seq<State>): set<nat> {
    set i: nat | i < |states| && Changes(states, i)
  }

  lemma ChangingTurnsSnoc(states: seq<State>)
    requires |states| >= 2
    ensures var n := |states| - 1;
            ChangingTurns(states)
            == ChangingTurns(states[..n]) + (if states[n - 1].grid != states[n].grid then {n - 1} else {})
  {
    var n := |states| - 1;
    assert forall i: nat :: i + 1 < n ==> (Changes(states, i) <==> Changes(states[..n], i));
  }

  lemma {:induction false} ChangesCounted(states: seq<State>)
    ensures |ChangingTurns(states)| == BoardChanges(states)
  {
    if |states| < 2 {
      assert ChangingTurns(states) == {};
    } else {
      ChangesCounted(states[..|states| - 1]);
      ChangingTurnsSnoc(states);
    }
  }

  /** Every game has at most 131068 turns that change the board. */
  lemma GameLength(states: seq<State>, keys: seq<string>)
    requires IsGame(states, keys)
    ensures |ChangingTurns(states)| <= 131068
  {
    GamePrefix(states, keys);
    ChangesCounted(states);
  }

  /** In every game the game-over test says no exactly when no direction changes the board. */
  lemma GameOverExact(states: seq<State>, keys: seq<string>, n: nat)
    requires IsGame(states, keys) && n < |states|
    ensures MovesRemain(states[n].grid) <==> exists d :: Moved(states[n].grid, d) != states[n].grid
  {
    GameInvariant(states, keys, n);
    TotalZeros(Face, 4);
    GameOverIffStuck(states[n].grid);
  }
}
