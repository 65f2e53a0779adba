/** The `Board` class of the 2048 game: a 4x4 array and a score, changed in place, with each method
    proved against the value-level moves and turns. */
module BoardClass {
  import opened Tiles
  import opened TileRows
  import opened TileGrids
  import opened GameRuns

  predicate IsBoardArray(a: array2<int>) {
    a.Length0 == SIZE && a.Length1 == SIZE
  }

  ghost predicate Holds(a: array2<int>, g: Grid)
    requires IsBoardArray(a)
    reads a
  {
    forall r, c :: 0 <= r < SIZE && 0 <= c < SIZE ==> a[r, c] == g[r][c]
  }

  predicate SameCells(a: array2<int>, b: array2<int>)
    requires IsBoardArray(a) && IsBoardArray(b)
    reads a, b
  {
    forall r, c :: 0 <= r < SIZE && 0 <= c < SIZE ==> a[r, c] == b[r, c]
  }

  /** The first n rows have reached their goal, the others are untouched, and the score has grown by
      the gains of the first n rows. */
  ghost predicate Progress(was: Grid, goal: Grid, gains: seq<int>, now: Grid, gained: int, n: nat)
    requires n <= SIZE == |gains|
  {
    && (forall r :: 0 <= r < SIZE ==> now[r] == if r < n then goal[r] else was[r])
    && gained == SumFirst(gains, n)
  }

  lemma ProgressStep(was: Grid, goal: Grid, gains: seq<int>, now: Grid, gained: int, n: nat)
    requires n < SIZE == |gains| && Progress(was, goal, gains, now, gained, n)
    ensures now[n] == was[n]
    ensures Progress(was, goal, gains, now[n := goal[n]], gained + gains[n], n + 1)
  {
  }

  ghost function SumFirst(s: seq<int>, n: nat): int
    requires n <= |s|
  {
    if n == 0 then 0 else SumFirst(s, n - 1) + s[n - 1]
  }

  lemma ProgressDone(was: Grid, goal: Grid, gains: seq<int>, now: Grid, gained: int)
    requires |gains| == SIZE && Progress(was, goal, gains, now, gained, SIZE)
    ensures now == goal && gained == SumFirst(gains, SIZE)
  {
  }

  lemma SumFour(s: seq<int>)
    requires |s| == SIZE
    ensures SumFirst(s, SIZE) == s[0] + s[1] + s[2] + s[3]
  {
    assert SumFirst(s, 1) == s[0];
    assert SumFirst(s, 2) == SumFirst(s, 1) + s[1];
    assert SumFirst(s, 3) == SumFirst(s, 2) + s[2];
  }

  /** What the row loop of a left move has to reach, row by row. */
  ghost predicate LeftGoals(was: Grid, goal: Grid, gains: seq<int>) {
    && |gains| == SIZE
    && forall r :: 0 <= r < SIZE ==> goal[r] == Slide(was[r]) && gains[r] == Gain(NonZero(was[r]))
  }

  lemma LeftGoalsExist(was: Grid) returns (goal: Grid, gains: seq<int>)
    ensures LeftGoals(was, goal, gains)
  {
    goal := LeftGrid(was);
    gains := seq(SIZE, r requires 0 <= r < SIZE => Gain(NonZero(was[r])));
  }

  lemma LeftGoalsReached(was: Grid, goal: Grid, gains: seq<int>)
    requires LeftGoals(was, goal, gains)
    ensures goal == Moved(was, Left) && SumFirst(gains, SIZE) == MoveGain(was, Left)
  {
    SumFour(gains);
    assert goal == LeftGrid(was);
  }

  ghost predicate RightGoals(was: Grid, goal: Grid, gains: seq<int>) {
    && |gains| == SIZE
    && forall r :: 0 <= r < SIZE ==>
         goal[r] == Reverse(Slide(Reverse(was[r]))) && gains[r] == Gain(NonZero(Reverse(was[r])))
  }

  lemma RightGoalsExist(was: Grid) returns (goal: Grid, gains: seq<int>)
    ensures RightGoals(was, goal, gains)
  {
    goal := Moved(was, Right);
    gains := seq(SIZE, r requires 0 <= r < SIZE => Gain(NonZero(Reverse(was[r]))));
    forall r | 0 <= r < SIZE ensures goal[r] == Reverse(Slide(Reverse(was[r]))) {
      RightRow(was, r);
    }
  }

  lemma RightGoalsReached(was: Grid, goal: Grid, gains: seq<int>)
    requires RightGoals(was, goal, gains)
    ensures goal == Moved(was, Right) && SumFirst(gains, SIZE) == MoveGain(was, Right)
  {
    SumFour(gains);
    RightGainSum(was, gains);
    RightGoalGrid(was, goal);
  }

  lemma RightGoalGrid(was: Grid, goal: Grid)
    requires forall r :: 0 <= r < SIZE ==> goal[r] == Reverse(Slide(Reverse(was[r])))
    ensures goal == Moved(was, Right)
  {
    var m := Moved(was, Right);
    forall r | 0 <= r < SIZE ensures goal[r] == m[r] {
      RightRow(was, r);
    }
    assert goal == m;
  }

  lemma RightRow(g: Grid, r: nat)
    requires r < SIZE
    ensures Moved(g, Right)[r] == Reverse(Slide(Reverse(g[r])))
  {
    MirrorRow(g, r);
    LeftRow(MirrorGrid(g), r);
    MirrorRow(LeftGrid(MirrorGrid(g)), r);
  }

  lemma RightGainSum(g: Grid, gains: seq<int>)
    requires |gains| == SIZE && forall r :: 0 <= r < SIZE ==> gains[r] == Gain(NonZero(Reverse(g[r])))
    ensures MoveGain(g, Right) == gains[0] + gains[1] + gains[2] + gains[3]
  {
  }

  /** The merge loop has settled the positions before c; a zero at c was merged into its left
      neighbour. */
  ghost predicate MergedUpTo(now: seq<int>, was: seq<int>, c: nat, gained: int) {
    && |now| == |was| && c < |was|
    && (forall i :: c < i < |was| ==> now[i] == was[i])
    && (now[c] == was[c] || now[c] == 0)
    && var rest := if now[c] == 0 then was[c + 1..] else was[c..];
       NonZero(now[..c]) + Merge(rest) == Merge(was) && gained + Gain(rest) == Gain(was)
  }

  lemma MergeStep(now: seq<int>, was: seq<int>, c: nat, gained: int, next: seq<int>)
    requires MergedUpTo(now, was, c, gained) && c + 1 < |was|
    requires forall i :: 0 <= i < |was| ==> was[i] != 0
    requires next == if now[c] == now[c + 1] then now[c := 2 * now[c]][c + 1 := 0] else now
    ensures MergedUpTo(next, was, c + 1, if now[c] == now[c + 1] then gained + 2 * now[c] else gained)
  {
    assert next[..c + 1] == now[..c] + [next[c]];
    NonZeroSnoc(now[..c], next[c]);
    if now[c] != 0 {
      MergeFirstTwo(NonZero(now[..c]), was, c);
    }
  }

  /** Looking at two neighbours settles the first of them. */
  lemma MergeFirstTwo(done: seq<int>, was: seq<int>, c: nat)
    requires c + 1 < |was|
    ensures if was[c] == was[c + 1] then
              && done + Merge(was[c..]) == (done + [2 * was[c]]) + Merge(was[c + 2..])
              && Gain(was[c..]) == 2 * was[c] + Gain(was[c + 2..])
            else
              && done + Merge(was[c..]) == (done + [was[c]]) + Merge(was[c + 1..])
              && Gain(was[c..]) == Gain(was[c + 1..])
  {
    var s := was[c..];
    assert s[1..] == was[c + 1..] && s[2..] == was[c + 2..];
  }

  lemma MergeDone(now: seq<int>, was: seq<int>, gained: int)
    requires |was| > 0 && MergedUpTo(now, was, |was| - 1, gained)
    requires forall i :: 0 <= i < |was| ==> was[i] != 0
    ensures NonZero(now) == Merge(was) && gained == Gain(was)
  {
    var c := |was| - 1;
    assert now == now[..c] + [now[c]];
    NonZeroSnoc(now[..c], now[c]);
    assert was[c..] == [was[c]] && was[c + 1..] == [];
    assert Merge([was[c]]) == [was[c]] && Gain([was[c]]) == 0 && Merge([]) == [];
  }

  class Board {
    var board: array2<int>
    var score: int
    ghost var cells: Grid  // the contents of `board`
    ghost var fours: nat  // how many 4-tiles were spawned

    ghost predicate Valid()
      reads this, board
    {
      IsBoardArray(board) && Holds(board, cells)
    }

    ghost function Snapshot(): State
      reads this
    {
      State(cells, score, fours)
    }

    /** A new game: an empty board and two random tiles. */
    constructor ()
      ensures Valid() && fresh(board)
      ensures Initial(Snapshot())
    {
      board := new int[SIZE, SIZE]((_, _) => 0);
      score := 0;
      fours := 0;
      cells := EMPTY_GRID;
      new;
      AddRandomTile();
      assert Spawn(BLANK, Snapshot());
      AddRandomTile();
    }

    /** A copy shares no cells with the original. */
    method Copy() returns (copy: Board)
      requires Valid()
      ensures fresh(copy) && copy.Valid() && fresh(copy.board)
      ensures copy.Snapshot() == Snapshot()
    {
      copy := new Board();
      copy.board := CopyCells();
      copy.cells := cells;
      copy.score := score;
      copy.fours := fours;
    }

    method CopyCells() returns (a: array2<int>)
      requires Valid()
      ensures fresh(a) && IsBoardArray(a) && Holds(a, cells)
    {
      a := new int[SIZE, SIZE]((r, c) requires IsBoardArray(board) && 0 <= r < SIZE && 0 <= c < SIZE
                                      reads this, board => board[r, c]);
    }

    /** The coordinates of all empty cells. */
    method EmptyTiles() returns (tiles: seq<(nat, nat)>)
      requires Valid()
      ensures forall i: nat, j: nat :: (i, j) in tiles <==> i < SIZE && j < SIZE && cells[i][j] == 0
    {
      tiles := [];
      for r := 0 to SIZE
        invariant forall i: nat, j: nat :: (i, j) in tiles <==> i < r && j < SIZE && cells[i][j] == 0
      {
        for c := 0 to SIZE
          invariant forall i: nat, j: nat :: (i, j) in tiles <==>
                      (i < r || (i == r && j < c)) && j < SIZE && cells[i][j] == 0
        {
          if board[r, c] == 0 {
            tiles := tiles + [(r, c)];
          }
        }
      }
    }

    /** Puts a 2 or a 4 on some empty cell; cell and probability draw are arbitrary. */
    method AddRandomTile()
      requires Valid()
      modifies board, `cells, `fours
      ensures Valid()
      ensures Spawn(old(Snapshot()), Snapshot())
    {
      var tiles := EmptyTiles();
      if tiles != [] {
        var pick :| 0 <= pick < |tiles|;
        var (r, c) := tiles[pick];
        assert (r, c) in tiles;
        var tileProb: real :| 0.0 <= tileProb < 1.0;
        var v := if tileProb < 0.9 then 2 else 4;
        ghost var before := Snapshot();
        board[r, c] := v;
        fours := if v == 4 then fours + 1 else fours;
        cells := Put(cells, r, c, v);
        assert IsSpawn(before, r, c, v, Snapshot());
      } else {
        assert forall i: nat, j: nat :: i < SIZE && j < SIZE ==> (i, j) !in tiles;
      }
    }

    /** The merge loop over a row without zeros: double the left tile, zero the right one. */
    method MergeRow(row: array<int>)
      requires forall i :: 0 <= i < row.Length ==> row[i] != 0
      modifies row, `score
      ensures NonZero(row[..]) == Merge(old(row[..]))
      ensures score == old(score) + Gain(old(row[..]))
    {
      ghost var was := row[..];
      if row.Length > 0 {
        var c := 0;
        while c < row.Length - 1
          invariant 0 <= c < row.Length
          invariant MergedUpTo(row[..], was, c, score - old(score))
        {
          ghost var now := row[..];
          ghost var gained := score - old(score);
          if row[c] == row[c + 1] {
            row[c] := row[c] * 2;
            score := score + row[c];
            row[c + 1] := 0;
          }
          MergeStep(now, was, c, gained, row[..]);
          c := c + 1;
        }
        MergeDone(row[..], was, score - old(score));
      }
    }

    /** The tiles of one line after its merges, padded with empty cells. */
    method SlideLine(line: seq<int>) returns (done: seq<int>)
      requires |line| == SIZE
      modifies `score
      ensures done == Slide(line)
      ensures score == old(score) + Gain(NonZero(line))
    {
      var kept := NonZero(line);
      var row := new int[|kept|](i requires 0 <= i < |kept| => kept[i]);
      assert row[..] == kept;
      NonZeroHasNoZero(line);
      MergeRow(row);
      done := Pad(NonZero(row[..]), SIZE);
    }

    method ReadRow(r: nat) returns (line: seq<int>)
      requires Valid() && r < SIZE
      ensures line == cells[r]
    {
      line := [board[r, 0], board[r, 1], board[r, 2], board[r, 3]];
    }

    method WriteRow(r: nat, line: seq<int>)
      requires Valid() && r < SIZE && |line| == SIZE
      modifies board, `cells
      ensures Valid()
      ensures cells == old(cells)[r := line]
    {
      forall c | 0 <= c < SIZE {
        board[r, c] := line[c];
      }
      cells := cells[r := line];
    }

    method SlideRow(r: nat)
      requires Valid() && r < SIZE
      modifies board, `cells, `score
      ensures Valid()
      ensures cells == old(cells)[r := Slide(old(cells)[r])]
      ensures score == old(score) + Gain(NonZero(old(cells)[r]))
    {
      var line := ReadRow(r);
      var done := SlideLine(line);
      WriteRow(r, done);
    }

    method SlideRowReversed(r: nat)
      requires Valid() && r < SIZE
      modifies board, `cells, `score
      ensures Valid()
      ensures cells == old(cells)[r := Reverse(Slide(Reverse(old(cells)[r])))]
      ensures score == old(score) + Gain(NonZero(Reverse(old(cells)[r])))
    {
      var line := ReadRow(r);
      var done := SlideLine(Reverse(line));
      WriteRow(r, Reverse(done));
    }

    method LeftPressed()
      requires Valid()
      modifies board, `cells, `score
      ensures Valid()
      ensures cells == Moved(old(cells), Left)
      ensures score == old(score) + MoveGain(old(cells), Left)
    {
      ghost var was := cells;
      ghost var goal, gains := LeftGoalsExist(was);
      for r := 0 to SIZE
        invariant Valid()
        invariant Progress(was, goal, gains, cells, score - old(score), r)
      {
        ProgressStep(was, goal, gains, cells, score - old(score), r);
        SlideRow(r);
      }
      ProgressDone(was, goal, gains, cells, score - old(score));
      LeftGoalsReached(was, goal, gains);
    }

    method RightPressed()
      requires Valid()
      modifies board, `cells, `score
      ensures Valid()
      ensures cells == Moved(old(cells), Right)
      ensures score == old(score) + MoveGain(old(cells), Right)
    {
      ghost var was := cells;
      ghost var goal, gains := RightGoalsExist(was);
      for r := 0 to SIZE
        invariant Valid()
        invariant Progress(was, goal, gains, cells, score - old(score), r)
      {
        ProgressStep(was, goal, gains, cells, score - old(score), r);
        SlideRowReversed(r);
      }
      ProgressDone(was, goal, gains, cells, score - old(score));
      RightGoalsReached(was, goal, gains);
    }

    /** `self.board = self.board.T` */
    method TransposeBoard()
      requires Valid()
      modifies `board, `cells
      ensures Valid() && fresh(board)
      ensures cells == Transpose(old(cells))
    {
      board := new int[SIZE, SIZE]((r, c) requires IsBoardArray(board) && 0 <= r < SIZE && 0 <= c < SIZE
                                          reads this, board => board[c, r]);
      cells := Transpose(cells);
    }

    method UpPressed()
      requires Valid()
      modifies this, board
      ensures Valid() && fresh(board) && fours == old(fours)
      ensures cells == Moved(old(cells), Up)
      ensures score == old(score) + MoveGain(old(cells), Up)
    {
      TransposeBoard();
      LeftPressed();
      TransposeBoard();
    }

    method DownPressed()
      requires Valid()
      modifies this, board
      ensures Valid() && fresh(board) && fours == old(fours)
      ensures cells == Moved(old(cells), Down)
      ensures score == old(score) + MoveGain(old(cells), Down)
    {
      TransposeBoard();
      RightPressed();
      TransposeBoard();
    }

    /** Answers false, and changes nothing, for a string that is no key. */
    method Move(direction: string) returns (ok: bool)
      requires Valid()
      modifies this, board
      ensures Valid() && (board == old(board) || fresh(board))
      ensures ok <==> direction in {"w", "a", "s", "d"}
      ensures MovedByKey(direction, old(cells), cells, score - old(score))
      ensures Snapshot() == if ok then AfterMove(old(Snapshot()), Key(direction).value) else old(Snapshot())
    {
      ghost var was := Snapshot();
      ok := Press(direction);
      MoveByLines(was, direction, Snapshot());
    }

    /** The choice of the move. */
    method Press(direction: string) returns (ok: bool)
      requires Valid()
      modifies this, board
      ensures Valid() && (board == old(board) || fresh(board))
      ensures ok <==> Key(direction).Some?
      ensures Snapshot() == if ok then AfterMove(old(Snapshot()), Key(direction).value) else old(Snapshot())
    {
      if direction == "w" {
        UpPressed();
      } else if direction == "a" {
        LeftPressed();
      } else if direction == "s" {
        DownPressed();
      } else if direction == "d" {
        RightPressed();
      } else {
        return false;
      }
      return true;
    }

    /** True iff a cell is empty or two neighbours are equal. */
    method HasValidMoves() returns (remain: bool)
      requires Valid()
      ensures remain <==> MovesRemain(cells)
    {
      if exists r, c :: 0 <= r < SIZE && 0 <= c < SIZE && board[r, c] == 0 {
        assert HasEmpty(cells);
        return true;
      }
      for r := 0 to SIZE
        invariant forall i, j :: 0 <= i < r && 0 <= j < SIZE ==>
                    !SameAsAbove(cells, i, j) && !SameAsLeft(cells, i, j)
      {
        for c := 0 to SIZE
          invariant forall i, j :: 0 <= i < r && 0 <= j < SIZE ==>
                      !SameAsAbove(cells, i, j) && !SameAsLeft(cells, i, j)
          invariant forall j :: 0 <= j < c ==> !SameAsAbove(cells, r, j) && !SameAsLeft(cells, r, j)
        {
          if r > 0 && board[r, c] == board[r - 1, c] {
            assert SameAsAbove(cells, r, c);
            return true;
          }
          if c > 0 && board[r, c] == board[r, c - 1] {
            assert SameAsLeft(cells, r, c);
            return true;
          }
        }
      }
      return false;
    }

    /** One turn: a refused key changes nothing; otherwise move, and spawn a tile iff the board
        changed. */
    method PlayTurn(direction: string) returns (ok: bool)
      requires Valid()
      modifies this, board
      ensures Valid() && (board == old(board) || fresh(board))
      ensures ok <==> Key(direction).Some?
      ensures Turn(old(Snapshot()), direction, Snapshot())
    {
      ghost var was := Snapshot();
      var before := CopyCells();
      ok := Move(direction);
      ghost var moved := Snapshot();
      if ok {
        var same := EqualTo(before, was.grid);
        if !same {
          AddRandomTile();
        }
      }
      TurnTaken(was, direction, moved, Snapshot());
    }

    /** `np.array_equal` with an earlier copy */
    method EqualTo(copy: array2<int>, ghost g: Grid) returns (same: bool)
      requires Valid() && IsBoardArray(copy) && Holds(copy, g)
      ensures same <==> cells == g
    {
      same := SameCells(copy, board);
      if same {
        SameGrid(copy, cells, g);
      }
    }
  }

  lemma SameGrid(a: array2<int>, g: Grid, h: Grid)
    requires IsBoardArray(a) && Holds(a, g) && Holds(a, h)
    ensures g == h
  {
    forall r | 0 <= r < SIZE ensures g[r] == h[r] {
      assert forall c :: 0 <= c < SIZE ==> g[r][c] == a[r, c] == h[r][c];
    }
  }
}
