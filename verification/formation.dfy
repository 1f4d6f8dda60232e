/** The 5 x 10 invader grid (game.js `createInvaders`). */
module Formation {
  import opened Geometry
  import opened Entities

  const Rows: nat := 5
  const Cols: nat := 10
  const InvaderWidth: real := 40.0
  const InvaderHeight: real := 30.0
  const Spacing: real := 50.0
  const StartX: real := 50.0
  const StartY: real := 50.0

  /** Score of a row: the two top rows are worth 30, the next two 20, the rest 10. */
  function BandPoints(row: nat): int
  {
    if row < 2 then 30 else if row < 4 then 20 else 10
  }

  function BandColour(row: nat): Colour
  {
    if row < 2 then Red else if row < 4 then Yellow else Cyan
  }

  /** The invader pushed for grid cell (row, col). */
  function Cell(row: nat, col: nat): Invader
  {
    Invader(Rect(StartX + (col as real) * Spacing, StartY + (row as real) * Spacing, InvaderWidth, InvaderHeight),
            BandColour(row), BandPoints(row))
  }

  /** The inner loop: columns `col` to Cols - 1 of one row, left to right. */
  function RowFrom(row: nat, col: nat): (r: seq<Invader>)
    requires col <= Cols
    ensures |r| == Cols - col
    ensures forall i :: 0 <= i < |r| ==> r[i] == Cell(row, col + i)
    decreases Cols - col
  {
    if col == Cols then [] else [Cell(row, col)] + RowFrom(row, col + 1)
  }

  /** The outer loop: rows `row` to Rows - 1, top to bottom, each row left to right. */
  function RowsFrom(row: nat): (r: seq<Invader>)
    requires row <= Rows
    ensures |r| == (Rows - row) * Cols
    decreases Rows - row
  {
    if row == Rows then [] else RowFrom(row, 0) + RowsFrom(row + 1)
  }

  /** Index i of the rows from `row` is cell (row + i / 10, i % 10). */
  lemma {:induction false} RowsFromCell(row: nat, i: nat)
    requires row <= Rows && i < |RowsFrom(row)|
    ensures RowsFrom(row)[i] == Cell(row + i / Cols, i % Cols)
    decreases Rows - row
  {
    var head := RowFrom(row, 0);
    assert RowsFrom(row) == head + RowsFrom(row + 1);
    if i < |head| {
      assert RowsFrom(row)[i] == head[i];
      assert i / Cols == 0 && i % Cols == i;
    } else {
      assert RowsFrom(row)[i] == RowsFrom(row + 1)[i - Cols];
      RowsFromCell(row + 1, i - Cols);
      NextRow(i);
    }
  }

  lemma GridCells()
    ensures forall i :: 0 <= i < |RowsFrom(0)| ==> RowsFrom(0)[i] == Cell(i / Cols, i % Cols)
  {
    forall i | 0 <= i < |RowsFrom(0)| {
      RowsFromCell(0, i);
    }
  }

  /** Index i of the grid from `row` is index i - 10 of the grid from `row + 1`. */
  lemma NextRow(i: int)
    requires i >= 10
    ensures (i - 10) / 10 == i / 10 - 1 && (i - 10) % 10 == i % 10
  {
  }

  /**
   * `createInvaders` appends the grid to the list it is given: 50 invaders, all 40 x 30, the k-th
   * at column k % 10 and row k / 10, worth 30 points in rows 0-1, 20 in rows 2-3 and 10 in row 4.
   */
  function CreateInvaders(invs: seq<Invader>): (r: seq<Invader>)
    ensures |r| == |invs| + 50
    ensures r[..|invs|] == invs
    ensures forall k :: |invs| <= k < |r| ==>
      var n := k - |invs|;
      r[k].rect == Rect(50.0 + ((n % 10) as real) * 50.0, 50.0 + ((n / 10) as real) * 50.0, 40.0, 30.0)
    ensures forall k :: |invs| <= k < |r| ==>
      var n := k - |invs|;
      r[k].points == (if n < 20 then 30 else if n < 40 then 20 else 10)
  {
    GridCells();
    invs + RowsFrom(0)
  }

  /** The k-th invader's colour follows the same row band as its points. */
  lemma ColourFollowsBand(invs: seq<Invader>, k: nat)
    requires k < 50
    ensures CreateInvaders(invs)[|invs| + k].colour == (if k < 20 then Red else if k < 40 then Yellow else Cyan)
  {
    GridCells();
    assert CreateInvaders(invs)[|invs| + k] == RowsFrom(0)[k];
  }

  /** No two invaders of a fresh grid overlap: neighbours are 50 apart and each is only 40 x 30. */
  lemma GridInvadersDisjoint(i: nat, j: nat)
    requires i < 50 && j < 50 && i != j
    ensures !IsColliding(CreateInvaders([])[i].rect, CreateInvaders([])[j].rect)
  {
    var g := CreateInvaders([]);
    var a, b := g[i].rect, g[j].rect;
    assert a == Rect(50.0 + ((i % 10) as real) * 50.0, 50.0 + ((i / 10) as real) * 50.0, 40.0, 30.0);
    assert b == Rect(50.0 + ((j % 10) as real) * 50.0, 50.0 + ((j / 10) as real) * 50.0, 40.0, 30.0);
    if i % 10 != j % 10 {
      assert a.x + 50.0 <= b.x || b.x + 50.0 <= a.x;
    } else {
      assert i / 10 != j / 10;
      assert a.y + 50.0 <= b.y || b.y + 50.0 <= a.y;
    }
  }
}
