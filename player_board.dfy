/**
 * A player's half of the field (src/models/boards/player_board.py): a fixed
 * width-by-height grid of optional champions plus the stored counter
 * `num_champs`.
 *
 * The base class ChampBoard is not part of this model. Its `get`, `set` and
 * `is_hex_empty` are reads and writes of a two-dimensional array here,
 * `is_position_valid` is taken to be the bounds check 0 <= x < width and
 * 0 <= y < height, and `len(self.champs)` is taken to be the number of
 * occupied cells.
 */
module Boards {
  import opened Wrappers
  import opened Champions

  /** An offset-grid position. */
  datatype Point = Point(x: int, y: int)

  type Cell = Option<Champion>

  /** The board's cells as a value, row by row: g[y][x]. */
  type Grid = seq<seq<Cell>>

  predicate InGrid(g: Grid, p: Point)
  {
    0 <= p.y < |g| && 0 <= p.x < |g[p.y]|
  }

  function At(g: Grid, p: Point): Cell
    requires InGrid(g, p)
  {
    g[p.y][p.x]
  }

  /** The grid after `set(p, c)`. */
  function Put(g: Grid, p: Point, c: Cell): Grid
    requires InGrid(g, p)
  {
    g[p.y := g[p.y][p.x := c]]
  }

  /** The grid with the contents of cells a and b exchanged. */
  function SwapCells(g: Grid, a: Point, b: Point): Grid
    requires InGrid(g, a) && InGrid(g, b)
  {
    Put(Put(g, a, At(g, b)), b, At(g, a))
  }

  // ---------------------------------------------------------------------
  // Who is on the board

  function Bag(c: Cell): multiset<Champion>
  {
    if c.Some? then multiset{c.value} else multiset{}
  }

  function RowResidents(row: seq<Cell>): multiset<Champion>
  {
    if |row| == 0 then multiset{} else RowResidents(row[..|row| - 1]) + Bag(row[|row| - 1])
  }

  /** The champions on the board, as a multiset. */
  function Residents(g: Grid): multiset<Champion>
  {
    if |g| == 0 then multiset{} else Residents(g[..|g| - 1]) + RowResidents(g[|g| - 1])
  }

  /** The number of occupied cells. */
  function Occupied(g: Grid): nat
  {
    |Residents(g)|
  }

  /** `row[x] = c` takes the old cell's champion out of the row and puts c's in. */
  lemma {:induction false} RowResidentsUpdate(row: seq<Cell>, x: nat, c: Cell)
    requires x < |row|
    ensures Bag(row[x]) <= RowResidents(row)
    ensures RowResidents(row[x := c]) == RowResidents(row) - Bag(row[x]) + Bag(c)
  {
    if x == |row| - 1 {
      RowUpdateLast(row, c);
    } else {
      RowResidentsUpdate(row[..|row| - 1], x, c);
      RowUpdateEarlier(row, x, c);
    }
  }

  lemma RowUpdateLast(row: seq<Cell>, c: Cell)
    requires row != []
    ensures var x := |row| - 1;
      Bag(row[x]) <= RowResidents(row) && RowResidents(row[x := c]) == RowResidents(row) - Bag(row[x]) + Bag(c)
  {
    var n := |row| - 1;
    var row' := row[n := c];
    assert RowResidents(row) == RowResidents(row[..n]) + Bag(row[n]);
    assert RowResidents(row') == RowResidents(row'[..n]) + Bag(row'[n]);
    assert row'[..n] == row[..n];
    ReplaceInRight(RowResidents(row[..n]), Bag(row[n]), Bag(row[n]), Bag(c));
  }

  lemma RowUpdateEarlier(row: seq<Cell>, x: nat, c: Cell)
    requires x < |row| - 1
    requires var pre := row[..|row| - 1];
      Bag(pre[x]) <= RowResidents(pre) && RowResidents(pre[x := c]) == RowResidents(pre) - Bag(pre[x]) + Bag(c)
    ensures Bag(row[x]) <= RowResidents(row)
    ensures RowResidents(row[x := c]) == RowResidents(row) - Bag(row[x]) + Bag(c)
  {
    var n := |row| - 1;
    var row' := row[x := c];
    assert RowResidents(row) == RowResidents(row[..n]) + Bag(row[n]);
    assert RowResidents(row') == RowResidents(row'[..n]) + Bag(row'[n]);
    assert row'[..n] == row[..n][x := c];
    assert row'[n] == row[n];
    ReplaceInLeft(RowResidents(row[..n]), Bag(row[n]), Bag(row[x]), Bag(c));
  }

  lemma ReplaceInRight(a: multiset<Champion>, b: multiset<Champion>, x: multiset<Champion>, y: multiset<Champion>)
    requires x <= b
    ensures x <= a + b && a + b - x + y == a + (b - x + y)
  {
  }

  lemma ReplaceInLeft(a: multiset<Champion>, b: multiset<Champion>, x: multiset<Champion>, y: multiset<Champion>)
    requires x <= a
    ensures x <= a + b && a + b - x + y == (a - x + y) + b
  {
  }

  /** `set(p, c)` takes the old occupant of p off the board and puts c on it; nothing else changes. */
  lemma {:induction false} ResidentsPut(g: Grid, p: Point, c: Cell)
    requires InGrid(g, p)
    ensures Bag(At(g, p)) <= Residents(g)
    ensures Residents(Put(g, p, c)) == Residents(g) - Bag(At(g, p)) + Bag(c)
  {
    if p.y == |g| - 1 {
      RowResidentsUpdate(g[p.y], p.x, c);
      PutInLastRow(g, p, c);
    } else {
      ResidentsPut(g[..|g| - 1], p, c);
      PutInEarlierRow(g, p, c);
    }
  }

  lemma PutInLastRow(g: Grid, p: Point, c: Cell)
    requires InGrid(g, p) && p.y == |g| - 1
    requires Bag(g[p.y][p.x]) <= RowResidents(g[p.y])
    requires RowResidents(g[p.y][p.x := c]) == RowResidents(g[p.y]) - Bag(g[p.y][p.x]) + Bag(c)
    ensures Bag(At(g, p)) <= Residents(g)
    ensures Residents(Put(g, p, c)) == Residents(g) - Bag(At(g, p)) + Bag(c)
  {
    var n := |g| - 1;
    var h := Put(g, p, c);
    assert Residents(g) == Residents(g[..n]) + RowResidents(g[n]);
    assert Residents(h) == Residents(h[..n]) + RowResidents(h[n]);
    assert h[..n] == g[..n];
    ReplaceInRight(Residents(g[..n]), RowResidents(g[n]), Bag(At(g, p)), Bag(c));
  }

  lemma PutInEarlierRow(g: Grid, p: Point, c: Cell)
    requires InGrid(g, p) && p.y < |g| - 1
    requires var pre := g[..|g| - 1];
      Bag(At(pre, p)) <= Residents(pre) && Residents(Put(pre, p, c)) == Residents(pre) - Bag(At(pre, p)) + Bag(c)
    ensures Bag(At(g, p)) <= Residents(g)
    ensures Residents(Put(g, p, c)) == Residents(g) - Bag(At(g, p)) + Bag(c)
  {
    var n := |g| - 1;
    var h := Put(g, p, c);
    assert Residents(g) == Residents(g[..n]) + RowResidents(g[n]);
    assert Residents(h) == Residents(h[..n]) + RowResidents(h[n]);
    assert h[..n] == Put(g[..n], p, c);
    assert h[n] == g[n];
    ReplaceInLeft(Residents(g[..n]), RowResidents(g[n]), Bag(At(g, p)), Bag(c));
  }

  /** `set(p, c)` changes the number of occupied cells by what it adds minus what it removes. */
  lemma OccupiedPut(g: Grid, p: Point, c: Cell)
    requires InGrid(g, p)
    ensures Occupied(Put(g, p, c)) == Occupied(g) - |Bag(At(g, p))| + |Bag(c)|
  {
    ResidentsPut(g, p, c);
    var r := Residents(g);
    assert r == (r - Bag(At(g, p))) + Bag(At(g, p));
  }

  /** Exchanging two cells keeps the same champions on the board. */
  lemma SwapResidents(g: Grid, a: Point, b: Point)
    requires InGrid(g, a) && InGrid(g, b)
    ensures Residents(SwapCells(g, a, b)) == Residents(g)
    ensures Occupied(SwapCells(g, a, b)) == Occupied(g)
  {
    var g1 := Put(g, a, At(g, b));
    ResidentsPut(g, a, At(g, b));
    assert At(g1, b) == At(g, b);
    ResidentsPut(g1, b, At(g, a));
  }

  /**
   * `move(a, b)` followed by `move(b, a)` restores the board: after the
   * first move b is occupied, so the move back is accepted. When the first
   * move was a swap, a is occupied too, so `move(a, b)` again is accepted
   * and also restores the board; after a relocation a is empty and a second
   * `move(a, b)` is refused.
   */
  lemma MoveBackRestores(g: Grid, a: Point, b: Point)
    requires InGrid(g, a) && InGrid(g, b) && At(g, a).Some?
    ensures At(SwapCells(g, a, b), b).Some?
    ensures SwapCells(SwapCells(g, a, b), b, a) == g
    ensures At(SwapCells(g, a, b), a).Some? <==> At(g, b).Some?
    ensures At(g, b).Some? ==> SwapCells(SwapCells(g, a, b), a, b) == g
  {
    var h := SwapCells(g, a, b);
    var back, again := SwapCells(h, b, a), SwapCells(h, a, b);
    forall y | 0 <= y < |g|
      ensures back[y] == g[y] && again[y] == g[y]
    {
      assert |back[y]| == |g[y]| == |again[y]|;
    }
  }

  /** A board whose every cell is empty holds nobody. */
  lemma {:induction false} EmptyRowUnoccupied(row: seq<Cell>)
    requires forall x :: 0 <= x < |row| ==> row[x].None?
    ensures RowResidents(row) == multiset{}
  {
    if row != [] {
      EmptyRowUnoccupied(row[..|row| - 1]);
    }
  }

  lemma {:induction false} EmptyGridUnoccupied(g: Grid)
    requires forall y, x :: 0 <= y < |g| && 0 <= x < |g[y]| ==> g[y][x].None?
    ensures Occupied(g) == 0
  {
    if g != [] {
      EmptyGridUnoccupied(g[..|g| - 1]);
      EmptyRowUnoccupied(g[|g| - 1]);
    }
  }

  lemma RowPrefixStep(row: seq<Cell>, x: nat)
    requires 0 < x <= |row|
    ensures RowResidents(row[..x]) == RowResidents(row[..x - 1]) + Bag(row[x - 1])
  {
    assert row[..x][..x - 1] == row[..x - 1];
  }

  lemma GridPrefixStep(g: Grid, y: nat)
    requires 0 < y <= |g|
    ensures Residents(g[..y]) == Residents(g[..y - 1]) + RowResidents(g[y - 1])
  {
    assert g[..y][..y - 1] == g[..y - 1];
  }

  // ---------------------------------------------------------------------
  // The scan of add_champ_from_carousel

  /** Scan order: rows from the highest y down to 0, each row from x = 0 upwards. */
  predicate ScannedAfter(q: Point, p: Point)
  {
    q.y < p.y || (q.y == p.y && q.x > p.x)
  }

  /** Cells visited before the scan reaches column x of row y. */
  predicate VisitedBefore(q: Point, y: int, x: int)
  {
    q.y > y || (q.y == y && q.x < x)
  }

  ghost predicate HasEmpty(g: Grid)
  {
    exists q :: InGrid(g, q) && At(g, q).None?
  }

  /**
   * p is the empty cell the scan visits last: the empty cell with the
   * smallest y and, within that row, the largest x.
   */
  ghost predicate LastEmptyInScan(g: Grid, p: Point)
  {
    && InGrid(g, p) && At(g, p).None?
    && forall q :: InGrid(g, q) && ScannedAfter(q, p) ==> At(g, q).Some?
  }

  /** The scan's `new_pos` after visiting the cells before (x, y). */
  ghost predicate ScanState(g: Grid, pos: Option<Point>, y: int, x: int)
  {
    if pos.None? then
      forall q :: InGrid(g, q) && VisitedBefore(q, y, x) ==> At(g, q).Some?
    else
      && InGrid(g, pos.value) && At(g, pos.value).None? && VisitedBefore(pos.value, y, x)
      && forall q :: InGrid(g, q) && VisitedBefore(q, y, x) && ScannedAfter(q, pos.value) ==> At(g, q).Some?
  }

  // ---------------------------------------------------------------------
  // The board object

  /** What `add_champ` returns: False, True, or the champion sent back to the bench. */
  datatype Placement = Rejected | Placed | Swapped(evicted: Champion)

  class PlayerBoard {
    /** The cells, indexed cells[x, y]. */
    const cells: array2<Cell>
    /** The stored counter `num_champs`. */
    var numChamps: int
    /** The cells as a value: grid[y][x] == cells[x, y]. */
    ghost var grid: Grid

    ghost predicate Valid()
      reads this, cells
    {
      && |grid| == cells.Length1
      && (forall y :: 0 <= y < |grid| ==> |grid[y]| == cells.Length0)
      && (forall x, y :: 0 <= x < cells.Length0 && 0 <= y < cells.Length1 ==> grid[y][x] == cells[x, y])
    }

    /** An empty board of the given size with `num_champs` at 0. */
    constructor (width: nat, height: nat)
      ensures Valid() && fresh(cells)
      ensures cells.Length0 == width && cells.Length1 == height
      ensures numChamps == 0 && Occupied(grid) == 0
      ensures forall q :: InGrid(grid, q) ==> At(grid, q).None?
    {
      cells := new Cell[width, height]((x, y) => None);
      numChamps := 0;
      grid := seq(height, y => seq(width, x => None));
      new;
      EmptyGridUnoccupied(grid);
    }

    /** `is_position_valid`, taken to be a bounds check. */
    predicate IsPositionValid(p: Point)
    {
      0 <= p.x < cells.Length0 && 0 <= p.y < cells.Length1
    }

    /** The champions in cells[0, y] .. cells[x - 1, y]. */
    function RowBag(y: nat, x: nat): multiset<Champion>
      requires y < cells.Length1 && x <= cells.Length0
      reads cells
    {
      if x == 0 then multiset{} else RowBag(y, x - 1) + Bag(cells[x - 1, y])
    }

    /** The champions in rows 0 .. y - 1. */
    function RowsBag(y: nat): multiset<Champion>
      requires y <= cells.Length1
      reads cells
    {
      if y == 0 then multiset{} else RowsBag(y - 1) + RowBag(y - 1, cells.Length0)
    }

    lemma {:induction false} RowBagIsResidents(y: nat, x: nat)
      requires Valid() && y < cells.Length1 && x <= cells.Length0
      ensures RowBag(y, x) == RowResidents(grid[y][..x])
    {
      if x > 0 {
        RowBagIsResidents(y, x - 1);
        RowPrefixStep(grid[y], x);
      }
    }

    lemma {:induction false} RowsBagIsResidents(y: nat)
      requires Valid() && y <= cells.Length1
      ensures RowsBag(y) == Residents(grid[..y])
    {
      if y > 0 {
        RowsBagIsResidents(y - 1);
        var row := grid[y - 1];
        RowBagIsResidents(y - 1, cells.Length0);
        assert row[..cells.Length0] == row;
        GridPrefixStep(grid, y);
      }
    }

    /** `len(self.champs)`: the number of occupied cells. */
    function ChampCount(): (n: nat)
      requires Valid()
      reads this, cells
      ensures n == Occupied(grid)
    {
      RowsBagIsResidents(cells.Length1);
      assert grid[..cells.Length1] == grid;
      |RowsBag(cells.Length1)|
    }

    /** ChampBoard's `set(p, c)`. */
    method SetCell(p: Point, c: Cell)
      requires Valid() && IsPositionValid(p)
      modifies cells, this`grid
      ensures Valid() && grid == Put(old(grid), p, c)
    {
      cells[p.x, p.y] := c;
      grid := Put(grid, p, c);
    }

    /**
     * `add_champ(champ, pos)`: an invalid position is refused; an empty cell
     * takes the champion only while fewer than max_champs cells are
     * occupied; an occupied cell always takes it and hands back its former
     * occupant. `num_champs` is never touched.
     */
    method AddChamp(champ: Champion, pos: Point, maxChamps: int) returns (r: Placement)
      requires Valid()
      modifies cells, this`grid
      ensures Valid() && numChamps == old(numChamps)
      ensures !IsPositionValid(pos) ==> r == Rejected && grid == old(grid)
      ensures IsPositionValid(pos) && At(old(grid), pos).None? ==>
        && (r == Placed <==> Occupied(old(grid)) < maxChamps)
        && (r == Placed ==> grid == Put(old(grid), pos, Some(champ)) && Occupied(grid) == Occupied(old(grid)) + 1)
        && (r != Placed ==> r == Rejected && grid == old(grid))
      ensures IsPositionValid(pos) && At(old(grid), pos).Some? ==>
        && r == Swapped(At(old(grid), pos).value)
        && grid == Put(old(grid), pos, Some(champ))
        && Residents(grid) == Residents(old(grid)) - multiset{r.evicted} + multiset{champ}
        && Occupied(grid) == Occupied(old(grid))
      ensures r != Placed && old(numChamps) == Occupied(old(grid)) ==> numChamps == Occupied(grid)
    {
      if !IsPositionValid(pos) {
        return Rejected;
      }
      ResidentsPut(grid, pos, Some(champ));
      OccupiedPut(grid, pos, Some(champ));
      if cells[pos.x, pos.y].None? {
        if ChampCount() < maxChamps {
          SetCell(pos, Some(champ));
          return Placed;
        }
        return Rejected;
      }
      var evicted := cells[pos.x, pos.y].value;
      SetCell(pos, Some(champ));
      r := Swapped(evicted);
    }

    /**
     * The scan of `add_champ_from_carousel`: visit every cell, rows from the
     * top y down, each row left to right, and keep the last empty one.
     */
    method FindLastEmpty() returns (pos: Option<Point>)
      requires Valid()
      ensures pos.None? <==> !HasEmpty(grid)
      ensures pos.Some? ==> LastEmptyInScan(grid, pos.value)
    {
      pos := None;
      var y := cells.Length1 - 1;
      while y >= 0
        invariant -1 <= y < cells.Length1
        invariant ScanState(grid, pos, y, 0)
        decreases y + 1
      {
        for x := 0 to cells.Length0
          invariant ScanState(grid, pos, y, x)
        {
          if cells[x, y].None? {
            pos := Some(Point(x, y));
          }
        }
        assert forall q :: InGrid(grid, q) ==> (VisitedBefore(q, y, cells.Length0) <==> VisitedBefore(q, y - 1, 0));
        y := y - 1;
      }
      if pos.Some? {
        assert HasEmpty(grid) by {
          assert InGrid(grid, pos.value) && At(grid, pos.value).None?;
        }
      }
    }

    /**
     * `add_champ_from_carousel(champ)`: put the champion into the empty cell
     * the scan visits last and bump `num_champs`, whatever max_champs is;
     * refuse when no cell is empty.
     */
    method AddChampFromCarousel(champ: Champion) returns (ok: bool)
      requires Valid()
      modifies this, cells
      ensures Valid()
      ensures ok <==> HasEmpty(old(grid))
      ensures ok ==>
        && numChamps == old(numChamps) + 1
        && (exists p :: LastEmptyInScan(old(grid), p) && grid == Put(old(grid), p, Some(champ)))
        && Residents(grid) == Residents(old(grid)) + multiset{champ}
        && Occupied(grid) == Occupied(old(grid)) + 1
      ensures !ok ==> numChamps == old(numChamps) && grid == old(grid)
      ensures old(numChamps) == Occupied(old(grid)) ==> numChamps == Occupied(grid)
    {
      var newPos := FindLastEmpty();
      if newPos.Some? {
        ResidentsPut(grid, newPos.value, Some(champ));
        OccupiedPut(grid, newPos.value, Some(champ));
        numChamps := numChamps + 1;
        SetCell(newPos.value, Some(champ));
        return true;
      }
      return false;
    }

    /** `is_full()`: judged by the stored counter; in step with the cells it means no fresh placement is accepted. */
    predicate IsFull(maxChamps: int)
      reads this, cells
      ensures Valid() && numChamps == Occupied(grid) ==> (IsFull(maxChamps) <==> Occupied(grid) >= maxChamps)
    {
      numChamps >= maxChamps
    }

    /**
     * `move_champ(start, end)`: refused for an invalid position, equal
     * positions or an empty start cell; otherwise the two cells exchange
     * contents, which swaps two champions or moves one into an empty cell.
     */
    method MoveChamp(start: Point, end: Point) returns (ok: bool)
      requires Valid()
      modifies cells, this`grid
      ensures Valid() && numChamps == old(numChamps)
      ensures ok <==> IsPositionValid(start) && IsPositionValid(end) && start != end && At(old(grid), start).Some?
      ensures ok ==> grid == SwapCells(old(grid), start, end)
      ensures !ok ==> grid == old(grid)
      ensures Residents(grid) == Residents(old(grid)) && Occupied(grid) == Occupied(old(grid))
    {
      if !IsPositionValid(start) || !IsPositionValid(end) || start == end {
        return false;
      }
      var champ1 := cells[start.x, start.y];
      var champ2 := cells[end.x, end.y];
      if champ1.None? {
        return false;
      }
      SwapResidents(grid, start, end);
      if champ2.Some? {
        SetCell(start, champ2);
        SetCell(end, champ1);
      } else {
        SetCell(start, None);
        SetCell(end, champ1);
      }
      return true;
    }

    /**
     * `remove_champ(pos)`: nothing for an invalid or empty position;
     * otherwise empty that cell, lower `num_champs` by one and hand back
     * the former occupant.
     */
    method RemoveChamp(pos: Point) returns (r: Option<Champion>)
      requires Valid()
      modifies this, cells
      ensures Valid()
      ensures r.None? <==> !IsPositionValid(pos) || At(old(grid), pos).None?
      ensures r.None? ==> grid == old(grid) && numChamps == old(numChamps)
      ensures r.Some? ==>
        && r == At(old(grid), pos)
        && grid == Put(old(grid), pos, None)
        && numChamps == old(numChamps) - 1
        && Residents(grid) == Residents(old(grid)) - multiset{r.value}
        && Occupied(grid) == Occupied(old(grid)) - 1
      ensures old(numChamps) == Occupied(old(grid)) ==> numChamps == Occupied(grid)
    {
      if !IsPositionValid(pos) {
        return None;
      }
      var champ := cells[pos.x, pos.y];
      if champ.Some? {
        ResidentsPut(grid, pos, None);
        OccupiedPut(grid, pos, None);
        SetCell(pos, None);
        numChamps := numChamps - 1;
        return champ;
      }
      return None;
    }

    /**
     * `add_champ` with the `num_champs += 1` that its fresh placement leaves
     * out: the same cells, and the counter stays in step with them.
     */
    method AddChampCounted(champ: Champion, pos: Point, maxChamps: int) returns (r: Placement)
      requires Valid()
      modifies this, cells
      ensures Valid()
      ensures r == Placed <==> IsPositionValid(pos) && At(old(grid), pos).None? && Occupied(old(grid)) < maxChamps
      ensures r == Rejected ==> grid == old(grid)
      ensures r != Rejected ==> IsPositionValid(pos) && grid == Put(old(grid), pos, Some(champ))
      ensures numChamps == old(numChamps) + (if r == Placed then 1 else 0)
      ensures old(numChamps) == Occupied(old(grid)) ==> numChamps == Occupied(grid)
    {
      r := AddChamp(champ, pos, maxChamps);
      if r == Placed {
        numChamps := numChamps + 1;
      }
    }
  }

  /**
   * add_champ then remove_champ on an empty one-cell board: every cell is
   * empty again, yet `num_champs` reads -1.
   */
  method CounterDrift(champ: Champion) returns (count: int, occupied: nat)
    ensures count == -1 && occupied == 0
  {
    var board := new PlayerBoard(1, 1);
    var placed := board.AddChamp(champ, Point(0, 0), 1);
    var removed := board.RemoveChamp(Point(0, 0));
    count := board.numChamps;
    occupied := board.ChampCount();
  }
}
