/** Pure view of the Connect-Four board: the cells as rows of chips (row 0 is the
    top), the lines the four win scans walk, what a counter-based scan reports, and
    the gravity invariant that ties the cells to the per-column fill pointers. */
module Grid {
  import Seqs

  /** The content of one cell. `Unset` stands for a cell the plain board
      constructor allocated but never filled (a null reference in the original). */
  datatype Chip = Red | Blue | Empty | Unset {
    /** A chip that a player drops. */
    predicate IsColor() { this == Red || this == Blue }
  }

  function Min(a: int, b: int): int { if a <= b then a else b }

  /** `g` has `rows` rows of `columns` cells each. */
  predicate WellFormed(g: seq<seq<Chip>>, rows: int, columns: int) {
    |g| == rows && forall r :: 0 <= r < rows ==> |g[r]| == columns
  }

  /** The grid after a chip of `color` has been written at (row, column). */
  function Dropped(g: seq<seq<Chip>>, row: int, column: int, color: Chip): (h: seq<seq<Chip>>)
    requires 0 <= row < |g| && 0 <= column < |g[row]|
    ensures |h| == |g| && (forall r :: 0 <= r < |g| ==> |h[r]| == |g[r]|) && h[row][column] == color
    ensures forall r, c :: 0 <= r < |g| && 0 <= c < |g[r]| && (r, c) != (row, column) ==> h[r][c] == g[r][c]
  {
    g[row := g[row][column := color]]
  }

  /** Two grids of the same shape with the same cells are the same grid. */
  lemma SameCells(g: seq<seq<Chip>>, h: seq<seq<Chip>>, rows: int, columns: int)
    requires WellFormed(g, rows, columns) && WellFormed(h, rows, columns)
    requires forall r, c :: 0 <= r < rows && 0 <= c < columns ==> g[r][c] == h[r][c]
    ensures g == h
  {
    forall r | 0 <= r < rows ensures g[r] == h[r] {
    }
  }

  // ---------------------------------------------------------------------------
  // Lines through the board

  /** The four scan directions: along a row, down a column, down-right, up-right. */
  datatype Direction = East | South | SouthEast | NorthEast

  /** The i-th cell of the line that starts at (r0, c0) and walks in direction `d`. */
  function At(d: Direction, r0: int, c0: int, i: int): (int, int) {
    match d
    case East => (r0, c0 + i)
    case South => (r0 + i, c0)
    case SouthEast => (r0 + i, c0 + i)
    case NorthEast => (r0 - i, c0 + i)
  }

  predicate InBoard(rows: int, columns: int, p: (int, int)) {
    0 <= p.0 < rows && 0 <= p.1 < columns
  }

  /** The cell p exists and holds `color`. */
  predicate CellIs(g: seq<seq<Chip>>, columns: int, p: (int, int), color: Chip)
    requires WellFormed(g, |g|, columns)
  {
    InBoard(|g|, columns, p) && g[p.0][p.1] == color
  }

  predicate LineInBoard(rows: int, columns: int, d: Direction, r0: int, c0: int, len: nat) {
    forall i :: 0 <= i < len ==> InBoard(rows, columns, At(d, r0, c0, i))
  }

  /** The `len` cells of the line from (r0, c0) in direction `d`. */
  function Line(g: seq<seq<Chip>>, columns: int, d: Direction, r0: int, c0: int, len: nat): seq<Chip>
    requires WellFormed(g, |g|, columns) && LineInBoard(|g|, columns, d, r0, c0, len)
  {
    seq(len, i requires 0 <= i < len => g[At(d, r0, c0, i).0][At(d, r0, c0, i).1])
  }

  /** The whole row `row`, left to right (the horizontal scan). */
  function RowLine(g: seq<seq<Chip>>, columns: int, row: int): seq<Chip>
    requires WellFormed(g, |g|, columns) && 0 <= row < |g|
  {
    Line(g, columns, East, row, 0, if columns < 0 then 0 else columns)
  }

  /** The whole column `column`, top to bottom (the vertical scan). */
  function ColumnLine(g: seq<seq<Chip>>, columns: int, column: int): seq<Chip>
    requires WellFormed(g, |g|, columns) && 0 <= column < columns
  {
    Line(g, columns, South, 0, column, |g|)
  }

  /** Start and length of the down-right window the forward-diagonal scan walks
      for the cell (row, column): it starts on the board edge up-left of the cell
      and stops at the board edge or three cells past the cell, whichever comes
      first. The cell itself is the window's cell number Min(row, column). */
  function ForwardWindow(rows: int, columns: int, row: int, column: int): (w: (int, int, nat))
    requires 0 <= row < rows && 0 <= column < columns
    ensures LineInBoard(rows, columns, SouthEast, w.0, w.1, w.2)
    ensures Min(row, column) < w.2 && At(SouthEast, w.0, w.1, Min(row, column)) == (row, column)
  {
    var d := Min(row, column);
    (row - d, column - d, Min(Min(rows - row + d, columns - column + d), d + 4))
  }

  /** Start and length of the up-right window the backward-diagonal scan walks for
      the cell (row, column): it starts on the board edge down-left of the cell and
      stops at the board edge or three cells past the cell. The cell itself is the
      window's cell number Min(rows - row - 1, column). */
  function BackwardWindow(rows: int, columns: int, row: int, column: int): (w: (int, int, nat))
    requires 0 <= row < rows && 0 <= column < columns
    ensures LineInBoard(rows, columns, NorthEast, w.0, w.1, w.2)
    ensures Min(rows - row - 1, column) < w.2 && At(NorthEast, w.0, w.1, Min(rows - row - 1, column)) == (row, column)
  {
    var d := Min(rows - row - 1, column);
    (row + d, column - d, Min(Min(row + d + 1, columns - column + d), d + 4))
  }

  function ForwardLine(g: seq<seq<Chip>>, columns: int, row: int, column: int): seq<Chip>
    requires WellFormed(g, |g|, columns) && 0 <= row < |g| && 0 <= column < columns
  {
    var w := ForwardWindow(|g|, columns, row, column);
    Line(g, columns, SouthEast, w.0, w.1, w.2)
  }

  function BackwardLine(g: seq<seq<Chip>>, columns: int, row: int, column: int): seq<Chip>
    requires WellFormed(g, |g|, columns) && 0 <= row < |g| && 0 <= column < columns
  {
    var w := BackwardWindow(|g|, columns, row, column);
    Line(g, columns, NorthEast, w.0, w.1, w.2)
  }

  // ---------------------------------------------------------------------------
  // Runs and what a counter-based scan reports

  /** How a scan compares its running counter with the run length: the row and
      column scans stop when the counter equals it, the diagonal scans when the
      counter reaches it. */
  datatype Comparison = Exact | AtLeast

  /** Cells lo .. hi-1 of `line` all hold `color`. */
  predicate AllOf(line: seq<Chip>, lo: int, hi: int, color: Chip)
    requires 0 <= lo <= hi <= |line|
  {
    forall j :: lo <= j < hi ==> line[j] == color
  }

  /** Cells s .. s+k-1 of `line` exist and all hold `color`. */
  predicate RunAt(line: seq<Chip>, color: Chip, k: int, s: int) {
    0 <= s && 0 <= k && s + k <= |line| && AllOf(line, s, s + k, color)
  }

  /** `line` holds `k >= 1` consecutive cells of `color`. */
  predicate HasRun(line: seq<Chip>, color: Chip, k: int) {
    k >= 1 && exists s :: 0 <= s <= |line| && RunAt(line, color, k, s)
  }

  /** No run of k `color` cells ends before position i. */
  predicate NoRunBefore(line: seq<Chip>, color: Chip, k: int, i: int) {
    forall s :: 0 <= s && s + k <= i ==> !RunAt(line, color, k, s)
  }

  /** What a left-to-right scan that counts consecutive `color` cells (resetting on
      any other cell) reports. For k >= 1 either comparison stops exactly when a run
      of k is complete. For k <= 0 the counter (at least 1 when compared) never
      equals k, while it reaches k at the first `color` cell. */
  predicate ScanFinds(line: seq<Chip>, color: Chip, k: int, cmp: Comparison) {
    if k >= 1 then HasRun(line, color, k) else cmp == AtLeast && color in line
  }

  /** Whether a scan's counter stops it: equal to k (Exact) or at least k (AtLeast). */
  function Reaches(counter: int, k: int, cmp: Comparison): bool {
    match cmp
    case Exact => counter == k
    case AtLeast => counter >= k
  }

  /** What holds after a scan has looked at the first i cells of `line` without
      stopping: `counter` is the length of the run of `color` ending at i, no run of k
      has been completed (nor, for AtLeast and k <= 0, any `color` cell seen). */
  predicate ScanState(line: seq<Chip>, color: Chip, k: int, cmp: Comparison, i: int, counter: int) {
    && 0 <= counter <= i <= |line|
    && AllOf(line, i - counter, i, color)
    && (counter < i ==> line[i - counter - 1] != color)
    && (k >= 1 ==> counter < k && NoRunBefore(line, color, k, i))
    && (k < 1 && cmp == AtLeast ==> color !in line[..i])
  }

  /** One step of the scan: a `color` cell that makes the counter reach k means the
      scan's answer is yes; otherwise the counter grows by one on a `color` cell and
      drops to 0 on any other cell, and the state carries over to i + 1. */
  lemma ScanStep(line: seq<Chip>, color: Chip, k: int, cmp: Comparison, i: int, counter: int)
    requires ScanState(line, color, k, cmp, i, counter) && i < |line|
    ensures line[i] == color && Reaches(counter + 1, k, cmp) ==> ScanFinds(line, color, k, cmp)
    ensures line[i] == color && !Reaches(counter + 1, k, cmp) ==> ScanState(line, color, k, cmp, i + 1, counter + 1)
    ensures line[i] != color ==> ScanState(line, color, k, cmp, i + 1, 0)
  {
    assert line[..i + 1] == line[..i] + [line[i]];
    if line[i] == color && Reaches(counter + 1, k, cmp) {
      if k >= 1 {
        assert RunAt(line, color, k, i + 1 - k);
      }
    } else if k >= 1 {
      forall s | 0 <= s && s + k == i + 1 ensures !RunAt(line, color, k, s) {
        if line[i] == color {
          assert s <= i - counter - 1 && line[i - counter - 1] != color;
        }
      }
    }
  }

  /** A scan that reaches the end of the line without stopping answers no. */
  lemma ScanEnd(line: seq<Chip>, color: Chip, k: int, cmp: Comparison, counter: int)
    requires ScanState(line, color, k, cmp, |line|, counter)
    ensures !ScanFinds(line, color, k, cmp)
  {
    assert line[..|line|] == line;
  }

  /** What the win check reports for the cell (row, column): a scan of the whole row,
      of the whole column, and of the two clipped diagonal windows through the cell. */
  predicate WinningMove(g: seq<seq<Chip>>, columns: int, k: int, row: int, column: int, color: Chip)
    requires WellFormed(g, |g|, columns) && 0 <= row < |g| && 0 <= column < columns
  {
    || ScanFinds(RowLine(g, columns, row), color, k, Exact)
    || ScanFinds(ColumnLine(g, columns, column), color, k, Exact)
    || ScanFinds(ForwardLine(g, columns, row, column), color, k, AtLeast)
    || ScanFinds(BackwardLine(g, columns, row, column), color, k, AtLeast)
  }

  /** What the one-ply look-ahead reports: false on a full column, otherwise the win
      check on the grid with the chip dropped onto the column. */
  predicate LookAheadWins(g: seq<seq<Chip>>, columns: int, next: seq<int>, k: int, column: int, color: Chip)
    requires WellFormed(g, |g|, columns) && |next| == columns && 0 <= column < columns
    requires forall c :: 0 <= c < columns ==> next[c] < |g|
  {
    next[column] >= 0 &&
    WinningMove(Dropped(g, next[column], column, color), columns, k, next[column], column, color)
  }

  // ---------------------------------------------------------------------------
  // Gravity: the fill pointers against the cells

  /** Every pointer is in -1 .. rows-1; in each column the rows at or above the
      pointer are Empty and the rows below it hold a player's chip. */
  predicate Gravity(g: seq<seq<Chip>>, columns: int, next: seq<int>)
    requires WellFormed(g, |g|, columns) && |next| == columns
  {
    && (forall c :: 0 <= c < columns ==> -1 <= next[c] < |g|)
    && (forall r, c :: 0 <= r < |g| && 0 <= c < columns ==>
          (r <= next[c] ==> g[r][c] == Empty) && (next[c] < r ==> g[r][c].IsColor()))
  }

  /** The number of free spots the pointers describe: next[c] + 1 per column. */
  function FreeCount(next: seq<int>): int {
    if next == [] then 0 else FreeCount(next[..|next| - 1]) + next[|next| - 1] + 1
  }

  /** The number of Empty cells in the first n columns. */
  function EmptyCount(g: seq<seq<Chip>>, columns: int, n: int): nat
    requires WellFormed(g, |g|, columns) && 0 <= n <= columns
  {
    if n == 0 then 0 else EmptyCount(g, columns, n - 1) + Seqs.Count(ColumnLine(g, columns, n - 1), Empty)
  }

  function EmptyGrid(rows: nat, columns: nat): (g: seq<seq<Chip>>)
    ensures WellFormed(g, rows, columns)
  {
    seq(rows, _ => seq(columns, _ => Empty))
  }

  /** A column whose top p+1 cells are Empty and whose other cells are not has
      exactly p+1 Empty cells. */
  lemma {:induction false} ColumnEmptyCount(s: seq<Chip>, p: int)
    requires -1 <= p < |s|
    requires forall i :: 0 <= i <= p ==> s[i] == Empty
    requires forall i :: p < i < |s| ==> s[i] != Empty
    ensures Seqs.Count(s, Empty) == p + 1
  {
    assert s == s[..p + 1] + s[p + 1..];
    Seqs.CountAppend(s[..p + 1], s[p + 1..], Empty);
    Seqs.CountAll(s[..p + 1], Empty);
    assert Empty !in s[p + 1..];
  }

  /** Under gravity a column holds next[c] + 1 Empty cells. */
  lemma GravityColumn(g: seq<seq<Chip>>, columns: int, next: seq<int>, c: int)
    requires WellFormed(g, |g|, columns) && |next| == columns && Gravity(g, columns, next)
    requires 0 <= c < columns
    ensures Seqs.Count(ColumnLine(g, columns, c), Empty) == next[c] + 1
  {
    var s := ColumnLine(g, columns, c);
    forall i | 0 <= i < |s|
      ensures s[i] == g[i][c]
    {
      assert At(South, 0, c, i) == (i, c);
    }
    ColumnEmptyCount(s, next[c]);
  }

  /** Under gravity the free-spot count of the pointers is the number of Empty cells. */
  lemma {:induction false} GravityCountsEmpty(g: seq<seq<Chip>>, columns: int, next: seq<int>, n: int)
    requires WellFormed(g, |g|, columns) && |next| == columns && Gravity(g, columns, next)
    requires 0 <= n <= columns
    ensures EmptyCount(g, columns, n) == FreeCount(next[..n])
  {
    if n > 0 {
      GravityCountsEmpty(g, columns, next, n - 1);
      assert next[..n][..n - 1] == next[..n - 1];
      GravityColumn(g, columns, next, n - 1);
    }
  }

  /** Dropping one chip removes exactly one free spot. */
  lemma {:induction false} FreeCountDecrement(next: seq<int>, c: int)
    requires 0 <= c < |next|
    ensures FreeCount(next[c := next[c] - 1]) == FreeCount(next) - 1
  {
    var m := next[c := next[c] - 1];
    if c < |next| - 1 {
      assert m[..|m| - 1] == next[..|next| - 1][c := next[c] - 1];
      FreeCountDecrement(next[..|next| - 1], c);
    } else {
      assert m[..|m| - 1] == next[..|next| - 1];
    }
  }

  /** With every pointer at least -1, no spot is free exactly when every column is full. */
  lemma {:induction false} FreeCountZero(next: seq<int>)
    requires forall c :: 0 <= c < |next| ==> next[c] >= -1
    ensures FreeCount(next) >= 0
    ensures FreeCount(next) == 0 <==> forall c :: 0 <= c < |next| ==> next[c] == -1
  {
    if next != [] {
      var front := next[..|next| - 1];
      FreeCountZero(front);
      if FreeCount(next) == 0 {
        forall c | 0 <= c < |next| ensures next[c] == -1 {
          if c < |next| - 1 { assert next[c] == front[c]; }
        }
      }
    }
  }

  /** A fresh board of `rows` rows has rows free spots in each column. */
  lemma {:induction false} FreeCountUniform(n: nat, rows: int)
    ensures FreeCount(seq(n, _ => rows - 1)) == n * rows
  {
    if n > 0 {
      assert seq(n, _ => rows - 1)[..n - 1] == seq(n - 1, _ => rows - 1);
      FreeCountUniform(n - 1, rows);
    }
  }

  /** Dropping a player's chip onto an available column keeps gravity. */
  lemma DropKeepsGravity(g: seq<seq<Chip>>, columns: int, next: seq<int>, column: int, color: Chip)
    requires WellFormed(g, |g|, columns) && |next| == columns && Gravity(g, columns, next)
    requires 0 <= column < columns && next[column] >= 0 && color.IsColor()
    ensures WellFormed(Dropped(g, next[column], column, color), |g|, columns)
    ensures Gravity(Dropped(g, next[column], column, color), columns, next[column := next[column] - 1])
  {
  }

  /** Dropping a player's chip onto a column with room keeps the pointers in step
      with the cells and the counter in step with the pointers. */
  lemma DropKeepsInitialised(g: seq<seq<Chip>>, columns: int, next: seq<int>, column: int, color: Chip, spots: int)
    requires WellFormed(g, |g|, columns) && |next| == columns && Gravity(g, columns, next) && spots == FreeCount(next)
    requires 0 <= column < columns && next[column] >= 0 && color.IsColor()
    ensures WellFormed(Dropped(g, next[column], column, color), |g|, columns)
    ensures Gravity(Dropped(g, next[column], column, color), columns, next[column := next[column] - 1])
    ensures spots - 1 == FreeCount(next[column := next[column] - 1])
  {
    DropKeepsGravity(g, columns, next, column, color);
    FreeCountDecrement(next, column);
  }

  // ---------------------------------------------------------------------------
  // Properties of the win check

  /** The k cells from p on in direction d all exist and hold `color`. */
  predicate RunOnBoard(g: seq<seq<Chip>>, columns: int, d: Direction, p: (int, int), color: Chip, k: int)
    requires WellFormed(g, |g|, columns)
  {
    forall t :: 0 <= t < k ==> CellIs(g, columns, At(d, p.0, p.1, t), color)
  }

  /** A run on a scanned line is a run of cells on the board: it starts on the same
      line, numbered from any cell (ar, ac) of it. */
  lemma RunOnLine(g: seq<seq<Chip>>, columns: int, d: Direction, r0: int, c0: int, len: nat,
                  color: Chip, k: int, ar: int, ac: int, i0: int)
    requires WellFormed(g, |g|, columns) && LineInBoard(|g|, columns, d, r0, c0, len)
    requires At(d, r0, c0, i0) == (ar, ac)
    requires HasRun(Line(g, columns, d, r0, c0, len), color, k)
    ensures exists s :: RunOnBoard(g, columns, d, At(d, ar, ac, s), color, k)
  {
    var line := Line(g, columns, d, r0, c0, len);
    var s :| 0 <= s <= |line| && RunAt(line, color, k, s);
    var p := At(d, ar, ac, s - i0);
    forall t | 0 <= t < k ensures CellIs(g, columns, At(d, p.0, p.1, t), color) {
      assert line[s + t] == color;
      assert At(d, p.0, p.1, t) == At(d, r0, c0, s + t);
    }
    assert RunOnBoard(g, columns, d, p, color, k);
  }

  /** A reported win is a real run on the board: for k >= 1 there are k consecutive
      cells of the colour in the cell's row, in its column, or on one of its two
      diagonals; for k <= 0 the row and column scans never report and a diagonal
      report means the colour occurs in that window. */
  lemma WinningMoveSound(g: seq<seq<Chip>>, columns: int, k: int, row: int, column: int, color: Chip)
    requires WellFormed(g, |g|, columns) && 0 <= row < |g| && 0 <= column < columns
    requires WinningMove(g, columns, k, row, column, color)
    ensures k >= 1 ==>
      || (exists s :: RunOnBoard(g, columns, East, At(East, row, 0, s), color, k))
      || (exists s :: RunOnBoard(g, columns, South, At(South, 0, column, s), color, k))
      || (exists s :: RunOnBoard(g, columns, SouthEast, At(SouthEast, row, column, s), color, k))
      || (exists s :: RunOnBoard(g, columns, NorthEast, At(NorthEast, row, column, s), color, k))
    ensures k <= 0 ==> color in ForwardLine(g, columns, row, column) || color in BackwardLine(g, columns, row, column)
  {
    if k >= 1 {
      if ScanFinds(RowLine(g, columns, row), color, k, Exact) {
        RunOnLine(g, columns, East, row, 0, if columns < 0 then 0 else columns, color, k, row, 0, 0);
      } else if ScanFinds(ColumnLine(g, columns, column), color, k, Exact) {
        RunOnLine(g, columns, South, 0, column, |g|, color, k, 0, column, 0);
      } else if ScanFinds(ForwardLine(g, columns, row, column), color, k, AtLeast) {
        var w := ForwardWindow(|g|, columns, row, column);
        RunOnLine(g, columns, SouthEast, w.0, w.1, w.2, color, k, row, column, Min(row, column));
      } else {
        var w := BackwardWindow(|g|, columns, row, column);
        RunOnLine(g, columns, NorthEast, w.0, w.1, w.2, color, k, row, column, Min(|g| - row - 1, column));
      }
    }
  }

  /** The forward-diagonal window covers every run of at most four chips down-right
      through the cell: if the cells At(SouthEast, row, column, t) = (row + t, column + t), s <= t < s + k, all hold
      `color` and the run contains the cell (s <= 0 < s + k), the scan reports it. */
  lemma {:induction false} ForwardScanFindsShortRuns(g: seq<seq<Chip>>, columns: int, row: int, column: int, color: Chip, k: int, s: int)
    requires WellFormed(g, |g|, columns) && 0 <= row < |g| && 0 <= column < columns
    requires 1 <= k <= 4 && s <= 0 < s + k
    requires forall t :: s <= t < s + k ==> CellIs(g, columns, At(SouthEast, row, column, t), color)
    ensures ScanFinds(ForwardLine(g, columns, row, column), color, k, AtLeast)
  {
    var w := ForwardWindow(|g|, columns, row, column);
    var d := Min(row, column);
    var line := ForwardLine(g, columns, row, column);
    assert CellIs(g, columns, At(SouthEast, row, column, s), color);
    assert CellIs(g, columns, At(SouthEast, row, column, s + k - 1), color);
    assert 0 <= s + d && s + d + k <= |line|;
    forall j | s + d <= j < s + d + k ensures line[j] == color {
      assert At(SouthEast, w.0, w.1, j) == (row + (j - d), column + (j - d));
      assert CellIs(g, columns, At(SouthEast, row, column, j - d), color);
    }
    assert RunAt(line, color, k, s + d);
  }

  /** The same for the up-right diagonal: a run of at most four chips on the cells
      At(NorthEast, row, column, t) = (row - t, column + t),
      s <= t < s + k,, containing the cell is reported. */
  lemma {:induction false} BackwardScanFindsShortRuns(g: seq<seq<Chip>>, columns: int, row: int, column: int, color: Chip, k: int, s: int)
    requires WellFormed(g, |g|, columns) && 0 <= row < |g| && 0 <= column < columns
    requires 1 <= k <= 4 && s <= 0 < s + k
    requires forall t :: s <= t < s + k ==> CellIs(g, columns, At(NorthEast, row, column, t), color)
    ensures ScanFinds(BackwardLine(g, columns, row, column), color, k, AtLeast)
  {
    var w := BackwardWindow(|g|, columns, row, column);
    var d := Min(|g| - row - 1, column);
    var line := BackwardLine(g, columns, row, column);
    assert CellIs(g, columns, At(NorthEast, row, column, s), color);
    assert CellIs(g, columns, At(NorthEast, row, column, s + k - 1), color);
    assert 0 <= s + d && s + d + k <= |line|;
    forall j | s + d <= j < s + d + k ensures line[j] == color {
      assert At(NorthEast, w.0, w.1, j) == (row - (j - d), column + (j - d));
      assert CellIs(g, columns, At(NorthEast, row, column, j - d), color);
    }
    assert RunAt(line, color, k, s + d);
  }

  /** A full 5 x 5 board whose main diagonal is Red and whose other cells are Blue. */
  function DiagonalBoard(): (g: seq<seq<Chip>>)
    ensures WellFormed(g, 5, 5)
  {
    [ [Red, Blue, Blue, Blue, Blue],
      [Blue, Red, Blue, Blue, Blue],
      [Blue, Blue, Red, Blue, Blue],
      [Blue, Blue, Blue, Red, Blue],
      [Blue, Blue, Blue, Blue, Red] ]
  }

  /** The board above is a full board that satisfies gravity: every pointer is -1. */
  lemma DiagonalBoardGravity()
    ensures Gravity(DiagonalBoard(), 5, [-1, -1, -1, -1, -1])
  {
  }

  /** The window stops three cells past the cell whatever the run length, so a
      longer diagonal run through the cell can go unreported. On the full board
      above, with Red just dropped into the top of column 0 (its pointer now -1) and
      five needed to win, the win check reports no win although five Red chips lie on
      the diagonal through that cell. */
  lemma DiagonalWindowMissesRunOfFive()
    ensures HasRun(Line(DiagonalBoard(), 5, SouthEast, 0, 0, 5), Red, 5)
    ensures !WinningMove(DiagonalBoard(), 5, 5, 0, 0, Red)
  {
    DiagonalBoardMainDiagonal();
    DiagonalBoardRowScan();
    DiagonalBoardColumnScan();
    DiagonalBoardForwardScan();
    DiagonalBoardBackwardScan();
  }

  lemma DiagonalBoardMainDiagonal()
    ensures HasRun(Line(DiagonalBoard(), 5, SouthEast, 0, 0, 5), Red, 5)
  {
    var line := Line(DiagonalBoard(), 5, SouthEast, 0, 0, 5);
    assert line == [Red, Red, Red, Red, Red];
    assert RunAt(line, Red, 5, 0);
  }

  lemma DiagonalBoardRowScan()
    ensures !ScanFinds(RowLine(DiagonalBoard(), 5, 0), Red, 5, Exact)
  {
    var row := RowLine(DiagonalBoard(), 5, 0);
    assert |row| == 5 && row[1] == Blue;
    assert !RunAt(row, Red, 5, 0);
  }

  lemma DiagonalBoardColumnScan()
    ensures !ScanFinds(ColumnLine(DiagonalBoard(), 5, 0), Red, 5, Exact)
  {
    var col := ColumnLine(DiagonalBoard(), 5, 0);
    assert |col| == 5 && col[1] == Blue;
    assert !RunAt(col, Red, 5, 0);
  }

  lemma DiagonalBoardForwardScan()
    ensures !ScanFinds(ForwardLine(DiagonalBoard(), 5, 0, 0), Red, 5, AtLeast)
  {
    assert |ForwardLine(DiagonalBoard(), 5, 0, 0)| == 4;
  }

  lemma DiagonalBoardBackwardScan()
    ensures !ScanFinds(BackwardLine(DiagonalBoard(), 5, 0, 0), Red, 5, AtLeast)
  {
    assert BackwardWindow(5, 5, 0, 0) == (0, 0, 1);
  }
}
