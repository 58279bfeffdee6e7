/** The logical Connect-Four board: a rows x columns array of chips, one fill pointer
    per column (the next row a dropped chip lands in, -1 once the column is full) and
    a counter of free spots. */
module ConnectFourGameBoard {
  import opened Grid
  import opened Outcomes

  class GameBoard {
    const rows: int
    const columns: int
    const numToWin: int
    const grid: array2<Chip>
    const next: array<int>
    var spots: int

    /** The shape invariant every board keeps from construction on. */
    ghost predicate Valid()
      reads this, next
    {
      && rows >= 1 && columns >= 0
      && grid.Length0 == rows && grid.Length1 == columns && next.Length == columns
      && (forall c :: 0 <= c < columns ==> -1 <= next[c] < rows)
      && (columns == 0 ==> spots == 0)
    }

    /** The cells, row by row. */
    ghost function Cells(): (g: seq<seq<Chip>>)
      reads grid
      requires rows >= 0 && grid.Length0 == rows && grid.Length1 == columns
      ensures WellFormed(g, rows, columns)
    {
      seq(rows, r requires 0 <= r < rows reads grid =>
        seq(columns, c requires 0 <= c < columns reads grid => grid[r, c]))
    }

    /** A board that has been set up for play: the pointers agree with the cells and
        the counter equals the number of free spots. */
    ghost predicate Initialised()
      reads this, grid, next
      requires Valid()
    {
      Gravity(Cells(), columns, next[..]) && spots == FreeCount(next[..])
    }

    /** A board of the given size whose cells are not yet set (every pointer 0). */
    constructor (rows: int, columns: int, numToWin: int)
      requires rows >= 1 && columns >= 0
      ensures Valid() && fresh(grid) && fresh(next)
      ensures this.rows == rows && this.columns == columns && this.numToWin == numToWin
      ensures Cells() == seq(rows, _ => seq(columns, _ => Unset))
      ensures next[..] == seq(columns, _ => 0) && spots == 0
    {
      this.rows := rows;
      this.columns := columns;
      this.numToWin := numToWin;
      grid := new Chip[rows, columns]((_, _) => Unset);
      next := new int[columns](_ => 0);
      spots := 0;
      new;
      SameCells(Cells(), seq(rows, _ => seq(columns, _ => Unset)), rows, columns);
    }

    /** A deep copy of `from`: same size, cells, pointers and counter, in new arrays. */
    constructor Copy(from: GameBoard)
      requires from.Valid()
      ensures Valid() && fresh(grid) && fresh(next)
      ensures rows == from.rows && columns == from.columns && numToWin == from.numToWin
      ensures Cells() == from.Cells() && next[..] == from.next[..] && spots == from.spots
    {
      var g := new Chip[from.rows, from.columns];
      var n := new int[from.columns];
      for col := 0 to from.columns
        invariant forall c :: 0 <= c < col ==> n[c] == from.next[c]
        invariant forall r, c :: 0 <= r < from.rows && 0 <= c < col ==> g[r, c] == from.grid[r, c]
      {
        CopyColumn(from, g, col);
        n[col] := from.next[col];
      }
      rows := from.rows;
      columns := from.columns;
      numToWin := from.numToWin;
      spots := from.spots;
      grid := g;
      next := n;
      new;
      assert next[..] == from.next[..];
      SameCells(Cells(), from.Cells(), rows, columns);
    }

    /** The inner loop of the copy: one column of the source's cells into `g`. */
    static method CopyColumn(from: GameBoard, g: array2<Chip>, col: int)
      requires from.Valid() && g != from.grid
      requires g.Length0 == from.rows && g.Length1 == from.columns && 0 <= col < from.columns
      modifies g
      ensures forall r, c :: 0 <= r < from.rows && 0 <= c < from.columns && c != col ==> g[r, c] == old(g[r, c])
      ensures forall r :: 0 <= r < from.rows ==> g[r, col] == from.grid[r, col]
    {
      for row := 0 to from.rows
        invariant forall r, c :: 0 <= r < from.rows && 0 <= c < from.columns && c != col ==> g[r, c] == old(g[r, c])
        invariant forall r :: 0 <= r < row ==> g[r, col] == from.grid[r, col]
      {
        g[row, col] := from.GetChipAt(row, col);
      }
    }

    /** Empties every cell, puts every pointer on the bottom row and sets the counter
        to rows * columns (the counter is only written inside the column loop, so a
        board without columns keeps its counter, which is then 0). */
    method SetGameBoard()
      requires Valid()
      modifies this, grid, next
      ensures Valid() && Initialised()
      ensures Cells() == EmptyGrid(rows, columns)
      ensures next[..] == seq(columns, _ => rows - 1)
      ensures spots == columns * rows
    {
      for j := 0 to columns
        invariant forall r, c :: 0 <= r < rows && 0 <= c < j ==> grid[r, c] == Empty
        invariant forall c :: 0 <= c < j ==> next[c] == rows - 1
        invariant forall c :: j <= c < columns ==> next[c] == old(next[c])
        invariant spots == if j == 0 then old(spots) else columns * rows
      {
        for i := 0 to rows
          invariant forall r, c :: 0 <= r < rows && 0 <= c < j ==> grid[r, c] == Empty
          invariant forall r :: 0 <= r < i ==> grid[r, j] == Empty
          invariant forall c :: 0 <= c < j ==> next[c] == rows - 1
          invariant forall c :: j <= c < columns ==> next[c] == old(next[c])
        {
          grid[i, j] := Empty;
        }
        next[j] := rows - 1;
        spots := columns * rows;
      }
      assert next[..] == seq(columns, _ => rows - 1);
      SameCells(Cells(), EmptyGrid(rows, columns), rows, columns);
      FreeCountUniform(columns, rows);
    }

    /** Resetting is setting up again. */
    method ResetGameBoard()
      requires Valid()
      modifies this, grid, next
      ensures Valid() && Initialised()
      ensures Cells() == EmptyGrid(rows, columns)
      ensures next[..] == seq(columns, _ => rows - 1)
      ensures spots == columns * rows
    {
      SetGameBoard();
    }

    /** The row the next chip dropped into `column` lands on; -1 when the column is
        full. */
    function GetNextRowAvailableToFill(column: int): (row: int)
      reads this, next
      requires Valid() && 0 <= column < columns
      ensures -1 <= row < rows
    {
      next[column]
    }

    /** A chip can still be dropped into `column`; on a set-up board this is exactly
        when the top cell of the column is Empty. */
    function IsSpotAvailable(column: int): (r: bool)
      reads this, grid, next
      requires Valid() && 0 <= column < columns
      ensures Initialised() ==> (r <==> Cells()[0][column] == Empty)
    {
      GetNextRowAvailableToFill(column) >= 0
    }

    function GetChipAt(row: int, column: int): (chip: Chip)
      reads this, grid, next
      requires Valid() && 0 <= row < rows && 0 <= column < columns
      ensures chip == Cells()[row][column]
    {
      grid[row, column]
    }

    /** The counter is zero; on a set-up board this is exactly when every column is
        full, and exactly when no cell is Empty. */
    function IsBoardFull(): (r: bool)
      reads this, grid, next
      requires Valid()
      ensures Initialised() ==> (r <==> forall c :: 0 <= c < columns ==> !IsSpotAvailable(c))
      ensures Initialised() ==> (r <==> EmptyCount(Cells(), columns, columns) == 0)
    {
      CounterMeansFreeSpots();
      spots == 0
    }

    /** On a set-up board the counter is never negative, is zero exactly when every
        pointer is -1, and equals the number of Empty cells. */
    lemma CounterMeansFreeSpots()
      requires Valid()
      ensures Initialised() ==> spots >= 0
      ensures Initialised() ==> (spots == 0 <==> forall c :: 0 <= c < columns ==> !IsSpotAvailable(c))
      ensures Initialised() ==> spots == EmptyCount(Cells(), columns, columns)
    {
      if Initialised() {
        FreeCountZero(next[..]);
        assert forall c :: 0 <= c < columns ==> (!IsSpotAvailable(c) <==> next[..][c] == -1);
        GravityCountsEmpty(Cells(), columns, next[..], columns);
        assert next[..][..columns] == next[..];
      }
    }

    function GetNumOfColumns(): (n: int)
      reads this
      ensures n == columns
    {
      columns
    }

    /** Drops `color` onto `column`: if the column has room the chip lands on the
        pointer's row, the pointer moves up one row and one spot fewer is free;
        otherwise nothing changes. Dropping a player's chip keeps a set-up board set up. */
    method InsertChipAt(column: int, color: Chip) returns (inserted: bool)
      requires Valid() && 0 <= column < columns
      modifies this, grid, next
      ensures Valid()
      ensures inserted <==> old(next[column]) >= 0
      ensures inserted ==> Cells() == Dropped(old(Cells()), old(next[column]), column, color)
      ensures inserted ==> next[..] == old(next[..])[column := old(next[column]) - 1]
      ensures inserted ==> spots == old(spots) - 1
      ensures !inserted ==> Cells() == old(Cells()) && next[..] == old(next[..]) && spots == old(spots)
      ensures old(Initialised()) && color.IsColor() ==> Initialised()
    {
      ghost var before := Cells();
      ghost var pointers := next[..];
      ghost var wasInitialised := Initialised();
      if IsSpotAvailable(column) {
        var row := GetNextRowAvailableToFill(column);
        assert row == pointers[column];
        ghost var after := Dropped(before, row, column, color);
        ghost var moved := pointers[column := row - 1];
        ghost var keeps := wasInitialised && color.IsColor();
        if keeps {
          DropKeepsInitialised(before, columns, pointers, column, color, spots);
        }
        PutChip(row, column, color);
        next[column] := row - 1;
        spots := spots - 1;
        assert next[..] == moved;
        assert keeps ==> Gravity(after, columns, moved) && spots == FreeCount(moved);
        inserted := true;
      } else {
        inserted := false;
      }
    }

    /** Writes one cell. */
    method PutChip(row: int, column: int, color: Chip)
      requires Valid() && 0 <= row < rows && 0 <= column < columns
      modifies grid
      ensures Cells() == Dropped(old(Cells()), row, column, color)
    {
      ghost var after := Dropped(Cells(), row, column, color);
      grid[row, column] := color;
      forall r, c | 0 <= r < rows && 0 <= c < columns
        ensures Cells()[r][c] == after[r][c]
      {
        assert Cells()[r][c] == grid[r, c];
      }
      SameCells(Cells(), after, rows, columns);
    }

    /** The scan shared by the four win checks: it walks the `len` cells of the line
        from (r0, c0) in direction `d`, counting consecutive `color` chips and
        resetting on any other chip, and stops with true as soon as the counter
        equals (Exact) or reaches (AtLeast) numToWin. */
    method ScanLine(d: Direction, r0: int, c0: int, len: nat, color: Chip, cmp: Comparison) returns (found: bool)
      requires Valid() && LineInBoard(rows, columns, d, r0, c0, len)
      ensures found == ScanFinds(Line(Cells(), columns, d, r0, c0, len), color, numToWin, cmp)
    {
      ghost var line := Line(Cells(), columns, d, r0, c0, len);
      var counter := 0;
      var i := 0;
      while i < len
        invariant ScanState(line, color, numToWin, cmp, i, counter)
      {
        var p := At(d, r0, c0, i);
        var chip := GetChipAt(p.0, p.1);
        assert chip == line[i];
        ScanStep(line, color, numToWin, cmp, i, counter);
        counter := if chip == color then counter + 1 else 0;
        if chip == color && Reaches(counter, numToWin, cmp) {
          return true;
        }
        i := i + 1;
      }
      ScanEnd(line, color, numToWin, cmp, counter);
      return false;
    }

    /** Scans the whole row for exactly numToWin consecutive chips. */
    method CheckHorizontal(row: int, color: Chip) returns (found: bool)
      requires Valid() && 0 <= row < rows
      ensures found == ScanFinds(RowLine(Cells(), columns, row), color, numToWin, Exact)
    {
      found := ScanLine(East, row, 0, columns, color, Exact);
    }

    /** Scans the whole column for exactly numToWin consecutive chips. */
    method CheckVertical(column: int, color: Chip) returns (found: bool)
      requires Valid() && 0 <= column < columns
      ensures found == ScanFinds(ColumnLine(Cells(), columns, column), color, numToWin, Exact)
    {
      found := ScanLine(South, 0, column, rows, color, Exact);
    }

    /** Scans the down-right diagonal through the cell, from the board edge up-left of
        it to at most three cells past it. */
    method CheckForwardDiagonal(row: int, column: int, color: Chip) returns (found: bool)
      requires Valid() && 0 <= row < rows && 0 <= column < columns
      ensures found == ScanFinds(ForwardLine(Cells(), columns, row, column), color, numToWin, AtLeast)
    {
      var distance := Min(row, column);
      var len := Min(Min(rows - row + distance, columns - column + distance), distance + 4);
      found := ScanLine(SouthEast, row - distance, column - distance, len, color, AtLeast);
    }

    /** Scans the up-right diagonal through the cell, from the board edge down-left of
        it to at most three cells past it. */
    method CheckBackwardDiagonal(row: int, column: int, color: Chip) returns (found: bool)
      requires Valid() && 0 <= row < rows && 0 <= column < columns
      ensures found == ScanFinds(BackwardLine(Cells(), columns, row, column), color, numToWin, AtLeast)
    {
      var distance := Min(rows - row - 1, column);
      var len := Min(Min(row + distance + 1, columns - column + distance), distance + 4);
      found := ScanLine(NorthEast, row + distance, column - distance, len, color, AtLeast);
    }

    /** Whether the chip on top of `column` (the row below the pointer) completes a
        line of `color`; an empty column, whose pointer is on the bottom row, is an
        illegal argument. */
    method IsWinningMove(column: int, color: Chip) returns (r: Result<bool>)
      requires Valid() && 0 <= column < columns
      ensures r.Err? <==> next[column] + 1 >= rows
      ensures r.Err? ==> r.error == IllegalArgument
      ensures r.Ok? ==> r.value == WinningMove(Cells(), columns, numToWin, next[column] + 1, column, color)
    {
      var row := GetNextRowAvailableToFill(column);
      row := row + 1;
      if row >= rows {
        return Err(IllegalArgument);
      }
      var won := CheckHorizontal(row, color);
      if !won {
        won := CheckVertical(column, color);
      }
      if !won {
        won := CheckForwardDiagonal(row, column, color);
      }
      if !won {
        won := CheckBackwardDiagonal(row, column, color);
      }
      return Ok(won);
    }

    /** One-ply look-ahead: drops `color` onto `column` of a copy of the board and asks
        the copy whether that drop wins. The board itself does not change. */
    method CheckIfWinningMove(column: int, color: Chip) returns (wins: bool)
      requires Valid() && 0 <= column < columns
      ensures wins == LookAheadWins(Cells(), columns, next[..], numToWin, column, color)
    {
      var copy := new GameBoard.Copy(this);
      wins := copy.DropAndCheck(column, color);
    }

    /** The look-ahead's work on the copy: drop the chip, then run the win check on
        the cell it landed in; a full column is not a win. */
    method DropAndCheck(column: int, color: Chip) returns (wins: bool)
      requires Valid() && 0 <= column < columns
      modifies this, grid, next
      ensures wins == LookAheadWins(old(Cells()), columns, old(next[..]), numToWin, column, color)
    {
      ghost var g := Cells();
      ghost var pointer := next[column];
      var inserted := InsertChipAt(column, color);
      if inserted {
        assert next[column] + 1 == pointer;
        var w := IsWinningMove(column, color);
        wins := w.Ok? && w.value;
      } else {
        wins := false;
      }
    }
  }
}
