/**
 * What the board component's lists look like for the boards the engine
 * produces (8 rows of 8 cells), and how they fit with the Square colouring.
 */
module BoardProperties {
  import opened Wrappers
  import opened Engine
  import opened Board
  import Square

  // ---------------------------------------------------------------------
  // The descriptor list

  /** 64 descriptors, in row-major order with the top row first, occupants copied unchanged. */
  lemma RowMajorOrder(m: Matrix)
    requires IsBoard(m)
    ensures |BoardData(m)| == 64
    ensures forall k :: 0 <= k < 64 ==>
      && BoardData(m)[k].rowIndex == k / 8
      && BoardData(m)[k].columnIndex == k % 8
      && BoardData(m)[k].occupant == m[k / 8][k % 8]
      && BoardData(m)[k].columnName == Some(COLUMN_NAMES[k % 8])
      && BoardData(m)[k].position == [COLUMN_NAMES[k % 8], DigitChar(8 - k / 8)]
  {
    BoardDataRowMajor(m);
  }

  /** The top-left descriptor is "A8" and the bottom-right one "H1"; both squares are WHITE. */
  lemma CornerSquares(m: Matrix)
    requires IsBoard(m)
    ensures |BoardData(m)| == 64
    ensures BoardData(m)[0].position == "A8"
    ensures BoardData(m)[63].position == "H1"
    ensures Square.Render(SquarePropsOf(BoardData(m)[0])) == Square.WHITE
    ensures Square.Render(SquarePropsOf(BoardData(m)[63])) == Square.WHITE
  {
    RowMajorOrder(m);
  }

  /** On the 8x8 board the label determines the square. */
  lemma PositionInjective(r1: nat, c1: nat, r2: nat, c2: nat)
    requires r1 < 8 && c1 < 8 && r2 < 8 && c2 < 8
    requires Position(r1, c1) == Position(r2, c2)
    ensures r1 == r2 && c1 == c2
  {
  }

  /** The 64 labels are pairwise distinct. */
  lemma PositionsDistinct(m: Matrix)
    requires IsBoard(m)
    ensures |BoardData(m)| == 64
    ensures forall i, j :: 0 <= i < j < 64 ==> BoardData(m)[i].position != BoardData(m)[j].position
  {
    RowMajorOrder(m);
    forall i, j | 0 <= i < j < 64
      ensures BoardData(m)[i].position != BoardData(m)[j].position
    {
      if BoardData(m)[i].position == BoardData(m)[j].position {
        PositionInjective(i / 8, i % 8, j / 8, j % 8);
      }
    }
  }

  lemma PositionIsSquareName(rowIndex: nat, columnIndex: nat)
    requires rowIndex < 8 && columnIndex < 8
    ensures Position(rowIndex, columnIndex) in (set f, d | f in COLUMN_NAMES && d in "12345678" :: [f, d])
  {
  }

  lemma SquareOfName(f: char, d: char) returns (rowIndex: nat, columnIndex: nat)
    requires f in COLUMN_NAMES && d in "12345678"
    ensures rowIndex < 8 && columnIndex < 8
    ensures Position(rowIndex, columnIndex) == [f, d]
  {
    columnIndex :| 0 <= columnIndex < 8 && COLUMN_NAMES[columnIndex] == f;
    var i :| 0 <= i < 8 && "12345678"[i] == d;
    rowIndex := 7 - i;
    assert DigitChar(8 - rowIndex) == d;
  }

  /** The labels are exactly the 64 algebraic squares A1 to H8. */
  lemma PositionsSpanBoard(m: Matrix)
    requires IsBoard(m)
    ensures |BoardData(m)| == 64
    ensures (set k | 0 <= k < 64 :: BoardData(m)[k].position)
         == (set f, d | f in COLUMN_NAMES && d in "12345678" :: [f, d])
  {
    BoardDataLength(m);
    var cells := BoardData(m);
    var labels := set k | 0 <= k < 64 :: cells[k].position;
    var squares := set f, d | f in COLUMN_NAMES && d in "12345678" :: [f, d];
    forall p | p in labels ensures p in squares {
      var k :| 0 <= k < 64 && cells[k].position == p;
      BoardDataAt(m, k);
      PositionIsSquareName(k / 8, k % 8);
    }
    forall p | p in squares ensures p in labels {
      var f, d :| f in COLUMN_NAMES && d in "12345678" && p == [f, d];
      var r, c := SquareOfName(f, d);
      var k := 8 * r + c;
      BoardDataAt(m, k);
      assert k / 8 == r && k % 8 == c;
      assert cells[k].position == p;
    }
  }

  /** The column letter is the label's first character and the column label drawn beside that column. */
  lemma ColumnNameLeadsPosition(m: Matrix)
    requires IsBoard(m)
    ensures |BoardData(m)| == 64
    ensures forall k :: 0 <= k < 64 ==>
      && |BoardData(m)[k].position| == 2 && BoardData(m)[k].columnIndex < 8
      && BoardData(m)[k].columnName == Some(BoardData(m)[k].position[0])
      && ColumnLabels()[BoardData(m)[k].columnIndex] == BoardData(m)[k].position[0]
  {
    RowMajorOrder(m);
  }

  /** The rank labels read the same numbers as the labels of the squares in their row. */
  lemma RankLabelsMatchPositions(rowIndex: nat, columnIndex: nat)
    requires rowIndex < 8 && columnIndex < 8
    ensures Position(rowIndex, columnIndex)[1..] == NatToDecimal(RankLabels()[rowIndex])
    ensures 1 <= RankLabels()[rowIndex] <= 8
  {
  }

  // ---------------------------------------------------------------------
  // renderSquares

  /** The Square properties of one matrix row, left to right. */
  function RowSquares(row: seq<Option<Occupant>>, rowIndex: nat): seq<Square.SquareProps>
  {
    seq(|row|, c requires 0 <= c < |row| => SquarePropsOf(MakeCell(row[c], rowIndex, c)))
  }

  lemma {:induction false} RowViewsAppend(a: seq<Cell>, b: seq<Cell>, r: nat)
    ensures RowViews(a + b, r) == RowViews(a, r) + RowViews(b, r)
    decreases |b|
  {
    if b == [] {
      assert a + b == a;
    } else {
      var b' := b[..|b| - 1];
      assert (a + b)[..|a + b| - 1] == a + b';
      RowViewsAppend(a, b', r);
    }
  }

  lemma RowSquaresExtend(row: seq<Option<Occupant>>, rowIndex: nat)
    requires row != []
    ensures RowSquares(row, rowIndex)
         == RowSquares(row[..|row| - 1], rowIndex) + [SquarePropsOf(MakeCell(row[|row| - 1], rowIndex, |row| - 1))]
  {
  }

  lemma {:induction false} RowViewsOfRow(row: seq<Option<Occupant>>, rowIndex: nat, r: nat)
    ensures RowViews(RowCells(row, rowIndex), r) == if rowIndex == r then RowSquares(row, r) else []
    decreases |row|
  {
    if row != [] {
      var n := |row| - 1;
      var row' := row[..n];
      var cells := RowCells(row, rowIndex);
      var last := MakeCell(row[n], rowIndex, n);
      assert cells[..n] == RowCells(row', rowIndex);
      assert cells[n] == last;
      RowViewsOfRow(row', rowIndex, r);
      if rowIndex == r {
        assert RowViews(cells, r) == RowViews(cells[..n], r) + [SquarePropsOf(last)];
        RowSquaresExtend(row, r);
      } else {
        assert RowViews(cells, r) == RowViews(cells[..n], r);
      }
    }
  }

  lemma {:induction false} RowViewsOfBoard(m: Matrix, r: nat)
    ensures RowViews(BoardData(m), r) == if r < |m| then RowSquares(m[r], r) else []
    decreases |m|
  {
    if m != [] {
      var n := |m| - 1;
      RowViewsAppend(BoardData(m[..n]), RowCells(m[n], n), r);
      RowViewsOfBoard(m[..n], r);
      RowViewsOfRow(m[n], n, r);
    }
  }

  lemma {:induction false} RowCountAppend(a: seq<Cell>, b: seq<Cell>)
    ensures RowCount(a + b) == if RowCount(a) > RowCount(b) then RowCount(a) else RowCount(b)
    decreases |b|
  {
    if b == [] {
      assert a + b == a;
    } else {
      var b' := b[..|b| - 1];
      assert (a + b)[..|a + b| - 1] == a + b';
      RowCountAppend(a, b');
    }
  }

  lemma {:induction false} RowCountOfRow(row: seq<Option<Occupant>>, rowIndex: nat)
    ensures RowCount(RowCells(row, rowIndex)) == if row == [] then 0 else rowIndex + 1
    decreases |row|
  {
    if row != [] {
      var row' := row[..|row| - 1];
      assert RowCells(row, rowIndex)[..|row| - 1] == RowCells(row', rowIndex);
      RowCountOfRow(row', rowIndex);
    }
  }

  lemma {:induction false} RowCountOfBoard(m: Matrix)
    requires forall r :: 0 <= r < |m| ==> m[r] != []
    ensures RowCount(BoardData(m)) == |m|
    decreases |m|
  {
    if m != [] {
      var n := |m| - 1;
      RowCountAppend(BoardData(m[..n]), RowCells(m[n], n));
      RowCountOfBoard(m[..n]);
      RowCountOfRow(m[n], n);
    }
  }

  /**
   * For a matrix without empty rows, `renderSquares` yields one row per
   * matrix row, with no holes, and row r lists the Squares of matrix row r
   * from left to right.
   */
  lemma GroupedBoardData(m: Matrix)
    requires forall r :: 0 <= r < |m| ==> m[r] != []
    ensures |Grouped(BoardData(m))| == |m|
    ensures forall r :: 0 <= r < |m| ==> Grouped(BoardData(m))[r] == Some(RowSquares(m[r], r))
  {
    RowCountOfBoard(m);
    forall r | 0 <= r < |m|
      ensures Grouped(BoardData(m))[r] == Some(RowSquares(m[r], r))
    {
      RowViewsOfBoard(m, r);
    }
  }

  /** On the 8x8 board row r of `renderSquares` is descriptors 8r to 8r+7, in column order. */
  lemma GroupedBoard(m: Matrix)
    requires IsBoard(m)
    ensures |BoardData(m)| == 64
    ensures |Grouped(BoardData(m))| == 8
    ensures forall r :: 0 <= r < 8 ==>
      Grouped(BoardData(m))[r].Some? && |Grouped(BoardData(m))[r].value| == 8
    ensures forall r, c :: 0 <= r < 8 && 0 <= c < 8 ==>
      && Grouped(BoardData(m))[r].value[c] == SquarePropsOf(BoardData(m)[8 * r + c])
      && Grouped(BoardData(m))[r].value[c].rowIndex == r
      && Grouped(BoardData(m))[r].value[c].columnIndex == c
  {
    var cells := BoardData(m);
    var rows := Grouped(cells);
    BoardDataLength(m);
    GroupedBoardData(m);
    forall r, c | 0 <= r < 8 && 0 <= c < 8
      ensures rows[r].value[c] == SquarePropsOf(cells[8 * r + c])
      ensures rows[r].value[c].rowIndex == r && rows[r].value[c].columnIndex == c
    {
      var k := 8 * r + c;
      BoardDataAt(m, k);
      assert k / 8 == r && k % 8 == c;
      assert rows[r].value == RowSquares(m[r], r);
      assert rows[r].value[c] == SquarePropsOf(MakeCell(m[r][c], r, c));
    }
  }

  // ---------------------------------------------------------------------
  // renderPieces

  lemma {:induction false} OccupiedCellsAppend(a: seq<Cell>, b: seq<Cell>)
    ensures OccupiedCells(a + b) == OccupiedCells(a) + OccupiedCells(b)
    decreases |b|
  {
    if b == [] {
      assert a + b == a;
    } else {
      var b' := b[..|b| - 1];
      assert (a + b)[..|a + b| - 1] == a + b';
      OccupiedCellsAppend(a, b');
    }
  }

  lemma {:induction false} RowOccupiedCells(row: seq<Option<Occupant>>, rowIndex: nat)
    ensures OccupiedCells(RowCells(row, rowIndex)) == CountSome(row)
    decreases |row|
  {
    if row != [] {
      var n := |row| - 1;
      assert RowCells(row, rowIndex)[..n] == RowCells(row[..n], rowIndex);
      RowOccupiedCells(row[..n], rowIndex);
    }
  }

  /** `renderPieces` emits as many pieces as the matrix has occupied cells. */
  lemma {:induction false} PieceCountIsOccupiedCount(m: Matrix)
    ensures OccupiedCells(BoardData(m)) == OccupiedCount(m)
    ensures CountSome(Pieces(BoardData(m))) == OccupiedCount(m)
    decreases |m|
  {
    if m != [] {
      var n := |m| - 1;
      OccupiedCellsAppend(BoardData(m[..n]), RowCells(m[n], n));
      PieceCountIsOccupiedCount(m[..n]);
      RowOccupiedCells(m[n], n);
    }
  }

  /** On the 8x8 board entry k of `renderPieces` is a piece exactly when square (k/8, k%8) is occupied, and is that piece. */
  lemma PiecesOfBoard(m: Matrix)
    requires IsBoard(m)
    ensures |Pieces(BoardData(m))| == 64
    ensures forall k :: 0 <= k < 64 ==>
      && (Pieces(BoardData(m))[k].Some? <==> m[k / 8][k % 8].Some?)
      && (m[k / 8][k % 8].Some? ==>
            Pieces(BoardData(m))[k].value ==
              PieceProps(m[k / 8][k % 8].value.kind, m[k / 8][k % 8].value.color,
                         k / 8, k % 8, [COLUMN_NAMES[k % 8], DigitChar(8 - k / 8)]))
  {
    RowMajorOrder(m);
  }

  // ---------------------------------------------------------------------
  // Colouring of the board

  /** Square k of the board is WHITE exactly when its row and column sum to an even number. */
  lemma BoardColours(m: Matrix)
    requires IsBoard(m)
    ensures |BoardData(m)| == 64
    ensures forall k :: 0 <= k < 64 ==>
      (Square.Render(SquarePropsOf(BoardData(m)[k])) == Square.WHITE <==> (k / 8 + k % 8) % 2 == 0)
    ensures forall k :: 0 <= k < 63 && k % 8 != 7 ==>
      Square.Render(SquarePropsOf(BoardData(m)[k])) != Square.Render(SquarePropsOf(BoardData(m)[k + 1]))
    ensures forall k :: 0 <= k < 56 ==>
      Square.Render(SquarePropsOf(BoardData(m)[k])) != Square.Render(SquarePropsOf(BoardData(m)[k + 8]))
  {
    var cells := BoardData(m);
    BoardDataLength(m);
    forall k | 0 <= k < 64
      ensures Square.Render(SquarePropsOf(cells[k])) == Square.BackgroundColor(k / 8, k % 8)
    {
      BoardDataAt(m, k);
    }
    forall k | 0 <= k < 63 && k % 8 != 7
      ensures Square.Render(SquarePropsOf(cells[k])) != Square.Render(SquarePropsOf(cells[k + 1]))
    {
      assert (k + 1) / 8 == k / 8 && (k + 1) % 8 == k % 8 + 1;
      Square.NeighboursDiffer(k / 8, k % 8);
    }
    forall k | 0 <= k < 56
      ensures Square.Render(SquarePropsOf(cells[k])) != Square.Render(SquarePropsOf(cells[k + 8]))
    {
      assert (k + 8) / 8 == k / 8 + 1 && (k + 8) % 8 == k % 8;
      Square.NeighboursDiffer(k / 8, k % 8);
    }
  }

  /** Every row and every column of the board has four WHITE and four BLACK squares. */
  lemma RowsAndColumnsBalanced(i: nat)
    requires i < DIMENSION
    ensures Square.CountInRow(i, DIMENSION, Square.WHITE) == 4
    ensures Square.CountInRow(i, DIMENSION, Square.BLACK) == 4
    ensures Square.CountInColumn(i, DIMENSION, Square.WHITE) == 4
    ensures Square.CountInColumn(i, DIMENSION, Square.BLACK) == 4
  {
    Square.RowHalves(i, 4);
    Square.ColumnHalves(i, 4);
  }

  /** Number of Squares in a list that render with `color`. */
  function CountRendered(squares: seq<Square.SquareProps>, color: string): nat
    decreases |squares|
  {
    if squares == [] then 0
    else
      var last := if Square.Render(squares[|squares| - 1]) == color then 1 else 0;
      CountRendered(squares[..|squares| - 1], color) + last
  }

  lemma {:induction false} RowSquaresColours(row: seq<Option<Occupant>>, rowIndex: nat, color: string)
    ensures CountRendered(RowSquares(row, rowIndex), color) == Square.CountInRow(rowIndex, |row|, color)
    decreases |row|
  {
    if row != [] {
      var n := |row| - 1;
      assert RowSquares(row, rowIndex)[..n] == RowSquares(row[..n], rowIndex);
      RowSquaresColours(row[..n], rowIndex, color);
    }
  }

  /** Each of the 8 rows `renderSquares` produces renders 4 WHITE and 4 BLACK Squares. */
  lemma RenderedRowsBalanced(m: Matrix)
    requires IsBoard(m)
    ensures |Grouped(BoardData(m))| == 8
    ensures forall r :: 0 <= r < 8 ==>
      && Grouped(BoardData(m))[r].Some?
      && CountRendered(Grouped(BoardData(m))[r].value, Square.WHITE) == 4
      && CountRendered(Grouped(BoardData(m))[r].value, Square.BLACK) == 4
  {
    GroupedBoardData(m);
    forall r | 0 <= r < 8
      ensures CountRendered(RowSquares(m[r], r), Square.WHITE) == 4
      ensures CountRendered(RowSquares(m[r], r), Square.BLACK) == 4
    {
      RowSquaresColours(m[r], r, Square.WHITE);
      RowSquaresColours(m[r], r, Square.BLACK);
      RowsAndColumnsBalanced(r);
    }
  }
}
