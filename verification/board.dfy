/**
 * Model of the list-shaping logic of the board component
 * (src/components/Board.js): the flat list of square descriptors built from
 * the engine's matrix, and the lists the render methods derive from it.
 */
module Board {
  import opened Wrappers
  import opened Engine
  import Square

  const DIMENSION: nat := 8
  const COLUMN_NAMES: seq<char> := ['A', 'B', 'C', 'D', 'E', 'F', 'G', 'H']

  /**
   * One descriptor of the list `createBoardData` returns: the occupant fields
   * spread from the engine cell (absent for `null`), the algebraic label, the
   * column letter and the two indices.
   */
  datatype Cell = Cell(
    occupant: Option<Occupant>,
    position: string,
    columnName: Option<char>,
    rowIndex: nat,
    columnIndex: nat)

  /** What `renderPieces` passes to a Piece (layout size left out). */
  datatype PieceProps = PieceProps(
    kind: PieceType,
    color: PieceColor,
    rowIndex: nat,
    columnIndex: nat,
    position: string)

  /** A matrix of the shape the engine always produces: 8 rows of 8 cells. */
  predicate IsBoard(m: Matrix)
  {
    |m| == DIMENSION && forall r :: 0 <= r < |m| ==> |m[r]| == DIMENSION
  }

  // ---------------------------------------------------------------------
  // Labels: JavaScript's rendering of `${columnName}${DIMENSION - rowIndex}`

  function DigitChar(d: nat): char
    requires d < 10
  {
    "0123456789"[d]
  }

  /** Decimal text of a natural number, without leading zeros. */
  function NatToDecimal(n: nat): string
    decreases n
  {
    if n < 10 then [DigitChar(n)] else NatToDecimal(n / 10) + [DigitChar(n % 10)]
  }

  /** Decimal text of an integer, as JavaScript writes a number into a template. */
  function IntToDecimal(i: int): string
  {
    if i < 0 then "-" + NatToDecimal(-i) else NatToDecimal(i)
  }

  /** `COLUMN_NAMES[columnIndex]`; `None` stands for JavaScript's `undefined`. */
  function ColumnName(columnIndex: nat): Option<char>
  {
    if columnIndex < |COLUMN_NAMES| then Some(COLUMN_NAMES[columnIndex]) else None
  }

  /** How a column name is written into a template string. */
  function ColumnText(name: Option<char>): string
  {
    match name
    case Some(letter) => [letter]
    case None => "undefined"
  }

  /** The position label of the square at (rowIndex, columnIndex). */
  function Position(rowIndex: nat, columnIndex: nat): (p: string)
    ensures rowIndex < DIMENSION && columnIndex < DIMENSION ==>
      p == [COLUMN_NAMES[columnIndex], DigitChar(DIMENSION - rowIndex)]
  {
    ColumnText(ColumnName(columnIndex)) + IntToDecimal(DIMENSION - rowIndex)
  }

  // ---------------------------------------------------------------------
  // createBoardData

  /** The descriptor pushed for `square` at (rowIndex, columnIndex). */
  function MakeCell(square: Option<Occupant>, rowIndex: nat, columnIndex: nat): Cell
  {
    Cell(square, Position(rowIndex, columnIndex), ColumnName(columnIndex), rowIndex, columnIndex)
  }

  /** The descriptors of one row, left to right. */
  function RowCells(row: seq<Option<Occupant>>, rowIndex: nat): seq<Cell>
  {
    seq(|row|, c requires 0 <= c < |row| => MakeCell(row[c], rowIndex, c))
  }

  /** The descriptor list of a whole matrix: its rows' descriptors, top row first. */
  function BoardData(m: Matrix): seq<Cell>
    decreases |m|
  {
    if m == [] then [] else BoardData(m[..|m| - 1]) + RowCells(m[|m| - 1], |m| - 1)
  }

  /** Row-major layout of the list for any matrix whose rows have DIMENSION cells. */
  lemma {:induction false} BoardDataAt(m: Matrix, k: nat)
    requires forall r :: 0 <= r < |m| ==> |m[r]| == DIMENSION
    requires k < DIMENSION * |m|
    ensures |BoardData(m)| == DIMENSION * |m|
    ensures BoardData(m)[k] == MakeCell(m[k / DIMENSION][k % DIMENSION], k / DIMENSION, k % DIMENSION)
    decreases |m|
  {
    var n := |m| - 1;
    var prefix := m[..n];
    BoardDataLength(prefix);
    assert BoardData(m) == BoardData(prefix) + RowCells(m[n], n);
    if k < DIMENSION * n {
      BoardDataAt(prefix, k);
      assert prefix[k / DIMENSION] == m[k / DIMENSION];
    } else {
      var c := k - DIMENSION * n;
      assert k / DIMENSION == n && k % DIMENSION == c;
      assert BoardData(m)[k] == RowCells(m[n], n)[c];
    }
  }

  lemma {:induction false} BoardDataLength(m: Matrix)
    requires forall r :: 0 <= r < |m| ==> |m[r]| == DIMENSION
    ensures |BoardData(m)| == DIMENSION * |m|
    decreases |m|
  {
    if m != [] {
      BoardDataLength(m[..|m| - 1]);
    }
  }

  /** On the 8x8 board descriptor k describes square (k / 8, k % 8). */
  lemma BoardDataRowMajor(m: Matrix)
    requires IsBoard(m)
    ensures |BoardData(m)| == DIMENSION * DIMENSION
    ensures forall k :: 0 <= k < |BoardData(m)| ==>
      BoardData(m)[k] == MakeCell(m[k / DIMENSION][k % DIMENSION], k / DIMENSION, k % DIMENSION)
  {
    BoardDataLength(m);
    forall k | 0 <= k < |BoardData(m)|
      ensures BoardData(m)[k] == MakeCell(m[k / DIMENSION][k % DIMENSION], k / DIMENSION, k % DIMENSION)
    {
      BoardDataAt(m, k);
    }
  }

  lemma RowCellsExtend(row: seq<Option<Occupant>>, rowIndex: nat, columnIndex: nat)
    requires columnIndex < |row|
    ensures RowCells(row[..columnIndex + 1], rowIndex)
         == RowCells(row[..columnIndex], rowIndex) + [MakeCell(row[columnIndex], rowIndex, columnIndex)]
  {
  }

  lemma BoardDataExtend(m: Matrix, rowIndex: nat)
    requires rowIndex < |m|
    ensures BoardData(m[..rowIndex + 1]) == BoardData(m[..rowIndex]) + RowCells(m[rowIndex], rowIndex)
  {
    assert m[..rowIndex + 1][..rowIndex] == m[..rowIndex];
  }

  /**
   * `createBoardData`: walks the matrix row by row and each row cell by cell,
   * pushing one descriptor per cell.
   */
  method CreateBoardData(board: Matrix) returns (squares: seq<Cell>)
    ensures squares == BoardData(board)
    ensures IsBoard(board) ==> |squares| == DIMENSION * DIMENSION
    ensures IsBoard(board) ==> forall k :: 0 <= k < |squares| ==>
      squares[k] == MakeCell(board[k / DIMENSION][k % DIMENSION], k / DIMENSION, k % DIMENSION)
  {
    squares := [];
    var rowIndex := 0;
    while rowIndex < |board|
      invariant rowIndex <= |board|
      invariant squares == BoardData(board[..rowIndex])
    {
      var row := board[rowIndex];
      var columnIndex := 0;
      while columnIndex < |row|
        invariant columnIndex <= |row|
        invariant squares == BoardData(board[..rowIndex]) + RowCells(row[..columnIndex], rowIndex)
      {
        var square := row[columnIndex];
        var columnName := ColumnName(columnIndex);
        var position := ColumnText(columnName) + IntToDecimal(DIMENSION - rowIndex);
        squares := squares + [Cell(square, position, columnName, rowIndex, columnIndex)];
        RowCellsExtend(row, rowIndex, columnIndex);
        columnIndex := columnIndex + 1;
      }
      assert row[..|row|] == row;
      BoardDataExtend(board, rowIndex);
      rowIndex := rowIndex + 1;
    }
    assert board[..|board|] == board;
    if IsBoard(board) {
      BoardDataRowMajor(board);
    }
  }

  // ---------------------------------------------------------------------
  // renderSquares: grouping the descriptors into rows

  /** The Square properties `renderSquares` builds from a descriptor. */
  function SquarePropsOf(cell: Cell): Square.SquareProps
  {
    Square.SquareProps(cell.rowIndex, cell.columnIndex, cell.columnName, cell.position)
  }

  /** The Square properties of the descriptors whose `rowIndex` is r, in list order. */
  function RowViews(cells: seq<Cell>, r: nat): seq<Square.SquareProps>
    decreases |cells|
  {
    if cells == [] then []
    else
      var last := cells[|cells| - 1];
      RowViews(cells[..|cells| - 1], r) + (if last.rowIndex == r then [SquarePropsOf(last)] else [])
  }

  /** One more than the largest `rowIndex` in the list (0 for an empty list). */
  function RowCount(cells: seq<Cell>): nat
    decreases |cells|
  {
    if cells == [] then 0
    else
      var last := cells[|cells| - 1];
      var before := RowCount(cells[..|cells| - 1]);
      if last.rowIndex + 1 > before then last.rowIndex + 1 else before
  }

  /**
   * The rows `renderSquares` produces, as a JavaScript array that may have
   * holes: slot r holds the Square properties of the descriptors in row r,
   * and is a hole (`None`) when no descriptor has that row.
   */
  function Grouped(cells: seq<Cell>): seq<Option<seq<Square.SquareProps>>>
  {
    seq(RowCount(cells), r requires 0 <= r < RowCount(cells) =>
      if RowViews(cells, r) == [] then None else Some(RowViews(cells, r)))
  }

  lemma {:induction false} RowViewsBeyondCount(cells: seq<Cell>, r: nat)
    requires r >= RowCount(cells)
    ensures RowViews(cells, r) == []
    decreases |cells|
  {
    if cells != [] {
      RowViewsBeyondCount(cells[..|cells| - 1], r);
    }
  }

  /**
   * `renderSquares`: for each descriptor, creates `rowSquares[rowIndex]` if
   * it is missing and pushes the descriptor's Square onto it.
   */
  method RenderSquares(board: seq<Cell>) returns (rowSquares: seq<Option<seq<Square.SquareProps>>>)
    ensures rowSquares == Grouped(board)
  {
    rowSquares := [];
    var i := 0;
    while i < |board|
      invariant i <= |board|
      invariant rowSquares == Grouped(board[..i])
    {
      var square := board[i];
      var rowIndex := square.rowIndex;
      var squareView := SquarePropsOf(square);
      ghost var before := rowSquares;
      if rowIndex >= |rowSquares| {
        // assigning past the end of a JavaScript array leaves holes
        rowSquares := rowSquares + seq(rowIndex + 1 - |rowSquares|, _ => None);
      }
      if rowSquares[rowIndex].None? {
        rowSquares := rowSquares[rowIndex := Some([])];
      }
      rowSquares := rowSquares[rowIndex := Some(rowSquares[rowIndex].value + [squareView])];
      GroupedStep(board[..i], square, before, rowSquares);
      assert board[..i + 1] == board[..i] + [square];
      i := i + 1;
    }
    assert board[..|board|] == board;
  }

  /** One step of `renderSquares` turns the grouping of a list into that of the list extended by one. */
  lemma GroupedStep(cells: seq<Cell>, cell: Cell,
                    before: seq<Option<seq<Square.SquareProps>>>, after: seq<Option<seq<Square.SquareProps>>>)
    requires before == Grouped(cells)
    requires cell.rowIndex < |after|
    requires |after| == if cell.rowIndex + 1 > |before| then cell.rowIndex + 1 else |before|
    requires after[cell.rowIndex] ==
      Some((if cell.rowIndex < |before| && before[cell.rowIndex].Some? then before[cell.rowIndex].value else [])
        + [SquarePropsOf(cell)])
    requires forall r :: 0 <= r < |after| && r != cell.rowIndex ==>
      after[r] == if r < |before| then before[r] else None
    ensures after == Grouped(cells + [cell])
  {
    var ext := cells + [cell];
    assert ext[..|ext| - 1] == cells;
    assert RowCount(ext) == |after|;
    forall r | 0 <= r < |after|
      ensures after[r] == Grouped(ext)[r]
    {
      var views := RowViews(ext, r);
      assert views == RowViews(cells, r) + (if cell.rowIndex == r then [SquarePropsOf(cell)] else []);
      assert Grouped(ext)[r] == if views == [] then None else Some(views);
      if r >= |before| {
        RowViewsBeyondCount(cells, r);
        assert RowViews(cells, r) == [];
      } else {
        assert before[r] == if RowViews(cells, r) == [] then None else Some(RowViews(cells, r));
      }
      if r == cell.rowIndex {
        assert views != [];
        assert after[r] == Some(RowViews(cells, r) + [SquarePropsOf(cell)]);
      } else {
        assert views == RowViews(cells, r);
      }
    }
  }

  // ---------------------------------------------------------------------
  // renderPieces

  /** The Piece `renderPieces` emits for a descriptor: one exactly when it carries a type. */
  function PieceOf(cell: Cell): (piece: Option<PieceProps>)
    ensures piece.Some? <==> cell.occupant.Some?
    ensures piece.Some? ==>
      && piece.value.kind == cell.occupant.value.kind
      && piece.value.color == cell.occupant.value.color
      && piece.value.rowIndex == cell.rowIndex
      && piece.value.columnIndex == cell.columnIndex
      && piece.value.position == cell.position
  {
    match cell.occupant
    case Some(o) => Some(PieceProps(o.kind, o.color, cell.rowIndex, cell.columnIndex, cell.position))
    case None => None
  }

  /** Number of descriptors that carry an occupant. */
  function OccupiedCells(cells: seq<Cell>): nat
    decreases |cells|
  {
    if cells == [] then 0
    else OccupiedCells(cells[..|cells| - 1]) + (if cells[|cells| - 1].occupant.Some? then 1 else 0)
  }

  /**
   * `renderPieces`: one entry per descriptor, `None` where the source returns
   * `null`; it emits a piece exactly for the descriptors that carry a type,
   * so the number of pieces is the number of occupied descriptors.
   */
  function Pieces(board: seq<Cell>): (pieces: seq<Option<PieceProps>>)
    ensures |pieces| == |board|
    ensures forall k :: 0 <= k < |board| ==> (pieces[k].Some? <==> board[k].occupant.Some?)
    ensures forall k :: 0 <= k < |board| ==> pieces[k] == PieceOf(board[k])
    ensures CountSome(pieces) == OccupiedCells(board)
    decreases |board|
  {
    if board == [] then []
    else
      var before := Pieces(board[..|board| - 1]);
      var pieces := before + [PieceOf(board[|board| - 1])];
      assert pieces[..|pieces| - 1] == before;
      pieces
  }

  // ---------------------------------------------------------------------
  // renderRowLabels and renderColLabels

  /** The rank numbers shown beside the board, top to bottom. */
  function RankLabels(): (labels: seq<int>)
    ensures labels == [8, 7, 6, 5, 4, 3, 2, 1]
  {
    seq(DIMENSION, index requires 0 <= index < DIMENSION => DIMENSION - index)
  }

  /** `renderRowLabels`: counts `index` up from 0 and pushes `DIMENSION - index`. */
  method RenderRowLabels() returns (rowLabels: seq<int>)
    ensures rowLabels == RankLabels()
  {
    rowLabels := [];
    for index := 0 to DIMENSION
      invariant |rowLabels| == index
      invariant forall i :: 0 <= i < index ==> rowLabels[i] == DIMENSION - i
    {
      rowLabels := rowLabels + [DIMENSION - index];
    }
  }

  /** `renderColLabels`: one label per column name, left to right. */
  function ColumnLabels(): (labels: seq<char>)
    ensures |labels| == DIMENSION
    ensures forall c :: 0 <= c < |labels| ==> ColumnName(c) == Some(labels[c])
  {
    seq(|COLUMN_NAMES|, index requires 0 <= index < |COLUMN_NAMES| => COLUMN_NAMES[index])
  }
}
