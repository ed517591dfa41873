/**
 * Model of the Square component (src/components/Square.js): the background
 * colour of one board square.
 */
module Square {
  import opened Wrappers

  const BLACK: string := "#2e2e2e"
  const WHITE: string := "#FFFFFF"

  /** The properties the board passes to a Square (layout size left out). */
  datatype SquareProps = SquareProps(
    rowIndex: nat,
    columnIndex: nat,
    columnName: Option<char>,
    position: string)

  /**
   * The colour rule of `render`.  The local the source calls `isBlack` holds
   * when the index sum is even, and then selects WHITE.
   */
  function BackgroundColor(rowIndex: nat, columnIndex: nat): (color: string)
    ensures color == WHITE <==> (rowIndex + columnIndex) % 2 == 0
    ensures color == BLACK <==> (rowIndex + columnIndex) % 2 == 1
  {
    var isBlack := (rowIndex + columnIndex) % 2 == 0;
    if isBlack then WHITE else BLACK
  }

  /** The colour a Square with these properties renders with. */
  function Render(props: SquareProps): (color: string)
  {
    BackgroundColor(props.rowIndex, props.columnIndex)
  }

  /**
   * Only the two indices decide the colour: the label props play no part.
   * This is immediate from `Render`, which reads nothing else.
   */
  lemma RenderDependsOnIndicesOnly(p: SquareProps, q: SquareProps)
    requires p.rowIndex == q.rowIndex && p.columnIndex == q.columnIndex
    ensures Render(p) == Render(q)
    ensures Render(p) == WHITE || Render(p) == BLACK
  {
  }

  /** Squares that share an edge never share a colour. */
  lemma NeighboursDiffer(rowIndex: nat, columnIndex: nat)
    ensures BackgroundColor(rowIndex, columnIndex) != BackgroundColor(rowIndex, columnIndex + 1)
    ensures BackgroundColor(rowIndex, columnIndex) != BackgroundColor(rowIndex + 1, columnIndex)
  {
  }

  /** Number of columns c < n of row `rowIndex` whose colour is `color`. */
  function CountInRow(rowIndex: nat, n: nat, color: string): nat
  {
    if n == 0 then 0
    else CountInRow(rowIndex, n - 1, color) + (if BackgroundColor(rowIndex, n - 1) == color then 1 else 0)
  }

  /** Number of rows r < n of column `columnIndex` whose colour is `color`. */
  function CountInColumn(columnIndex: nat, n: nat, color: string): nat
  {
    if n == 0 then 0
    else CountInColumn(columnIndex, n - 1, color) + (if BackgroundColor(n - 1, columnIndex) == color then 1 else 0)
  }

  /** Any 2k consecutive squares of a row, from its first, are half WHITE and half BLACK. */
  lemma {:induction false} RowHalves(rowIndex: nat, k: nat)
    ensures CountInRow(rowIndex, 2 * k, WHITE) == k
    ensures CountInRow(rowIndex, 2 * k, BLACK) == k
  {
    if k > 0 {
      RowHalves(rowIndex, k - 1);
      NeighboursDiffer(rowIndex, 2 * k - 2);
    }
  }

  /** Any 2k consecutive squares of a column, from its first, are half WHITE and half BLACK. */
  lemma {:induction false} ColumnHalves(columnIndex: nat, k: nat)
    ensures CountInColumn(columnIndex, 2 * k, WHITE) == k
    ensures CountInColumn(columnIndex, 2 * k, BLACK) == k
  {
    if k > 0 {
      ColumnHalves(columnIndex, k - 1);
      NeighboursDiffer(2 * k - 2, columnIndex);
    }
  }
}
