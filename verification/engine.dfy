/**
 * The shape of the data the chess rules engine (chess.js) hands to the board:
 * `game.board()` is a matrix of rows, top rank first, whose cells are either
 * an occupant record `{type, color}` or `null`.  The engine itself is not
 * part of this model; its board matrix is an input.
 */
module Engine {
  import opened Wrappers

  /** chess.js piece letters 'p', 'n', 'b', 'r', 'q', 'k'. */
  datatype PieceType = Pawn | Knight | Bishop | Rook | Queen | King

  /** chess.js side letters 'w', 'b'. */
  datatype PieceColor = White | Black

  /** A non-null cell of `game.board()`; the field `type` is called `kind` here. */
  datatype Occupant = Occupant(kind: PieceType, color: PieceColor)

  /** The result of `game.board()`: rows of cells, `None` for `null`. */
  type Matrix = seq<seq<Option<Occupant>>>

  /** Number of occupied cells in a matrix, row by row. */
  function OccupiedCount(m: Matrix): nat
    decreases |m|
  {
    if m == [] then 0 else OccupiedCount(m[..|m| - 1]) + CountSome(m[|m| - 1])
  }
}
