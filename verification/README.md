# ChessAVGN board model

A Dafny model of the list-shaping logic of the ChessAVGN React Native chessboard. The chess rules engine (chess.js) hands the board component an 8×8 matrix from `game.board()`, top rank first. Each cell is an occupant `{type, color}` or `null`. The board component flattens this matrix into 64 square descriptors, each with an algebraic label such as "A8" or "H1". The render methods then regroup the descriptors into rows, filter out the pieces, and list the rank and file labels. The Square component colours each square from the parity of its row and column.

Modules:

- `Wrappers` (wrappers.dfy): `Option`, which stands for JavaScript's `null`/`undefined`, and a count of present values.
- `Engine` (engine.dfy): the data shape the engine returns: piece type, side, occupant and the board matrix. The engine's field `type` is called `kind`, because `type` is a Dafny keyword.
- `Square` (square.dfy): src/components/Square.js. It holds the colour rule and its parity, adjacency and balance properties.
- `Board` (board.dfy): src/components/Board.js.
  - `createBoardData` builds its list with nested `forEach` loops and `push`. It is the method `CreateBoardData`, with nested loops.
  - The row grouping of `renderSquares` is the method `RenderSquares`.
  - The rank-label loop of `renderRowLabels` is the method `RenderRowLabels`.
  - Each method is proved equal to a pure specification: `BoardData`, `Grouped` and `RankLabels`.
  - `renderPieces` and `renderColLabels` are `map` expressions, so they are modelled as functions.
- `BoardProperties` (board_properties.dfy): what these lists look like for an 8×8 matrix, and how they fit with the colouring.

The builder accepts any matrix, as the JavaScript does. It does not require an 8×8 matrix.
- A column index of 8 or more has no entry in `COLUMN_NAMES`, so `columnName` is `undefined` (`None` here). The position label then starts with the text "undefined".
- The rank part is the decimal text of `8 - rowIndex`, which can be `0` or negative.
- `renderSquares` writes `rowSquares[rowIndex]` into a JavaScript array. That can leave holes, which are `None` slots here.
The lemmas about 64 squares, the labels "A8" to "H1" and the 8 full rows assume an 8×8 matrix, which is what the engine always returns.

In Square.js the local named `isBlack` is true when the index sum is even, and then selects `WHITE`. The model states this behaviour: even sums are WHITE. This makes the corners A8 and H1 white.

## Model

| member | source | states |
|---|---|---|
| Square.BackgroundColor | src/components/Square.js:23-24 | the colour is WHITE exactly when rowIndex + columnIndex is even, and BLACK exactly when it is odd |
| Square.RenderDependsOnIndicesOnly | src/components/Square.js:17-24 | two Squares with the same row and column indices get the same colour, whatever their label props; the colour is always WHITE or BLACK |
| Square.NeighboursDiffer | src/components/Square.js:23-24 | squares adjacent horizontally or vertically never share a colour |
| Square.RowHalves | src/components/Square.js:23-24 | the first 2k squares of any row are k WHITE and k BLACK |
| Square.ColumnHalves | src/components/Square.js:23-24 | the first 2k squares of any column are k WHITE and k BLACK |
| Board.Position | src/components/Board.js:63-64 | on the 8×8 board the label of (row, column) is the column letter COLUMN_NAMES[column] followed by the digit 8 − row |
| Board.BoardDataLength | src/components/Board.js:58-78 | a matrix of n rows of 8 cells gives 8n descriptors |
| Board.BoardDataAt | src/components/Board.js:61-74 | for rows of 8 cells, descriptor k is the one built for matrix cell (k / 8, k % 8), with that cell's occupant, label, column name and indices |
| Board.BoardDataRowMajor | src/components/Board.js:57-79 | an 8×8 matrix gives 64 descriptors in row-major order, top row first |
| Board.CreateBoardData | src/components/Board.js:57-79 | the nested loops push exactly the descriptor list BoardData (every row's descriptors in order, for any matrix shape); for an 8×8 matrix this is 64 descriptors, descriptor k describing cell (k / 8, k % 8) |
| Board.RenderSquares | src/components/Board.js:87-110 | the row-grouping loop yields Grouped: slot r holds the Squares of exactly the descriptors with rowIndex r, in list order, and is a hole when there are none |
| Board.GroupedStep | src/components/Board.js:106-109 | creating a missing row and pushing one Square turns the grouping of a list into the grouping of that list extended by one descriptor |
| Board.PieceOf | src/components/Board.js:126-146 | a descriptor yields a piece exactly when it carries an occupant, and the piece has that occupant's type and colour and the descriptor's row, column and label |
| Board.Pieces | src/components/Board.js:125-147 | for any descriptor list, renderPieces gives one entry per descriptor; entry k is a piece exactly when descriptor k carries an occupant; the number of pieces equals the number of occupied descriptors |
| Board.RankLabels | src/components/Board.js:169-182 | the rank labels are 8, 7, 6, 5, 4, 3, 2, 1 |
| Board.RenderRowLabels | src/components/Board.js:168-182 | the counting loop pushes exactly the rank labels 8 down to 1 |
| Board.ColumnLabels | src/components/Board.js:155-161 | there is one file label per column, 8 in all, and label c is the column name that the descriptors of column c carry |
| BoardProperties.RowMajorOrder | src/components/Board.js:61-74 | on the 8×8 board descriptor k has rowIndex k / 8, columnIndex k % 8, the occupant of matrix cell (k / 8, k % 8) unchanged, column name COLUMN_NAMES[k % 8] and label letter-then-digit |
| BoardProperties.CornerSquares | src/components/Board.js:63-64 | the first descriptor is "A8", the last is "H1", and both squares are WHITE |
| BoardProperties.PositionInjective | src/components/Board.js:63-64 | on the 8×8 board two squares with the same label are the same square |
| BoardProperties.PositionsDistinct | src/components/Board.js:63-64 | the 64 labels are pairwise distinct |
| BoardProperties.PositionsSpanBoard | src/components/Board.js:63-64 | the set of labels is exactly the 64 names made of a file A–H and a rank 1–8 |
| BoardProperties.ColumnNameLeadsPosition | src/components/Board.js:63-71 | each descriptor's columnName is the first character of its label, and it is the file label drawn over that column |
| BoardProperties.RankLabelsMatchPositions | src/components/Board.js:178 | rank label r is a number from 1 to 8, and its text is the rank part of the label of every square in row r |
| BoardProperties.GroupedBoardData | src/components/Board.js:87-110 | for a matrix with no empty row, renderSquares gives one row per matrix row, with no holes, and row r lists that row's Squares left to right |
| BoardProperties.GroupedBoard | src/components/Board.js:87-110 | on the 8×8 board renderSquares gives 8 full rows of 8, and row r, column c is the Square of descriptor 8r + c, with rowIndex r and columnIndex c |
| BoardProperties.PieceCountIsOccupiedCount | src/components/Board.js:125-147 | for any matrix, the number of occupied descriptors, and so the number of pieces renderPieces emits, equals the number of occupied cells in the matrix |
| BoardProperties.PiecesOfBoard | src/components/Board.js:125-147 | on the 8×8 board entry k is a piece exactly when cell (k / 8, k % 8) is occupied, and it is that occupant at that row, column and label |
| BoardProperties.BoardColours | src/components/Square.js:23-24 | square k of the board is WHITE exactly when k / 8 + k % 8 is even; squares k and k+1 in one row, and squares k and k+8, differ in colour |
| BoardProperties.RowsAndColumnsBalanced | src/components/Square.js:23-24 | every row and every column of the board has 4 WHITE and 4 BLACK squares |
| BoardProperties.RenderedRowsBalanced | src/components/Board.js:87-110 | on the 8×8 board each of the 8 rows renderSquares produces renders 4 WHITE and 4 BLACK Squares |

## Left out

- The board keeps no record of the opening last shown, and `movePiece` does not reset the engine before a move. So neither is part of the model.
- The chess rules engine is not modelled: `new Chess(FEN)`, `game.move`, `game.reset` and `game.board`. The matrix that `game.board()` returns is an input.
- `movePiece` and `resetBoard` are left out. They only call the engine and then store `createBoardData`'s result with `setState`.
- The React component state and re-rendering are left out.
- The random opening choice in src/containers/Game.js uses `Math.random()`, a floating-point value. The list of opening moves is constant data passed to the engine. Both are left out.
- Layout arithmetic is left out: `size / DIMENSION` and the pixel sizes and offsets of labels, squares and pieces are floating-point display values. For the same reason the `size` and `dimension` props are not part of `SquareProps` or `PieceProps`. The colour rule does not read them, so the colour cannot depend on them.
- The `isLeft` argument of `renderRowLabels` only places the labels on the left or the right. The labels themselves are the same either way.
- The React `key` strings, JSX elements, styles and `propTypes` are left out. The lists are modelled as lists of props.
- The piece image lookup in src/components/Piece.js maps to bundled assets. It holds no logic.
- The locals `type` and `color` in `createBoardData` are computed and never used.
- The spread `...square` is modelled as copying the occupant's `type` and `color`, the two fields the engine's cells carry.
