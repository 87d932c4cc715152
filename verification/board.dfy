/**
 * The board as the move generator sees it through GateKeeper.getSquare: a 15x15 grid of
 * characters, indexed board[row][col], where a square either holds a tile's letter or one of
 * the markers of an empty (possibly premium) square.
 */
module Board {

  type Board = b: seq<seq<char>> | |b| == 15 && forall r :: 0 <= r < 15 ==> |b[r]| == 15
    witness seq(15, _ => seq(15, _ => ' '))

  /** Location.isOnBoard. */
  predicate OnBoard(row: int, col: int) {
    0 <= row < 15 && 0 <= col < 15
  }

  /** The characters getSquare returns for a square without a tile. */
  predicate IsEmptyMark(ch: char) {
    ch in " -+=#"
  }

  /** No tile at (row, col): the square is off the board or shows an empty-square marker. */
  predicate Vacant(board: Board, row: int, col: int) {
    !OnBoard(row, col) || IsEmptyMark(board[row][col])
  }

  /**
   * Dawg.isEmpty(board, x, y): it looks at `new Location(y, x)`, i.e. row y and column x, so
   * the square it reports on is board[y][x]; a square off the board counts as empty, and so
   * does one showing a blank or a premium-square marker.
   */
  predicate IsEmpty(board: Board, x: int, y: int)
    ensures !OnBoard(y, x) ==> IsEmpty(board, x, y)
    ensures OnBoard(y, x) && board[y][x] == ' ' ==> IsEmpty(board, x, y)
    ensures OnBoard(y, x) && board[y][x] in "-+=#" ==> IsEmpty(board, x, y)
    ensures OnBoard(y, x) && ('a' <= board[y][x] <= 'z' || 'A' <= board[y][x] <= 'Z') ==> !IsEmpty(board, x, y)
  {
    Vacant(board, y, x)
  }

  /** The number of consecutive tiles at (row, col), (row - 1, col), (row - 2, col), ... */
  function TilesUp(board: Board, row: int, col: int): (n: nat)
    ensures forall r :: row - n < r <= row ==> !Vacant(board, r, col)
    ensures Vacant(board, row - n, col)
    ensures n == 0 || (0 <= row - n + 1 && row < 15 && 0 <= col < 15)
    decreases row + 1
  {
    if Vacant(board, row, col) then 0 else 1 + TilesUp(board, row - 1, col)
  }

  /** The number of consecutive tiles at (row, col), (row + 1, col), (row + 2, col), ... */
  function TilesDown(board: Board, row: int, col: int): (n: nat)
    ensures forall r :: row <= r < row + n ==> !Vacant(board, r, col)
    ensures Vacant(board, row + n, col)
    ensures n == 0 || (0 <= row && row + n <= 15 && 0 <= col < 15)
    decreases 15 - row
  {
    if Vacant(board, row, col) then 0 else 1 + TilesDown(board, row + 1, col)
  }

  /** The number of consecutive tiles at (row, col), (row, col - 1), (row, col - 2), ... */
  function TilesLeft(board: Board, row: int, col: int): (n: nat)
    ensures forall c :: col - n < c <= col ==> !Vacant(board, row, c)
    ensures Vacant(board, row, col - n)
    ensures n == 0 || (0 <= col - n + 1 && col < 15 && 0 <= row < 15)
    decreases col + 1
  {
    if Vacant(board, row, col) then 0 else 1 + TilesLeft(board, row, col - 1)
  }

  /** The letters of column col, rows r .. r + n - 1, top to bottom. */
  function ColumnSlice(board: Board, col: int, r: int, n: nat): (s: string)
    requires 0 <= col < 15 && 0 <= r && r + n <= 15
    ensures |s| == n
    ensures forall l :: 0 <= l < n ==> s[l] == board[r + l][col]
  {
    seq(n, l requires 0 <= l < n => board[r + l][col])
  }

  /** The letters of row `row`, columns c .. c + n - 1, left to right. */
  function RowSlice(board: Board, row: int, c: int, n: nat): (s: string)
    requires 0 <= row < 15 && 0 <= c && c + n <= 15
    ensures |s| == n
    ensures forall l :: 0 <= l < n ==> s[l] == board[row][c + l]
  {
    seq(n, l requires 0 <= l < n => board[row][c + l])
  }
}
