/** Cells of the square toroidal board and the arithmetic of one head step.
    Coordinates are Kotlin `Int`s, so the addition that moves the head wraps at
    32 bits and the remainder that folds it back onto the board truncates
    toward zero; both are written out here. */
module Board {

  /** Side length of the square board (`Game.BOARD_SIZE`). */
  const BOARD_SIZE: int := 22

  const INT_MIN: int := -0x8000_0000
  const INT_MAX: int := 0x7fff_ffff

  /** Kotlin's 32-bit `Int`. */
  type Int32 = x: int | -0x8000_0000 <= x <= 0x7fff_ffff

  /** A `Pair<Int, Int>`: a board cell, or a direction vector. */
  datatype Pos = Pos(x: Int32, y: Int32)

  /** Kotlin's `Int` addition result: the mathematical value reduced modulo 2^32
      into the signed range. */
  function Wrap32(a: int): (r: Int32)
    ensures INT_MIN <= a <= INT_MAX ==> r == a
    ensures (a - r) % 0x1_0000_0000 == 0
  {
    (a - INT_MIN) % 0x1_0000_0000 + INT_MIN
  }

  /** Kotlin's `a % BOARD_SIZE` on `Int`: the quotient truncates toward zero,
      so a non-zero remainder has the sign of the dividend. */
  function BoardRem(a: int): (r: int)
    ensures -BOARD_SIZE < r < BOARD_SIZE
    ensures a >= 0 ==> r >= 0
    ensures a <= 0 ==> r <= 0
    ensures (a - r) % BOARD_SIZE == 0
  {
    if a >= 0 then a % BOARD_SIZE else -((-a) % BOARD_SIZE)
  }

  predicate OnBoardCoord(c: int) {
    0 <= c < BOARD_SIZE
  }

  predicate OnBoard(p: Pos) {
    OnBoardCoord(p.x) && OnBoardCoord(p.y)
  }

  /** The directions the arrow buttons send: up, left, right, down. */
  predicate ButtonMove(m: Pos) {
    m == Pos(0, -1) || m == Pos(-1, 0) || m == Pos(1, 0) || m == Pos(0, 1)
  }

  /** A move of at most one cell along each axis. */
  predicate UnitMove(m: Pos) {
    -1 <= m.x <= 1 && -1 <= m.y <= 1
  }

  /** One coordinate of the new head, `(c + d + BOARD_SIZE) % BOARD_SIZE` on `Int`. */
  function NextCoord(c: Int32, d: Int32): (r: Int32)
    ensures -BOARD_SIZE < r < BOARD_SIZE
    ensures OnBoardCoord(c) && -1 <= d <= 1 ==> r == (c + d) % BOARD_SIZE
  {
    BoardRem(Wrap32(Wrap32(c + d) + BOARD_SIZE))
  }

  /** The cell the head moves to when `move` is added to `head`. */
  function NextHead(head: Pos, move: Pos): (r: Pos)
    ensures OnBoard(head) && UnitMove(move) ==>
      r == Pos((head.x + move.x) % BOARD_SIZE, (head.y + move.y) % BOARD_SIZE) && OnBoard(r)
  {
    Pos(NextCoord(head.x, move.x), NextCoord(head.y, move.y))
  }

  /** Every arrow button sends a unit move. */
  lemma ButtonMoveIsUnit(m: Pos)
    requires ButtonMove(m)
    ensures UnitMove(m) && m != Pos(0, 0)
  {
  }

  /** When no intermediate sum overflows and the offset sum is not negative, the
      step is plain modular arithmetic on the torus. */
  lemma NextCoordIsModulo(c: Int32, d: Int32)
    requires OnBoardCoord(c)
    requires 0 <= c + d + BOARD_SIZE <= INT_MAX
    ensures NextCoord(c, d) == (c + d) % BOARD_SIZE
  {
  }

  /** The new coordinate lies on the board exactly when the dividend of the
      truncating remainder is not negative or is a multiple of the board size. */
  lemma NextCoordOnBoardIff(c: Int32, d: Int32)
    requires OnBoardCoord(c)
    requires c + d + BOARD_SIZE <= INT_MAX
    ensures OnBoardCoord(NextCoord(c, d)) <==> c + d + BOARD_SIZE >= 0 || (c + d) % BOARD_SIZE == 0
  {
  }

  /** A unit move from a cell on the board lands on the board. */
  lemma UnitMoveStaysOnBoard(head: Pos, move: Pos)
    requires OnBoard(head) && UnitMove(move)
    ensures OnBoard(NextHead(head, move))
  {
    NextCoordIsModulo(head.x, move.x);
    NextCoordIsModulo(head.y, move.y);
  }

  /** Moving right off the last column enters column 0, and moving left off
      column 0 enters the last column; the other coordinate does not change. */
  lemma EdgesWrap(y: Int32)
    requires OnBoardCoord(y)
    ensures NextHead(Pos(BOARD_SIZE - 1, y), Pos(1, 0)) == Pos(0, y)
    ensures NextHead(Pos(0, y), Pos(-1, 0)) == Pos(BOARD_SIZE - 1, y)
  {
    NextCoordIsModulo(y, 0);
  }

  /** The same wrap-around holds on the vertical axis. */
  lemma EdgesWrapVertically(x: Int32)
    requires OnBoardCoord(x)
    ensures NextHead(Pos(x, BOARD_SIZE - 1), Pos(0, 1)) == Pos(x, 0)
    ensures NextHead(Pos(x, 0), Pos(0, -1)) == Pos(x, BOARD_SIZE - 1)
  {
    NextCoordIsModulo(x, 0);
  }

  /** A move of more than a board's width to the left can leave the board:
      nothing in the step validates the direction vector. */
  lemma LongLeftMoveLeavesBoard(c: Int32, d: Int32)
    requires OnBoardCoord(c)
    requires -0x4000_0000 <= d && c + d + BOARD_SIZE < 0 && (c + d) % BOARD_SIZE != 0
    ensures NextCoord(c, d) < 0
  {
    NextCoordOnBoardIff(c, d);
  }

  /** Along one axis, the opposite unit step undoes a unit step. */
  lemma NextCoordUndo(c: Int32, d: Int32)
    requires OnBoardCoord(c) && -1 <= d <= 1
    ensures NextCoord(NextCoord(c, d), -d) == c
  {
    NextCoordIsModulo(c, d);
    NextCoordIsModulo(NextCoord(c, d), -d);
  }

  /** The opposite unit move takes the head back to the cell it came from. */
  lemma NextHeadUndo(p: Pos, m: Pos)
    requires OnBoard(p) && UnitMove(m)
    ensures NextHead(NextHead(p, m), Pos(-m.x, -m.y)) == p
  {
    NextCoordUndo(p.x, m.x);
    NextCoordUndo(p.y, m.y);
  }
}
