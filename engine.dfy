/** The `Game` object: it owns the published state, the tick loop's length
    counter and the direction field that the buttons write and each tick reads. */
module Engine {
  import opened Board
  import opened Rules

  class Game {
    /** The latest published `State` (the value held by `mutableState`). */
    var state: State
    /** The tick loop's counter `snackLenth`. */
    var snackLen: int
    /** The direction the next tick adds to the head. */
    var move: Pos

    ghost function Snap(): Snapshot
      reads this
    {
      Snapshot(state, snackLen, move)
    }

    ghost predicate Valid()
      reads this
    {
      WellFormed(Snap())
    }

    /** Food at (5, 5), a one-cell body at (7, 7), counter 4, moving right. */
    constructor ()
      ensures Valid() && Inv(Snap())
      ensures state == INITIAL_STATE && snackLen == INITIAL_LENGTH && move == INITIAL_MOVE
    {
      state := INITIAL_STATE;
      snackLen := INITIAL_LENGTH;
      move := INITIAL_MOVE;
      InitialInv();
    }

    /** The `move` setter: it overwrites the direction and nothing else. */
    method SetMove(value: Pos)
      modifies this`move
      ensures move == value
      ensures state == old(state) && snackLen == old(snackLen)
      ensures Snap() == Rules.SetMove(old(Snap()), value)
      ensures old(Valid()) ==> Valid()
      ensures old(Inv(Snap())) && UnitMove(value) ==> Inv(Snap())
    {
      move := value;
    }

    /** One pass of the tick loop: move the head, update the counter (food
        first, then the collision reset), respawn eaten food at the drawn cell
        and rebuild the body. `rnd` stands for the two `Random.nextInt` draws. */
    method Tick(rnd: Pos)
      requires Valid() && OnBoard(rnd)
      modifies this
      ensures Snap() == Rules.Tick(old(Snap()), rnd)
      ensures Valid()
      ensures old(Inv(Snap())) ==> Inv(Snap())
    {
      ghost var before := Snap();
      var newPosition := NextHead(state.snack[0], move);
      if newPosition == state.food {
        snackLen := snackLen + 1;
      }
      if newPosition in state.snack {
        snackLen := INITIAL_LENGTH;
      }
      var food := if newPosition == state.food then rnd else state.food;
      state := State(food, [newPosition] + Take(state.snack, snackLen - 1));
      TickKeepsWellFormed(before, rnd);
      if Inv(before) {
        TickKeepsInv(before, rnd);
      }
    }
  }
}
