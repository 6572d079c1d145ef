/** The game tick as a pure step on snapshots of the engine: the published
    state (food and body), the length counter and the current direction. */
module Rules {
  import opened Board

  /** Value the length counter starts at and is reset to on a self-collision. */
  const INITIAL_LENGTH: int := 4

  /** The published game state: the food cell and the body, head first. */
  datatype State = State(food: Pos, snack: seq<Pos>)

  const INITIAL_STATE: State := State(Pos(5, 5), [Pos(7, 7)])
  const INITIAL_MOVE: Pos := Pos(1, 0)

  /** Everything a tick reads and writes: the published state, the length
      counter `snackLenth` of the tick loop and the direction field `move`. */
  datatype Snapshot = Snapshot(state: State, snackLen: int, move: Pos)

  const INITIAL: Snapshot := Snapshot(INITIAL_STATE, INITIAL_LENGTH, INITIAL_MOVE)

  function Min(a: int, b: int): (r: int) {
    if a <= b then a else b
  }

  /** Kotlin's `take(n)`: the first `n` elements, or the whole list when it is
      shorter. A negative count throws in Kotlin, hence the precondition. */
  function Take(s: seq<Pos>, n: int): (r: seq<Pos>)
    requires n >= 0
    ensures |r| == Min(n, |s|)
    ensures forall i :: 0 <= i < |r| ==> r[i] == s[i]
  {
    if n <= |s| then s[..n] else s
  }

  /** The counter update of one tick: +1 on food, then reset on collision, so
      the reset wins when both happen. */
  function NextLength(len: int, ate: bool, collided: bool): (r: int)
    ensures collided ==> r == INITIAL_LENGTH
    ensures !collided ==> r == if ate then len + 1 else len
    ensures len >= INITIAL_LENGTH ==> r >= INITIAL_LENGTH
  {
    var grown := if ate then len + 1 else len;
    if collided then INITIAL_LENGTH else grown
  }

  /** What a tick needs of its snapshot: `first()` needs a body and `take`
      needs a non-negative count. */
  predicate CanTick(g: Snapshot) {
    |g.state.snack| > 0 && g.snackLen >= 1
  }

  /** The head a tick moves to. */
  function NewHead(g: Snapshot): (r: Pos)
    requires |g.state.snack| > 0
  {
    NextHead(g.state.snack[0], g.move)
  }

  predicate Ate(g: Snapshot)
    requires |g.state.snack| > 0
  {
    NewHead(g) == g.state.food
  }

  /** Self-collision is checked against the body before the move, tail
      included. */
  predicate Collided(g: Snapshot)
    requires |g.state.snack| > 0
  {
    NewHead(g) in g.state.snack
  }

  /** One tick. `rnd` is the pair `Random.nextInt` would draw; it is used only
      when the food is eaten. */
  function Tick(g: Snapshot, rnd: Pos): (r: Snapshot)
    requires CanTick(g)
    ensures |r.state.snack| > 0 && r.state.snack[0] == NewHead(g)
    ensures r.move == g.move
    ensures r.state.food == if Ate(g) then rnd else g.state.food
  {
    var len := NextLength(g.snackLen, Ate(g), Collided(g));
    var food := if Ate(g) then rnd else g.state.food;
    Snapshot(State(food, [NewHead(g)] + Take(g.state.snack, len - 1)), len, g.move)
  }

  /** The direction setter: it writes `move` and nothing else. */
  function SetMove(g: Snapshot, m: Pos): (r: Snapshot)
    ensures r.move == m
    ensures r.state == g.state && r.snackLen == g.snackLen
  {
    g.(move := m)
  }

  /** The well-formedness every tick keeps, whatever direction is set. */
  predicate WellFormed(g: Snapshot) {
    && |g.state.snack| > 0
    && g.snackLen >= INITIAL_LENGTH
    && |g.state.snack| <= g.snackLen
    && OnBoard(g.state.food)
  }

  /** The board invariant, which holds while the direction is a unit move. */
  predicate Inv(g: Snapshot) {
    && WellFormed(g)
    && UnitMove(g.move)
    && forall i :: 0 <= i < |g.state.snack| ==> OnBoard(g.state.snack[i])
  }

  // ---------------------------------------------------------------------
  // Properties of one tick

  /** Length counter rules: +1 on food without collision, unchanged on neither,
      and exactly INITIAL_LENGTH after any collision, food or not. */
  lemma TickLength(g: Snapshot, rnd: Pos)
    requires CanTick(g)
    ensures Ate(g) && !Collided(g) ==> Tick(g, rnd).snackLen == g.snackLen + 1
    ensures !Ate(g) && !Collided(g) ==> Tick(g, rnd).snackLen == g.snackLen
    ensures Collided(g) ==> Tick(g, rnd).snackLen == INITIAL_LENGTH
  {
  }

  /** The counter never drops below INITIAL_LENGTH, so `take` always gets a
      non-negative count. */
  lemma TickLengthAtLeastInitial(g: Snapshot, rnd: Pos)
    requires CanTick(g) && g.snackLen >= INITIAL_LENGTH
    ensures Tick(g, rnd).snackLen >= INITIAL_LENGTH
    ensures Tick(g, rnd).snackLen - 1 >= 0
  {
  }

  /** The new body is the new head followed by the first `snackLen - 1` cells of
      the old body; hence it is never empty and its length is
      `min(snackLen, |old body| + 1)`. */
  lemma TickBody(g: Snapshot, rnd: Pos)
    requires CanTick(g)
    ensures var r := Tick(g, rnd);
      && r.state.snack[0] == NewHead(g)
      && r.state.snack[1..] == g.state.snack[..Min(r.snackLen - 1, |g.state.snack|)]
      && |r.state.snack| == Min(r.snackLen, |g.state.snack| + 1)
      && |r.state.snack| > 0
  {
  }

  /** Uneaten food stays where it is; eaten food moves to the drawn cell, which
      is on the board. */
  lemma TickFood(g: Snapshot, rnd: Pos)
    requires CanTick(g) && OnBoard(rnd)
    ensures !Ate(g) ==> Tick(g, rnd).state.food == g.state.food
    ensures Ate(g) ==> Tick(g, rnd).state.food == rnd && OnBoard(Tick(g, rnd).state.food)
  {
  }

  /** Nothing keeps the new food off the body: if the draw is the new head's
      cell, the food reappears under the head. */
  lemma FoodCanSpawnUnderHead(g: Snapshot)
    requires CanTick(g) && Ate(g)
    ensures var r := Tick(g, NewHead(g)); r.state.food == r.state.snack[0]
  {
  }

  /** A tick never changes the direction. */
  lemma TickKeepsMove(g: Snapshot, rnd: Pos)
    requires CanTick(g)
    ensures Tick(g, rnd).move == g.move
  {
  }

  /** Setting the direction leaves the state and the counter alone, and the next
      tick moves the head by exactly the direction set. */
  lemma SetMoveThenTick(g: Snapshot, m: Pos, rnd: Pos)
    requires CanTick(g)
    ensures SetMove(g, m).state == g.state && SetMove(g, m).snackLen == g.snackLen
    ensures Tick(SetMove(g, m), rnd).state.snack[0] == NextHead(g.state.snack[0], m)
  {
  }

  /** A tick keeps the snapshot well formed, whatever the direction. */
  lemma TickKeepsWellFormed(g: Snapshot, rnd: Pos)
    requires WellFormed(g) && OnBoard(rnd)
    ensures WellFormed(Tick(g, rnd))
  {
    TickBody(g, rnd);
  }

  /** The counter exceeds the body length by at most 3, as it does initially
      (4 against one cell). */
  lemma TickKeepsSlack(g: Snapshot, rnd: Pos)
    requires CanTick(g) && g.snackLen - |g.state.snack| <= INITIAL_LENGTH - 1
    ensures Tick(g, rnd).snackLen - |Tick(g, rnd).state.snack| <= INITIAL_LENGTH - 1
  {
    TickBody(g, rnd);
  }

  /** A tick keeps every body cell and the food on the board while the
      direction is a unit move. */
  lemma TickKeepsInv(g: Snapshot, rnd: Pos)
    requires Inv(g) && OnBoard(rnd)
    ensures Inv(Tick(g, rnd))
  {
    TickKeepsWellFormed(g, rnd);
    UnitMoveStaysOnBoard(g.state.snack[0], g.move);
  }

  /** Reversal is a collision: tick with a unit move `m`, turn around with
      `-m`, and the following tick lands on the previous head and resets the
      counter to INITIAL_LENGTH. */
  lemma ReversalResets(g: Snapshot, m: Pos, rnd1: Pos, rnd2: Pos)
    requires Inv(g) && UnitMove(m) && OnBoard(rnd1)
    ensures var g1 := Tick(SetMove(g, m), rnd1);
      var g2 := SetMove(g1, Pos(-m.x, -m.y));
      && |g2.state.snack| >= 2
      && NewHead(g2) == g2.state.snack[1]
      && Collided(g2)
      && Tick(g2, rnd2).snackLen == INITIAL_LENGTH
  {
    NextHeadUndo(g.state.snack[0], m);
  }

  /** Whenever the direction points from the head back to the second body
      cell, the tick is a collision and resets the counter. */
  lemma TurningBackResets(g: Snapshot, rnd: Pos)
    requires CanTick(g) && |g.state.snack| >= 2 && NewHead(g) == g.state.snack[1]
    ensures Collided(g)
    ensures Tick(g, rnd).snackLen == INITIAL_LENGTH
  {
  }

  /** On a full body (as long as the counter), eating without collision grows
      the body by exactly one cell. */
  lemma EatingGrowsFullBody(g: Snapshot, rnd: Pos)
    requires CanTick(g) && |g.state.snack| == g.snackLen
    requires Ate(g) && !Collided(g)
    ensures |Tick(g, rnd).state.snack| == |g.state.snack| + 1
  {
    TickBody(g, rnd);
  }

  /** Without food or collision the length of a full body does not change:
      the head advances and the tail is dropped. */
  lemma MovingKeepsFullBody(g: Snapshot, rnd: Pos)
    requires CanTick(g) && |g.state.snack| == g.snackLen
    requires !Ate(g) && !Collided(g)
    ensures |Tick(g, rnd).state.snack| == |g.state.snack|
    ensures Tick(g, rnd).state.snack[1..] == g.state.snack[..|g.state.snack| - 1]
  {
    TickBody(g, rnd);
  }

  // ---------------------------------------------------------------------
  // Runs of the engine: ticks interleaved with direction changes

  /** One thing that happens to the engine: a tick with its random draw, or a
      call of the direction setter. */
  datatype Event = TickEvent(rnd: Pos) | MoveEvent(m: Pos)

  /** A tick draws its food from the board; the buttons send the four arrows. */
  predicate ButtonEvent(e: Event) {
    match e
    case TickEvent(rnd) => OnBoard(rnd)
    case MoveEvent(m) => ButtonMove(m)
  }

  /** Any direction can be set; only the random draw is constrained. */
  predicate AnyEvent(e: Event) {
    match e
    case TickEvent(rnd) => OnBoard(rnd)
    case MoveEvent(_) => true
  }

  function Apply(g: Snapshot, e: Event): (r: Snapshot)
    requires WellFormed(g) && AnyEvent(e)
    ensures WellFormed(r)
  {
    match e
    case TickEvent(rnd) => TickKeepsWellFormed(g, rnd); Tick(g, rnd)
    case MoveEvent(m) => SetMove(g, m)
  }

  /** The snapshot after a run of events, in order. */
  function Run(g: Snapshot, events: seq<Event>): (r: Snapshot)
    requires WellFormed(g)
    requires forall i :: 0 <= i < |events| ==> AnyEvent(events[i])
    ensures WellFormed(r)
    decreases |events|
  {
    if events == [] then g else Run(Apply(g, events[0]), events[1..])
  }

  /** The initial snapshot satisfies the board invariant. */
  lemma InitialInv()
    ensures Inv(INITIAL)
  {
  }

  /** Every run of button presses and ticks keeps the board invariant. */
  lemma {:induction false} RunKeepsInv(g: Snapshot, events: seq<Event>)
    requires Inv(g)
    requires forall i :: 0 <= i < |events| ==> ButtonEvent(events[i])
    ensures forall i :: 0 <= i < |events| ==> AnyEvent(events[i])
    ensures Inv(Run(g, events))
    decreases |events|
  {
    if events != [] {
      var g1 := Apply(g, events[0]);
      match events[0] {
        case TickEvent(rnd) => TickKeepsInv(g, rnd);
        case MoveEvent(m) => ButtonMoveIsUnit(m);
      }
      assert forall i :: 0 <= i < |events[1..]| ==> events[1..][i] == events[i + 1];
      RunKeepsInv(g1, events[1..]);
    }
  }

  /** Starting from the initial snapshot, every cell of the body and the food
      stay on the board, the body is never empty and the counter never drops
      below INITIAL_LENGTH. */
  lemma ReachableInv(events: seq<Event>)
    requires forall i :: 0 <= i < |events| ==> ButtonEvent(events[i])
    ensures forall i :: 0 <= i < |events| ==> AnyEvent(events[i])
    ensures var r := Run(INITIAL, events);
      && |r.state.snack| > 0
      && r.snackLen >= INITIAL_LENGTH
      && OnBoard(r.state.food)
      && forall i :: 0 <= i < |r.state.snack| ==> OnBoard(r.state.snack[i])
  {
    InitialInv();
    RunKeepsInv(INITIAL, events);
  }
}
