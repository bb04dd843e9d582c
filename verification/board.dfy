/** The game board as a state machine: the grid plus the selection that
    mouse clicks set and key presses consume. Every event handler is a pure
    function from the state before the event to an Outcome. */
module Board {
  import opened Grid
  import Pixels
  import Puzzle

  datatype Option<T> = None | Some(value: T)

  /** A `[row, col]` pair naming a square. */
  datatype Square = Square(row: nat, col: nat)

  /** - validClick: an empty square has been clicked and a number key will fill it;
      - desiredSquare: the empty square the last such click chose (None while the list is `[]`);
      - falseSquare: the filled square the last click on one chose, which BackSpace clears;
      - initiated: a game has been started, so clicks on the canvas count. */
  datatype State = State(
    grid: Grid,
    validClick: bool,
    desiredSquare: Option<Square>,
    falseSquare: Option<Square>,
    initiated: bool)

  /** The Python exceptions a handler can raise part-way. Tk reports an
      exception escaping a callback and carries on with the state reached. */
  datatype Error = KeyError | IndexError

  datatype Outcome = Completed(state: State) | Raised(error: Error, state: State)

  predicate OnBoard(sq: Option<Square>) {
    sq.Some? ==> InBounds(sq.value.row, sq.value.col)
  }

  predicate WellFormed(s: State) {
    IsGrid(s.grid) && OnBoard(s.desiredSquare) && OnBoard(s.falseSquare)
  }

  /** The digit in square `sq`, 0 when it is empty. */
  function DigitAt(s: State, sq: Square): int
    requires IsGrid(s.grid) && InBounds(sq.row, sq.col)
  {
    s.grid[sq.row][sq.col]
  }

  /** The selection invariant: while a placement is armed, the square it
      will fill is known and still empty. */
  predicate Armed(s: State)
    requires WellFormed(s)
  {
    s.validClick ==> s.desiredSquare.Some? && DigitAt(s, s.desiredSquare.value) == 0
  }

  /** Only the grid may differ between `s` and `t`. */
  predicate SameSelection(s: State, t: State) {
    && t.validClick == s.validClick
    && t.desiredSquare == s.desiredSquare
    && t.falseSquare == s.falseSquare
    && t.initiated == s.initiated
  }

  /** The state of a newly built board: an empty grid, nothing selected,
      no game started. */
  function Init(): (s: State)
    ensures WellFormed(s) && Armed(s)
    ensures forall r, c :: InBounds(r, c) ==> s.grid[r][c] == 0
    ensures !s.validClick && s.desiredSquare == None && s.falseSquare == None
    ensures !s.initiated
  {
    State(Empty(), false, None, None, false)
  }

  /** A click at pixel (x, y) of the canvas once the game has started.
      A click on a filled square selects it for deletion and disarms any
      placement; a click on an empty square arms a placement there. */
  function SelectSquare(s: State, x: int, y: int): (o: Outcome)
    requires WellFormed(s)
    ensures WellFormed(o.state)
    ensures o.state.grid == s.grid && o.state.initiated == s.initiated
    ensures o.Raised? <==> x < Pixels.BoardPixels && y < Pixels.BoardPixels && (x < 0 || y < 0)
    ensures o.Raised? ==> o.error == KeyError
    ensures !(0 <= x < Pixels.BoardPixels && 0 <= y < Pixels.BoardPixels) ==> o.state == s
    ensures forall sq: Square :: InBounds(sq.row, sq.col) && Pixels.Covers(sq.row, sq.col, x, y) ==>
      if DigitAt(s, sq) != 0 then
        && !o.state.validClick
        && o.state.falseSquare == Some(sq)
        && o.state.desiredSquare == s.desiredSquare
      else
        && o.state.validClick
        && o.state.desiredSquare == Some(sq)
        && o.state.falseSquare == s.falseSquare
  {
    match Pixels.ClickTarget(x, y)
    case Outside => Completed(s)
    case Unlabelled => Raised(KeyError, s)
    case At(row, col) =>
      var sq := Square(row, col);
      forall other: Square | InBounds(other.row, other.col) && Pixels.Covers(other.row, other.col, x, y)
        ensures other == sq
      {
        Pixels.ClickSelectsCoveringSquare(x, y, other.row, other.col);
      }
      if DigitAt(s, sq) != 0 then
        Completed(s.(validClick := false, falseSquare := Some(sq)))
      else
        Completed(s.(desiredSquare := Some(sq), validClick := true))
  }

  /** A click on the canvas: ignored until a game has been started. */
  function GetCoords(s: State, x: int, y: int): (o: Outcome)
    requires WellFormed(s)
    ensures WellFormed(o.state)
    ensures !s.initiated ==> o == Completed(s)
    ensures s.initiated ==> o == SelectSquare(s, x, y)
  {
    if s.initiated then SelectSquare(s, x, y) else Completed(s)
  }

  /** The keys bound to One .. Nine: the keysyms "1" .. "9". */
  predicate IsNumberKey(keysym: string) {
    |keysym| == 1 && Puzzle.Placed(keysym[0])
  }

  /** Number key `name` ('1' .. '9'): fills the armed square with that
      digit and disarms; does nothing when no placement is armed. */
  function NumberKey(s: State, name: char): (o: Outcome)
    requires WellFormed(s) && Puzzle.Placed(name)
    ensures WellFormed(o.state)
    ensures !s.validClick ==> o == Completed(s)
    ensures s.validClick && s.desiredSquare.None? ==> o == Raised(IndexError, s)
    ensures s.validClick && s.desiredSquare.Some? ==>
      && o.Completed?
      && DigitAt(o.state, s.desiredSquare.value) == DigitValue(name)
      && SameExcept(s.grid, o.state.grid, s.desiredSquare.value.row, s.desiredSquare.value.col)
      && !o.state.validClick
      && o.state.desiredSquare == s.desiredSquare
      && o.state.falseSquare == s.falseSquare
      && o.state.initiated == s.initiated
  {
    if s.validClick then
      match s.desiredSquare
      case None => Raised(IndexError, s)
      case Some(sq) => Completed(s.(grid := AddPiece(s.grid, name, sq.row, sq.col), validClick := false))
    else
      Completed(s)
  }

  /** Any key without a binding of its own. BackSpace, while no placement
      is armed, empties the square last selected for deletion. */
  function Delete(s: State, keysym: string): (o: Outcome)
    requires WellFormed(s)
    ensures WellFormed(o.state)
    ensures keysym != "BackSpace" || s.validClick ==> o == Completed(s)
    ensures keysym == "BackSpace" && !s.validClick && s.falseSquare.None? ==> o == Raised(IndexError, s)
    ensures keysym == "BackSpace" && !s.validClick && s.falseSquare.Some? ==>
      && o.Completed?
      && DigitAt(o.state, s.falseSquare.value) == 0
      && SameExcept(s.grid, o.state.grid, s.falseSquare.value.row, s.falseSquare.value.col)
      && SameSelection(s, o.state)
  {
    if keysym == "BackSpace" && !s.validClick then
      match s.falseSquare
      case None => Raised(IndexError, s)
      case Some(sq) => Completed(s.(grid := RemovePiece(s.grid, sq.row, sq.col)))
    else
      Completed(s)
  }

  /** A key press on the canvas. Tk runs the most specific binding that
      matches, so "1" .. "9" reach their own handlers and every other key
      reaches Delete. A key never moves the selection and never arms a
      placement. */
  function KeyPress(s: State, keysym: string): (o: Outcome)
    requires WellFormed(s)
    ensures WellFormed(o.state)
    ensures o.state.desiredSquare == s.desiredSquare && o.state.falseSquare == s.falseSquare
    ensures o.state.initiated == s.initiated
    ensures o.state.validClick ==> s.validClick
    ensures !IsNumberKey(keysym) && keysym != "BackSpace" ==> o == Completed(s)
    ensures IsNumberKey(keysym) ==> o == NumberKey(s, keysym[0])
    ensures !IsNumberKey(keysym) ==> o == Delete(s, keysym)
  {
    if IsNumberKey(keysym) then NumberKey(s, keysym[0]) else Delete(s, keysym)
  }

  /** The Start and Reset buttons: marks the game as started and loads the
      puzzle file's lines over the current grid. Neither the grid nor the
      selection is cleared first. */
  function Initiate(s: State, lines: seq<string>): (o: Outcome)
    requires WellFormed(s) && Puzzle.Fits(lines)
    ensures WellFormed(o.state) && o.state.initiated
    ensures o.state.validClick == s.validClick
    ensures o.state.desiredSquare == s.desiredSquare && o.state.falseSquare == s.falseSquare
    ensures o.state.grid == Puzzle.DisplayBoard(s.grid, lines).grid
    ensures o.Raised? <==> exists i, j :: 0 <= i < |lines| && 0 <= j < |lines[i]| && Puzzle.Bad(lines[i][j])
    ensures o.Raised? ==> o.error == KeyError
  {
    var started := s.(initiated := true);
    var l := Puzzle.DisplayBoard(started.grid, lines);
    if l.raised then Raised(KeyError, started.(grid := l.grid))
    else Completed(started.(grid := l.grid))
  }

  /** Clicks keep the selection invariant. */
  lemma GetCoordsKeepsArmed(s: State, x: int, y: int)
    requires WellFormed(s) && Armed(s)
    ensures Armed(GetCoords(s, x, y).state)
  {
  }

  /** Key presses keep the selection invariant. */
  lemma KeyPressKeepsArmed(s: State, keysym: string)
    requires WellFormed(s) && Armed(s)
    ensures Armed(KeyPress(s, keysym).state)
  {
  }

  /** While the invariant holds, a number key writes only to an empty
      square: no digit already on the board is ever overwritten. */
  lemma NumberKeyKeepsFilledCells(s: State, keysym: string)
    requires WellFormed(s) && Armed(s) && IsNumberKey(keysym)
    ensures forall r, c :: InBounds(r, c) && s.grid[r][c] != 0 ==>
      KeyPress(s, keysym).state.grid[r][c] == s.grid[r][c]
  {
  }
}
