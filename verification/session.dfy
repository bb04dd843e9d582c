/** A game session: the sequence of events the Tk main loop delivers to the
    board, and what stays true along it. */
module Session {
  import opened Grid
  import opened Board
  import Pixels
  import Puzzle

  /** A left click at a canvas pixel, a key press (by keysym), or a press of
      Start or Reset with the lines of the puzzle file. */
  datatype Event = Click(x: int, y: int) | Press(keysym: string) | Start(lines: seq<string>)

  /** The model covers puzzle files whose digits all lie on the board. */
  predicate Admissible(e: Event) {
    e.Start? ==> Puzzle.Fits(e.lines)
  }

  predicate AllAdmissible(events: seq<Event>) {
    forall k :: 0 <= k < |events| ==> Admissible(events[k])
  }

  /** The handler an event reaches: the canvas's `<Button 1>` binding for a
      click, its key bindings for a key, and the buttons' `Initiate` command
      for Start and Reset. */
  function Dispatch(s: State, e: Event): (o: Outcome)
    requires WellFormed(s) && Admissible(e)
    ensures WellFormed(o.state)
    ensures !e.Start? ==> o.state.initiated == s.initiated
    ensures e.Click? ==> o == GetCoords(s, e.x, e.y)
    ensures e.Press? ==> o == KeyPress(s, e.keysym)
    ensures e.Start? ==> o == Initiate(s, e.lines)
  {
    match e
    case Click(x, y) => GetCoords(s, x, y)
    case Press(keysym) => KeyPress(s, keysym)
    case Start(lines) => Initiate(s, lines)
  }

  /** The state after the events, in order; an exception ends only the
      handler that raised it. */
  function Run(s: State, events: seq<Event>): (t: State)
    requires WellFormed(s) && AllAdmissible(events)
    ensures WellFormed(t)
    ensures events == [] ==> t == s
    ensures |events| == 1 ==> t == Dispatch(s, events[0]).state
    decreases |events|
  {
    if events == [] then s
    else Run(Dispatch(s, events[0]).state, events[1..])
  }

  predicate NoStart(events: seq<Event>) {
    forall k :: 0 <= k < |events| ==> !events[k].Start?
  }

  /** Clicks and key presses keep the selection invariant along any run. */
  lemma {:induction false} RunKeepsArmed(s: State, events: seq<Event>)
    requires WellFormed(s) && Armed(s) && AllAdmissible(events) && NoStart(events)
    ensures Armed(Run(s, events))
    decreases |events|
  {
    if events != [] {
      var e := events[0];
      var t := Dispatch(s, e).state;
      match e {
        case Click(x, y) => GetCoordsKeepsArmed(s, x, y);
        case Press(keysym) => KeyPressKeepsArmed(s, keysym);
      }
      assert AllAdmissible(events[1..]) && NoStart(events[1..]);
      RunKeepsArmed(t, events[1..]);
    }
  }

  /** Before a game is started no click counts and no key can arm a
      placement, so the board stays unarmed and unstarted. */
  lemma {:induction false} IdleBeforeStart(s: State, events: seq<Event>)
    requires WellFormed(s) && !s.validClick && !s.initiated
    requires AllAdmissible(events) && NoStart(events)
    ensures !Run(s, events).validClick && !Run(s, events).initiated
    decreases |events|
  {
    if events != [] {
      var t := Dispatch(s, events[0]).state;
      assert !t.validClick && !t.initiated;
      assert AllAdmissible(events[1..]) && NoStart(events[1..]);
      IdleBeforeStart(t, events[1..]);
    }
  }

  /** A session that presses Start once, with any clicks and key presses
      before and after, keeps the selection invariant throughout. */
  lemma {:induction false} SessionKeepsArmed(before: seq<Event>, lines: seq<string>, after: seq<Event>)
    requires AllAdmissible(before) && NoStart(before)
    requires Puzzle.Fits(lines)
    requires AllAdmissible(after) && NoStart(after)
    ensures AllAdmissible(before + [Start(lines)] + after)
    ensures Armed(Run(Init(), before + [Start(lines)] + after))
  {
    var events := before + [Start(lines)] + after;
    RunAppend(Init(), before, [Start(lines)] + after);
    assert events == before + ([Start(lines)] + after);
    var s := Run(Init(), before);
    IdleBeforeStart(Init(), before);
    var t := Dispatch(s, Start(lines)).state;
    assert !t.validClick;
    assert ([Start(lines)] + after)[1..] == after;
    RunKeepsArmed(t, after);
  }

  /** Running two event sequences one after the other. */
  lemma {:induction false} RunAppend(s: State, first: seq<Event>, second: seq<Event>)
    requires WellFormed(s) && AllAdmissible(first) && AllAdmissible(second)
    ensures AllAdmissible(first + second)
    ensures Run(s, first + second) == Run(Run(s, first), second)
    decreases |first|
  {
    if first != [] {
      assert (first + second)[1..] == first[1..] + second;
      assert AllAdmissible(first[1..]);
      RunAppend(Dispatch(s, first[0]).state, first[1..], second);
    } else {
      assert first + second == second;
    }
  }

  /** The game as a player sees it: once started, clicking an empty square
      and typing a digit puts that digit in the square, changes no other
      cell and disarms the placement. */
  lemma ClickThenDigit(s: State, x: int, y: int, row: nat, col: nat, d: char)
    requires WellFormed(s) && s.initiated
    requires InBounds(row, col) && Pixels.Covers(row, col, x, y)
    requires s.grid[row][col] == 0 && Puzzle.Placed(d)
    ensures AllAdmissible([Click(x, y), Press([d])])
    ensures
      var t := Run(s, [Click(x, y), Press([d])]);
      && t.grid[row][col] == DigitValue(d)
      && SameExcept(s.grid, t.grid, row, col)
      && !t.validClick
      && t.desiredSquare == Some(Square(row, col))
  {
  }

  predicate NoBackSpace(events: seq<Event>) {
    forall k :: 0 <= k < |events| ==> events[k] != Press("BackSpace")
  }

  /** Without BackSpace and without Start, a digit on the board stays put:
      clicks never write the grid, and a number key only fills the empty
      square the invariant guarantees. */
  lemma {:induction false} FilledCellsPersist(s: State, events: seq<Event>)
    requires WellFormed(s) && Armed(s) && AllAdmissible(events)
    requires NoStart(events) && NoBackSpace(events)
    ensures forall r, c :: InBounds(r, c) && s.grid[r][c] != 0 ==> Run(s, events).grid[r][c] == s.grid[r][c]
    decreases |events|
  {
    if events != [] {
      var e := events[0];
      var t := Dispatch(s, e).state;
      match e {
        case Click(x, y) =>
          GetCoordsKeepsArmed(s, x, y);
        case Press(keysym) =>
          KeyPressKeepsArmed(s, keysym);
          if IsNumberKey(keysym) {
            NumberKeyKeepsFilledCells(s, keysym);
          }
      }
      assert AllAdmissible(events[1..]) && NoStart(events[1..]) && NoBackSpace(events[1..]);
      FilledCellsPersist(t, events[1..]);
    }
  }

  /** Reset loads the puzzle again without disarming the selection. A
      player who deletes a puzzle digit and clicks its empty square has the
      digit put back by Reset while the square stays armed; the next number
      key then overwrites the puzzle digit. */
  lemma ResetCanOverwritePuzzleDigit()
    ensures
      var armed := [Start(["5"]), Click(10, 10), Press("BackSpace"), Click(10, 10)];
      && AllAdmissible(armed + [Start(["5"])])
      && var s := Run(Init(), armed);
      && Armed(s) && s.validClick && s.grid[0][0] == 0
      && var t := Run(s, [Start(["5"])]);
      && !Armed(t) && t.grid[0][0] == 5
      && Run(t, [Press("3")]).grid[0][0] == 3
  {
  }
}
