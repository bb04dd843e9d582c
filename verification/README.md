# Sudoku board state machine

A Dafny model of the game state behind the Tk `GameBoard` of a small
Python Sudoku program. With the canvas drawing removed, the board is a
sequential transition system. Its state is:

- a 9x9 grid of digits, where 0 means empty;
- three selection fields: `validClick`, `desiredSquare` and `falseSquare`;
- the `initiated` flag, which gates mouse clicks.

The modelled events are:

- a left click at a pixel, mapped to a square by integer division by 77;
- the number keys `1` .. `9`, which fill the armed empty square;
- BackSpace, which empties the square last selected for deletion;
- the Start/Reset buttons, which load a puzzle given as text lines.

Every handler is a pure function from a `State` to an `Outcome`:

- `Completed(state)` when the handler finishes;
- `Raised(error, state)` when the Python code would raise part-way.

Tk reports an exception escaping a callback and keeps running. So a session
(`Session.Run`) continues with the state reached when the exception was
raised.

Modules:

- `Grid` (grid.dfy): the grid, `AddPiece` and `RemovePiece`.
- `Pixels` (pixels.dfy): mapping a click to a square.
- `Puzzle` (puzzle.dfy): `DisplayBoard`, the puzzle loader, with the file
  rendering `Format` as its inverse.
- `Board` (board.dfy): the state, the event handlers and the selection
  invariant `Armed`.
- `Session` (session.dfy): event sequences and the theorems about whole
  runs.

The central invariant is `Armed`. While `validClick` holds, `desiredSquare`
names a square that is still empty. Clicks and key presses preserve it. So
a number key never overwrites a digit already on the board. Start/Reset
does not preserve it. Reset reloads the puzzle over the current grid and
does not disarm the selection. `Session.ResetCanOverwritePuzzleDigit` shows
a concrete run from a new board in which the next number key overwrites a
puzzle digit.

## Model

| member | source | states |
|---|---|---|
| Board.Init | board.py:34-42 | a new board has an all-zero 9x9 grid, `validClick` false, both selections empty and no game started; it satisfies the selection invariant |
| Grid.AddPiece | board.py:229-243 | the cell receives `int(name)`, whatever it held before, and every other cell keeps its value |
| Grid.RemovePiece | board.py:245-255 | the cell becomes 0 and every other cell keeps its value |
| Grid.AddThenRemove | board.py:229-255 | placing a digit on a cell that held 0 and removing it again restores the original grid exactly |
| Grid.RemoveThenAdd | board.py:229-255 | removing a digit and placing the same digit again restores the original grid exactly |
| Grid.DigitValue | board.py:243 | `int(ch)` of a digit character: the digit d whose character is `"0123456789"[d]` |
| Pixels.SquareIndex | board.py:177-179 | the index computed by `math.floor(p / 77)` is the one whose 77-pixel span contains p, negative p included |
| Pixels.SquareIndexUnique | board.py:177-179 | no other index's span contains p, so the span determines the square |
| Pixels.ClickTarget | board.py:177-183 | a click is ignored exactly when x or y is at least 693; it reaches a lookup without a label (KeyError) exactly when both are below 693 and one is negative; otherwise it lands on the in-bounds square whose pixels contain it |
| Pixels.ClickSelectsCoveringSquare | board.py:177-180 | every pixel inside an on-board square selects that square |
| Board.SelectSquare | board.py:170-195 | a click never changes the grid; a click outside the board changes nothing; a click with both coordinates below 693 and one of them negative raises KeyError and changes nothing; on a filled square it clears `validClick` and sets `falseSquare`, leaving `desiredSquare` alone; on an empty square it sets `desiredSquare` and `validClick`, leaving `falseSquare` alone |
| Board.GetCoords | board.py:157-168 | before a game is started a click changes nothing; afterwards it is handled by SelectSquare |
| Board.NumberKey | board.py:257-318 | with `validClick` set, the desired square receives the digit, no other cell changes and `validClick` is cleared; with `validClick` clear nothing changes; with `validClick` set and no desired square it raises IndexError |
| Board.Delete | board.py:320-325 | BackSpace with `validClick` clear empties the `falseSquare` cell, changes no other cell and keeps the selection; with no `falseSquare` it raises IndexError and changes nothing; any other key, or `validClick` set, changes nothing |
| Board.KeyPress | board.py:142-151 | the most specific binding wins: the keys "1" .. "9" run One .. Nine and every other key runs Delete; so a key never moves either selection, never starts a game and never sets `validClick`, and a key that is neither a digit nor BackSpace changes nothing |
| Board.Initiate | board.py:327-350 | the game is marked started; the selection is untouched; the grid is the puzzle loaded over the current grid; KeyError is raised exactly when the file holds a character other than '0'..'9' and line breaks |
| Board.GetCoordsKeepsArmed | board.py:183-195 | clicks preserve the selection invariant: an armed placement targets an empty square |
| Board.KeyPressKeepsArmed | board.py:257-325 | key presses preserve the selection invariant |
| Board.NumberKeyKeepsFilledCells | board.py:257-262 | while the invariant holds, a number key leaves every non-zero cell unchanged |
| Puzzle.LoadLine | board.py:346-350 | along one line, each '1'..'9' is written at its own column if no bad character precedes it; '0' and line breaks are skipped; KeyError is raised exactly when the rest of the line holds a bad character |
| Puzzle.LoadRows | board.py:345-350 | across lines, a digit is written exactly when no bad character precedes it in reading order; every other cell keeps its value; KeyError is raised exactly when some remaining line holds a bad character |
| Puzzle.DisplayBoard | board.py:339-350 | loading raises KeyError exactly when the file holds a character other than '0'..'9' and line breaks; the digits before the first such character stay on the board, and no other cell changes |
| Puzzle.LoadPuzzle | board.py:345-350 | nine lines of nine digits, each line optionally ending in a line break, load without error; cell (r, c) takes the digit at line r, column c, and a '0' leaves its cell as it was |
| Puzzle.LoadPuzzleOnEmpty | board.py:339-350 | loaded onto the empty grid, such a puzzle gives every cell the value of its character |
| Puzzle.FormatThenLoad | board.py:339-350 | loading the text rendering of any digit grid onto the empty grid rebuilds that grid without error |
| Puzzle.LoadThenFormat | board.py:339-350 | rendering the grid loaded from a puzzle whose lines all end in a line break gives back the same lines |
| Session.Dispatch | board.py:111-151 | a click reaches GetCoords, a key press reaches KeyPress, and Start or Reset reaches Initiate; whatever the event, the board stays a 9x9 grid with on-board selections, and only Start/Reset can change the started flag |
| Session.Run | PlaySudoku.py:17 | events are handled in order, and a single event leaves the state its handler reached, whether it completed or raised; no events leave the state as it was; the board stays a 9x9 grid with on-board selections |
| Session.RunAppend | PlaySudoku.py:17 | running two event sequences one after the other is running their concatenation |
| Session.RunKeepsArmed | board.py:170-325 | any sequence of clicks and key presses preserves the selection invariant |
| Session.IdleBeforeStart | board.py:157-168 | until Start is pressed, no click counts and no key can set `validClick` |
| Session.SessionKeepsArmed | board.py:157-337 | from a new board, a session with one Start press and any clicks and keys before and after keeps the selection invariant throughout |
| Session.ClickThenDigit | board.py:157-262 | once a game is started, a click on an empty square followed by the key of a digit puts that digit in the square, changes no other cell, keeps the square selected and disarms the placement |
| Session.FilledCellsPersist | board.py:170-318 | from a state satisfying the selection invariant, along clicks and key presses without BackSpace or Start, every digit on the board stays unchanged |
| Session.ResetCanOverwritePuzzleDigit | board.py:327-337 | Reset keeps an armed selection while reloading the puzzle under it; after delete, click and Reset, a number key overwrites a puzzle digit |

## Left out

- Widget construction, labels and canvas drawing are left out; of the buttons and bindings only which handler each event reaches is kept (`Session.Dispatch`, `Board.KeyPress`). `HighlightSquare`, `VisualiseMoves` and `refresh` are also left out. They hold only drawing state, such as the square size `refresh` sets for placing piece images.
- Every key press is taken to reach the canvas, which takes focus at start-up. Tk's default binding for Tab moves the keyboard focus away from the canvas, after which the board receives no more keys; focus changes are not modelled.
- Image loading is left out: file reads, base64 and the `imageHolder` images. Only its effect is kept: any character other than '0'..'9' and a line break raises KeyError in the loader.
- Initiate's read of the `puzzles` file is left out. Its lines are a parameter, each keeping its line break as `readlines` would.
- Start disables its own button; that is not modelled. Start and Reset are one event, since both call `Initiate`.
- `MovePiece` and `VisualsfromBoard` are left out. They are chess leftovers that call methods ints do not have and use attributes that are never defined, so they cannot run. The `moveSquare` field is only used by them.
- `Screenshot` is left out. It is platform-specific screen capture with shell calls.
- PlaySudoku.py's window setup (title, locked size, geometry) is left out; its `mainloop()` call (line 17) is modelled by `Session.Run`.
- Puzzle.Fits: a puzzle file placing a digit beyond row 8 or column 8 would make the label-indexed grid grow a new row or column. That is not modelled; such files are excluded by this precondition on `Initiate` and the loader.
- Grid cells are stored as floats in the source (`np.zeros`). They are modelled as integers, which compare with 0 the same way.
- Candidate sets, legality checks and auto-solving are left out: the program has none, `AddPiece` writes unconditionally and no Sudoku rule is checked.
