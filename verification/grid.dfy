/** The 9x9 grid of placed digits that holds the whole state of a Sudoku game.
    A cell holding 0 is empty; any other value is the digit shown in it.
    The two primitive edits, AddPiece and RemovePiece, write one cell and
    check nothing else: no Sudoku rule is ever consulted. */
module Grid {

  /** Rows and columns of the board. */
  const Size: nat := 9

  type Grid = seq<seq<int>>

  predicate InBounds(row: int, col: int) {
    0 <= row < Size && 0 <= col < Size
  }

  predicate IsGrid(g: Grid) {
    |g| == Size && forall r :: 0 <= r < |g| ==> |g[r]| == Size
  }

  /** Every cell holds 0 or one of the digits 1..9. */
  predicate IsDigitGrid(g: Grid) {
    IsGrid(g) && forall r, c :: 0 <= r < Size && 0 <= c < Size ==> 0 <= g[r][c] <= 9
  }

  /** The grid a new board starts with: every cell empty. */
  function Empty(): (g: Grid)
    ensures IsDigitGrid(g)
    ensures forall r, c :: InBounds(r, c) ==> g[r][c] == 0
  {
    seq(Size, _ => seq(Size, _ => 0))
  }

  /** `h` agrees with `g` on every cell except possibly (row, col). */
  predicate SameExcept(g: Grid, h: Grid, row: int, col: int)
    requires IsGrid(g) && IsGrid(h)
  {
    forall r, c :: 0 <= r < Size && 0 <= c < Size && (r != row || c != col) ==> h[r][c] == g[r][c]
  }

  /** Two grids with the same cells are the same grid. */
  lemma Extensionality(g: Grid, h: Grid)
    requires IsGrid(g) && IsGrid(h)
    requires forall r, c :: InBounds(r, c) ==> g[r][c] == h[r][c]
    ensures g == h
  {
    forall r | 0 <= r < Size
      ensures g[r] == h[r]
    {
      assert forall c :: 0 <= c < Size ==> g[r][c] == h[r][c];
    }
  }

  function Write(g: Grid, row: nat, col: nat, v: int): (h: Grid)
    requires IsGrid(g) && InBounds(row, col)
    ensures IsGrid(h)
    ensures h[row][col] == v
    ensures SameExcept(g, h, row, col)
  {
    g[row := g[row][col := v]]
  }

  /** The characters '0'..'9', which name the digits. */
  predicate IsDigitChar(ch: char) {
    '0' <= ch <= '9'
  }

  /** `int(ch)` for a one-character digit string. */
  function DigitValue(ch: char): (d: int)
    requires IsDigitChar(ch)
    ensures 0 <= d <= 9
    ensures "0123456789"[d] == ch
    ensures ch == '0' <==> d == 0
  {
    ch as int - '0' as int
  }

  /** The character that names digit `d`; the inverse of DigitValue. */
  function DigitChar(d: int): (ch: char)
    requires 0 <= d <= 9
    ensures IsDigitChar(ch)
    ensures DigitValue(ch) == d
  {
    ('0' as int + d) as char
  }

  lemma DigitCharOfValue(ch: char)
    requires IsDigitChar(ch)
    ensures DigitChar(DigitValue(ch)) == ch
  {
  }

  /** Stores `int(name)` in cell (row, col), whatever the cell held before;
      the image drawn on the canvas is not modelled. */
  function AddPiece(g: Grid, name: char, row: nat, col: nat): (h: Grid)
    requires IsGrid(g) && InBounds(row, col) && IsDigitChar(name)
    ensures IsGrid(h)
    ensures h[row][col] == DigitValue(name)
    ensures SameExcept(g, h, row, col)
  {
    Write(g, row, col, DigitValue(name))
  }

  /** Empties cell (row, col); the image removed from the canvas is not modelled. */
  function RemovePiece(g: Grid, row: nat, col: nat): (h: Grid)
    requires IsGrid(g) && InBounds(row, col)
    ensures IsGrid(h)
    ensures h[row][col] == 0
    ensures SameExcept(g, h, row, col)
  {
    Write(g, row, col, 0)
  }

  /** Placing a digit on an empty cell and removing it again gives back the grid. */
  lemma AddThenRemove(g: Grid, name: char, row: nat, col: nat)
    requires IsGrid(g) && InBounds(row, col) && IsDigitChar(name)
    requires g[row][col] == 0
    ensures RemovePiece(AddPiece(g, name, row, col), row, col) == g
  {
    var h := RemovePiece(AddPiece(g, name, row, col), row, col);
    Extensionality(g, h);
  }

  /** Removing a digit and placing the same digit again gives back the grid. */
  lemma RemoveThenAdd(g: Grid, row: nat, col: nat)
    requires IsDigitGrid(g) && InBounds(row, col)
    requires g[row][col] != 0
    ensures AddPiece(RemovePiece(g, row, col), DigitChar(g[row][col]), row, col) == g
  {
    var h := AddPiece(RemovePiece(g, row, col), DigitChar(g[row][col]), row, col);
    Extensionality(g, h);
  }
}
