/** Loading a puzzle: DisplayBoard walks the lines of the puzzle file and
    places every digit it finds, at the character's own line and column.
    The file is read elsewhere; here it arrives as a sequence of strings,
    each still carrying its trailing line break. */
module Puzzle {
  import opened Grid

  /** A character the loader places: one of '1'..'9'. */
  predicate Placed(ch: char) {
    '1' <= ch <= '9'
  }

  /** A character the loader skips: a line break or the empty-cell mark '0'. */
  predicate Skipped(ch: char) {
    ch == '\n' || ch == '0'
  }

  /** Any other character: the loader looks it up among the digit images,
      finds nothing, and raises KeyError. */
  predicate Bad(ch: char) {
    !Skipped(ch) && !Placed(ch)
  }

  /** No bad character among line[a..b]. */
  predicate CleanBetween(line: string, a: nat, b: nat)
    requires a <= b <= |line|
  {
    forall k :: a <= k < b ==> !Bad(line[k])
  }

  /** No bad character in lines[a..b]. */
  predicate RowsClean(lines: seq<string>, a: nat, b: nat)
    requires a <= b <= |lines|
  {
    forall i :: a <= i < b ==> CleanBetween(lines[i], 0, |lines[i]|)
  }

  /** Every digit of line `row` lies on the board. */
  predicate LineFits(row: nat, line: string) {
    forall j :: 0 <= j < |line| && Placed(line[j]) ==> InBounds(row, j)
  }

  /** Every digit of the file lies on the board: nine rows of nine columns. */
  predicate Fits(lines: seq<string>) {
    forall i :: 0 <= i < |lines| ==> LineFits(i, lines[i])
  }

  /** The loader, started at line `r`, writes cell (i, j): the character
      there is a digit 1..9 and no bad character comes before it. */
  predicate Writes(lines: seq<string>, r: nat, i: int, j: int) {
    && r <= i < |lines|
    && 0 <= j < |lines[i]|
    && Placed(lines[i][j])
    && RowsClean(lines, r, i)
    && CleanBetween(lines[i], 0, j)
  }

  /** The grid after loading, and whether a KeyError cut the load short
      (the cells written before it keep their digits). */
  datatype Load = Load(grid: Grid, raised: bool)

  /** The inner loop of DisplayBoard over line `row`, from column `c` on. */
  function LoadLine(g: Grid, row: nat, line: string, c: nat): (l: Load)
    requires IsGrid(g) && c <= |line| && LineFits(row, line)
    ensures IsGrid(l.grid)
    ensures l.raised <==> !CleanBetween(line, c, |line|)
    ensures forall i, j :: InBounds(i, j) ==>
      l.grid[i][j] ==
        if i == row && c <= j < |line| && Placed(line[j]) && CleanBetween(line, c, j)
        then DigitValue(line[j]) else g[i][j]
    decreases |line| - c
  {
    if c == |line| then Load(g, false)
    else if Skipped(line[c]) then LoadLine(g, row, line, c + 1)
    else if Bad(line[c]) then Load(g, true)
    else LoadLine(AddPiece(g, line[c], row, c), row, line, c + 1)
  }

  /** The outer loop of DisplayBoard, from line `r` on. */
  function LoadRows(g: Grid, lines: seq<string>, r: nat): (l: Load)
    requires IsGrid(g) && r <= |lines| && Fits(lines)
    ensures IsGrid(l.grid)
    ensures l.raised <==> !RowsClean(lines, r, |lines|)
    ensures forall i, j :: InBounds(i, j) ==>
      l.grid[i][j] == if Writes(lines, r, i, j) then DigitValue(lines[i][j]) else g[i][j]
    decreases |lines| - r
  {
    if r == |lines| then Load(g, false)
    else
      var l := LoadLine(g, r, lines[r], 0);
      if l.raised then l else LoadRows(l.grid, lines, r + 1)
  }

  /** Places every digit 1..9 of the file on `g` in reading order and skips
      line breaks and '0'; a character of any other kind raises KeyError
      and ends the load. */
  function DisplayBoard(g: Grid, lines: seq<string>): (l: Load)
    requires IsGrid(g) && Fits(lines)
    ensures IsGrid(l.grid)
    ensures l.raised <==> exists i, j :: 0 <= i < |lines| && 0 <= j < |lines[i]| && Bad(lines[i][j])
    ensures forall i, j :: InBounds(i, j) ==>
      l.grid[i][j] == if Writes(lines, 0, i, j) then DigitValue(lines[i][j]) else g[i][j]
  {
    LoadRows(g, lines, 0)
  }

  /** A well-formed puzzle file: nine lines, each nine characters '0'..'9'
      followed by at most a line break. */
  predicate IsPuzzleLine(line: string) {
    && (|line| == Size || (|line| == Size + 1 && line[Size] == '\n'))
    && forall j :: 0 <= j < Size ==> IsDigitChar(line[j])
  }

  predicate IsPuzzle(lines: seq<string>) {
    |lines| == Size && forall i :: 0 <= i < Size ==> IsPuzzleLine(lines[i])
  }

  /** A well-formed puzzle loads without error: a digit 1..9 is written to
      its cell, and a '0' leaves its cell as it was. */
  lemma LoadPuzzle(g: Grid, lines: seq<string>)
    requires IsGrid(g) && IsPuzzle(lines)
    ensures Fits(lines)
    ensures !DisplayBoard(g, lines).raised
    ensures forall i, j :: InBounds(i, j) ==>
      DisplayBoard(g, lines).grid[i][j] == if lines[i][j] == '0' then g[i][j] else DigitValue(lines[i][j])
  {
  }

  /** Loaded onto the empty board, a well-formed puzzle gives every cell
      the value of its character. */
  lemma LoadPuzzleOnEmpty(lines: seq<string>)
    requires IsPuzzle(lines)
    ensures Fits(lines)
    ensures !DisplayBoard(Empty(), lines).raised
    ensures forall i, j :: InBounds(i, j) ==>
      DisplayBoard(Empty(), lines).grid[i][j] == DigitValue(lines[i][j])
  {
    LoadPuzzle(Empty(), lines);
  }

  /** The puzzle file that describes a grid: one line per row, one
      character per cell, each line ended by a line break. */
  function Format(g: Grid): (lines: seq<string>)
    requires IsDigitGrid(g)
    ensures IsPuzzle(lines)
  {
    seq(Size, i requires 0 <= i < Size => seq(Size, j requires 0 <= j < Size => DigitChar(g[i][j])) + "\n")
  }

  /** Loading the file that describes a grid rebuilds that grid. */
  lemma FormatThenLoad(g: Grid)
    requires IsDigitGrid(g)
    ensures Fits(Format(g))
    ensures DisplayBoard(Empty(), Format(g)) == Load(g, false)
  {
    var lines := Format(g);
    LoadPuzzleOnEmpty(lines);
    var l := DisplayBoard(Empty(), lines);
    forall i, j | InBounds(i, j)
      ensures l.grid[i][j] == g[i][j]
    {
      assert lines[i][j] == DigitChar(g[i][j]);
    }
    Extensionality(l.grid, g);
  }

  /** Loading a puzzle whose every line ends in a line break and writing
      the result out again gives back the same file. */
  lemma LoadThenFormat(lines: seq<string>)
    requires IsPuzzle(lines)
    requires forall i :: 0 <= i < Size ==> |lines[i]| == Size + 1
    ensures Fits(lines)
    ensures IsDigitGrid(DisplayBoard(Empty(), lines).grid)
    ensures Format(DisplayBoard(Empty(), lines).grid) == lines
  {
    LoadPuzzleOnEmpty(lines);
    var g := DisplayBoard(Empty(), lines).grid;
    var out := Format(g);
    forall i | 0 <= i < Size
      ensures out[i] == lines[i]
    {
      forall j | 0 <= j < Size
        ensures out[i][j] == lines[i][j]
      {
        DigitCharOfValue(lines[i][j]);
      }
    }
  }
}
