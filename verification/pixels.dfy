/** Turning a mouse click on the canvas into a board square. */
module Pixels {
  import opened Grid

  /** Width and height, in pixels, of one square as the click handler
      measures it (`square_virtual_size`). Squares are requested 80 pixels
      wide but come out 77 wide on the canvas; clicks are divided by 77. */
  const SquarePixels: nat := 77

  /** The first pixel coordinate past the last square: 9 * 77 = 693. */
  const BoardPixels: nat := Size * SquarePixels

  /** `math.floor(p / 77)`. For a positive divisor Dafny's `/` rounds
      down, exactly as floor does, also for negative `p`. */
  function SquareIndex(p: int): (i: int)
    ensures SquarePixels * i <= p < SquarePixels * i + SquarePixels
  {
    p / SquarePixels
  }

  /** The span [77 i, 77 i + 77) determines the index: no other square shares a pixel. */
  lemma SquareIndexUnique(p: int, i: int)
    requires SquarePixels * i <= p < SquarePixels * i + SquarePixels
    ensures SquareIndex(p) == i
  {
  }

  /** Pixel (x, y) lies inside square (row, col). */
  predicate Covers(row: int, col: int, x: int, y: int) {
    && SquarePixels * row <= y < SquarePixels * row + SquarePixels
    && SquarePixels * col <= x < SquarePixels * col + SquarePixels
  }

  /** Where a click lands once its square is computed:
      - Outside: the bounds check `col <= 8 and row <= 8` fails and the
        click is ignored;
      - Unlabelled: the check passes with a negative index, for which the
        grid has no label, so the cell lookup raises KeyError;
      - At: a square on the board. */
  datatype Target = Outside | Unlabelled | At(row: nat, col: nat)

  function ClickTarget(x: int, y: int): (t: Target)
    ensures t.Outside? <==> x >= BoardPixels || y >= BoardPixels
    ensures t.Unlabelled? <==> x < BoardPixels && y < BoardPixels && (x < 0 || y < 0)
    ensures t.At? <==> 0 <= x < BoardPixels && 0 <= y < BoardPixels
    ensures t.At? ==> InBounds(t.row, t.col) && Covers(t.row, t.col, x, y)
  {
    var col := SquareIndex(x);
    var row := SquareIndex(y);
    if col <= Size - 1 && row <= Size - 1 then
      if col < 0 || row < 0 then Unlabelled else At(row, col)
    else
      Outside
  }

  /** Every on-board pixel selects the one square that covers it. */
  lemma ClickSelectsCoveringSquare(x: int, y: int, row: int, col: int)
    requires InBounds(row, col) && Covers(row, col, x, y)
    ensures ClickTarget(x, y) == At(row, col)
  {
    SquareIndexUnique(x, col);
    SquareIndexUnique(y, row);
  }
}
