/** The sprite blit of Dxyn in closed form. Rows of the sprite come from memory,
    one byte per row, most significant bit leftmost. The pixel in row `row` and
    column `col` of a sprite placed at (x, y) lands on cell
    `(y + row) * 64 + (x + col)` of the linear display buffer, exactly as the
    source computes it: a column past the right edge lands on the next row. */
module Sprite {
  import opened Bits
  import opened Font

  function Cell(x: nat, y: nat, row: nat, col: nat): nat
  {
    (y + row) * DISPLAY_WIDTH + (x + col)
  }

  predicate Lit(rows: seq<u8>, row: nat, col: nat)
    requires row < |rows| && col < 8
  {
    BitAt(rows[row], col)
  }

  /** Pixel (r, c) is drawn before pixel (row, col): row by row, left to right. */
  predicate Before(r: nat, c: nat, row: nat, col: nat)
  {
    r < row || (r == row && c < col)
  }

  /** Some lit pixel drawn before (row, col) lands on `cell`. */
  predicate HitsBefore(rows: seq<u8>, x: nat, y: nat, cell: nat, row: nat, col: nat)
  {
    exists r: nat, c: nat :: r < |rows| && c < 8 && Before(r, c, row, col) &&
      Lit(rows, r, c) && Cell(x, y, r, c) == cell
  }

  /** Some lit pixel of the sprite lands on `cell`. */
  predicate Hits(rows: seq<u8>, x: nat, y: nat, cell: nat)
  {
    HitsBefore(rows, x, y, cell, |rows|, 0)
  }

  /** Some lit pixel lands past the end of the display buffer: the writes the
      source would make out of bounds. */
  predicate Overruns(rows: seq<u8>, x: nat, y: nat)
  {
    exists r: nat, c: nat :: r < |rows| && c < 8 && Lit(rows, r, c) && Cell(x, y, r, c) >= DISPLAY_SIZE
  }

  /** Some lit pixel drawn before (row, col) lands on a cell lit in `display`. */
  predicate CollidesBefore(display: seq<bool>, rows: seq<u8>, x: nat, y: nat, row: nat, col: nat)
  {
    exists r: nat, c: nat :: r < |rows| && c < 8 && Before(r, c, row, col) &&
      Lit(rows, r, c) && Cell(x, y, r, c) < |display| && display[Cell(x, y, r, c)]
  }

  predicate Collides(display: seq<bool>, rows: seq<u8>, x: nat, y: nat)
  {
    CollidesBefore(display, rows, x, y, |rows|, 0)
  }

  /** The display after XOR-ing the sprite onto it. */
  function Blit(display: seq<bool>, rows: seq<u8>, x: nat, y: nat): (d: seq<bool>)
    ensures |d| == |display|
    ensures forall c :: 0 <= c < |d| ==> (d[c] != display[c] <==> Hits(rows, x, y, c))
  {
    seq(|display|, c requires 0 <= c < |display| => display[c] != Hits(rows, x, y, c))
  }

  /** Distinct pixels of one sprite land on distinct cells, so the blit toggles
      every cell at most once. */
  lemma {:induction false} CellInjective(x: nat, y: nat, r1: nat, c1: nat, r2: nat, c2: nat)
    requires x < DISPLAY_WIDTH && c1 < 8 && c2 < 8
    requires Cell(x, y, r1, c1) == Cell(x, y, r2, c2)
    ensures r1 == r2 && c1 == c2
  {
    assert (r1 - r2) * DISPLAY_WIDTH == c2 - c1;
  }

  /** What the blit has hit once pixel (row, col) is drawn. */
  lemma {:induction false} HitsStep(rows: seq<u8>, x: nat, y: nat, cell: nat, row: nat, col: nat)
    requires row < |rows| && col < 8
    ensures HitsBefore(rows, x, y, cell, row, col + 1) <==>
      HitsBefore(rows, x, y, cell, row, col) || (Lit(rows, row, col) && Cell(x, y, row, col) == cell)
  {
    if HitsBefore(rows, x, y, cell, row, col + 1) && !(Lit(rows, row, col) && Cell(x, y, row, col) == cell) {
      var r: nat, c: nat :| r < |rows| && c < 8 && Before(r, c, row, col + 1) &&
        Lit(rows, r, c) && Cell(x, y, r, c) == cell;
      assert Before(r, c, row, col);
    }
    if Lit(rows, row, col) && Cell(x, y, row, col) == cell {
      assert Before(row, col, row, col + 1);
    }
  }

  /** Finishing a row is the same as starting the next one. */
  lemma {:induction false} HitsNextRow(rows: seq<u8>, x: nat, y: nat, cell: nat, row: nat)
    ensures HitsBefore(rows, x, y, cell, row, 8) <==> HitsBefore(rows, x, y, cell, row + 1, 0)
  {
    if HitsBefore(rows, x, y, cell, row + 1, 0) {
      var r: nat, c: nat :| r < |rows| && c < 8 && Before(r, c, row + 1, 0) &&
        Lit(rows, r, c) && Cell(x, y, r, c) == cell;
      assert Before(r, c, row, 8);
    }
  }

  /** The cell of pixel (row, col) has not been hit before it is drawn. */
  lemma {:induction false} HitsFresh(rows: seq<u8>, x: nat, y: nat, row: nat, col: nat)
    requires x < DISPLAY_WIDTH && col < 8
    ensures !HitsBefore(rows, x, y, Cell(x, y, row, col), row, col)
  {
    if HitsBefore(rows, x, y, Cell(x, y, row, col), row, col) {
      var r: nat, c: nat :| r < |rows| && c < 8 && Before(r, c, row, col) &&
        Lit(rows, r, c) && Cell(x, y, r, c) == Cell(x, y, row, col);
      CellInjective(x, y, r, c, row, col);
    }
  }

  lemma {:induction false} CollidesStep(display: seq<bool>, rows: seq<u8>, x: nat, y: nat, row: nat, col: nat)
    requires row < |rows| && col < 8
    ensures CollidesBefore(display, rows, x, y, row, col + 1) <==>
      CollidesBefore(display, rows, x, y, row, col) ||
      (Lit(rows, row, col) && Cell(x, y, row, col) < |display| && display[Cell(x, y, row, col)])
  {
    if CollidesBefore(display, rows, x, y, row, col + 1) && !CollidesBefore(display, rows, x, y, row, col) {
      var r: nat, c: nat :| r < |rows| && c < 8 && Before(r, c, row, col + 1) &&
        Lit(rows, r, c) && Cell(x, y, r, c) < |display| && display[Cell(x, y, r, c)];
      assert !Before(r, c, row, col);
    }
    if Lit(rows, row, col) && Cell(x, y, row, col) < |display| && display[Cell(x, y, row, col)] {
      assert Before(row, col, row, col + 1);
    }
  }

  lemma {:induction false} CollidesNextRow(display: seq<bool>, rows: seq<u8>, x: nat, y: nat, row: nat)
    ensures CollidesBefore(display, rows, x, y, row, 8) <==> CollidesBefore(display, rows, x, y, row + 1, 0)
  {
    if CollidesBefore(display, rows, x, y, row + 1, 0) {
      var r: nat, c: nat :| r < |rows| && c < 8 && Before(r, c, row + 1, 0) &&
        Lit(rows, r, c) && Cell(x, y, r, c) < |display| && display[Cell(x, y, r, c)];
      assert Before(r, c, row, 8);
    }
  }

  /** The collision flag reports exactly that the blit turned some lit pixel off. */
  lemma {:induction false} CollidesIffPixelCleared(display: seq<bool>, rows: seq<u8>, x: nat, y: nat)
    ensures Collides(display, rows, x, y) <==>
      exists c :: 0 <= c < |display| && display[c] && !Blit(display, rows, x, y)[c]
  {
    var d := Blit(display, rows, x, y);
    if Collides(display, rows, x, y) {
      var r: nat, c: nat :| r < |rows| && c < 8 && Before(r, c, |rows|, 0) &&
        Lit(rows, r, c) && Cell(x, y, r, c) < |display| && display[Cell(x, y, r, c)];
      var k := Cell(x, y, r, c);
      assert Hits(rows, x, y, k);
      assert display[k] && !d[k];
    }
    if exists c :: 0 <= c < |display| && display[c] && !d[c] {
      var k :| 0 <= k < |display| && display[k] && !d[k];
      assert Hits(rows, x, y, k);
      var r: nat, c: nat :| r < |rows| && c < 8 && Before(r, c, |rows|, 0) &&
        Lit(rows, r, c) && Cell(x, y, r, c) == k;
      assert Lit(rows, r, c) && Cell(x, y, r, c) < |display| && display[Cell(x, y, r, c)];
    }
  }

  /** XOR-ing the same sprite twice at the same place restores the display. */
  lemma {:induction false} BlitTwice(display: seq<bool>, rows: seq<u8>, x: nat, y: nat)
    ensures Blit(Blit(display, rows, x, y), rows, x, y) == display
  {
    var d := Blit(Blit(display, rows, x, y), rows, x, y);
    assert |d| == |display|;
    forall c | 0 <= c < |display|
      ensures d[c] == display[c]
    {
    }
  }

  /** On a cleared display, drawing the same sprite a second time collides
      exactly when the sprite has a lit pixel. */
  lemma {:induction false} RedrawCollides(display: seq<bool>, rows: seq<u8>, x: nat, y: nat)
    requires !Overruns(rows, x, y)
    requires forall c :: 0 <= c < |display| ==> !display[c]
    requires |display| == DISPLAY_SIZE
    ensures Collides(Blit(display, rows, x, y), rows, x, y) <==>
      exists r: nat, c: nat :: r < |rows| && c < 8 && Lit(rows, r, c)
  {
    var d := Blit(display, rows, x, y);
    if exists r: nat, c: nat :: r < |rows| && c < 8 && Lit(rows, r, c) {
      var r: nat, c: nat :| r < |rows| && c < 8 && Lit(rows, r, c);
      var k := Cell(x, y, r, c);
      assert Before(r, c, |rows|, 0);
      assert Hits(rows, x, y, k);
      assert k < |d| && d[k];
    }
  }

  /** The display once the pixels drawn before (row, col) have been XOR-ed on:
      the state of the source's loop at that point. */
  function PartialBlit(display: seq<bool>, rows: seq<u8>, x: nat, y: nat, row: nat, col: nat): (d: seq<bool>)
    ensures |d| == |display|
  {
    seq(|display|, c requires 0 <= c < |display| => display[c] != HitsBefore(rows, x, y, c, row, col))
  }

  /** Drawing pixel (row, col) toggles its cell if it is lit and changes
      nothing else; that cell still shows its original value beforehand. */
  lemma {:induction false} PartialBlitStep(display: seq<bool>, rows: seq<u8>, x: nat, y: nat, row: nat, col: nat)
    requires row < |rows| && col < 8 && x < DISPLAY_WIDTH
    ensures var c := Cell(x, y, row, col); var before := PartialBlit(display, rows, x, y, row, col);
            (c < |display| ==> before[c] == display[c]) &&
            PartialBlit(display, rows, x, y, row, col + 1) ==
              if Lit(rows, row, col) && c < |display| then before[c := !before[c]] else before
  {
    var c0 := Cell(x, y, row, col);
    var before := PartialBlit(display, rows, x, y, row, col);
    var after := PartialBlit(display, rows, x, y, row, col + 1);
    HitsFresh(rows, x, y, row, col);
    forall c | 0 <= c < |display|
      ensures after[c] == if Lit(rows, row, col) && c == c0 then !before[c] else before[c]
    {
      HitsStep(rows, x, y, c, row, col);
    }
  }

  lemma {:induction false} PartialBlitNextRow(display: seq<bool>, rows: seq<u8>, x: nat, y: nat, row: nat)
    ensures PartialBlit(display, rows, x, y, row, 8) == PartialBlit(display, rows, x, y, row + 1, 0)
  {
    forall c | 0 <= c < |display|
      ensures PartialBlit(display, rows, x, y, row, 8)[c] == PartialBlit(display, rows, x, y, row + 1, 0)[c]
    {
      HitsNextRow(rows, x, y, c, row);
    }
  }

  /** Once every row is drawn the loop has produced the blit. */
  lemma {:induction false} PartialBlitDone(display: seq<bool>, rows: seq<u8>, x: nat, y: nat)
    ensures PartialBlit(display, rows, x, y, |rows|, 0) == Blit(display, rows, x, y)
  {
  }

  /** Without an overrun every lit pixel lands inside the display buffer. */
  lemma {:induction false} InBounds(rows: seq<u8>, x: nat, y: nat, row: nat, col: nat)
    requires !Overruns(rows, x, y) && row < |rows| && col < 8 && Lit(rows, row, col)
    ensures Cell(x, y, row, col) < DISPLAY_SIZE
  {
  }

  /** VF once the rows before `row` are drawn. */
  function CollisionFlag(display: seq<bool>, rows: seq<u8>, x: nat, y: nat, row: nat): (f: u8)
    ensures f == 1 <==> CollidesBefore(display, rows, x, y, row, 0)
    ensures f <= 1
  {
    if CollidesBefore(display, rows, x, y, row, 0) then 1 else 0
  }
}
