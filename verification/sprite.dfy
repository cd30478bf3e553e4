/** The sprite loop of the draw instruction.

    A sprite is n bytes of memory starting at I, one byte per row, its most
    significant bit the leftmost column. Row `row`, column `col` lands on the
    linear display index (yv + row) * 64 + (xv + col): there is no wrap-around,
    so a sprite that runs off the right edge continues on the next line, and one
    that runs off the bottom indexes past the display. Every set sprite bit
    toggles its cell (XOR with 0xFFFFFFFF) and records a collision when the cell
    was on. */
module Sprites {
  import opened Bits
  import opened Outcomes
  import opened Cpu

  /** `sprite & (0x80 >> col)` is non-zero: column col of the row is set. */
  predicate SpriteBit(sprite: Byte, col: nat) {
    col < 8 && And(sprite, Above(0x80, col)) != 0
  }

  /** Sprite row r, the byte at memory[I + r]; the loop reads it only when it
      lies in memory. */
  function SpriteRow(memory: Memory, I: Word, r: nat): (b: Byte) {
    if I + r < MEMORY_SIZE then memory[I + r] else 0
  }

  /** The display after the loop, and whether some toggled cell was on. */
  datatype Frame = Frame(display: Display, collided: bool)

  /** Linear index of column 0 of sprite row `row` drawn at (xv, yv):
      (y + row) * CHIP8_WIDTH + x. */
  function RowBase(xv: Byte, yv: Byte, row: nat): (base: nat) {
    (yv + row) * 64 + xv
  }

  /** Cell p is toggled by columns col.. of a sprite row whose column 0 lands
      on index base. */
  predicate RowCovers(sprite: Byte, base: int, col: nat, p: int) {
    base + col <= p < base + 8 && SpriteBit(sprite, p - base)
  }

  /** Cell p is toggled by rows row.. of the n-row sprite at memory[I..] drawn
      at (xv, yv). Written in closed form: p lies (64 * r + c) cells past the
      sprite's origin, with r a sprite row and c < 8 a set column of it. */
  predicate CoversFrom(memory: Memory, I: Word, n: nat, xv: Byte, yv: Byte, row: nat, p: int) {
    var q := p - (yv * 64 + xv);
    && q >= row * 64
    && q / 64 < n
    && q % 64 < 8
    && I + q / 64 < MEMORY_SIZE
    && SpriteBit(SpriteRow(memory, I, q / 64), q % 64)
  }

  /** The loop stays in bounds from row `row` on: every row read lies in
      memory, and every set bit lands inside the display. */
  predicate SpriteFits(memory: Memory, I: Word, n: nat, xv: Byte, yv: Byte, row: nat) {
    && (row >= n || I + n <= MEMORY_SIZE)
    && forall r, c :: row <= r < n && 0 <= c < 8 && SpriteBit(SpriteRow(memory, I, r), c) ==>
         RowBase(xv, yv, r) + c < DISPLAY_SIZE
  }

  /** The inner loop over the columns col.. of one sprite row. */
  function DrawRow(d: Display, sprite: Byte, base: nat, col: nat, hit: bool): (r: Result<Frame>)
    requires col <= 8
    ensures r.Ok? <==> forall c :: col <= c < 8 && SpriteBit(sprite, c) ==> base + c < DISPLAY_SIZE
    ensures r.Ok? ==> forall p :: 0 <= p < DISPLAY_SIZE ==>
      r.value.display[p] == if RowCovers(sprite, base, col, p) then Flip(d[p]) else d[p]
    ensures r.Ok? && hit ==> r.value.collided
    decreases 8 - col
  {
    if col == 8 then Ok(Frame(d, hit))
    else if SpriteBit(sprite, col) then
      if base + col < DISPLAY_SIZE then
        var p := base + col;
        DrawRow(d[p := Flip(d[p])], sprite, base, col + 1, hit || d[p] == PIXEL_ON)
      else
        Err(DisplayOutOfBounds)
    else
      DrawRow(d, sprite, base, col + 1, hit)
  }

  /** The outer loop over the sprite rows row.. . */
  function DrawRows(d: Display, memory: Memory, I: Word, n: nat, xv: Byte, yv: Byte, row: nat, hit: bool): (r: Result<Frame>)
    requires row <= n
    ensures r.Ok? <==> SpriteFits(memory, I, n, xv, yv, row)
    ensures r.Ok? ==> forall p :: 0 <= p < DISPLAY_SIZE ==>
      r.value.display[p] == if CoversFrom(memory, I, n, xv, yv, row, p) then Flip(d[p]) else d[p]
    decreases n - row
  {
    if row == n then
      Ok(Frame(d, hit))
    else if I + row >= MEMORY_SIZE then
      Err(MemoryOutOfBounds)
    else
      CoversStep(memory, I, n, xv, yv, row);
      FitsStep(memory, I, n, xv, yv, row);
      var f :- DrawRow(d, SpriteRow(memory, I, row), RowBase(xv, yv, row), 0, hit);
      DrawRows(f.display, memory, I, n, xv, yv, row + 1, f.collided)
  }

  /** The cells of rows row.. are those of row `row` and those of the rows
      after it, and the two sets are disjoint. */
  lemma CoversStep(memory: Memory, I: Word, n: nat, xv: Byte, yv: Byte, row: nat)
    requires row < n && I + row < MEMORY_SIZE
    ensures forall p :: CoversFrom(memory, I, n, xv, yv, row, p) <==>
      RowCovers(SpriteRow(memory, I, row), RowBase(xv, yv, row), 0, p) || CoversFrom(memory, I, n, xv, yv, row + 1, p)
    ensures forall p :: RowCovers(SpriteRow(memory, I, row), RowBase(xv, yv, row), 0, p) ==>
      !CoversFrom(memory, I, n, xv, yv, row + 1, p)
  {
    forall p
      ensures CoversFrom(memory, I, n, xv, yv, row, p) <==>
        RowCovers(SpriteRow(memory, I, row), RowBase(xv, yv, row), 0, p) || CoversFrom(memory, I, n, xv, yv, row + 1, p)
      ensures RowCovers(SpriteRow(memory, I, row), RowBase(xv, yv, row), 0, p) ==>
        !CoversFrom(memory, I, n, xv, yv, row + 1, p)
    {
      var q := p - (yv * 64 + xv);
      var base := RowBase(xv, yv, row);
      assert p - base == q - row * 64;
      if row * 64 <= q < row * 64 + 64 {
        DivModUnique(q, 64, row, q - row * 64);
      }
    }
  }

  /** The loop fits from row `row` on iff row `row` is in memory, its set bits
      land in the display, and the loop fits from the next row on. */
  lemma FitsStep(memory: Memory, I: Word, n: nat, xv: Byte, yv: Byte, row: nat)
    requires row < n && I + row < MEMORY_SIZE
    ensures SpriteFits(memory, I, n, xv, yv, row) <==>
      && (forall c :: 0 <= c < 8 && SpriteBit(SpriteRow(memory, I, row), c) ==> RowBase(xv, yv, row) + c < DISPLAY_SIZE)
      && SpriteFits(memory, I, n, xv, yv, row + 1)
  {
    if (forall c :: 0 <= c < 8 && SpriteBit(SpriteRow(memory, I, row), c) ==> RowBase(xv, yv, row) + c < DISPLAY_SIZE)
       && SpriteFits(memory, I, n, xv, yv, row + 1)
    {
      forall r, c | row <= r < n && 0 <= c < 8 && SpriteBit(SpriteRow(memory, I, r), c)
        ensures RowBase(xv, yv, r) + c < DISPLAY_SIZE
      {
        if r == row {
        }
      }
    }
  }

  /** A toggled cell of columns col.. that was on is either column col or a
      later column, where the display after column col still holds its old
      value. */
  lemma RowCollisionSplit(d: Display, sprite: Byte, base: nat, col: nat)
    requires col < 8 && base + col < DISPLAY_SIZE
    ensures var p0 := base + col;
      var d' := if SpriteBit(sprite, col) then d[p0 := Flip(d[p0])] else d;
      (exists p :: 0 <= p < DISPLAY_SIZE && RowCovers(sprite, base, col, p) && d[p] == PIXEL_ON) <==>
        || (SpriteBit(sprite, col) && d[p0] == PIXEL_ON)
        || (exists p :: 0 <= p < DISPLAY_SIZE && RowCovers(sprite, base, col + 1, p) && d'[p] == PIXEL_ON)
  {
    var p0 := base + col;
    var d' := if SpriteBit(sprite, col) then d[p0 := Flip(d[p0])] else d;
    if exists p :: 0 <= p < DISPLAY_SIZE && RowCovers(sprite, base, col + 1, p) && d'[p] == PIXEL_ON {
      var p :| 0 <= p < DISPLAY_SIZE && RowCovers(sprite, base, col + 1, p) && d'[p] == PIXEL_ON;
      assert RowCovers(sprite, base, col, p) && d[p] == PIXEL_ON;
    }
    if SpriteBit(sprite, col) && d[p0] == PIXEL_ON {
      assert RowCovers(sprite, base, col, p0);
    }
    if exists p :: 0 <= p < DISPLAY_SIZE && RowCovers(sprite, base, col, p) && d[p] == PIXEL_ON {
      var p :| 0 <= p < DISPLAY_SIZE && RowCovers(sprite, base, col, p) && d[p] == PIXEL_ON;
      if p != p0 {
        assert RowCovers(sprite, base, col + 1, p) && d'[p] == PIXEL_ON;
      }
    }
  }

  /** The inner loop reports a collision iff one was already recorded or some
      cell it toggles was on before. */
  lemma {:induction false} DrawRowCollision(d: Display, sprite: Byte, base: nat, col: nat, hit: bool)
    requires col <= 8 && DrawRow(d, sprite, base, col, hit).Ok?
    ensures DrawRow(d, sprite, base, col, hit).value.collided <==>
      hit || exists p :: 0 <= p < DISPLAY_SIZE && RowCovers(sprite, base, col, p) && d[p] == PIXEL_ON
    decreases 8 - col
  {
    if col < 8 {
      var p0 := base + col;
      if SpriteBit(sprite, col) {
        assert p0 < DISPLAY_SIZE;
        var d' := d[p0 := Flip(d[p0])];
        assert DrawRow(d, sprite, base, col, hit) == DrawRow(d', sprite, base, col + 1, hit || d[p0] == PIXEL_ON);
        DrawRowCollision(d', sprite, base, col + 1, hit || d[p0] == PIXEL_ON);
        RowCollisionSplit(d, sprite, base, col);
      } else {
        assert DrawRow(d, sprite, base, col, hit) == DrawRow(d, sprite, base, col + 1, hit);
        DrawRowCollision(d, sprite, base, col + 1, hit);
        if p0 < DISPLAY_SIZE {
          RowCollisionSplit(d, sprite, base, col);
        }
      }
    }
  }

  /** One step of the outer loop: row `row` is read from memory, drawn, and
      the loop continues with the next row. */
  lemma DrawRowsStep(d: Display, memory: Memory, I: Word, n: nat, xv: Byte, yv: Byte, row: nat, hit: bool)
    requires row < n && DrawRows(d, memory, I, n, xv, yv, row, hit).Ok?
    ensures I + row < MEMORY_SIZE
    ensures DrawRow(d, SpriteRow(memory, I, row), RowBase(xv, yv, row), 0, hit).Ok?
    ensures var f := DrawRow(d, SpriteRow(memory, I, row), RowBase(xv, yv, row), 0, hit).value;
      DrawRows(d, memory, I, n, xv, yv, row, hit) == DrawRows(f.display, memory, I, n, xv, yv, row + 1, f.collided)
  {
  }

  /** A toggled cell that was on lies either in row `row` or in a later row,
      where the display after row `row` still holds its old value. */
  lemma CollisionSplit(d: Display, d': Display, memory: Memory, I: Word, n: nat, xv: Byte, yv: Byte, row: nat)
    requires row < n && I + row < MEMORY_SIZE
    requires forall p :: 0 <= p < DISPLAY_SIZE ==>
      d'[p] == if RowCovers(SpriteRow(memory, I, row), RowBase(xv, yv, row), 0, p) then Flip(d[p]) else d[p]
    ensures (exists p :: 0 <= p < DISPLAY_SIZE && CoversFrom(memory, I, n, xv, yv, row, p) && d[p] == PIXEL_ON) <==>
      || (exists p :: 0 <= p < DISPLAY_SIZE && RowCovers(SpriteRow(memory, I, row), RowBase(xv, yv, row), 0, p) && d[p] == PIXEL_ON)
      || (exists p :: 0 <= p < DISPLAY_SIZE && CoversFrom(memory, I, n, xv, yv, row + 1, p) && d'[p] == PIXEL_ON)
  {
    CoversStep(memory, I, n, xv, yv, row);
    var sprite, base := SpriteRow(memory, I, row), RowBase(xv, yv, row);
    if exists p :: 0 <= p < DISPLAY_SIZE && CoversFrom(memory, I, n, xv, yv, row + 1, p) && d'[p] == PIXEL_ON {
      var p :| 0 <= p < DISPLAY_SIZE && CoversFrom(memory, I, n, xv, yv, row + 1, p) && d'[p] == PIXEL_ON;
      assert !RowCovers(sprite, base, 0, p);
      assert CoversFrom(memory, I, n, xv, yv, row, p) && d[p] == PIXEL_ON;
    }
    if exists p :: 0 <= p < DISPLAY_SIZE && RowCovers(sprite, base, 0, p) && d[p] == PIXEL_ON {
      var p :| 0 <= p < DISPLAY_SIZE && RowCovers(sprite, base, 0, p) && d[p] == PIXEL_ON;
      assert CoversFrom(memory, I, n, xv, yv, row, p);
    }
    if exists p :: 0 <= p < DISPLAY_SIZE && CoversFrom(memory, I, n, xv, yv, row, p) && d[p] == PIXEL_ON {
      var p :| 0 <= p < DISPLAY_SIZE && CoversFrom(memory, I, n, xv, yv, row, p) && d[p] == PIXEL_ON;
      if !RowCovers(sprite, base, 0, p) {
        assert CoversFrom(memory, I, n, xv, yv, row + 1, p) && d'[p] == PIXEL_ON;
      }
    }
  }

  /** The whole loop reports a collision iff one was already recorded or some
      cell it toggles was on before. */
  lemma {:induction false} DrawRowsCollision(d: Display, memory: Memory, I: Word, n: nat, xv: Byte, yv: Byte, row: nat, hit: bool)
    requires row <= n && DrawRows(d, memory, I, n, xv, yv, row, hit).Ok?
    ensures DrawRows(d, memory, I, n, xv, yv, row, hit).value.collided <==>
      hit || exists p :: 0 <= p < DISPLAY_SIZE && CoversFrom(memory, I, n, xv, yv, row, p) && d[p] == PIXEL_ON
    decreases n - row
  {
    if row < n {
      DrawRowsStep(d, memory, I, n, xv, yv, row, hit);
      var sprite, base := SpriteRow(memory, I, row), RowBase(xv, yv, row);
      var f := DrawRow(d, sprite, base, 0, hit).value;
      DrawRowCollision(d, sprite, base, 0, hit);
      DrawRowsCollision(f.display, memory, I, n, xv, yv, row + 1, f.collided);
      CollisionSplit(d, f.display, memory, I, n, xv, yv, row);
    }
  }

  /** The closed form names exactly the cells the loop indexes: cell p is
      toggled iff p == (yv + r) * 64 + (xv + c) for a sprite row r < n in
      memory and a set column c < 8 of it. */
  lemma CoversIsSourceIndex(memory: Memory, I: Word, n: nat, xv: Byte, yv: Byte, p: int)
    ensures CoversFrom(memory, I, n, xv, yv, 0, p) <==>
      exists r: nat, c: nat :: r < n && c < 8 && I + r < MEMORY_SIZE && p == RowBase(xv, yv, r) + c
        && SpriteBit(SpriteRow(memory, I, r), c)
  {
    var q := p - (yv * 64 + xv);
    if CoversFrom(memory, I, n, xv, yv, 0, p) {
      var r: nat, c: nat := q / 64, q % 64;
      assert p == RowBase(xv, yv, r) + c;
    }
    if exists r: nat, c: nat :: r < n && c < 8 && I + r < MEMORY_SIZE && p == RowBase(xv, yv, r) + c
        && SpriteBit(SpriteRow(memory, I, r), c)
    {
      var r: nat, c: nat :| r < n && c < 8 && I + r < MEMORY_SIZE && p == RowBase(xv, yv, r) + c
        && SpriteBit(SpriteRow(memory, I, r), c);
      assert q == r * 64 + c;
      DivModUnique(q, 64, r, c);
    }
  }
}
