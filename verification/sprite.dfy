/** `Chip8::Draw`: the XOR sprite blit with clipping at the right and bottom edges and the
    collision flag in VF. */
module Sprite {
  import opened Bytes
  import opened State

  /** A sprite row is one byte: eight pixels. */
  const SpriteWidth: nat := 8

  /** The number of rows that reach the display: rows past the bottom edge are clipped. */
  function RowsDrawn(n: Nibble, sy: nat): (k: nat)
    requires sy < Height
    ensures k <= n && sy + k <= Height
    ensures k == n || sy + k == Height
  {
    if sy + n <= Height then n else Height - sy
  }

  /** The number of sprite bytes the draw loop reads from memory. The loop reads the row byte
      before it tests the row against the bottom edge, so a clipped sprite reads one row more
      than it draws. */
  function RowsRead(n: Nibble, sy: nat): (k: nat)
    requires sy < Height
    ensures k <= n
    ensures sy + n <= Height ==> k == RowsDrawn(n, sy)
    ensures sy + n > Height ==> k == RowsDrawn(n, sy) + 1
  {
    if sy + n <= Height then n else Height + 1 - sy
  }

  /** Pixel (r, c) lies in the destination rectangle of a sprite of `h` rows placed at (sx, sy). */
  predicate Covers(sx: int, sy: int, h: int, r: int, c: int)
  {
    sy <= r < sy + h && sx <= c < sx + SpriteWidth
  }

  /** The sprite bit that lands on pixel (r, c): bit 7 of a row byte is its leftmost column. */
  predicate Ink(rows: seq<Byte>, sx: int, sy: int, r: int, c: int)
    requires Covers(sx, sy, |rows|, r, c)
  {
    Bit(rows[r - sy], 7 - (c - sx))
  }

  /** The display after XOR-ing the sprite `rows` onto `d` at (sx, sy), pixel by pixel. */
  function Blit(d: Display, sx: int, sy: int, rows: seq<Byte>): Display
  {
    seq(Height, r requires 0 <= r < Height =>
      seq(Width, c requires 0 <= c < Width =>
        if Covers(sx, sy, |rows|, r, c) then d[r][c] != Ink(rows, sx, sy, r, c) else d[r][c]))
  }

  /** Pixel (r, c) is lit and is covered by a set sprite bit: the blit turns it off. */
  predicate Hit(d: Display, sx: int, sy: int, rows: seq<Byte>, r: int, c: int)
    requires 0 <= r < Height && 0 <= c < Width
  {
    Covers(sx, sy, |rows|, r, c) && d[r][c] && Ink(rows, sx, sy, r, c)
  }

  predicate Collides(d: Display, sx: int, sy: int, rows: seq<Byte>)
  {
    exists r, c | 0 <= r < Height && 0 <= c < Width :: Hit(d, sx, sy, rows, r, c)
  }

  /** The memory reads of a Dxyn instruction stay inside memory. */
  predicate CanDraw(m: Machine, y: Nibble, n: Nibble)
  {
    m.i + RowsRead(n, m.v[y] % Height) <= MemorySize
  }

  /** The sprite rows a Dxyn instruction draws: `n` bytes from `I`, less the clipped ones. */
  function SpriteRows(m: Machine, y: Nibble, n: Nibble): (rows: seq<Byte>)
    requires CanDraw(m, y, n)
    ensures |rows| == RowsDrawn(n, m.v[y] % Height)
    ensures forall k | 0 <= k < |rows| :: rows[k] == m.memory[m.i + k]
  {
    m.memory[m.i .. m.i + RowsDrawn(n, m.v[y] % Height)]
  }

  /** `Chip8::Draw(x, y, n)`: the origin is (Vx mod 64, Vy mod 32), read before VF is reset. */
  function DrawSprite(m: Machine, x: Nibble, y: Nibble, n: Nibble): (r: Machine)
    requires CanDraw(m, y, n)
    ensures r == m.(display := r.display, v := m.v[Flag := r.v[Flag]])
    ensures r.v[Flag] == 1 || r.v[Flag] == 0
  {
    var sx := m.v[x] % Width;
    var sy := m.v[y] % Height;
    var rows := SpriteRows(m, y, n);
    m.(display := Blit(m.display, sx, sy, rows),
       v := m.v[Flag := if Collides(m.display, sx, sy, rows) then 1 else 0])
  }

  /** Pixel (r, c) comes before the draw loop's position (row, col): its row is done, or it is
      on the current row to the left of the current column. */
  predicate Visited(sx: int, sy: int, row: int, col: int, r: int, c: int)
  {
    r < sy + row || (r == sy + row && c < sx + col)
  }

  /** The display once the draw loop has visited every pixel before (row, col). */
  function PartialPixel(d: Display, sx: int, sy: int, rows: seq<Byte>, row: int, col: int, r: int, c: int): bool
    requires 0 <= r < Height && 0 <= c < Width
  {
    if Covers(sx, sy, |rows|, r, c) && Visited(sx, sy, row, col, r, c) then d[r][c] != Ink(rows, sx, sy, r, c)
    else d[r][c]
  }

  /** What the draw loop has established before position (row, col): the visited pixels are
      blitted, VF is 1 exactly when a visited pixel collided, and no other register changed. */
  ghost predicate LoopState(m: Machine, sx: int, sy: int, rows: seq<Byte>, row: int, col: int,
                            display: Display, v: Registers)
  {
    && (forall r, c | 0 <= r < Height && 0 <= c < Width ::
          display[r][c] == PartialPixel(m.display, sx, sy, rows, row, col, r, c))
    && v == m.v[Flag := v[Flag]]
    && (v[Flag] == 1 || v[Flag] == 0)
    && (v[Flag] == 1 <==> exists r, c | 0 <= r < Height && 0 <= c < Width ::
          Visited(sx, sy, row, col, r, c) && Hit(m.display, sx, sy, rows, r, c))
  }

  /** The loops of `Chip8::Draw` as written: reset VF; for each row, read the sprite byte, stop
      at the bottom edge; then draw the row. They compute exactly `DrawSprite`. */
  method DrawLoop(m: Machine, x: Nibble, y: Nibble, n: Nibble) returns (r: Machine)
    requires CanDraw(m, y, n)
    ensures r == DrawSprite(m, x, y, n)
  {
    var sx := m.v[x] % Width;
    var sy := m.v[y] % Height;
    ghost var rows := SpriteRows(m, y, n);
    var display: Display := m.display;
    var v: Registers := m.v[Flag := 0];
    var row := 0;
    while row < n
      invariant 0 <= row <= n && sy + row <= Height
      invariant LoopState(m, sx, sy, rows, row, 0, display, v)
    {
      var sprite := m.memory[m.i + row];
      if sy + row >= Height {
        break;
      }
      display, v := DrawRow(m, sx, sy, rows, row, sprite, display, v);
      row := row + 1;
    }
    forall r | 0 <= r < Height
      ensures display[r] == Blit(m.display, sx, sy, rows)[r]
    {
    }
    r := m.(display := display, v := v);
  }

  /** One pass of the inner loop of `Chip8::Draw`: for each column, stop at the right edge, set
      VF when a lit pixel meets a set sprite bit, and XOR the pixel. */
  method DrawRow(m: Machine, sx: nat, sy: nat, ghost rows: seq<Byte>, row: nat, sprite: Byte,
                 display: Display, v: Registers)
    returns (display': Display, v': Registers)
    requires sx < Width && row < |rows| && sy + |rows| <= Height && sprite == rows[row]
    requires LoopState(m, sx, sy, rows, row, 0, display, v)
    ensures LoopState(m, sx, sy, rows, row + 1, 0, display', v')
  {
    ghost var d := m.display;
    display', v' := display, v;
    var col := 0;
    while col < SpriteWidth
      invariant 0 <= col <= SpriteWidth && sx + col <= Width
      invariant LoopState(m, sx, sy, rows, row, col, display', v')
    {
      if sx + col >= Width {
        break;
      }
      var bit := Bit(sprite, 7 - col);
      var pixel := display'[sy + row][sx + col];
      ghost var hit := Hit(d, sx, sy, rows, sy + row, sx + col);
      assert PartialPixel(d, sx, sy, rows, row, col, sy + row, sx + col) == d[sy + row][sx + col];
      assert hit == (pixel && bit);
      assert forall r, c | 0 <= r < Height && 0 <= c < Width ::
        Visited(sx, sy, row, col + 1, r, c) <==> Visited(sx, sy, row, col, r, c) || (r == sy + row && c == sx + col);
      if pixel && bit {
        v' := v'[Flag := 1];
      }
      assert hit ==> Visited(sx, sy, row, col + 1, sy + row, sx + col) && Hit(d, sx, sy, rows, sy + row, sx + col);
      pixel := pixel != bit;
      ghost var before := display';
      display' := display'[sy + row := display'[sy + row][sx + col := pixel]];
      forall r, c | 0 <= r < Height && 0 <= c < Width
        ensures display'[r][c] == PartialPixel(d, sx, sy, rows, row, col + 1, r, c)
      {
        if r != sy + row || c != sx + col {
          assert display'[r][c] == before[r][c];
        }
      }
      col := col + 1;
    }
    assert forall r, c | 0 <= r < Height && 0 <= c < Width ::
      Visited(sx, sy, row, col, r, c) && Covers(sx, sy, |rows|, r, c) <==>
      Visited(sx, sy, row + 1, 0, r, c) && Covers(sx, sy, |rows|, r, c);
  }

  /** Every pixel of the clipped n x 8 rectangle at (Vx mod 64, Vy mod 32) becomes its old value
      XOR the sprite bit (bit 7 leftmost) read from memory at I; every other pixel keeps its
      value; VF is 1 exactly when some pixel of the rectangle was lit under a set bit. */
  lemma DrawPixels(m: Machine, x: Nibble, y: Nibble, n: Nibble)
    requires CanDraw(m, y, n)
    ensures var r, sx, sy := DrawSprite(m, x, y, n), m.v[x] % Width, m.v[y] % Height;
      && (forall row, col | 0 <= row < Height && 0 <= col < Width ::
            r.display[row][col] ==
              if sy <= row < sy + n && sx <= col < sx + SpriteWidth
              then m.display[row][col] != Bit(m.memory[m.i + (row - sy)], 7 - (col - sx))
              else m.display[row][col])
      && (r.v[Flag] == 1 <==>
            exists row, col | 0 <= row < Height && 0 <= col < Width ::
              && sy <= row < sy + n && sx <= col < sx + SpriteWidth
              && m.display[row][col] && Bit(m.memory[m.i + (row - sy)], 7 - (col - sx)))
  {
    var sx, sy := m.v[x] % Width, m.v[y] % Height;
    var rows := SpriteRows(m, y, n);
    forall row, col | 0 <= row < Height && 0 <= col < Width
      ensures Hit(m.display, sx, sy, rows, row, col) <==>
        && sy <= row < sy + n && sx <= col < sx + SpriteWidth
        && m.display[row][col] && Bit(m.memory[m.i + (row - sy)], 7 - (col - sx))
    {
    }
  }

  /** Drawing the same sprite twice at the same place restores the display, provided the first
      draw's write to VF does not move the second: neither coordinate register is VF. */
  lemma {:induction false} DrawTwiceRestores(m: Machine, x: Nibble, y: Nibble, n: Nibble)
    requires CanDraw(m, y, n) && x != Flag && y != Flag
    ensures CanDraw(DrawSprite(m, x, y, n), y, n)
    ensures DrawSprite(DrawSprite(m, x, y, n), x, y, n).display == m.display
  {
    var once := DrawSprite(m, x, y, n);
    var sx, sy := m.v[x] % Width, m.v[y] % Height;
    var rows := SpriteRows(m, y, n);
    assert SpriteRows(once, y, n) == rows;
    forall r | 0 <= r < Height
      ensures Blit(Blit(m.display, sx, sy, rows), sx, sy, rows)[r] == m.display[r]
    {
    }
  }

  /** A sprite drawn where no covered pixel is lit cannot collide: VF ends up 0. */
  lemma DrawOnDarkArea(m: Machine, x: Nibble, y: Nibble, n: Nibble)
    requires CanDraw(m, y, n)
    requires forall r, c | 0 <= r < Height && 0 <= c < Width ::
      Covers(m.v[x] % Width, m.v[y] % Height, n, r, c) ==> !m.display[r][c]
    ensures DrawSprite(m, x, y, n).v[Flag] == 0
  {
  }

  /** A full-width one-row sprite (0xFF) drawn twice on a blank display: the first draw lights
      pixels without collision (VF = 0), the second turns them all off again and reports the
      collision (VF = 1). */
  lemma {:induction false} FullRowTwice(m: Machine, x: Nibble, y: Nibble)
    requires IsBlank(m.display) && m.i < MemorySize && m.memory[m.i] == 0xFF && x != Flag && y != Flag
    ensures CanDraw(m, y, 1)
    ensures var once := DrawSprite(m, x, y, 1);
      && once.v[Flag] == 0
      && CanDraw(once, y, 1)
      && DrawSprite(once, x, y, 1).v[Flag] == 1
      && IsBlank(DrawSprite(once, x, y, 1).display)
  {
    var once := DrawSprite(m, x, y, 1);
    var sx, sy := m.v[x] % Width, m.v[y] % Height;
    DrawTwiceRestores(m, x, y, 1);
    assert SpriteRows(m, y, 1) == [0xFF];
    assert Bit(0xFF, 7);
    assert once.display[sy][sx];
    assert Hit(once.display, sx, sy, SpriteRows(once, y, 1), sy, sx);
  }
}
