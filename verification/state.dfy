/** The machine state of the interpreter (the data members of class `Chip8`) and its constants. */
module State {
  import opened Bytes

  const MemorySize: nat := 4096
  const FontLocation: nat := 0x050
  const ProgramStart: nat := 0x200
  const RegisterCount: nat := 16
  const KeyCount: nat := 16
  const Width: nat := 64
  const Height: nat := 32
  /** The flag register VF. */
  const Flag: Nibble := 0xF

  /** The five row bytes of the built-in glyph for hex digit `g` (one line of `kFontSprites`). */
  function GlyphRows(g: Nibble): (s: seq<Byte>)
    ensures |s| == 5
  {
    var (r0, r1, r2, r3, r4) := GlyphBytes(g);
    [r0, r1, r2, r3, r4]
  }

  function GlyphBytes(g: Nibble): (Byte, Byte, Byte, Byte, Byte)
  {
    match g
    case 0 => (0xF0, 0x90, 0x90, 0x90, 0xF0)
    case 1 => (0x20, 0x60, 0x20, 0x20, 0x70)
    case 2 => (0xF0, 0x10, 0xF0, 0x80, 0xF0)
    case 3 => (0xF0, 0x10, 0xF0, 0x10, 0xF0)
    case 4 => (0x90, 0x90, 0xF0, 0x10, 0x10)
    case 5 => (0xF0, 0x80, 0xF0, 0x10, 0xF0)
    case 6 => (0xF0, 0x80, 0xF0, 0x90, 0xF0)
    case 7 => (0xF0, 0x10, 0x20, 0x40, 0x40)
    case 8 => (0xF0, 0x90, 0xF0, 0x90, 0xF0)
    case 9 => (0xF0, 0x90, 0xF0, 0x10, 0xF0)
    case 10 => (0xF0, 0x90, 0xF0, 0x90, 0x90)
    case 11 => (0xE0, 0x90, 0xE0, 0x90, 0xE0)
    case 12 => (0xF0, 0x80, 0x80, 0x80, 0xF0)
    case 13 => (0xE0, 0x90, 0x90, 0x90, 0xE0)
    case 14 => (0xF0, 0x80, 0xF0, 0x80, 0xF0)
    case 15 => (0xF0, 0x80, 0xF0, 0x80, 0x80)
  }

  /** The glyphs `g`, `g+1`, ..., `F` of a table of five-byte glyphs, one after another. */
  function GlyphsFrom(glyph: Nibble -> seq<Byte>, g: nat): (s: seq<Byte>)
    requires g <= 16
    requires forall k: Nibble :: |glyph(k)| == 5
    ensures |s| == 5 * (16 - g)
    decreases 16 - g
  {
    if g == 16 then [] else glyph(g) + GlyphsFrom(glyph, g + 1)
  }

  /** The built-in font table `kFontSprites`: the 16 glyphs in digit order, 80 bytes in all. */
  const FontSprites: seq<Byte> := GlyphsFrom(GlyphRows, 0)

  type Memory = s: seq<Byte> | |s| == MemorySize witness seq(MemorySize, _ => 0)

  /** The variable registers V0..VF. */
  type Registers = s: seq<Byte> | |s| == RegisterCount witness seq(RegisterCount, _ => 0)

  /** The pressed state of the 16 keypad keys, owned by the input collaborator. */
  type Keys = s: seq<bool> | |s| == KeyCount witness seq(KeyCount, _ => false)

  /** The 32 rows of 64 pixels, row-major, `true` meaning lit. */
  type Display = d: seq<seq<bool>> | |d| == Height && forall r | 0 <= r < Height :: |d[r]| == Width
    witness seq(Height, _ => seq(Width, _ => false))

  /** The return stack is a sequence whose last element is the top. */
  datatype Machine = Machine(
    memory: Memory,
    v: Registers,
    pc: Word,
    i: Word,
    stack: seq<Word>,
    delay: Byte,
    sound: Byte,
    display: Display)

  predicate IsBlank(d: Display)
  {
    forall r, c | 0 <= r < Height && 0 <= c < Width :: !d[r][c]
  }

  function Blank(): (d: Display)
    ensures IsBlank(d)
  {
    seq(Height, _ => seq(Width, _ => false))
  }

  /** Dropping the first `g - first` glyphs of the run from `first` leaves the run from `g`. */
  lemma {:induction false} GlyphsFromSuffix(glyph: Nibble -> seq<Byte>, first: nat, g: nat)
    requires first <= g <= 16
    requires forall k: Nibble :: |glyph(k)| == 5
    ensures GlyphsFrom(glyph, first)[5 * (g - first) ..] == GlyphsFrom(glyph, g)
    decreases g - first
  {
    if first < g {
      GlyphsFromSuffix(glyph, first + 1, g);
      DropAfter(glyph(first), GlyphsFrom(glyph, first + 1), 5 * (g - first));
    }
  }

  /** Dropping more than the first part of a concatenation drops into the second part. */
  lemma DropAfter<T>(a: seq<T>, b: seq<T>, i: nat)
    requires |a| <= i <= |a| + |b|
    ensures (a + b)[i ..] == b[i - |a| ..]
  {
  }

  /** Glyph `g` occupies bytes `5g .. 5g+5` of the font table. */
  lemma GlyphPlacement(g: Nibble)
    ensures FontSprites[5 * g .. 5 * g + 5] == GlyphRows(g)
  {
    GlyphsFromSuffix(GlyphRows, 0, g);
    var rest := GlyphsFrom(GlyphRows, g);
    assert rest == GlyphRows(g) + GlyphsFrom(GlyphRows, g + 1);
    assert FontSprites[5 * g .. 5 * g + 5] == rest[.. 5];
  }

  /** The font table lies in the reserved area below the program and fits in 80 bytes. */
  lemma FontBelowProgram()
    ensures |FontSprites| == 16 * 5
    ensures FontLocation + |FontSprites| <= ProgramStart
    ensures MemorySize - ProgramStart == 3584
  {
  }

  /** Every font byte has a clear low nibble, so no glyph is wider than four pixels. */
  lemma FontGlyphsFourWide()
    ensures forall k | 0 <= k < |FontSprites| :: FontSprites[k] % 16 == 0
  {
    GlyphsFromFourWide(0);
  }

  lemma {:induction false} GlyphsFromFourWide(g: nat)
    requires g <= 16
    ensures forall k | 0 <= k < |GlyphsFrom(GlyphRows, g)| :: GlyphsFrom(GlyphRows, g)[k] % 16 == 0
    decreases 16 - g
  {
    if g < 16 {
      GlyphsFromFourWide(g + 1);
      var rows := GlyphRows(g);
      assert forall k | 0 <= k < 5 :: rows[k] % 16 == 0 by {
        match g
        case 0 => case 1 => case 2 => case 3 => case 4 => case 5 => case 6 => case 7 =>
        case 8 => case 9 => case 10 => case 11 => case 12 => case 13 => case 14 => case 15 =>
      }
    }
  }

  predicate HoldsFont(mem: Memory)
  {
    mem[FontLocation .. FontLocation + |FontSprites|] == FontSprites
  }

  /** With the font installed, the five bytes at 0x50 + 5g are glyph g, and they lie below the
      program area. */
  lemma FontGlyphInMemory(mem: Memory, g: Nibble)
    requires HoldsFont(mem)
    ensures FontLocation + 5 * g + 5 <= ProgramStart
    ensures mem[FontLocation + 5 * g .. FontLocation + 5 * g + 5] == GlyphRows(g)
  {
    FontBelowProgram();
    GlyphPlacement(g);
    forall k | 0 <= k < 5
      ensures mem[FontLocation + 5 * g + k] == GlyphRows(g)[k]
    {
      assert mem[FontLocation + (5 * g + k)] == FontSprites[5 * g + k];
    }
  }

  /** The object before anything runs: every register, memory cell, timer and pixel is zero. */
  function Zeroed(): (m: Machine)
    ensures IsBlank(m.display) && m.stack == []
    ensures forall a | 0 <= a < MemorySize :: m.memory[a] == 0
    ensures forall j | 0 <= j < RegisterCount :: m.v[j] == 0
    ensures m.pc == 0 && m.i == 0 && m.delay == 0 && m.sound == 0
  {
    Machine(seq(MemorySize, _ => 0), seq(RegisterCount, _ => 0), 0, 0, [], 0, 0, Blank())
  }

  /** The state-setting part of `Init`: seed the font table and point `pc` at the program. */
  function Init(m: Machine): (r: Machine)
    ensures HoldsFont(r.memory)
    ensures forall a | 0 <= a < MemorySize && !(FontLocation <= a < FontLocation + |FontSprites|) ::
              r.memory[a] == m.memory[a]
    ensures r.pc == ProgramStart
    ensures r == m.(memory := r.memory, pc := r.pc)
  {
    var mem := m.memory[.. FontLocation] + FontSprites + m.memory[FontLocation + |FontSprites| ..];
    m.(memory := mem, pc := ProgramStart)
  }
}
