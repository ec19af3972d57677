/** What the individual instructions of `Chip8::Decode` do to the machine, stated against
    arithmetic on integers rather than against the instruction bodies, and what whole iterations
    of the main loop do when memory holds a given instruction. */
module Properties {
  import opened Bytes
  import opened State
  import opened Opcodes
  import opened Engine
  import Timers

  /** The two bytes at `pc` form one instruction, high byte first, so a well-formed instruction
      stored there is fetched and decoded as itself. */
  lemma FetchDecodes(m: Machine, op: Op)
    requires WellFormed(op) && m.pc + 1 < MemorySize
    requires m.memory[m.pc] == Encode(op).hi && m.memory[m.pc + 1] == Encode(op).lo
    ensures Decode(Fetch(m)) == op
  {
    DecodeEncode(op);
  }

  /** 2nnn then 00EE: the call pushes the return address and the return pops it, so the pair
      restores the machine exactly. */
  lemma SubroutineRoundTrip(m: Machine, nnn: Addr12, keys: Keys, rnd: Byte)
    ensures var called := Execute(m, Call(nnn), keys, rnd);
      called.pc == nnn && called.stack == m.stack + [m.pc] &&
      Defined(called, Return) && Execute(called, Return, keys, rnd) == m
  {
    var called := Execute(m, Call(nnn), keys, rnd);
    assert called.stack[.. |called.stack| - 1] == m.stack;
  }

  /** An iteration that fetches 2nnn jumps to nnn and pushes the address after the call. */
  lemma CallCycle(m: Machine, nnn: Addr12, keys: Keys, rnd: Byte)
    requires m.pc + 1 < MemorySize && Fetch(m) == Encode(Call(nnn))
    ensures CanCycle(m)
    ensures var r := Cycle(m, keys, rnd).machine;
      r.pc == nnn && r.stack == m.stack + [(m.pc + 2) % 0x1_0000] && r.v == m.v && r.memory == m.memory
  {
    DecodeEncode(Call(nnn));
  }

  /** An iteration that fetches 00EE resumes at the address on top of the stack and pops it. */
  lemma ReturnCycle(m: Machine, keys: Keys, rnd: Byte)
    requires m.pc + 1 < MemorySize && Fetch(m) == Encode(Return) && |m.stack| > 0
    ensures CanCycle(m)
    ensures var r := Cycle(m, keys, rnd).machine;
      r.pc == m.stack[|m.stack| - 1] && r.stack == m.stack[.. |m.stack| - 1] && r.v == m.v
  {
    DecodeEncode(Return);
  }

  /** An iteration that fetches an unassigned pattern only advances `pc` and ticks the timers. */
  lemma UnknownCycle(m: Machine, keys: Keys, rnd: Byte)
    requires m.pc + 1 < MemorySize && Unassigned(Fetch(m))
    ensures CanCycle(m)
    ensures Cycle(m, keys, rnd) == Timers.Tick(m.(pc := (m.pc + 2) % 0x1_0000))
  {
  }

  /** A taken skip advances `pc` by a further two bytes, so the next instruction is passed over. */
  lemma SkipCycle(m: Machine, x: Nibble, nn: Byte, keys: Keys, rnd: Byte)
    requires m.pc + 1 < MemorySize && Fetch(m) == Encode(SkipEqImm(x, nn))
    ensures CanCycle(m)
    ensures Cycle(m, keys, rnd).machine.pc == if m.v[x] == nn then m.pc + 4 else m.pc + 2
  {
    DecodeEncode(SkipEqImm(x, nn));
  }

  /** Any iteration: the instruction at `pc` runs with `pc` already advanced past it, against the
      keypad state and random byte of this iteration, and only then do the timers tick. */
  lemma CycleExecutes(m: Machine, op: Op, keys: Keys, rnd: Byte)
    requires WellFormed(op) && m.pc + 1 < MemorySize && Fetch(m) == Encode(op)
    requires Defined(m.(pc := (m.pc + 2) % 0x1_0000), op)
    ensures CanCycle(m)
    ensures Cycle(m, keys, rnd) == Timers.Tick(Execute(m.(pc := (m.pc + 2) % 0x1_0000), op, keys, rnd))
  {
    DecodeEncode(op);
  }

  /** An iteration that fetches Fx18 sounds the tone exactly when Vx is nonzero, because the
      timer is loaded before the tick, and the tick clears it again. */
  lemma SoundCycle(m: Machine, x: Nibble, keys: Keys, rnd: Byte)
    requires m.pc + 1 < MemorySize && Fetch(m) == Encode(SetSound(x))
    ensures CanCycle(m)
    ensures var t := Cycle(m, keys, rnd);
      (t.beep <==> m.v[x] != 0) && t.machine.sound == 0
  {
    DecodeEncode(SetSound(x));
  }

  /** An iteration that fetches Fx07 stores the delay timer as it was before this iteration's
      tick, and the tick then counts the timer down. */
  lemma ReadDelayCycle(m: Machine, x: Nibble, keys: Keys, rnd: Byte)
    requires m.pc + 1 < MemorySize && Fetch(m) == Encode(ReadDelay(x))
    ensures CanCycle(m)
    ensures var r := Cycle(m, keys, rnd).machine;
      r.v[x] == m.delay && r.delay == (if m.delay > 0 then m.delay - 1 else 0)
  {
    DecodeEncode(ReadDelay(x));
  }

  /** Fx0A with no key down re-fetches itself: the iteration leaves `pc` where it was. */
  lemma WaitKeyCycle(m: Machine, x: Nibble, keys: Keys, rnd: Byte)
    requires m.pc + 1 < MemorySize && Fetch(m) == Encode(WaitKey(x))
    requires forall k | 0 <= k < KeyCount :: !keys[k]
    ensures CanCycle(m)
    ensures Cycle(m, keys, rnd).machine == Timers.Tick(m).machine
  {
    DecodeEncode(WaitKey(x));
  }

  /** Fx0A with some key down: Vx becomes 0 when key 0 is down and is left alone otherwise; no
      other part of the machine changes. */
  lemma WaitKeyPressed(m: Machine, x: Nibble, keys: Keys, rnd: Byte)
    requires exists k | 0 <= k < KeyCount :: keys[k]
    ensures var r := Execute(m, WaitKey(x), keys, rnd);
      r == m.(v := r.v) && r.v == if keys[0] then m.v[x := 0] else m.v
  {
  }

  /** 7xnn adds modulo 256 and, unlike 8xy4, sets no carry: every register other than Vx, VF
      included, keeps its value. */
  lemma AddImmWraps(m: Machine, x: Nibble, nn: Byte, keys: Keys, rnd: Byte)
    ensures var r := Execute(m, AddImm(x, nn), keys, rnd);
      r == m.(v := r.v) && r.v[x] == (m.v[x] + nn) % 0x100 &&
      forall j | 0 <= j < RegisterCount && j != x :: r.v[j] == m.v[j]
  {
  }

  /** 8xy0 copies Vy into Vx and changes nothing else, VF included unless x is F. */
  lemma CopyRegister(m: Machine, x: Nibble, y: Nibble, keys: Keys, rnd: Byte)
    ensures Execute(m, Copy(x, y), keys, rnd) == m.(v := m.v[x := m.v[y]])
  {
  }

  /** 8xy1: bit j of the new Vx is set exactly when it is set in Vx or in Vy; nothing else changes. */
  lemma OrBitwise(m: Machine, x: Nibble, y: Nibble, keys: Keys, rnd: Byte)
    ensures var r := Execute(m, Or(x, y), keys, rnd);
      r == m.(v := m.v[x := r.v[x]]) &&
      forall j | 0 <= j < 8 :: Bit(r.v[x], j) <==> Bit(m.v[x], j) || Bit(m.v[y], j)
  {
    var a, b := m.v[x], m.v[y];
    OrStores(m, x, y, keys, rnd);
    forall j | 0 <= j < 8
      ensures Bit(Or8(a, b), j) <==> Bit(a, j) || Bit(b, j)
    {
      Or8Bits(a, b, j);
    }
  }

  lemma OrStores(m: Machine, x: Nibble, y: Nibble, keys: Keys, rnd: Byte)
    ensures Execute(m, Or(x, y), keys, rnd) == m.(v := m.v[x := Or8(m.v[x], m.v[y])])
  {
  }

  /** 8xy2: bit j of the new Vx is set exactly when it is set in both Vx and Vy; nothing else
      changes. */
  lemma AndBitwise(m: Machine, x: Nibble, y: Nibble, keys: Keys, rnd: Byte)
    ensures var r := Execute(m, And(x, y), keys, rnd);
      r == m.(v := m.v[x := r.v[x]]) &&
      forall j | 0 <= j < 8 :: Bit(r.v[x], j) <==> Bit(m.v[x], j) && Bit(m.v[y], j)
  {
    var a, b := m.v[x], m.v[y];
    AndStores(m, x, y, keys, rnd);
    forall j | 0 <= j < 8
      ensures Bit(And8(a, b), j) <==> Bit(a, j) && Bit(b, j)
    {
      And8Bits(a, b, j);
    }
  }

  lemma AndStores(m: Machine, x: Nibble, y: Nibble, keys: Keys, rnd: Byte)
    ensures Execute(m, And(x, y), keys, rnd) == m.(v := m.v[x := And8(m.v[x], m.v[y])])
  {
  }

  /** 8xy3: bit j of the new Vx is set exactly when Vx and Vy differ in bit j; nothing else
      changes. */
  lemma XorBitwise(m: Machine, x: Nibble, y: Nibble, keys: Keys, rnd: Byte)
    ensures var r := Execute(m, Xor(x, y), keys, rnd);
      r == m.(v := m.v[x := r.v[x]]) &&
      forall j | 0 <= j < 8 :: Bit(r.v[x], j) <==> Bit(m.v[x], j) != Bit(m.v[y], j)
  {
    var a, b := m.v[x], m.v[y];
    XorStores(m, x, y, keys, rnd);
    forall j | 0 <= j < 8
      ensures Bit(Xor8(a, b), j) <==> Bit(a, j) != Bit(b, j)
    {
      Xor8Bits(a, b, j);
    }
  }

  lemma XorStores(m: Machine, x: Nibble, y: Nibble, keys: Keys, rnd: Byte)
    ensures Execute(m, Xor(x, y), keys, rnd) == m.(v := m.v[x := Xor8(m.v[x], m.v[y])])
  {
  }

  /** 8xy4 on two ordinary registers: the sum modulo 256, and VF is the carry. */
  lemma AddCarry(m: Machine, x: Nibble, y: Nibble, keys: Keys, rnd: Byte)
    requires x != Flag && y != Flag
    ensures var r := Execute(m, Add(x, y), keys, rnd);
      r.v[x] == (m.v[x] as int + m.v[y]) % 0x100 &&
      (r.v[Flag] == 1 <==> m.v[x] as int + m.v[y] >= 0x100) && (r.v[Flag] == 0 <==> m.v[x] as int + m.v[y] < 0x100)
  {
  }

  /** 8Fy4: the carry is written to VF first and then VF is the left operand, so VF ends up as the
      carry plus Vy, not as the carry. */
  lemma AddIntoFlag(m: Machine, y: Nibble, keys: Keys, rnd: Byte)
    requires y != Flag
    ensures var carry := if m.v[Flag] as int + m.v[y] > 0xFF then 1 else 0;
      Execute(m, Add(Flag, y), keys, rnd).v[Flag] == (carry + m.v[y] as int) % 0x100
  {
  }

  /** 8xy5: the difference modulo 256, and VF is 1 exactly when there is no borrow (Vx >= Vy). */
  lemma SubBorrow(m: Machine, x: Nibble, y: Nibble, keys: Keys, rnd: Byte)
    requires x != Flag && y != Flag
    ensures var r := Execute(m, Sub(x, y), keys, rnd);
      r.v[x] == (m.v[x] as int - m.v[y]) % 0x100 &&
      (r.v[Flag] == 1 <==> m.v[x] >= m.v[y]) && (r.v[Flag] == 0 <==> m.v[x] < m.v[y])
  {
  }

  /** 8xy7: Vy - Vx modulo 256, and VF is 1 only when Vx < Vy strictly: equal operands give 0. */
  lemma SubReverseBorrow(m: Machine, x: Nibble, y: Nibble, keys: Keys, rnd: Byte)
    requires x != Flag && y != Flag
    ensures var r := Execute(m, SubReverse(x, y), keys, rnd);
      r.v[x] == (m.v[y] as int - m.v[x]) % 0x100 &&
      (r.v[Flag] == 1 <==> m.v[x] < m.v[y]) && (r.v[Flag] == 0 <==> m.v[y] <= m.v[x])
  {
  }

  /** 8xy6: Vx halves; VF becomes 1 when the bit shifted out is 1 and otherwise keeps its value. */
  lemma ShiftRightFlag(m: Machine, x: Nibble, y: Nibble, keys: Keys, rnd: Byte)
    requires x != Flag
    ensures var r := Execute(m, ShiftRight(x, y), keys, rnd);
      r.v[x] == m.v[x] / 2 && r.v[Flag] == (if m.v[x] % 2 == 1 then 1 else m.v[Flag]) &&
      r == m.(v := m.v[x := r.v[x]][Flag := r.v[Flag]])
  {
  }

  /** 8xyE: Vx doubles modulo 256; VF becomes 1 when the top bit is 1 and otherwise keeps its value. */
  lemma ShiftLeftFlag(m: Machine, x: Nibble, y: Nibble, keys: Keys, rnd: Byte)
    requires x != Flag
    ensures var r := Execute(m, ShiftLeft(x, y), keys, rnd);
      r.v[x] == (2 * m.v[x] as int) % 0x100 && r.v[Flag] == (if m.v[x] >= 0x80 then 1 else m.v[Flag]) &&
      r == m.(v := m.v[x := r.v[x]][Flag := r.v[Flag]])
  {
  }

  /** 8xF4: the carry of Vx + VF is written to VF first and is then the value added, so Vx gains
      the carry, not the old VF; for 8FF4 VF ends up twice the carry. */
  lemma AddFromFlag(m: Machine, x: Nibble, keys: Keys, rnd: Byte)
    ensures var c := if m.v[x] as int + m.v[Flag] > 0xFF then 1 else 0;
      var r := Execute(m, Add(x, Flag), keys, rnd);
      r == m.(v := m.v[x := r.v[x]][Flag := r.v[Flag]]) &&
      (x != Flag ==> r.v[x] == (m.v[x] as int + c) % 0x100 && r.v[Flag] == c) &&
      (x == Flag ==> r.v[Flag] == 2 * c)
  {
  }

  /** 8Fy5: the no-borrow flag is written to VF first and then VF is the left operand, so VF ends
      up as the flag minus Vy modulo 256. */
  lemma SubIntoFlag(m: Machine, y: Nibble, keys: Keys, rnd: Byte)
    requires y != Flag
    ensures var f := if m.v[Flag] >= m.v[y] then 1 else 0;
      var r := Execute(m, Sub(Flag, y), keys, rnd);
      r == m.(v := m.v[Flag := r.v[Flag]]) && r.v[Flag] == (f - m.v[y] as int) % 0x100
  {
  }

  /** 8xF5: the no-borrow flag is written to VF first and is then the value subtracted; 8FF5 always
      leaves VF at 0. */
  lemma SubFromFlag(m: Machine, x: Nibble, keys: Keys, rnd: Byte)
    ensures var f := if m.v[x] >= m.v[Flag] then 1 else 0;
      var r := Execute(m, Sub(x, Flag), keys, rnd);
      r == m.(v := m.v[x := r.v[x]][Flag := r.v[Flag]]) &&
      (x != Flag ==> r.v[x] == (m.v[x] as int - f) % 0x100 && r.v[Flag] == f) &&
      (x == Flag ==> r.v[Flag] == 0)
  {
  }

  /** 8Fy7: the borrow test writes VF first and VF is then the value subtracted from Vy. */
  lemma SubReverseIntoFlag(m: Machine, y: Nibble, keys: Keys, rnd: Byte)
    requires y != Flag
    ensures var f := if m.v[Flag] < m.v[y] then 1 else 0;
      var r := Execute(m, SubReverse(Flag, y), keys, rnd);
      r == m.(v := m.v[Flag := r.v[Flag]]) && r.v[Flag] == (m.v[y] as int - f) % 0x100
  {
  }

  /** 8xF7: the flag written to VF is then the value Vx is subtracted from; 8FF7 always leaves VF
      at 0. */
  lemma SubReverseFromFlag(m: Machine, x: Nibble, keys: Keys, rnd: Byte)
    ensures var f := if m.v[x] < m.v[Flag] then 1 else 0;
      var r := Execute(m, SubReverse(x, Flag), keys, rnd);
      r == m.(v := m.v[x := r.v[x]][Flag := r.v[Flag]]) &&
      (x != Flag ==> r.v[x] == (f - m.v[x] as int) % 0x100 && r.v[Flag] == f) &&
      (x == Flag ==> r.v[Flag] == 0)
  {
  }

  /** 8Fy6: a set low bit first makes VF 1, which the shift then turns into 0; otherwise VF is
      simply halved. */
  lemma ShiftRightIntoFlag(m: Machine, y: Nibble, keys: Keys, rnd: Byte)
    ensures Execute(m, ShiftRight(Flag, y), keys, rnd) ==
            m.(v := m.v[Flag := if m.v[Flag] % 2 == 1 then 0 else m.v[Flag] / 2])
  {
  }

  /** 8FyE: a set top bit first makes VF 1, which the shift then turns into 2; otherwise VF is
      simply doubled. */
  lemma ShiftLeftIntoFlag(m: Machine, y: Nibble, keys: Keys, rnd: Byte)
    ensures Execute(m, ShiftLeft(Flag, y), keys, rnd) ==
            m.(v := m.v[Flag := if m.v[Flag] >= 0x80 then 2 else 2 * m.v[Flag]])
  {
  }

  /** Cxnn: bit j of the new Vx is set exactly when it is set in both the random byte and nn, so
      the result has no bit that nn lacks; nothing else changes. */
  lemma RandomMasked(m: Machine, x: Nibble, nn: Byte, keys: Keys, rnd: Byte)
    ensures var r := Execute(m, Random(x, nn), keys, rnd);
      r == m.(v := m.v[x := r.v[x]]) && r.v[x] <= nn && (nn == 0 ==> r.v[x] == 0) &&
      forall j | 0 <= j < 8 :: Bit(r.v[x], j) <==> Bit(rnd, j) && Bit(nn, j)
  {
    RandomStores(m, x, nn, keys, rnd);
    forall j | 0 <= j < 8
      ensures Bit(And8(rnd, nn), j) <==> Bit(rnd, j) && Bit(nn, j)
    {
      And8Bits(rnd, nn, j);
    }
  }

  lemma RandomStores(m: Machine, x: Nibble, nn: Byte, keys: Keys, rnd: Byte)
    ensures Execute(m, Random(x, nn), keys, rnd) == m.(v := m.v[x := And8(rnd, nn)])
  {
  }

  /** Fx1E: VF reports whether I + Vx left the 12-bit address space, I wraps to 12 bits, and the
      value added is the register as it reads after the flag write (which matters for x = F). */
  lemma AddIndexFlag(m: Machine, x: Nibble, keys: Keys, rnd: Byte)
    ensures var r := Execute(m, AddIndex(x), keys, rnd);
      (r.v[Flag] == 1 <==> m.i + m.v[x] > 0xFFF) && (r.v[Flag] == 0 <==> m.i + m.v[x] <= 0xFFF) &&
      r.i == (m.i + r.v[x]) % 0x1000 && r.i < 0x1000 &&
      (x != Flag ==> r.v[x] == m.v[x]) &&
      r == m.(v := m.v[Flag := r.v[Flag]], i := r.i)
  {
    var v1 := m.v[Flag := if m.i + m.v[x] > 0xFFF then 1 else 0];
    Wrap16Low12(m.i as int + v1[x]);
  }

  /** Fx29 points I at the glyph of the low nibble of Vx, and with the font installed the five
      bytes there are that glyph. */
  lemma FontCharLocates(m: Machine, x: Nibble, keys: Keys, rnd: Byte)
    requires HoldsFont(m.memory)
    ensures var r := Execute(m, FontChar(x), keys, rnd);
      r.i == FontLocation + 5 * (m.v[x] % 16) && r.i + 5 <= ProgramStart &&
      r.memory[r.i .. r.i + 5] == GlyphRows(m.v[x] % 16)
  {
    var g: Nibble := m.v[x] % 16;
    var r := Execute(m, FontChar(x), keys, rnd);
    assert r == m.(i := FontLocation + 5 * g);
    FontGlyphInMemory(m.memory, g);
  }

  /** Fx33 as the interpreter has it: the tens digit lands at I (over the hundreds digit), I + 1
      keeps its old byte, the ones digit lands at I + 2, and no other byte changes. */
  lemma StoreBcdQuirk(m: Machine, x: Nibble, keys: Keys, rnd: Byte)
    requires m.i + 2 < MemorySize
    ensures var r := Execute(m, StoreBcd(x), keys, rnd);
      r.memory[m.i] == (m.v[x] / 10) % 10 && r.memory[m.i + 1] == m.memory[m.i + 1] &&
      r.memory[m.i + 2] == m.v[x] % 10 &&
      (forall a | 0 <= a < MemorySize && a != m.i && a != m.i + 2 :: r.memory[a] == m.memory[a]) &&
      r == m.(memory := r.memory)
  {
    var d := m.v[x];
    TensDigit(d);
    var mem := m.memory[m.i := (d % 100) / 10][m.i + 2 := d % 10];
    assert Execute(m, StoreBcd(x), keys, rnd) == m.(memory := mem) by {
      assert Special(m, StoreBcd(x), keys) == m.(memory := mem);
    }
  }

  /** The tens digit of a byte, as Fx33 computes it. */
  lemma TensDigit(d: Byte)
    ensures (d % 100) / 10 == (d / 10) % 10
  {
  }

  /** Fx55 writes V0..Vx to I..I+x and leaves the rest of memory and the machine alone. */
  lemma StoreRegsContents(m: Machine, x: Nibble, keys: Keys, rnd: Byte)
    requires m.i + x < MemorySize
    ensures var r := Execute(m, StoreRegs(x), keys, rnd);
      r.memory[m.i .. m.i + x + 1] == m.v[.. x + 1] &&
      (forall a | 0 <= a < MemorySize && !(m.i <= a <= m.i + x) :: r.memory[a] == m.memory[a]) &&
      r == m.(memory := r.memory)
  {
  }

  /** Fx65 reads V0..Vx from I..I+x and leaves the higher registers and the machine alone. */
  lemma LoadRegsContents(m: Machine, x: Nibble, keys: Keys, rnd: Byte)
    requires m.i + x < MemorySize
    ensures var r := Execute(m, LoadRegs(x), keys, rnd);
      r.v[.. x + 1] == m.memory[m.i .. m.i + x + 1] && r.v[x + 1 ..] == m.v[x + 1 ..] &&
      r == m.(v := r.v)
  {
  }

  /** Fx55 then Fx65 with the same x and I gives the registers back unchanged. */
  lemma {:induction false} StoreThenLoad(m: Machine, x: Nibble, keys: Keys, rnd: Byte)
    requires m.i + x < MemorySize
    ensures var stored := Execute(m, StoreRegs(x), keys, rnd);
      Defined(stored, LoadRegs(x)) && Execute(stored, LoadRegs(x), keys, rnd) == stored
  {
    var stored := Execute(m, StoreRegs(x), keys, rnd);
    var loaded := Execute(stored, LoadRegs(x), keys, rnd);
    assert forall k | 0 <= k < RegisterCount :: loaded.v[k] == stored.v[k];
    assert loaded.v == stored.v;
  }

  /** 00E0 clears every pixel and touches nothing else. */
  lemma ClearScreenBlanks(m: Machine, keys: Keys, rnd: Byte)
    ensures var r := Execute(m, ClearScreen, keys, rnd);
      IsBlank(r.display) && r == m.(display := r.display)
  {
  }

  /** Bnnn jumps to nnn plus V0, which never leaves the 16-bit `pc`. */
  lemma JumpOffsetTarget(m: Machine, nnn: Addr12, keys: Keys, rnd: Byte)
    ensures var r := Execute(m, JumpOffset(nnn), keys, rnd);
      r.pc == nnn + m.v[0] && r.pc <= 0xFFF + 0xFF && r == m.(pc := r.pc)
  {
  }

  /** 1nnn sets `pc` to nnn and changes nothing else. */
  lemma JumpTarget(m: Machine, nnn: Addr12, keys: Keys, rnd: Byte)
    ensures Execute(m, Jump(nnn), keys, rnd) == m.(pc := nnn)
  {
  }

  /** 6xnn stores nn in Vx and changes nothing else. */
  lemma SetImmStores(m: Machine, x: Nibble, nn: Byte, keys: Keys, rnd: Byte)
    ensures Execute(m, SetImm(x, nn), keys, rnd) == m.(v := m.v[x := nn])
  {
  }

  /** Annn sets I to nnn and changes nothing else. */
  lemma SetIndexStores(m: Machine, nnn: Addr12, keys: Keys, rnd: Byte)
    ensures Execute(m, SetIndex(nnn), keys, rnd) == m.(i := nnn)
  {
  }

  /** 3xnn skips when Vx equals nn and 4xnn when it differs; a skip moves `pc` on by two bytes
      and nothing else changes. */
  lemma SkipOnImmediate(m: Machine, x: Nibble, nn: Byte, keys: Keys, rnd: Byte)
    ensures Execute(m, SkipEqImm(x, nn), keys, rnd) ==
            m.(pc := if m.v[x] == nn then (m.pc + 2) % 0x1_0000 else m.pc)
    ensures Execute(m, SkipNeImm(x, nn), keys, rnd) ==
            m.(pc := if m.v[x] != nn then (m.pc + 2) % 0x1_0000 else m.pc)
  {
  }

  /** 5xy0 skips when Vx equals Vy; the low nibble n is ignored. */
  lemma SkipOnEqualRegisters(m: Machine, x: Nibble, y: Nibble, n: Nibble, keys: Keys, rnd: Byte)
    ensures Execute(m, SkipEqReg(x, y, n), keys, rnd) ==
            m.(pc := if m.v[x] == m.v[y] then (m.pc + 2) % 0x1_0000 else m.pc)
  {
  }

  /** 9xy0 skips when Vx and Vy differ; the low nibble n is ignored. */
  lemma SkipOnDifferentRegisters(m: Machine, x: Nibble, y: Nibble, n: Nibble, keys: Keys, rnd: Byte)
    ensures Execute(m, SkipNeReg(x, y, n), keys, rnd) ==
            m.(pc := if m.v[x] != m.v[y] then (m.pc + 2) % 0x1_0000 else m.pc)
  {
  }

  /** Ex9E skips when the key numbered by the low nibble of Vx is down, and ExA1 when it is up. */
  lemma SkipOnKey(m: Machine, x: Nibble, keys: Keys, rnd: Byte)
    ensures Execute(m, SkipKey(x), keys, rnd) ==
            m.(pc := if keys[m.v[x] % 16] then (m.pc + 2) % 0x1_0000 else m.pc)
    ensures Execute(m, SkipNotKey(x), keys, rnd) ==
            m.(pc := if !keys[m.v[x] % 16] then (m.pc + 2) % 0x1_0000 else m.pc)
  {
  }

  /** Fx07 copies the delay timer into Vx and changes nothing else. */
  lemma ReadDelayStores(m: Machine, x: Nibble, keys: Keys, rnd: Byte)
    ensures Execute(m, ReadDelay(x), keys, rnd) == m.(v := m.v[x := m.delay])
  {
  }

  /** Fx15 and Fx18 load the delay and the sound timer from Vx and change nothing else. */
  lemma TimerLoads(m: Machine, x: Nibble, keys: Keys, rnd: Byte)
    ensures Execute(m, SetDelay(x), keys, rnd) == m.(delay := m.v[x])
    ensures Execute(m, SetSound(x), keys, rnd) == m.(sound := m.v[x])
  {
  }
}
