/** The fetch-decode-execute engine: `Chip8::Fetch`, the instruction bodies of `Chip8::Decode`,
    and one iteration of the main loop of `Chip8::Run`. */
module Engine {
  import opened Bytes
  import opened State
  import opened Opcodes
  import Sprite
  import Timers

  /** `Chip8::Fetch`: the two bytes at `pc` and `pc + 1`, read without a bounds check. */
  function Fetch(m: Machine): Instruction
    requires m.pc + 1 < MemorySize
  {
    Instruction(m.memory[m.pc], m.memory[m.pc + 1])
  }

  /** The instruction has defined behaviour: a return finds a return address on the stack, and
      every memory access the instruction makes lies inside memory. */
  predicate Defined(m: Machine, op: Op)
  {
    match op
    case Return => |m.stack| > 0
    case Draw(_, y, n) => Sprite.CanDraw(m, y, n)
    case StoreBcd(_) => m.i + 2 < MemorySize
    case StoreRegs(x) => m.i + x < MemorySize
    case LoadRegs(x) => m.i + x < MemorySize
    case _ => true
  }

  /** `pc += 2` on a `std::uint16_t`. */
  function SkipIf(m: Machine, cond: bool): (r: Machine)
    ensures r == m.(pc := r.pc)
    ensures cond ==> r.pc == (m.pc + 2) % 0x1_0000
    ensures !cond ==> r.pc == m.pc
  {
    if cond then m.(pc := Wrap16(m.pc as int + 2)) else m
  }

  /** The conditional skips 3xnn, 4xnn, 5xy0, 9xy0, Ex9E and ExA1: only `pc` can change. */
  function Branch(m: Machine, op: Op, keys: Keys): (r: Machine)
    requires op.SkipEqImm? || op.SkipNeImm? || op.SkipEqReg? || op.SkipNeReg? || op.SkipKey? ||
             op.SkipNotKey?
    ensures r == m.(pc := r.pc)
  {
    var v := m.v;
    match op
    case SkipEqImm(x, nn) => SkipIf(m, v[x] == nn)
    case SkipNeImm(x, nn) => SkipIf(m, v[x] != nn)
    case SkipEqReg(x, y, _) => SkipIf(m, v[x] == v[y])
    case SkipNeReg(x, y, _) => SkipIf(m, v[x] != v[y])
    case SkipKey(x) => SkipIf(m, keys[v[x] % 16])
    case SkipNotKey(x) => SkipIf(m, !keys[v[x] % 16])
  }

  /** The flag write of 8xy4, 8xy5, 8xy7 and Fx1E: 1 when `cond` holds, 0 otherwise. */
  function SetFlag(v: Registers, cond: bool): Registers
  {
    v[Flag := if cond then 1 else 0]
  }

  /** The loop of Fx55: memory[I + k] := Vk for k = 0..x. */
  function StoreBlock(mem: Memory, base: nat, v: Registers, x: Nibble): Memory
    requires base + x < MemorySize
  {
    seq(MemorySize, a requires 0 <= a < MemorySize => if base <= a <= base + x then v[a - base] else mem[a])
  }

  /** The loop of Fx65: Vk := memory[I + k] for k = 0..x. */
  function LoadBlock(v: Registers, mem: Memory, base: nat, x: Nibble): Registers
    requires base + x < MemorySize
  {
    seq(RegisterCount, k requires 0 <= k < RegisterCount => if k <= x then mem[base + k] else v[k])
  }

  /** 8xy0 to 8xy3: Vx takes Vy, or the bitwise combination of Vx and Vy; no flag is written. */
  function Logic(m: Machine, op: Op): (r: Machine)
    requires op.Copy? || op.Or? || op.And? || op.Xor?
    ensures r == m.(v := m.v[op.x := r.v[op.x]])
  {
    var v := m.v;
    match op
    case Copy(x, y) => m.(v := v[x := v[y]])
    case Or(x, y) => m.(v := v[x := Or8(v[x], v[y])])
    case And(x, y) => m.(v := v[x := And8(v[x], v[y])])
    case Xor(x, y) => m.(v := v[x := Xor8(v[x], v[y])])
  }

  /** 8xy4 to 8xyE. The flag is written before the result is formed, so when x or y is F the
      result is computed from the new flag value, as the source does. */
  function Arithmetic(m: Machine, op: Op): (r: Machine)
    requires op.Add? || op.Sub? || op.ShiftRight? || op.SubReverse? || op.ShiftLeft?
    ensures r == m.(v := r.v)
    ensures forall j | 0 <= j < RegisterCount && j != op.x && j != Flag :: r.v[j] == m.v[j]
  {
    var v := m.v;
    match op
    case Add(x, y) =>
      var v1 := SetFlag(v, v[x] as int + v[y] as int > 0xFF);
      m.(v := v1[x := Wrap8(v1[x] as int + v1[y] as int)])
    case Sub(x, y) =>
      var v1 := SetFlag(v, v[x] >= v[y]);
      m.(v := v1[x := Wrap8(v1[x] as int - v1[y] as int)])
    case ShiftRight(x, _) =>
      var v1 := if Bit(v[x], 0) then v[Flag := 1] else v;
      m.(v := v1[x := v1[x] / 2])
    case SubReverse(x, y) =>
      var v1 := SetFlag(v, v[x] < v[y]);
      m.(v := v1[x := Wrap8(v1[y] as int - v1[x] as int)])
    case ShiftLeft(x, _) =>
      var v1 := if Bit(v[x], 7) then v[Flag := 1] else v;
      m.(v := v1[x := Wrap8(v1[x] as int * 2)])
  }

  /** The Fx__ family. */
  function Special(m: Machine, op: Op, keys: Keys): (r: Machine)
    requires IsSpecial(op)
    requires Defined(m, op)
    ensures r.stack == m.stack && r.display == m.display
  {
    var v := m.v;
    match op
    case ReadDelay(x) => m.(v := v[x := m.delay])
    case WaitKey(x) =>
      // With no key down the instruction is fetched again. Otherwise the search loop stops
      // after key 0 whatever its state, so Vx is written only when key 0 is down.
      if forall k | 0 <= k < KeyCount :: !keys[k] then m.(pc := Wrap16(m.pc as int - 2))
      else if keys[0] then m.(v := v[x := 0])
      else m
    case SetDelay(x) => m.(delay := v[x])
    case SetSound(x) => m.(sound := v[x])
    case AddIndex(x) =>
      var v1 := SetFlag(v, m.i as int + v[x] as int > 0xFFF);
      m.(v := v1, i := Wrap16(m.i as int + v1[x] as int) % 0x1000)
    case FontChar(x) => m.(i := FontLocation + 5 * (v[x] % 16))
    case StoreBcd(x) =>
      // The tens digit is stored at I over the hundreds digit; I + 1 is not written.
      var mem1 := m.memory[m.i := v[x] / 100];
      var mem2 := mem1[m.i := (v[x] % 100) / 10];
      m.(memory := mem2[m.i + 2 := v[x] % 10])
    case StoreRegs(x) => m.(memory := StoreBlock(m.memory, m.i, v, x))
    case LoadRegs(x) => m.(v := LoadBlock(v, m.memory, m.i, x))
  }

  /** The effect of one decoded instruction, `pc` already advanced past it. `keys` is the keypad
      state and `rnd` the byte the random generator produces for Cxnn. */
  function Execute(m: Machine, op: Op, keys: Keys, rnd: Byte): (r: Machine)
    requires Defined(m, op)
    ensures op.Unknown? ==> r == m
    ensures r.stack == m.stack || op.Call? || op.Return?
    ensures r.memory == m.memory || op.StoreBcd? || op.StoreRegs?
    ensures r.display == m.display || op.ClearScreen? || op.Draw?
    ensures r.delay == m.delay || op.SetDelay?
    ensures r.sound == m.sound || op.SetSound?
    ensures r.i == m.i || op.SetIndex? || op.AddIndex? || op.FontChar?
    ensures r.i < 0x1000 || r.i == m.i
    ensures r.pc == m.pc || op.Return? || op.Jump? || op.Call? || op.JumpOffset? || op.WaitKey? ||
            op.SkipEqImm? || op.SkipNeImm? || op.SkipEqReg? || op.SkipNeReg? || op.SkipKey? || op.SkipNotKey?
    ensures r.v == m.v || op.SetImm? || op.AddImm? || op.Random? || op.Draw? || op.ReadDelay? ||
            op.WaitKey? || op.AddIndex? || op.LoadRegs? || IsArithmetic(op)
  {
    if op.Copy? || op.Or? || op.And? || op.Xor? then Logic(m, op)
    else if IsArithmetic(op) then Arithmetic(m, op)
    else if IsSpecial(op) then Special(m, op, keys)
    else if op.SkipEqImm? || op.SkipNeImm? || op.SkipEqReg? || op.SkipNeReg? || op.SkipKey? ||
            op.SkipNotKey? then Branch(m, op, keys)
    else
      var v := m.v;
      match op
      case ClearScreen => m.(display := Blank())
      case Return => m.(pc := m.stack[|m.stack| - 1], stack := m.stack[.. |m.stack| - 1])
      case Jump(nnn) => m.(pc := nnn)
      case Call(nnn) => m.(stack := m.stack + [m.pc], pc := nnn)
      case SetImm(x, nn) => m.(v := v[x := nn])
      case AddImm(x, nn) => m.(v := v[x := Wrap8(v[x] as int + nn as int)])
      case SetIndex(nnn) => m.(i := nnn)
      case JumpOffset(nnn) => m.(pc := nnn + v[0])
      case Random(x, nn) => m.(v := v[x := And8(rnd, nn)])
      case Draw(x, y, n) => Sprite.DrawSprite(m, x, y, n)
      case Unknown(_) => m
      case _ => assert false; m
  }

  /** `Chip8::Decode(instruction)`: decode, then execute. A pattern the interpreter does not
      recognise changes nothing. */
  function Step(m: Machine, ins: Instruction, keys: Keys, rnd: Byte): (r: Machine)
    requires Defined(m, Decode(ins))
    ensures Unassigned(ins) ==> r == m
  {
    Execute(m, Decode(ins), keys, rnd)
  }

  /** `pc += 2` after the fetch, on a `std::uint16_t`. */
  function Advance(m: Machine): Machine
  {
    m.(pc := Wrap16(m.pc as int + 2))
  }

  /** The iteration can run without undefined behaviour: the fetch is inside memory and the
      fetched instruction is defined once `pc` has been advanced. */
  predicate CanCycle(m: Machine)
  {
    m.pc + 1 < MemorySize && Defined(Advance(m), Decode(Fetch(m)))
  }

  /** One iteration of the main loop: fetch, advance `pc`, decode and execute, tick the timers.
      Rendering, input polling and the pause are left to the collaborators. */
  function Cycle(m: Machine, keys: Keys, rnd: Byte): (t: Timers.Ticked)
    requires CanCycle(m)
  {
    Timers.Tick(Step(Advance(m), Fetch(m), keys, rnd))
  }
}
