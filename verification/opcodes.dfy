/** Instructions as fetched (two bytes) and as decoded (one constructor per opcode the interpreter
    recognises), with the field extraction of `Chip8::Decode` and its exact inverse. */
module Opcodes {
  import opened Bytes

  /** The pair (`first`, `second`) that `Fetch` returns: the high and the low byte of an opcode. */
  datatype Instruction = Instruction(hi: Byte, lo: Byte)

  /** A decoded instruction. Fields the interpreter ignores (`n` of 5xyn and 9xyn, `y` of the
      shifts) are kept so that no two instructions decode alike. */
  datatype Op =
    | ClearScreen                              // 00E0
    | Return                                   // 00EE
    | Jump(nnn: Addr12)                        // 1nnn
    | Call(nnn: Addr12)                        // 2nnn
    | SkipEqImm(x: Nibble, nn: Byte)           // 3xnn
    | SkipNeImm(x: Nibble, nn: Byte)           // 4xnn
    | SkipEqReg(x: Nibble, y: Nibble, n: Nibble) // 5xyn
    | SetImm(x: Nibble, nn: Byte)              // 6xnn
    | AddImm(x: Nibble, nn: Byte)              // 7xnn
    | Copy(x: Nibble, y: Nibble)               // 8xy0
    | Or(x: Nibble, y: Nibble)                 // 8xy1
    | And(x: Nibble, y: Nibble)                // 8xy2
    | Xor(x: Nibble, y: Nibble)                // 8xy3
    | Add(x: Nibble, y: Nibble)                // 8xy4
    | Sub(x: Nibble, y: Nibble)                // 8xy5
    | ShiftRight(x: Nibble, y: Nibble)         // 8xy6
    | SubReverse(x: Nibble, y: Nibble)         // 8xy7
    | ShiftLeft(x: Nibble, y: Nibble)          // 8xyE
    | SkipNeReg(x: Nibble, y: Nibble, n: Nibble) // 9xyn
    | SetIndex(nnn: Addr12)                    // Annn
    | JumpOffset(nnn: Addr12)                  // Bnnn
    | Random(x: Nibble, nn: Byte)              // Cxnn
    | Draw(x: Nibble, y: Nibble, n: Nibble)    // Dxyn
    | SkipKey(x: Nibble)                       // Ex9E
    | SkipNotKey(x: Nibble)                    // ExA1
    | ReadDelay(x: Nibble)                     // Fx07
    | WaitKey(x: Nibble)                       // Fx0A
    | SetDelay(x: Nibble)                      // Fx15
    | SetSound(x: Nibble)                      // Fx18
    | AddIndex(x: Nibble)                      // Fx1E
    | FontChar(x: Nibble)                      // Fx29
    | StoreBcd(x: Nibble)                      // Fx33
    | StoreRegs(x: Nibble)                     // Fx55
    | LoadRegs(x: Nibble)                      // Fx65
    | Unknown(ins: Instruction)                // reported and ignored

  /** The 8xy_ family: register-to-register logic and arithmetic. */
  predicate IsArithmetic(op: Op)
  {
    op.Copy? || op.Or? || op.And? || op.Xor? || op.Add? || op.Sub? || op.ShiftRight? ||
    op.SubReverse? || op.ShiftLeft?
  }

  /** The Fx__ family: timers, keypad wait, index arithmetic and memory block moves. */
  predicate IsSpecial(op: Op)
  {
    op.ReadDelay? || op.WaitKey? || op.SetDelay? || op.SetSound? || op.AddIndex? ||
    op.FontChar? || op.StoreBcd? || op.StoreRegs? || op.LoadRegs?
  }

  /** Bit patterns the interpreter reports as unknown: a family whose sub-code is not one it
      recognises. Families 1-7 and 9-D have no sub-code, so every pattern in them is recognised. */
  predicate Unassigned(ins: Instruction)
  {
    var family := ins.hi / 16;
    || (family == 0x0 && ins.hi != 0x00)
    || (family == 0x0 && ins.lo !in {0xE0, 0xEE})
    || (family == 0x8 && ins.lo % 16 !in {0x0, 0x1, 0x2, 0x3, 0x4, 0x5, 0x6, 0x7, 0xE})
    || (family == 0xE && ins.lo !in {0x9E, 0xA1})
    || (family == 0xF && ins.lo !in {0x07, 0x0A, 0x15, 0x18, 0x1E, 0x29, 0x33, 0x55, 0x65})
  }

  /** The field extraction and dispatch of `Chip8::Decode`. Decoding loses nothing: encoding
      the result gives back the instruction. */
  function Decode(ins: Instruction): (op: Op)
    ensures Encode(op) == ins
    ensures op.Unknown? <==> Unassigned(ins)
  {
    var family := ins.hi / 16;
    var x: Nibble := ins.hi % 16;
    var y: Nibble := ins.lo / 16;
    var n: Nibble := ins.lo % 16;
    var nn: Byte := ins.lo;
    var nnn: Addr12 := x * 0x100 + ins.lo;
    match family
    case 0x0 => DecodeSystem(ins)
    case 0x1 => Jump(nnn)
    case 0x2 => Call(nnn)
    case 0x3 => SkipEqImm(x, nn)
    case 0x4 => SkipNeImm(x, nn)
    case 0x5 => SkipEqReg(x, y, n)
    case 0x6 => SetImm(x, nn)
    case 0x7 => AddImm(x, nn)
    case 0x8 => DecodeArithmetic(ins)
    case 0x9 => SkipNeReg(x, y, n)
    case 0xA => SetIndex(nnn)
    case 0xB => JumpOffset(nnn)
    case 0xC => Random(x, nn)
    case 0xD => Draw(x, y, n)
    case 0xE => DecodeKeys(ins)
    case 0xF => DecodeSpecial(ins)
  }

  /** The 0___ family: only 00E0 and 00EE are recognised. */
  function DecodeSystem(ins: Instruction): (op: Op)
    requires ins.hi / 16 == 0x0
    ensures Encode(op) == ins
    ensures op.Unknown? <==> Unassigned(ins)
  {
    if ins == Instruction(0x00, 0xE0) then ClearScreen
    else if ins == Instruction(0x00, 0xEE) then Return
    else Unknown(ins)
  }

  /** The 8xy_ family, dispatched on its last nibble. */
  function DecodeArithmetic(ins: Instruction): (op: Op)
    requires ins.hi / 16 == 0x8
    ensures Encode(op) == ins
    ensures op.Unknown? <==> Unassigned(ins)
  {
    var x: Nibble := ins.hi % 16;
    var y: Nibble := ins.lo / 16;
    var n: Nibble := ins.lo % 16;
    if n == 0x0 then Copy(x, y)
    else if n == 0x1 then Or(x, y)
    else if n == 0x2 then And(x, y)
    else if n == 0x3 then Xor(x, y)
    else if n == 0x4 then Add(x, y)
    else if n == 0x5 then Sub(x, y)
    else if n == 0x6 then ShiftRight(x, y)
    else if n == 0x7 then SubReverse(x, y)
    else if n == 0xE then ShiftLeft(x, y)
    else Unknown(ins)
  }

  /** The Ex__ family, dispatched on its second byte. */
  function DecodeKeys(ins: Instruction): (op: Op)
    requires ins.hi / 16 == 0xE
    ensures Encode(op) == ins
    ensures op.Unknown? <==> Unassigned(ins)
  {
    var x: Nibble := ins.hi % 16;
    if ins.lo == 0x9E then SkipKey(x)
    else if ins.lo == 0xA1 then SkipNotKey(x)
    else Unknown(ins)
  }

  /** The Fx__ family, dispatched on its second byte. */
  function DecodeSpecial(ins: Instruction): (op: Op)
    requires ins.hi / 16 == 0xF
    ensures Encode(op) == ins
    ensures op.Unknown? <==> Unassigned(ins)
  {
    var x: Nibble := ins.hi % 16;
    var nn := ins.lo;
    if nn == 0x07 then ReadDelay(x)
    else if nn == 0x0A then WaitKey(x)
    else if nn == 0x15 then SetDelay(x)
    else if nn == 0x18 then SetSound(x)
    else if nn == 0x1E then AddIndex(x)
    else if nn == 0x29 then FontChar(x)
    else if nn == 0x33 then StoreBcd(x)
    else if nn == 0x55 then StoreRegs(x)
    else if nn == 0x65 then LoadRegs(x)
    else Unknown(ins)
  }

  function Pack(family: Nibble, x: Nibble, lo: Byte): Instruction
  {
    Instruction(family * 16 + x, lo)
  }

  function Nibbles(y: Nibble, n: Nibble): Byte
  {
    y * 16 + n
  }

  /** The standard two-byte encoding of an instruction. */
  function Encode(op: Op): Instruction
  {
    match op
    case ClearScreen => Instruction(0x00, 0xE0)
    case Return => Instruction(0x00, 0xEE)
    case Jump(nnn) => Pack(0x1, nnn / 0x100, nnn % 0x100)
    case Call(nnn) => Pack(0x2, nnn / 0x100, nnn % 0x100)
    case SkipEqImm(x, nn) => Pack(0x3, x, nn)
    case SkipNeImm(x, nn) => Pack(0x4, x, nn)
    case SkipEqReg(x, y, n) => Pack(0x5, x, Nibbles(y, n))
    case SetImm(x, nn) => Pack(0x6, x, nn)
    case AddImm(x, nn) => Pack(0x7, x, nn)
    case Copy(x, y) => Pack(0x8, x, Nibbles(y, 0x0))
    case Or(x, y) => Pack(0x8, x, Nibbles(y, 0x1))
    case And(x, y) => Pack(0x8, x, Nibbles(y, 0x2))
    case Xor(x, y) => Pack(0x8, x, Nibbles(y, 0x3))
    case Add(x, y) => Pack(0x8, x, Nibbles(y, 0x4))
    case Sub(x, y) => Pack(0x8, x, Nibbles(y, 0x5))
    case ShiftRight(x, y) => Pack(0x8, x, Nibbles(y, 0x6))
    case SubReverse(x, y) => Pack(0x8, x, Nibbles(y, 0x7))
    case ShiftLeft(x, y) => Pack(0x8, x, Nibbles(y, 0xE))
    case SkipNeReg(x, y, n) => Pack(0x9, x, Nibbles(y, n))
    case SetIndex(nnn) => Pack(0xA, nnn / 0x100, nnn % 0x100)
    case JumpOffset(nnn) => Pack(0xB, nnn / 0x100, nnn % 0x100)
    case Random(x, nn) => Pack(0xC, x, nn)
    case Draw(x, y, n) => Pack(0xD, x, Nibbles(y, n))
    case SkipKey(x) => Pack(0xE, x, 0x9E)
    case SkipNotKey(x) => Pack(0xE, x, 0xA1)
    case ReadDelay(x) => Pack(0xF, x, 0x07)
    case WaitKey(x) => Pack(0xF, x, 0x0A)
    case SetDelay(x) => Pack(0xF, x, 0x15)
    case SetSound(x) => Pack(0xF, x, 0x18)
    case AddIndex(x) => Pack(0xF, x, 0x1E)
    case FontChar(x) => Pack(0xF, x, 0x29)
    case StoreBcd(x) => Pack(0xF, x, 0x33)
    case StoreRegs(x) => Pack(0xF, x, 0x55)
    case LoadRegs(x) => Pack(0xF, x, 0x65)
    case Unknown(ins) => ins
  }

  /** An `Unknown` op is well formed when its pattern is one the interpreter does not recognise. */
  predicate WellFormed(op: Op)
  {
    op.Unknown? ==> Unassigned(op.ins)
  }

  /** Decoding undoes encoding for every well-formed op, so `Decode` and `Encode` are inverse
      bijections between instructions and well-formed ops. */
  lemma DecodeEncode(op: Op)
    requires WellFormed(op)
    ensures Decode(Encode(op)) == op
  {
    if op.Jump? || op.Call? {
      DecodeEncodeControl(op);
    } else if op.SetIndex? || op.JumpOffset? {
      DecodeEncodeAddress(op);
    } else if op.SkipEqImm? || op.SkipNeImm? || op.SetImm? || op.AddImm? || op.Random? {
      DecodeEncodeImmediate(op);
    } else if op.SkipEqReg? || op.SkipNeReg? || op.Draw? {
      DecodeEncodeTwoRegisters(op);
    } else if op.Copy? || op.Or? || op.And? || op.Xor? || op.Add? {
      DecodeEncodeLogic(op);
    } else if op.Sub? || op.ShiftRight? || op.SubReverse? || op.ShiftLeft? {
      DecodeEncodeArithmetic(op);
    } else if op.SkipKey? || op.SkipNotKey? || op.ReadDelay? || op.WaitKey? || op.SetDelay? {
      DecodeEncodeKeysAndTimers(op);
    } else if op.SetSound? || op.AddIndex? || op.FontChar? {
      DecodeEncodeSoundAndIndex(op);
    } else if op.StoreBcd? || op.StoreRegs? || op.LoadRegs? {
      DecodeEncodeMemory(op);
    }
  }

  lemma DecodeEncodeControl(op: Op)
    requires op.Jump? || op.Call?
    ensures Decode(Encode(op)) == op
  {
    SplitAddress(op.nnn);
    match op
    case Jump(nnn) => PackFields(0x1, nnn / 0x100, nnn % 0x100);
    case Call(nnn) => PackFields(0x2, nnn / 0x100, nnn % 0x100);
  }

  lemma DecodeEncodeAddress(op: Op)
    requires op.SetIndex? || op.JumpOffset?
    ensures Decode(Encode(op)) == op
  {
    SplitAddress(op.nnn);
    match op
    case SetIndex(nnn) => PackFields(0xA, nnn / 0x100, nnn % 0x100);
    case JumpOffset(nnn) => PackFields(0xB, nnn / 0x100, nnn % 0x100);
  }

  lemma DecodeEncodeImmediate(op: Op)
    requires op.SkipEqImm? || op.SkipNeImm? || op.SetImm? || op.AddImm? || op.Random?
    ensures Decode(Encode(op)) == op
  {
    match op
    case SkipEqImm(x, nn) => PackFields(0x3, x, nn);
    case SkipNeImm(x, nn) => PackFields(0x4, x, nn);
    case SetImm(x, nn) => PackFields(0x6, x, nn);
    case AddImm(x, nn) => PackFields(0x7, x, nn);
    case Random(x, nn) => PackFields(0xC, x, nn);
  }

  lemma DecodeEncodeTwoRegisters(op: Op)
    requires op.SkipEqReg? || op.SkipNeReg? || op.Draw?
    ensures Decode(Encode(op)) == op
  {
    NibblesFields(op.y, op.n);
    match op
    case SkipEqReg(x, y, n) => PackFields(0x5, x, Nibbles(y, n));
    case SkipNeReg(x, y, n) => PackFields(0x9, x, Nibbles(y, n));
    case Draw(x, y, n) => PackFields(0xD, x, Nibbles(y, n));
  }

  lemma DecodeEncodeLogic(op: Op)
    requires op.Copy? || op.Or? || op.And? || op.Xor? || op.Add?
    ensures Decode(Encode(op)) == op
  {
    match op
    case Copy(x, y) => PackFields(0x8, x, Nibbles(y, 0x0)); NibblesFields(y, 0x0);
    case Or(x, y) => PackFields(0x8, x, Nibbles(y, 0x1)); NibblesFields(y, 0x1);
    case And(x, y) => PackFields(0x8, x, Nibbles(y, 0x2)); NibblesFields(y, 0x2);
    case Xor(x, y) => PackFields(0x8, x, Nibbles(y, 0x3)); NibblesFields(y, 0x3);
    case Add(x, y) => PackFields(0x8, x, Nibbles(y, 0x4)); NibblesFields(y, 0x4);
  }

  lemma DecodeEncodeArithmetic(op: Op)
    requires op.Sub? || op.ShiftRight? || op.SubReverse? || op.ShiftLeft?
    ensures Decode(Encode(op)) == op
  {
    match op
    case Sub(x, y) => PackFields(0x8, x, Nibbles(y, 0x5)); NibblesFields(y, 0x5);
    case ShiftRight(x, y) => PackFields(0x8, x, Nibbles(y, 0x6)); NibblesFields(y, 0x6);
    case SubReverse(x, y) => PackFields(0x8, x, Nibbles(y, 0x7)); NibblesFields(y, 0x7);
    case ShiftLeft(x, y) => PackFields(0x8, x, Nibbles(y, 0xE)); NibblesFields(y, 0xE);
  }

  lemma DecodeEncodeKeysAndTimers(op: Op)
    requires op.SkipKey? || op.SkipNotKey? || op.ReadDelay? || op.WaitKey? || op.SetDelay?
    ensures Decode(Encode(op)) == op
  {
    match op
    case SkipKey(x) => PackFields(0xE, x, 0x9E);
    case SkipNotKey(x) => PackFields(0xE, x, 0xA1);
    case ReadDelay(x) => PackFields(0xF, x, 0x07);
    case WaitKey(x) => PackFields(0xF, x, 0x0A);
    case SetDelay(x) => PackFields(0xF, x, 0x15);
  }

  lemma DecodeEncodeSoundAndIndex(op: Op)
    requires op.SetSound? || op.AddIndex? || op.FontChar?
    ensures Decode(Encode(op)) == op
  {
    match op
    case SetSound(x) => PackFields(0xF, x, 0x18);
    case AddIndex(x) => PackFields(0xF, x, 0x1E);
    case FontChar(x) => PackFields(0xF, x, 0x29);
  }

  lemma DecodeEncodeMemory(op: Op)
    requires op.StoreBcd? || op.StoreRegs? || op.LoadRegs?
    ensures Decode(Encode(op)) == op
  {
    match op
    case StoreBcd(x) => PackFields(0xF, x, 0x33);
    case StoreRegs(x) => PackFields(0xF, x, 0x55);
    case LoadRegs(x) => PackFields(0xF, x, 0x65);
  }

  lemma PackFields(family: Nibble, x: Nibble, lo: Byte)
    ensures Pack(family, x, lo).hi / 16 == family
    ensures Pack(family, x, lo).hi % 16 == x
  {
  }

  lemma NibblesFields(y: Nibble, n: Nibble)
    ensures Nibbles(y, n) / 16 == y
    ensures Nibbles(y, n) % 16 == n
  {
  }

  lemma SplitAddress(nnn: Addr12)
    ensures (nnn / 0x100) * 0x100 + nnn % 0x100 == nnn
  {
  }
}
