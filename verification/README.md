# CHIP-8 interpreter core, modelled in Dafny

This project models the interpreter core of schroeji/Chip8Emu, a CHIP-8 emulator written in C++, as
a pure state-transition system. The class `Chip8` becomes an immutable `Machine` value with these
fields:

- 4096 bytes of memory;
- the sixteen byte registers V0..VF;
- the 16-bit `pc` and index register `I`;
- the return stack;
- the two 8-bit timers;
- the 32 x 64 display.

Each member function of the core becomes a function from machine to machine.

| module | file | models |
|---|---|---|
| `Bytes` | bytes.dfy | `std::uint8_t` / `std::uint16_t` storage (explicit wrap-around), `std::bitset<8>` bit numbering, `&`, `\|`, `^` on bytes |
| `State` | state.dfy | the data members and constants of `Chip8`, the font table `kFontSprites`, and the state-setting part of `Init` |
| `Opcodes` | opcodes.dfy | the field extraction and dispatch of `Chip8::Decode`, as `Decode: Instruction -> Op` with its inverse `Encode` |
| `Sprite` | sprite.dfy | `Chip8::Draw`: a pixel-wise specification (`DrawSprite`) and the two loops as written (`DrawLoop`), proved equal |
| `Timers` | timers.dfy | `Chip8::UpdateTimers` |
| `Rom` | rom.dfy | the size check and copy of `Chip8::LoadRom`, and start-up (zeroed object, load, `Init`) |
| `Engine` | engine.dfy | `Chip8::Fetch`, the instruction bodies of `Chip8::Decode`, and one iteration of the loop in `Chip8::Run` |
| `Properties` | properties.dfy | per-instruction and per-iteration properties |

The undefined behaviour of the source becomes preconditions. This covers unchecked memory reads and
writes at `I + k` and `pc + 1`, and 00EE with an empty `std::stack`. `Engine.Defined` collects the
per-instruction conditions, and `Engine.CanCycle` adds the fetch bound to them. All other paths are
total: an unassigned bit pattern is a no-op, and a rejected ROM is reported as `Rom.RomTooLarge`.

The model follows the code as written. Where it differs from common descriptions of CHIP-8:

- 8xy7 sets VF to 1 only when Vx < Vy strictly. Equal operands give VF = 0.
- 8xy6 and 8xyE set VF to 1 when the shifted-out bit is 1, and otherwise leave VF as it was.
- 8xy4 and 8xy5 write VF before they form the result. When x is F, the result overwrites the
  flag. When y is F, the result is computed from the new flag.
- Fx1E does the same: it sets VF to report that I + Vx left 12 bits, then adds the register as it
  reads after that write. It keeps I to 12 bits.
- Fx33 stores the tens digit at I over the hundreds digit. It leaves I + 1 unwritten and stores
  the ones digit at I + 2.
- Fx0A with no key down moves `pc` back two bytes. With some key down, its search loop ends after
  key 0 whatever that key's state. So Vx is set (to 0) only when key 0 is down.
- A ROM is accepted only when it is strictly smaller than 3584 bytes.
- Draw reads the sprite byte of a row before it tests that row against the bottom edge. A sprite
  clipped at the bottom therefore reads one byte more than it draws, and `Sprite.CanDraw` bounds
  exactly the bytes read.
- The sound timer is cleared at the first tick after it is set, not counted down.
- 7xnn sets no carry flag. VF changes only when x is F, because then Vx is VF.

## Model

| member | source | states |
|---|---|---|
| `Bytes.Wrap8` | chip8.cpp:184 | storing into a `std::uint8_t` reduces modulo 256 and keeps values already in range |
| `Bytes.Wrap16` | chip8.cpp:72 | storing into a `std::uint16_t` reduces modulo 65536 and keeps values already in range |
| `Bytes.Wrap16Low12` | chip8.cpp:287-288 | a 16-bit wrap followed by `& 0xFFF` gives the same 12 bits as `& 0xFFF` on the exact sum |
| `Bytes.And8Bits` | chip8.cpp:191 | bit j of `a & b` is set exactly when bit j is set in both `a` and `b` |
| `Bytes.Or8Bits` | chip8.cpp:189 | bit j of `a \| b` is set exactly when bit j is set in `a` or in `b` |
| `Bytes.Xor8Bits` | chip8.cpp:193 | bit j of `a ^ b` is set exactly when `a` and `b` differ in bit j |
| `State.GlyphPlacement` | chip8.h:39-56 | glyph g occupies bytes 5g..5g+5 of `kFontSprites` (glyph A is F0 90 F0 90 90) |
| `State.FontBelowProgram` | chip8.h:34-39 | the font table is 80 bytes, it ends at or below `kProgramStart` (0x50 + 80 <= 0x200), and the program area is 3584 bytes |
| `State.FontGlyphsFourWide` | chip8.h:40-55 | every font byte has a zero low nibble, so every glyph is at most four pixels wide |
| `State.FontGlyphInMemory` | chip8.cpp:32 | once the font is copied to 0x50, the five bytes at 0x50 + 5g are glyph g and lie below 0x200 |
| `State.Blank` | chip8.h:74 | the display the object starts with has every pixel off |
| `State.Zeroed` | chip8.h:64-74 | the value-initialised object has zero memory, V0..VF, `pc`, I and both timers, an empty stack and a blank display |
| `State.Init` | chip8.cpp:30-58 | the font is copied to 0x50 and nothing else in memory changes; `pc` is set to 0x200 and nothing else in the machine changes |
| `Opcodes.Decode` | chip8.cpp:126-143 | `x`, `y`, `n`, `nnn` and the opcode family are read from the two bytes losslessly (encoding the result gives back the instruction), and the result is `Unknown` exactly for the patterns the interpreter reports as unknown |
| `Opcodes.DecodeSystem` | chip8.cpp:144-157 | family 0 decodes losslessly, and to `Unknown` exactly for patterns other than 00E0 and 00EE |
| `Opcodes.DecodeArithmetic` | chip8.cpp:186-229 | family 8 decodes losslessly, and to `Unknown` exactly when the last nibble is not 0-7 or E |
| `Opcodes.DecodeKeys` | chip8.cpp:249-261 | family E decodes losslessly, and to `Unknown` exactly for second bytes other than 9E and A1 |
| `Opcodes.DecodeSpecial` | chip8.cpp:262-306 | family F decodes losslessly, and to `Unknown` exactly for second bytes outside 07, 0A, 15, 18, 1E, 29, 33, 55 and 65 |
| `Opcodes.DecodeEncode` | chip8.cpp:143-311 | every instruction form the dispatch recognises is decoded from its own encoding, so decoding is a bijection onto the well-formed ops |
| `Opcodes.PackFields` | chip8.cpp:127-130 | the first byte's high nibble is the family and its low nibble is `x` |
| `Opcodes.NibblesFields` | chip8.cpp:132-135 | the second byte's high nibble is `y` and its low nibble is `n` |
| `Sprite.RowsDrawn` | chip8.cpp:105-109 | at most `n` rows are drawn, they stop at the bottom edge, and fewer than `n` only when the bottom edge was reached |
| `Sprite.RowsRead` | chip8.cpp:105-109 | the loop reads at most `n` rows: the rows it draws, plus exactly one more when the sprite runs past the bottom edge |
| `Sprite.SpriteRows` | chip8.cpp:107 | the sprite rows are the drawn-row count of bytes read from memory at I |
| `Sprite.DrawSprite` | chip8.cpp:89-124 | only the display and VF change, and VF ends 0 or 1 |
| `Sprite.DrawLoop` | chip8.cpp:89-124 | the two loops with their edge breaks compute exactly the pixel-wise specification `DrawSprite` |
| `Sprite.DrawRow` | chip8.cpp:110-122 | one pass of the column loop XORs one sprite row onto the display and accumulates the collision flag |
| `Sprite.DrawPixels` | chip8.cpp:95-122 | the origin is (Vx mod 64, Vy mod 32); pixels of the clipped n x 8 rectangle become old XOR sprite bit (bit 7 leftmost), all others are unchanged; VF = 1 exactly when a lit pixel of the rectangle met a set bit |
| `Sprite.DrawTwiceRestores` | chip8.cpp:115-121 | drawing the same sprite twice at the same place restores the display, when neither coordinate register is VF |
| `Sprite.DrawOnDarkArea` | chip8.cpp:103-118 | a sprite drawn where no covered pixel is lit leaves VF = 0 |
| `Sprite.FullRowTwice` | chip8.cpp:103-122 | a one-row 0xFF sprite on a blank display: the first draw reports no collision, the second reports one and blanks the display again |
| `Timers.Tick` | chip8.cpp:21-28 | the delay timer drops by one when positive and stops at zero; the sound timer is cleared; the tone plays exactly when the sound timer was nonzero; nothing else changes |
| `Timers.TicksCountDown` | chip8.cpp:21-28 | after k ticks the delay timer reads max(delay - k, 0), the sound timer reads 0 when k > 0, and nothing else changed |
| `Rom.Load` | chip8.cpp:333-337 | the ROM is accepted exactly when it is smaller than 3584 bytes; then it sits at 0x200 and every other byte is kept, otherwise the size is reported |
| `Rom.LoadKeepsReservedArea` | chip8.cpp:333-337 | a successful load leaves everything below 0x200 alone, the installed font included |
| `Rom.Boot` | main.cpp:7-11 | the machine that starts running holds the font, starts at 0x200 with zero registers, a blank display and an empty stack, holds the ROM at 0x200 when it was accepted, and has zeros in every other byte of memory |
| `Engine.SkipIf` | chip8.cpp:167-177 | a taken skip adds 2 to the 16-bit `pc`; an untaken one changes nothing |
| `Engine.Branch` | chip8.cpp:167-178 | the conditional skips (3xnn, 4xnn, 5xy0, and likewise 9xy0, Ex9E and ExA1 at chip8.cpp:230-233 and 249-261) change `pc` and nothing else |
| `Engine.Logic` | chip8.cpp:187-194 | 8xy0 to 8xy3 change Vx and nothing else, VF included unless x is F |
| `Engine.Arithmetic` | chip8.cpp:195-225 | 8xy4 to 8xyE change only registers, and only Vx and VF among them |
| `Engine.Special` | chip8.cpp:262-306 | an Fx__ instruction leaves the stack and the display alone |
| `Engine.Execute` | chip8.cpp:143-310 | which parts of the machine each instruction may change: only calls and returns touch the stack, only Fx33/Fx55 memory, only 00E0/Dxyn the display, and so on; I stays below 0x1000 whenever it changes |
| `Engine.Step` | chip8.cpp:14-19 | an unrecognised pattern leaves the machine unchanged |
| `Properties.FetchDecodes` | chip8.cpp:87 | the byte at `pc` is the high byte of the instruction, so an instruction stored at `pc` is fetched and decoded as itself |
| `Properties.SubroutineRoundTrip` | chip8.cpp:150-166 | 2nnn jumps to nnn pushing the post-fetch `pc`, and a following 00EE restores the machine exactly |
| `Properties.CycleExecutes` | chip8.cpp:68-77 | every iteration fetches at `pc`, advances `pc` by two (mod 65536), executes with this iteration's keys and random byte, and only then ticks the timers |
| `Properties.SoundCycle` | chip8.cpp:21-28 | an iteration fetching Fx18 sounds the tone exactly when Vx is nonzero and ends with the sound timer at 0 |
| `Properties.ReadDelayCycle` | chip8.cpp:72-75 | an iteration fetching Fx07 stores the delay timer as it was before the tick, then counts the timer down |
| `Properties.CallCycle` | chip8.cpp:70-75 | an iteration fetching 2nnn goes to nnn and pushes the address after the call |
| `Properties.ReturnCycle` | chip8.cpp:150-153 | an iteration fetching 00EE resumes at the top of the stack and pops it |
| `Properties.UnknownCycle` | chip8.cpp:307-309 | an iteration fetching an unassigned pattern only advances `pc` by 2 and ticks the timers |
| `Properties.SkipCycle` | chip8.cpp:167-170 | an iteration fetching 3xnn anywhere it can be fetched moves `pc` on by 4 when Vx = nn and by 2 otherwise |
| `Properties.WaitKeyCycle` | chip8.cpp:265-268 | with no key down, an iteration fetching Fx0A leaves `pc` where it was and only ticks the timers |
| `Properties.WaitKeyPressed` | chip8.cpp:269-275 | with some key down, Fx0A sets Vx to 0 when key 0 is down and changes nothing otherwise |
| `Properties.AddImmWraps` | chip8.cpp:183-185 | 7xnn sets Vx to (Vx + nn) mod 256 and changes no other register, VF included |
| `Properties.CopyRegister` | chip8.cpp:187-188 | 8xy0 sets Vx to Vy and changes nothing else |
| `Properties.OrBitwise` | chip8.cpp:189-190 | 8xy1 sets each bit of Vx to the OR of the same bits of Vx and Vy and changes nothing else |
| `Properties.AndBitwise` | chip8.cpp:191-192 | 8xy2 sets each bit of Vx to the AND of the same bits of Vx and Vy and changes nothing else |
| `Properties.XorBitwise` | chip8.cpp:193-194 | 8xy3 sets each bit of Vx to the XOR of the same bits of Vx and Vy and changes nothing else |
| `Properties.AddCarry` | chip8.cpp:195-201 | 8xy4 sets Vx to (Vx + Vy) mod 256 and VF to 1 exactly when Vx + Vy > 255, otherwise 0 |
| `Properties.AddIntoFlag` | chip8.cpp:195-201 | 8Fy4 leaves VF holding (carry + Vy) mod 256: the result overwrites the flag |
| `Properties.SubBorrow` | chip8.cpp:202-208 | 8xy5 sets Vx to (Vx - Vy) mod 256 and VF to 1 exactly when Vx >= Vy, otherwise 0 |
| `Properties.SubReverseBorrow` | chip8.cpp:214-220 | 8xy7 sets Vx to (Vy - Vx) mod 256 and VF to 1 exactly when Vx < Vy, otherwise 0 |
| `Properties.ShiftRightFlag` | chip8.cpp:209-213 | 8xy6 halves Vx; VF becomes 1 when bit 0 was set and keeps its value otherwise; nothing else changes |
| `Properties.ShiftLeftFlag` | chip8.cpp:221-225 | 8xyE doubles Vx modulo 256; VF becomes 1 when bit 7 was set and keeps its value otherwise; nothing else changes |
| `Properties.AddFromFlag` | chip8.cpp:195-201 | 8xF4 adds the freshly written carry, not the old VF, to Vx; 8FF4 leaves twice the carry in VF |
| `Properties.SubIntoFlag` | chip8.cpp:202-208 | 8Fy5 leaves (flag - Vy) mod 256 in VF: the result overwrites the flag |
| `Properties.SubFromFlag` | chip8.cpp:202-208 | 8xF5 subtracts the freshly written flag from Vx; 8FF5 always leaves VF at 0 |
| `Properties.SubReverseIntoFlag` | chip8.cpp:214-220 | 8Fy7 leaves (Vy - flag) mod 256 in VF |
| `Properties.SubReverseFromFlag` | chip8.cpp:214-220 | 8xF7 subtracts Vx from the freshly written flag; 8FF7 always leaves VF at 0 |
| `Properties.ShiftRightIntoFlag` | chip8.cpp:209-213 | 8Fy6 leaves 0 in VF when its low bit was set and VF halved otherwise |
| `Properties.ShiftLeftIntoFlag` | chip8.cpp:221-225 | 8FyE leaves 2 in VF when its top bit was set and VF doubled otherwise |
| `Properties.RandomMasked` | chip8.cpp:240-245 | Cxnn stores the random byte AND nn in Vx, bit by bit, so the value is at most nn; nothing else changes |
| `Properties.AddIndexFlag` | chip8.cpp:281-288 | Fx1E sets VF to 1 exactly when I + Vx > 0xFFF; I becomes (I + Vx) mod 0x1000, so I < 0x1000; only VF and I change |
| `Properties.FontCharLocates` | chip8.cpp:289-290 | Fx29 sets I to 0x50 + 5 (Vx & 0xF), below 0x200, and with the font installed the five bytes there are that glyph |
| `Properties.StoreBcdQuirk` | chip8.cpp:291-294 | Fx33 leaves the tens digit at I and the old byte at I + 1, puts the ones digit at I + 2, and changes no other byte |
| `Properties.StoreRegsContents` | chip8.cpp:295-298 | Fx55 writes V0..Vx to I..I+x and changes no other byte, nor I |
| `Properties.LoadRegsContents` | chip8.cpp:299-302 | Fx65 reads V0..Vx from I..I+x and leaves the higher registers and the rest of the machine alone |
| `Properties.StoreThenLoad` | chip8.cpp:295-302 | Fx55 followed by Fx65 with the same x and I leaves the machine as Fx55 left it |
| `Properties.ClearScreenBlanks` | chip8.cpp:145-146 | 00E0 turns every pixel off and changes nothing else |
| `Properties.JumpOffsetTarget` | chip8.cpp:237-239 | Bnnn jumps to nnn + V0, which fits the 16-bit `pc` without wrapping |
| `Properties.JumpTarget` | chip8.cpp:159-161 | 1nnn sets `pc` to nnn and changes nothing else |
| `Properties.SetImmStores` | chip8.cpp:180-182 | 6xnn sets Vx to nn and changes nothing else |
| `Properties.SetIndexStores` | chip8.cpp:234-236 | Annn sets I to nnn and changes nothing else |
| `Properties.SkipOnImmediate` | chip8.cpp:167-174 | 3xnn moves `pc` on by two (mod 65536) exactly when Vx = nn, 4xnn exactly when Vx != nn; nothing else changes |
| `Properties.SkipOnEqualRegisters` | chip8.cpp:175-178 | 5xy0 moves `pc` on by two (mod 65536) exactly when Vx = Vy, whatever the low nibble; nothing else changes |
| `Properties.SkipOnDifferentRegisters` | chip8.cpp:230-233 | 9xy0 moves `pc` on by two (mod 65536) exactly when Vx != Vy, whatever the low nibble; nothing else changes |
| `Properties.SkipOnKey` | chip8.cpp:249-261 | Ex9E moves `pc` on by two (mod 65536) exactly when key (Vx & 0xF) is down, ExA1 exactly when it is up; nothing else changes |
| `Properties.ReadDelayStores` | chip8.cpp:263-264 | Fx07 sets Vx to the delay timer and changes nothing else |
| `Properties.TimerLoads` | chip8.cpp:277-280 | Fx15 and Fx18 set the delay and the sound timer to Vx and change nothing else |

## Left out

- SDL set-up, the window, the renderer and `DrawToScreen`'s pixel conversion are left out. They are presentation only, and the display is the model's output.
- Audio through `Mix_PlayChannel` is left out. `Timers.Tick` reports the tone as the `beep` output instead.
- `HandleSdlEvents` and `kKeyMap` are left out. The keypad state is the `keys` parameter of `Engine.Execute`, `Engine.Step` and `Engine.Cycle`.
- The report `UnknownInstruction` prints for an unrecognised pattern is left out, since it is output only. `Engine.Execute` leaves the machine unchanged for `Unknown(ins)`, and `ins` is the pattern the report would print.
- Reading the ROM file is left out, and so are the diagnostic messages. `Rom.Load` takes the file's bytes, and a missing file is not modelled.
- The `printf` logging and the 2 ms pause of the run loop are left out. The `running_` flag is left out too. SDL events clear it, and so does `Init` when SDL, the window, the audio device or the sound file fails to set up (chip8.cpp:35-55); both are outside the model. `Engine.Cycle` is one iteration.
- The random generator of Cxnn is left out. The byte it produces is the `rnd` parameter. The source builds a default-seeded generator afresh on every Cxnn, so it draws the same byte each time; the model allows any byte, that one included.
- The `redraw_` flag and the `pixels_` buffer are left out. `redraw_` is written by `Draw` and `DrawToScreen` and read nowhere; `pixels_` is used only inside `DrawToScreen`.
- The return stack is an unbounded sequence, as `std::stack` is.
- Out-of-range accesses are undefined in C++. They are excluded by preconditions rather than modelled: a fetch at `pc + 1 >= 4096`, sprite, BCD and block accesses past the end of memory, and 00EE on an empty stack.
- `Engine.Fetch`, `Engine.Advance` and `Engine.Cycle` carry no contract of their own. `Properties.FetchDecodes` states what a fetch decodes to, and `Properties.CycleExecutes` states what every iteration does: advance `pc`, execute with this iteration's keys and random byte, then tick. The other `Properties.*Cycle` lemmas work that out for particular instructions.
