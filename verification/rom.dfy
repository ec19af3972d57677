/** The memory side of `Chip8::LoadRom` (the size check and the copy to the program area) and the
    start-up sequence of the program: a zeroed machine, the ROM load, then `Init`. */
module Rom {
  import opened Bytes
  import opened State

  /** The bytes available to a program: memory above the program start. */
  const Capacity: nat := MemorySize - ProgramStart

  datatype Loaded = Loaded(memory: Memory) | RomTooLarge(size: nat)

  /** Accept a ROM only when it is strictly smaller than the program area, and copy it there. */
  function Load(mem: Memory, rom: seq<Byte>): (r: Loaded)
    ensures r.Loaded? <==> |rom| < Capacity
    ensures r.RomTooLarge? ==> r.size == |rom|
    ensures r.Loaded? ==> r.memory[ProgramStart .. ProgramStart + |rom|] == rom
    ensures r.Loaded? ==> forall a | 0 <= a < MemorySize && !(ProgramStart <= a < ProgramStart + |rom|) ::
      r.memory[a] == mem[a]
  {
    if |rom| < Capacity then
      Loaded(mem[.. ProgramStart] + rom + mem[ProgramStart + |rom| ..])
    else
      RomTooLarge(|rom|)
  }

  /** A successful load leaves the font table and everything else below the program untouched. */
  lemma LoadKeepsReservedArea(mem: Memory, rom: seq<Byte>)
    requires Load(mem, rom).Loaded?
    ensures Load(mem, rom).memory[.. ProgramStart] == mem[.. ProgramStart]
    ensures HoldsFont(mem) ==> HoldsFont(Load(mem, rom).memory)
  {
    var after := Load(mem, rom).memory;
    assert forall a | 0 <= a < ProgramStart :: after[a] == mem[a];
    FontBelowProgram();
    assert after[FontLocation .. FontLocation + |FontSprites|] == mem[FontLocation .. FontLocation + |FontSprites|];
  }

  /** The machine as the program starts it: a zeroed object, the ROM loaded (a rejected ROM leaves
      memory zero and the machine runs anyway), then `Init`. */
  function Boot(rom: seq<Byte>): (m: Machine)
    ensures HoldsFont(m.memory) && m.pc == ProgramStart && m.i == 0 && m.stack == []
    ensures IsBlank(m.display) && m.delay == 0 && m.sound == 0
    ensures forall j | 0 <= j < RegisterCount :: m.v[j] == 0
    ensures |rom| < Capacity ==> m.memory[ProgramStart .. ProgramStart + |rom|] == rom
    ensures |rom| >= Capacity ==> forall a | ProgramStart <= a < MemorySize :: m.memory[a] == 0
    ensures forall a | 0 <= a < MemorySize && !(FontLocation <= a < FontLocation + |FontSprites|) &&
                       !(|rom| < Capacity && ProgramStart <= a < ProgramStart + |rom|) :: m.memory[a] == 0
  {
    var zero := Zeroed();
    FontBelowProgram();
    match Load(zero.memory, rom)
    case Loaded(mem) => Init(zero.(memory := mem))
    case RomTooLarge(_) => Init(zero)
  }
}
