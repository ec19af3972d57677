/** `Chip8::UpdateTimers`, run once per iteration of the main loop. The audio device is not
    modelled; playing the tone is reported as the `beep` output. */
module Timers {
  import opened State

  datatype Ticked = Ticked(machine: Machine, beep: bool)

  /** One timer tick: the delay timer counts down to zero and stops there; a nonzero sound timer
      plays the tone once and is cleared at once rather than counted down. */
  function Tick(m: Machine): (t: Ticked)
    ensures t.machine == m.(delay := t.machine.delay, sound := 0)
    ensures t.beep <==> m.sound != 0
    ensures t.machine.delay <= m.delay && (m.delay > 0 ==> t.machine.delay == m.delay - 1)
  {
    var delay := if m.delay > 0 then m.delay - 1 else m.delay;
    if m.sound > 0 then Ticked(m.(delay := delay, sound := 0), true)
    else Ticked(m.(delay := delay), false)
  }

  /** The machine after `k` ticks, the tones they play dropped. */
  function Ticks(m: Machine, k: nat): Machine
    decreases k
  {
    if k == 0 then m else Ticks(Tick(m).machine, k - 1)
  }

  /** After `k` ticks the delay timer reads `delay - k`, or 0 once that would be negative; after
      at least one tick the sound timer reads 0; nothing else changes. */
  lemma {:induction false} TicksCountDown(m: Machine, k: nat)
    ensures Ticks(m, k).delay == if m.delay >= k then m.delay - k else 0
    ensures k > 0 ==> Ticks(m, k).sound == 0
    ensures Ticks(m, k) == m.(delay := Ticks(m, k).delay, sound := Ticks(m, k).sound)
    decreases k
  {
    if k > 0 {
      TicksCountDown(Tick(m).machine, k - 1);
    }
  }
}
