/** The delay timer and the timer instructions Fx07, Fx15 and Fx18.

    The machine has no sound timer field, so Fx18 does nothing. The delay
    timer is decremented once per cycle, not at a fixed rate. */
module Timers {
  import opened Bits
  import opened Cpu
  import opened Opcodes

  /** The guarded decrement at the end of a cycle: the timer counts down to
      zero and stays there. */
  function DecayTimer(dt: Byte): (r: Byte)
    ensures dt > 0 ==> r == dt - 1
    ensures dt == 0 ==> r == 0
  {
    if dt > 0 then dt - 1 else dt
  }

  /** Fx07: Vx = DT. */
  function ExecFx07(m: Machine, f: Fields): (r: Machine)
    requires f.Fits()
    ensures r.registers == m.registers[f.x := m.dt]
    ensures r == m.(registers := r.registers)
  {
    m.(registers := m.registers[f.x := m.dt])
  }

  /** Fx15: DT = Vx. */
  function ExecFx15(m: Machine, f: Fields): (r: Machine)
    requires f.Fits()
    ensures r.dt == m.registers[f.x]
    ensures r == m.(dt := r.dt)
  {
    m.(dt := m.registers[f.x])
  }

  /** Fx18: would set the sound timer, which the machine does not have. */
  function ExecFx18(m: Machine, f: Fields): (r: Machine)
    requires f.Fits()
    ensures r == m
  {
    m
  }

  /** Setting the timer and reading it back, before any decay, returns the
      value written. */
  lemma SetThenReadTimer(m: Machine, f: Fields, g: Fields)
    requires f.Fits() && g.Fits()
    ensures ExecFx07(ExecFx15(m, f), g).registers[g.x] == m.registers[f.x]
  {
  }

  /** The timer after k cycles with no Fx15: it reaches zero after dt
      cycles and never goes below. */
  function DecayN(dt: Byte, k: nat): (r: Byte)
    ensures r == if k >= dt then 0 else dt - k
  {
    if k == 0 then dt else DecayN(DecayTimer(dt), k - 1)
  }
}
