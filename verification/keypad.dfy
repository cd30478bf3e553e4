/** The keypad instructions: Ex9E, ExA1 and Fx0A.

    The keypad is a 16-entry vector (non-zero = pressed) that the host
    refreshes between cycles; these instructions only read it. */
module Keypad {
  import opened Bits
  import opened Outcomes
  import opened Cpu
  import opened Opcodes
  import opened Flow

  /** The key a scan of keys 0..i-1 in order meets last among those pressed:
      the highest-numbered pressed key below i. */
  function LastPressed(keys: Keypads, i: nat): (r: Option<Byte>)
    requires i <= KEYPADS_SIZE
    ensures r.None? <==> forall j :: 0 <= j < i ==> keys[j] == 0
    ensures r.Some? ==> r.value < i && keys[r.value] != 0
    ensures r.Some? ==> forall j :: r.value < j < i ==> keys[j] == 0
  {
    if i == 0 then None
    else if keys[i - 1] != 0 then Some(i - 1)
    else LastPressed(keys, i - 1)
  }

  /** Ex9E: skip if the key numbered Vx is pressed. Vx beyond the keypad
      indexes past it. */
  function ExecEx9E(m: Machine, f: Fields): (r: Result<Machine>)
    requires f.Fits()
    ensures r.Ok? <==> m.registers[f.x] < KEYPADS_SIZE
    ensures r.Ok? ==> (r.value.pc != m.pc <==> m.keypads[m.registers[f.x]] != 0)
    ensures r.Ok? ==> r.value.pc == if m.keypads[m.registers[f.x]] != 0 then Advance(m.pc) else m.pc
    ensures r.Ok? ==> r.value == m.(pc := r.value.pc)
  {
    if m.registers[f.x] >= KEYPADS_SIZE then Err(KeypadOutOfBounds)
    else Ok(SkipIf(m, m.keypads[m.registers[f.x]] != 0))
  }

  /** ExA1: skip if the key numbered Vx is not pressed. */
  function ExecExA1(m: Machine, f: Fields): (r: Result<Machine>)
    requires f.Fits()
    ensures r.Ok? <==> m.registers[f.x] < KEYPADS_SIZE
    ensures r.Ok? ==> (r.value.pc != m.pc <==> m.keypads[m.registers[f.x]] == 0)
    ensures r.Ok? ==> r.value.pc == if m.keypads[m.registers[f.x]] == 0 then Advance(m.pc) else m.pc
    ensures r.Ok? ==> r.value == m.(pc := r.value.pc)
  {
    if m.registers[f.x] >= KEYPADS_SIZE then Err(KeypadOutOfBounds)
    else Ok(SkipIf(m, m.keypads[m.registers[f.x]] == 0))
  }

  /** `pc -= INSTRUCTION_LONG` on a uint16_t: the cycle's advance then fetches
      this instruction again. */
  function Rewind(pc: Word): (r: Word)
    ensures r == (pc - INSTRUCTION_LONG) % WORD_LIMIT
    ensures r != pc
  {
    ToWord(pc - INSTRUCTION_LONG)
  }

  /** Fx0A as its comment describes it: wait for a key press and store the
      key in Vx. When some key is pressed, Vx receives the number of the last
      pressed key the scan meets and pc stays; when none is, only pc moves
      back, so that the instruction runs again. */
  function ExecFx0A(m: Machine, f: Fields): (r: Machine)
    requires f.Fits()
    ensures r.pc == m.pc <==> exists k :: 0 <= k < KEYPADS_SIZE && m.keypads[k] != 0
    ensures r.pc != m.pc ==> r == m.(pc := (m.pc - INSTRUCTION_LONG) % WORD_LIMIT)
    ensures r.pc == m.pc ==> && r.registers[f.x] < KEYPADS_SIZE
                             && m.keypads[r.registers[f.x]] != 0
                             && (forall k :: r.registers[f.x] < k < KEYPADS_SIZE ==> m.keypads[k] == 0)
                             && r == m.(registers := m.registers[f.x := r.registers[f.x]])
  {
    match LastPressed(m.keypads, KEYPADS_SIZE)
    case None => m.(pc := Rewind(m.pc))
    case Some(k) => m.(registers := m.registers[f.x := k])
  }

  /** Fx0A as written: the flag meant to record a press is compared with true
      instead of assigned, so it stays false. Every pressed key's entry (not
      its number) is stored in Vx in turn, and pc always moves back. */
  function ExecFx0AAsWritten(m: Machine, f: Fields): (r: Machine)
    requires f.Fits()
    ensures r.pc == (m.pc - INSTRUCTION_LONG) % WORD_LIMIT
    ensures (forall k :: 0 <= k < KEYPADS_SIZE ==> m.keypads[k] == 0) ==> r.registers == m.registers
    ensures r == m.(registers := r.registers, pc := r.pc)
  {
    var regs := match LastPressed(m.keypads, KEYPADS_SIZE)
      case None => m.registers
      case Some(k) => m.registers[f.x := m.keypads[k]];
    m.(registers := regs, pc := Rewind(m.pc))
  }

  /** The keypad with only key 3 pressed, its entry 1 as the host writes it. */
  function OnlyKeyThree(): (keys: Keypads)
    ensures keys[3] == 1
    ensures forall k :: 0 <= k < KEYPADS_SIZE && k != 3 ==> keys[k] == 0
  {
    seq(KEYPADS_SIZE, k => if k == 3 then 1 else 0)
  }

  /** The fields of F00A: x is V0. */
  lemma DecodeF00A()
    ensures DecodeFields(0xF00A) == Fields(0x00A, 0xA, 0x0, 0x0, 0x0A)
  {
    assert 0xF00A / 0x100 == 0xF0 && 0xF00A / 0x10 == 0xF00;
  }

  /** With only key 3 pressed, Fx0A as written stores 1 in V0 and waits
      again; the described behaviour stores 3 and moves on. */
  lemma Fx0AAsWrittenDiverges(m: Machine)
    requires m.keypads == OnlyKeyThree()
    ensures var f := DecodeFields(0xF00A);
      && ExecFx0AAsWritten(m, f).registers[0] == 1
      && ExecFx0AAsWritten(m, f).pc != m.pc
      && ExecFx0A(m, f).registers[0] == 3
      && ExecFx0A(m, f).pc == m.pc
  {
    DecodeF00A();
    assert LastPressed(m.keypads, KEYPADS_SIZE) == Some(3);
  }
}
