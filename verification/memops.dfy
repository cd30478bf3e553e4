/** The index register I and the instructions that move bytes between the
    registers and memory: Annn, Fx1E, Fx29, Fx33, Fx55 and Fx65. None of them
    checks its addresses; a write or read past the end of memory is a fault. */
module MemoryOps {
  import opened Bits
  import opened Outcomes
  import opened Cpu
  import opened Opcodes

  /** Annn: I = nnn. */
  function ExecAnnn(m: Machine, f: Fields): (r: Machine)
    requires f.Fits()
    ensures r.I == f.nnn && r.I < 0x1000
    ensures r == m.(I := r.I)
  {
    m.(I := f.nnn)
  }

  /** Fx1E: I += Vx on a uint16_t, wrapping modulo 65536. */
  function ExecFx1E(m: Machine, f: Fields): (r: Machine)
    requires f.Fits()
    ensures r.I == (m.I + m.registers[f.x]) % WORD_LIMIT
    ensures m.I + m.registers[f.x] < WORD_LIMIT ==> r.I == m.I + m.registers[f.x]
    ensures r == m.(I := r.I)
  {
    m.(I := ToWord(m.I + m.registers[f.x]))
  }

  /** Fx29: I = 5 * Vx, the address of the font glyph for digit Vx when
      Vx <= 0xF; larger values point past the font. */
  function ExecFx29(m: Machine, f: Fields): (r: Machine)
    requires f.Fits()
    ensures r.I == 5 * (m.registers[f.x] as int)
    ensures m.registers[f.x] <= 0xF ==> r.I + 5 <= 80
    ensures r == m.(I := r.I)
  {
    m.(I := 5 * (m.registers[f.x] as int))
  }

  /** Fx33: the decimal digits of Vx at I (hundreds), I + 1 (tens) and I + 2
      (ones); the ones digit is written first. */
  function ExecFx33(m: Machine, f: Fields): (r: Result<Machine>)
    requires f.Fits()
    ensures r.Ok? <==> m.I + 2 < MEMORY_SIZE
    ensures r.Ok? ==> var mem := r.value.memory;
      && mem[m.I] < 10 && mem[m.I + 1] < 10 && mem[m.I + 2] < 10
      && 100 * (mem[m.I] as int) + 10 * (mem[m.I + 1] as int) + mem[m.I + 2] == m.registers[f.x]
    ensures r.Ok? ==> forall a :: 0 <= a < MEMORY_SIZE && !(m.I <= a <= m.I + 2) ==> r.value.memory[a] == m.memory[a]
    ensures r.Ok? ==> r.value == m.(memory := r.value.memory)
  {
    if m.I + 2 >= MEMORY_SIZE then
      Err(MemoryOutOfBounds)
    else
      var value: int := m.registers[f.x];
      var ones := value % 10;
      var tens := (value / 10) % 10;
      var hundreds := ((value / 10) / 10) % 10;
      assert value == 100 * hundreds + 10 * tens + ones;
      var mem := m.memory[m.I + 2 := ones][m.I + 1 := tens][m.I := hundreds];
      Ok(m.(memory := mem))
  }

  /** The loop of Fx55 from i on: memory[I + j] = V[j] for i <= j <= x. */
  function StoreRegisters(mem: Memory, regs: Registers, I: Word, i: nat, x: nat): (r: Memory)
    requires x < REGISTER_SIZE && i <= x + 1 && I + x < MEMORY_SIZE
    ensures forall a :: 0 <= a < MEMORY_SIZE ==>
      r[a] == if I + i <= a <= I + x then regs[a - I] else mem[a]
    decreases x + 1 - i
  {
    if i > x then mem
    else StoreRegisters(mem[I + i := regs[i]], regs, I, i + 1, x)
  }

  /** The loop of Fx65 from i on: V[j] = memory[I + j] for i <= j <= x. */
  function LoadRegisters(regs: Registers, mem: Memory, I: Word, i: nat, x: nat): (r: Registers)
    requires x < REGISTER_SIZE && i <= x + 1 && I + x < MEMORY_SIZE
    ensures forall j :: 0 <= j < REGISTER_SIZE ==>
      r[j] == if i <= j <= x then mem[I + j] else regs[j]
    decreases x + 1 - i
  {
    if i > x then regs
    else LoadRegisters(regs[i := mem[I + i]], mem, I, i + 1, x)
  }

  /** Fx55: V0 through Vx are copied to memory[I..I + x]; no other cell, and
      not I, changes. */
  function ExecFx55(m: Machine, f: Fields): (r: Result<Machine>)
    requires f.Fits()
    ensures r.Ok? <==> m.I + f.x < MEMORY_SIZE
    ensures r.Ok? ==> forall a :: 0 <= a < MEMORY_SIZE ==>
      r.value.memory[a] == if m.I <= a <= m.I + f.x then m.registers[a - m.I] else m.memory[a]
    ensures r.Ok? ==> r.value == m.(memory := r.value.memory)
  {
    if m.I + f.x >= MEMORY_SIZE then Err(MemoryOutOfBounds)
    else Ok(m.(memory := StoreRegisters(m.memory, m.registers, m.I, 0, f.x)))
  }

  /** Fx65: V0 through Vx are read from memory[I..I + x]; no other register,
      and not I, changes. */
  function ExecFx65(m: Machine, f: Fields): (r: Result<Machine>)
    requires f.Fits()
    ensures r.Ok? <==> m.I + f.x < MEMORY_SIZE
    ensures r.Ok? ==> forall j :: 0 <= j < REGISTER_SIZE ==>
      r.value.registers[j] == if j <= f.x then m.memory[m.I + j] else m.registers[j]
    ensures r.Ok? ==> r.value == m.(registers := r.value.registers)
  {
    if m.I + f.x >= MEMORY_SIZE then Err(MemoryOutOfBounds)
    else Ok(m.(registers := LoadRegisters(m.registers, m.memory, m.I, 0, f.x)))
  }

  /** Storing registers and loading them back from the same place changes
      nothing further: the registers read are the ones just written. */
  lemma StoreThenLoad(m: Machine, f: Fields)
    requires f.Fits() && ExecFx55(m, f).Ok?
    ensures ExecFx65(ExecFx55(m, f).value, f).Ok?
    ensures ExecFx65(ExecFx55(m, f).value, f).value == ExecFx55(m, f).value
  {
    var m1 := ExecFx55(m, f).value;
    var m2 := ExecFx65(m1, f).value;
    assert m2.registers == m.registers;
  }

  /** Loading registers and storing them back to the same place leaves memory
      unchanged. */
  lemma LoadThenStore(m: Machine, f: Fields)
    requires f.Fits() && ExecFx65(m, f).Ok?
    ensures ExecFx55(ExecFx65(m, f).value, f).Ok?
    ensures ExecFx55(ExecFx65(m, f).value, f).value.memory == m.memory
  {
    var m1 := ExecFx65(m, f).value;
    var m2 := ExecFx55(m1, f).value;
    assert forall a :: 0 <= a < MEMORY_SIZE ==> m2.memory[a] == m.memory[a];
  }

  /** Fx33 with Vx = 157 writes the digits 1, 5 and 7. */
  lemma Fx33Of157(m: Machine, f: Fields)
    requires f.Fits() && m.registers[f.x] == 157 && m.I + 2 < MEMORY_SIZE
    ensures ExecFx33(m, f).Ok?
    ensures var mem := ExecFx33(m, f).value.memory;
      mem[m.I] == 1 && mem[m.I + 1] == 5 && mem[m.I + 2] == 7
  {
    var mem := ExecFx33(m, f).value.memory;
    var h, t, o: int := mem[m.I], mem[m.I + 1], mem[m.I + 2];
    assert 100 * h + 10 * t + o == 157 && h < 10 && t < 10 && o < 10;
    DivModUnique(157, 10, 10 * h + t, o);
  }
}
