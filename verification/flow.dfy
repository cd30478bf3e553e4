/** Jumps, calls, returns and conditional skips.

    pc already holds the address of the instruction being run when a handler
    runs (the cycle advances it and then fetches from it). A skip adds one
    instruction length, and the next cycle's advance moves past the skipped
    instruction. A call saves the address of the call itself, and the
    advance after the matching return moves past it. */
module Flow {
  import opened Bits
  import opened Outcomes
  import opened Cpu
  import opened Opcodes

  /** `pc += INSTRUCTION_LONG` on a uint16_t. */
  function Advance(pc: Word): (r: Word)
    ensures r == (pc + INSTRUCTION_LONG) % WORD_LIMIT
    ensures pc + INSTRUCTION_LONG < WORD_LIMIT ==> r == pc + INSTRUCTION_LONG
  {
    ToWord(pc + INSTRUCTION_LONG)
  }

  /** A skip: pc advances by one instruction when the condition holds and
      nothing else changes. */
  function SkipIf(m: Machine, cond: bool): (r: Machine)
    ensures r.pc != m.pc <==> cond
    ensures cond ==> r.pc == (m.pc + INSTRUCTION_LONG) % WORD_LIMIT
    ensures r == m.(pc := r.pc)
  {
    if cond then m.(pc := Advance(m.pc)) else m
  }

  /** 00EE: pop the return address. The stack pointer is decremented first,
      so an empty stack (sp = 0) wraps the uint8_t and reads past the stack,
      as does a stack pointer above STACK_SIZE. */
  function Exec00EE(m: Machine): (r: Result<Machine>)
    ensures r.Ok? <==> 0 < m.sp <= STACK_SIZE
    ensures m.sp == 0 ==> r == Err(StackUnderflow)
    ensures r.Ok? ==> r.value.sp == m.sp - 1 && r.value.pc == m.stack[m.sp - 1]
    ensures r.Ok? ==> r.value == m.(sp := r.value.sp, pc := r.value.pc)
  {
    if m.sp == 0 then Err(StackUnderflow)
    else if m.sp > STACK_SIZE then Err(StackOverflow)
    else
      var sp := m.sp - 1;
      Ok(m.(sp := sp, pc := m.stack[sp]))
  }

  /** 1nnn: jump to nnn. */
  function Exec1nnn(m: Machine, f: Fields): (r: Machine)
    requires f.Fits()
    ensures r.pc == f.nnn && r.pc < 0x1000
    ensures r == m.(pc := r.pc)
  {
    m.(pc := f.nnn)
  }

  /** 2nnn: push pc and jump to nnn. A full stack (sp = STACK_SIZE) would be
      written past its end. */
  function Exec2nnn(m: Machine, f: Fields): (r: Result<Machine>)
    requires f.Fits()
    ensures r.Ok? <==> m.sp < STACK_SIZE
    ensures r.Ok? ==> r.value.sp == m.sp + 1 && r.value.stack[m.sp] == m.pc && r.value.pc == f.nnn
    ensures r.Ok? ==> forall j :: 0 <= j < STACK_SIZE && j != m.sp ==> r.value.stack[j] == m.stack[j]
    ensures r.Ok? ==> r.value == m.(stack := r.value.stack, sp := r.value.sp, pc := r.value.pc)
  {
    if m.sp >= STACK_SIZE then Err(StackOverflow)
    else Ok(m.(stack := m.stack[m.sp := m.pc], sp := m.sp + 1, pc := f.nnn))
  }

  /** 3xkk: skip if Vx == kk. */
  function Exec3xkk(m: Machine, f: Fields): (r: Machine)
    requires f.Fits()
    ensures r.pc != m.pc <==> m.registers[f.x] == f.kk
    ensures r.pc == if m.registers[f.x] == f.kk then Advance(m.pc) else m.pc
    ensures r == m.(pc := r.pc)
  {
    SkipIf(m, m.registers[f.x] == f.kk)
  }

  /** 4xkk: skip if Vx != kk. */
  function Exec4xkk(m: Machine, f: Fields): (r: Machine)
    requires f.Fits()
    ensures r.pc != m.pc <==> m.registers[f.x] != f.kk
    ensures r.pc == if m.registers[f.x] != f.kk then Advance(m.pc) else m.pc
    ensures r == m.(pc := r.pc)
  {
    SkipIf(m, m.registers[f.x] != f.kk)
  }

  /** 5xy0: skip if Vx == Vy. */
  function Exec5xy0(m: Machine, f: Fields): (r: Machine)
    requires f.Fits()
    ensures r.pc != m.pc <==> m.registers[f.x] == m.registers[f.y]
    ensures r.pc == if m.registers[f.x] == m.registers[f.y] then Advance(m.pc) else m.pc
    ensures r == m.(pc := r.pc)
  {
    SkipIf(m, m.registers[f.x] == m.registers[f.y])
  }

  /** 9xy0: skip if Vx != Vy. */
  function Exec9xy0(m: Machine, f: Fields): (r: Machine)
    requires f.Fits()
    ensures r.pc != m.pc <==> m.registers[f.x] != m.registers[f.y]
    ensures r.pc == if m.registers[f.x] != m.registers[f.y] then Advance(m.pc) else m.pc
    ensures r == m.(pc := r.pc)
  {
    SkipIf(m, m.registers[f.x] != m.registers[f.y])
  }

  /** Bnnn: jump to nnn + V0. The sum is at most 0xFFF + 0xFF and never wraps
      the uint16_t, but it can point past the end of memory. */
  function ExecBnnn(m: Machine, f: Fields): (r: Machine)
    requires f.Fits()
    ensures r.pc == m.registers[0] + f.nnn
    ensures r == m.(pc := r.pc)
  {
    m.(pc := ToWord(m.registers[0] + f.nnn))
  }

  /** A call followed by a return restores pc and sp; the only trace left is
      the saved address in the stack slot the call used. */
  lemma CallThenReturn(m: Machine, f: Fields)
    requires f.Fits() && m.sp < STACK_SIZE
    ensures Exec2nnn(m, f).Ok?
    ensures Exec00EE(Exec2nnn(m, f).value).Ok?
    ensures Exec00EE(Exec2nnn(m, f).value).value == m.(stack := m.stack[m.sp := m.pc])
  {
  }

  /** Return with an empty stack, and call with a full one, are faults. */
  lemma StackBounds(m: Machine, f: Fields)
    requires f.Fits()
    ensures m.sp == 0 ==> Exec00EE(m) == Err(StackUnderflow)
    ensures m.sp == STACK_SIZE ==> Exec2nnn(m, f) == Err(StackOverflow)
  {
  }

  /** Bnnn can leave pc outside memory: with V0 = 0xFF and nnn = 0xFFF it is
      0x10FE. */
  lemma BnnnLeavesMemory(m: Machine)
    requires m.registers[0] == 0xFF
    ensures ExecBnnn(m, Fields(0xFFF, 0xF, 0xF, 0xF, 0xFF)).pc == 0x10FE
    ensures ExecBnnn(m, Fields(0xFFF, 0xF, 0xF, 0xF, 0xFF)).pc >= MEMORY_SIZE
  {
  }
}
