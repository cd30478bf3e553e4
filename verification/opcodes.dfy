/** The opcode table, the operand fields of an instruction, and the fetch of
    an opcode from memory. */
module Opcodes {
  import opened Bits
  import opened Outcomes
  import opened Cpu

  /** One constructor per handler of the opcode table (the legacy 0nnn
      machine-routine call has none). */
  datatype Instr =
    | Op00E0 | Op00EE | Op1nnn | Op2nnn | Op3xkk | Op4xkk | Op5xy0 | Op6xkk | Op7xkk
    | Op8xy0 | Op8xy1 | Op8xy2 | Op8xy3 | Op8xy4 | Op8xy5 | Op8xy6 | Op8xy7 | Op8xyE
    | Op9xy0 | OpAnnn | OpBnnn | OpCxkk | OpDxyn | OpEx9E | OpExA1
    | OpFx07 | OpFx0A | OpFx15 | OpFx18 | OpFx1E | OpFx29 | OpFx33 | OpFx55 | OpFx65

  /** The key under which each handler is stored in the opcode table. No key
      has a bit in the x nibble, and the keys of families 0 and 8 have none in
      the y nibble either, so each survives its family's mask. */
  function Key(i: Instr): (r: Word)
    ensures (r / 0x100) % 0x10 == 0
    ensures r / 0x1000 == 0 || r / 0x1000 == 8 ==> (r / 0x10) % 0x10 == 0
  {
    match i
    case Op00E0 => 0x0000
    case Op00EE => 0x000E
    case Op1nnn => 0x1000
    case Op2nnn => 0x2000
    case Op3xkk => 0x3000
    case Op4xkk => 0x4000
    case Op5xy0 => 0x5000
    case Op6xkk => 0x6000
    case Op7xkk => 0x7000
    case Op8xy0 => 0x8000
    case Op8xy1 => 0x8001
    case Op8xy2 => 0x8002
    case Op8xy3 => 0x8003
    case Op8xy4 => 0x8004
    case Op8xy5 => 0x8005
    case Op8xy6 => 0x8006
    case Op8xy7 => 0x8007
    case Op8xyE => 0x800E
    case Op9xy0 => 0x9000
    case OpAnnn => 0xA000
    case OpBnnn => 0xB000
    case OpCxkk => 0xC000
    case OpDxyn => 0xD000
    case OpEx9E => 0xE09E
    case OpExA1 => 0xE0A1
    case OpFx07 => 0xF007
    case OpFx0A => 0xF00A
    case OpFx15 => 0xF015
    case OpFx18 => 0xF018
    case OpFx1E => 0xF01E
    case OpFx29 => 0xF029
    case OpFx33 => 0xF033
    case OpFx55 => 0xF055
    case OpFx65 => 0xF065
  }

  /** The opcode table: the handler stored under a key, if any. Every key
      it holds has a zero x nibble, and in families 0 and 8 a zero y nibble. */
  function TableLookup(k: Word): (r: Option<Instr>)
    ensures r.Some? ==> (k / 0x100) % 0x10 == 0
    ensures r.Some? && (k / 0x1000 == 0 || k / 0x1000 == 8) ==> (k / 0x10) % 0x10 == 0
  {
    if k == 0x0000 then Some(Op00E0)
    else if k == 0x000E then Some(Op00EE)
    else if k == 0x1000 then Some(Op1nnn)
    else if k == 0x2000 then Some(Op2nnn)
    else if k == 0x3000 then Some(Op3xkk)
    else if k == 0x4000 then Some(Op4xkk)
    else if k == 0x5000 then Some(Op5xy0)
    else if k == 0x6000 then Some(Op6xkk)
    else if k == 0x7000 then Some(Op7xkk)
    else if k == 0x8000 then Some(Op8xy0)
    else if k == 0x8001 then Some(Op8xy1)
    else if k == 0x8002 then Some(Op8xy2)
    else if k == 0x8003 then Some(Op8xy3)
    else if k == 0x8004 then Some(Op8xy4)
    else if k == 0x8005 then Some(Op8xy5)
    else if k == 0x8006 then Some(Op8xy6)
    else if k == 0x8007 then Some(Op8xy7)
    else if k == 0x800E then Some(Op8xyE)
    else if k == 0x9000 then Some(Op9xy0)
    else if k == 0xA000 then Some(OpAnnn)
    else if k == 0xB000 then Some(OpBnnn)
    else if k == 0xC000 then Some(OpCxkk)
    else if k == 0xD000 then Some(OpDxyn)
    else if k == 0xE09E then Some(OpEx9E)
    else if k == 0xE0A1 then Some(OpExA1)
    else if k == 0xF007 then Some(OpFx07)
    else if k == 0xF00A then Some(OpFx0A)
    else if k == 0xF015 then Some(OpFx15)
    else if k == 0xF018 then Some(OpFx18)
    else if k == 0xF01E then Some(OpFx1E)
    else if k == 0xF029 then Some(OpFx29)
    else if k == 0xF033 then Some(OpFx33)
    else if k == 0xF055 then Some(OpFx55)
    else if k == 0xF065 then Some(OpFx65)
    else None
  }

  /** A handler is found only under its own key. */
  lemma LookupSound(k: Word)
    ensures TableLookup(k).Some? ==> Key(TableLookup(k).value) == k
  {
  }

  /** Every handler is found under its key. */
  lemma LookupOfKey(i: Instr)
    ensures TableLookup(Key(i)) == Some(i)
  {
  }

  /** The 34 keys are pairwise distinct, so the table is a function. */
  lemma KeysDistinct(i: Instr, j: Instr)
    ensures Key(i) == Key(j) ==> i == j
  {
    LookupOfKey(i);
    LookupOfKey(j);
  }

  /** The operand fields of the current instruction, with the widths the
      interpreter declares for them. */
  datatype Fields = Fields(nnn: Word, n: Byte, x: Byte, y: Byte, kk: Byte) {

    /** The widths decoding guarantees: a 12-bit address and three nibbles. */
    predicate Fits() {
      nnn < 0x1000 && n < 0x10 && x < 0x10 && y < 0x10
    }
  }

  /** The fields of an opcode, computed with the masks and shifts of the
      interpreter. nnn is the low 12 bits, n bits 0-3, x bits 8-11, y bits
      4-7, kk the low byte; so nnn and kk are x, y and n put back
      together, and nnn under the high nibble is the whole opcode again. */
  function DecodeFields(op: Word): (f: Fields)
    ensures f.Fits()
    ensures f.nnn == op % 0x1000 && f.n == op % 0x10 && f.kk == op % 0x100
    ensures f.x == (op / 0x100) % 0x10 && f.y == (op / 0x10) % 0x10
    ensures f.nnn == f.x * 0x100 + f.y * 0x10 + f.n
    ensures f.kk == f.y * 0x10 + f.n
    ensures op == (op / 0x1000) * 0x1000 + f.nnn
  {
    Pow2Values();
    AndLowBits(op, 12);
    AndLowBits(op, 8);
    AndLowBits(op, 4);
    AndLowBits(Above(op, 8), 4);
    AndLowBits(Above(op, 4), 4);
    ModSplit(op, 0x10, 0x100);
    ModSplit(op, 0x10, 0x10);
    ModSplit(op, 0x10, 0x1000);
    Fields(
      nnn := And(op, 0xFFF),
      n := And(op, 0xF),
      x := And(Above(op, 8), 0xF),
      y := And(Above(op, 4), 0xF),
      kk := And(op, 0xFF))
  }

  /** The opcode at pc: the byte at pc is its high byte and the byte after it
      its low byte. Reading past the end of memory is a fault. */
  function FetchOpcode(memory: Memory, pc: Word): (r: Result<Word>)
    ensures r.Ok? <==> pc + 1 < MEMORY_SIZE
    ensures r.Ok? ==> r.value / 0x100 == memory[pc] && r.value % 0x100 == memory[pc + 1]
  {
    if pc + 1 < MEMORY_SIZE then
      // (memory[pc] << 8) | memory[pc + 1]: the low 8 bits of the shifted byte
      // are zero, so the OR is a sum
      var op: Word := (memory[pc] as int) * 0x100 + (memory[pc + 1] as int);
      Ok(op)
    else
      Err(MemoryOutOfBounds)
  }
}
