/** Dispatch: the opcode is masked according to its high nibble and the
    masked value is looked up in the opcode table; a value that is not a key
    runs nothing.

    High nibbles 1-7, 9 and A-D keep only the nibble (mask 0xF000); F keeps
    the nibble and the low byte (0xF0FF); every other nibble, that is 0, 8
    and E, keeps the nibble and the low nibble (0xF00F). */
module Dispatcher {
  import opened Bits
  import opened Outcomes
  import opened Cpu
  import opened Opcodes
  import opened Flow
  import opened Alu
  import opened MemoryOps
  import opened Graphics
  import opened Keypad
  import opened Timers

  /** High nibbles whose instructions are identified by the nibble alone. */
  predicate NibbleOnly(h: int) {
    1 <= h <= 0xD && h != 8
  }

  /** `(a % (b * c)) % c == a % c`. */
  lemma ModMod(a: nat, b: nat, c: nat)
    requires b > 0 && c > 0
    ensures (a % (b * c)) % c == a % c
  {
    ModSplit(a, b, c);
    DivModUnique(a % (b * c), c, (a / c) % b, a % c);
  }

  /** `op & (0xF000 | low)` for low < 0x1000: the high nibble of op, and the
      bits of low within the rest. */
  lemma MaskHigh(op: Word, low: nat)
    requires low < 0x1000
    ensures And(op, 0xF000 + low) == (op / 0x1000) * 0x1000 + And(op % 0x1000, low)
  {
    Pow2Values();
    var mask := 0xF000 + low;
    DivModUnique(mask, 0x1000, 0xF, low);
    assert Above(mask, 12) == 0xF && mask % Pow2(12) == low;
    var h := op / 0x1000;
    assert Above(op, 12) == h && h < 0x10;
    AndLowBits(h, 4);
    assert And(h, 0xF) == h;
    AndSplit(op, mask, 12);
    assert And(op, mask) == And(h, 0xF) * 0x1000 + And(op % 0x1000, low);
  }

  /** `op & (0xF000 | (2^k - 1))` for k in {0, 4, 8}: the high nibble and the
      k low bits. */
  lemma MaskValue(op: Word, k: nat)
    requires k == 0 || k == 4 || k == 8
    ensures And(op, 0xF000 + (Pow2(k) - 1)) == (op / 0x1000) * 0x1000 + op % Pow2(k)
  {
    Pow2Values();
    var P := Pow2(k);
    assert k == 0 ==> P == 1;
    MaskHigh(op, P - 1);
    AndLowBits(op % 0x1000, k);
    ModMod(op, 0x1000 / P, P);
  }

  /** An opcode with no bits outside its family's mask is its own masked
      value. */
  lemma MaskedFixed(op: Word)
    requires var h := op / 0x1000;
      if NibbleOnly(h) then op % 0x1000 == 0
      else if h == 0xF then op % 0x1000 < 0x100
      else op % 0x1000 < 0x10
    ensures Masked(op) == op
  {
    var h := op / 0x1000;
    if h == 0xF {
      DivModUnique(op % 0x1000, 0x100, 0, op % 0x1000);
      ModMod(op, 0x10, 0x100);
    } else if !NibbleOnly(h) {
      DivModUnique(op % 0x1000, 0x10, 0, op % 0x1000);
      ModMod(op, 0x100, 0x10);
    }
  }

  /** The masked opcode `call_opcodes` looks up. */
  function Masked(op: Word): (r: Word)
    ensures var h := op / 0x1000;
      r == if NibbleOnly(h) then h * 0x1000
           else if h == 0xF then h * 0x1000 + op % 0x100
           else h * 0x1000 + op % 0x10
  {
    Pow2Values();
    MaskValue(op, 0);
    MaskValue(op, 4);
    MaskValue(op, 8);
    var family := And(op, 0xF000);
    if NibbleOnly(family / 0x1000) then And(op, 0xF000)
    else if family == 0xF000 then And(op, 0xF0FF)
    else And(op, 0xF00F)
  }

  /** The handler an opcode runs, if any. */
  function Dispatch(op: Word): (r: Option<Instr>)
    ensures r.Some? ==> Key(r.value) == Masked(op)
    ensures r.Some? ==> Key(r.value) / 0x1000 == op / 0x1000
  {
    LookupSound(Masked(op));
    TableLookup(Masked(op))
  }

  /** Every key but the two keypad tests is a fixed point of its family's
      mask, so its own opcode reaches its handler. */
  lemma ReachableKeysAreFixedPoints(i: Instr)
    requires i != OpEx9E && i != OpExA1
    ensures Masked(Key(i)) == Key(i)
    ensures Dispatch(Key(i)) == Some(i)
  {
    MaskedFixed(Key(i));
    LookupOfKey(i);
  }

  /** 0xE09E and 0xE0A1 are not of the form 0xE00k, so no opcode reaches the
      keypad tests: every E opcode runs nothing. */
  lemma KeyTestsUnreachable(op: Word)
    ensures Dispatch(op) != Some(OpEx9E) && Dispatch(op) != Some(OpExA1)
    ensures op / 0x1000 == 0xE ==> Dispatch(op) == None
  {
    if op / 0x1000 == 0xE {
      assert 0xE000 <= Masked(op) <= 0xE00F;
    }
  }

  /** In the 0 family every opcode ending in 0 clears the screen, every one
      ending in E returns, and the rest run nothing. */
  lemma ZeroFamily(op: Word)
    requires op / 0x1000 == 0
    ensures op % 0x10 == 0x0 ==> Dispatch(op) == Some(Op00E0)
    ensures op % 0x10 == 0xE ==> Dispatch(op) == Some(Op00EE)
    ensures op % 0x10 != 0x0 && op % 0x10 != 0xE ==> Dispatch(op) == None
  {
    assert Masked(op) == op % 0x10;
  }

  /** In the 8 family the low nibble alone selects the handler. */
  lemma EightFamily(op: Word)
    requires op / 0x1000 == 8
    ensures Dispatch(op).Some? <==> op % 0x10 <= 7 || op % 0x10 == 0xE
    ensures Dispatch(op).Some? ==> Key(Dispatch(op).value) == 0x8000 + op % 0x10
  {
    assert Masked(op) == 0x8000 + op % 0x10;
  }

  /** In the F family the low byte alone selects the handler. */
  lemma FFamily(op: Word)
    requires op / 0x1000 == 0xF
    ensures Dispatch(op).Some? <==> op % 0x100 in {0x07, 0x0A, 0x15, 0x18, 0x1E, 0x29, 0x33, 0x55, 0x65}
    ensures Dispatch(op).Some? ==> Key(Dispatch(op).value) == 0xF000 + op % 0x100
  {
    assert Masked(op) == 0xF000 + op % 0x100;
  }

  /** In the families identified by the nibble alone every opcode reaches
      the family's handler. */
  lemma NibbleFamilies(op: Word)
    requires NibbleOnly(op / 0x1000)
    ensures Dispatch(op).Some?
    ensures Key(Dispatch(op).value) == (op / 0x1000) * 0x1000
  {
    assert Masked(op) == (op / 0x1000) * 0x1000;
  }

  /** Instructions that leave pc alone: everything but the jumps, calls,
      returns, skips and the key wait. */
  predicate KeepsPc(i: Instr) {
    !(i in {Op00EE, Op1nnn, Op2nnn, Op3xkk, Op4xkk, Op5xy0, Op9xy0, OpBnnn, OpEx9E, OpExA1, OpFx0A})
  }

  /** Run one handler on the machine, with the random byte Cxkk uses. No
      handler means no change. */
  function Execute(m: Machine, f: Fields, ins: Option<Instr>, rnd: Byte): (r: Result<Machine>)
    requires f.Fits()
    ensures ins.None? ==> r == Ok(m)
    ensures r.Ok? ==> r.value.keypads == m.keypads && r.value.opcode == m.opcode
    ensures r.Ok? && ins != Some(OpFx15) ==> r.value.dt == m.dt
    ensures Valid(m) && r.Ok? ==> Valid(r.value)
    ensures r.Ok? && ins.Some? && KeepsPc(ins.value) ==> r.value.pc == m.pc
    ensures ins == Some(Op1nnn) ==> r == Ok(m.(pc := f.nnn))
  {
    match ins
    case None => Ok(m)
    case Some(i) =>
      DisplayKeepsPixels(m, f);
      match i
      case Op00E0 => Ok(Exec00E0(m))
      case Op00EE => Exec00EE(m)
      case Op1nnn => Ok(Exec1nnn(m, f))
      case Op2nnn => Exec2nnn(m, f)
      case Op3xkk => Ok(Exec3xkk(m, f))
      case Op4xkk => Ok(Exec4xkk(m, f))
      case Op5xy0 => Ok(Exec5xy0(m, f))
      case Op6xkk => Ok(Exec6xkk(m, f))
      case Op7xkk => Ok(Exec7xkk(m, f))
      case Op8xy0 => Ok(Exec8xy0(m, f))
      case Op8xy1 => Ok(Exec8xy1(m, f))
      case Op8xy2 => Ok(Exec8xy2(m, f))
      case Op8xy3 => Ok(Exec8xy3(m, f))
      case Op8xy4 => Ok(Exec8xy4(m, f))
      case Op8xy5 => Ok(Exec8xy5(m, f))
      case Op8xy6 => Ok(Exec8xy6(m, f))
      case Op8xy7 => Ok(Exec8xy7(m, f))
      case Op8xyE => Ok(Exec8xyE(m, f))
      case Op9xy0 => Ok(Exec9xy0(m, f))
      case OpAnnn => Ok(ExecAnnn(m, f))
      case OpBnnn => Ok(ExecBnnn(m, f))
      case OpCxkk => Ok(ExecCxkk(m, f, rnd))
      case OpDxyn => ExecDxyn(m, f)
      case OpEx9E => ExecEx9E(m, f)
      case OpExA1 => ExecExA1(m, f)
      case OpFx07 => Ok(ExecFx07(m, f))
      case OpFx0A => Ok(ExecFx0A(m, f))
      case OpFx15 => Ok(ExecFx15(m, f))
      case OpFx18 => Ok(ExecFx18(m, f))
      case OpFx1E => Ok(ExecFx1E(m, f))
      case OpFx29 => Ok(ExecFx29(m, f))
      case OpFx33 => ExecFx33(m, f)
      case OpFx55 => ExecFx55(m, f)
      case OpFx65 => ExecFx65(m, f)
  }
}
