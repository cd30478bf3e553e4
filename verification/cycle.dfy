/** The fetch-decode-execute cycle. One cycle advances pc by one instruction,
    fetches the opcode at the new pc, decodes its fields, runs the handler
    the masked opcode selects, takes the keypad the host reports, and counts
    the delay timer down by one. Drawing to the window is left to the host.

    pc is advanced BEFORE the fetch, so the instruction fetched is the one
    after the one pc named; a jump to nnn therefore runs the instruction at
    nnn + 2 next, and the first instruction run after loading is the one at
    LOCATION_START + 2. */
module Interpreter {
  import opened Bits
  import opened Outcomes
  import opened Cpu
  import opened Opcodes
  import opened Flow
  import opened Keypad
  import opened Timers
  import opened Dispatcher
  import opened Init

  /** What the host supplies to one cycle: the keypad state its key handling
      leaves behind, and the byte its random source gives Cxkk. */
  datatype Input = Input(keypads: Keypads, rnd: Byte)

  /** The opcode the next cycle fetches: the two bytes after pc. */
  function NextOpcode(m: Machine): (r: Result<Word>)
    ensures r.Ok? <==> Advance(m.pc) + 1 < MEMORY_SIZE
    ensures r.Ok? ==> r.value == (m.memory[Advance(m.pc)] as int) * 0x100 + (m.memory[Advance(m.pc) + 1] as int)
  {
    FetchOpcode(m.memory, Advance(m.pc))
  }

  /** One cycle. The fetched opcode is kept in the opcode register; keys the
      instruction reads are those from the previous cycle, since the new
      keypad is taken after the instruction runs. */
  function Cycle(m: Machine, input: Input): (r: Result<Machine>)
    ensures NextOpcode(m).Err? ==> r == Err(MemoryOutOfBounds)
    ensures r.Ok? ==> NextOpcode(m) == Ok(r.value.opcode)
    ensures r.Ok? ==> r.value.keypads == input.keypads
    ensures r.Ok? && Dispatch(r.value.opcode) != Some(OpFx15) ==> r.value.dt == DecayTimer(m.dt)
    ensures r.Ok? && Valid(m) ==> Valid(r.value)
    ensures r.Ok? && Dispatch(r.value.opcode).Some? && KeepsPc(Dispatch(r.value.opcode).value) ==>
      r.value.pc == Advance(m.pc)
    ensures r.Ok? && Dispatch(r.value.opcode).None? ==>
      r.value == m.(pc := Advance(m.pc), opcode := r.value.opcode, keypads := input.keypads, dt := DecayTimer(m.dt))
    ensures r.Ok? && Dispatch(r.value.opcode) == Some(Op3xkk) ==> var f := DecodeFields(r.value.opcode);
      r.value.pc == if m.registers[f.x] == f.kk then Advance(Advance(m.pc)) else Advance(m.pc)
    ensures r.Ok? && Dispatch(r.value.opcode) == Some(Op1nnn) ==> r.value.pc == r.value.opcode % 0x1000
  {
    var pc := Advance(m.pc);
    var op :- FetchOpcode(m.memory, pc);
    var done :- Execute(m.(pc := pc, opcode := op), DecodeFields(op), Dispatch(op), input.rnd);
    Ok(done.(keypads := input.keypads, dt := DecayTimer(done.dt)))
  }

  /** An opcode no handler takes only moves pc on, records the opcode, and
      lets the keypad and timer update. */
  lemma UnknownOpcodeOnlyAdvances(m: Machine, input: Input)
    requires NextOpcode(m).Ok? && Dispatch(NextOpcode(m).value) == None
    ensures Cycle(m, input) == Ok(m.(pc := Advance(m.pc), opcode := NextOpcode(m).value,
                                       keypads := input.keypads, dt := DecayTimer(m.dt)))
  {
  }

  /** An instruction that does not touch pc leaves it one instruction on. */
  lemma StraightLineAdvances(m: Machine, input: Input)
    requires NextOpcode(m).Ok?
    requires var i := Dispatch(NextOpcode(m).value); i.Some? && KeepsPc(i.value)
    ensures Cycle(m, input).Ok? ==> Cycle(m, input).value.pc == Advance(m.pc)
  {
  }

  /** After a jump to nnn the next instruction fetched is the one at nnn + 2. */
  lemma JumpSkipsTarget(m: Machine, input: Input)
    requires Cycle(m, input).Ok? && Dispatch(Cycle(m, input).value.opcode) == Some(Op1nnn)
    ensures var r := Cycle(m, input).value;
      r.pc == r.opcode % 0x1000 && Advance(r.pc) == r.opcode % 0x1000 + 2
  {
  }

  /** `Rewind` undoes `Advance`, for every pc. */
  lemma RewindAdvance(pc: Word)
    ensures Rewind(Advance(pc)) == pc
  {
  }

  /** Fx0A with no key down leaves pc where the cycle found it, so the next
      cycle fetches the same Fx0A again: the machine waits. */
  lemma AwaitKeyRepeats(m: Machine, input: Input)
    requires NextOpcode(m).Ok? && Dispatch(NextOpcode(m).value) == Some(OpFx0A)
    requires forall k :: 0 <= k < KEYPADS_SIZE ==> m.keypads[k] == 0
    ensures Cycle(m, input).Ok?
    ensures var r := Cycle(m, input).value;
      r.pc == m.pc && r.memory == m.memory && NextOpcode(r) == NextOpcode(m)
  {
    RewindAdvance(m.pc);
  }

  /** Fx15 in a cycle is followed by that cycle's decrement, so Vx = 1 leaves
      the timer at zero by the time the next instruction runs. */
  lemma DelaySetThisCycle(m: Machine, input: Input)
    requires NextOpcode(m).Ok? && Dispatch(NextOpcode(m).value) == Some(OpFx15)
    ensures Cycle(m, input).Ok?
    ensures var r := Cycle(m, input).value;
      r.dt == DecayTimer(m.registers[DecodeFields(r.opcode).x])
  {
  }

  /** The first opcode fetched after loading is the ROM's second instruction. */
  lemma FirstFetchSkipsFirstInstruction(rom: seq<Byte>)
    requires 4 <= |rom| <= MEMORY_SIZE - LOCATION_START
    ensures Load(rom).Ok?
    ensures NextOpcode(Load(rom).value) == Ok((rom[2] as int) * 0x100 + (rom[3] as int))
  {
    var m := Load(rom).value;
    assert m.memory[LOCATION_START + 2] == rom[2];
    assert m.memory[LOCATION_START + 3] == rom[3];
  }

  /** A ROM that loads 10 into V0 and then returns: the load is never run,
      and the return with an empty stack is the first thing executed. */
  lemma ReturnFirstUnderflows(input: Input)
    ensures Load([0x60, 0x0A, 0x00, 0xEE]).Ok?
    ensures Cycle(Load([0x60, 0x0A, 0x00, 0xEE]).value, input) == Err(StackUnderflow)
  {
    var rom: seq<Byte> := [0x60, 0x0A, 0x00, 0xEE];
    FirstFetchSkipsFirstInstruction(rom);
    var m := Load(rom).value;
    assert NextOpcode(m) == Ok(0x00EE);
    ZeroFamily(0x00EE);
    var fetched := m.(pc := Advance(m.pc), opcode := 0x00EE);
    assert fetched.sp == 0;
    assert Execute(fetched, DecodeFields(0x00EE), Some(Op00EE), input.rnd) == Err(StackUnderflow);
  }

  /** Cycles one after another, one input each, stopping at the first fault. */
  function Run(m: Machine, inputs: seq<Input>): (r: Result<Machine>)
    ensures r.Ok? && Valid(m) ==> Valid(r.value)
    ensures r.Ok? && |inputs| > 0 ==> r.value.keypads == inputs[|inputs| - 1].keypads
    decreases |inputs|
  {
    if |inputs| == 0 then Ok(m)
    else
      var next :- Cycle(m, inputs[0]);
      Run(next, inputs[1..])
  }

  /** No cycle of the run over `inputs` from m runs Fx15. */
  predicate NoDelaySet(m: Machine, inputs: seq<Input>)
    decreases |inputs|
  {
    |inputs| == 0 ||
    match Cycle(m, inputs[0])
    case Ok(next) => Dispatch(next.opcode) != Some(OpFx15) && NoDelaySet(next, inputs[1..])
    case Err(_) => true
  }

  /** k cycles that do not set the timer count it down k times. */
  lemma {:induction false} RunDecays(m: Machine, inputs: seq<Input>)
    requires NoDelaySet(m, inputs)
    ensures Run(m, inputs).Ok? ==> Run(m, inputs).value.dt == DecayN(m.dt, |inputs|)
    decreases |inputs|
  {
    if |inputs| > 0 {
      match Cycle(m, inputs[0])
      case Ok(next) =>
        RunDecays(next, inputs[1..]);
      case Err(_) =>
    }
  }

  /** A run over two stretches of input is the run over the first followed by
      the run over the second. */
  lemma {:induction false} RunAppend(m: Machine, a: seq<Input>, b: seq<Input>)
    ensures Run(m, a + b) == match Run(m, a)
      case Ok(mid) => Run(mid, b)
      case Err(e) => Err(e)
    decreases |a|
  {
    if |a| == 0 {
      assert a + b == b;
    } else {
      assert (a + b)[1..] == a[1..] + b;
      match Cycle(m, a[0])
      case Ok(next) => RunAppend(next, a[1..], b);
      case Err(_) =>
    }
  }
}
