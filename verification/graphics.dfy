/** The two display instructions: clear (00E0) and draw (Dxyn). */
module Graphics {
  import opened Bits
  import opened Outcomes
  import opened Cpu
  import opened Opcodes
  import opened Sprites

  /** 00E0: every display cell is turned off; nothing else changes. */
  function Exec00E0(m: Machine): (r: Machine)
    ensures forall p :: 0 <= p < DISPLAY_SIZE ==> r.display[p] == PIXEL_OFF
    ensures r == m.(display := r.display)
  {
    m.(display := seq(DISPLAY_SIZE, _ => PIXEL_OFF))
  }

  /** Registers as the draw loop sees them: VF is cleared before Vx and Vy
      are read, so a draw with x or y equal to F places the sprite at
      coordinate 0 on that axis. */
  function DrawRegisters(m: Machine): (regs: Registers)
    ensures regs[VF] == 0
    ensures forall j :: 0 <= j < REGISTER_SIZE && j != VF ==> regs[j] == m.registers[j]
  {
    m.registers[VF := 0]
  }

  /** Dxyn: draw the n-byte sprite at memory[I..] with its top-left corner at
      (Vx, Vy). Each set sprite bit toggles the cell it lands on; VF ends as 1
      if some toggled cell was on, else 0. A sprite row outside memory or a set
      bit outside the display is a fault. Only the display and VF change. */
  function ExecDxyn(m: Machine, f: Fields): (r: Result<Machine>)
    requires f.Fits()
    ensures var regs := DrawRegisters(m);
      r.Ok? <==> SpriteFits(m.memory, m.I, f.n, regs[f.x], regs[f.y], 0)
    ensures var regs := DrawRegisters(m);
      r.Ok? ==> forall p :: 0 <= p < DISPLAY_SIZE ==>
        r.value.display[p] ==
          if CoversFrom(m.memory, m.I, f.n, regs[f.x], regs[f.y], 0, p) then Flip(m.display[p]) else m.display[p]
    ensures r.Ok? ==> r.value.registers[VF] <= 1
    ensures r.Ok? ==> r.value == m.(display := r.value.display, registers := m.registers[VF := r.value.registers[VF]])
  {
    var regs := DrawRegisters(m);
    var frame :- DrawRows(m.display, m.memory, m.I, f.n, regs[f.x], regs[f.y], 0, false);
    Ok(m.(display := frame.display, registers := regs[VF := if frame.collided then 1 else 0]))
  }

  /** VF is set to 1 iff some cell the sprite toggles was on before. */
  lemma DxynCollision(m: Machine, f: Fields)
    requires f.Fits() && ExecDxyn(m, f).Ok?
    ensures var regs := DrawRegisters(m);
      ExecDxyn(m, f).value.registers[VF] == 1 <==>
        exists p :: 0 <= p < DISPLAY_SIZE && CoversFrom(m.memory, m.I, f.n, regs[f.x], regs[f.y], 0, p)
          && m.display[p] == PIXEL_ON
  {
    var regs := DrawRegisters(m);
    DrawRowsCollision(m.display, m.memory, m.I, f.n, regs[f.x], regs[f.y], 0, false);
  }

  /** Drawing the same sprite again, with I, Vx and Vy unchanged, restores the
      display exactly: the cells toggled are the same and toggling is its own
      inverse. */
  lemma DxynTwice(m: Machine, f: Fields)
    requires f.Fits() && ExecDxyn(m, f).Ok?
    ensures ExecDxyn(ExecDxyn(m, f).value, f).Ok?
    ensures ExecDxyn(ExecDxyn(m, f).value, f).value.display == m.display
  {
    var m1 := ExecDxyn(m, f).value;
    assert DrawRegisters(m1) == DrawRegisters(m);
    var m2 := ExecDxyn(m1, f).value;
    forall p | 0 <= p < DISPLAY_SIZE
      ensures m2.display[p] == m.display[p]
    {
      FlipTwice(m.display[p]);
    }
  }

  /** A sprite of zero rows draws nothing and clears VF, wherever I points. */
  lemma DxynEmpty(m: Machine, f: Fields)
    requires f.Fits() && f.n == 0
    ensures ExecDxyn(m, f).Ok?
    ensures ExecDxyn(m, f).value.display == m.display
    ensures ExecDxyn(m, f).value.registers == m.registers[VF := 0]
  {
    var regs := DrawRegisters(m);
    assert SpriteFits(m.memory, m.I, f.n, regs[f.x], regs[f.y], 0);
    DxynCollision(m, f);
  }

  /** Both display instructions keep every cell off or on. */
  lemma DisplayKeepsPixels(m: Machine, f: Fields)
    requires f.Fits()
    ensures Valid(m) ==> Valid(Exec00E0(m))
    ensures Valid(m) && ExecDxyn(m, f).Ok? ==> Valid(ExecDxyn(m, f).value)
  {
  }
}
