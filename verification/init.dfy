/** The state after construction: every array value-initialised to zero, the
    font at the start of memory, the ROM at LOCATION_START, and pc there too.
    The fields without an initialiser (I, opcode, sp, dt) are taken as zero. */
module Init {
  import opened Bits
  import opened Outcomes
  import opened Cpu
  import opened Opcodes
  import opened MemoryOps

  /** The 16 hexadecimal glyphs, five rows each; only the high nibble of a
      row is used, so every glyph is four pixels wide. */
  const FONTSET: seq<Byte> := [
    0xF0, 0x90, 0x90, 0x90, 0xF0, // 0
    0x20, 0x60, 0x20, 0x20, 0x70, // 1
    0xF0, 0x10, 0xF0, 0x80, 0xF0, // 2
    0xF0, 0x10, 0xF0, 0x10, 0xF0, // 3
    0x90, 0x90, 0xF0, 0x10, 0x10, // 4
    0xF0, 0x80, 0xF0, 0x10, 0xF0, // 5
    0xF0, 0x80, 0xF0, 0x90, 0xF0, // 6
    0xF0, 0x10, 0x20, 0x40, 0x40, // 7
    0xF0, 0x90, 0xF0, 0x90, 0xF0, // 8
    0xF0, 0x90, 0xF0, 0x10, 0xF0, // 9
    0xF0, 0x90, 0xF0, 0x90, 0x90, // A
    0xE0, 0x90, 0xE0, 0x90, 0xE0, // B
    0xF0, 0x80, 0x80, 0x80, 0xF0, // C
    0xE0, 0x90, 0x90, 0x90, 0xE0, // D
    0xF0, 0x80, 0xF0, 0x80, 0xF0, // E
    0xF0, 0x80, 0xF0, 0x80, 0x80  // F
  ]

  const FONT_SIZE: int := 80

  /** The five rows of the glyph for digit d: the cells 5 * d through
      5 * d + 4 of any memory the font has been copied into. */
  function Glyph(d: nat): (g: seq<Byte>)
    requires d < 16
    ensures |g| == 5
    ensures forall mem: Memory :: CopyFontsToMemory(mem)[5 * d .. 5 * d + 5] == g
  {
    var g := FONTSET[5 * d .. 5 * d + 5];
    forall mem: Memory
      ensures CopyFontsToMemory(mem)[5 * d .. 5 * d + 5] == g
    {
      var r := CopyFontsToMemory(mem);
      assert r[5 * d .. 5 * d + 5] == r[..FONT_SIZE][5 * d .. 5 * d + 5];
    }
    g
  }

  /** copy_fonts_to_memory: the font overwrites the first 80 bytes of memory
      and leaves the rest alone. */
  function CopyFontsToMemory(mem: Memory): (r: Memory)
    ensures r[..FONT_SIZE] == FONTSET
    ensures r[FONT_SIZE..] == mem[FONT_SIZE..]
  {
    FONTSET + mem[FONT_SIZE..]
  }

  /** Memory after the ROM is read to LOCATION_START, before the font copy. */
  function RomImage(rom: seq<Byte>): (mem: Memory)
    requires |rom| <= MEMORY_SIZE - LOCATION_START
    ensures forall i :: 0 <= i < |rom| ==> mem[LOCATION_START + i] == rom[i]
    ensures forall a :: 0 <= a < MEMORY_SIZE && !(LOCATION_START <= a < LOCATION_START + |rom|) ==> mem[a] == 0
  {
    seq(MEMORY_SIZE, a requires 0 <= a < MEMORY_SIZE =>
      if LOCATION_START <= a < LOCATION_START + |rom| then rom[a - LOCATION_START] else 0)
  }

  /** The state after loading a ROM. The read is unchecked, so a ROM longer
      than the space from LOCATION_START to the end of memory is a fault. */
  function Load(rom: seq<Byte>): (r: Result<Machine>)
    ensures r.Ok? <==> |rom| <= MEMORY_SIZE - LOCATION_START
    ensures r.Ok? ==> var m := r.value;
      && m.memory[..FONT_SIZE] == FONTSET
      && (forall i :: 0 <= i < |rom| ==> m.memory[LOCATION_START + i] == rom[i])
      && (forall a :: FONT_SIZE <= a < MEMORY_SIZE && !(LOCATION_START <= a < LOCATION_START + |rom|) ==> m.memory[a] == 0)
    ensures r.Ok? ==> var m := r.value;
      && m.pc == LOCATION_START
      && m.I == 0 && m.opcode == 0 && m.sp == 0 && m.dt == 0
      && (forall p :: 0 <= p < DISPLAY_SIZE ==> m.display[p] == PIXEL_OFF)
      && (forall j :: 0 <= j < REGISTER_SIZE ==> m.registers[j] == 0)
      && (forall k :: 0 <= k < KEYPADS_SIZE ==> m.keypads[k] == 0)
      && (forall s :: 0 <= s < STACK_SIZE ==> m.stack[s] == 0)
    ensures r.Ok? ==> Valid(r.value)
  {
    if |rom| > MEMORY_SIZE - LOCATION_START then
      Err(RomTooLarge)
    else
      var memory := CopyFontsToMemory(RomImage(rom));
      Ok(Machine(
        display := seq(DISPLAY_SIZE, _ => PIXEL_OFF),
        stack := seq(STACK_SIZE, _ => 0),
        memory := memory,
        registers := seq(REGISTER_SIZE, _ => 0),
        keypads := seq(KEYPADS_SIZE, _ => 0),
        pc := LOCATION_START,
        I := 0,
        opcode := 0,
        sp := 0,
        dt := 0))
  }

  /** With the font in place, Fx29 for a digit points I at that digit's
      glyph. */
  lemma Fx29PointsAtGlyph(m: Machine, f: Fields)
    requires f.Fits() && m.registers[f.x] <= 0xF && m.memory[..FONT_SIZE] == FONTSET
    ensures var r := ExecFx29(m, f);
      r.I + 5 <= FONT_SIZE && r.memory[r.I .. r.I + 5] == Glyph(m.registers[f.x])
  {
    var d: int := m.registers[f.x];
    var r := ExecFx29(m, f);
    var font := m.memory[..FONT_SIZE];
    forall k | 0 <= k < 5
      ensures r.memory[r.I .. r.I + 5][k] == Glyph(d)[k]
    {
      assert r.memory[r.I .. r.I + 5][k] == font[5 * d .. 5 * d + 5][k];
    }
  }

  /** A loaded machine's font glyph for A, by way of Fx29 with Vx = 0xA. */
  lemma GlyphOfA(m: Machine)
    requires m.memory[..FONT_SIZE] == FONTSET && m.registers[0] == 0xA
    ensures var r := ExecFx29(m, Fields(0x029, 0x9, 0x0, 0x2, 0x29));
      r.I == 50 && r.memory[r.I .. r.I + 5] == [0xF0, 0x90, 0xF0, 0x90, 0x90]
  {
    Fx29PointsAtGlyph(m, Fields(0x029, 0x9, 0x0, 0x2, 0x29));
    assert FONTSET[50] == 0xF0 && FONTSET[51] == 0x90 && FONTSET[52] == 0xF0;
    assert FONTSET[53] == 0x90 && FONTSET[54] == 0x90;
    assert Glyph(0xA) == [0xF0, 0x90, 0xF0, 0x90, 0x90];
  }
}
