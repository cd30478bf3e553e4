/** The machine state record and the geometry constants of the interpreter.

    Every array of the record has a fixed length, expressed here by a subset
    type; the scalar registers keep their C++ widths. */
module Cpu {
  import opened Bits

  const MEMORY_SIZE: int := 0xFFF
  const STACK_SIZE: int := 16
  const REGISTER_SIZE: int := 16
  const KEYPADS_SIZE: int := 16
  const CHIP8_WIDTH: int := 64
  const CHIP8_HEIGHT: int := 32
  const DISPLAY_SIZE: int := CHIP8_WIDTH * CHIP8_HEIGHT

  /** Programs are loaded, and the program counter starts, here. */
  const LOCATION_START: int := 0x200
  /** Every instruction is two bytes long. */
  const INSTRUCTION_LONG: int := 2

  /** The flag register is the last of the general registers. */
  const VF: int := REGISTER_SIZE - 1

  /** Display cells hold one of two uint32_t values. */
  const PIXEL_OFF: Pixel := 0
  const PIXEL_ON: Pixel := 0xFFFF_FFFF

  type Display = s: seq<Pixel> | |s| == DISPLAY_SIZE witness seq(DISPLAY_SIZE, _ => PIXEL_OFF)
  type Stack = s: seq<Word> | |s| == STACK_SIZE witness seq(STACK_SIZE, _ => 0)
  type Memory = s: seq<Byte> | |s| == MEMORY_SIZE witness seq(MEMORY_SIZE, _ => 0)
  type Registers = s: seq<Byte> | |s| == REGISTER_SIZE witness seq(REGISTER_SIZE, _ => 0)
  /** One entry per hexadecimal key; non-zero means pressed. */
  type Keypads = s: seq<Byte> | |s| == KEYPADS_SIZE witness seq(KEYPADS_SIZE, _ => 0)

  /** The complete interpreter state. `opcode` is the last fetched instruction;
      `dt` is the delay timer. There is no sound timer. */
  datatype Machine = Machine(
    display: Display,
    stack: Stack,
    memory: Memory,
    registers: Registers,
    keypads: Keypads,
    pc: Word,
    I: Word,
    opcode: Word,
    sp: Byte,
    dt: Byte)

  predicate IsPixel(v: Pixel) {
    v == PIXEL_OFF || v == PIXEL_ON
  }

  /** The state invariant: the stack pointer stays within the stack (it may
      equal STACK_SIZE, the full stack), and every display cell is off or on. */
  predicate Valid(m: Machine) {
    && m.sp <= STACK_SIZE
    && forall p :: 0 <= p < DISPLAY_SIZE ==> IsPixel(m.display[p])
  }

  /** `v ^ 0xFFFFFFFF` on a uint32_t: every bit inverted, which for a 32-bit
      value is subtraction from all ones. It turns an off cell on and an on
      cell off. */
  function Flip(v: Pixel): (r: Pixel)
    ensures IsPixel(v) ==> IsPixel(r) && r != v
  {
    PIXEL_ON - v
  }

  /** XOR with a fixed value is its own inverse. */
  lemma FlipTwice(v: Pixel)
    ensures Flip(Flip(v)) == v
  {
  }
}
