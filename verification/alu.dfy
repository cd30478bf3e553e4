/** Register loads and arithmetic: 6xkk, 7xkk, the 8xy family and Cxkk.

    8xy5, 8xy6, 8xy7 and 8xyE write VF first and then read Vx and Vy again,
    so when x or y is F they see the new flag; 8xy4 computes its sum before
    writing VF. The contracts below say what happens for x != F, and what is
    left in VF when x == F. */
module Alu {
  import opened Bits
  import opened Cpu
  import opened Opcodes

  /** Every register except x and VF keeps its value. */
  predicate OthersKept(m: Machine, r: Machine, x: int) {
    forall j :: 0 <= j < REGISTER_SIZE && j != x && j != VF ==> r.registers[j] == m.registers[j]
  }

  /** 6xkk: Vx = kk. */
  function Exec6xkk(m: Machine, f: Fields): (r: Machine)
    requires f.Fits()
    ensures r.registers == m.registers[f.x := f.kk]
    ensures r == m.(registers := r.registers)
  {
    m.(registers := m.registers[f.x := f.kk])
  }

  /** 7xkk: Vx += kk on a uint8_t, wrapping modulo 256; VF is not touched
      (unless it is Vx itself). */
  function Exec7xkk(m: Machine, f: Fields): (r: Machine)
    requires f.Fits()
    ensures r.registers[f.x] == (m.registers[f.x] as int + f.kk) % 256
    ensures r.registers[f.x] < m.registers[f.x] <==> m.registers[f.x] as int + f.kk > 255
    ensures f.x != VF ==> r.registers[VF] == m.registers[VF]
    ensures OthersKept(m, r, f.x)
    ensures r == m.(registers := r.registers)
  {
    m.(registers := m.registers[f.x := ToByte(m.registers[f.x] as int + f.kk)])
  }

  /** 8xy0: Vx = Vy. */
  function Exec8xy0(m: Machine, f: Fields): (r: Machine)
    requires f.Fits()
    ensures r.registers == m.registers[f.x := m.registers[f.y]]
    ensures r == m.(registers := r.registers)
  {
    m.(registers := m.registers[f.x := m.registers[f.y]])
  }

  /** 8xy1: Vx |= Vy. The result has every bit of both operands. */
  function Exec8xy1(m: Machine, f: Fields): (r: Machine)
    requires f.Fits()
    ensures r.registers[f.x] == Or(m.registers[f.x], m.registers[f.y])
    ensures r.registers[f.x] >= m.registers[f.x] && r.registers[f.x] >= m.registers[f.y]
    ensures r.registers == m.registers[f.x := r.registers[f.x]]
    ensures r == m.(registers := r.registers)
  {
    m.(registers := m.registers[f.x := Or8(m.registers[f.x], m.registers[f.y])])
  }

  /** 8xy2: Vx &= Vy. */
  function Exec8xy2(m: Machine, f: Fields): (r: Machine)
    requires f.Fits()
    ensures r.registers[f.x] == And(m.registers[f.x], m.registers[f.y])
    ensures r.registers[f.x] <= m.registers[f.x] && r.registers[f.x] <= m.registers[f.y]
    ensures r.registers == m.registers[f.x := r.registers[f.x]]
    ensures r == m.(registers := r.registers)
  {
    m.(registers := m.registers[f.x := And8(m.registers[f.x], m.registers[f.y])])
  }

  /** 8xy3: Vx ^= Vy. */
  function Exec8xy3(m: Machine, f: Fields): (r: Machine)
    requires f.Fits()
    ensures r.registers[f.x] == Xor(m.registers[f.x], m.registers[f.y])
    ensures r.registers == m.registers[f.x := r.registers[f.x]]
    ensures r == m.(registers := r.registers)
  {
    m.(registers := m.registers[f.x := Xor8(m.registers[f.x], m.registers[f.y])])
  }

  /** 8xy4: Vx += Vy with the carry in VF. The sum is taken before VF is
      written; the low 8 bits (`sum & 0xFF`) go to Vx afterwards. For x != F
      the carry and the new Vx together are the full sum; for x == F the
      carry is overwritten by the low byte. */
  function Exec8xy4(m: Machine, f: Fields): (r: Machine)
    requires f.Fits()
    ensures var sum := m.registers[f.x] as int + m.registers[f.y];
      f.x != VF ==> && r.registers[VF] <= 1
                    && (r.registers[VF] == 1 <==> sum > 255)
                    && r.registers[f.x] == sum % 256
                    && 256 * (r.registers[VF] as int) + r.registers[f.x] == sum
    ensures f.x == VF ==> r.registers[VF] == (m.registers[f.x] as int + m.registers[f.y]) % 256
    ensures OthersKept(m, r, f.x)
    ensures r == m.(registers := r.registers)
  {
    var sum := m.registers[f.x] as int + m.registers[f.y];
    var carry: Byte := if sum > 255 then 1 else 0;
    var low := LowByteOf(sum);
    assert low == sum - 256 * carry;
    var regs := m.registers[VF := carry];
    m.(registers := regs[f.x := low])
  }

  /** 8xy5: VF = (Vx > Vy), then Vx -= Vy on a uint8_t. */
  function Exec8xy5(m: Machine, f: Fields): (r: Machine)
    requires f.Fits()
    ensures f.x != VF ==> r.registers[VF] <= 1 && (r.registers[VF] == 1 <==> m.registers[f.x] > m.registers[f.y])
    ensures f.x != VF && f.y != VF ==> r.registers[f.x] == (m.registers[f.x] as int - m.registers[f.y]) % 256
    ensures OthersKept(m, r, f.x)
    ensures r == m.(registers := r.registers)
  {
    var regs := m.registers[VF := if m.registers[f.x] > m.registers[f.y] then 1 else 0];
    m.(registers := regs[f.x := ToByte(regs[f.x] as int - regs[f.y])])
  }

  /** 8xy6: VF = Vx & 1, then Vx >>= 1. For x != F the shifted-out bit and
      the new Vx rebuild the old Vx; for x == F the shift leaves 0. */
  function Exec8xy6(m: Machine, f: Fields): (r: Machine)
    requires f.Fits()
    ensures f.x != VF ==> && r.registers[VF] == m.registers[f.x] % 2
                          && 2 * (r.registers[f.x] as int) + r.registers[VF] == m.registers[f.x]
    ensures f.x == VF ==> r.registers[VF] == 0
    ensures OthersKept(m, r, f.x)
    ensures r == m.(registers := r.registers)
  {
    LowBit(m.registers[f.x]);
    var regs := m.registers[VF := And(m.registers[f.x], 0x1)];
    m.(registers := regs[f.x := regs[f.x] / 2])
  }

  /** 8xy7: VF = (Vy > Vx), then Vx = Vy - Vx on a uint8_t. */
  function Exec8xy7(m: Machine, f: Fields): (r: Machine)
    requires f.Fits()
    ensures f.x != VF ==> r.registers[VF] <= 1 && (r.registers[VF] == 1 <==> m.registers[f.y] > m.registers[f.x])
    ensures f.x != VF && f.y != VF ==> r.registers[f.x] == (m.registers[f.y] as int - m.registers[f.x]) % 256
    ensures OthersKept(m, r, f.x)
    ensures r == m.(registers := r.registers)
  {
    var regs := m.registers[VF := if m.registers[f.y] > m.registers[f.x] then 1 else 0];
    m.(registers := regs[f.x := ToByte(regs[f.y] as int - regs[f.x])])
  }

  /** 8xyE: VF = (Vx & 0x80) >> 7, then Vx <<= 1 truncated to a uint8_t. For
      x != F the shifted-out bit and the new Vx rebuild the old Vx; for x == F
      the flag itself is shifted, leaving twice the old top bit. */
  function Exec8xyE(m: Machine, f: Fields): (r: Machine)
    requires f.Fits()
    ensures f.x != VF ==> && r.registers[VF] == m.registers[f.x] / 128
                          && 128 * (r.registers[VF] as int) + r.registers[f.x] / 2 == m.registers[f.x]
                          && r.registers[f.x] % 2 == 0
    ensures f.x == VF ==> r.registers[VF] == 2 * (m.registers[VF] / 128)
    ensures OthersKept(m, r, f.x)
    ensures r == m.(registers := r.registers)
  {
    var regs := m.registers[VF := TopBitOf(m.registers[f.x])];
    m.(registers := regs[f.x := ShiftLeftByte(regs[f.x])])
  }

  /** Cxkk: Vx = rnd & kk, for a random byte rnd supplied by the caller. The
      result has no bit outside kk and no bit outside rnd. */
  function ExecCxkk(m: Machine, f: Fields, rnd: Byte): (r: Machine)
    requires f.Fits()
    ensures r.registers[f.x] == And(rnd, f.kk)
    ensures r.registers[f.x] <= f.kk && r.registers[f.x] <= rnd
    ensures And(r.registers[f.x], f.kk) == r.registers[f.x]
    ensures And(r.registers[f.x], rnd) == r.registers[f.x]
    ensures r.registers == m.registers[f.x := r.registers[f.x]]
    ensures r == m.(registers := r.registers)
  {
    AndIdempotent(rnd, f.kk);
    AndComm(rnd, f.kk);
    AndIdempotent(f.kk, rnd);
    m.(registers := m.registers[f.x := And8(rnd, f.kk)])
  }

  /** 8xy1 and 8xy2 are idempotent: repeating either changes nothing more. */
  lemma OrAndIdempotent(m: Machine, f: Fields)
    requires f.Fits()
    ensures Exec8xy1(Exec8xy1(m, f), f) == Exec8xy1(m, f)
    ensures Exec8xy2(Exec8xy2(m, f), f) == Exec8xy2(m, f)
  {
    var a, b := m.registers[f.x], m.registers[f.y];
    if f.x == f.y {
      OrSelf(a);
      AndSelf(a);
    } else {
      OrIdempotent(a, b);
      AndIdempotent(a, b);
    }
    assert Exec8xy1(Exec8xy1(m, f), f).registers == Exec8xy1(m, f).registers;
    assert Exec8xy2(Exec8xy2(m, f), f).registers == Exec8xy2(m, f).registers;
  }

  /** 8xy3 applied twice with distinct x and y restores Vx. */
  lemma XorTwice(m: Machine, f: Fields)
    requires f.Fits() && f.x != f.y
    ensures Exec8xy3(Exec8xy3(m, f), f) == m
  {
    XorSelfInverse(m.registers[f.x], m.registers[f.y]);
    assert Exec8xy3(Exec8xy3(m, f), f).registers == m.registers;
  }

  /** 8xy5 followed by 8xy4, with x, y and F distinct, restores Vx: the
      wrapped difference plus Vy is Vx again modulo 256. */
  lemma SubThenAdd(m: Machine, f: Fields)
    requires f.Fits() && f.x != VF && f.y != VF && f.x != f.y
    ensures Exec8xy4(Exec8xy5(m, f), f).registers[f.x] == m.registers[f.x]
  {
    var a, b: int := m.registers[f.x], m.registers[f.y];
    var m1 := Exec8xy5(m, f);
    assert m1.registers[f.y] == b;
    assert m1.registers[f.x] == if a >= b then a - b else a - b + 256;
  }
}
