/**
 * What one cycle of the machine does, instruction by instruction, stated against the
 * instruction word at pc; when a cycle stops on a fault; and round trips over two cycles
 * (a call followed by a return, a sprite drawn twice).
 */
module Properties {
  import opened Bytes
  import opened Draw
  import opened Machine
  import Font

  /** A machine whose pc points at an instruction inside memory. */
  ghost predicate Fetchable(m: Machine)
  {
    m.Valid() && m.pc + 1 < MemorySize
  }

  /** The fields are the four nibbles of the word, most significant first; NN and NNN are its low 8 and 12 bits. */
  lemma DecodeNibbles(hi: byte, lo: byte)
    ensures var f, w := Decode(hi, lo), hi as int * 0x100 + lo as int;
      f.inst == w && w < 0x10000 &&
      f.op == w / 0x1000 && f.x == w / 0x100 % 0x10 && f.y == w / 0x10 % 0x10 && f.n == w % 0x10 &&
      f.nn as int == w % 0x100 && f.nnn == w % 0x1000
  {
    NibbleArith(hi as int, lo as int);
  }

  /** The shift-and-mask arithmetic behind DecodeNibbles, on the two bytes as integers. */
  lemma NibbleArith(h: int, l: int)
    requires 0 <= h < 0x100 && 0 <= l < 0x100
    ensures var w := h * 0x100 + l;
      w / 0x1000 == h / 0x10 && w / 0x100 % 0x10 == h % 0x10 && w / 0x10 % 0x10 == l / 0x10 &&
      w % 0x10 == l % 0x10 && w % 0x100 == l && w % 0x1000 == h % 0x10 * 0x100 + l
  {
    var w := h * 0x100 + l;
    assert w / 0x100 == h && w % 0x100 == l;
    assert w == (h / 0x10) * 0x1000 + (h % 0x10 * 0x100 + l);
    assert w / 0x1000 == h / 0x10 && w % 0x1000 == h % 0x10 * 0x100 + l;
    assert w == (h * 0x10 + l / 0x10) * 0x10 + l % 0x10;
    assert w / 0x10 == h * 0x10 + l / 0x10 && w % 0x10 == l % 0x10;
    assert (h * 0x10 + l / 0x10) % 0x10 == l / 0x10;
  }

  /** A pc whose instruction does not fit in memory stops the machine. */
  lemma FetchOutOfRange(m: Machine, random: byte)
    requires m.Valid() && m.pc + 1 >= MemorySize
    ensures Cycle(m, random) == Halt(AddressOutOfRange)
  {
  }

  /**
   * When a cycle stops: the instruction cannot be fetched, or it is one the source panics on
   * (an unknown 0NNN, 8XYN or FXNN, any EXNN, FX0A, a return with an empty stack, a sprite,
   * BCD or register block reaching past memory, I overflowing 16 bits in FX1E).
   */
  ghost predicate Panics(m: Machine)
    requires m.Valid()
  {
    m.pc + 1 >= MemorySize ||
    var f := Current(m);
    var vx := m.regs[f.x];
    (f.op == 0x0 && f.nnn != 0x0E0 && (f.nnn != 0x0EE || m.stack == [])) ||
    (f.op == 0x8 && f.n !in {0x0, 0x1, 0x2, 0x3, 0x4, 0x5, 0x6, 0x7, 0xE}) ||
    (f.op == 0xD && m.index + f.n > MemorySize) ||
    f.op == 0xE ||
    (f.op == 0xF &&
      (f.nn !in {0x07, 0x15, 0x18, 0x1E, 0x33, 0x55, 0x65} ||
       (f.nn == 0x1E && m.index + vx as int >= U16Limit) ||
       (f.nn == 0x33 && m.index + 2 >= MemorySize) ||
       (f.nn in {0x55, 0x65} && f.x > 0 && m.index + f.x > MemorySize)))
  }

  /** A cycle stops on a fault exactly in the cases Panics lists. */
  lemma HaltsIffPanics(m: Machine, random: byte)
    requires m.Valid()
    ensures Cycle(m, random).Halt? <==> Panics(m)
  {
    if m.pc + 1 < MemorySize {
      var f := Current(m);
      var a := Advanced(m);
      assert Cycle(m, random) == Execute(a, f, random);
      if f.op == 0x8 {
        assert ArithRegisters(a.regs, f.x, f.y, f.n).None? <==>
          f.n !in {0x0, 0x1, 0x2, 0x3, 0x4, 0x5, 0x6, 0x7, 0xE};
      }
    }
  }

  // ---- 0NNN: screen and subroutines ----

  /** 00E0 clears the display. */
  lemma ClearScreen(m: Machine, random: byte)
    requires Fetchable(m) && Current(m).op == 0x0 && Current(m).nnn == 0x0E0
    ensures Cycle(m, random) == Next(Advanced(m).(display := Blank()))
  {
  }

  /** 00EE pops the return address into pc; with an empty stack the machine stops. */
  lemma Return(m: Machine, random: byte)
    requires Fetchable(m) && Current(m).op == 0x0 && Current(m).nnn == 0x0EE
    ensures m.stack == [] ==> Cycle(m, random) == Halt(StackUnderflow)
    ensures m.stack != [] ==>
      Cycle(m, random) == Next(m.(pc := m.stack[|m.stack| - 1], stack := m.stack[..|m.stack| - 1]))
  {
  }

  // ---- jumps and calls ----

  /** 1NNN jumps to NNN. */
  lemma Jump(m: Machine, random: byte)
    requires Fetchable(m) && Current(m).op == 0x1
    ensures Cycle(m, random) == Next(m.(pc := Fetch(m) % 0x1000))
  {
    DecodeNibbles(m.memory[m.pc], m.memory[m.pc + 1]);
  }

  /** 2NNN pushes the address of the next instruction and jumps to NNN. */
  lemma Call(m: Machine, random: byte)
    requires Fetchable(m) && Current(m).op == 0x2
    ensures Cycle(m, random) == Next(m.(pc := Fetch(m) % 0x1000, stack := m.stack + [m.pc + 2]))
  {
    DecodeNibbles(m.memory[m.pc], m.memory[m.pc + 1]);
  }

  /** BNNN jumps to NNN plus V0. */
  lemma JumpOffset(m: Machine, random: byte)
    requires Fetchable(m) && Current(m).op == 0xB
    ensures Cycle(m, random) == Next(m.(pc := Fetch(m) % 0x1000 + m.regs[0] as int))
  {
    DecodeNibbles(m.memory[m.pc], m.memory[m.pc + 1]);
  }

  /**
   * A call to a subroutine that starts with 00EE comes straight back: after the two cycles
   * the machine is the one before the call, with pc past the call.
   */
  lemma CallThenReturn(m: Machine, random1: byte, random2: byte)
    requires Fetchable(m) && Current(m).op == 0x2
    ensures Cycle(m, random1).Next?
    ensures var m1 := Cycle(m, random1).m;
      Fetchable(m1) && Current(m1).op == 0x0 && Current(m1).nnn == 0x0EE ==>
      Cycle(m1, random2) == Next(Advanced(m))
  {
    Call(m, random1);
    var m1 := Cycle(m, random1).m;
    if Fetchable(m1) && Current(m1).op == 0x0 && Current(m1).nnn == 0x0EE {
      Return(m1, random2);
      assert m1.stack[..|m1.stack| - 1] == m.stack;
    }
  }

  // ---- conditional skips ----

  /** 3XNN skips the next instruction when VX equals NN, 4XNN when it differs. */
  lemma SkipImmediate(m: Machine, random: byte)
    requires Fetchable(m) && Current(m).op in {0x3, 0x4}
    ensures var f := Current(m);
      Cycle(m, random) == Next(Skip(Advanced(m), (m.regs[f.x] == f.nn) == (f.op == 0x3)))
  {
  }

  /** 5XYN skips when VX equals VY, 9XYN when they differ; N is not checked. */
  lemma SkipRegisters(m: Machine, random: byte)
    requires Fetchable(m) && Current(m).op in {0x5, 0x9}
    ensures var f := Current(m);
      Cycle(m, random) == Next(Skip(Advanced(m), (m.regs[f.x] == m.regs[f.y]) == (f.op == 0x5)))
  {
  }

  // ---- registers and index ----

  /** 6XNN puts NN in VX. */
  lemma SetRegister(m: Machine, random: byte)
    requires Fetchable(m) && Current(m).op == 0x6
    ensures var f := Current(m);
      Cycle(m, random) == Next(Advanced(m).(regs := m.regs[f.x := f.nn]))
  {
  }

  /** 7XNN adds NN to VX when the sum fits in a byte and leaves VX alone when it would overflow; VF is not touched. */
  lemma AddImmediate(m: Machine, random: byte)
    requires Fetchable(m) && Current(m).op == 0x7
    ensures var f := Current(m);
      var sum := m.regs[f.x] as int + f.nn as int;
      Cycle(m, random) == Next(Advanced(m).(regs := if sum < 0x100 then m.regs[f.x := sum as byte] else m.regs))
  {
  }

  /** ANNN puts NNN in I. */
  lemma SetIndex(m: Machine, random: byte)
    requires Fetchable(m) && Current(m).op == 0xA
    ensures Cycle(m, random) == Next(Advanced(m).(index := Fetch(m) % 0x1000))
  {
    DecodeNibbles(m.memory[m.pc], m.memory[m.pc + 1]);
  }

  /** CXNN puts the random byte masked with NN in VX, which is then at most NN. */
  lemma Random(m: Machine, random: byte)
    requires Fetchable(m) && Current(m).op == 0xC
    ensures var f := Current(m);
      Cycle(m, random) == Next(Advanced(m).(regs := m.regs[f.x := And(random, f.nn)])) &&
      Cycle(m, random).m.regs[f.x] <= f.nn
  {
    AndBelow(random, Current(m).nn);
  }

  // ---- 8XYN ----

  /** 8XY0 to 8XY3 copy, or, and and xor VY into VX, and change nothing else. */
  lemma Logic(m: Machine, random: byte)
    requires Fetchable(m) && Current(m).op == 0x8 && Current(m).n in {0x0, 0x1, 0x2, 0x3}
    ensures var f := Current(m);
      var vx, vy := m.regs[f.x], m.regs[f.y];
      Cycle(m, random) == Next(Advanced(m).(regs := m.regs[f.x :=
        if f.n == 0x0 then vy else if f.n == 0x1 then Or(vx, vy) else if f.n == 0x2 then And(vx, vy) else Xor(vx, vy)]))
  {
  }

  /**
   * 8XY4, 8XY5 and 8XY7 wrap modulo 256 and write no carry or borrow to VF: every other
   * register, VF included when X is not F, keeps its value.
   */
  lemma WrappingArithmetic(m: Machine, random: byte)
    requires Fetchable(m) && Current(m).op == 0x8 && Current(m).n in {0x4, 0x5, 0x7}
    ensures Cycle(m, random).Next?
    ensures var f := Current(m);
      var vx, vy := m.regs[f.x] as int, m.regs[f.y] as int;
      var regs' := Cycle(m, random).m.regs;
      regs'[f.x] as int == (if f.n == 0x4 then vx + vy else if f.n == 0x5 then vx - vy else vy - vx) % 0x100 &&
      (forall k :: 0 <= k < 16 && k != f.x ==> regs'[k] == m.regs[k]) &&
      Cycle(m, random).m == Advanced(m).(regs := regs')
  {
  }

  /**
   * 8XY6 with X not F puts the low bit of VX in VF and halves VX; with X = F, VF ends up 0,
   * since the low bit it was just given is shifted out.
   */
  lemma ShiftRightFlag(m: Machine, random: byte)
    requires Fetchable(m) && Current(m).op == 0x8 && Current(m).n == 0x6
    ensures Cycle(m, random).Next?
    ensures var f := Current(m);
      var vx := m.regs[f.x] as int;
      var regs' := Cycle(m, random).m.regs;
      (f.x != Flag ==> regs'[Flag] as int == vx % 2 && regs'[f.x] as int == vx / 2) &&
      (f.x == Flag ==> regs'[Flag] == 0) &&
      (forall k :: 0 <= k < 16 && k != f.x && k != Flag ==> regs'[k] == m.regs[k]) &&
      Cycle(m, random).m == Advanced(m).(regs := regs')
  {
    var vx := m.regs[Current(m).x];
    LowBit(vx);
    HalfShift(vx);
    HalfShift(And(vx, 0x01));
  }

  /**
   * 8XYE with X not F puts VX & 0xA0 in VF (bits 7 and 5 of VX, where the high bit alone
   * is meant) and doubles VX modulo 256; with X = F the flag just written is doubled too.
   */
  lemma ShiftLeftFlag(m: Machine, random: byte)
    requires Fetchable(m) && Current(m).op == 0x8 && Current(m).n == 0xE
    ensures Cycle(m, random).Next?
    ensures var f := Current(m);
      var vx := m.regs[f.x];
      var regs' := Cycle(m, random).m.regs;
      (f.x != Flag ==> regs'[Flag] == And(vx, 0xA0) && regs'[f.x] as int == vx as int * 2 % 0x100) &&
      (f.x == Flag ==> regs'[Flag] as int == And(vx, 0xA0) as int * 2 % 0x100) &&
      (forall k :: 0 <= k < 16 && k != f.x && k != Flag ==> regs'[k] == m.regs[k]) &&
      Cycle(m, random).m == Advanced(m).(regs := regs')
  {
  }

  // ---- DXYN ----

  /** The sprite of a DXYN at pc: N bytes from I on. */
  function Sprite(m: Machine): seq<byte>
    requires Fetchable(m) && m.index + Current(m).n <= MemorySize
  {
    m.memory[m.index..m.index + Current(m).n]
  }

  /**
   * DXYN draws the N-byte sprite at I with its corner at (VY mod 32, VX mod 64) after
   * clearing VF; VF then tells whether some pixel went from on to off, and only the display
   * and VF change. A sprite reaching past memory stops the machine.
   */
  lemma DrawSprite(m: Machine, random: byte)
    requires Fetchable(m) && Current(m).op == 0xD
    ensures m.index + Current(m).n > MemorySize <==> Cycle(m, random) == Halt(AddressOutOfRange)
    ensures Cycle(m, random).Next? ==>
      var m' := Cycle(m, random).m;
      (m'.regs[Flag] == 1 <==> TurnedOff(m.display, m'.display)) &&
      (m'.regs[Flag] == 0 || m'.regs[Flag] == 1) &&
      (forall k :: 0 <= k < 16 && k != Flag ==> m'.regs[k] == m.regs[k]) &&
      m' == Advanced(m).(display := m'.display, regs := m'.regs)
  {
    var f := Current(m);
    if m.index + f.n <= MemorySize {
      var cleared := m.regs[Flag := 0];
      DrawRowsCollision(m.display, cleared, f.x, m.regs[f.y] as int % Height, SpriteRows(Sprite(m)));
    }
  }

  /** The outcome of a DXYN whose sprite lies in memory, as the sprite rows drawn on the display. */
  lemma DrawOutcome(m: Machine, random: byte)
    requires Fetchable(m) && Current(m).op == 0xD && m.index + Current(m).n <= MemorySize
    ensures var f := Current(m);
      var drawn := DrawRows(m.display, m.regs[Flag := 0], f.x, m.regs[f.y] as int % Height, SpriteRows(Sprite(m)));
      Cycle(m, random) == Next(Advanced(m).(display := drawn.0, regs := drawn.1))
  {
    var f, a := Current(m), Advanced(m);
    assert Cycle(m, random) == ExecDraw(a, f);
    assert a.regs == m.regs && a.display == m.display && a.memory == m.memory && a.index == m.index;
    var drawn := DrawRows(m.display, m.regs[Flag := 0], f.x, m.regs[f.y] as int % Height, SpriteRows(Sprite(m)));
    assert ExecDraw(a, f) == Next(a.(display := drawn.0, regs := drawn.1));
  }

  /**
   * When X is not F, DXYN flips exactly the pixels under the set bits of the sprite placed at
   * (VY mod 32, VX mod 64), clipped at the right and bottom edges.
   */
  lemma DrawFlips(m: Machine, random: byte, r: nat, c: nat)
    requires Fetchable(m) && Current(m).op == 0xD && Current(m).x != Flag
    requires m.index + Current(m).n <= MemorySize && r < Height && c < Width
    ensures Cycle(m, random).Next?
    ensures var f := Current(m);
      Cycle(m, random).m.display[r][c] ==
        (m.display[r][c] != Covers(SpriteRows(Sprite(m)), m.regs[f.y] as int % Height, m.regs[f.x] as int % Width, r, c))
  {
    var f := Current(m);
    var cleared := m.regs[Flag := 0];
    DrawOutcome(m, random);
    DrawRowsFlips(m.display, cleared, f.x, m.regs[f.y] as int % Height, SpriteRows(Sprite(m)), r, c);
  }

  /**
   * Executing the same DXYN twice in a row (pc set back to it) restores the display, when
   * neither X nor Y is F: the second draw turns back every pixel the first one flipped.
   */
  lemma DrawTwice(m: Machine, random1: byte, random2: byte)
    requires Fetchable(m) && Current(m).op == 0xD && Current(m).x != Flag && Current(m).y != Flag
    requires Cycle(m, random1).Next?
    ensures var m1 := Cycle(m, random1).m.(pc := m.pc);
      Cycle(m1, random2).Next? && Cycle(m1, random2).m.display == m.display
  {
    var f := Current(m);
    var row := m.regs[f.y] as int % Height;
    var rows := SpriteRows(Sprite(m));
    var drawn := DrawRows(m.display, m.regs[Flag := 0], f.x, row, rows);
    DrawOutcome(m, random1);
    var m1 := m.(display := drawn.0, regs := drawn.1);
    assert Cycle(m, random1).m.(pc := m.pc) == m1;
    Redraw(m, m1, random2);
    DrawTwiceRestores(m.display, m.regs[Flag := 0], drawn.1[Flag := 0], f.x, row, rows);
  }

  /** The second draw of DrawTwice: same instruction, same sprite, same VX and VY. */
  lemma Redraw(m: Machine, m1: Machine, random: byte)
    requires Fetchable(m) && Current(m).op == 0xD && Current(m).x != Flag && Current(m).y != Flag
    requires m.index + Current(m).n <= MemorySize
    requires m1.Valid() && m1.pc == m.pc && m1.memory == m.memory && m1.index == m.index
    requires m1.regs[Current(m).x] == m.regs[Current(m).x] && m1.regs[Current(m).y] == m.regs[Current(m).y]
    ensures var f := Current(m);
      var drawn := DrawRows(m1.display, m1.regs[Flag := 0], f.x, m.regs[f.y] as int % Height, SpriteRows(Sprite(m)));
      Cycle(m1, random) == Next(Advanced(m1).(display := drawn.0, regs := drawn.1))
  {
    var f := Current(m);
    assert Current(m1) == f;
    assert Sprite(m1) == Sprite(m);
    DrawOutcome(m1, random);
  }

  // ---- FXNN ----

  /** FX07 copies the delay timer into VX; FX15 and FX18 set the delay and sound timers from VX. */
  lemma Timers(m: Machine, random: byte)
    requires Fetchable(m) && Current(m).op == 0xF && Current(m).nn in {0x07, 0x15, 0x18}
    ensures var f := Current(m);
      var vx := m.regs[f.x];
      Cycle(m, random) == Next(
        if f.nn == 0x07 then Advanced(m).(regs := m.regs[f.x := m.delay])
        else if f.nn == 0x15 then Advanced(m).(delay := vx)
        else Advanced(m).(sound := vx))
  {
  }

  /** FX1E adds VX to I, with no flag; a sum past 16 bits stops the machine. */
  lemma AddIndex(m: Machine, random: byte)
    requires Fetchable(m) && Current(m).op == 0xF && Current(m).nn == 0x1E
    ensures var sum := m.index + m.regs[Current(m).x] as int;
      Cycle(m, random) == if sum < U16Limit then Next(Advanced(m).(index := sum)) else Halt(IndexOverflow)
  {
  }

  /**
   * FX33 writes the hundreds, tens and ones digits of VX at I, I+1 and I+2, leaving the
   * rest of memory alone; with I+2 past memory the machine stops.
   */
  lemma Bcd(m: Machine, random: byte)
    requires Fetchable(m) && Current(m).op == 0xF && Current(m).nn == 0x33
    ensures m.index + 2 >= MemorySize <==> Cycle(m, random) == Halt(AddressOutOfRange)
    ensures Cycle(m, random).Next? ==>
      var m', i, v := Cycle(m, random).m, m.index, m.regs[Current(m).x] as int;
      m'.memory[i] < 10 && m'.memory[i + 1] < 10 && m'.memory[i + 2] < 10 &&
      m'.memory[i] as int * 100 + m'.memory[i + 1] as int * 10 + m'.memory[i + 2] as int == v &&
      (forall a :: 0 <= a < MemorySize && !(i <= a < i + 3) ==> m'.memory[a] == m.memory[a]) &&
      m' == Advanced(m).(memory := m'.memory)
  {
    var v := m.regs[Current(m).x] as int;
    assert v == v / 100 * 100 + v / 10 % 10 * 10 + v % 10;
  }

  /**
   * FX55 stores V0..V(X-1) at I..I+X-1 (VX itself is not stored) and leaves the rest of
   * memory alone; a block reaching past memory stops the machine.
   */
  lemma StoreRegisters(m: Machine, random: byte)
    requires Fetchable(m) && Current(m).op == 0xF && Current(m).nn == 0x55
    ensures var x := Current(m).x;
      x > 0 && m.index + x > MemorySize <==> Cycle(m, random) == Halt(AddressOutOfRange)
    ensures Cycle(m, random).Next? ==>
      var m', i, x := Cycle(m, random).m, m.index, Current(m).x;
      (forall k :: 0 <= k < x ==> m'.memory[i + k] == m.regs[k]) &&
      (forall a :: 0 <= a < MemorySize && !(i <= a < i + x) ==> m'.memory[a] == m.memory[a]) &&
      m' == Advanced(m).(memory := m'.memory)
  {
  }

  /**
   * FX65 loads V0..V(X-1) from I..I+X-1 (VX itself is not loaded); the other registers keep
   * their values; a block reaching past memory stops the machine.
   */
  lemma LoadRegisters(m: Machine, random: byte)
    requires Fetchable(m) && Current(m).op == 0xF && Current(m).nn == 0x65
    ensures var x := Current(m).x;
      x > 0 && m.index + x > MemorySize <==> Cycle(m, random) == Halt(AddressOutOfRange)
    ensures Cycle(m, random).Next? ==>
      var m', i, x := Cycle(m, random).m, m.index, Current(m).x;
      (forall k :: 0 <= k < x ==> m'.regs[k] == m.memory[i + k]) &&
      (forall k :: x <= k < 16 ==> m'.regs[k] == m.regs[k]) &&
      m' == Advanced(m).(regs := m'.regs)
  {
  }

  /** EXNN, FX0A and FX29 stop the machine: the first two are unimplemented, the last is unknown to the source. */
  lemma Unsupported(m: Machine, random: byte)
    requires Fetchable(m)
    ensures Current(m).op == 0xE ==> Cycle(m, random) == Halt(Unimplemented(Fetch(m)))
    ensures Current(m).op == 0xF && Current(m).nn == 0x0A ==> Cycle(m, random) == Halt(Unimplemented(Fetch(m)))
    ensures Current(m).op == 0xF && Current(m).nn == 0x29 ==> Cycle(m, random) == Halt(InvalidInstruction(Fetch(m)))
  {
  }

  // ---- loading ----

  /** The font lies below the program area, so a loaded program never overlaps it. */
  lemma FontBelowProgram(program: seq<byte>)
    requires |program| <= MaxProgramSize
    ensures FontEnd <= ProgramStart
    ensures forall i :: 0 <= i < |program| ==> Load(program).value.memory[ProgramStart + i] == program[i]
    ensures forall a :: FontStart <= a < FontEnd ==> Load(program).value.memory[a] == Font.FontByte(a - FontStart)
  {
  }
}
