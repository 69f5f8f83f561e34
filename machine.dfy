/**
 * The CHIP-8 machine of src/lib.rs as a value: its state, the decoding of an instruction
 * word, the freshly loaded machine (`Chip8::load_program`) and one fetch/decode/execute
 * cycle (`Chip8::step`) as a function from machine to machine. The class in chip8.dfy is
 * proved to follow these functions.
 */
module Machine {
  import opened Bytes
  import opened Draw
  import Font

  const MemorySize := 4096
  /** Programs are loaded at 0x200. */
  const ProgramStart := 0x200
  /** The font is stored at 0x50..0x9F. */
  const FontStart := 0x50
  const FontEnd := FontStart + Font.GlyphCount * Font.GlyphHeight
  /** The largest program that fits in memory above the program origin. */
  const MaxProgramSize := MemorySize - ProgramStart
  /** Bound of a u16 value. */
  const U16Limit := 0x1_0000

  datatype Option<T> = None | Some(value: T)

  /**
   * The fields of struct `Chip8`. `pc`, `index` and the stack entries are u16 values;
   * `index` is also called I.
   */
  datatype Machine = Machine(
    memory: seq<byte>,
    display: Screen,
    pc: nat,
    index: nat,
    stack: seq<nat>,
    delay: byte,
    sound: byte,
    regs: seq<byte>)
  {
    ghost predicate Valid()
    {
      |memory| == MemorySize && IsScreen(display) && IsRegisters(regs) &&
      pc < U16Limit && index < U16Limit &&
      forall k :: 0 <= k < |stack| ==> stack[k] < U16Limit
    }
  }

  /** Why a cycle cannot complete; each is a panic (or `todo!`) in the source. */
  datatype Fault =
    | AddressOutOfRange          // a memory index or slice past the 4096 bytes
    | StackUnderflow             // 00EE with an empty stack
    | InvalidInstruction(inst: nat)
    | Unimplemented(inst: nat)   // EXNN (`todo!`) and FX0A
    | IndexOverflow              // FX1E overflowing the u16 index register

  /** The result of one cycle: the next machine, or the fault that stops the program. */
  datatype Transition = Next(m: Machine) | Halt(fault: Fault)

  /** The instruction word and its nibble fields X, Y, N, NN and NNN. */
  datatype Fields = Fields(inst: nat, op: nat, x: nat, y: nat, n: nat, nn: byte, nnn: nat)
  {
    /** Each field lies in the range of its nibbles. */
    ghost predicate Bounded()
    {
      op < 0x10 && x < 0x10 && y < 0x10 && n < 0x10 && nnn < 0x1000
    }

    /** The fields are the nibbles of the 16-bit word `inst`, most significant first. */
    ghost predicate WellFormed()
    {
      op < 0x10 && x < 0x10 && y < 0x10 && n < 0x10 &&
      nn as int == y * 0x10 + n && nnn == x * 0x100 + nn as int && inst == op * 0x1000 + nnn
    }
  }

  /** Decodes the big-endian instruction word made of bytes `hi` and `lo`. */
  function Decode(hi: byte, lo: byte): (f: Fields)
    ensures f.WellFormed() && f.Bounded()
    ensures f.inst == hi as int * 0x100 + lo as int
  {
    // `>> 4` and `& 0x0f` of a byte are its quotient and remainder by 16
    var h, l := hi as int, lo as int;
    Fields(h * 0x100 + l, h / 0x10, h % 0x10, l / 0x10, l % 0x10, lo, h % 0x10 * 0x100 + l)
  }

  /** The byte at address `a` of a freshly loaded machine: font, program, or zero. */
  function InitialByte(program: seq<byte>, a: nat): byte
  {
    if FontStart <= a < FontEnd then Font.FontByte(a - FontStart)
    else if ProgramStart <= a < ProgramStart + |program| then program[a - ProgramStart]
    else 0
  }

  /**
   * The byte at address `a` while memory is being filled: the program is in place and the
   * first `fontBytes` bytes of the font are copied.
   */
  ghost function Filling(program: seq<byte>, fontBytes: nat, a: nat): byte
    requires fontBytes <= FontEnd - FontStart
  {
    if FontStart <= a < FontStart + fontBytes then Font.FontByte(a - FontStart)
    else if ProgramStart <= a < ProgramStart + |program| then program[a - ProgramStart]
    else 0
  }

  /**
   * `Chip8::load_program`: a program longer than 4096 - 512 bytes is refused; otherwise the
   * program sits at 0x200, glyph g of the font at 0x50 + 5 * g, every other byte is zero and
   * all registers, timers, the stack and the display are cleared.
   */
  function Load(program: seq<byte>): (r: Option<Machine>)
    ensures r.Some? <==> |program| <= MaxProgramSize
    ensures r.Some? ==> r.value.Valid()
    ensures r.Some? ==> forall i :: 0 <= i < |program| ==> r.value.memory[ProgramStart + i] == program[i]
    ensures r.Some? ==> forall g, k :: 0 <= g < Font.GlyphCount && 0 <= k < Font.GlyphHeight ==>
      r.value.memory[FontStart + Font.GlyphHeight * g + k] == Font.Glyphs[g][k]
    ensures r.Some? ==> forall a ::
      (0 <= a < MemorySize && !(FontStart <= a < FontEnd) && !(ProgramStart <= a < ProgramStart + |program|)) ==>
      r.value.memory[a] == 0
    ensures r.Some? ==> (r.value.pc == ProgramStart && r.value.index == 0 && r.value.stack == [] &&
                         r.value.delay == 0 && r.value.sound == 0 && r.value.display == Blank() &&
                         forall k :: 0 <= k < |r.value.regs| ==> r.value.regs[k] == 0)
  {
    if |program| > MaxProgramSize then None
    else
      Font.FontLayoutAll();
      var memory := seq(MemorySize, a requires 0 <= a < MemorySize => InitialByte(program, a));
      Some(Machine(memory, Blank(), ProgramStart, 0, [], 0, 0, seq(16, _ => 0)))
  }

  /** The current instruction word: the byte at pc and the byte after it, big-endian. */
  function Fetch(m: Machine): (w: nat)
    requires m.Valid() && m.pc + 1 < MemorySize
    ensures w < 0x10000
    ensures w / 0x100 == m.memory[m.pc] as int && w % 0x100 == m.memory[m.pc + 1] as int
  {
    m.memory[m.pc] as int * 0x100 + m.memory[m.pc + 1] as int
  }

  /** The instruction at pc, decoded. */
  function Current(m: Machine): (f: Fields)
    requires m.Valid() && m.pc + 1 < MemorySize
    ensures f.Bounded() && f.WellFormed()
    ensures f.inst == Fetch(m)
  {
    Decode(m.memory[m.pc], m.memory[m.pc + 1])
  }

  /** The machine with pc moved past the instruction at pc. */
  function Advanced(m: Machine): Machine
  {
    m.(pc := m.pc + 2)
  }

  /** The machine with pc moved past the next instruction when `skip` holds. */
  function Skip(m: Machine, skip: bool): Machine
  {
    if skip then m.(pc := m.pc + 2) else m
  }

  /** 0NNN: clear the screen (00E0), return from a subroutine (00EE), nothing else. */
  function ExecSystem(m: Machine, f: Fields): (t: Transition)
    requires m.Valid() && f.Bounded() && m.pc <= MemorySize
    ensures t.Next? ==> t.m.Valid()
  {
    if f.nnn == 0x0E0 then Next(m.(display := Blank()))
    else if f.nnn == 0x0EE then
      if m.stack == [] then Halt(StackUnderflow)
      else Next(m.(pc := m.stack[|m.stack| - 1], stack := m.stack[..|m.stack| - 1]))
    else Halt(InvalidInstruction(f.inst))
  }

  /**
   * 8XYN: register to register operations on a register file, or None for an N that has
   * none. Add and subtract wrap and write no flag; the shifts write the flag register first
   * and then shift VX, which is VF itself when X = F.
   */
  function ArithRegisters(regs: seq<byte>, x: nat, y: nat, n: nat): (r: Option<seq<byte>>)
    requires IsRegisters(regs) && x < 16 && y < 16
    ensures r.Some? ==> IsRegisters(r.value)
  {
    var vx, vy := regs[x], regs[y];
    if n == 0x0 then Some(regs[x := vy])
    else if n == 0x1 then Some(regs[x := Or(vx, vy)])
    else if n == 0x2 then Some(regs[x := And(vx, vy)])
    else if n == 0x3 then Some(regs[x := Xor(vx, vy)])
    else if n == 0x4 then Some(regs[x := WrappingAdd(vx, vy)])
    else if n == 0x5 then Some(regs[x := WrappingSub(vx, vy)])
    else if n == 0x7 then Some(regs[x := WrappingSub(vy, vx)])
    else if n == 0x6 then
      var flagged := regs[Flag := And(vx, 0x01)];
      Some(flagged[x := ShiftRight(flagged[x], 1)])
    else if n == 0xE then
      var flagged := regs[Flag := And(vx, 0xA0)];
      Some(flagged[x := ShiftLeft(flagged[x])])
    else None
  }

  /** 8XYN: the register operation selected by N; any other N is an invalid instruction. */
  function ExecArith(m: Machine, f: Fields): (t: Transition)
    requires m.Valid() && f.Bounded()
    ensures t.Next? ==> t.m.Valid()
  {
    match ArithRegisters(m.regs, f.x, f.y, f.n)
    case Some(regs) => Next(m.(regs := regs))
    case None => Halt(InvalidInstruction(f.inst))
  }

  /**
   * DXYN: VF is cleared, then the N sprite bytes at I are drawn at (VY mod 32, VX mod 64).
   * The row is read before VF is cleared; the column is read per row, after.
   */
  function ExecDraw(m: Machine, f: Fields): (t: Transition)
    requires m.Valid() && f.Bounded()
    ensures t.Next? ==> t.m.Valid()
  {
    var row := m.regs[f.y] as int % Height;
    var cleared := m.regs[Flag := 0];
    if m.index + f.n > MemorySize then Halt(AddressOutOfRange)
    else
      var (screen, regs) := DrawRows(m.display, cleared, f.x, row, SpriteRows(m.memory[m.index..m.index + f.n]));
      Next(m.(display := screen, regs := regs))
  }

  /** The decimal digits of `v`: hundreds, tens and ones. */
  function Digits(v: byte): seq<byte>
  {
    [v / 100, v / 10 % 10, v % 10]
  }

  /** `memory` with the bytes `block` written from address `at` on. */
  function StoreBlock(memory: seq<byte>, at: nat, block: seq<byte>): seq<byte>
  {
    seq(|memory|, a requires 0 <= a < |memory| => if at <= a < at + |block| then block[a - at] else memory[a])
  }

  /** `regs` with V0..V(count-1) read from memory from address `at` on. */
  function LoadBlock(regs: seq<byte>, memory: seq<byte>, at: nat, count: nat): seq<byte>
    requires count <= |regs| && (count > 0 ==> at + count <= |memory|)
  {
    seq(|regs|, i requires 0 <= i < |regs| => if i < count then memory[at + i] else regs[i])
  }

  /** FXNN: timers, index arithmetic, BCD and register block store/load. */
  function ExecMisc(m: Machine, f: Fields): (t: Transition)
    requires m.Valid() && f.Bounded()
    ensures t.Next? ==> t.m.Valid()
  {
    var vx := m.regs[f.x];
    if f.nn == 0x07 then Next(m.(regs := m.regs[f.x := m.delay]))
    else if f.nn == 0x15 then Next(m.(delay := vx))
    else if f.nn == 0x18 then Next(m.(sound := vx))
    else if f.nn == 0x1E then
      if m.index + vx as int >= U16Limit then Halt(IndexOverflow)
      else Next(m.(index := m.index + vx as int))
    else if f.nn == 0x0A then Halt(Unimplemented(f.inst))
    else if f.nn == 0x33 then
      if m.index + 2 >= MemorySize then Halt(AddressOutOfRange)
      else Next(m.(memory := StoreBlock(m.memory, m.index, Digits(vx))))
    else if f.nn == 0x55 then
      if f.x > 0 && m.index + f.x > MemorySize then Halt(AddressOutOfRange)
      else Next(m.(memory := StoreBlock(m.memory, m.index, m.regs[..f.x])))
    else if f.nn == 0x65 then
      if f.x > 0 && m.index + f.x > MemorySize then Halt(AddressOutOfRange)
      else Next(m.(regs := LoadBlock(m.regs, m.memory, m.index, f.x)))
    else Halt(InvalidInstruction(f.inst))
  }

  /** Jumps, calls and conditional skips: 1NNN, 2NNN, BNNN, 3XNN, 4XNN, 5XYN, 9XYN. */
  function ExecFlow(m: Machine, f: Fields): (r: Machine)
    requires m.Valid() && f.Bounded() && f.op in {0x1, 0x2, 0x3, 0x4, 0x5, 0x9, 0xB} && m.pc <= MemorySize
    ensures r.Valid()
  {
    if f.op == 0x1 then m.(pc := f.nnn)
    else if f.op == 0x2 then m.(stack := m.stack + [m.pc], pc := f.nnn)
    else if f.op == 0x3 then Skip(m, m.regs[f.x] == f.nn)
    else if f.op == 0x4 then Skip(m, m.regs[f.x] != f.nn)
    else if f.op == 0x5 then Skip(m, m.regs[f.x] == m.regs[f.y])
    else if f.op == 0x9 then Skip(m, m.regs[f.x] != m.regs[f.y])
    else m.(pc := f.nnn + m.regs[0] as int)
  }

  /** Instructions with an immediate operand: 6XNN, 7XNN, ANNN and CXNN, which masks `random`. */
  function ExecImmediate(m: Machine, f: Fields, random: byte): (r: Machine)
    requires m.Valid() && f.Bounded() && f.op in {0x6, 0x7, 0xA, 0xC}
    ensures r.Valid()
  {
    if f.op == 0x6 then m.(regs := m.regs[f.x := f.nn])
    else if f.op == 0x7 then
      // `checked_add`: an overflowing sum leaves VX as it was
      if m.regs[f.x] as int + f.nn as int < 0x100 then m.(regs := m.regs[f.x := m.regs[f.x] + f.nn]) else m
    else if f.op == 0xA then m.(index := f.nnn)
    else m.(regs := m.regs[f.x := And(random, f.nn)])
  }

  /**
   * Executes decoded instruction `f` on `m`, whose pc already points past it. `random` is
   * the byte CXNN masks.
   */
  function Execute(m: Machine, f: Fields, random: byte): (t: Transition)
    requires m.Valid() && f.Bounded() && m.pc <= MemorySize
    ensures t.Next? ==> t.m.Valid()
  {
    match f.op
    case 0x0 => ExecSystem(m, f)
    case 0x8 => ExecArith(m, f)
    case 0xD => ExecDraw(m, f)
    case 0xE => Halt(Unimplemented(f.inst))
    case 0xF => ExecMisc(m, f)
    case _ =>
      if f.op in {0x6, 0x7, 0xA, 0xC} then Next(ExecImmediate(m, f, random))
      else Next(ExecFlow(m, f))
  }

  /**
   * `Chip8::step`: fetches the word at pc (both bytes must lie in memory), advances pc by 2
   * and then executes the instruction.
   */
  function Cycle(m: Machine, random: byte): (t: Transition)
    requires m.Valid()
    ensures t.Next? ==> t.m.Valid()
  {
    if m.pc + 1 >= MemorySize then Halt(AddressOutOfRange)
    else Execute(Advanced(m), Current(m), random)
  }
}
