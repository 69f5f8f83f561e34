/**
 * The emulator object of src/lib.rs: struct `Chip8` with its memory, register file and
 * display held in arrays that each instruction updates in place. The ghost field `model`
 * is the machine value (module Machine) the object stands for; `Valid` ties the two, and
 * `LoadProgram` and `Step` are proved to produce the machines that `Load` and `Cycle`
 * describe.
 */
module Emulator {
  import opened Bytes
  import opened Draw
  import opened Machine
  import Font

  /** What `Step` reports: the cycle completed, or the program stopped on a fault. */
  datatype Outcome = Ok | Fatal(fault: Fault)

  /** The outcome a transition reports. */
  function OutcomeOf(t: Transition): Outcome
  {
    if t.Next? then Ok else Fatal(t.fault)
  }

  class Chip8 {
    var memory: array<byte>
    /** Indexed `[row, col]`. */
    var display: array2<bool>
    var pc: nat
    var indexReg: nat
    var stack: seq<nat>
    var delayTimer: byte
    var soundTimer: byte
    var registers: array<byte>
    /** The machine this object represents. */
    ghost var model: Machine

    ghost predicate Valid()
      reads this, memory, registers, display
    {
      model.Valid() &&
      memory.Length == MemorySize && registers.Length == 16 &&
      display.Length0 == Height && display.Length1 == Width &&
      memory != registers &&
      memory[..] == model.memory && registers[..] == model.regs &&
      (forall r, c :: 0 <= r < Height && 0 <= c < Width ==> display[r, c] == model.display[r][c]) &&
      pc == model.pc && indexReg == model.index && stack == model.stack &&
      delayTimer == model.delay && soundTimer == model.sound
    }

    /** Builds the machine for a program that fits; the Rust function panics otherwise. */
    constructor (program: seq<byte>)
      requires |program| <= MaxProgramSize
      ensures Valid() && Load(program) == Some(model)
      ensures fresh(memory) && fresh(registers) && fresh(display)
    {
      var mem := new byte[MemorySize](_ => 0);
      CopyProgram(mem, program);
      for g := 0 to Font.GlyphCount
        invariant forall a :: 0 <= a < MemorySize ==> mem[a] == Filling(program, Font.GlyphHeight * g, a)
      {
        CopyGlyph(mem, program, g);
      }
      assert mem[..] == Load(program).value.memory;
      memory := mem;
      display := new bool[Height, Width]((_, _) => false);
      pc := ProgramStart;
      indexReg := 0;
      stack := [];
      delayTimer, soundTimer := 0, 0;
      registers := new byte[16](_ => 0);
      model := Load(program).value;
    }

    /** Copies the program into zeroed memory from 0x200 on. */
    static method CopyProgram(mem: array<byte>, program: seq<byte>)
      requires mem.Length == MemorySize && |program| <= MaxProgramSize
      requires forall a :: 0 <= a < MemorySize ==> mem[a] == 0
      modifies mem
      ensures forall a :: 0 <= a < MemorySize ==> mem[a] == Filling(program, 0, a)
    {
      for i := 0 to |program|
        invariant forall a :: 0 <= a < MemorySize ==>
          mem[a] == if ProgramStart <= a < ProgramStart + i then program[a - ProgramStart] else 0
      {
        mem[ProgramStart + i] := program[i];
      }
    }

    /** Copies glyph g of the font to 0x50 + 5 * g. */
    static method CopyGlyph(mem: array<byte>, program: seq<byte>, g: nat)
      requires mem.Length == MemorySize && |program| <= MaxProgramSize && g < Font.GlyphCount
      requires forall a :: 0 <= a < MemorySize ==> mem[a] == Filling(program, Font.GlyphHeight * g, a)
      modifies mem
      ensures forall a :: 0 <= a < MemorySize ==> mem[a] == Filling(program, Font.GlyphHeight * (g + 1), a)
    {
      var glyph := Font.Glyphs[g];
      var start := FontStart + Font.GlyphHeight * g;
      for k := 0 to Font.GlyphHeight
        invariant forall a :: 0 <= a < MemorySize ==> mem[a] == Filling(program, Font.GlyphHeight * g + k, a)
      {
        Font.FontLayout(g, k);
        mem[start + k] := glyph[k];
      }
    }

    /** `Chip8::load_program`: a program longer than 4096 - 512 bytes builds nothing. */
    static method LoadProgram(program: seq<byte>) returns (r: Option<Chip8>)
      ensures r.None? <==> |program| > MaxProgramSize
      ensures r.Some? ==> fresh(r.value) && r.value.Valid() && Load(program) == Some(r.value.model)
    {
      if |program| > MaxProgramSize {
        return None;
      }
      var vm := new Chip8(program);
      return Some(vm);
    }

    /**
     * `Chip8::step`: one fetch/decode/execute cycle, `random` standing for the byte CXNN
     * draws. When the cycle faults, the Rust code has panicked and the machine is not used
     * again, so only the invariant is promised then.
     */
    method Step(random: byte) returns (outcome: Outcome)
      requires Valid()
      modifies this, memory, registers, display
      ensures Valid() && memory == old(memory) && registers == old(registers)
      ensures outcome == OutcomeOf(Cycle(old(model), random))
      ensures outcome.Ok? ==> model == Cycle(old(model), random).m
    {
      if pc + 1 >= memory.Length {
        return Fatal(AddressOutOfRange);
      }
      var f := Decode(memory[pc], memory[pc + 1]);
      pc := pc + 2;
      model := model.(pc := pc);
      outcome := Dispatch(f, random);
    }

    /** Executes decoded instruction `f`; pc already points past it. */
    method Dispatch(f: Fields, random: byte) returns (outcome: Outcome)
      requires Valid() && f.Bounded() && pc <= MemorySize
      modifies this, memory, registers, display
      ensures Valid() && memory == old(memory) && registers == old(registers)
      ensures outcome == OutcomeOf(Execute(old(model), f, random))
      ensures outcome.Ok? ==> model == Execute(old(model), f, random).m
    {
      match f.op
      case 0x0 =>
        outcome := System(f);
      case 0x1 =>
        outcome := Jump(f);
      case 0x2 =>
        outcome := Jump(f);
      case 0x3 =>
        outcome := SkipIf(f);
      case 0x4 =>
        outcome := SkipIf(f);
      case 0x5 =>
        outcome := SkipIf(f);
      case 0x6 =>
        outcome := Immediate(f, random);
      case 0x7 =>
        outcome := Immediate(f, random);
      case 0x8 =>
        outcome := Arith(f);
      case 0x9 =>
        outcome := SkipIf(f);
      case 0xA =>
        outcome := Immediate(f, random);
      case 0xB =>
        outcome := Jump(f);
      case 0xC =>
        outcome := Immediate(f, random);
      case 0xD =>
        outcome := DrawSprite(f);
      case 0xE =>
        outcome := Fatal(Unimplemented(f.inst));
      case _ =>
        outcome := Misc(f);
    }

    /** 00E0 and 00EE. */
    method System(f: Fields) returns (outcome: Outcome)
      requires Valid() && f.Bounded() && f.op == 0x0 && pc <= MemorySize
      modifies `display, `pc, `stack, `model
      ensures Valid()
      ensures outcome == OutcomeOf(ExecSystem(old(model), f))
      ensures outcome.Ok? ==> model == ExecSystem(old(model), f).m
    {
      if f.nnn == 0x0E0 {
        display := new bool[Height, Width]((_, _) => false);
        model := model.(display := Blank());
        return Ok;
      } else if f.nnn == 0x0EE {
        if |stack| == 0 {
          return Fatal(StackUnderflow);
        }
        pc := stack[|stack| - 1];
        stack := stack[..|stack| - 1];
        model := model.(pc := pc, stack := stack);
        return Ok;
      } else {
        return Fatal(InvalidInstruction(f.inst));
      }
    }

    /** Jumps and calls: 1NNN, 2NNN and BNNN. */
    method Jump(f: Fields) returns (outcome: Outcome)
      requires Valid() && f.Bounded() && f.op in {0x1, 0x2, 0xB} && pc <= MemorySize
      modifies `pc, `stack, `model
      ensures Valid() && outcome == Ok
      ensures model == ExecFlow(old(model), f)
    {
      if f.op == 0x1 {
        pc := f.nnn;
      } else if f.op == 0x2 {
        stack := stack + [pc];
        pc := f.nnn;
      } else {
        pc := f.nnn + registers[0] as int;
      }
      model := model.(pc := pc, stack := stack);
      return Ok;
    }

    /** Conditional skips: 3XNN, 4XNN, 5XYN and 9XYN. */
    method SkipIf(f: Fields) returns (outcome: Outcome)
      requires Valid() && f.Bounded() && f.op in {0x3, 0x4, 0x5, 0x9} && pc <= MemorySize
      modifies `pc, `model
      ensures Valid() && outcome == Ok
      ensures model == ExecFlow(old(model), f)
    {
      var vx := registers[f.x];
      var skip;
      if f.op == 0x3 {
        skip := vx == f.nn;
      } else if f.op == 0x4 {
        skip := vx != f.nn;
      } else if f.op == 0x5 {
        skip := vx == registers[f.y];
      } else {
        skip := vx != registers[f.y];
      }
      if skip {
        pc := pc + 2;
      }
      model := model.(pc := pc);
      return Ok;
    }

    /** Instructions with an immediate operand: 6XNN, 7XNN, ANNN, CXNN. */
    method Immediate(f: Fields, random: byte) returns (outcome: Outcome)
      requires Valid() && f.Bounded() && f.op in {0x6, 0x7, 0xA, 0xC} && pc <= MemorySize
      modifies registers, `indexReg, `model
      ensures Valid() && outcome == Ok
      ensures model == ExecImmediate(old(model), f, random)
    {
      if f.op == 0x6 {
        registers[f.x] := f.nn;
      } else if f.op == 0x7 {
        if registers[f.x] as int + f.nn as int < 0x100 {
          registers[f.x] := registers[f.x] + f.nn;
        }
      } else if f.op == 0xA {
        indexReg := f.nnn;
      } else {
        registers[f.x] := And(random, f.nn);
      }
      model := model.(regs := registers[..], index := indexReg);
      return Ok;
    }

    /** 8XYN. */
    method Arith(f: Fields) returns (outcome: Outcome)
      requires Valid() && f.Bounded() && f.op == 0x8
      modifies registers, `model
      ensures Valid()
      ensures outcome == OutcomeOf(ExecArith(old(model), f))
      ensures outcome.Ok? ==> model == ExecArith(old(model), f).m
    {
      var x, y := f.x, f.y;
      var vx, vy := registers[x], registers[y];
      var value;
      if f.n == 0x0 {
        value := vy;
      } else if f.n == 0x1 {
        value := Or(vx, vy);
      } else if f.n == 0x2 {
        value := And(vx, vy);
      } else if f.n == 0x3 {
        value := Xor(vx, vy);
      } else if f.n == 0x4 {
        value := WrappingAdd(vx, vy);
      } else if f.n == 0x5 {
        value := WrappingSub(vx, vy);
      } else if f.n == 0x7 {
        value := WrappingSub(vy, vx);
      } else if f.n == 0x6 || f.n == 0xE {
        outcome := Shift(x, f.n == 0x6);
        return;
      } else {
        return Fatal(InvalidInstruction(f.inst));
      }
      registers[x] := value;
      model := model.(regs := model.regs[x := value]);
      assert registers[..] == model.regs;
      return Ok;
    }

    /**
     * 8XY6 (`right`) and 8XYE: the flag register is written first, so when X is F the shift
     * applies to the flag just written.
     */
    method Shift(x: nat, right: bool) returns (outcome: Outcome)
      requires Valid() && x < 16
      modifies registers, `model
      ensures Valid() && outcome == Ok
      ensures model == old(model).(regs := ArithRegisters(old(model).regs, x, 0, if right then 0x6 else 0xE).value)
    {
      if right {
        registers[Flag] := And(registers[x], 0x01);
        registers[x] := ShiftRight(registers[x], 1);
      } else {
        registers[Flag] := And(registers[x], 0xA0);
        registers[x] := ShiftLeft(registers[x]);
      }
      model := model.(regs := registers[..]);
      return Ok;
    }

    /** The display and register arrays hold screen `s` and registers `regs`. */
    ghost predicate Shows(s: Screen, regs: seq<byte>)
      reads this, display, registers
    {
      IsScreen(s) && IsRegisters(regs) &&
      display.Length0 == Height && display.Length1 == Width && registers[..] == regs &&
      forall r, c :: 0 <= r < Height && 0 <= c < Width ==> display[r, c] == s[r][c]
    }

    /** DXYN: reads the row from VY, clears VF, checks the sprite lies in memory and draws it. */
    method DrawSprite(f: Fields) returns (outcome: Outcome)
      requires Valid() && f.Bounded() && f.op == 0xD
      modifies registers, display, `model
      ensures Valid()
      ensures outcome == OutcomeOf(ExecDraw(old(model), f))
      ensures outcome.Ok? ==> model == ExecDraw(old(model), f).m
    {
      ghost var m0 := model;
      var yCoord: nat := registers[f.y] as int % Height;
      registers[Flag] := 0;
      model := model.(regs := registers[..]);
      if indexReg + f.n > memory.Length {
        return Fatal(AddressOutOfRange);
      }
      assert model.regs == m0.regs[Flag := 0];
      DrawSpriteAt(f.x, yCoord, f.n, model);
      assert ExecDraw(m0, f) == Next(model);
      return Ok;
    }

    /**
     * Takes the slice of n sprite bytes at I, as the source borrows `&self.memory[I..I + N]`,
     * and draws it from row y on a machine (`m`, the current one) whose VF is already cleared.
     */
    method DrawSpriteAt(x: nat, y: nat, n: nat, ghost m: Machine)
      requires Valid() && model == m && x < 16 && y < Height && m.index + n <= MemorySize
      modifies registers, display, `model
      ensures Valid()
      ensures var drawn := DrawRows(m.display, m.regs, x, y, SpriteRows(m.memory[m.index..m.index + n]));
        model == m.(display := drawn.0, regs := drawn.1)
    {
      var bytes := memory[indexReg..indexReg + n];
      ghost var drawn := DrawRows(model.display, model.regs, x, y, SpriteRows(bytes));
      DrawSpriteRows(x, y, bytes, model.display, model.regs);
      assert unchanged(memory);
      model := model.(display := drawn.0, regs := drawn.1);
    }

    /**
     * The row loop of DXYN: draws the sprite bytes from row y down, stopping at the
     * bottom edge, each row from column VX mod 64 with VX read afresh. The invariant says
     * that finishing the draw from the current screen and registers gives the same result
     * as the whole draw from the start.
     */
    method DrawSpriteRows(x: nat, y: nat, bytes: seq<byte>, ghost s: Screen, ghost regs: seq<byte>)
      requires Shows(s, regs) && x < 16 && y < Height
      modifies registers, display
      ensures Shows(DrawRows(s, regs, x, y, SpriteRows(bytes)).0, DrawRows(s, regs, x, y, SpriteRows(bytes)).1)
    {
      ghost var rows := SpriteRows(bytes);
      ghost var target := DrawRows(s, regs, x, y, rows);
      ghost var cs, cr := s, regs;
      var yCoord: nat := y;
      var i := 0;
      while i < |bytes|
        invariant 0 <= i <= |bytes| && yCoord < Height && |rows| == |bytes|
        invariant Shows(cs, cr)
        invariant DrawRows(cs, cr, x, yCoord, rows[i..]) == target
        decreases |bytes| - i
      {
        var sprite := bytes[i];
        ghost var next := DrawBits(cs, cr, yCoord, cr[x] as int % Width, rows[i]);
        DrawSpriteRow(x, yCoord, sprite, rows, i, cs, cr);
        cs, cr := next.0, next.1;
        yCoord := yCoord + 1;
        if yCoord == Height {
          assert cs == target.0 && cr == target.1;
          break;
        }
        i := i + 1;
      }
      assert cs == target.0 && cr == target.1;
    }

    /** Row i of the sprite, drawn from column VX mod 64, as the first step of drawing rows i.. . */
    method DrawSpriteRow(x: nat, y: nat, sprite: byte, ghost rows: seq<seq<bool>>, i: nat, ghost s: Screen, ghost regs: seq<byte>)
      requires Shows(s, regs) && x < 16 && y < Height && i < |rows| && rows[i] == SpriteBits(sprite)
      modifies registers, display
      ensures var next := DrawBits(s, regs, y, regs[x] as int % Width, rows[i]);
        Shows(next.0, next.1) &&
        DrawRows(s, regs, x, y, rows[i..]) ==
          if y + 1 == Height then next else DrawRows(next.0, next.1, x, y + 1, rows[i + 1..])
    {
      var xCoord := registers[x] as int % Width;
      DrawRowsStep(s, regs, x, y, rows, i);
      DrawRow(y, xCoord, sprite, s, regs);
    }

    /**
     * One sprite row of DXYN: the bits of `sprite`, most significant first, from column x
     * on, stopping at the right edge.
     */
    method DrawRow(y: nat, x: nat, sprite: byte, ghost s: Screen, ghost regs: seq<byte>)
      requires Shows(s, regs) && y < Height && x < Width
      modifies registers, display
      ensures Shows(DrawBits(s, regs, y, x, SpriteBits(sprite)).0, DrawBits(s, regs, y, x, SpriteBits(sprite)).1)
    {
      ghost var bits := SpriteBits(sprite);
      ghost var row := DrawBits(s, regs, y, x, bits);
      ghost var cs, cr := s, regs;
      var xCoord: nat := x;
      var b := 0;
      while b < 8
        invariant 0 <= b <= 8 && xCoord < Width
        invariant Shows(cs, cr)
        invariant DrawBits(cs, cr, y, xCoord, bits[b..]) == row
        decreases 8 - b
      {
        var mask := ShiftRight(0x80, b);
        var bit := And(sprite, mask) != 0;
        assert bit == bits[b];
        ghost var next := Plot(cs, cr, y, xCoord, bit);
        DrawBitsStep(cs, cr, y, xCoord, bits, b);
        PlotPixel(y, xCoord, bit, cs, cr);
        cs, cr := next.0, next.1;
        xCoord := xCoord + 1;
        if xCoord == Width {
          assert cs == row.0 && cr == row.1;
          break;
        }
        b := b + 1;
      }
      assert cs == row.0 && cr == row.1;
    }

    /** When `bit` is set, toggles the pixel at (y, x); turning a pixel off sets VF to 1. */
    method PlotPixel(y: nat, x: nat, bit: bool, ghost s: Screen, ghost regs: seq<byte>)
      requires Shows(s, regs) && y < Height && x < Width
      modifies registers, display
      ensures Shows(Plot(s, regs, y, x, bit).0, Plot(s, regs, y, x, bit).1)
    {
      PlotEffect(s, regs, y, x, bit);
      if bit {
        if display[y, x] {
          display[y, x] := false;
          registers[Flag] := 1;
        } else {
          display[y, x] := true;
        }
      }
    }

    /** FXNN: timers, index arithmetic, BCD and register block store/load. */
    method Misc(f: Fields) returns (outcome: Outcome)
      requires Valid() && f.Bounded() && f.op == 0xF
      modifies memory, registers, `delayTimer, `soundTimer, `indexReg, `model
      ensures Valid()
      ensures outcome == OutcomeOf(ExecMisc(old(model), f))
      ensures outcome.Ok? ==> model == ExecMisc(old(model), f).m
    {
      var x := f.x;
      if f.nn == 0x07 {
        registers[x] := delayTimer;
        model := model.(regs := registers[..]);
      } else if f.nn == 0x15 {
        delayTimer := registers[x];
        model := model.(delay := delayTimer);
      } else if f.nn == 0x18 {
        soundTimer := registers[x];
        model := model.(sound := soundTimer);
      } else if f.nn == 0x1E {
        if indexReg + registers[x] as int >= U16Limit {
          return Fatal(IndexOverflow);
        }
        indexReg := indexReg + registers[x] as int;
        model := model.(index := indexReg);
      } else if f.nn == 0x0A {
        return Fatal(Unimplemented(f.inst));
      } else if f.nn == 0x33 {
        outcome := Bcd(x);
        return;
      } else if f.nn == 0x55 {
        outcome := StoreRegisters(x);
        return;
      } else if f.nn == 0x65 {
        outcome := LoadRegisters(x);
        return;
      } else {
        return Fatal(InvalidInstruction(f.inst));
      }
      return Ok;
    }

    /** FX33: the decimal digits of VX at I, I+1 and I+2. */
    method Bcd(x: nat) returns (outcome: Outcome)
      requires Valid() && x < 16
      modifies memory, `model
      ensures Valid()
      ensures outcome.Fatal? <==> old(indexReg) + 2 >= MemorySize
      ensures outcome.Fatal? ==> outcome.fault == AddressOutOfRange
      ensures outcome.Ok? ==> model == old(model).(memory := StoreBlock(old(model).memory, indexReg, Digits(registers[x])))
    {
      if indexReg + 2 >= memory.Length {
        return Fatal(AddressOutOfRange);
      }
      var value := registers[x];
      var ones := value % 10;
      var tens := value / 10 % 10;
      var hundreds := value / 100;
      memory[indexReg] := hundreds;
      memory[indexReg + 1] := tens;
      memory[indexReg + 2] := ones;
      model := model.(memory := memory[..]);
      return Ok;
    }

    /** FX55: V0..V(X-1) to memory from I on; X itself is not stored. */
    method StoreRegisters(x: nat) returns (outcome: Outcome)
      requires Valid() && x < 16
      modifies memory, `model
      ensures Valid()
      ensures outcome.Fatal? <==> x > 0 && old(indexReg) + x > MemorySize
      ensures outcome.Fatal? ==> outcome.fault == AddressOutOfRange
      ensures outcome.Ok? ==> model == old(model).(memory := StoreBlock(old(model).memory, indexReg, old(model).regs[..x]))
    {
      if x > 0 && indexReg + x > memory.Length {
        return Fatal(AddressOutOfRange);
      }
      for i := 0 to x
        invariant model == old(model)
        invariant memory[..] == StoreBlock(old(model).memory, indexReg, old(model).regs[..i])
      {
        memory[indexReg + i] := registers[i];
      }
      model := model.(memory := memory[..]);
      return Ok;
    }

    /** FX65: V0..V(X-1) from memory from I on; X itself is not loaded. */
    method LoadRegisters(x: nat) returns (outcome: Outcome)
      requires Valid() && x < 16
      modifies registers, `model
      ensures Valid()
      ensures outcome.Fatal? <==> x > 0 && old(indexReg) + x > MemorySize
      ensures outcome.Fatal? ==> outcome.fault == AddressOutOfRange
      ensures outcome.Ok? ==> model == old(model).(regs := LoadBlock(old(model).regs, old(model).memory, indexReg, x))
    {
      if x > 0 && indexReg + x > memory.Length {
        return Fatal(AddressOutOfRange);
      }
      for i := 0 to x
        invariant model == old(model)
        invariant registers[..] == LoadBlock(old(model).regs, old(model).memory, indexReg, i)
      {
        registers[i] := memory[indexReg + i];
      }
      model := model.(regs := registers[..]);
      return Ok;
    }
  }
}
