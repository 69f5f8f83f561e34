# CHIP-8 interpreter core, modelled in Dafny

This project models the core of the `chiprs` CHIP-8 emulator. The core is struct `Chip8`
in `src/lib.rs`, with its two operations:

- `Chip8::load_program` builds a machine from a program image.
- `Chip8::step` runs one fetch/decode/execute cycle.

The model also covers the built-in hexadecimal font of `src/font.rs`.

The machine has:

- 4096 bytes of memory. The program starts at 0x200 and the font is at 0x50..0x9F.
- A 64×32 monochrome display.
- Sixteen 8-bit registers V0..VF. VF doubles as the flag register.
- A program counter and the 16-bit index register I.
- A return-address stack.
- Two 8-bit timers.

The project is split into these files:

- `bytes.dfy`: the `byte` type and the u8 operations the source uses. These are and, or
  and xor (defined bit by bit), shifts, and wrapping add and subtract.
- `font.dfy`: the sixteen 5-byte glyphs, and how they are laid out end to end in memory.
- `draw.dfy`: the sprite drawing of DXYN, on a display of rows of booleans.
  - It models the XOR-plotting of one pixel and the drawing of one sprite row.
  - It models the drawing of a whole sprite, with clipping at the right and bottom edges.
  - It proves which pixels flip and what VF reports.
- `machine.dfy`: the machine as a value. It has:
  - instruction decoding;
  - `Load`, the machine that `load_program` builds;
  - `Cycle`, the transition that `step` makes.

  The result of `Cycle` is either the next machine or the fault that stops the program.
  Every panic of the source is a fault: an out-of-range index, `expect` on an empty stack,
  `panic!`, `todo!`, and u16 overflow.
- `chip8.dfy`: class `Chip8`. It keeps memory and registers in arrays and the display in a
  2D array, and updates them in place, as the Rust struct does.
  - Each method is proved to leave the object representing the machine that the
    functions of `machine.dfy` compute. A ghost field `model` holds that machine.
  - Sprite drawing is a pair of nested loops over rows and bits, as in the source.
  - FX55 and FX65 are loops over the block. BCD and loading are written out step by step.
- `properties.dfy`: the behaviour of one cycle, stated instruction by instruction against
  the word at pc. It also covers:
  - exactly when a cycle stops (`HaltsIffPanics`);
  - two-cycle round trips: a call followed by a return, and a sprite drawn twice.

### Behaviour modelled as the source has it

Where the source departs from the usual CHIP-8 conventions, the model follows the source:

- 7XNN uses `checked_add`. A sum above 255 leaves VX unchanged.
- 8XY4, 8XY5 and 8XY7 wrap modulo 256 and write no carry or borrow to VF.
- 8XY6 and 8XYE ignore VY. They also write VF before shifting VX, so with X = F the flag
  is shifted too.
- 8XYE stores `VX & 0xA0` in VF, that is bits 7 and 5, where the comment says the high bit.
- FX55 and FX65 move V0..V(X-1). The loop is `0..X`, so VX itself is excluded.
- 5XYN and 9XYN do not check that N is 0.
- DXYN reads the row from VY before clearing VF. It reads the column from VX again for
  every sprite row, after VF may have changed.
- FX1E sets no flag on overflow. A sum past 0xFFFF is a u16 overflow panic, as in a debug
  build.
- EXNN is `todo!` and FX0A panics: both are `Unimplemented`. FX29 is missing from the
  source, so it is `InvalidInstruction`, as is every other unknown FXNN, 8XYN or 0NNN.

## Model

| member | source | states |
|---|---|---|
| Machine.Decode | src/lib.rs:59-77 | the word is the big-endian pair of bytes; op, X, Y, N are its four nibbles and NN, NNN its low 8 and 12 bits |
| Properties.DecodeNibbles | src/lib.rs:63-77 | every field equals the matching shift and mask of the word (w / 0x1000, w / 0x100 % 16, ..., w % 0x1000) |
| Machine.Load | src/lib.rs:33-57 | a program over 4096 - 512 bytes is refused; otherwise the program sits at 0x200, glyph g at 0x50 + 5g, all else is zero, pc = 0x200 and registers, timers, stack and display are cleared |
| Properties.FontBelowProgram | src/lib.rs:39-45 | the font area ends below 0x200, and the loaded memory holds both the whole program and the whole font |
| Emulator.Chip8.constructor | src/lib.rs:33-57 | filling the memory array (program copy, then glyph by glyph) produces exactly the machine `Load` describes |
| Emulator.Chip8.CopyProgram | src/lib.rs:40 | copying the program into zeroed memory puts it at 0x200 and leaves every other byte zero |
| Emulator.Chip8.CopyGlyph | src/lib.rs:42-45 | copying glyph g puts its five rows at 0x50 + 5g and changes nothing else |
| Emulator.Chip8.LoadProgram | src/lib.rs:33-37 | no machine exactly when the program is too large; otherwise a fresh object representing `Load(program)` |
| Machine.Cycle | src/lib.rs:59-64 | a pc whose two bytes are not both in memory faults; otherwise pc advances by 2 and the decoded instruction runs; the next machine is again valid |
| Emulator.Chip8.Step | src/lib.rs:59-258 | the object afterwards represents the machine `Cycle` computes, and the outcome reports its fault |
| Emulator.Chip8.Dispatch | src/lib.rs:80-258 | executing a decoded instruction on the arrays matches `Execute` |
| Machine.Fetch | src/lib.rs:61-63 | the word is below 0x10000; its high byte is the byte at pc and its low byte the byte at pc + 1 |
| Machine.Current | src/lib.rs:61-77 | the instruction at pc decodes to bounded fields (nibbles below 16, NN below 256, NNN below 4096) of the word `Fetch` reads |
| Machine.Execute | src/lib.rs:80-258 | an instruction that does not fault leaves a valid machine: 4096 bytes of memory, a 64×32 display, 16 registers, and pc, I and every stacked address below 0x10000 |
| Machine.ExecSystem | src/lib.rs:81-92 | the 00E0 / 00EE / invalid 0NNN arm; when it does not fault, the machine stays valid |
| Machine.ExecFlow | src/lib.rs:93-180 | the 1NNN, 2NNN, 3XNN, 4XNN, 5XYN, 9XYN and BNNN arms (93-121 and 166-180) always give a valid machine |
| Machine.ExecImmediate | src/lib.rs:122-184 | the 6XNN, 7XNN, ANNN and CXNN arms (122-133, 172-176 and 181-184) always give a valid machine |
| Machine.ArithRegisters | src/lib.rs:137-164 | the 8XYN arms give sixteen registers again, or nothing for an invalid N |
| Machine.ExecArith | src/lib.rs:134-165 | an 8XYN that does not fault leaves a valid machine |
| Machine.ExecDraw | src/lib.rs:185-215 | a DXYN that does not fault leaves a valid machine |
| Machine.ExecMisc | src/lib.rs:220-256 | an FXNN that does not fault leaves a valid machine |
| Properties.FetchOutOfRange | src/lib.rs:61-62 | pc + 1 at or past 4096 stops the machine with an address fault |
| Properties.HaltsIffPanics | src/lib.rs:80-258 | a cycle faults if and only if one of the listed panic conditions holds |
| Properties.ClearScreen | src/lib.rs:83-86 | 00E0 blanks the display and changes nothing else |
| Properties.Return | src/lib.rs:87-89 | 00EE pops the top of the stack into pc; an empty stack is a stack-underflow fault |
| Emulator.Chip8.System | src/lib.rs:81-92 | the in-place 00E0 / 00EE / invalid 0NNN matches `ExecSystem` |
| Properties.Jump | src/lib.rs:93-97 | 1NNN sets pc to the low 12 bits of the word, nothing else changes |
| Properties.Call | src/lib.rs:98-103 | 2NNN pushes the address after the call and jumps to NNN |
| Properties.CallThenReturn | src/lib.rs:87-103 | a call whose target is 00EE returns to the instruction after the call with the stack as before |
| Properties.JumpOffset | src/lib.rs:177-180 | BNNN sets pc to NNN + V0 |
| Emulator.Chip8.Jump | src/lib.rs:93-103 | the in-place 1NNN / 2NNN / BNNN matches `ExecFlow` |
| Properties.SkipImmediate | src/lib.rs:104-115 | 3XNN advances pc by 4 when VX = NN, 4XNN when VX != NN, and by 2 otherwise |
| Properties.SkipRegisters | src/lib.rs:116-121 | 5XYN advances pc by 4 when VX = VY, 9XYN when VX != VY, whatever N is |
| Emulator.Chip8.SkipIf | src/lib.rs:104-121 | the in-place conditional skips match `ExecFlow` |
| Properties.SetRegister | src/lib.rs:122-126 | 6XNN puts NN in VX and changes nothing else |
| Properties.AddImmediate | src/lib.rs:127-133 | 7XNN adds NN to VX when the sum is below 256 and otherwise leaves the registers unchanged; no flag is written, so VF changes only as VX itself when X = F |
| Properties.SetIndex | src/lib.rs:172-176 | ANNN puts NNN in I |
| Properties.Random | src/lib.rs:181-184 | CXNN puts random & NN in VX, so VX <= NN afterwards |
| Emulator.Chip8.Immediate | src/lib.rs:122-133 | the in-place 6XNN / 7XNN / ANNN / CXNN matches `ExecImmediate` |
| Properties.Logic | src/lib.rs:137-145 | 8XY0..8XY3 put VY, VX or VY, VX and VY, VX xor VY in VX |
| Properties.WrappingArithmetic | src/lib.rs:146-150 | 8XY4 / 8XY5 / 8XY7 leave (VX + VY), (VX - VY), (VY - VX) mod 256 in VX and every other register, VF included, unchanged |
| Properties.ShiftRightFlag | src/lib.rs:153-157 | 8XY6 with X != F leaves VF = VX mod 2 and VX / 2 in VX; with X = F, VF ends up 0 |
| Properties.ShiftLeftFlag | src/lib.rs:158-162 | 8XYE with X != F leaves VF = VX & 0xA0 and VX * 2 mod 256 in VX; with X = F, VF ends up (VX & 0xA0) * 2 mod 256 |
| Emulator.Chip8.Arith | src/lib.rs:134-165 | the in-place register operations, and the invalid-N fault, match `ExecArith` |
| Emulator.Chip8.Shift | src/lib.rs:153-162 | the in-place flag write and shift match `ArithRegisters` for N = 6 and N = E |
| Draw.PlotEffect | src/lib.rs:196-204 | plotting a set bit flips exactly one pixel; VF becomes 1 exactly when a lit pixel was turned off, else keeps its value |
| Draw.DrawBits | src/lib.rs:193-209 | drawing one sprite row changes only pixels of that row from the column on, and only VF among the registers |
| Draw.DrawRows | src/lib.rs:188-214 | drawing a sprite changes only the rows from the start row on, and only VF among the registers |
| Draw.DrawBitsFlips | src/lib.rs:193-209 | a pixel of the row flips exactly when the sprite row has a set bit over it, clipped at column 63 |
| Draw.DrawRowsFlips | src/lib.rs:188-214 | with X != F, a pixel flips exactly when the placed sprite covers it, clipped at the right and bottom edges |
| Draw.DrawRowsCollision | src/lib.rs:189-214 | after the draw, VF is 1 exactly when it was 1 already or some pixel went from on to off |
| Draw.DrawTwiceRestores | src/lib.rs:188-214 | drawing the same sprite at the same place twice gives back the original display |
| Draw.DrawRowsSplit | src/lib.rs:190-214 | drawing the first i rows and then the remaining rows from row y + i gives the whole draw |
| Draw.FlagColumn | src/lib.rs:188-214 | with X = F and VF cleared, row i starts at column 1 when rows 0..i-1 turned some pixel off and at column 0 otherwise, and the draw goes on from there |
| Draw.Blank | src/lib.rs:85 | the cleared display has every pixel off |
| Draw.SpriteBitIsBit | src/lib.rs:195-196 | the mask test `byte & (0x80 >> b) > 0` is bit 7 - b of the byte, so the row is drawn most significant bit first |
| Properties.DrawSprite | src/lib.rs:185-215 | DXYN faults exactly when the sprite reaches past memory; otherwise VF is 0 or 1, VF is 1 exactly when some pixel was turned off, and only the display and VF change |
| Properties.DrawFlips | src/lib.rs:188-214 | with X != F, DXYN flips exactly the pixels under set sprite bits at (VY mod 32, VX mod 64) |
| Properties.DrawOutcome | src/lib.rs:185-215 | a DXYN whose sprite lies in memory leaves the display and registers `DrawRows` computes from VF = 0, the row VY mod 32 and the sprite bytes at I, and advances pc by 2 |
| Properties.DrawTwice | src/lib.rs:185-215 | running the same DXYN twice (X, Y != F) restores the display |
| Emulator.Chip8.DrawSprite | src/lib.rs:185-215 | the nested in-place loops over rows and bits match `ExecDraw` |
| Emulator.Chip8.DrawSpriteAt | src/lib.rs:190-214 | taking the sprite slice at I and drawing it leaves the object representing the machine whose display and registers `DrawRows` computes |
| Emulator.Chip8.DrawSpriteRows | src/lib.rs:190-214 | the row loop leaves in the display and register arrays exactly the screen and registers `DrawRows` computes for the sprite bytes at I |
| Emulator.Chip8.DrawSpriteRow | src/lib.rs:192-213 | one pass of the row loop, with VX read afresh, leaves in the arrays what `DrawBits` computes for that row, and is the first step of the rest of the draw |
| Emulator.Chip8.DrawRow | src/lib.rs:193-209 | the bit loop of one row leaves in the arrays exactly what `DrawBits` computes on the sprite byte's bits |
| Emulator.Chip8.PlotPixel | src/lib.rs:196-204 | the in-place pixel toggle and flag write leave in the arrays exactly what `Plot` computes |
| Properties.Unsupported | src/lib.rs:216-219 | EXNN and FX0A stop the machine as unimplemented; FX29 stops it as an invalid instruction |
| Properties.Timers | src/lib.rs:224-228 | FX07 copies the delay timer into VX; FX15 and FX18 set the delay and sound timers from VX |
| Properties.AddIndex | src/lib.rs:230 | FX1E adds VX to I; a sum past 0xFFFF is an overflow fault |
| Properties.Bcd | src/lib.rs:233-241 | FX33 writes three decimal digits a, b, c with 100a + 10b + c = VX at I..I+2 and nothing else; I + 2 past memory faults |
| Emulator.Chip8.Bcd | src/lib.rs:233-241 | the in-place BCD store faults exactly when I + 2 is past memory, else writes `Digits(VX)` at I |
| Properties.StoreRegisters | src/lib.rs:243-247 | FX55 writes V0..V(X-1) at I.. and no other byte; a block past memory faults |
| Emulator.Chip8.StoreRegisters | src/lib.rs:243-247 | the store loop faults exactly when X > 0 and I + X > 4096, else writes V0..V(X-1) from I on |
| Properties.LoadRegisters | src/lib.rs:249-253 | FX65 reads V0..V(X-1) from I..; VX..VF keep their values; a block past memory faults |
| Emulator.Chip8.LoadRegisters | src/lib.rs:249-253 | the load loop faults exactly when X > 0 and I + X > 4096, else reads V0..V(X-1) from I on |
| Emulator.Chip8.Misc | src/lib.rs:220-256 | the in-place FXNN instructions match `ExecMisc` |
| Bytes.AndBits | src/lib.rs:143 | bit k of `a & b` is set exactly when it is set in both |
| Bytes.OrBits | src/lib.rs:141 | bit k of `a` or-ed with `b` is set exactly when it is set in either |
| Bytes.XorBits | src/lib.rs:145 | bit k of `a ^ b` is set exactly when the operands differ there |
| Bytes.ShiftRightBits | src/lib.rs:195 | bit i of `a >> k` is bit i + k of `a` |
| Bytes.LowBit | src/lib.rs:155 | `v & 1` is v mod 2 |
| Bytes.HalfShift | src/lib.rs:156 | `v >> 1` is v / 2 |
| Bytes.AndBelow | src/lib.rs:183 | `v & m` is at most m |
| Bytes.WrappingAdd | src/lib.rs:147 | `wrapping_add` is the sum mod 256 |
| Bytes.WrappingSub | src/lib.rs:149-150 | `wrapping_sub` is the difference mod 256 |
| Font.Glyph | src/font.rs:5-24 | each glyph has five rows, each only four pixels wide (its low nibble is zero) |
| Font.FontLayout | src/lib.rs:42-45 | row k of glyph g is font byte 5g + k |
| Font.GlyphTableShape | src/font.rs:5-24 | the table has sixteen glyphs of five rows each |
| Font.FirstGlyphs | src/font.rs:5-8 | the glyphs of 0 and 1 are the bytes the table lists |

## Left out

- Input and output are not part of this model. That covers `src/main.rs`, `src/native_io.rs`
  and `src/terminal_io.rs`: the window, the terminal, the event loop and the timing loop.
- The `key` parameter of `step` is not modelled. The core never reads it: EXNN is `todo!`
  and FX0A panics.
- The random byte CXNN draws with `rand::random::<u8>()` is a parameter of `Cycle` and
  `Step`.
- Timers are only fields. The core never decrements them; the run loop outside the core
  does that.
- The state after a panic is not modelled. A fault stops the program. FX33, FX55 and FX65
  may already have written some bytes before their out-of-range index, and the model does
  not say which.
- Emulator.Chip8.constructor: requires that the program fits. Where the source panics on
  an oversized program, `LoadProgram` and `Load` return `None`.
- A release build of the source would wrap FX1E modulo 0x10000 instead of panicking. The
  model follows the debug-build overflow check.
- The u16 widths of pc and I are recorded in `Machine.Valid`. No instruction can push them
  past 0xFFFF, except FX1E, which faults.
