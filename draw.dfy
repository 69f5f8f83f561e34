/**
 * The sprite draw of instruction DXYN (src/lib.rs, the `0xd` arm of `Chip8::step`), as a
 * function of the screen and the register file. The two recursions follow the two loops of
 * the source: `DrawRows` walks the sprite rows top to bottom, re-reading VX for each row,
 * and `DrawBits` walks the 8 bits of one row, most significant first. Both stop at the
 * screen edge instead of wrapping.
 */
module Draw {
  import opened Bytes

  const Width := 64
  const Height := 32
  /** Register VF, the flag register. */
  const Flag := 0xF

  /** The display, indexed `[row][col]`. */
  type Screen = seq<seq<bool>>

  ghost predicate IsScreen(s: Screen)
  {
    |s| == Height && forall r :: 0 <= r < |s| ==> |s[r]| == Width
  }

  /** A register file of sixteen 8-bit registers. */
  ghost predicate IsRegisters(regs: seq<byte>)
  {
    |regs| == 16
  }

  /** The all-off display. */
  function Blank(): (s: Screen)
    ensures IsScreen(s)
    ensures forall r, c :: 0 <= r < Height && 0 <= c < Width ==> !s[r][c]
  {
    seq(Height, _ => seq(Width, _ => false))
  }

  /** Bit `b` of a sprite byte, counting from the most significant bit: `byte & (0x80 >> b) > 0`. */
  function SpriteBit(sprite: byte, b: nat): bool
  {
    And(sprite, ShiftRight(0x80, b)) != 0
  }

  /** The mask test picks out bit 7 - b of the sprite byte: bit 0 of the row is its top bit. */
  lemma SpriteBitIsBit(sprite: byte, b: nat)
    requires b < 8
    ensures SpriteBit(sprite, b) == Bit(sprite as nat, 7 - b)
  {
    assert Pow2(7) == 0x80;
    ShiftRightPow2(7, b);
    BitwiseAndPow2(sprite as nat, 7 - b, 8);
  }

  /** The 8 bits of a sprite byte, most significant first. */
  function SpriteBits(sprite: byte): (bits: seq<bool>)
    ensures |bits| == 8
    ensures forall b :: 0 <= b < 8 ==> bits[b] == SpriteBit(sprite, b)
  {
    seq(8, b requires 0 <= b < 8 => SpriteBit(sprite, b))
  }

  /** The bits of each byte of a sprite. */
  function SpriteRows(sprite: seq<byte>): (rows: seq<seq<bool>>)
    ensures |rows| == |sprite|
    ensures forall i :: 0 <= i < |sprite| ==> rows[i] == SpriteBits(sprite[i])
  {
    seq(|sprite|, i requires 0 <= i < |sprite| => SpriteBits(sprite[i]))
  }

  /**
   * One pixel of the draw: when the sprite bit is set the pixel at (y, col) is toggled, and
   * a pixel that was on (and so is turned off) sets VF to 1.
   */
  function Plot(s: Screen, regs: seq<byte>, y: nat, col: nat, bit: bool): (Screen, seq<byte>)
    requires IsScreen(s) && IsRegisters(regs) && y < Height && col < Width
  {
    if !bit then (s, regs)
    else if s[y][col] then (s[y := s[y][col := false]], regs[Flag := 1])
    else (s[y := s[y][col := true]], regs)
  }

  /** What one Plot changes: the pixel at (y, col) flips with the bit, and VF becomes 1 on a collision. */
  lemma PlotEffect(s: Screen, regs: seq<byte>, y: nat, col: nat, bit: bool)
    requires IsScreen(s) && IsRegisters(regs) && y < Height && col < Width
    ensures var (s1, regs1) := Plot(s, regs, y, col, bit);
      IsScreen(s1) && IsRegisters(regs1) &&
      s1[y][col] == (s[y][col] != bit) &&
      (forall r, c :: 0 <= r < Height && 0 <= c < Width && (r != y || c != col) ==> s1[r][c] == s[r][c]) &&
      (forall k :: 0 <= k < 16 && k != Flag ==> regs1[k] == regs[k]) &&
      (regs1[Flag] == 1 <==> (regs[Flag] == 1 || (bit && s[y][col]))) &&
      (regs1[Flag] == regs[Flag] || regs1[Flag] == 1)
  {
  }

  /**
   * Draws the sprite bits `bits` on row y, the first at column `col`, stopping once the
   * column reaches the right edge. Only row y changes, and only at or right of `col` and
   * left of where the bits end; of the registers, VF alone may change, and only to 1.
   */
  function DrawBits(s: Screen, regs: seq<byte>, y: nat, col: nat, bits: seq<bool>): (r: (Screen, seq<byte>))
    requires IsScreen(s) && IsRegisters(regs) && y < Height && col < Width
    ensures IsScreen(r.0) && IsRegisters(r.1)
    ensures forall k :: 0 <= k < 16 && k != Flag ==> r.1[k] == regs[k]
    ensures r.1[Flag] == regs[Flag] || r.1[Flag] == 1
    ensures forall row, c :: 0 <= row < Height && 0 <= c < Width && (row != y || c < col || c >= col + |bits|) ==>
      r.0[row][c] == s[row][c]
    decreases |bits|
  {
    if bits == [] then (s, regs)
    else
      PlotEffect(s, regs, y, col, bits[0]);
      var (s1, regs1) := Plot(s, regs, y, col, bits[0]);
      if col + 1 == Width then (s1, regs1) else DrawBits(s1, regs1, y, col + 1, bits[1..])
  }

  /** Drawing bits b.. starts by plotting bit b, then draws the rest unless at the right edge. */
  lemma DrawBitsStep(s: Screen, regs: seq<byte>, y: nat, col: nat, bits: seq<bool>, b: nat)
    requires IsScreen(s) && IsRegisters(regs) && y < Height && col < Width && b < |bits|
    ensures var (s1, regs1) := Plot(s, regs, y, col, bits[b]);
      IsScreen(s1) && IsRegisters(regs1) &&
      DrawBits(s, regs, y, col, bits[b..]) ==
        if col + 1 == Width then (s1, regs1) else DrawBits(s1, regs1, y, col + 1, bits[b + 1..])
  {
    PlotEffect(s, regs, y, col, bits[b]);
    assert bits[b..][0] == bits[b] && bits[b..][1..] == bits[b + 1..];
  }

  /**
   * Draws the sprite rows `rows` from row y down, stopping once the row reaches the bottom
   * edge. Each row starts at column VX mod 64, where X is `x` and VX is read afresh for each
   * row (so when X is VF, collisions of earlier rows move later ones). Only rows y..y+|rows|-1
   * change; of the registers, VF alone may change, and only to 1.
   */
  function DrawRows(s: Screen, regs: seq<byte>, x: nat, y: nat, rows: seq<seq<bool>>): (r: (Screen, seq<byte>))
    requires IsScreen(s) && IsRegisters(regs) && x < 16 && y < Height
    ensures IsScreen(r.0) && IsRegisters(r.1)
    ensures forall k :: 0 <= k < 16 && k != Flag ==> r.1[k] == regs[k]
    ensures r.1[Flag] == regs[Flag] || r.1[Flag] == 1
    ensures forall row, c :: 0 <= row < Height && 0 <= c < Width && (row < y || row >= y + |rows|) ==>
      r.0[row][c] == s[row][c]
    decreases |rows|
  {
    if rows == [] then (s, regs)
    else
      var col := regs[x] as int % Width;
      var (s1, regs1) := DrawBits(s, regs, y, col, rows[0]);
      if y + 1 == Height then (s1, regs1) else DrawRows(s1, regs1, x, y + 1, rows[1..])
  }

  /** Drawing rows i.. starts by drawing row i from column VX mod 64, then the rest unless at the bottom edge. */
  lemma DrawRowsStep(s: Screen, regs: seq<byte>, x: nat, y: nat, rows: seq<seq<bool>>, i: nat)
    requires IsScreen(s) && IsRegisters(regs) && x < 16 && y < Height && i < |rows|
    ensures var (s1, regs1) := DrawBits(s, regs, y, regs[x] as int % Width, rows[i]);
      IsScreen(s1) && IsRegisters(regs1) &&
      DrawRows(s, regs, x, y, rows[i..]) ==
        if y + 1 == Height then (s1, regs1) else DrawRows(s1, regs1, x, y + 1, rows[i + 1..])
  {
    assert rows[i..][0] == rows[i] && rows[i..][1..] == rows[i + 1..];
  }

  /**
   * Drawing the first i rows and then the rest from row y + i is the whole draw, as long as
   * row y + i is still on the screen (otherwise the draw stopped after the first part).
   */
  lemma {:induction false} DrawRowsSplit(s: Screen, regs: seq<byte>, x: nat, y: nat, rows: seq<seq<bool>>, i: nat)
    requires IsScreen(s) && IsRegisters(regs) && x < 16 && y + i < Height && i <= |rows|
    ensures var pre := DrawRows(s, regs, x, y, rows[..i]);
      DrawRows(s, regs, x, y, rows) == DrawRows(pre.0, pre.1, x, y + i, rows[i..])
    decreases i
  {
    if i == 0 {
      assert rows[..0] == [] && rows[0..] == rows;
    } else {
      var (s1, regs1) := DrawBits(s, regs, y, regs[x] as int % Width, rows[0]);
      assert rows[..i][0] == rows[0] && rows[..i][1..] == rows[1..][..i - 1];
      DrawRowsSplit(s1, regs1, x, y + 1, rows[1..], i - 1);
      assert rows[1..][i - 1..] == rows[i..];
    }
  }

  /**
   * With X = VF and VF cleared first, row i of the sprite starts at column 1 when rows
   * 0..i-1 turned some pixel off and at column 0 otherwise.
   */
  lemma FlagColumn(s: Screen, regs: seq<byte>, y: nat, rows: seq<seq<bool>>, i: nat)
    requires IsScreen(s) && IsRegisters(regs) && regs[Flag] == 0 && y + i < Height && i < |rows|
    ensures var pre := DrawRows(s, regs, Flag, y, rows[..i]);
      var col := if TurnedOff(s, pre.0) then 1 else 0;
      var drawn := DrawBits(pre.0, pre.1, y + i, col, rows[i]);
      pre.1[Flag] as int % Width == col &&
      DrawRows(s, regs, Flag, y, rows) ==
        if y + i + 1 == Height then drawn else DrawRows(drawn.0, drawn.1, Flag, y + i + 1, rows[i + 1..])
  {
    var pre := DrawRows(s, regs, Flag, y, rows[..i]);
    DrawRowsSplit(s, regs, Flag, y, rows, i);
    DrawRowsCollision(s, regs, Flag, y, rows[..i]);
    DrawRowsStep(pre.0, pre.1, Flag, y + i, rows, i);
  }

  /** Whether the sprite `rows`, placed with its top-left corner at (y0, x0), has a set bit over cell (r, c). */
  ghost predicate Covers(rows: seq<seq<bool>>, y0: int, x0: int, r: int, c: int)
  {
    y0 <= r < y0 + |rows| && x0 <= c < x0 + |rows[r - y0]| && rows[r - y0][c - x0]
  }

  /** On its row, DrawBits flips exactly the cells under a set bit, clipped at the right edge. */
  lemma {:induction false} DrawBitsFlips(s: Screen, regs: seq<byte>, y: nat, col: nat, bits: seq<bool>, c: nat)
    requires IsScreen(s) && IsRegisters(regs) && y < Height && col < Width && c < Width
    ensures DrawBits(s, regs, y, col, bits).0[y][c] ==
      (s[y][c] != (col <= c < col + |bits| && bits[c - col]))
    decreases |bits|
  {
    if bits != [] {
      PlotEffect(s, regs, y, col, bits[0]);
      var (s1, regs1) := Plot(s, regs, y, col, bits[0]);
      if col + 1 < Width {
        DrawBitsFlips(s1, regs1, y, col + 1, bits[1..], c);
        if col < c < col + |bits| {
          assert bits[1..][c - (col + 1)] == bits[c - col];
        }
      }
    }
  }

  /**
   * When X is not VF, the draw flips exactly the cells covered by set sprite bits, with the
   * sprite's corner at (y, VX mod 64), clipped at the right and bottom edges.
   */
  lemma {:induction false} DrawRowsFlips(s: Screen, regs: seq<byte>, x: nat, y: nat, rows: seq<seq<bool>>, r: nat, c: nat)
    requires IsScreen(s) && IsRegisters(regs) && x < 16 && x != Flag && y < Height
    requires r < Height && c < Width
    ensures DrawRows(s, regs, x, y, rows).0[r][c] ==
      (s[r][c] != Covers(rows, y, regs[x] as int % Width, r, c))
    decreases |rows|
  {
    if rows != [] {
      var col := regs[x] as int % Width;
      var (s1, regs1) := DrawBits(s, regs, y, col, rows[0]);
      if r == y {
        DrawBitsFlips(s, regs, y, col, rows[0], c);
        if y + 1 < Height {
          assert DrawRows(s1, regs1, x, y + 1, rows[1..]).0[r][c] == s1[r][c];
        }
      } else if y + 1 < Height {
        DrawRowsFlips(s1, regs1, x, y + 1, rows[1..], r, c);
        assert regs1[x] == regs[x];
        if y < r < y + |rows| {
          assert rows[1..][r - (y + 1)] == rows[r - y];
        }
      }
    }
  }

  /** Whether some pixel of row y is on in `s` and off in `s'`. */
  ghost predicate RowTurnedOff(s: Screen, s': Screen, y: nat)
    requires IsScreen(s) && IsScreen(s') && y < Height
  {
    exists c :: 0 <= c < Width && s[y][c] && !s'[y][c]
  }

  /** Whether some pixel is on in `s` and off in `s'`. */
  ghost predicate TurnedOff(s: Screen, s': Screen)
    requires IsScreen(s) && IsScreen(s')
  {
    exists r, c :: 0 <= r < Height && 0 <= c < Width && s[r][c] && !s'[r][c]
  }

  /** DrawBits raises VF to 1 exactly when it turns some pixel of its row off. */
  lemma {:induction false} DrawBitsCollision(s: Screen, regs: seq<byte>, y: nat, col: nat, bits: seq<bool>)
    requires IsScreen(s) && IsRegisters(regs) && y < Height && col < Width
    ensures var (s', regs') := DrawBits(s, regs, y, col, bits);
      regs'[Flag] == 1 <==> (regs[Flag] == 1 || RowTurnedOff(s, s', y))
    decreases |bits|
  {
    var (s', regs') := DrawBits(s, regs, y, col, bits);
    if bits != [] {
      var bit := bits[0];
      PlotEffect(s, regs, y, col, bit);
      var (s1, regs1) := Plot(s, regs, y, col, bit);
      if col + 1 < Width {
        DrawBitsCollision(s1, regs1, y, col + 1, bits[1..]);
        assert s'[y][col] == s1[y][col];
        if RowTurnedOff(s, s', y) {
          var c :| 0 <= c < Width && s[y][c] && !s'[y][c];
          if c != col {
            assert s1[y][c] && !s'[y][c];
            assert RowTurnedOff(s1, s', y);
          }
        }
        if RowTurnedOff(s1, s', y) {
          var c :| 0 <= c < Width && s1[y][c] && !s'[y][c];
          if c != col {
            assert s[y][c] && !s'[y][c];
          }
        }
        if bit && s[y][col] {
          assert s[y][col] && !s'[y][col];
        }
      } else {
        assert s' == s1;
        if bit && s[y][col] {
          assert s[y][col] && !s'[y][col];
        }
      }
    }
  }

  /**
   * For any X, the draw leaves VF == 1 exactly when VF was 1 already or some pixel went
   * from on to off.
   */
  lemma {:induction false} DrawRowsCollision(s: Screen, regs: seq<byte>, x: nat, y: nat, rows: seq<seq<bool>>)
    requires IsScreen(s) && IsRegisters(regs) && x < 16 && y < Height
    ensures var (s', regs') := DrawRows(s, regs, x, y, rows);
      regs'[Flag] == 1 <==> (regs[Flag] == 1 || TurnedOff(s, s'))
    decreases |rows|
  {
    var (s', regs') := DrawRows(s, regs, x, y, rows);
    if rows != [] {
      var col := regs[x] as int % Width;
      var (s1, regs1) := DrawBits(s, regs, y, col, rows[0]);
      DrawBitsCollision(s, regs, y, col, rows[0]);
      if y + 1 < Height {
        DrawRowsCollision(s1, regs1, x, y + 1, rows[1..]);
        assert forall c :: 0 <= c < Width ==> s'[y][c] == s1[y][c];
        if TurnedOff(s, s') {
          var r, c :| 0 <= r < Height && 0 <= c < Width && s[r][c] && !s'[r][c];
          if r != y {
            assert s1[r][c] == s[r][c];
            assert TurnedOff(s1, s');
          } else {
            assert s[y][c] && !s1[y][c];
            assert RowTurnedOff(s, s1, y);
          }
        }
        if TurnedOff(s1, s') {
          var r, c :| 0 <= r < Height && 0 <= c < Width && s1[r][c] && !s'[r][c];
          assert r != y;
          assert s[r][c] == s1[r][c];
          assert TurnedOff(s, s');
        }
        if RowTurnedOff(s, s1, y) {
          var c :| 0 <= c < Width && s[y][c] && !s1[y][c];
          assert s[y][c] && !s'[y][c];
          assert TurnedOff(s, s');
        }
      } else {
        if TurnedOff(s, s') {
          var r, c :| 0 <= r < Height && 0 <= c < Width && s[r][c] && !s'[r][c];
          assert r == y;
          assert RowTurnedOff(s, s', y);
        }
        if RowTurnedOff(s, s', y) {
          var c :| 0 <= c < Width && s[y][c] && !s'[y][c];
          assert TurnedOff(s, s');
        }
      }
    }
  }

  /**
   * Drawing the same sprite twice at the same place restores the screen when X is not VF:
   * the second draw flips back exactly the cells the first one flipped.
   */
  lemma DrawTwiceRestores(s: Screen, regs: seq<byte>, regs2: seq<byte>, x: nat, y: nat, rows: seq<seq<bool>>)
    requires IsScreen(s) && IsRegisters(regs) && IsRegisters(regs2) && x < 16 && x != Flag && y < Height
    requires regs2[x] == regs[x]
    ensures DrawRows(DrawRows(s, regs, x, y, rows).0, regs2, x, y, rows).0 == s
  {
    var s1 := DrawRows(s, regs, x, y, rows).0;
    var s2 := DrawRows(s1, regs2, x, y, rows).0;
    forall r | 0 <= r < Height
      ensures s2[r] == s[r]
    {
      forall c | 0 <= c < Width
        ensures s2[r][c] == s[r][c]
      {
        DrawRowsFlips(s, regs, x, y, rows, r, c);
        DrawRowsFlips(s1, regs2, x, y, rows, r, c);
      }
    }
  }
}
