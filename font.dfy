/** The built-in hexadecimal font (src/font.rs): one 5-byte glyph per digit 0..F. */
module Font {
  import opened Bytes

  /** Number of glyphs, one per hexadecimal digit. */
  const GlyphCount := 16
  /** Each glyph is 5 sprite rows, one byte per row. */
  const GlyphHeight := 5

  /** The glyphs for 0, 1, ..., 9, A, ..., F, in that order. */
  const Glyphs: seq<seq<byte>> := [
    [0xF0, 0x90, 0x90, 0x90, 0xF0], // 0
    [0x20, 0x60, 0x20, 0x20, 0x70], // 1
    [0xF0, 0x10, 0xF0, 0x80, 0xF0], // 2
    [0xF0, 0x10, 0xF0, 0x10, 0xF0], // 3
    [0x90, 0x90, 0xF0, 0x10, 0x10], // 4
    [0xF0, 0x80, 0xF0, 0x10, 0xF0], // 5
    [0xF0, 0x80, 0xF0, 0x90, 0xF0], // 6
    [0xF0, 0x10, 0x20, 0x40, 0x40], // 7
    [0xF0, 0x90, 0xF0, 0x90, 0xF0], // 8
    [0xF0, 0x90, 0xF0, 0x10, 0xF0], // 9
    [0xF0, 0x90, 0xF0, 0x90, 0x90], // A
    [0xE0, 0x90, 0xE0, 0x90, 0xE0], // B
    [0xF0, 0x80, 0x80, 0x80, 0xF0], // C
    [0xE0, 0x90, 0x90, 0x90, 0xE0], // D
    [0xF0, 0x80, 0xF0, 0x80, 0xF0], // E
    [0xF0, 0x80, 0xF0, 0x80, 0x80]  // F
  ]

  /** The glyph of hexadecimal digit `d`: five rows, none wider than four pixels. */
  function Glyph(d: nat): (g: seq<byte>)
    requires d < GlyphCount
    ensures |g| == GlyphHeight
    ensures forall k :: 0 <= k < |g| ==> g[k] % 0x10 == 0
  {
    Glyphs[d]
  }

  /** Byte i of the font as it is laid out in memory: the glyphs end to end, five bytes each. */
  function FontByte(i: nat): byte
    requires i < GlyphCount * GlyphHeight
  {
    Glyphs[i / GlyphHeight][i % GlyphHeight]
  }

  /** Row k of glyph g is font byte 5 * g + k. */
  lemma FontLayout(g: nat, k: nat)
    requires g < GlyphCount && k < GlyphHeight
    ensures GlyphHeight * g + k < GlyphCount * GlyphHeight
    ensures FontByte(GlyphHeight * g + k) == Glyphs[g][k]
  {
    assert (GlyphHeight * g + k) / GlyphHeight == g;
    assert (GlyphHeight * g + k) % GlyphHeight == k;
  }

  /** FontLayout for every glyph row at once. */
  lemma FontLayoutAll()
    ensures forall g, k :: 0 <= g < GlyphCount && 0 <= k < GlyphHeight ==>
      FontByte(GlyphHeight * g + k) == Glyphs[g][k]
  {
    forall g, k | 0 <= g < GlyphCount && 0 <= k < GlyphHeight
      ensures FontByte(GlyphHeight * g + k) == Glyphs[g][k]
    {
      FontLayout(g, k);
    }
  }

  /** There are exactly sixteen glyphs of five rows each. */
  lemma GlyphTableShape()
    ensures |Glyphs| == GlyphCount
    ensures forall d :: 0 <= d < |Glyphs| ==> |Glyphs[d]| == GlyphHeight
  {
  }

  /** The first two glyphs, as drawn by the font table. */
  lemma FirstGlyphs()
    ensures Glyph(0) == [0xF0, 0x90, 0x90, 0x90, 0xF0]
    ensures Glyph(1) == [0x20, 0x60, 0x20, 0x20, 0x70]
  {
  }
}
