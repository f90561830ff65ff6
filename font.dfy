/** The fixed layout constants of the machine and the built-in hexadecimal font. */
module Font {
  import opened Bits

  const REGISTER_COUNT: nat := 16
  const FLAG: Nibble := 0xF
  const MEMORY_SIZE: nat := 4096
  const STACK_DEPTH: nat := 16
  const KEY_COUNT: nat := 16
  const DISPLAY_WIDTH: nat := 64
  const DISPLAY_HEIGHT: nat := 32
  const DISPLAY_SIZE: nat := DISPLAY_WIDTH * DISPLAY_HEIGHT

  const FONTSET_START_ADDRESS: nat := 0x50
  /** The address programs are loaded at and start from. */
  const PROGRAM_START_ADDRESS: nat := 0x200

  /** Bytes per glyph: each hexadecimal digit is a 4x5 sprite, one byte per row. */
  const GLYPH_HEIGHT: nat := 5

  /** The 80-byte font: glyphs for 0 .. F, five rows each, pixels in the high
      nibble. It is kept as two halves of eight glyphs so that facts about every
      byte stay within the prover's reach. */
  const FONTSET: seq<u8> := FONT_DIGITS_0_TO_7 + FONT_DIGITS_8_TO_F

  const FONT_DIGITS_0_TO_7: seq<u8> := [
    0xF0, 0x90, 0x90, 0x90, 0xF0, // 0
    0x20, 0x60, 0x20, 0x20, 0x70, // 1
    0xF0, 0x10, 0xF0, 0x80, 0xF0, // 2
    0xF0, 0x10, 0xF0, 0x10, 0xF0, // 3
    0x90, 0x90, 0xF0, 0x10, 0x10, // 4
    0xF0, 0x80, 0xF0, 0x10, 0xF0, // 5
    0xF0, 0x80, 0xF0, 0x90, 0xF0, // 6
    0xF0, 0x10, 0x20, 0x40, 0x40  // 7
  ]

  const FONT_DIGITS_8_TO_F: seq<u8> := [
    0xF0, 0x90, 0xF0, 0x90, 0xF0, // 8
    0xF0, 0x90, 0xF0, 0x10, 0xF0, // 9
    0xF0, 0x90, 0xF0, 0x90, 0x90, // A
    0xE0, 0x90, 0xE0, 0x90, 0xE0, // B
    0xF0, 0x80, 0x80, 0x80, 0xF0, // C
    0xE0, 0x90, 0x90, 0x90, 0xE0, // D
    0xF0, 0x80, 0xF0, 0x80, 0xF0, // E
    0xF0, 0x80, 0xF0, 0x80, 0x80  // F
  ]

  /** The five rows of the glyph for hexadecimal digit `d`. */
  function Glyph(d: Nibble): (g: seq<u8>)
    ensures |g| == GLYPH_HEIGHT
    ensures forall k :: 0 <= k < GLYPH_HEIGHT ==> g[k] == FONTSET[GLYPH_HEIGHT * d + k]
  {
    FONTSET[GLYPH_HEIGHT * d .. GLYPH_HEIGHT * d + GLYPH_HEIGHT]
  }

  /** Where the glyph of digit `d` lives once the font is loaded. */
  function GlyphAddress(d: Nibble): (a: nat)
    ensures FONTSET_START_ADDRESS <= a <= FONTSET_START_ADDRESS + |FONTSET| - GLYPH_HEIGHT
    ensures (a - FONTSET_START_ADDRESS) % GLYPH_HEIGHT == 0
  {
    FONTSET_START_ADDRESS + GLYPH_HEIGHT * d
  }

  /** The font is 80 bytes, five per digit, and every glyph row uses only the
      high nibble: glyphs are 4 pixels wide. */
  lemma FontShape()
    ensures |FONTSET| == 80 == GLYPH_HEIGHT * 16
    ensures forall i :: 0 <= i < |FONTSET| ==> FONTSET[i] % 0x10 == 0
    ensures forall i :: 0 <= i < |FONTSET| ==> FONTSET[i] != 0
  {
    assert forall i :: 0 <= i < |FONT_DIGITS_0_TO_7| ==>
      FONT_DIGITS_0_TO_7[i] % 0x10 == 0 && FONT_DIGITS_0_TO_7[i] != 0;
    assert forall i :: 0 <= i < |FONT_DIGITS_8_TO_F| ==>
      FONT_DIGITS_8_TO_F[i] % 0x10 == 0 && FONT_DIGITS_8_TO_F[i] != 0;
  }

  /** The font region [0x50, 0xA0) lies below the program area. */
  lemma FontBelowProgram()
    ensures FONTSET_START_ADDRESS + |FONTSET| <= PROGRAM_START_ADDRESS < MEMORY_SIZE
    ensures GlyphAddress(0) == 0x50 && GlyphAddress(0xF) == 0x9B
  {
  }
}
