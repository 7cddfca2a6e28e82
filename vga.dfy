/** VGA text-mode cells and colour attributes.

    A screen cell is a 16-bit value: the low byte is the character code and
    the high byte is the colour attribute.  The attribute itself packs a 4-bit
    foreground (low nibble) and a 4-bit background (high nibble).  The two
    encoders are proved to pack their arguments losslessly, with the decoders
    as their inverses.
 */
module Vga {

  /** An 8-bit value (`unsigned char` / `uint8_t`). */
  type byte = b: int | 0 <= b < 0x100
  /** A 16-bit value (`unsigned short` / `uint16_t`), the type of one cell. */
  type Cell = v: int | 0 <= v < 0x1_0000
  /** One of the sixteen values of `enum vga_color`. */
  type Color = n: int | 0 <= n < 16

  const Width: int := 80
  const Height: int := 25
  /** Number of cells in the grid. */
  const Size: int := Width * Height

  const Black: Color := 0
  const White: Color := 15

  /** ASCII codes the driver treats specially. */
  const Backspace: byte := 0x08
  const Tab: byte := 0x09
  const Newline: byte := 0x0A
  const CarriageReturn: byte := 0x0D
  const Escape: byte := 0x1B
  const Space: byte := 0x20

  /** The blank cell: a space in white on black. */
  const Blank: Cell := 0x0F20

  // The driver packs and unpacks with `|`, `<<`, `>>` and `&`.  The model
  // computes with numbers; each lemma below proves, on bit-vectors, the
  // identity that makes the bit operation equal to the arithmetic one.

  /** `lo | hi << 4` on nibbles is `lo + 16 * hi`: the two never overlap. */
  lemma NibbleOrIsSum(lo: bv8, hi: bv8)
    requires lo < 16 && hi < 16
    ensures lo | (hi << 4) == lo + hi * 16
  {
  }

  /** `lo | hi << 8` on bytes is `lo + 256 * hi`. */
  lemma ByteOrIsSum(lo: bv16, hi: bv16)
    requires lo < 256 && hi < 256
    ensures lo | (hi << 8) == lo + hi * 256
  {
  }

  /** `(p >> 8) & 0xFF` and `p & 0xFF` of a 16-bit value are its high and
      low bytes. */
  lemma HighLowBytes(p: bv16)
    ensures (p >> 8) & 0xFF == p / 256 && p & 0xFF == p % 256
  {
  }

  /** `v & 1` is `v % 2`. */
  lemma LowBit(v: bv8)
    ensures v & 1 == v % 2
  {
  }

  /** `v & ~3` rounds `v` down to a multiple of 4. */
  lemma ClearLowTwoBits(v: bv32)
    ensures v & !3 == v - v % 4
  {
  }

  /** `vga_entry_color(fg, bg) = fg | bg << 4`: the attribute byte has the
      foreground in its low nibble and the background in its high nibble. */
  function EntryColor(fg: Color, bg: Color): (attr: byte)
    ensures attr % 16 == fg && attr / 16 == bg
  {
    fg + bg * 16
  }

  /** `vga_entry(c, color) = c | color << 8`: the cell has the character in
      its low byte and the attribute in its high byte. */
  function Entry(c: byte, color: byte): (cell: Cell)
    ensures cell % 256 == c && cell / 256 == color
  {
    c + color * 256
  }

  /** The character byte of a cell. */
  function CharOf(cell: Cell): byte { cell % 256 }

  /** The attribute byte of a cell. */
  function ColorOf(cell: Cell): byte { cell / 256 }

  /** The foreground nibble of an attribute. */
  function Foreground(attr: byte): Color { attr % 16 }

  /** The background nibble of an attribute. */
  function Background(attr: byte): Color { attr / 16 }

  /** Decoding an encoded cell gives back its character and attribute. */
  lemma EntryDecodes(c: byte, color: byte)
    ensures CharOf(Entry(c, color)) == c && ColorOf(Entry(c, color)) == color
  {
  }

  /** Every cell is the encoding of its own character and attribute, so
      `Entry` is a bijection between byte pairs and cells. */
  lemma EntryCovers(cell: Cell)
    ensures Entry(CharOf(cell), ColorOf(cell)) == cell
  {
    var e := Entry(CharOf(cell), ColorOf(cell));
    assert e % 256 == cell % 256 && e / 256 == cell / 256;
  }

  /** Two cells are equal exactly when their characters and attributes are. */
  lemma EntryInjective(c1: byte, a1: byte, c2: byte, a2: byte)
    ensures Entry(c1, a1) == Entry(c2, a2) <==> c1 == c2 && a1 == a2
  {
    EntryDecodes(c1, a1);
    EntryDecodes(c2, a2);
  }

  /** Decoding an attribute gives back the foreground and the background. */
  lemma EntryColorDecodes(fg: Color, bg: Color)
    ensures Foreground(EntryColor(fg, bg)) == fg && Background(EntryColor(fg, bg)) == bg
  {
  }

  /** Every attribute byte is the packing of its own two nibbles. */
  lemma EntryColorCovers(attr: byte)
    ensures EntryColor(Foreground(attr), Background(attr)) == attr
  {
    var e := EntryColor(Foreground(attr), Background(attr));
    assert e % 16 == attr % 16 && e / 16 == attr / 16;
  }

  /** The cell `clear_screen` and `scroll` write is `Blank` = 0x0F20. */
  lemma BlankIsWhiteSpaceOnBlack()
    ensures Entry(Space, EntryColor(White, Black)) == Blank
  {
    var attr := EntryColor(White, Black);
    assert attr == 0x0F;
  }
}
