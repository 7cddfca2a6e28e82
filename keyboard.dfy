/** The polled keyboard reader: one look at the 8042 keyboard controller's
    status port (0x64) and, when its output-buffer-full bit is set, one read
    of the data port (0x60), whose IBM PC scan-code-set-1 make code is
    translated to a small ASCII alphabet.  The two port reads are inputs
    here; the result records whether the data port was read.
 */
module Keyboard {
  import opened Vga

  const StatusPort: int := 0x64
  const DataPort: int := 0x60

  /** The 29 scan codes the translator knows. */
  const KnownCodes: set<byte> := {
    0x1E, 0x30, 0x2E, 0x20, 0x12, 0x21, 0x22, 0x23, 0x17, 0x24, 0x25, 0x26, 0x32,
    0x31, 0x18, 0x19, 0x10, 0x13, 0x1F, 0x14, 0x16, 0x2F, 0x11, 0x2D, 0x15, 0x2C,
    0x39, 0x1C, 0x01 }

  /** The `switch` of `get_key`: a known make code gives its character, every
      other byte (release codes >= 0x80 included) gives 0, "no character". */
  function Translate(code: byte): (ch: byte)
    ensures ch != 0 <==> code in KnownCodes
    ensures code in KnownCodes && code !in {0x39, 0x1C, 0x01} ==> 'a' as int <= ch <= 'z' as int
    ensures code == 0x39 ==> ch == Space
    ensures code == 0x1C ==> ch == Newline
    ensures code == 0x01 ==> ch == Escape
  {
    match code
    case 0x1E => 'a' as int
    case 0x30 => 'b' as int
    case 0x2E => 'c' as int
    case 0x20 => 'd' as int
    case 0x12 => 'e' as int
    case 0x21 => 'f' as int
    case 0x22 => 'g' as int
    case 0x23 => 'h' as int
    case 0x17 => 'i' as int
    case 0x24 => 'j' as int
    case 0x25 => 'k' as int
    case 0x26 => 'l' as int
    case 0x32 => 'm' as int
    case 0x31 => 'n' as int
    case 0x18 => 'o' as int
    case 0x19 => 'p' as int
    case 0x10 => 'q' as int
    case 0x13 => 'r' as int
    case 0x1F => 's' as int
    case 0x14 => 't' as int
    case 0x16 => 'u' as int
    case 0x2F => 'v' as int
    case 0x11 => 'w' as int
    case 0x2D => 'x' as int
    case 0x15 => 'y' as int
    case 0x2C => 'z' as int
    case 0x39 => Space
    case 0x1C => Newline
    case 0x01 => Escape
    case _ => 0
  }

  /** The make code that produces a character, 0 for a character no key
      produces; an independent reading of the table, from character to key. */
  function CodeOf(ch: byte): byte
  {
    match ch
    case 0x61 => 0x1E case 0x62 => 0x30 case 0x63 => 0x2E case 0x64 => 0x20
    case 0x65 => 0x12 case 0x66 => 0x21 case 0x67 => 0x22 case 0x68 => 0x23
    case 0x69 => 0x17 case 0x6A => 0x24 case 0x6B => 0x25 case 0x6C => 0x26
    case 0x6D => 0x32 case 0x6E => 0x31 case 0x6F => 0x18 case 0x70 => 0x19
    case 0x71 => 0x10 case 0x72 => 0x13 case 0x73 => 0x1F case 0x74 => 0x14
    case 0x75 => 0x16 case 0x76 => 0x2F case 0x77 => 0x11 case 0x78 => 0x2D
    case 0x79 => 0x15 case 0x7A => 0x2C
    case 0x20 => 0x39 case 0x0A => 0x1C case 0x1B => 0x01
    case _ => 0
  }

  /** Every known code is recovered from its character: no two keys share a
      character. */
  lemma TranslateThenCodeOf(code: byte)
    requires code in KnownCodes
    ensures CodeOf(Translate(code)) == code
  {
  }

  /** Every lowercase letter, space, newline and Escape is produced by the key
      `CodeOf` names. */
  lemma CodeOfThenTranslate(ch: byte)
    requires 'a' as int <= ch <= 'z' as int || ch in {Space, Newline, Escape}
    ensures CodeOf(ch) in KnownCodes && Translate(CodeOf(ch)) == ch
  {
  }

  /** The translation is injective on the known codes. */
  lemma TranslateInjective(c1: byte, c2: byte)
    requires Translate(c1) == Translate(c2) != 0
    ensures c1 == c2
  {
    TranslateThenCodeOf(c1);
    TranslateThenCodeOf(c2);
  }

  /** What one call of `get_key` did. */
  datatype Poll = Poll(key: byte, dataPortRead: bool)

  /** `get_key` given the byte the status port returns and the byte the data
      port would return: bit 0 of the status decides whether the data port is
      read; an unread data port leaves the scan code at 0, which translates
      to "no character". */
  function GetKey(status: byte, data: byte): (p: Poll)
    ensures p.dataPortRead <==> status % 2 == 1
    ensures !p.dataPortRead ==> p.key == 0
    ensures p.dataPortRead ==> p.key == Translate(data)
    ensures p.key != 0 ==> p.dataPortRead && data in KnownCodes
  {
    // `inb(0x64) & 1`, see `LowBit`
    var ready := status % 2 != 0;
    var code := if ready then data else 0;
    Poll(Translate(code), ready)
  }
}
