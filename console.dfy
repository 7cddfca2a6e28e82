/** The text terminal as a value: the 80x25 grid of cells, the cursor
    `(x, y)` and the log of bytes written to I/O ports.  Each function here
    states what one driver routine does to that value; the class in module
    Terminal runs the routines in place and is proved to agree with them.
 */
module Console {
  import opened Vga

  /** CRT Controller index and data ports of a colour VGA adapter. */
  const CrtcIndexPort: int := 0x3D4
  const CrtcDataPort: int := 0x3D5
  /** CRT Controller registers: Cursor Location High and Cursor Location Low. */
  const CursorHighRegister: byte := 0x0E
  const CursorLowRegister: byte := 0x0F

  /** One `outb`: a byte sent to an I/O port. */
  datatype PortWrite = PortWrite(port: int, value: byte)

  datatype Screen = Screen(grid: seq<Cell>, x: int, y: int, out: seq<PortWrite>)

  /** The grid has all its cells and the cursor is on the screen. */
  predicate Valid(s: Screen)
  {
    |s.grid| == Size && 0 <= s.x < Width && 0 <= s.y < Height
  }

  // ---------------------------------------------------------------------
  // update_cursor

  /** The four port writes of `update_cursor`: `position = y*80 + x` in a
      16-bit variable; select register 14 and send `(position >> 8) & 0xFF`,
      then select register 15 and send `position & 0xFF` (see
      `HighLowBytes`).  For a cursor on the screen the high and low bytes make
      up the offset exactly, below 2000, with nothing lost to the 16 bits. */
  function CursorWrites(x: int, y: int): (w: seq<PortWrite>)
    requires 0 <= x < Width && 0 <= y < Height
    ensures |w| == 4
    ensures w[0] == PortWrite(CrtcIndexPort, CursorHighRegister)
    ensures w[2] == PortWrite(CrtcIndexPort, CursorLowRegister)
    ensures w[1].port == CrtcDataPort && w[3].port == CrtcDataPort
    ensures w[1].value * 256 + w[3].value == CellIndex(x, y) < Size
  {
    var offset := y * Width + x;
    assert 0 <= offset < 2000;
    var position: Cell := offset % 0x1_0000;
    assert position == offset;
    var high, low := position / 256 % 256, position % 256;
    assert high == position / 256 < 8;
    assert high * 256 + low == offset;
    [ PortWrite(CrtcIndexPort, CursorHighRegister),
      PortWrite(CrtcDataPort, high),
      PortWrite(CrtcIndexPort, CursorLowRegister),
      PortWrite(CrtcDataPort, low) ]
  }

  /** The cursor location the hardware reads back from the two data bytes. */
  function OffsetOf(w: seq<PortWrite>): int
    requires |w| == 4
  {
    w[1].value * 256 + w[3].value
  }

  /** For a cursor on the screen the two register bytes give back the
      column and the row. */
  lemma CursorWritesDecode(x: int, y: int)
    requires 0 <= x < Width && 0 <= y < Height
    ensures OffsetOf(CursorWrites(x, y)) == y * Width + x
    ensures OffsetOf(CursorWrites(x, y)) % Width == x
    ensures OffsetOf(CursorWrites(x, y)) / Width == y
  {
    var off := y * Width + x;
    assert off == OffsetOf(CursorWrites(x, y));
    assert off / Width == y && off % Width == x by {
      assert off == Width * y + x && 0 <= x < Width;
    }
  }

  // ---------------------------------------------------------------------
  // clear_screen

  /** Every cell blank. */
  function BlankGrid(): (g: seq<Cell>)
    ensures |g| == Size && forall i :: 0 <= i < Size ==> g[i] == Blank
  {
    seq(Size, _ => Blank)
  }

  /** `clear_screen` of src/kernel.c: blank grid, cursor home, no port I/O. */
  function Clear(s: Screen): (r: Screen)
    ensures Valid(r) && r.out == s.out
    ensures r.x == 0 && r.y == 0
    ensures forall i :: 0 <= i < |r.grid| ==> r.grid[i] == Entry(Space, EntryColor(White, Black))
  {
    BlankIsWhiteSpaceOnBlack();
    Screen(BlankGrid(), 0, 0, s.out)
  }

  /** `clear_screen` of src/kernel/kernel.c: as `Clear`, then the hardware
      cursor is moved to offset 0 as well. */
  function ClearSync(s: Screen): (r: Screen)
    ensures Valid(r) && r.grid == Clear(s).grid
    ensures r.x == 0 && r.y == 0
    ensures r.out == s.out + CursorWrites(0, 0)
    ensures r.out[|s.out| + 1].value == 0 && r.out[|s.out| + 3].value == 0
  {
    var c := Clear(s);
    c.(out := c.out + CursorWrites(c.x, c.y))
  }

  // ---------------------------------------------------------------------
  // scroll

  /** The grid moved up one row, with a blank bottom row. */
  function Scrolled(g: seq<Cell>): (r: seq<Cell>)
    requires |g| == Size
    ensures |r| == Size
    ensures forall i :: 0 <= i < Size - Width ==> r[i] == g[i + Width]
    ensures forall i :: Size - Width <= i < Size ==> r[i] == Blank
  {
    g[Width..] + seq(Width, _ => Blank)
  }

  /** `scroll`: grid up one row and the cursor one row up. */
  function Scroll(s: Screen): (r: Screen)
    requires |s.grid| == Size
    ensures r.grid == Scrolled(s.grid) && r.x == s.x && r.y == s.y - 1 && r.out == s.out
  {
    s.(grid := Scrolled(s.grid), y := s.y - 1)
  }

  // ---------------------------------------------------------------------
  // putchar

  /** `(x + 4) & ~(4 - 1)`, the tab rule, on the column: the next multiple
      of 4 strictly after `x`, so the cursor never moves backwards. */
  function TabStop(x: int): (r: int)
    requires 0 <= x < Width
    ensures r % 4 == 0 && x < r <= x + 4
  {
    // `& ~(4 - 1)`, see `ClearLowTwoBits`
    (x + 4) - (x + 4) % 4
  }

  /** A byte `putchar` stores in the grid rather than interprets. */
  predicate Ordinary(c: byte)
  {
    c != Newline && c != CarriageReturn && c != Backspace && c != Tab
  }

  /** Index of the cell at column `x` of row `y`. */
  function CellIndex(x: int, y: int): int
  {
    y * Width + x
  }

  /** The first step of `putchar`: what the byte itself does to the grid
      and the cursor, before the column and row are brought back on screen. */
  function Interpret(s: Screen, c: byte, color: byte): (r: Screen)
    requires Valid(s)
    ensures |r.grid| == Size && 0 <= r.x <= Width && s.y <= r.y <= s.y + 1 && r.out == s.out
  {
    var here := CellIndex(s.x, s.y);
    if c == Newline then s.(x := 0, y := s.y + 1)
    else if c == CarriageReturn then s.(x := 0)
    else if c == Backspace then
      (if s.x > 0 then s.(grid := s.grid[here - 1 := Entry(Space, color)], x := s.x - 1) else s)
    else if c == Tab then s.(x := TabStop(s.x))
    else s.(grid := s.grid[here := Entry(c, color)], x := s.x + 1)
  }

  /** The column wrap of `putchar`: at or past column 80, go to column 0 of
      the next row. */
  function Wrap(s: Screen): (r: Screen)
    ensures r.grid == s.grid && r.out == s.out
    ensures 0 <= s.x <= Width ==> 0 <= r.x < Width && s.y <= r.y <= s.y + 1
  {
    if s.x >= Width then s.(x := 0, y := s.y + 1) else s
  }

  /** The scroll check of `putchar`: at or past row 25, scroll once. */
  function ScrollIfNeeded(s: Screen): (r: Screen)
    requires |s.grid| == Size
    ensures |r.grid| == Size && r.x == s.x && r.out == s.out
    ensures 0 <= s.y <= Height ==> 0 <= r.y < Height
  {
    if s.y >= Height then Scroll(s) else s
  }

  /** `putchar(c, color)`: interpret or store the byte, wrap the column at
      80, scroll once if the row reached 25, then sync the hardware cursor.
      Every byte keeps the cursor on the screen. */
  function PutChar(s: Screen, c: byte, color: byte): (r: Screen)
    requires Valid(s)
    ensures Valid(r)
    ensures r.out == s.out + CursorWrites(r.x, r.y)
  {
    var settled := ScrollIfNeeded(Wrap(Interpret(s, c, color)));
    settled.(out := settled.out + CursorWrites(settled.x, settled.y))
  }

  /** An ordinary byte lands in the cursor's cell and the cursor moves one
      column right, or to the start of the next row from column 79; only at
      the bottom-right corner does the grid scroll, once. */
  lemma PutCharOrdinary(s: Screen, c: byte, color: byte)
    requires Valid(s) && Ordinary(c)
    ensures var written := s.grid[CellIndex(s.x, s.y) := Entry(c, color)];
            var r := PutChar(s, c, color);
            if s.x < Width - 1 then r.grid == written && r.x == s.x + 1 && r.y == s.y
            else if s.y < Height - 1 then r.grid == written && r.x == 0 && r.y == s.y + 1
            else r.grid == Scrolled(written) && r.x == 0 && r.y == Height - 1
  {
  }

  /** The common case of `PutCharOrdinary`: away from the last column the
      byte is stored and the cursor moves one column right. */
  lemma PutCharStores(s: Screen, c: byte, color: byte)
    requires Valid(s) && Ordinary(c) && s.x < Width - 1
    ensures var r := PutChar(s, c, color);
            r.grid == s.grid[CellIndex(s.x, s.y) := Entry(c, color)] && r.x == s.x + 1 && r.y == s.y
  {
  }

  /** A tab never writes a cell and never moves the cursor backwards: it
      goes to the next multiple of 4, and from column 76 on that is past the
      edge, so it wraps to the next row (scrolling at the bottom). */
  lemma PutCharTab(s: Screen, color: byte)
    requires Valid(s)
    ensures var r := PutChar(s, Tab, color);
            if s.x < Width - 4 then
              r.grid == s.grid && r.y == s.y && r.x % 4 == 0 && s.x < r.x <= s.x + 4
            else if s.y < Height - 1 then r.grid == s.grid && r.x == 0 && r.y == s.y + 1
            else r.grid == Scrolled(s.grid) && r.x == 0 && r.y == Height - 1
  {
    var t := TabStop(s.x);
    assert s.x < Width - 4 <==> t < Width;
  }

  /** Backspace at column 0 changes nothing but the port log; elsewhere it
      moves one column left and blanks that cell in the given colour. */
  lemma PutCharBackspace(s: Screen, color: byte)
    requires Valid(s)
    ensures var r := PutChar(s, Backspace, color);
            if s.x == 0 then r.grid == s.grid && r.x == s.x && r.y == s.y
            else r.grid == s.grid[CellIndex(s.x - 1, s.y) := Entry(Space, color)]
                 && r.x == s.x - 1 && r.y == s.y
  {
  }

  /** Newline goes to the start of the next row, scrolling once from the
      last row; carriage return goes to column 0 of the same row.  Neither
      stores the byte. */
  lemma PutCharLineControls(s: Screen, color: byte)
    requires Valid(s)
    ensures var r := PutChar(s, Newline, color);
            r.x == 0 && if s.y < Height - 1 then r.grid == s.grid && r.y == s.y + 1
                        else r.grid == Scrolled(s.grid) && r.y == Height - 1
    ensures var r := PutChar(s, CarriageReturn, color);
            r.grid == s.grid && r.x == 0 && r.y == s.y
  {
  }

  // ---------------------------------------------------------------------
  // strlen, print, print_at

  /** `strlen`: the index of the first NUL byte. */
  function CStrLen(str: seq<byte>): (n: nat)
    requires 0 in str
    ensures n < |str| && str[n] == 0
    ensures forall i :: 0 <= i < n ==> str[i] != 0
  {
    if str[0] == 0 then 0 else 1 + CStrLen(str[1..])
  }

  /** `putchar` applied to each byte of `t`, first to last. */
  function PutAll(s: Screen, t: seq<byte>, color: byte): (r: Screen)
    requires Valid(s)
    ensures Valid(r)
    decreases |t|
  {
    if t == [] then s
    else PutChar(PutAll(s, t[..|t| - 1], color), t[|t| - 1], color)
  }

  /** `print`: `putchar` on every byte before the terminating NUL. */
  function Print(s: Screen, str: seq<byte>, color: byte): (r: Screen)
    requires Valid(s) && 0 in str
    ensures Valid(r)
  {
    PutAll(s, str[..CStrLen(str)], color)
  }

  /** `print_at`: print from `(col, row)`, then put the cursor back where it
      was and sync the hardware cursor to it.  The position is restored even
      when the printing scrolled the grid. */
  function PrintAt(s: Screen, str: seq<byte>, col: int, row: int, color: byte): (r: Screen)
    requires Valid(s) && 0 in str
    requires 0 <= col < Width && 0 <= row < Height
    ensures Valid(r)
    ensures r.x == s.x && r.y == s.y
    ensures |r.out| >= 4 && r.out[|r.out| - 4..] == CursorWrites(s.x, s.y)
  {
    var printed := Print(s.(x := col, y := row), str, color);
    var r := Screen(printed.grid, s.x, s.y, printed.out + CursorWrites(s.x, s.y));
    assert r.out[|r.out| - 4..] == CursorWrites(s.x, s.y);
    r
  }

  // ---------------------------------------------------------------------
  // Writing runs of ordinary bytes

  /** The cells a run of bytes becomes in one colour. */
  function Rendered(t: seq<byte>, color: byte): (r: seq<Cell>)
    ensures |r| == |t|
    ensures forall i :: 0 <= i < |t| ==> CharOf(r[i]) == t[i] && ColorOf(r[i]) == color
  {
    seq(|t|, i requires 0 <= i < |t| => Entry(t[i], color))
  }

  predicate AllOrdinary(t: seq<byte>)
  {
    forall i :: 0 <= i < |t| ==> Ordinary(t[i])
  }

  /** Storing one more cell right after a run extends the run. */
  lemma ExtendRun(g: seq<Cell>, at: nat, front: seq<byte>, c: byte, color: byte)
    requires at + |front| < |g|
    ensures (g[..at] + Rendered(front, color) + g[at + |front|..])[at + |front| := Entry(c, color)]
            == g[..at] + Rendered(front + [c], color) + g[at + |front| + 1..]
  {
    var k := |front|;
    var t := front + [c];
    var lhs := (g[..at] + Rendered(front, color) + g[at + k..])[at + k := Entry(c, color)];
    var rhs := g[..at] + Rendered(t, color) + g[at + k + 1..];
    forall i | 0 <= i < |g| ensures lhs[i] == rhs[i] {
      if at <= i < at + k {
        assert Rendered(front, color)[i - at] == Rendered(t, color)[i - at];
      } else if i == at + k {
        EntryDecodes(c, color);
        EntryCovers(Rendered(t, color)[k]);
      }
    }
  }

  /** A run of ordinary bytes that fits before column 80 lands in the
      cursor's row, starting at the cursor, and leaves the cursor just after
      it; no other cell changes. */
  lemma {:induction false} PutAllWithinRow(s: Screen, t: seq<byte>, color: byte)
    requires Valid(s) && AllOrdinary(t) && s.x + |t| < Width
    ensures var r := PutAll(s, t, color);
            var at := CellIndex(s.x, s.y);
            r.x == s.x + |t| && r.y == s.y &&
            r.grid == s.grid[..at] + Rendered(t, color) + s.grid[at + |t|..]
  {
    var at := CellIndex(s.x, s.y);
    if t == [] {
      assert s.grid[..at] + [] + s.grid[at..] == s.grid;
    } else {
      var k := |t| - 1;
      var front := t[..k];
      assert front + [t[k]] == t;
      PutAllWithinRow(s, front, color);
      var mid := PutAll(s, front, color);
      PutCharStores(mid, t[k], color);
      ExtendRun(s.grid, at, front, t[k], color);
    }
  }

  /** Eighty ordinary bytes from the start of a row other than the last fill
      that row exactly and leave the cursor at the start of the next row,
      without scrolling. */
  lemma FullRowNoScroll(s: Screen, t: seq<byte>, color: byte)
    requires Valid(s) && s.x == 0 && s.y < Height - 1
    requires |t| == Width && AllOrdinary(t)
    ensures var r := PutAll(s, t, color);
            var at := CellIndex(0, s.y);
            r.x == 0 && r.y == s.y + 1 &&
            r.grid == s.grid[..at] + Rendered(t, color) + s.grid[at + Width..]
  {
    var k := Width - 1;
    var front := t[..k];
    assert front + [t[k]] == t;
    PutAllWithinRow(s, front, color);
    PutCharOrdinary(PutAll(s, front, color), t[k], color);
    ExtendRun(s.grid, CellIndex(0, s.y), front, t[k], color);
  }

  /** Eighty ordinary bytes from the start of the last row scroll exactly
      once: the grid is the old grid with its last row replaced, moved up one
      row, so the old second row is now the first and the bytes are in row 23;
      the cursor ends at the start of the last row. */
  lemma FullRowScroll(s: Screen, t: seq<byte>, color: byte)
    requires Valid(s) && s.x == 0 && s.y == Height - 1
    requires |t| == Width && AllOrdinary(t)
    ensures var r := PutAll(s, t, color);
            var last := CellIndex(0, Height - 1);
            r.x == 0 && r.y == Height - 1 &&
            r.grid == Scrolled(s.grid[..last] + Rendered(t, color)) &&
            r.grid[..Width] == s.grid[Width..2 * Width] &&
            r.grid[CellIndex(0, Height - 2)..last] == Rendered(t, color)
  {
    var k := Width - 1;
    var last := CellIndex(0, Height - 1);
    var front := t[..k];
    assert front + [t[k]] == t;
    PutAllWithinRow(s, front, color);
    PutCharOrdinary(PutAll(s, front, color), t[k], color);
    ExtendRun(s.grid, last, front, t[k], color);
    var filled := s.grid[..last] + Rendered(t, color);
    assert s.grid[..last] + Rendered(t, color) + s.grid[last + Width..] == filled;
    var r := Scrolled(filled);
    assert r[..Width] == s.grid[Width..2 * Width];
    assert r[CellIndex(0, Height - 2)..last] == Rendered(t, color);
  }

  /** `print_at` of a string of ordinary bytes that fits in its row shows the
      string at `(col, row)`, changes no other cell and leaves the cursor
      where it was. */
  lemma PrintAtWithinRow(s: Screen, str: seq<byte>, col: int, row: int, color: byte)
    requires Valid(s) && 0 in str
    requires 0 <= col < Width && 0 <= row < Height
    requires AllOrdinary(str[..CStrLen(str)]) && col + CStrLen(str) < Width
    ensures var r := PrintAt(s, str, col, row, color);
            var text := str[..CStrLen(str)];
            var at := CellIndex(col, row);
            r.x == s.x && r.y == s.y &&
            r.grid == s.grid[..at] + Rendered(text, color) + s.grid[at + |text|..]
  {
    PutAllWithinRow(s.(x := col, y := row), str[..CStrLen(str)], color);
  }
}
