/** The driver as the kernel runs it: one terminal whose grid is rewritten in
    place and whose cursor lives in two mutable fields.  The memory-mapped
    grid at 0xB8000 is an array of 2000 cells; the I/O ports the driver
    writes are a ghost log of `(port, byte)` pairs.  Every method is proved to
    leave the terminal exactly as the matching function of module Console or
    Effects says, which is where the properties of the driver are proved.
 */
module Terminal {
  import opened Vga
  import opened Console
  import opened Effects

  /** `strlen`: count bytes up to the first NUL. */
  method Strlen(str: seq<byte>) returns (len: nat)
    requires 0 in str
    ensures len < |str| && str[len] == 0
    ensures forall i :: 0 <= i < len ==> str[i] != 0
    ensures len == CStrLen(str)
  {
    len := 0;
    while str[len] != 0
      invariant len <= CStrLen(str)
      invariant forall i :: 0 <= i < len ==> str[i] != 0
      decreases CStrLen(str) - len
    {
      len := len + 1;
    }
  }

  class Terminal {
    /** The text grid, `video_memory` seen as `unsigned short[2000]`. */
    const grid: array<Cell>
    /** `cursor_x` and `cursor_y`. */
    var cursorX: int
    var cursorY: int
    /** Every byte written to an I/O port so far, oldest first. */
    ghost var out: seq<PortWrite>
    /** `seed` of `rand`. */
    var seed: u32

    /** The grid has all its cells and the cursor is on the screen. */
    ghost predicate Valid()
      reads this
    {
      grid.Length == Size && 0 <= cursorX < Width && 0 <= cursorY < Height
    }

    /** The terminal as a value. */
    ghost function State(): Screen
      reads this, grid
    {
      Screen(grid[..], cursorX, cursorY, out)
    }

    /** The terminal at boot: whatever the screen held, the cursor at the
        top left, no port written yet, the generator at its initial seed. */
    constructor (screen: seq<Cell>)
      requires |screen| == Size
      ensures Valid() && fresh(grid)
      ensures State() == Screen(screen, 0, 0, []) && seed == InitialSeed
    {
      grid := new Cell[Size](i requires 0 <= i < Size => screen[i]);
      cursorX, cursorY := 0, 0;
      out := [];
      seed := InitialSeed;
      new;
      assert grid[..] == screen;
    }

    /** `outb(port, value)`. */
    method Outb(port: int, value: byte)
      modifies this`out
      ensures out == old(out) + [PortWrite(port, value)]
    {
      out := out + [PortWrite(port, value)];
    }

    /** `update_cursor`: send the cursor offset to the CRT Controller. */
    method UpdateCursor()
      requires Valid()
      modifies this`out
      ensures out == old(out) + CursorWrites(cursorX, cursorY)
    {
      var position: Cell := (cursorY * Width + cursorX) % 0x1_0000;
      Outb(CrtcIndexPort, CursorHighRegister);
      Outb(CrtcDataPort, position / 256 % 256);
      Outb(CrtcIndexPort, CursorLowRegister);
      Outb(CrtcDataPort, position % 256);
    }

    /** `clear_screen` of src/kernel.c: every cell blank, cursor home; the
        hardware cursor is not moved. */
    method ClearScreen()
      requires Valid()
      modifies this`cursorX, this`cursorY, grid
      ensures Valid() && State() == Clear(old(State()))
    {
      var empty := Entry(Space, EntryColor(White, Black));
      BlankIsWhiteSpaceOnBlack();
      var i := 0;
      while i < Width * Height
        invariant 0 <= i <= Size
        invariant forall k :: 0 <= k < i ==> grid[k] == Blank
        modifies grid
      {
        grid[i] := empty;
        i := i + 1;
      }
      cursorX := 0;
      cursorY := 0;
      assert grid[..] == BlankGrid();
    }

    /** `clear_screen` of src/kernel/kernel.c: as `ClearScreen`, then the
        hardware cursor is synced to offset 0. */
    method ClearScreenSync()
      requires Valid()
      modifies this`cursorX, this`cursorY, this`out, grid
      ensures Valid() && State() == ClearSync(old(State()))
    {
      ClearScreen();
      UpdateCursor();
    }

    /** `scroll`: copy rows 1..24 onto rows 0..23 front to back, blank the
        last row, and move the cursor up a row.  The cursor may be one row
        below the screen when `putchar` calls this. */
    method Scroll()
      requires grid.Length == Size
      modifies this`cursorY, grid
      ensures grid[..] == Scrolled(old(grid[..]))
      ensures cursorY == old(cursorY) - 1
    {
      var empty := Entry(Space, EntryColor(White, Black));
      BlankIsWhiteSpaceOnBlack();
      var i := 0;
      while i < (Height - 1) * Width
        invariant 0 <= i <= Size - Width
        invariant forall k :: 0 <= k < i ==> grid[k] == old(grid[k + Width])
        invariant forall k :: i <= k < Size ==> grid[k] == old(grid[k])
        modifies grid
      {
        grid[i] := grid[i + Width];
        i := i + 1;
      }
      i := (Height - 1) * Width;
      while i < Height * Width
        invariant Size - Width <= i <= Size
        invariant forall k :: 0 <= k < Size - Width ==> grid[k] == old(grid[k + Width])
        invariant forall k :: Size - Width <= k < i ==> grid[k] == Blank
        modifies grid
      {
        grid[i] := empty;
        i := i + 1;
      }
      cursorY := cursorY - 1;
      assert grid[..] == Scrolled(old(grid[..]));
    }

    /** `putchar(c, color)`. */
    method PutChar(c: byte, color: byte)
      requires Valid()
      modifies this`cursorX, this`cursorY, this`out, grid
      ensures Valid() && State() == Console.PutChar(old(State()), c, color)
    {
      ghost var start := State();
      if c == Newline {
        cursorX := 0;
        cursorY := cursorY + 1;
      } else if c == CarriageReturn {
        cursorX := 0;
      } else if c == Backspace {
        if cursorX > 0 {
          cursorX := cursorX - 1;
          grid[cursorY * Width + cursorX] := Entry(Space, color);
        }
      } else if c == Tab {
        cursorX := TabStop(cursorX);
      } else {
        grid[cursorY * Width + cursorX] := Entry(c, color);
        cursorX := cursorX + 1;
      }
      ghost var interpreted := State();
      assert interpreted == Interpret(start, c, color);
      if cursorX >= Width {
        cursorX := 0;
        cursorY := cursorY + 1;
      }
      ghost var wrapped := State();
      assert wrapped == Wrap(interpreted);
      if cursorY >= Height {
        Scroll();
      }
      assert State() == ScrollIfNeeded(wrapped);
      UpdateCursor();
    }

    /** `print(str, color)`: `putchar` on each byte before the NUL.  The
        loop condition re-evaluates `strlen(str)`; nothing changes `str`, so
        its length is taken once. */
    method Print(str: seq<byte>, color: byte)
      requires Valid() && 0 in str
      modifies this`cursorX, this`cursorY, this`out, grid
      ensures Valid() && State() == Console.Print(old(State()), str, color)
    {
      var n := Strlen(str);
      var i := 0;
      while i < n
        invariant 0 <= i <= n
        invariant Valid() && State() == PutAll(old(State()), str[..i], color)
      {
        PutChar(str[i], color);
        assert str[..i + 1][..i] == str[..i];
        i := i + 1;
      }
    }

    /** `print_at(str, col, row, color)`: save the cursor, print from
        `(col, row)`, restore the cursor and sync the hardware cursor. */
    method PrintAt(str: seq<byte>, col: int, row: int, color: byte)
      requires Valid() && 0 in str
      requires 0 <= col < Width && 0 <= row < Height
      modifies this`cursorX, this`cursorY, this`out, grid
      ensures Valid() && State() == Console.PrintAt(old(State()), str, col, row, color)
      ensures cursorX == old(cursorX) && cursorY == old(cursorY)
    {
      var oldX, oldY := cursorX, cursorY;
      cursorX, cursorY := col, row;
      Print(str, color);
      cursorX, cursorY := oldX, oldY;
      UpdateCursor();
    }

    /** `rand`. */
    method Rand() returns (r: u32)
      modifies this`seed
      ensures seed == NextSeed(old(seed)) && r == seed
    {
      seed := NextSeed(seed);
      r := seed;
    }

    /** `rainbow_effect` of src/kernel.c, without its closing `sleep(1)`:
        column by column, row by row, a random upper-case letter in a colour
        that depends on the position.  The cursor is not touched. */
    method RainbowEffect()
      requires Valid()
      modifies this`seed, grid
      ensures Valid() && grid[..] == RainbowGrid(old(seed))
      ensures seed == SeedAfter(old(seed), Size)
    {
      ghost var g := RainbowGrid(seed);
      ghost var start := seed;
      var i := 0;
      while i < Width
        invariant 0 <= i <= Width
        invariant seed == SeedAfter(start, i * Height)
        invariant forall k :: 0 <= k < Size && k % Width < i ==> grid[k] == g[k]
      {
        var j := 0;
        while j < Height
          invariant 0 <= j <= Height
          invariant seed == SeedAfter(start, i * Height + j)
          invariant forall k :: 0 <= k < Size && (k % Width < i || (k % Width == i && k / Width < j)) ==> grid[k] == g[k]
        {
          var colorValue := (i + j) % 15 + 1;
          var color := EntryColor(colorValue, Black);
          var r := Rand();
          var c := r % 26 + 'A' as int;
          RainbowStep(start, i, j);
          grid[j * Width + i] := Entry(c, color);
          forall k | 0 <= k < Size && (k % Width < i || (k % Width == i && k / Width < j + 1))
            ensures grid[k] == g[k]
          {
            if k % Width == i && k / Width == j {
              assert k == j * Width + i;
            }
          }
          j := j + 1;
        }
        i := i + 1;
      }
      assert grid[..] == g;
    }

    /** `special_effect` of src/kernel/kernel.c, without its closing
        `sleep(1)`: the band of `'='` across the top and bottom rows. */
    method SpecialEffect()
      requires Valid()
      modifies grid
      ensures Valid() && grid[..] == SpecialGrid(old(grid[..]))
    {
      ghost var g := SpecialGrid(grid[..]);
      var i := 0;
      while i < Width
        invariant 0 <= i <= Width
        invariant forall k :: 0 <= k < Size && (k < i || Size - Width <= k < Size - Width + i) ==> grid[k] == g[k]
        invariant forall k :: 0 <= k < Size && !(k < i || Size - Width <= k < Size - Width + i) ==> grid[k] == old(grid[k])
      {
        var cell := BandCell(i);
        grid[i] := cell;
        grid[Width * (Height - 1) + i] := cell;
        i := i + 1;
      }
      assert grid[..] == g;
    }
  }

  /** The cell at column `i`, row `j` is the one at `j * 80 + i`, and the
      rainbow cell there is the one made from the next seed. */
  lemma RainbowStep(start: u32, i: int, j: int)
    requires 0 <= i < Width && 0 <= j < Height
    ensures 0 <= j * Width + i < Size
    ensures (j * Width + i) % Width == i && (j * Width + i) / Width == j
    ensures SeedAfter(start, i * Height + j + 1) == NextSeed(SeedAfter(start, i * Height + j))
    ensures RainbowGrid(start)[j * Width + i] ==
      Entry(NextSeed(SeedAfter(start, i * Height + j)) % 26 + 'A' as int, EntryColor((i + j) % 15 + 1, Black))
  {
    CellOfIndex(i, j);
  }

  /** Column and row of the cell at `j * 80 + i`. */
  lemma CellOfIndex(i: int, j: int)
    requires 0 <= i < Width && 0 <= j < Height
    ensures 0 <= j * Width + i < Size
    ensures (j * Width + i) % Width == i && (j * Width + i) / Width == j
  {
  }
}
