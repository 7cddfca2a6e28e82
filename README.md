# VGA text-mode terminal and scan-code translator, in Dafny

This project models the console driver of a small hobby kernel. The kernel
exists in two near-identical copies, `src/kernel.c` and `src/kernel/kernel.c`.
The driver keeps an 80x25 grid of 16-bit cells at the VGA text buffer and a
global cursor `(cursor_x, cursor_y)`. It writes bytes with `putchar`, which
handles newline, carriage return, destructive backspace and a tab rule, wraps
at column 80 and scrolls at row 25. On top of that sit `print`, `print_at`
and `clear_screen`. `update_cursor` sends the cursor offset to the CRT
Controller's Cursor Location High and Low registers. `get_key` polls the 8042
keyboard controller and translates IBM PC scan-code-set-1 make codes to a
29-character alphabet. The linear congruential `rand` advances a global seed;
`rainbow_effect` draws on it to fill the grid with random letters, and
`special_effect` paints a band across the top and bottom rows.

The modules follow the driver's layers:

- `Vga` (vga.dfy): the cell and attribute encoders `vga_entry` and
  `vga_entry_color`, their decoders, and the bit-level identities
  (`|`, `<<`, `>>`, `&`) the model replaces by arithmetic.
- `Keyboard` (keyboard.dfy): the scan-code table and `get_key` as a pure
  function of the two bytes the status and data ports return.
- `Console` (console.dfy): the terminal as a value (`Screen`: grid, cursor,
  log of port writes). There is one function per routine and the lemmas
  about what the routines do.
- `Effects` (effects.dfy): `rand`, and the grids that `rainbow_effect` and
  `special_effect` leave behind.
- `Terminal` (terminal.dfy): the driver as the kernel runs it. The grid is an
  `array` rewritten in place. The cursor and the seed are mutable fields, and
  the port writes go to a ghost log. Each method is proved to leave the
  terminal exactly as the matching `Console` or `Effects` function says.

Both copies of the driver share one model. They differ in three ways.
`clear_screen` in `src/kernel.c` does not sync the hardware cursor
(`ClearScreen`), while the copy in `src/kernel/kernel.c` does
(`ClearScreenSync`). The effect routines differ. The port primitives differ:
`__builtin_inb` versus inline-assembly `inb`/`outb`.

Where a description of the driver and its code disagree, the model follows
the code:

- The tab rule `(x + 4) & ~3` always moves the cursor forward, to the next
  multiple of 4 strictly after `x`. It never moves the cursor backward.
- The comment at `src/kernel.c:76` calls register 14 the lower byte. The code
  sends the high byte of the position there, and register 15 gets the low
  byte. The model sends the high byte to register 14, as the code does.

## Model

| member | source | states |
|---|---|---|
| Vga.EntryColor | src/kernel/kernel.c:44-46 | the attribute byte has the foreground in its low nibble and the background in its high nibble |
| Vga.Entry | src/kernel/kernel.c:49-51 | the cell has the character in its low byte and the attribute in its high byte |
| Vga.NibbleOrIsSum | src/kernel.c:38-40 | on nibbles, the bitwise or of `fg` and `bg << 4` equals `fg + 16 * bg` |
| Vga.ByteOrIsSum | src/kernel.c:43-45 | on bytes, the bitwise or of `c` and `color << 8` equals `c + 256 * color` |
| Vga.HighLowBytes | src/kernel.c:78-82 | `(p >> 8) & 0xFF` and `p & 0xFF` are the high and low bytes of a 16-bit position |
| Vga.LowBit | src/kernel.c:172 | `status & 1` is `status % 2` |
| Vga.ClearLowTwoBits | src/kernel.c:118 | `v & ~3` rounds down to a multiple of 4 |
| Vga.EntryDecodes | src/kernel.c:43-45 | decoding an encoded cell gives back the character and the attribute |
| Vga.EntryCovers | src/kernel.c:43-45 | every 16-bit cell is the encoding of its own character and attribute |
| Vga.EntryInjective | src/kernel.c:43-45 | two encoded cells are equal exactly when their characters and attributes are |
| Vga.EntryColorDecodes | src/kernel.c:38-40 | decoding an attribute gives back the foreground and the background |
| Vga.EntryColorCovers | src/kernel.c:38-40 | every attribute byte is the packing of its own two nibbles |
| Vga.BlankIsWhiteSpaceOnBlack | src/kernel.c:57-58 | the blank cell `vga_entry(' ', white on black)` is 0x0F20 |
| Keyboard.Translate | src/kernel.c:178-209 | a byte gives a non-zero character exactly when it is one of the 29 known make codes; letters map into 'a'..'z'; 0x39 gives space, 0x1C newline, 0x01 Escape |
| Keyboard.TranslateThenCodeOf | src/kernel.c:178-209 | every known code is recovered from its character by the inverse table |
| Keyboard.CodeOfThenTranslate | src/kernel.c:178-209 | every lowercase letter, space, newline and Escape is produced by exactly the key the inverse table names |
| Keyboard.TranslateInjective | src/kernel/kernel.c:186-217 | no two scan codes give the same non-zero character |
| Keyboard.GetKey | src/kernel/kernel.c:177-218 | the data port is read exactly when status bit 0 is set; with the bit clear the result is 0; otherwise it is the translation of the data byte; a non-zero result means the port was read and held a known code |
| Console.CursorWrites | src/kernel/kernel.c:73-81 | exactly four writes: (0x3D4, 14), (0x3D5, high), (0x3D4, 15), (0x3D5, low); for an on-screen cursor `high * 256 + low` is `y * 80 + x`, below 2000, nothing lost to 16 bits |
| Console.CursorWritesDecode | src/kernel.c:69-83 | the offset rebuilt from the two data bytes gives back the column (`% 80`) and the row (`/ 80`) |
| Console.Clear | src/kernel.c:56-66 | every cell becomes `vga_entry(' ', white on black)`, the cursor goes to (0, 0), no port is written |
| Console.ClearSync | src/kernel/kernel.c:84-95 | the same grid and cursor as `Clear`, then the four cursor writes for offset 0, both data bytes 0 |
| Console.Scrolled | src/kernel.c:90-98 | cell i becomes old cell i + 80 for i < 1920, cells 1920..1999 become blank |
| Console.Scroll | src/kernel.c:86-101 | the grid scrolls, `cursor_y` drops by exactly 1, `cursor_x` and the port log are unchanged |
| Console.TabStop | src/kernel.c:116-118 | the tab column is a multiple of 4, strictly greater than the old column and at most 4 past it |
| Console.Interpret | src/kernel.c:105-122 | the byte's own effect keeps the grid size, puts the column in 0..80, moves the row down by at most 1 and writes no port |
| Console.Wrap | src/kernel.c:124-128 | the grid and the port log are unchanged; a column in 0..80 comes back to 0..79, the row moving down by at most 1 |
| Console.ScrollIfNeeded | src/kernel.c:130-133 | the grid keeps its size, the column and the port log are unchanged, and a row in 0..25 comes back to 0..24 |
| Console.PutChar | src/kernel.c:104-136 | every byte leaves the cursor on the screen, and the last four port writes are the cursor writes for the new position |
| Console.PutCharOrdinary | src/kernel.c:119-133 | an ordinary byte is stored at `y * 80 + x`; the cursor goes to (x + 1, y), or to (0, y + 1) from column 79; the grid scrolls only from the bottom-right corner, once |
| Console.PutCharStores | src/kernel.c:119-122 | away from the last column, an ordinary byte changes only its own cell and moves the cursor one column right |
| Console.PutCharTab | src/kernel.c:116-133 | a tab writes no cell; before column 76 it goes to the next multiple of 4 on the same row, otherwise it wraps to (0, y + 1), scrolling once on the last row |
| Console.PutCharBackspace | src/kernel.c:111-115 | at column 0 backspace changes neither grid nor cursor; elsewhere it moves to x - 1 and blanks that cell in the given colour |
| Console.PutCharLineControls | src/kernel/kernel.c:118-145 | newline goes to (0, y + 1), scrolling once from row 24 and ending at (0, 24); carriage return goes to (0, y); neither stores the byte |
| Console.CStrLen | src/kernel.c:48-53 | the length is the index of the first NUL byte |
| Console.PutAll | src/kernel.c:139-143 | `putchar` on a run of bytes, in order, keeps the cursor on the screen |
| Console.Print | src/kernel/kernel.c:151-155 | `print` keeps the cursor on the screen; it is `PutAll` on the bytes before the first NUL (`CStrLen`) |
| Console.PrintAt | src/kernel.c:146-162 | the cursor ends exactly where it was before the call, even after a scroll, and the last four port writes are the cursor writes for that position |
| Console.PutAllWithinRow | src/kernel.c:139-143 | a run of ordinary bytes that fits before column 80 lands in the cursor's row from the cursor on, changes no other cell, and leaves the cursor just after it |
| Console.FullRowNoScroll | src/kernel/kernel.c:132-145 | 80 ordinary bytes from (0, r) with r < 24 fill row r exactly and end at (0, r + 1) without scrolling |
| Console.FullRowScroll | src/kernel/kernel.c:98-113 | 80 ordinary bytes from (0, 24) scroll exactly once: the old row 1 is now row 0, the bytes are in row 23, and the cursor ends at (0, 24) |
| Console.PrintAtWithinRow | src/kernel/kernel.c:158-174 | `print_at` of ordinary bytes that fit in the row shows them at (col, row), changes no other cell and restores the cursor |
| Effects.MaskLow31 | src/kernel.c:223 | `v & 0x7fffffff` keeps the low 31 bits |
| Effects.NextSeed | src/kernel.c:222-225 | one step of `rand` is below 2^31 |
| Effects.NextSeedIsLinearCongruential | src/kernel/kernel.c:230-233 | after the 32-bit wrap-around and the mask, a step of `rand` is `(seed * 1103515245 + 12345) mod 2^31` |
| Effects.SeedAfter | src/kernel.c:220-225 | after at least one call of `rand` the seed is below 2^31 |
| Effects.SeedAfterAdds | src/kernel.c:222-225 | m calls of `rand` after n calls leave the seed that n + m calls leave |
| Effects.RainbowCell | src/kernel.c:232-237 | the cell at column i, row j is an upper-case letter in foreground `(i + j) % 15 + 1` on black |
| Effects.RainbowGrid | src/kernel.c:228-239 | cell `j * 80 + i` holds the letter of the (25 i + j + 1)-th call of `rand`, in foreground `(i + j) % 15 + 1` on black |
| Effects.RainbowCellsAreLetters | src/kernel.c:232-237 | every rainbow cell is an upper-case letter in a colour that is never black, on black |
| Effects.BandCell | src/kernel/kernel.c:239-241 | the band cell at column i is '=' in foreground `i % 15 + 1` on black |
| Effects.SpecialGrid | src/kernel/kernel.c:236-242 | cells i and 1920 + i become '=' with foreground `i % 15 + 1` on black; all other cells are unchanged |
| Terminal.Strlen | src/kernel/kernel.c:54-59 | the loop stops at the first NUL and returns its index |
| Terminal.CellOfIndex | src/kernel.c:237 | the index `j * 80 + i` of an on-screen position is inside the grid and gives back i and j |
| Terminal.RainbowStep | src/kernel.c:229-237 | the cell written at column i, row j is the rainbow cell made from the next seed |
| Terminal.Terminal.constructor | src/kernel.c:7-15 | the terminal starts with the given screen, the cursor at (0, 0) and no port written; the seed starts at 123456789, the initial value of `seed` at src/kernel.c:220 |
| Terminal.Terminal.Outb | src/kernel/kernel.c:62-64 | one write is appended to the port log |
| Terminal.Terminal.UpdateCursor | src/kernel.c:69-83 | the port log grows by exactly the cursor writes for the current position |
| Terminal.Terminal.ClearScreen | src/kernel.c:56-66 | the in-place loop leaves the terminal equal to `Console.Clear` of the old one |
| Terminal.Terminal.ClearScreenSync | src/kernel/kernel.c:84-95 | the terminal ends equal to `Console.ClearSync` of the old one |
| Terminal.Terminal.Scroll | src/kernel.c:86-101 | the forward copy and the blanking loop leave the grid equal to `Scrolled` of the old grid, and `cursor_y` one less |
| Terminal.Terminal.PutChar | src/kernel/kernel.c:116-148 | the terminal ends equal to `Console.PutChar` of the old one |
| Terminal.Terminal.Print | src/kernel.c:139-143 | the terminal ends equal to `Console.Print` of the old one |
| Terminal.Terminal.PrintAt | src/kernel/kernel.c:158-174 | the terminal ends equal to `Console.PrintAt` of the old one, with the cursor restored |
| Terminal.Terminal.Rand | src/kernel/kernel.c:230-233 | the seed advances by one `NextSeed` step and is returned |
| Terminal.Terminal.RainbowEffect | src/kernel.c:228-241 | the nested loops leave the grid equal to `RainbowGrid` of the old seed, after 2000 calls of `rand` |
| Terminal.Terminal.SpecialEffect | src/kernel/kernel.c:236-246 | the loop leaves the grid equal to `SpecialGrid` of the old grid; the cursor and the seed are untouched |

## Left out

- `main` (src/kernel.c:244-289, src/kernel/kernel.c:249-286) is an endless loop that polls the keyboard. Its parts are modelled one by one, but not the loop itself.
- `sleep` is a busy-wait that only takes time, so `RainbowEffect` and `SpecialEffect` end without it.
- The inline-assembly `outb`, `inb` and `__builtin_inb` are hardware calls. Port writes become a ghost log of `(port, byte)` pairs. Port reads become the inputs of `Keyboard.GetKey`, which records whether the data port was read.
- The cast of 0xB8000 to a pointer is memory-mapped hardware. The grid is an array of 2000 cells.
- Signed versus unsigned `char` is not modelled: bytes are 0..255. A release code of 0x80 or more gives 0 either way.
- Console.PutChar: requires the cursor on the screen. The C code does not check this, but every routine keeps the cursor on the screen, as the model proves.
- Terminal.Terminal.PutChar: requires the cursor on the screen, as `Console.PutChar` does.
- Console.PrintAt: requires `0 <= col < 80` and `0 <= row < 25`. The C code does not check them, and other values would write outside the grid.
- Terminal.Terminal.PrintAt: requires the same in-range `col` and `row` as `Console.PrintAt`.
- Terminal.Terminal.Print: takes `strlen` once before the loop. The C loop calls it on every iteration, but nothing changes the string, so the result is the same.
- Keyboard.Translate: the known codes are written out as a 29-element set. The count of 29 is not proved as a set cardinality, because that proof is too slow for the verifier. Injectivity and the inverse table carry the same content.
- `cursor_x`, `cursor_y` and the 16-bit `position` in `update_cursor` are unbounded integers. On the screen they never come near their C widths, and `position` is reduced modulo 2^16 as in the code.
