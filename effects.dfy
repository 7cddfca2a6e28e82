/** The decorative routines that repaint the grid: the pseudo-random
    generator `rand`, the full-screen `rainbow_effect` of src/kernel.c and the
    top-and-bottom-row `special_effect` of src/kernel/kernel.c.  Each is given
    here as the grid (and seed) it leaves behind; the class in module
    Terminal runs the loops in place and is proved to produce exactly these.
 */
module Effects {
  import opened Vga

  /** A 32-bit `unsigned int`. */
  type u32 = n: int | 0 <= n < 0x1_0000_0000

  /** The value `static unsigned int seed` starts with. */
  const InitialSeed: u32 := 123456789

  /** `v & 0x7fffffff` keeps the low 31 bits. */
  lemma MaskLow31(v: bv32)
    ensures v & 0x7fff_ffff == v % 0x8000_0000
  {
  }

  /** Reducing modulo 2^32 first does not change a value modulo 2^31. */
  lemma WrapThenMask(z: int)
    ensures z % 0x1_0000_0000 % 0x8000_0000 == z % 0x8000_0000
  {
    var q := z / 0x1_0000_0000;
    var m := z % 0x1_0000_0000;
    assert z == 0x8000_0000 * (2 * q) + m;
    assert m == 0x8000_0000 * (m / 0x8000_0000) + m % 0x8000_0000;
    assert z == 0x8000_0000 * (2 * q + m / 0x8000_0000) + m % 0x8000_0000;
  }

  /** One step of `rand`: `seed * 1103515245 + 12345` wrapped to 32 bits,
      then `& 0x7fffffff` (see `MaskLow31`). */
  function NextSeed(seed: u32): (r: u32)
    ensures r < 0x8000_0000
  {
    (seed * 1103515245 + 12345) % 0x1_0000_0000 % 0x8000_0000
  }

  /** The 32-bit wrap-around does not matter in the end: a step of `rand` is
      the linear congruential step modulo 2^31. */
  lemma NextSeedIsLinearCongruential(seed: u32)
    ensures NextSeed(seed) == (seed * 1103515245 + 12345) % 0x8000_0000
  {
    WrapThenMask(seed * 1103515245 + 12345);
  }

  /** The seed after `n` calls of `rand`. */
  function SeedAfter(seed: u32, n: nat): (r: u32)
    ensures n > 0 ==> r < 0x8000_0000
  {
    if n == 0 then seed else NextSeed(SeedAfter(seed, n - 1))
  }

  /** Calls of `rand` compose: `m` calls after `n` calls are `n + m` calls. */
  lemma {:induction false} SeedAfterAdds(seed: u32, n: nat, m: nat)
    ensures SeedAfter(SeedAfter(seed, n), m) == SeedAfter(seed, n + m)
  {
    if m > 0 {
      SeedAfterAdds(seed, n, m - 1);
    }
  }

  /** The cell `rainbow_effect` writes at column `i`, row `j`: the outer loop
      runs over columns and the inner over rows, so this is the
      `(25 i + j + 1)`-th call of `rand`; the letter is `'A' + rand() % 26`
      and the foreground `(i + j) % 15 + 1` on black. */
  function RainbowCell(seed: u32, i: int, j: int): (cell: Cell)
    requires 0 <= i < Width && 0 <= j < Height
    ensures 'A' as int <= CharOf(cell) <= 'Z' as int
    ensures Foreground(ColorOf(cell)) == (i + j) % 15 + 1 && Background(ColorOf(cell)) == Black
  {
    var letter := SeedAfter(seed, i * Height + j + 1) % 26 + 'A' as int;
    var attr := EntryColor((i + j) % 15 + 1, Black);
    EntryDecodes(letter, attr);
    EntryColorDecodes((i + j) % 15 + 1, Black);
    Entry(letter, attr)
  }

  /** The whole grid after `rainbow_effect` from a given seed. */
  function RainbowGrid(seed: u32): (g: seq<Cell>)
    ensures |g| == Size
    ensures forall k :: 0 <= k < Size ==> g[k] == RainbowCell(seed, k % Width, k / Width)
  {
    seq(Size, k requires 0 <= k < Size => RainbowCell(seed, k % Width, k / Width))
  }

  /** Every cell of the rainbow is an upper-case letter in a colour that is
      never black, on black. */
  lemma RainbowCellsAreLetters(seed: u32, k: int)
    requires 0 <= k < Size
    ensures 'A' as int <= CharOf(RainbowGrid(seed)[k]) <= 'Z' as int
    ensures 1 <= Foreground(ColorOf(RainbowGrid(seed)[k])) <= 15
    ensures Background(ColorOf(RainbowGrid(seed)[k])) == Black
  {
    var i, j := k % Width, k / Width;
    var letter := SeedAfter(seed, i * Height + j + 1) % 26 + 'A' as int;
    var attr := EntryColor((i + j) % 15 + 1, Black);
    EntryDecodes(letter, attr);
    EntryColorDecodes((i + j) % 15 + 1, Black);
  }

  /** The cell `special_effect` writes at column `i` of the top and bottom
      rows: `'='` with foreground `i % 15 + 1` on black. */
  function BandCell(i: int): (cell: Cell)
    requires 0 <= i < Width
    ensures CharOf(cell) == '=' as int
    ensures Foreground(ColorOf(cell)) == i % 15 + 1 && Background(ColorOf(cell)) == Black
  {
    var attr := EntryColor(i % 15 + 1, Black);
    EntryDecodes('=' as int, attr);
    EntryColorDecodes(i % 15 + 1, Black);
    Entry('=' as int, attr)
  }

  /** The grid after `special_effect`: the top and bottom rows become the
      band, every other cell is as before. */
  function SpecialGrid(g: seq<Cell>): (r: seq<Cell>)
    requires |g| == Size
    ensures |r| == Size
    ensures forall i :: 0 <= i < Width ==> r[i] == BandCell(i) && r[Size - Width + i] == BandCell(i)
    ensures forall k :: Width <= k < Size - Width ==> r[k] == g[k]
  {
    seq(Size, k requires 0 <= k < Size =>
      if k < Width then BandCell(k)
      else if k >= Size - Width then BandCell(k - (Size - Width))
      else g[k])
  }
}
