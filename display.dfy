/**
 * The 64x32 display, packed eight pixels to a byte: pixel `p` is bit `p % 8` of byte `p / 8`.
 * These are the byte-level operations behind reading, toggling and drawing pixels.
 */
module Display {
  /** `(b >> offset) & 0x1`: the pixel at bit `offset` of a display byte. */
  function PixelBit(b: bv8, offset: bv8): (bit: bv8)
    requires offset < 8
    ensures bit == 0 || bit == 1
    ensures bit == 1 <==> b & (1 << offset) != 0
  {
    (b >> offset) & 1
  }

  /** `b ^ (value << offset)`: flips the bits of `b` that the shifted `value` has set. */
  function Toggle(b: bv8, offset: bv8, value: bv8): bv8
    requires offset < 8
  {
    b ^ (value << offset)
  }

  /** Toggling twice with the same value restores the byte. */
  lemma ToggleTwice(b: bv8, offset: bv8, value: bv8)
    requires offset < 8
    ensures Toggle(Toggle(b, offset, value), offset, value) == b
  {
  }

  /** Toggling byte `i` of a display twice with the same value restores the display. */
  lemma ToggleTwiceAt(d: seq<bv8>, i: nat, offset: bv8, value: bv8)
    requires i < |d| && offset < 8
    ensures d[i := Toggle(d[i], offset, value)][i := Toggle(Toggle(d[i], offset, value), offset, value)] == d
  {
    ToggleTwice(d[i], offset, value);
  }

  /** Toggling with value 1 flips exactly the pixel at `offset` and keeps the other seven. */
  lemma ToggleOnePixel(b: bv8, offset: bv8, other: bv8)
    requires offset < 8 && other < 8
    ensures PixelBit(Toggle(b, offset, 1), other) ==
              if other == offset then 1 - PixelBit(b, other) else PixelBit(b, other)
  {
  }

  /** Bit positions below 8 keep their identity as `bv8` values. */
  lemma SmallCast(a: int, c: int)
    requires 0 <= a < 8 && 0 <= c < 8
    ensures (a as bv8 == c as bv8) == (a == c)
  {
  }

  /** Pixel `p` of a packed display: bit `p % 8` of byte `p / 8`. */
  function Pixel(d: seq<bv8>, p: nat): (bit: bv8)
    requires p < |d| * 8
    ensures bit == 0 || bit == 1
  {
    PixelBit(d[p / 8], (p % 8) as bv8)
  }

  /** Toggling pixel `pixel` with value 1 flips that pixel of the display and no other. */
  lemma {:induction false} FlipOnePixel(d: seq<bv8>, pixel: nat, q: nat)
    requires pixel < |d| * 8 && q < |d| * 8
    ensures var flipped := d[pixel / 8 := Toggle(d[pixel / 8], (pixel % 8) as bv8, 1)];
      Pixel(flipped, q) == if q == pixel then 1 - Pixel(d, q) else Pixel(d, q)
  {
    if q / 8 == pixel / 8 {
      ToggleOnePixel(d[pixel / 8], (pixel % 8) as bv8, (q % 8) as bv8);
      SmallCast(pixel % 8, q % 8);
    }
  }

  /** A first display byte of `0b1000_0001` lights pixels 0 and 7 and none of the six between. */
  lemma CornerPixels(d: seq<bv8>)
    requires |d| > 0 && d[0] == 0x81
    ensures Pixel(d, 0) == 1 && Pixel(d, 7) == 1
    ensures forall p :: 1 <= p < 7 ==> Pixel(d, p) == 0
  {
  }

  /**
   * The collision test of the draw loop, on the byte before (`prev`) and after (`next`):
   * the new byte has a bit the old byte lacks.
   */
  predicate RowSetsFlag(prev: bv8, next: bv8)
  {
    next != next & prev
  }

  /** A sprite byte lands a set bit on a pixel that was off. */
  predicate TurnsPixelOn(row: bv8, prev: bv8)
  {
    row & !prev != 0
  }

  /** For an XOR draw, the flag test means exactly that some pixel went from off to on. */
  lemma RowSetsFlagMeansPixelOn(prev: bv8, row: bv8)
    ensures RowSetsFlag(prev, row ^ prev) <==> TurnsPixelOn(row, prev)
  {
  }

  /**
   * The first `n` rows of a draw: XORs `rows[0]`, ..., `rows[n - 1]` into the whole display
   * bytes `index`, ..., `index + n - 1`, in the order the draw loop writes them.
   */
  function Blit(disp: seq<bv8>, rows: seq<bv8>, index: nat, n: nat): (r: seq<bv8>)
    requires n <= |rows| && (n > 0 ==> index + |rows| <= |disp|)
    ensures |r| == |disp|
    decreases n
  {
    if n == 0 then disp
    else Blit(disp, rows, index, n - 1)[index + n - 1 := rows[n - 1] ^ disp[index + n - 1]]
  }

  /** Whether one of the first `n` rows of a draw passes the collision test. */
  predicate Collides(disp: seq<bv8>, rows: seq<bv8>, index: nat, n: nat)
    requires n <= |rows| && (n > 0 ==> index + |rows| <= |disp|)
    decreases n
  {
    n > 0 &&
    (Collides(disp, rows, index, n - 1) || RowSetsFlag(disp[index + n - 1], rows[n - 1] ^ disp[index + n - 1]))
  }

  /**
   * After the first `n` rows, the bytes under them are the XOR of sprite row and old byte and
   * every other byte is untouched.
   */
  lemma {:induction false} BlitAt(disp: seq<bv8>, rows: seq<bv8>, index: nat, n: nat, k: nat)
    requires n <= |rows| && (n > 0 ==> index + |rows| <= |disp|)
    requires k < |disp|
    ensures Blit(disp, rows, index, n)[k] ==
              if index <= k < index + n then rows[k - index] ^ disp[k] else disp[k]
    decreases n
  {
    if n > 0 {
      BlitAt(disp, rows, index, n - 1, k);
    }
  }

  /** Row `j` of a draw at byte `index` passes the collision test. */
  predicate RowHits(disp: seq<bv8>, rows: seq<bv8>, index: nat, j: nat)
    requires j < |rows| && index + |rows| <= |disp|
  {
    RowSetsFlag(disp[index + j], rows[j] ^ disp[index + j])
  }

  /** The draw reports a collision exactly when one of its first `n` rows passes the collision test. */
  lemma {:induction false} CollidesIff(disp: seq<bv8>, rows: seq<bv8>, index: nat, n: nat)
    requires n <= |rows| && index + |rows| <= |disp|
    ensures Collides(disp, rows, index, n) <==> exists j :: 0 <= j < n && RowHits(disp, rows, index, j)
    decreases n
  {
    if n > 0 {
      CollidesIff(disp, rows, index, n - 1);
      if Collides(disp, rows, index, n - 1) {
        var j :| 0 <= j < n - 1 && RowHits(disp, rows, index, j);
        assert 0 <= j < n && RowHits(disp, rows, index, j);
      } else if RowHits(disp, rows, index, n - 1) {
        assert 0 <= n - 1 < n;
      }
    }
  }
}
