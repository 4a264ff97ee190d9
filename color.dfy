/**
 * The engine's `Color` record: four `int` channels, a constructor with an opaque
 * alpha, a constructor that unpacks a 32-bit ARGB word, and `normalize`, which
 * clamps every channel into [0, 255].
 *
 * Java's `(x >> k) & 0xFF` on a two's-complement `int` is written here as
 * `(x / 2^k) % 256`: an arithmetic right shift is division rounding towards
 * minus infinity, which for a positive divisor is Dafny's Euclidean `/`, and
 * masking with `0xFF` keeps the non-negative remainder modulo 256, which is
 * Dafny's `%`.
 */
module Colors {
  import opened JavaInt

  datatype Color = Color(red: Int32, green: Int32, blue: Int32, alpha: Int32)

  /** A channel value a pixel can hold. */
  predicate InByteRange(v: int)
  {
    0 <= v <= 255
  }

  /** Every channel of `c` is in [0, 255]. */
  predicate IsNormalized(c: Color)
  {
    InByteRange(c.red) && InByteRange(c.green) && InByteRange(c.blue) && InByteRange(c.alpha)
  }

  /** `new Color(red, green, blue)`: the three given channels, fully opaque. */
  function Rgb(red: Int32, green: Int32, blue: Int32): (c: Color)
    ensures c.alpha == 255
    ensures c.red == red && c.green == green && c.blue == blue
  {
    Color(red, green, blue, 255)
  }

  /** `new Color(rgba)`: alpha from bits 24-31, red from 16-23, green from 8-15, blue from 0-7. */
  function FromArgb(rgba: Int32): (c: Color)
    ensures IsNormalized(c)
  {
    Color((rgba / 0x1_0000) % 0x100,
          (rgba / 0x100) % 0x100,
          rgba % 0x100,
          (rgba / 0x100_0000) % 0x100)
  }

  /** Distance between two integers, for stating what clamping minimises. */
  function Dist(a: int, b: int): nat
  {
    if a <= b then b - a else a - b
  }

  /** `Math.clamp(v, 0, 255)`. */
  function Clamp(v: Int32): (r: Int32)
    ensures InByteRange(r)
    ensures InByteRange(v) ==> r == v
    ensures forall w :: InByteRange(w) ==> Dist(r, v) <= Dist(w, v)
  {
    if v < 0 then 0 else if v > 255 then 255 else v
  }

  /** `Color.normalize()`: each channel clamped into [0, 255]. */
  function Normalize(c: Color): (r: Color)
    ensures IsNormalized(r)
    ensures IsNormalized(c) ==> r == c
    ensures r.red == Clamp(c.red) && r.green == Clamp(c.green)
    ensures r.blue == Clamp(c.blue) && r.alpha == Clamp(c.alpha)
  {
    Color(Clamp(c.red), Clamp(c.green), Clamp(c.blue), Clamp(c.alpha))
  }

  lemma NormalizeIdempotent(c: Color)
    ensures Normalize(Normalize(c)) == Normalize(c)
  {
  }

  /** A colour unpacked from an ARGB word is already normalised. */
  lemma NormalizeFromArgb(rgba: Int32)
    ensures Normalize(FromArgb(rgba)) == FromArgb(rgba)
  {
  }

  // ---------------------------------------------------------------------------
  // Packing, the inverse of FromArgb, as an independent reference definition.
  // ---------------------------------------------------------------------------

  /** The bit pattern of `x` read as an unsigned 32-bit number. */
  function Unsigned(x: Int32): (u: int)
    ensures 0 <= u < 0x1_0000_0000
  {
    if x < 0 then x + 0x1_0000_0000 else x
  }

  /** The Java `int` whose bit pattern is the unsigned 32-bit number `u`. */
  function Signed(u: int): Int32
    requires 0 <= u < 0x1_0000_0000
  {
    if u >= 0x8000_0000 then u - 0x1_0000_0000 else u
  }

  /** `(alpha << 24) | (red << 16) | (green << 8) | blue` for channels in range. */
  function ToArgb(c: Color): Int32
    requires IsNormalized(c)
  {
    Signed(c.alpha * 0x100_0000 + c.red * 0x1_0000 + c.green * 0x100 + c.blue)
  }

  /** Helper: division by 256 has a unique quotient and remainder. */
  lemma DivBy256(n: int, q: int, r: int)
    requires 0 <= r < 0x100 && n == q * 0x100 + r
    ensures n / 0x100 == q && n % 0x100 == r
  {
  }

  /** Helper: the quotient of a division by 65536 is unique. */
  lemma DivBy65536(n: int, q: int, r: int)
    requires 0 <= r < 0x1_0000 && n == q * 0x1_0000 + r
    ensures n / 0x1_0000 == q
  {
  }

  /** Helper: the quotient of a division by 16777216 is unique. */
  lemma DivBy16M(n: int, q: int, r: int)
    requires 0 <= r < 0x100_0000 && n == q * 0x100_0000 + r
    ensures n / 0x100_0000 == q
  {
  }

  /** Each byte of a negative `int` equals the same byte of its unsigned reading. */
  lemma BytesOfUnsigned(x: Int32)
    ensures (x / 0x100_0000) % 0x100 == Unsigned(x) / 0x100_0000
    ensures (x / 0x1_0000) % 0x100 == (Unsigned(x) / 0x1_0000) % 0x100
    ensures (x / 0x100) % 0x100 == (Unsigned(x) / 0x100) % 0x100
    ensures x % 0x100 == Unsigned(x) % 0x100
  {
    var u := Unsigned(x);
    if x < 0 {
      DivBy16M(u, x / 0x100_0000 + 0x100, x % 0x100_0000);
      DivBy65536(u, x / 0x1_0000 + 0x1_0000, x % 0x1_0000);
      DivBy256(u, x / 0x100 + 0x100_0000, x % 0x100);
    }
  }

  /** An unsigned 32-bit number is the sum of its four bytes at their places. */
  lemma ByteDecomposition(u: int)
    requires 0 <= u < 0x1_0000_0000
    ensures u == (u / 0x100_0000) * 0x100_0000 + ((u / 0x1_0000) % 0x100) * 0x1_0000
                 + ((u / 0x100) % 0x100) * 0x100 + u % 0x100
  {
    var q1 := u / 0x100;
    var q2 := u / 0x1_0000;
    var q3 := u / 0x100_0000;
    assert q1 / 0x100 == q2;
    assert q2 / 0x100 == q3;
    assert u == q1 * 0x100 + u % 0x100;
    assert q1 == q2 * 0x100 + q1 % 0x100;
    assert q2 == q3 * 0x100 + q2 % 0x100;
  }

  /** Unpacking loses nothing: packing the channels again gives the original word. */
  lemma ArgbRoundTrip(rgba: Int32)
    ensures ToArgb(FromArgb(rgba)) == rgba
  {
    BytesOfUnsigned(rgba);
    ByteDecomposition(Unsigned(rgba));
  }

  /** Every normalised colour is the unpacking of its packed word. */
  lemma ChannelsRoundTrip(c: Color)
    requires IsNormalized(c)
    ensures FromArgb(ToArgb(c)) == c
  {
    var x := ToArgb(c);
    var a: int, r: int, g: int, b: int := c.alpha, c.red, c.green, c.blue;
    var u: int := a * 0x100_0000 + r * 0x1_0000 + g * 0x100 + b;
    assert Unsigned(x) == u;
    BytesOfUnsigned(x);
    DivBy16M(u, a, r * 0x1_0000 + g * 0x100 + b);
    DivBy65536(u, a * 0x100 + r, g * 0x100 + b);
    DivBy256(a * 0x100 + r, a, r);
    DivBy256(u, a * 0x1_0000 + r * 0x100 + g, b);
    DivBy256(a * 0x1_0000 + r * 0x100 + g, a * 0x100 + r, g);
  }

  /** Opaque white unpacked from `0xFFFFFFFF`, which Java reads as `-1`. */
  lemma MinusOneIsOpaqueWhite()
    ensures FromArgb(-1) == Color(255, 255, 255, 255)
  {
  }

}
