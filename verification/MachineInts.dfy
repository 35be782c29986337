/** C integer widths, written out over the unbounded integers. */
module MachineInts {

  const TWO_31: int := 0x8000_0000
  const TWO_32: int := 0x1_0000_0000
  const TWO_64: int := 0x1_0000_0000_0000_0000

  /** The value that a 32-bit two's-complement variable holds after being assigned `x`. */
  function Wrap32(x: int): (r: int)
    ensures -TWO_31 <= r < TWO_31
    ensures (x - r) % TWO_32 == 0
  {
    (x + TWO_31) % TWO_32 - TWO_31
  }

  /** A 32-bit addition never exceeds the exact sum, unless that sum lies below the range. */
  lemma WrapBelow(x: int)
    requires -TWO_31 <= x
    ensures Wrap32(x) <= x
    ensures x < TWO_31 ==> Wrap32(x) == x
  {
  }

  /** Wrapping an operand first does not change a wrapped sum. */
  lemma WrapSum(a: int, b: int)
    ensures Wrap32(Wrap32(a) + Wrap32(b)) == Wrap32(a + b)
  {
    var d := (a - Wrap32(a)) / TWO_32 + (b - Wrap32(b)) / TWO_32;
    ModShift(Wrap32(a) + Wrap32(b) + TWO_31, TWO_32, d);
  }

  /** Reading an int's bits back as an int. */
  lemma WrapUnsigned(x: int)
    requires -TWO_31 <= x < TWO_31
    ensures 0 <= x % TWO_32 && Wrap32(x % TWO_32) == x
  {
    if x < 0 { DivUnique(x, TWO_32, -1, x + TWO_32); }
  }

  lemma MulLe(a: int, b: int, m: int)
    requires a <= b && 0 <= m
    ensures a * m <= b * m
  {
  }

  lemma SmallMultiple(d: int, m: int)
    requires -m < d * m < m
    ensures d == 0
  {
    if d >= 1 {
      MulLe(1, d, m);
    } else if d <= -1 {
      MulLe(d, -1, m);
    }
  }

  /** Euclidean division is determined by its defining equation. */
  lemma DivUnique(x: int, m: int, q: int, r: int)
    requires m > 0 && 0 <= r < m && x == q * m + r
    ensures x / m == q && x % m == r
  {
    var d := x / m - q;
    assert d * m == r - x % m;
    SmallMultiple(d, m);
  }

  lemma ModShift(x: int, m: int, k: int)
    requires m > 0
    ensures (x + k * m) % m == x % m
  {
    var q := x / m;
    assert (q + k) * m == q * m + k * m;
    DivUnique(x + k * m, m, q + k, x % m);
  }

  /** The quotient is the greatest multiplier that stays below. */
  lemma DivLower(q: int, m: int, x: int)
    requires m > 0 && q * m <= x
    ensures q <= x / m
  {
    if x / m < q {
      MulLe(x / m + 1, q, m);
    }
  }
}
