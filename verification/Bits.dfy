/** Shifts, bitwise or and bit counts over the naturals. */
module Bits {
  import opened MachineInts

  function Pow2(n: nat): (p: nat)
    ensures p >= 1
  {
    if n == 0 then 1 else 2 * Pow2(n - 1)
  }

  /** C's `|`. */
  function BitOr(a: nat, b: nat): nat {
    if a == 0 then b
    else if b == 0 then a
    else (if a % 2 == 1 || b % 2 == 1 then 1 else 0) + 2 * BitOr(a / 2, b / 2)
  }

  /** C's `x >> k`. */
  function High(x: nat, k: nat): nat {
    if k == 0 then x else High(x / 2, k - 1)
  }

  /** The low `k` bits. */
  function Low(x: nat, k: nat): nat {
    if k == 0 then 0 else x % 2 + 2 * Low(x / 2, k - 1)
  }

  /** C's `(x >> k) & 1`. */
  function BitAt(x: nat, k: nat): (b: nat)
    ensures b <= 1
  {
    High(x, k) % 2
  }

  /** How many of the low `n` bits are one. */
  function CountBits(x: nat, n: nat): (c: nat)
    ensures c <= n
  {
    if n == 0 then 0 else CountBits(x, n - 1) + BitAt(x, n - 1)
  }

  // ---------- arithmetic ----------

  lemma TwiceProduct(h: int, p: int)
    ensures h * (2 * p) == (2 * p) * h == 2 * (h * p) == 2 * (p * h)
  {
  }

  lemma {:induction false} Pow2Add(a: nat, b: nat)
    ensures Pow2(a + b) == Pow2(a) * Pow2(b)
  {
    if a > 0 {
      Pow2Add(a - 1, b);
      TwiceProduct(Pow2(b), Pow2(a - 1));
    }
  }

  lemma Pow2Of32()
    ensures Pow2(32) == TWO_32
  {
    assert Pow2(8) == 256;
    Pow2Add(8, 8);
    Pow2Add(16, 16);
  }

  lemma {:induction false} Pow2Mono(a: nat, b: nat)
    requires a <= b
    ensures Pow2(a) <= Pow2(b)
  {
    if a < b { Pow2Mono(a, b - 1); }
  }

  // ---------- splitting a number ----------

  lemma Halves(b: nat, r: nat)
    requires b < 2
    ensures (b + 2 * r) % 2 == b && (b + 2 * r) / 2 == r
  {
  }

  /** A number is its low bits and its high bits. */
  lemma {:induction false} Split(x: nat, k: nat)
    ensures x == Low(x, k) + High(x, k) * Pow2(k)
    ensures Low(x, k) < Pow2(k)
  {
    if k > 0 {
      Split(x / 2, k - 1);
      TwiceProduct(High(x / 2, k - 1), Pow2(k - 1));
    }
  }

  /** Only one split fits. */
  lemma {:induction false} SplitUnique(x: nat, k: nat, l: nat, h: nat)
    requires l < Pow2(k) && x == l + h * Pow2(k)
    ensures Low(x, k) == l && High(x, k) == h
  {
    if k > 0 {
      var p := Pow2(k - 1);
      TwiceProduct(h, p);
      Halves(l % 2, l / 2 + h * p);
      SplitUnique(x / 2, k - 1, l / 2, h);
    }
  }

  /** Shifting divides by a power of two. */
  lemma HighIsQuotient(x: nat, k: nat)
    ensures High(x, k) == x / Pow2(k) && Low(x, k) == x % Pow2(k)
  {
    Split(x, k);
    DivUnique(x, Pow2(k), High(x, k), Low(x, k));
  }

  lemma Fits(x: nat, k: nat)
    requires x < Pow2(k)
    ensures Low(x, k) == x && High(x, k) == 0
  {
    SplitUnique(x, k, x, 0);
  }

  lemma {:induction false} HighHigh(x: nat, m: nat, n: nat)
    ensures High(High(x, m), n) == High(x, m + n)
  {
    if m > 0 { HighHigh(x / 2, m - 1, n); }
  }

  lemma {:induction false} HighFits(x: nat, j: nat, k: nat)
    requires x < Pow2(j + k)
    ensures High(x, k) < Pow2(j)
    decreases k
  {
    if k > 0 { HighFits(x / 2, j, k - 1); }
  }

  lemma HalfOfSum(d: nat, p: nat)
    ensures (d + 2 * p) % 2 == d % 2 && (d + 2 * p) / 2 == d / 2 + p
  {
    Halves(d % 2, d / 2 + p);
  }

  /** Shifting a number with a part above bit `m`. */
  lemma {:induction false} HighOfSum(d: nat, v: nat, m: nat, k: nat)
    requires k <= m
    ensures High(d + v * Pow2(m), k) == High(d, k) + v * Pow2(m - k)
    ensures Low(d + v * Pow2(m), k) == Low(d, k)
    decreases k
  {
    if k > 0 {
      var p := Pow2(m - 1);
      TwiceProduct(v, p);
      HalfOfSum(d, v * p);
      HighOfSum(d / 2, v, m - 1, k - 1);
    }
  }

  lemma MulFits(x: nat, p: nat, q: nat)
    requires x < p && q > 0
    ensures x * q < p * q
  {
    MulLe(x + 1, p, q);
    assert (x + 1) * q == x * q + q;
  }

  lemma Distribute(l: nat, h: nat, p: nat, q: nat)
    ensures (l + h * p) * q == h * (p * q) + l * q
  {
    assert (l + h * p) * q == l * q + h * p * q;
  }

  lemma TruncatedProduct(l: nat, h: nat, p: nat, q: nat)
    requires l < p && q > 0
    ensures p * q > 0 && (l + h * p) * q % (p * q) == l * q
  {
    MulFits(l, p, q);
    Distribute(l, h, p, q);
    DivUnique((l + h * p) * q, p * q, h, l * q);
  }

  /** (x << k) truncated to j + k bits keeps the low j bits of x. */
  lemma ShiftLeftTruncated(x: nat, j: nat, k: nat)
    ensures x * Pow2(k) % Pow2(j + k) == Low(x, j) * Pow2(k)
  {
    Pow2Add(j, k);
    Split(x, j);
    TruncatedProduct(Low(x, j), High(x, j), Pow2(j), Pow2(k));
  }

  // ---------- single bits ----------

  /** The low k + 1 bits are the low k bits and bit k. */
  lemma {:induction false} LowBits(x: nat, k: nat)
    ensures Low(x, k + 1) == Low(x, k) + BitAt(x, k) * Pow2(k)
  {
    if k == 0 {
      assert Low(x / 2, 0) == 0;
    } else {
      LowBits(x / 2, k - 1);
      assert BitAt(x, k) == BitAt(x / 2, k - 1);
    }
  }

  lemma OrHalves(a: nat, b: nat)
    ensures BitOr(a, b) % 2 == if a % 2 == 1 || b % 2 == 1 then 1 else 0
    ensures BitOr(a, b) / 2 == BitOr(a / 2, b / 2)
  {
    Halves(if a % 2 == 1 || b % 2 == 1 then 1 else 0, BitOr(a / 2, b / 2));
  }

  lemma OrDouble(a: nat, h: nat)
    ensures BitOr(a, 2 * h) == a % 2 + 2 * BitOr(a / 2, h)
  {
    OrHalves(a, 2 * h);
  }

  /** Or-ing in bits above all bits of `a` adds them. */
  lemma {:induction false} OrDisjoint(a: nat, b: nat, k: nat)
    requires a < Pow2(k)
    ensures BitOr(a, b * Pow2(k)) == a + b * Pow2(k)
  {
    if k > 0 {
      TwiceProduct(b, Pow2(k - 1));
      OrDouble(a, b * Pow2(k - 1));
      OrDisjoint(a / 2, b, k - 1);
    }
  }

  lemma {:induction false} OrAssociates(a: nat, b: nat, c: nat)
    ensures BitOr(BitOr(a, b), c) == BitOr(a, BitOr(b, c))
  {
    if a != 0 && b != 0 && c != 0 {
      OrAssociates(a / 2, b / 2, c / 2);
      OrHalves(a, b);
      OrHalves(b, c);
    }
  }

  /** `|` works bit by bit. */
  lemma {:induction false} OrBits(a: nat, b: nat, k: nat)
    ensures BitAt(BitOr(a, b), k) == if BitAt(a, k) == 1 || BitAt(b, k) == 1 then 1 else 0
    decreases k
  {
    OrHalves(a, b);
    if k > 0 { OrBits(a / 2, b / 2, k - 1); }
  }

  lemma {:induction false} ZeroBits(k: nat)
    ensures High(0, k) == Low(0, k) == 0
  {
    if k > 0 { ZeroBits(k - 1); }
  }

  lemma {:induction false} Pow2Bits(j: nat, k: nat)
    ensures BitAt(Pow2(j), k) == if j == k then 1 else 0
    decreases k
  {
    if k == 0 {
    } else if j == 0 {
      assert Pow2(0) / 2 == 0;
      ZeroBits(k - 1);
    } else {
      Pow2Bits(j - 1, k - 1);
    }
  }

  // ---------- counting ----------

  lemma {:induction false} CountShift(x: nat, n: nat)
    ensures CountBits(x, n + 1) == x % 2 + CountBits(x / 2, n)
  {
    if n == 0 {
      assert CountBits(x, 1) == CountBits(x, 0) + BitAt(x, 0);
    } else {
      CountShift(x, n - 1);
    }
  }

  lemma {:induction false} CountZero(n: nat)
    ensures CountBits(0, n) == 0
  {
    if n > 0 { CountZero(n - 1); ZeroBits(n - 1); }
  }

  lemma LowHalves(x: nat, m: nat)
    requires m > 0
    ensures Low(x, m) % 2 == x % 2 && Low(x, m) / 2 == Low(x / 2, m - 1)
  {
    Halves(x % 2, Low(x / 2, m - 1));
  }

  /** The count is the size of the set of one bits. */
  lemma {:induction false} CountIsSize(x: nat, n: nat)
    ensures CountBits(x, n) == |set k | 0 <= k < n && BitAt(x, k) == 1|
  {
    var ones := set k | 0 <= k < n && BitAt(x, k) == 1;
    if n > 0 {
      CountIsSize(x, n - 1);
      var below := set k | 0 <= k < n - 1 && BitAt(x, k) == 1;
      assert ones == if BitAt(x, n - 1) == 1 then below + {n - 1} else below;
    }
  }

  /** Counting across a word boundary. */
  lemma {:induction false} CountSplit(x: nat, m: nat, n: nat)
    ensures CountBits(x, m + n) == CountBits(Low(x, m), m) + CountBits(High(x, m), n)
    decreases m
  {
    if m > 0 {
      CountShift(x, m + n - 1);
      CountSplit(x / 2, m - 1, n);
      CountShift(Low(x, m), m - 1);
      LowHalves(x, m);
    }
  }

  lemma {:induction false} BitOfLow(x: nat, m: nat, k: nat)
    requires k < m
    ensures BitAt(Low(x, m), k) == BitAt(x, k)
  {
    if k > 0 {
      LowHalves(x, m);
      BitOfLow(x / 2, m - 1, k - 1);
    }
  }
}
