/** Numbers as little-endian bytes. */
module LittleEndian {
  import opened MachineInts
  import opened Bits

  type Byte = b: nat | b < 256

  /** The number whose little-endian bytes are `s`. */
  function Word(s: seq<Byte>): nat {
    if s == [] then 0
    else
      var n := |s| - 1;
      Word(s[..n]) + s[n] * Pow2(8 * n)
  }

  /** The low `n` bytes of `v`, lowest first. */
  function Bytes(v: nat, n: nat): (s: seq<Byte>)
    ensures |s| == n
  {
    if n == 0 then [] else Bytes(v, n - 1) + [High(v, 8 * (n - 1)) % 256]
  }

  lemma Pow2Byte(n: nat)
    ensures Pow2(8 * (n + 1)) == 256 * Pow2(8 * n)
  {
    Pow2Add(8, 8 * n);
    assert Pow2(8) == 256;
  }

  lemma {:induction false} WordFits(s: seq<Byte>)
    ensures Word(s) < Pow2(8 * |s|)
  {
    if s != [] {
      var n := |s| - 1;
      WordFits(s[..n]);
      Pow2Byte(n);
      MulLe(s[n], 255, Pow2(8 * n));
    }
  }

  /** One more byte of `v`. */
  lemma LowByte(v: nat, n: nat)
    ensures Low(v, 8 * (n + 1)) == Low(v, 8 * n) + High(v, 8 * n) % 256 * Pow2(8 * n)
  {
    var h, k := High(v, 8 * n), 8 * n;
    Pow2Byte(n);
    Split(v, k);
    MulLe(h % 256, 255, Pow2(k));
    Distribute(h % 256, h / 256, 256, Pow2(k));
    SplitUnique(v, k + 8, Low(v, k) + h % 256 * Pow2(k), h / 256);
  }

  lemma {:induction false} WordOfBytes(v: nat, n: nat)
    ensures Word(Bytes(v, n)) == Low(v, 8 * n)
  {
    if n > 0 {
      WordOfBytes(v, n - 1);
      LowByte(v, n - 1);
      assert Bytes(v, n)[..n - 1] == Bytes(v, n - 1);
    }
  }

  /** The first byte is the least significant one. */
  lemma {:induction false} LowestFirst(s: seq<Byte>)
    requires s != []
    ensures Word(s) == s[0] + 256 * Word(s[1..])
  {
    var n := |s| - 1;
    if n == 0 {
      assert Word(s[..0]) == 0 && Word(s[1..]) == 0;
    } else {
      LowestFirst(s[..n]);
      Pow2Byte(n - 1);
      assert s[..n][1..] == s[1..][..n - 1];
      assert s[n] * (256 * Pow2(8 * (n - 1))) == 256 * (s[n] * Pow2(8 * (n - 1)));
    }
  }

  lemma FourBytes(a: Byte, b: Byte, c: Byte, d: Byte)
    ensures Word([a, b, c, d]) == a + 0x100 * b + 0x1_0000 * c + 0x100_0000 * d
  {
    LowestFirst([a, b, c, d]);
    LowestFirst([b, c, d]);
    LowestFirst([c, d]);
    LowestFirst([d]);
    assert [a, b, c, d][1..] == [b, c, d] && [b, c, d][1..] == [c, d] && [c, d][1..] == [d] && [d][1..] == [];
  }

  /** Byte `i` of a number. */
  lemma {:induction false} ByteAt(v: nat, n: nat, i: nat)
    requires i < n
    ensures Bytes(v, n)[i] == v / Pow2(8 * i) % 256
  {
    if i < n - 1 { ByteAt(v, n - 1, i); } else { HighIsQuotient(v, 8 * i); }
  }

  lemma WordRoundTrip(v: nat)
    requires v < TWO_32
    ensures Word(Bytes(v, 4)) == v
  {
    WordOfBytes(v, 4);
    Pow2Of32();
    Fits(v, 32);
  }

  /** A C int as its four bytes. */
  function IntBytes(x: int): (s: seq<Byte>)
    ensures |s| == 4
  {
    Bytes(x % TWO_32, 4)
  }

  function IntOf(s: seq<Byte>): int {
    Wrap32(Word(s))
  }

  lemma IntRoundTrip(x: int)
    requires -TWO_31 <= x < TWO_31
    ensures IntOf(IntBytes(x)) == x
  {
    WrapUnsigned(x);
    WordRoundTrip(x % TWO_32);
  }
}
