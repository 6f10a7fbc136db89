/** Bits, bytes and numbers. Bit strings are most significant bit first,
    which is the order of the bit reader and of the bit writer. */
module Bits {

  type byte = x: int | 0 <= x < 256

  const U64_LIMIT: nat := 0x1_0000_0000_0000_0000

  /** `count.min(64)`. */
  function AtMost64(count: nat): nat {
    if count < 64 then count else 64
  }

  function Pow2(n: nat): (p: nat)
    ensures p >= 1
  {
    if n == 0 then 1 else 2 * Pow2(n - 1)
  }

  lemma {:induction false} Pow2Add(a: nat, b: nat)
    ensures Pow2(a + b) == Pow2(a) * Pow2(b)
  {
    if b != 0 {
      Pow2Add(a, b - 1);
      assert Pow2(a + b) == 2 * Pow2(a + b - 1);
      assert Pow2(a) * (2 * Pow2(b - 1)) == 2 * (Pow2(a) * Pow2(b - 1));
    }
  }

  lemma {:induction false} Pow2Monotone(a: nat, b: nat)
    requires a <= b
    ensures Pow2(a) <= Pow2(b)
    ensures a < b ==> Pow2(a) < Pow2(b)
  {
    if a < b {
      Pow2Monotone(a, b - 1);
    }
  }

  lemma Pow2Of8()
    ensures Pow2(8) == 256
  {
  }

  lemma Pow2Of64()
    ensures Pow2(64) == U64_LIMIT
  {
    hide Pow2;
    Pow2Of8();
    Pow2Add(8, 8);
    Pow2Add(16, 16);
    Pow2Add(32, 32);
  }

  /** The number that a bit string spells. */
  function BitsValue(s: seq<bool>): (v: nat)
    ensures v < Pow2(|s|)
  {
    if s == [] then 0
    else 2 * BitsValue(s[..|s| - 1]) + if s[|s| - 1] then 1 else 0
  }

  /** The low `width` bits of `n`. */
  function NatBits(n: nat, width: nat): (s: seq<bool>)
    ensures |s| == width
  {
    if width == 0 then [] else NatBits(n / 2, width - 1) + [n % 2 == 1]
  }

  lemma BitsValueAppend(s: seq<bool>, bit: bool)
    ensures BitsValue(s + [bit]) == 2 * BitsValue(s) + if bit then 1 else 0
  {
    assert (s + [bit])[..|s|] == s;
  }

  lemma {:induction false} ValueOfNatBits(n: nat, width: nat)
    requires n < Pow2(width)
    ensures BitsValue(NatBits(n, width)) == n
  {
    hide BitsValue;
    if width == 0 {
      NoBits();
    } else {
      ValueOfNatBits(n / 2, width - 1);
      BitsValueAppend(NatBits(n / 2, width - 1), n % 2 == 1);
    }
  }

  lemma NoBits()
    ensures BitsValue([]) == 0
  {
  }

  lemma {:induction false} NatBitsOfValue(s: seq<bool>)
    ensures NatBits(BitsValue(s), |s|) == s
  {
    if s != [] {
      NatBitsOfValue(s[..|s| - 1]);
    }
  }

  lemma DivDiv(n: nat, p: nat)
    requires p >= 1
    ensures n / 2 / p == n / (2 * p)
  {
    var q := n / 2 / p;
    var r := n / 2 % p;
    assert n / 2 == q * p + r;
    assert n == q * (2 * p) + (2 * r + n % 2);
    assert 0 <= 2 * r + n % 2 < 2 * p;
    DivUnique(n, 2 * p, q, 2 * r + n % 2);
  }

  lemma MulAtLeast(k: int, d: nat)
    ensures k >= 1 ==> k * d >= d
    ensures k <= -1 ==> k * d + d <= 0
  {
    if k >= 1 {
      assert k * d == (k - 1) * d + d;
    } else if k <= -1 {
      assert k * d == (k + 1) * d - d;
    }
  }

  lemma DivUnique(n: int, d: nat, q: int, r: int)
    requires d >= 1 && 0 <= r < d && n == q * d + r
    ensures n / d == q && n % d == r
  {
    var k := n / d - q;
    assert k * d == r - n % d by {
      assert n == (n / d) * d + n % d;
      assert k * d == (n / d) * d - q * d;
    }
    MulAtLeast(k, d);
  }

  /** The shift-and-mask that the code uses picks the bit of the bit string. */
  lemma {:induction false} NatBitsAt(n: nat, width: nat, i: nat)
    requires i < width
    ensures NatBits(n, width)[i] == ((n / Pow2(width - 1 - i)) % 2 == 1)
  {
    if i < width - 1 {
      NatBitsAt(n / 2, width - 1, i);
      DivDiv(n, Pow2(width - 2 - i));
    }
  }

  lemma {:induction false} NatBitsConcat(x: nat, a: nat, y: nat, b: nat)
    requires y < Pow2(b)
    ensures NatBits(x, a) + NatBits(y, b) == NatBits(x * Pow2(b) + y, a + b)
  {
    if b != 0 {
      NatBitsConcat(x, a, y / 2, b - 1);
      var n := x * Pow2(b) + y;
      assert n == 2 * (x * Pow2(b - 1) + y / 2) + y % 2 by {
        assert x * (2 * Pow2(b - 1)) == 2 * (x * Pow2(b - 1));
      }
      assert NatBits(x, a) + NatBits(y, b) == NatBits(x, a) + NatBits(y / 2, b - 1) + [y % 2 == 1];
    }
  }

  /** Setting bit `i` of a bit string changes its value by that bit's weight. */
  lemma {:induction false} ValueOfUpdate(s: seq<bool>, i: nat, v: bool)
    requires i < |s|
    ensures BitsValue(s[i := v]) ==
            BitsValue(s) + (if v then Pow2(|s| - 1 - i) else 0) - (if s[i] then Pow2(|s| - 1 - i) else 0)
  {
    var t := s[i := v];
    var n := |s| - 1;
    if i == n {
      assert t[..n] == s[..n];
    } else {
      ValueOfUpdate(s[..n], i, v);
      assert t[..n] == s[..n][i := v];
    }
  }

  /** `n` copies of `false`. */
  function Zeros(n: nat): (s: seq<bool>)
    ensures |s| == n
    ensures forall i :: 0 <= i < n ==> !s[i]
  {
    seq(n, _ => false)
  }

  lemma {:induction false} NatBitsOfZero(width: nat)
    ensures NatBits(0, width) == Zeros(width)
  {
    if width != 0 {
      NatBitsOfZero(width - 1);
    }
  }

  /** The bit string of a byte string. */
  function BytesBits(bs: seq<byte>): (s: seq<bool>)
    ensures |s| == 8 * |bs|
  {
    if bs == [] then [] else BytesBits(bs[..|bs| - 1]) + NatBits(bs[|bs| - 1], 8)
  }

  lemma {:induction false} BytesBitsConcat(a: seq<byte>, b: seq<byte>)
    ensures BytesBits(a + b) == BytesBits(a) + BytesBits(b)
  {
    hide NatBits;
    if b == [] {
      assert a + b == a;
    } else {
      var n := |b| - 1;
      BytesBitsConcat(a, b[..n]);
      assert (a + b)[..|a| + n] == a + b[..n];
      ConcatAssoc(BytesBits(a), BytesBits(b[..n]), NatBits(b[n], 8));
    }
  }

  lemma BytesBitsSingle(b: byte)
    ensures BytesBits([b]) == NatBits(b, 8)
  {
    assert BytesBits([b][..0]) == [];
  }

  lemma BytesBitsExtend(bs: seq<byte>, i: nat)
    requires i < |bs|
    ensures BytesBits(bs[..i + 1]) == BytesBits(bs[..i]) + NatBits(bs[i], 8)
  {
    assert bs[..i + 1][..i] == bs[..i];
  }

  lemma ConcatAssoc<T>(a: seq<T>, b: seq<T>, c: seq<T>)
    ensures (a + b) + c == a + (b + c)
  {
  }

  lemma BytesBitsSplit(bs: seq<byte>, k: nat)
    requires k <= |bs|
    ensures BytesBits(bs)[..8 * k] == BytesBits(bs[..k])
    ensures BytesBits(bs)[8 * k..] == BytesBits(bs[k..])
  {
    hide BytesBits;
    var a, b := BytesBits(bs[..k]), BytesBits(bs[k..]);
    BytesBitsConcat(bs[..k], bs[k..]);
    assert bs[..k] + bs[k..] == bs;
    SplitConcat(a, b);
    assert |a| == 8 * k;
  }

  lemma SplitConcat<T>(a: seq<T>, b: seq<T>)
    ensures (a + b)[..|a|] == a && (a + b)[|a|..] == b
  {
  }

  lemma BytesBitsSlice(bs: seq<byte>, lo: nat, hi: nat)
    requires lo <= hi <= |bs|
    ensures BytesBits(bs)[8 * lo..8 * hi] == BytesBits(bs[lo..hi])
  {
    hide BytesBits;
    BytesBitsSplit(bs, hi);
    BytesBitsSplit(bs[..hi], lo);
    assert bs[..hi][lo..] == bs[lo..hi];
  }

  lemma BytesBitsAt(bs: seq<byte>, i: nat)
    requires i < |bs|
    ensures BytesBits(bs)[8 * i..8 * i + 8] == NatBits(bs[i], 8)
  {
    hide NatBits;
    BytesBitsSlice(bs, i, i + 1);
    BytesBitsSingle(bs[i]);
    assert bs[i..i + 1] == [bs[i]];
  }

  /** Byte strings with equal bits are equal. */
  lemma {:induction false} BytesBitsInjective(a: seq<byte>, b: seq<byte>)
    requires BytesBits(a) == BytesBits(b)
    ensures a == b
  {
    assert |a| == |b|;
    if a != [] {
      var n := |a| - 1;
      var x, y := BytesBits(a), BytesBits(b);
      assert x[..8 * n] == BytesBits(a[..n]) && y[..8 * n] == BytesBits(b[..n]);
      assert x[8 * n..] == NatBits(a[n], 8) && y[8 * n..] == NatBits(b[n], 8);
      BytesBitsInjective(a[..n], b[..n]);
      ValueOfNatBits(a[n], 8);
      ValueOfNatBits(b[n], 8);
      assert a == a[..n] + [a[n]] && b == b[..n] + [b[n]];
    }
  }

  /** The big-endian bytes of `n`, which is what `byteorder` writes. */
  function BigEndian(n: nat, width: nat): (bs: seq<byte>)
    ensures |bs| == width
  {
    if width == 0 then [] else BigEndian(n / 256, width - 1) + [n % 256]
  }

  function FromBigEndian(bs: seq<byte>): (n: nat)
    ensures n < Pow2(8 * |bs|)
  {
    if bs == [] then 0
    else
      Pow2Add(8 * (|bs| - 1), 8);
      256 * FromBigEndian(bs[..|bs| - 1]) + bs[|bs| - 1]
  }

  lemma {:induction false} BigEndianRoundTrip(n: nat, width: nat)
    requires n < Pow2(8 * width)
    ensures FromBigEndian(BigEndian(n, width)) == n
  {
    if width != 0 {
      Pow2Add(8 * (width - 1), 8);
      assert n / 256 < Pow2(8 * (width - 1));
      BigEndianRoundTrip(n / 256, width - 1);
      assert BigEndian(n, width)[..width - 1] == BigEndian(n / 256, width - 1);
    }
  }

  /** Big-endian bytes carry exactly the bits of the number. */
  lemma {:induction false} BytesBitsOfBigEndian(n: nat, width: nat)
    ensures BytesBits(BigEndian(n, width)) == NatBits(n, 8 * width)
  {
    hide NatBits, Pow2;
    if width == 0 {
      assert NatBits(n, 0) == [];
    } else {
      BytesBitsOfBigEndian(n / 256, width - 1);
      Pow2Of8();
      assert n == (n / 256) * 256 + n % 256;
      assert BigEndian(n, width)[..width - 1] == BigEndian(n / 256, width - 1);
      NatBitsConcat(n / 256, 8 * (width - 1), n % 256, 8);
    }
  }

  lemma {:induction false} BigEndianOfValue(bs: seq<byte>)
    ensures BigEndian(FromBigEndian(bs), |bs|) == bs
  {
    if bs != [] {
      BigEndianOfValue(bs[..|bs| - 1]);
    }
  }

  lemma ValueOfBytesBits(bs: seq<byte>)
    ensures BitsValue(BytesBits(bs)) == FromBigEndian(bs)
  {
    BigEndianOfValue(bs);
    BytesBitsOfBigEndian(FromBigEndian(bs), |bs|);
    ValueOfNatBits(FromBigEndian(bs), 8 * |bs|);
  }

  /** `(b >> (7 - pos)) & 1 == 1`. */
  predicate BitOf(b: byte, pos: nat)
    requires pos < 8
  {
    (b / Pow2(7 - pos)) % 2 == 1
  }

  lemma BitOfNatBits(b: byte, pos: nat)
    requires pos < 8
    ensures BitOf(b, pos) == NatBits(b, 8)[pos]
  {
    NatBitsAt(b, 8, pos);
  }
}
