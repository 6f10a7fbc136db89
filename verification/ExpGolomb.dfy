/** Exponential-Golomb coding, crates/expgolomb/src/lib.rs;
    sections 9.1 and 9.1.1 of ISO/IEC 14496-10. */
module ExpGolomb {
  import opened Wrappers
  import opened Bits
  import opened BitReading
  import opened BitWriting

  /** The largest value whose successor still fits a `u64`. */
  const MAX_VALUE: nat := U64_LIMIT - 2
  const I64_LIMIT: int := 0x8000_0000_0000_0000

  function Log2(n: nat): nat
    requires n >= 1
  {
    if n == 1 then 0 else 1 + Log2(n / 2)
  }

  lemma {:induction false} Log2Bounds(n: nat)
    requires n >= 1
    ensures Pow2(Log2(n)) <= n < Pow2(Log2(n) + 1)
  {
    if n != 1 {
      Log2Bounds(n / 2);
    }
  }

  lemma Log2Unique(n: nat, k: nat)
    requires Pow2(k) <= n < Pow2(k + 1)
    ensures Log2(n) == k
  {
    Log2Bounds(n);
    if k < Log2(n) {
      Pow2Monotone(k + 1, Log2(n));
    } else if Log2(n) < k {
      Pow2Monotone(Log2(n) + 1, k);
    }
  }

  lemma Log2OfU64(n: nat)
    requires 1 <= n < U64_LIMIT
    ensures Log2(n) < 64
  {
    Log2Bounds(n);
    Pow2Of64();
    if Log2(n) >= 64 {
      Pow2Monotone(64, Log2(n));
    }
  }

  /** The codeword of `n`: as many zeros as `n + 1` has bits after its leading one, then `n + 1`. */
  ghost function CodeWord(n: nat): seq<bool> {
    var k := Log2(n + 1);
    Zeros(k) + NatBits(n + 1, k + 1)
  }

  /** The codeword as section 9.1 describes it: `k` zeros, a one, and `k` more bits, which spell the successor
      of the number. */
  lemma CodeWordSpells(n: nat)
    ensures var w, k := CodeWord(n), Log2(n + 1);
            && |w| == 2 * k + 1
            && (forall i :: 0 <= i < k ==> !w[i]) && w[k]
            && BitsValue(w[k..]) == n + 1
  {
    hide NatBits, BitsValue, Pow2, Log2;
    var k := Log2(n + 1);
    Log2Bounds(n + 1);
    FirstBit(n + 1, k);
    ValueOfNatBits(n + 1, k + 1);
    assert CodeWord(n)[k..] == NatBits(n + 1, k + 1);
  }

  ghost function LeadingZeros(s: seq<bool>, p: nat): nat
    decreases |s| - p
  {
    if p < |s| && !s[p] then 1 + LeadingZeros(s, p + 1) else 0
  }

  /** What reading at `p` yields: the value and the position behind it, or nothing when the
      stream ends first. The accumulator is a `u64`, so longer codes wrap around. */
  ghost function CodeAt(s: seq<bool>, p: nat): Option<(nat, nat)> {
    var k := LeadingZeros(s, p);
    if p + 2 * k + 1 <= |s|
    then Some(((ValueAt(s, p + k, k + 1) + (U64_LIMIT - 1)) % U64_LIMIT, p + 2 * k + 1))
    else None
  }

  lemma {:induction false} LeadingZerosIs(s: seq<bool>, p: nat, k: nat)
    requires p + k <= |s|
    requires forall i :: p <= i < p + k ==> !s[i]
    requires p + k < |s| ==> s[p + k]
    ensures LeadingZeros(s, p) == k
    decreases k
  {
    if k != 0 {
      LeadingZerosIs(s, p + 1, k - 1);
    }
  }

  lemma {:induction false} LeadingZerosScan(s: seq<bool>, p: nat)
    requires p <= |s|
    ensures var k := LeadingZeros(s, p);
            && p + k <= |s|
            && (forall i :: p <= i < p + k ==> !s[i])
            && (p + k < |s| ==> s[p + k])
    decreases |s| - p
  {
    if p < |s| && !s[p] {
      LeadingZerosScan(s, p + 1);
    }
  }

  /** Where a codeword stands in a stream, reading gives its number and stops behind it. */
  lemma CodeWordAt(s: seq<bool>, p: nat, n: nat)
    requires n <= MAX_VALUE
    requires p + |CodeWord(n)| <= |s| && s[p..p + |CodeWord(n)|] == CodeWord(n)
    ensures CodeAt(s, p) == Some((n, p + |CodeWord(n)|))
  {
    hide NatBits, BitsValue, Pow2, Log2, LeadingZeros;
    var k := Log2(n + 1);
    var bits := NatBits(n + 1, k + 1);
    var w := s[p..p + |CodeWord(n)|];
    assert w == Zeros(k) + bits;
    Log2Bounds(n + 1);
    FirstBit(n + 1, k);
    assert s[p + k] == w[k];
    assert forall i :: p <= i < p + k ==> s[i] == w[i - p];
    LeadingZerosIs(s, p, k);
    assert s[p + k..p + k + (k + 1)] == w[k..] == bits;
    ValueOfNatBits(n + 1, k + 1);
  }

  lemma FirstBit(n: nat, k: nat)
    requires Pow2(k) <= n < Pow2(k + 1)
    ensures NatBits(n, k + 1)[0]
  {
    NatBitsAt(n, k + 1, 0);
    DivUnique(n, Pow2(k), 1, n - Pow2(k));
  }

  /** A code of at most 63 leading zeros is the codeword of the number it is read as. */
  lemma CodeAtIsCodeWord(s: seq<bool>, p: nat)
    requires p <= |s| && CodeAt(s, p).Some? && LeadingZeros(s, p) <= 63
    ensures var (n, q) := CodeAt(s, p).value; n <= MAX_VALUE && q <= |s| && s[p..q] == CodeWord(n)
  {
    hide NatBits, BitsValue, Pow2, Log2, LeadingZeros;
    var k := LeadingZeros(s, p);
    var (n, q) := CodeAt(s, p).value;
    var bits := s[p + k..q];
    var x := BitsValue(bits);
    LeadingZerosScan(s, p);
    LeadingOne(bits);
    Pow2Monotone(k + 1, 64);
    Pow2Of64();
    DivUnique(x + (U64_LIMIT - 1), U64_LIMIT, 1, x - 1);
    assert n == x - 1;
    Log2Unique(x, k);
    NatBitsOfValue(bits);
    assert s[p..p + k] == Zeros(k);
    assert s[p..q] == s[p..p + k] + bits;
  }

  lemma LeadingOne(bits: seq<bool>)
    requires bits != [] && bits[0]
    ensures Pow2(|bits| - 1) <= BitsValue(bits)
  {
    var zeroed := bits[0 := false];
    ValueOfUpdate(bits, 0, false);
    assert BitsValue(zeroed) >= 0;
  }

  /** No codeword is a prefix of another one. */
  lemma PrefixFree(m: nat, n: nat)
    requires m <= MAX_VALUE && n <= MAX_VALUE
    ensures CodeWord(m) <= CodeWord(n) <==> m == n
  {
    hide CodeWord, CodeAt;
    if CodeWord(m) <= CodeWord(n) {
      var s := CodeWord(n);
      assert s[0..0 + |CodeWord(n)|] == s;
      assert s[0..0 + |CodeWord(m)|] == CodeWord(m);
      CodeWordAt(s, 0, m);
      CodeWordAt(s, 0, n);
    }
  }

  method SizeOfExpGolomb(n: nat) returns (size: nat)
    requires n <= MAX_VALUE
    ensures size == |CodeWord(n)| == 2 * Log2(n + 1) + 1
  {
    var number, zeros := n + 1, 0;
    while number > 1
      invariant number >= 1 && zeros + Log2(number) == Log2(n + 1)
    {
      number := number / 2;
      zeros := zeros + 1;
    }
    return zeros * 2 + 1;
  }

  method SizeOfSignedExpGolomb(z: int) returns (size: nat)
    requires -I64_LIMIT < z < I64_LIMIT
    ensures size == |CodeWord(FromSigned(z))|
  {
    size := SizeOfExpGolomb(if z <= 0 then -z * 2 else z * 2 - 1);
  }

  method WriteExpGolomb(w: BitWriter, n: nat) returns (r: Result<(), IoError>)
    requires w.Valid() && n <= MAX_VALUE
    modifies w
    ensures w.Valid() && r == Ok(())
    ensures w.Written() == old(w.Written()) + CodeWord(n)
  {
    hide NatBits, Pow2;
    var number, zeros := n + 1, 0;
    while number > 1
      invariant number >= 1 && zeros + Log2(number) == Log2(n + 1)
    {
      number := number / 2;
      zeros := zeros + 1;
    }
    for i := 0 to zeros
      invariant w.Valid() && w.Written() == old(w.Written()) + Zeros(i)
    {
      w.WriteBit(false);
    }
    Log2OfU64(n + 1);
    Log2Bounds(n + 1);
    ConcatAssoc(old(w.Written()), Zeros(zeros), NatBits(n + 1, zeros + 1));
    r := w.WriteBits(n + 1, zeros + 1);
  }

  /** One more bit in a `u64` accumulator, when the number read so far may be longer than that. */
  lemma WrapStep(s: seq<bool>, p: nat, n: nat)
    requires p + n < |s|
    ensures ((ValueAt(s, p, n) % U64_LIMIT) * 2) % U64_LIMIT + (if s[p + n] then 1 else 0)
         == ValueAt(s, p, n + 1) % U64_LIMIT
  {
    var t := s[p..p + n + 1];
    assert t[..n] == s[p..p + n];
    var v, bit := BitsValue(t[..n]), if s[p + n] then 1 else 0;
    assert BitsValue(t) == 2 * v + bit;
    WrapDouble(v, bit);
  }

  lemma WrapDouble(v: nat, bit: nat)
    requires bit <= 1
    ensures ((v % U64_LIMIT) * 2) % U64_LIMIT + bit == (2 * v + bit) % U64_LIMIT
  {
    var q, r := v / U64_LIMIT, v % U64_LIMIT;
    assert v == q * U64_LIMIT + r;
    var carry := if 2 * r < U64_LIMIT then 0 else 1;
    var low := 2 * r - carry * U64_LIMIT;
    DivUnique(2 * r, U64_LIMIT, carry, low);
    assert 2 * v + bit == (2 * q + carry) * U64_LIMIT + (low + bit);
    DivUnique(2 * v + bit, U64_LIMIT, 2 * q + carry, low + bit);
  }

  /** `result - 1`, wrapping, of a number that wrapped around before. */
  lemma WrapDecrement(v: nat)
    ensures (v % U64_LIMIT + (U64_LIMIT - 1)) % U64_LIMIT == (v + (U64_LIMIT - 1)) % U64_LIMIT
  {
    var q, r := v / U64_LIMIT, v % U64_LIMIT;
    assert v == q * U64_LIMIT + r;
    var carry, low := if r == 0 then 0 else 1, if r == 0 then U64_LIMIT - 1 else r - 1;
    DivUnique(r + (U64_LIMIT - 1), U64_LIMIT, carry, low);
    assert v + (U64_LIMIT - 1) == (q + carry) * U64_LIMIT + low;
    DivUnique(v + (U64_LIMIT - 1), U64_LIMIT, q + carry, low);
  }

  method ReadExpGolomb(r: BitReader) returns (v: Result<nat, IoError>)
    requires r.Valid()
    modifies r
    ensures r.Valid()
    ensures match CodeAt(r.Stream(), old(r.Position()))
            case Some((n, q)) => v == Ok(n) && r.Position() == q
            case None => v == Err(UnexpectedEof)
  {
    hide BitsValue, BytesBits, ValueAt, LeadingZeros;
    ghost var s, p := r.Stream(), r.Position();
    var zeros := 0;
    var bit :- r.ReadBit();
    LeadingZerosScan(s, p);
    while !bit
      invariant r.Valid() && r.Position() == p + zeros + 1 <= |s|
      invariant bit == s[p + zeros] && zeros <= LeadingZeros(s, p)
      decreases |s| - zeros
    {
      zeros := zeros + 1;
      bit :- r.ReadBit();
    }
    assert zeros == LeadingZeros(s, p);
    var result :- ReadMantissa(r, zeros);
    WrapDecrement(ValueAt(s, p + zeros, zeros + 1));
    return Ok((result + (U64_LIMIT - 1)) % U64_LIMIT);
  }

  /** The second loop of `read_exp_golomb`: the bits behind the leading one that was just read. */
  method ReadMantissa(r: BitReader, zeros: nat) returns (v: Result<nat, IoError>)
    requires r.Valid() && 1 <= r.Position() <= |r.Stream()| && r.Stream()[r.Position() - 1]
    modifies r
    ensures r.Valid()
    ensures var p := old(r.Position());
            if p + zeros <= |r.Stream()| then
              v == Ok(ValueAt(r.Stream(), p - 1, zeros + 1) % U64_LIMIT) && r.Position() == p + zeros
            else
              v == Err(UnexpectedEof)
  {
    hide BitsValue, BytesBits, ValueAt;
    ghost var s, p := r.Stream(), r.Position() - 1;
    var result: nat := 1;
    SingleOne(s, p);
    for i := 0 to zeros
      invariant r.Valid() && r.Position() == p + 1 + i <= |s|
      invariant result == ValueAt(s, p, i + 1) % U64_LIMIT
    {
      var next :- r.ReadBit();
      WrapStep(s, p, i + 1);
      result := (result * 2) % U64_LIMIT + if next then 1 else 0;
    }
    return Ok(result);
  }

  lemma SingleOne(s: seq<bool>, p: nat)
    requires p < |s| && s[p]
    ensures ValueAt(s, p, 1) == 1
  {
    var t := s[p..p + 1];
    assert t[..0] == [] && t[0];
    assert BitsValue(t) == 2 * BitsValue(t[..0]) + 1;
  }

  /** The unsigned number that stands for a signed one. */
  function FromSigned(z: int): (n: nat)
    requires -I64_LIMIT < z < I64_LIMIT
  {
    if z <= 0 then -z * 2 else z * 2 - 1
  }

  function ToSigned(n: nat): (z: int) {
    if n % 2 == 0 then -(n / 2) else n / 2 + 1
  }

  /** The signed mapping is a bijection from (-2^63, 2^63) onto [0, 2^64 - 2]. */
  lemma SignedBijection(z: int, n: nat)
    requires -I64_LIMIT < z < I64_LIMIT && n <= MAX_VALUE
    ensures FromSigned(z) <= MAX_VALUE && -I64_LIMIT < ToSigned(n) < I64_LIMIT
    ensures FromSigned(z) == n <==> ToSigned(n) == z
  {
    var h := n / 2;
    if n % 2 == 0 {
      assert n == 2 * h && ToSigned(n) == -h;
    } else {
      assert n == 2 * h + 1 && ToSigned(n) == h + 1;
    }
  }

  /** The order of table 9-3 of ISO/IEC 14496-10, 0, 1, -1, 2, -2 ...: a positive number has an odd code,
      and its negative the code behind it. */
  lemma SignedOrder(k: int)
    requires 1 <= k < I64_LIMIT
    ensures FromSigned(0) == 0 && ToSigned(0) == 0
    ensures FromSigned(k) % 2 == 1 && FromSigned(k) == 2 * k - 1 && FromSigned(-k) == FromSigned(k) + 1
    ensures ToSigned(2 * k - 1) == k && ToSigned(2 * k) == -k
  {
    assert (2 * k - 1) / 2 == k - 1;
  }

  method WriteSignedExpGolomb(w: BitWriter, z: int) returns (r: Result<(), IoError>)
    requires w.Valid() && -I64_LIMIT < z < I64_LIMIT
    modifies w
    ensures w.Valid() && r == Ok(())
    ensures w.Written() == old(w.Written()) + CodeWord(FromSigned(z))
  {
    var number := if z <= 0 then -z * 2 else z * 2 - 1;
    r := WriteExpGolomb(w, number);
  }

  method ReadSignedExpGolomb(r: BitReader) returns (v: Result<int, IoError>)
    requires r.Valid()
    modifies r
    ensures r.Valid()
    ensures match CodeAt(r.Stream(), old(r.Position()))
            case Some((n, q)) => v == Ok(ToSigned(n)) && r.Position() == q
            case None => v == Err(UnexpectedEof)
  {
    var n: int :- ReadExpGolomb(r);
    if n % 2 == 0 {
      return Ok(-(n / 2));
    } else {
      return Ok(n / 2 + 1);
    }
  }
}
