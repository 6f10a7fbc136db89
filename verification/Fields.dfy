/** A bit stream as a list of fields: what the bit writer writes and the bit reader reads
    when their calls are mixed freely, at whatever alignment arises. */
module Fields {
  import opened Wrappers
  import opened Bits
  import opened BitReading
  import opened BitWriting
  import opened ExpGolomb

  datatype Field =
    | Bit(bit: bool)
    | Fixed(value: nat, width: nat)
    | Unsigned(n: nat)
    | Signed(z: int)
    | Raw(bytes: seq<byte>)
    | AlignBits

  datatype Shape =
    | BitShape
    | FixedShape(width: nat)
    | UnsignedShape
    | SignedShape
    | RawShape(len: nat)
    | AlignShape

  function ShapeOf(f: Field): Shape {
    match f
    case Bit(_) => BitShape
    case Fixed(_, width) => FixedShape(width)
    case Unsigned(_) => UnsignedShape
    case Signed(_) => SignedShape
    case Raw(bytes) => RawShape(|bytes|)
    case AlignBits => AlignShape
  }

  function ShapesOf(fs: seq<Field>): (shapes: seq<Shape>)
    ensures |shapes| == |fs|
    ensures forall i :: 0 <= i < |fs| ==> shapes[i] == ShapeOf(fs[i])
  {
    seq(|fs|, i requires 0 <= i < |fs| => ShapeOf(fs[i]))
  }

  /** What the arguments of the write calls may be. */
  ghost predicate Writable(f: Field) {
    match f
    case Fixed(value, width) => width <= 64 && value < Pow2(width)
    case Unsigned(n) => n <= MAX_VALUE
    case Signed(z) => -I64_LIMIT < z < I64_LIMIT
    case _ => true
  }

  ghost predicate AllWritable(fs: seq<Field>) {
    forall i :: 0 <= i < |fs| ==> Writable(fs[i])
  }

  /** The bits of one field that starts at bit position `p`. */
  ghost function FieldBits(f: Field, p: nat): seq<bool>
    requires Writable(f)
  {
    match f
    case Bit(bit) => [bit]
    case Fixed(value, width) => NatBits(value, width)
    case Unsigned(n) => CodeWord(n)
    case Signed(z) => CodeWord(FromSigned(z))
    case Raw(bytes) => BytesBits(bytes)
    case AlignBits => Padding(p)
  }

  ghost function Encode(fs: seq<Field>, p: nat): seq<bool>
    requires AllWritable(fs)
  {
    if fs == [] then []
    else
      var init := Encode(fs[..|fs| - 1], p);
      init + FieldBits(fs[|fs| - 1], p + |init|)
  }

  lemma EncodeNothing(p: nat)
    ensures Encode([], p) == []
  {
  }

  lemma EncodeLast(fs: seq<Field>, p: nat)
    requires AllWritable(fs) && fs != []
    ensures var init := fs[..|fs| - 1];
            && AllWritable(init) && Writable(fs[|fs| - 1])
            && Encode(fs, p) == Encode(init, p) + FieldBits(fs[|fs| - 1], p + |Encode(init, p)|)
  {
    hide FieldBits, Writable;
  }

  lemma EncodeExtend(fs: seq<Field>, f: Field, p: nat)
    requires AllWritable(fs) && Writable(f)
    ensures AllWritable(fs + [f])
    ensures Encode(fs + [f], p) == Encode(fs, p) + FieldBits(f, p + |Encode(fs, p)|)
  {
    hide Encode, FieldBits, Writable;
    var g := fs + [f];
    assert g[..|g| - 1] == fs && g[|g| - 1] == f;
    EncodeLast(g, p);
  }

  lemma {:induction false} EncodeConcat(fs: seq<Field>, gs: seq<Field>, p: nat)
    requires AllWritable(fs) && AllWritable(gs)
    ensures AllWritable(fs + gs)
    ensures Encode(fs + gs, p) == Encode(fs, p) + Encode(gs, p + |Encode(fs, p)|)
  {
    hide FieldBits, Writable, Encode;
    if gs == [] {
      assert fs + gs == fs;
      EncodeNothing(p + |Encode(fs, p)|);
    } else {
      var init, g := gs[..|gs| - 1], gs[|gs| - 1];
      EncodeConcat(fs, init, p);
      EncodeExtend(fs + init, g, p);
      assert fs + init + [g] == fs + gs && init + [g] == gs;
      EncodeExtend(init, g, p + |Encode(fs, p)|);
      ConcatAssoc(Encode(fs, p), Encode(init, p + |Encode(fs, p)|), FieldBits(g, p + |Encode(fs + init, p)|));
    }
  }

  /** Without an alignment, the bits do not depend on the place. */
  lemma {:induction false} EncodeAnywhere(fs: seq<Field>, p: nat, q: nat)
    requires AllWritable(fs) && forall i :: 0 <= i < |fs| ==> !fs[i].AlignBits?
    ensures Encode(fs, p) == Encode(fs, q)
  {
    hide NatBits, BytesBits, CodeWord;
    if fs != [] {
      EncodeAnywhere(fs[..|fs| - 1], p, q);
    }
  }

  /** The width of a field that does not depend on its value or its place. */
  function Width(f: Field): nat {
    match f
    case Bit(_) => 1
    case Fixed(_, width) => width
    case Raw(bytes) => 8 * |bytes|
    case _ => 0
  }

  lemma EncodeGrows(fs: seq<Field>, f: Field, p: nat)
    requires AllWritable(fs) && Writable(f) && (f.Bit? || f.Fixed? || f.Raw?)
    ensures AllWritable(fs + [f])
    ensures |Encode(fs + [f], p)| == |Encode(fs, p)| + Width(f)
  {
    EncodeExtend(fs, f, p);
  }

  lemma EncodeOne(f: Field, p: nat)
    requires Writable(f)
    ensures AllWritable([f]) && Encode([f], p) == FieldBits(f, p)
  {
    hide FieldBits;
    EncodeNothing(p);
    EncodeExtend([], f, p);
    assert [] + [f] == [f];
  }

  /** The bytes whose bits stand at `p`. */
  ghost function BytesAt(s: seq<bool>, p: nat, len: nat): (bytes: seq<byte>)
    requires p + 8 * len <= |s|
    ensures |bytes| == len
  {
    if len == 0 then []
    else
      var tail := s[p + 8 * (len - 1)..p + 8 * len];
      assert Pow2(8) == 256;
      BytesAt(s, p, len - 1) + [BitsValue(tail)]
  }

  lemma {:induction false} BitsOfBytesAt(s: seq<bool>, p: nat, len: nat)
    requires p + 8 * len <= |s|
    ensures BytesBits(BytesAt(s, p, len)) == s[p..p + 8 * len]
  {
    if len != 0 {
      var bytes := BytesAt(s, p, len);
      BitsOfBytesAt(s, p, len - 1);
      assert bytes[..len - 1] == BytesAt(s, p, len - 1);
      NatBitsOfValue(s[p + 8 * (len - 1)..p + 8 * len]);
    }
  }

  /** What reading one field of the given shape at `p` yields, and the position behind it. */
  ghost function FieldAt(s: seq<bool>, p: nat, shape: Shape): Option<(Field, nat)> {
    match shape
    case BitShape => if p < |s| then Some((Bit(s[p]), p + 1)) else None
    case FixedShape(width) =>
      var n := AtMost64(width);
      if p + n <= |s| || n == 0 then Some((Fixed(ValueAt(s, p, n), width), p + n)) else None
    case UnsignedShape =>
      (match CodeAt(s, p)
       case Some((n, q)) => Some((Unsigned(n), q))
       case None => None)
    case SignedShape =>
      (match CodeAt(s, p)
       case Some((n, q)) => Some((Signed(ToSigned(n)), q))
       case None => None)
    case RawShape(len) =>
      if len == 0 then Some((Raw([]), p))
      else if p + 8 * len <= |s| then Some((Raw(BytesAt(s, p, len)), p + 8 * len))
      else None
    case AlignShape => Some((AlignBits, 8 * CeilDiv8(p)))
  }

  ghost function Decode(s: seq<bool>, p: nat, shapes: seq<Shape>): Option<(seq<Field>, nat)> {
    if shapes == [] then Some(([], p))
    else
      match Decode(s, p, shapes[..|shapes| - 1])
      case None => None
      case Some((fs, q)) =>
        match FieldAt(s, q, shapes[|shapes| - 1])
        case None => None
        case Some((f, q')) => Some((fs + [f], q'))
  }

  lemma DecodeNothing(s: seq<bool>, p: nat)
    ensures Decode(s, p, []) == Some(([], p))
  {
  }

  lemma DecodeExtend(s: seq<bool>, p: nat, shapes: seq<Shape>, shape: Shape)
    ensures Decode(s, p, shapes + [shape]) ==
            match Decode(s, p, shapes)
            case None => None
            case Some((fs, q)) =>
              match FieldAt(s, q, shape)
              case None => None
              case Some((f, q')) => Some((fs + [f], q'))
  {
    assert (shapes + [shape])[..|shapes|] == shapes;
  }

  /** Fixed-width fields that were read fit their widths. */
  lemma {:induction false} DecodedFieldsFit(s: seq<bool>, p: nat, shapes: seq<Shape>)
    requires forall i :: 0 <= i < |shapes| ==> shapes[i].BitShape? || (shapes[i].FixedShape? && shapes[i].width <= 64)
    requires Decode(s, p, shapes).Some?
    ensures var fs := Decode(s, p, shapes).value.0;
            AllWritable(fs) && ShapesOf(fs) == shapes
  {
    if shapes != [] {
      DecodedFieldsFit(s, p, shapes[..|shapes| - 1]);
    }
  }

  /** The bits of `f` stand at `p`. */
  ghost predicate StandsAt(s: seq<bool>, p: nat, f: Field)
    requires Writable(f)
  {
    p + |FieldBits(f, p)| <= |s| && s[p..p + |FieldBits(f, p)|] == FieldBits(f, p)
  }

  lemma FixedRoundTrip(s: seq<bool>, p: nat, value: nat, width: nat)
    requires Writable(Fixed(value, width)) && StandsAt(s, p, Fixed(value, width))
    ensures FieldAt(s, p, FixedShape(width)) == Some((Fixed(value, width), p + width))
  {
    hide NatBits, BitsValue, Pow2;
    assert s[p..p + width] == NatBits(value, width);
    ValueOfNatBits(value, width);
  }

  lemma CodeRoundTrip(s: seq<bool>, p: nat, f: Field)
    requires (f.Unsigned? || f.Signed?) && Writable(f) && StandsAt(s, p, f)
    ensures FieldAt(s, p, ShapeOf(f)) == Some((f, p + |FieldBits(f, p)|))
  {
    hide CodeWord, CodeAt, ToSigned;
    var n := if f.Unsigned? then f.n else FromSigned(f.z);
    if f.Signed? {
      SignedBijection(f.z, n);
    }
    CodeWordAt(s, p, n);
  }

  lemma RawRoundTrip(s: seq<bool>, p: nat, bytes: seq<byte>)
    requires StandsAt(s, p, Raw(bytes))
    ensures FieldAt(s, p, RawShape(|bytes|)) == Some((Raw(bytes), p + 8 * |bytes|))
  {
    hide BytesBits, BytesAt;
    if bytes != [] {
      BitsOfBytesAt(s, p, |bytes|);
      BytesBitsInjective(BytesAt(s, p, |bytes|), bytes);
    }
  }

  lemma BitRoundTrip(s: seq<bool>, p: nat, bit: bool)
    requires StandsAt(s, p, Bit(bit))
    ensures FieldAt(s, p, BitShape) == Some((Bit(bit), p + 1))
  {
    assert s[p] == s[p..p + 1][0] == bit;
  }

  lemma AlignRoundTrip(s: seq<bool>, p: nat)
    ensures FieldAt(s, p, AlignShape) == Some((AlignBits, p + |FieldBits(AlignBits, p)|))
  {
  }

  lemma Widths(f: Field, p: nat)
    requires Writable(f)
    ensures f.Bit? || f.Fixed? || f.Raw? ==> |FieldBits(f, p)| == Width(f)
  {
  }

  lemma FieldRoundTrip(s: seq<bool>, p: nat, f: Field)
    requires Writable(f) && StandsAt(s, p, f)
    ensures FieldAt(s, p, ShapeOf(f)) == Some((f, p + |FieldBits(f, p)|))
  {
    hide FieldAt, FieldBits, StandsAt, Pow2;
    Widths(f, p);
    match f
    case Bit(bit) => BitRoundTrip(s, p, bit);
    case Fixed(value, width) => FixedRoundTrip(s, p, value, width);
    case Unsigned(_) => CodeRoundTrip(s, p, f);
    case Signed(_) => CodeRoundTrip(s, p, f);
    case Raw(bytes) => RawRoundTrip(s, p, bytes);
    case AlignBits => AlignRoundTrip(s, p);
  }

  lemma StandsInParts<T>(s: seq<T>, p: nat, a: seq<T>, b: seq<T>)
    requires p + |a + b| <= |s| && s[p..p + |a + b|] == a + b
    ensures s[p..p + |a|] == a && s[p + |a|..p + |a| + |b|] == b
  {
    var w := s[p..p + |a + b|];
    assert s[p..p + |a|] == w[..|a|] == a;
    assert s[p + |a|..p + |a| + |b|] == w[|a|..] == b;
  }

  /** Fields written one after the other are read back, wherever in a stream they start and
      whatever follows, and the reader stops exactly behind them. */
  lemma {:induction false} MixedRoundTrip(s: seq<bool>, p: nat, fs: seq<Field>)
    requires AllWritable(fs)
    requires p + |Encode(fs, p)| <= |s| && s[p..p + |Encode(fs, p)|] == Encode(fs, p)
    ensures Decode(s, p, ShapesOf(fs)) == Some((fs, p + |Encode(fs, p)|))
  {
    hide FieldBits, FieldAt, Writable, Encode, Decode;
    if fs == [] {
      EncodeNothing(p);
      DecodeNothing(s, p);
    } else {
      var init, f := fs[..|fs| - 1], fs[|fs| - 1];
      var e, q := Encode(init, p), p + |Encode(init, p)|;
      assert fs == init + [f];
      EncodeExtend(init, f, p);
      assert Encode(fs, p) == e + FieldBits(f, q);
      StandsInParts(s, p, e, FieldBits(f, q));
      MixedRoundTrip(s, p, init);
      FieldRoundTrip(s, q, f);
      assert ShapesOf(fs) == ShapesOf(init) + [ShapeOf(f)];
      DecodeExtend(s, p, ShapesOf(init), ShapeOf(f));
    }
  }

  /** The fields stand at `p`. */
  ghost predicate Holds(s: seq<bool>, p: nat, fs: seq<Field>)
    requires AllWritable(fs)
  {
    p + |Encode(fs, p)| <= |s| && s[p..p + |Encode(fs, p)|] == Encode(fs, p)
  }

  lemma HoldsConcat(s: seq<bool>, p: nat, fs: seq<Field>, gs: seq<Field>)
    requires AllWritable(fs) && AllWritable(gs)
    requires AllWritable(fs + gs) ==> Holds(s, p, fs + gs)
    ensures Holds(s, p, fs) && Holds(s, p + |Encode(fs, p)|, gs)
    ensures AllWritable(fs + gs)
    ensures Encode(fs + gs, p) == Encode(fs, p) + Encode(gs, p + |Encode(fs, p)|)
  {
    hide Encode, FieldBits, Writable;
    EncodeConcat(fs, gs, p);
    var e, d := Encode(fs, p), Encode(gs, p + |Encode(fs, p)|);
    StandsInParts(s, p, e, d);
  }

  method WriteField(w: BitWriter, f: Field) returns (r: Result<(), IoError>)
    requires w.Valid() && Writable(f)
    modifies w
    ensures w.Valid() && r == Ok(())
    ensures w.Written() == old(w.Written()) + FieldBits(f, |old(w.Written())|)
  {
    hide NatBits, BytesBits, CodeWord;
    r := Ok(());
    match f
    case Bit(bit) => w.WriteBit(bit);
    case Fixed(value, width) =>
      Pow2Monotone(width, 64);
      Pow2Of64();
      r := w.WriteBits(value, width);
    case Unsigned(n) => r := WriteExpGolomb(w, n);
    case Signed(z) => r := WriteSignedExpGolomb(w, z);
    case Raw(bytes) => var n := w.Write(bytes);
    case AlignBits => w.Align();
  }

  method WriteFields(w: BitWriter, fs: seq<Field>)
    requires w.Valid() && AllWritable(fs)
    modifies w
    ensures w.Valid()
    ensures w.Written() == old(w.Written()) + Encode(fs, |old(w.Written())|)
  {
    hide FieldBits;
    ghost var p := |w.Written()|;
    for i := 0 to |fs|
      invariant w.Valid()
      invariant w.Written() == old(w.Written()) + Encode(fs[..i], p)
    {
      var r := WriteField(w, fs[i]);
      EncodeExtend(fs[..i], fs[i], p);
      assert fs[..i] + [fs[i]] == fs[..i + 1];
    }
    assert fs[..|fs|] == fs;
  }

  method ReadField(r: BitReader, shape: Shape) returns (v: Result<Field, IoError>)
    requires r.Valid()
    modifies r
    ensures r.Valid()
    ensures match FieldAt(r.Stream(), old(r.Position()), shape)
            case Some((f, q)) => v == Ok(f) && r.Position() == q
            case None => v == Err(UnexpectedEof)
  {
    hide NatBits, BytesBits, CodeAt, BitsValue;
    ghost var s, p := r.Stream(), r.Position();
    match shape
    case BitShape => var bit :- r.ReadBit(); return Ok(Bit(bit));
    case FixedShape(width) => var n :- r.ReadBits(width); return Ok(Fixed(n, width));
    case UnsignedShape => var n :- ReadExpGolomb(r); return Ok(Unsigned(n));
    case SignedShape => var z :- ReadSignedExpGolomb(r); return Ok(Signed(z));
    case RawShape(len) =>
      var bytes :- r.ReadBytes(len);
      if len != 0 {
        BitsOfBytesAt(s, p, len);
        BytesBitsInjective(bytes, BytesAt(s, p, len));
      }
      return Ok(Raw(bytes));
    case AlignShape => r.Align(); return Ok(AlignBits);
  }

  method ReadFields(r: BitReader, shapes: seq<Shape>) returns (v: Result<seq<Field>, IoError>)
    requires r.Valid()
    modifies r
    ensures r.Valid()
    ensures match Decode(r.Stream(), old(r.Position()), shapes)
            case Some((fs, q)) => v == Ok(fs) && r.Position() == q
            case None => v == Err(UnexpectedEof)
  {
    hide FieldAt;
    ghost var s, p := r.Stream(), r.Position();
    var fs := [];
    for i := 0 to |shapes|
      invariant r.Valid()
      invariant Decode(s, p, shapes[..i]) == Some((fs, r.Position()))
    {
      DecodeExtend(s, p, shapes[..i], shapes[i]);
      assert shapes[..i] + [shapes[i]] == shapes[..i + 1];
      DecodeFails(s, p, shapes, i + 1);
      var f :- ReadField(r, shapes[i]);
      fs := fs + [f];
    }
    assert shapes[..|shapes|] == shapes;
    return Ok(fs);
  }

  /** A field that cannot be read makes the whole list unreadable. */
  lemma {:induction false} DecodeFails(s: seq<bool>, p: nat, shapes: seq<Shape>, i: nat)
    requires i <= |shapes|
    ensures Decode(s, p, shapes[..i]).None? ==> Decode(s, p, shapes).None?
    decreases |shapes|
  {
    if i == |shapes| {
      assert shapes[..i] == shapes;
    } else {
      var init := shapes[..|shapes| - 1];
      DecodeFails(s, p, init, i);
      assert init[..i] == shapes[..i];
    }
  }

  /** Writing, finishing and reading back, behind any bytes that were there before. */
  method WriteThenRead(before: seq<byte>, fs: seq<Field>) returns (out: seq<byte>, back: Result<seq<Field>, IoError>)
    requires AllWritable(fs)
    ensures back == Ok(fs)
    ensures before <= out && |out| == |before| + CeilDiv8(|Encode(fs, 8 * |before|)|)
  {
    hide Encode, Decode, NatBits, BytesBits;
    var w := new BitWriter(before);
    WriteFields(w, fs);
    ghost var p, e := 8 * |before|, Encode(fs, 8 * |before|);
    out := w.Finish();
    var r := new BitReader(out);
    var skipped := r.SeekBits(8 * |before|);
    ghost var s := BytesBits(out);
    assert s == BytesBits(before) + e + Padding(p + |e|);
    assert s[p..p + |e|] == e;
    assert s[..p] == BytesBits(before);
    MixedRoundTrip(s, p, fs);
    BytesBitsSplit(out, |before|);
    BytesBitsInjective(out[..|before|], before);
    back := ReadFields(r, ShapesOf(fs));
  }
}
