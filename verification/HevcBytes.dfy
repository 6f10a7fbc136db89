/** The bytes of an HEVC decoder configuration record, stated from the record itself and from the bytes
    themselves: section 8.3.2.1 of ISO/IEC 14496-15, crates/h265/src/config.rs. */
module HevcBytes {
  import opened Wrappers
  import opened Bits
  import opened BitReading
  import opened Fields
  import opened Hevc
  import opened HevcParsing

  /** Bits and numbers of a fixed width, read as one number. */
  ghost predicate Packable(fs: seq<Field>) {
    AllWritable(fs) && forall i :: 0 <= i < |fs| ==> fs[i].Bit? || fs[i].Fixed?
  }

  function Digit(f: Field): nat {
    match f
    case Bit(bit) => if bit then 1 else 0
    case Fixed(value, _) => value
    case _ => 0
  }

  function Number(fs: seq<Field>): nat {
    if fs == [] then 0 else Number(fs[..|fs| - 1]) * Pow2(Width(fs[|fs| - 1])) + Digit(fs[|fs| - 1])
  }

  function Span(fs: seq<Field>): nat {
    if fs == [] then 0 else Span(fs[..|fs| - 1]) + Width(fs[|fs| - 1])
  }

  lemma BitIsDigit(f: Field, p: nat)
    requires Writable(f) && (f.Bit? || f.Fixed?)
    ensures Digit(f) < Pow2(Width(f)) && FieldBits(f, p) == NatBits(Digit(f), Width(f))
  {
    if f.Bit? {
      assert Pow2(1) == 2;
      assert NatBits(Digit(f) / 2, 0) == [];
    }
  }

  lemma {:induction false} PackedBits(fs: seq<Field>, p: nat)
    requires Packable(fs)
    ensures Encode(fs, p) == NatBits(Number(fs), Span(fs))
  {
    hide NatBits, Pow2, FieldBits, Encode;
    if fs == [] {
      EncodeNothing(p);
      assert |NatBits(0, 0)| == 0;
    } else {
      var init, f := fs[..|fs| - 1], fs[|fs| - 1];
      EncodeLast(fs, p);
      PackedBits(init, p);
      BitIsDigit(f, p + |Encode(init, p)|);
      NatBitsConcat(Number(init), Span(init), Digit(f), Width(f));
    }
  }

  /** The fields are written as these bytes, wherever they stand. */
  ghost predicate Spells(fs: seq<Field>, bytes: seq<byte>) {
    AllWritable(fs) && forall p: nat :: Encode(fs, p) == BytesBits(bytes)
  }

  lemma PackedSpells(fs: seq<Field>, bytes: seq<byte>)
    requires Packable(fs) && Span(fs) == 8 * |bytes| && bytes == BigEndian(Number(fs), |bytes|)
    ensures Spells(fs, bytes)
  {
    hide Encode, NatBits, BytesBits, Number, Span, BigEndian, Writable;
    BytesBitsOfBigEndian(Number(fs), |bytes|);
    forall p: nat
      ensures Encode(fs, p) == BytesBits(bytes)
    {
      PackedBits(fs, p);
    }
  }

  lemma SpellsConcat(fs: seq<Field>, bs: seq<byte>, gs: seq<Field>, cs: seq<byte>)
    requires Spells(fs, bs) && Spells(gs, cs)
    ensures Spells(fs + gs, bs + cs)
  {
    hide Encode, BytesBits, Writable;
    BytesBitsConcat(bs, cs);
    assert AllWritable(fs + gs);
    forall p: nat
      ensures Encode(fs + gs, p) == BytesBits(bs + cs)
    {
      EncodeConcat(fs, gs, p);
    }
  }

  lemma NothingSpells()
    ensures Spells([], [])
  {
  }

  lemma RawSpells(bytes: seq<byte>)
    ensures Spells([Raw(bytes)], bytes)
  {
    hide Encode, BytesBits;
    forall p: nat
      ensures AllWritable([Raw(bytes)]) && Encode([Raw(bytes)], p) == BytesBits(bytes)
    {
      EncodeOne(Raw(bytes), p);
    }
  }

  /** A number of whole bytes. */
  lemma NumberSpells(n: nat, width: nat)
    requires n < Pow2(8 * width) && width <= 8
    ensures Spells([Fixed(n, 8 * width)], BigEndian(n, width))
  {
    hide Pow2, BigEndian;
    var fs := [Fixed(n, 8 * width)];
    assert fs[..0] == [];
    PackedSpells(fs, BigEndian(n, width));
  }

  function One(bit: bool): nat {
    if bit then 1 else 0
  }

  lemma SingleNumber(x: Field)
    ensures Number([x]) == Digit(x) && Span([x]) == Width(x)
  {
    assert [x][..0] == [];
  }

  /** Fields that share a byte. */
  lemma PairNumber(x: Field, y: Field)
    ensures Number([x, y]) == Digit(x) * Pow2(Width(y)) + Digit(y)
    ensures Span([x, y]) == Width(x) + Width(y)
  {
    hide Pow2;
    SingleNumber(x);
    assert [x, y][..1] == [x];
  }

  lemma TripleNumber(x: Field, y: Field, z: Field)
    ensures Number([x, y, z]) == (Digit(x) * Pow2(Width(y)) + Digit(y)) * Pow2(Width(z)) + Digit(z)
    ensures Span([x, y, z]) == Width(x) + Width(y) + Width(z)
  {
    hide Pow2;
    PairNumber(x, y);
    assert [x, y, z][..2] == [x, y];
  }

  lemma QuadNumber(x: Field, y: Field, z: Field, u: Field)
    ensures Number([x, y, z, u]) ==
            ((Digit(x) * Pow2(Width(y)) + Digit(y)) * Pow2(Width(z)) + Digit(z)) * Pow2(Width(u)) + Digit(u)
    ensures Span([x, y, z, u]) == Width(x) + Width(y) + Width(z) + Width(u)
  {
    hide Pow2;
    TripleNumber(x, y, z);
    assert [x, y, z, u][..3] == [x, y, z];
  }

  lemma ByteIsBigEndian(b: byte)
    ensures BigEndian(b, 1) == [b]
  {
  }

  lemma TwoByteNumber(n: nat)
    ensures BigEndian(n, 2) == [n / 256 % 256, n % 256]
  {
    assert BigEndian(n / 256, 1) == [n / 256 % 256];
  }

  lemma FirstSpells(space: nat, tier: bool, idc: nat)
    requires space < 4 && idc < 32
    ensures Spells([Fixed(space, 2), Bit(tier), Fixed(idc, 5)], [64 * space + 32 * One(tier) + idc])
  {
    hide Pow2, Number, Span, BigEndian;
    Pow2Values();
    var fs := [Fixed(space, 2), Bit(tier), Fixed(idc, 5)];
    TripleNumber(fs[0], fs[1], fs[2]);
    ByteIsBigEndian(64 * space + 32 * One(tier) + idc);
    PackedSpells(fs, [64 * space + 32 * One(tier) + idc]);
  }

  lemma HeadSpells(complete: bool, reserved: nat, nalType: nat)
    requires reserved < 2 && nalType < 64
    ensures Spells([Bit(complete), Fixed(reserved, 1), Fixed(nalType, 6)],
                   [128 * One(complete) + 64 * reserved + nalType])
  {
    hide Pow2, Number, Span, BigEndian;
    Pow2Values();
    var fs := [Bit(complete), Fixed(reserved, 1), Fixed(nalType, 6)];
    TripleNumber(fs[0], fs[1], fs[2]);
    ByteIsBigEndian(128 * One(complete) + 64 * reserved + nalType);
    PackedSpells(fs, [128 * One(complete) + 64 * reserved + nalType]);
  }

  /** Six reserved bits and two others. */
  lemma SixTwoSpells(reserved: nat, x: nat)
    requires reserved < 64 && x < 4
    ensures Spells([Fixed(reserved, 6), Fixed(x, 2)], [4 * reserved + x])
  {
    hide Pow2, Number, Span, BigEndian;
    Pow2Values();
    PairNumber(Fixed(reserved, 6), Fixed(x, 2));
    ByteIsBigEndian(4 * reserved + x);
    PackedSpells([Fixed(reserved, 6), Fixed(x, 2)], [4 * reserved + x]);
  }

  lemma FiveThreeSpells(reserved: nat, x: nat)
    requires reserved < 32 && x < 8
    ensures Spells([Fixed(reserved, 5), Fixed(x, 3)], [8 * reserved + x])
  {
    hide Pow2, Number, Span, BigEndian;
    Pow2Values();
    PairNumber(Fixed(reserved, 5), Fixed(x, 3));
    ByteIsBigEndian(8 * reserved + x);
    PackedSpells([Fixed(reserved, 5), Fixed(x, 3)], [8 * reserved + x]);
  }

  lemma FourTwelveSpells(reserved: nat, x: nat)
    requires reserved < 16 && x < 4096
    ensures Spells([Fixed(reserved, 4), Fixed(x, 12)], [16 * reserved + x / 256, x % 256])
  {
    hide Pow2, Number, Span, BigEndian;
    Pow2Values();
    PairNumber(Fixed(reserved, 4), Fixed(x, 12));
    var n := 4096 * reserved + x;
    TwoByteNumber(n);
    DivUnique(n, 256, 16 * reserved + x / 256, x % 256);
    PackedSpells([Fixed(reserved, 4), Fixed(x, 12)], [16 * reserved + x / 256, x % 256]);
  }

  lemma LastSpells(constantRate: nat, layers: nat, nested: bool, lengthSize: nat)
    requires constantRate < 4 && layers < 8 && lengthSize < 4
    ensures Spells([Fixed(constantRate, 2), Fixed(layers, 3), Bit(nested), Fixed(lengthSize, 2)],
                   [64 * constantRate + 8 * layers + 4 * One(nested) + lengthSize])
  {
    hide Pow2, BigEndian, Number, Span;
    Pow2Values();
    var x, y, z, u := Fixed(constantRate, 2), Fixed(layers, 3), Bit(nested), Fixed(lengthSize, 2);
    QuadNumber(x, y, z, u);
    var b := 64 * constantRate + 8 * layers + 4 * One(nested) + lengthSize;
    ByteIsBigEndian(b);
    PackedSpells([x, y, z, u], [b]);
  }

  /** The rows of the header, with any reserved bits. */
  function GeneralRow(space: nat, tier: bool, idc: nat, compatibility: nat, constraints: nat, level: nat): seq<Field> {
    [Fixed(space, 2), Bit(tier), Fixed(idc, 5)] + [Fixed(compatibility, 32)] + [Fixed(constraints, 48)]
    + [Fixed(level, 8)]
  }

  lemma GeneralSpells(space: nat, tier: bool, idc: nat, compatibility: nat, constraints: nat, level: nat)
    requires space < 4 && idc < 32 && compatibility < 0x1_0000_0000 && constraints < U48_LIMIT && level < 256
    ensures Spells(GeneralRow(space, tier, idc, compatibility, constraints, level),
                   [64 * space + 32 * One(tier) + idc] + BigEndian(compatibility, 4) + BigEndian(constraints, 6)
                   + [level])
  {
    hide Pow2, Spells, BigEndian;
    Pow2Values();
    FirstSpells(space, tier, idc);
    NumberSpells(compatibility, 4);
    NumberSpells(constraints, 6);
    NumberSpells(level, 1);
    ByteIsBigEndian(level);
    var first := [Fixed(space, 2), Bit(tier), Fixed(idc, 5)];
    var bytes := [64 * space + 32 * One(tier) + idc];
    SpellsConcat(first, bytes, [Fixed(compatibility, 32)], BigEndian(compatibility, 4));
    SpellsConcat(first + [Fixed(compatibility, 32)], bytes + BigEndian(compatibility, 4),
                 [Fixed(constraints, 48)], BigEndian(constraints, 6));
    SpellsConcat(first + [Fixed(compatibility, 32)] + [Fixed(constraints, 48)],
                 bytes + BigEndian(compatibility, 4) + BigEndian(constraints, 6), [Fixed(level, 8)], [level]);
  }

  /** The reserved bits in front of the five fields of `Formats`. */
  datatype Reserved = Reserved(a: nat, b: nat, c: nat, d: nat, e: nat)

  predicate ReservedFit(x: Reserved) {
    x.a < 16 && x.b < 64 && x.c < 64 && x.d < 32 && x.e < 32
  }

  function FormatsRow(x: Reserved, seg: nat, parallelism: nat, chroma: nat, luma: nat, depth: nat): seq<Field> {
    [Fixed(x.a, 4), Fixed(seg, 12)] + [Fixed(x.b, 6), Fixed(parallelism, 2)] + [Fixed(x.c, 6), Fixed(chroma, 2)]
    + [Fixed(x.d, 5), Fixed(luma, 3)] + [Fixed(x.e, 5), Fixed(depth, 3)]
  }

  lemma FormatsSpells(x: Reserved, seg: nat, parallelism: nat, chroma: nat, luma: nat, depth: nat)
    requires ReservedFit(x)
    requires seg < 4096 && parallelism < 4 && chroma < 4 && luma < 8 && depth < 8
    ensures Spells(FormatsRow(x, seg, parallelism, chroma, luma, depth),
                   [16 * x.a + seg / 256, seg % 256, 4 * x.b + parallelism, 4 * x.c + chroma, 8 * x.d + luma,
                    8 * x.e + depth])
  {
    hide Spells;
    FourTwelveSpells(x.a, seg);
    SixTwoSpells(x.b, parallelism);
    SixTwoSpells(x.c, chroma);
    FiveThreeSpells(x.d, luma);
    FiveThreeSpells(x.e, depth);
    var fs, bs := [Fixed(x.a, 4), Fixed(seg, 12)], [16 * x.a + seg / 256, seg % 256];
    SpellsConcat(fs, bs, [Fixed(x.b, 6), Fixed(parallelism, 2)], [4 * x.b + parallelism]);
    fs, bs := fs + [Fixed(x.b, 6), Fixed(parallelism, 2)], bs + [4 * x.b + parallelism];
    SpellsConcat(fs, bs, [Fixed(x.c, 6), Fixed(chroma, 2)], [4 * x.c + chroma]);
    fs, bs := fs + [Fixed(x.c, 6), Fixed(chroma, 2)], bs + [4 * x.c + chroma];
    SpellsConcat(fs, bs, [Fixed(x.d, 5), Fixed(luma, 3)], [8 * x.d + luma]);
    fs, bs := fs + [Fixed(x.d, 5), Fixed(luma, 3)], bs + [8 * x.d + luma];
    SpellsConcat(fs, bs, [Fixed(x.e, 5), Fixed(depth, 3)], [8 * x.e + depth]);
    assert fs + [Fixed(x.e, 5), Fixed(depth, 3)] == FormatsRow(x, seg, parallelism, chroma, luma, depth);
    assert bs + [8 * x.e + depth] == [16 * x.a + seg / 256, seg % 256, 4 * x.b + parallelism, 4 * x.c + chroma,
                                      8 * x.d + luma, 8 * x.e + depth];
  }

  function TimingRow(rate: nat, constantRate: nat, layers: nat, nested: bool, lengthSize: nat): seq<Field> {
    [Fixed(rate, 16)] + [Fixed(constantRate, 2), Fixed(layers, 3), Bit(nested), Fixed(lengthSize, 2)]
  }

  lemma TimingSpells(rate: nat, constantRate: nat, layers: nat, nested: bool, lengthSize: nat)
    requires rate < 0x1_0000 && constantRate < 4 && layers < 8 && lengthSize < 4
    ensures Spells(TimingRow(rate, constantRate, layers, nested, lengthSize),
                   [rate / 256, rate % 256, 64 * constantRate + 8 * layers + 4 * One(nested) + lengthSize])
  {
    hide Spells, Pow2, BigEndian;
    Pow2Values();
    NumberSpells(rate, 2);
    TwoByteNumber(rate);
    LastSpells(constantRate, layers, nested, lengthSize);
    SpellsConcat([Fixed(rate, 16)], [rate / 256, rate % 256],
                 [Fixed(constantRate, 2), Fixed(layers, 3), Bit(nested), Fixed(lengthSize, 2)],
                 [64 * constantRate + 8 * layers + 4 * One(nested) + lengthSize]);
    assert [rate / 256, rate % 256] + [64 * constantRate + 8 * layers + 4 * One(nested) + lengthSize]
        == [rate / 256, rate % 256, 64 * constantRate + 8 * layers + 4 * One(nested) + lengthSize];
  }

  /** A unit behind its length, of which 16 bits are kept. */
  function NaluBytes(nalu: seq<byte>): seq<byte> {
    [|nalu| / 256 % 256, |nalu| % 256] + nalu
  }

  function NalusBytes(nalus: seq<seq<byte>>): seq<byte> {
    if nalus == [] then [] else NalusBytes(nalus[..|nalus| - 1]) + NaluBytes(nalus[|nalus| - 1])
  }

  function ArrayBytes(a: NaluArray): seq<byte>
    requires a.nalType < 64
  {
    [128 * One(a.complete) + a.nalType, |a.nalus| / 256 % 256, |a.nalus| % 256] + NalusBytes(a.nalus)
  }

  function ArraysBytes(arrays: seq<NaluArray>): seq<byte>
    requires TypesFit(arrays)
  {
    if arrays == [] then [] else ArraysBytes(arrays[..|arrays| - 1]) + ArrayBytes(arrays[|arrays| - 1])
  }

  /** The 23 bytes in front of the arrays. */
  function HeaderBytes(r: Record): seq<byte>
    requires GeneralFits(r) && FormatsFit(r) && TimingFits(r)
  {
    [1]
    + [64 * r.profileSpace + 32 * One(r.tier) + r.profileIdc]
    + BigEndian(r.compatibility, 4) + BigEndian(r.constraints, 6) + [r.level]
    + [0xF0 + r.minSegmentation / 256, r.minSegmentation % 256, 0xFC + r.parallelism, 0xFC + r.chromaFormat,
       0xF8 + r.lumaDepth, 0xF8 + r.chromaDepth]
    + [r.frameRate / 256, r.frameRate % 256,
       64 * r.constantRate + 8 * r.layers + 4 * One(r.nested) + r.lengthSize]
    + [|r.arrays| % 256]
  }

  function RecordBytes(r: Record): seq<byte>
    requires BitsFit(r)
  {
    HeaderBytes(r) + ArraysBytes(r.arrays)
  }

  /** Byte by byte. */
  lemma HeaderByteByByte(r: Record)
    requires GeneralFits(r) && FormatsFit(r) && TimingFits(r) && r.constraints < U48_LIMIT
    ensures var b := HeaderBytes(r);
            && |b| == 23
            && b[0] == 1
            && b[1] == 64 * r.profileSpace + 32 * One(r.tier) + r.profileIdc
            && FromBigEndian(b[2..6]) == r.compatibility
            && FromBigEndian(b[6..12]) == r.constraints
            && b[12] == r.level
            && b[13] == 0xF0 + r.minSegmentation / 256 && b[14] == r.minSegmentation % 256
            && b[15] == 0xFC + r.parallelism && b[16] == 0xFC + r.chromaFormat
            && b[17] == 0xF8 + r.lumaDepth && b[18] == 0xF8 + r.chromaDepth
            && b[19] == r.frameRate / 256 && b[20] == r.frameRate % 256
            && b[21] == 64 * r.constantRate + 8 * r.layers + 4 * One(r.nested) + r.lengthSize
            && b[22] == |r.arrays| % 256
  {
    hide BigEndian, FromBigEndian, Pow2;
    Pow2Values();
    BigEndianRoundTrip(r.compatibility, 4);
    BigEndianRoundTrip(r.constraints, 6);
    var b := HeaderBytes(r);
    assert b[2..6] == BigEndian(r.compatibility, 4);
    assert b[6..12] == BigEndian(r.constraints, 6);
  }

  lemma RowsAre(r: Record)
    ensures General(r) == GeneralRow(r.profileSpace, r.tier, r.profileIdc, r.compatibility, r.constraints, r.level)
    ensures Formats(r) == FormatsRow(Reserved(15, 63, 63, 31, 31), r.minSegmentation, r.parallelism, r.chromaFormat,
                                     r.lumaDepth, r.chromaDepth)
    ensures Timing(r) == TimingRow(r.frameRate, r.constantRate, r.layers, r.nested, r.lengthSize)
  {
  }

  lemma RowsSpell(version: seq<Field>, v: seq<byte>, general: seq<Field>, g: seq<byte>, formats: seq<Field>,
                  f: seq<byte>, timing: seq<Field>, t: seq<byte>, count: seq<Field>, c: seq<byte>)
    requires Spells(version, v) && Spells(general, g) && Spells(formats, f) && Spells(timing, t) && Spells(count, c)
    ensures Spells(version + general + formats + timing + count, v + g + f + t + c)
  {
    hide Spells;
    SpellsConcat(version, v, general, g);
    SpellsConcat(version + general, v + g, formats, f);
    SpellsConcat(version + general + formats, v + g + f, timing, t);
    SpellsConcat(version + general + formats + timing, v + g + f + t, count, c);
  }

  lemma HeaderSpells(r: Record)
    requires GeneralFits(r) && FormatsFit(r) && TimingFits(r) && r.constraints < U48_LIMIT
    ensures Spells(HeaderFields(r), HeaderBytes(r))
  {
    hide Spells, BigEndian, Pow2, General, Formats, Timing, GeneralRow, FormatsRow, TimingRow;
    Pow2Values();
    RowsAre(r);
    GeneralSpells(r.profileSpace, r.tier, r.profileIdc, r.compatibility, r.constraints, r.level);
    FormatsSpells(Reserved(15, 63, 63, 31, 31), r.minSegmentation, r.parallelism, r.chromaFormat, r.lumaDepth,
                  r.chromaDepth);
    TimingSpells(r.frameRate, r.constantRate, r.layers, r.nested, r.lengthSize);
    NumberSpells(1, 1);
    ByteIsBigEndian(1);
    NumberSpells(|r.arrays| % 256, 1);
    ByteIsBigEndian(|r.arrays| % 256);
    var general := [64 * r.profileSpace + 32 * One(r.tier) + r.profileIdc]
                   + BigEndian(r.compatibility, 4) + BigEndian(r.constraints, 6) + [r.level];
    var formats := [0xF0 + r.minSegmentation / 256, r.minSegmentation % 256, 0xFC + r.parallelism,
                    0xFC + r.chromaFormat, 0xF8 + r.lumaDepth, 0xF8 + r.chromaDepth];
    var timing := [r.frameRate / 256, r.frameRate % 256,
                   64 * r.constantRate + 8 * r.layers + 4 * One(r.nested) + r.lengthSize];
    RowsSpell([Fixed(1, 8)], [1], General(r), general, Formats(r), formats, Timing(r), timing,
              [Count(|r.arrays|, 8)], [|r.arrays| % 256]);
    assert [1] + general + formats + timing + [|r.arrays| % 256] == HeaderBytes(r);
  }

  lemma LowBytes(n: nat)
    ensures n % 0x1_0000 / 256 == n / 256 % 256 && n % 0x1_0000 % 256 == n % 256
  {
  }

  lemma CountIs(n: nat)
    ensures Count(n, 16) == Fixed(n % 0x1_0000, 16)
  {
    hide Pow2;
    Pow2Values();
  }

  lemma CountSpells(n: nat)
    ensures Spells([Count(n, 16)], [n / 256 % 256, n % 256])
  {
    hide Spells, Pow2, BigEndian, Count;
    Pow2Values();
    CountIs(n);
    LowBytes(n);
    var m := n % 0x1_0000;
    NumberSpells(m, 2);
    TwoByteNumber(m);
    assert m / 256 % 256 == m / 256;
  }

  lemma NaluSpells(nalu: seq<byte>)
    ensures Spells(NaluFields(nalu), NaluBytes(nalu))
  {
    hide Spells, Count;
    CountSpells(|nalu|);
    RawSpells(nalu);
    SpellsConcat([Count(|nalu|, 16)], [|nalu| / 256 % 256, |nalu| % 256], [Raw(nalu)], nalu);
    assert [Count(|nalu|, 16)] + [Raw(nalu)] == NaluFields(nalu);
  }

  lemma {:induction false} NalusSpell(nalus: seq<seq<byte>>)
    ensures Spells(NalusFields(nalus), NalusBytes(nalus))
    ensures |NalusBytes(nalus)| == NalusSize(nalus)
  {
    hide Spells, NaluFields;
    if nalus == [] {
      NothingSpells();
    } else {
      var n := |nalus| - 1;
      NalusSpell(nalus[..n]);
      NaluSpells(nalus[n]);
      SpellsConcat(NalusFields(nalus[..n]), NalusBytes(nalus[..n]), NaluFields(nalus[n]), NaluBytes(nalus[n]));
    }
  }

  lemma ArraySpells(a: NaluArray)
    requires a.nalType < 64
    ensures Spells(ArrayFields(a), ArrayBytes(a))
  {
    hide Spells, NalusFields, NalusBytes, Count;
    HeadSpells(a.complete, 0, a.nalType);
    CountSpells(|a.nalus|);
    NalusSpell(a.nalus);
    var head, count := [128 * One(a.complete) + a.nalType], [|a.nalus| / 256 % 256, |a.nalus| % 256];
    SpellsConcat(ArrayHead(a), head, [Count(|a.nalus|, 16)], count);
    SpellsConcat(ArrayHead(a) + [Count(|a.nalus|, 16)], head + count, NalusFields(a.nalus), NalusBytes(a.nalus));
    assert head + count + NalusBytes(a.nalus) == ArrayBytes(a);
  }

  lemma {:induction false} ArraysSpell(arrays: seq<NaluArray>)
    requires TypesFit(arrays)
    ensures Spells(ArraysFields(arrays), ArraysBytes(arrays))
  {
    hide Spells, ArrayFields, ArrayBytes;
    if arrays == [] {
      NothingSpells();
    } else {
      var n := |arrays| - 1;
      ArraysSpell(arrays[..n]);
      ArraySpells(arrays[n]);
      SpellsConcat(ArraysFields(arrays[..n]), ArraysBytes(arrays[..n]), ArrayFields(arrays[n]), ArrayBytes(arrays[n]));
    }
  }

  /** The fields of a record are written as `RecordBytes`. */
  lemma RecordSpells(r: Record, p: nat)
    requires BitsFit(r) && r.constraints < U48_LIMIT
    ensures AllWritable(RecordFields(r)) && Encode(RecordFields(r), p) == BytesBits(RecordBytes(r))
  {
    hide HeaderFields, HeaderBytes, ArraysFields, ArraysBytes, Encode, BytesBits, Writable;
    HeaderSpells(r);
    ArraysSpell(r.arrays);
    SpellsConcat(HeaderFields(r), HeaderBytes(r), ArraysFields(r.arrays), ArraysBytes(r.arrays));
  }
}
