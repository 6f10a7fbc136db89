/** The HEVC decoder configuration record of crates/h265/src/config.rs;
    section 8.3.2.1 of ISO/IEC 14496-15. */
module Hevc {
  import opened Wrappers
  import opened Bits
  import opened BitReading
  import opened BitWriting
  import opened Fields

  type u16 = x: int | 0 <= x < 0x1_0000
  type u32 = x: int | 0 <= x < 0x1_0000_0000

  datatype NaluArray = NaluArray(complete: bool, nalType: byte, nalus: seq<seq<byte>>)

  datatype Record = Record(
    profileSpace: byte,
    tier: bool,
    profileIdc: byte,
    compatibility: u32,
    constraints: nat,
    level: byte,
    minSegmentation: u16,
    parallelism: byte,
    chromaFormat: byte,
    lumaDepth: byte,
    chromaDepth: byte,
    frameRate: u16,
    constantRate: byte,
    layers: byte,
    nested: bool,
    lengthSize: byte,
    arrays: seq<NaluArray>)

  /** VPS, SPS, PPS, prefix SEI and suffix SEI. */
  predicate ParameterSetType(nalType: nat) {
    nalType == 32 || nalType == 33 || nalType == 34 || nalType == 39 || nalType == 40
  }

  /** The fields, in the order of the standard's syntax table. Reserved bits are ones, except
      the one in front of a NAL unit type. */
  function General(r: Record): seq<Field> {
    [Fixed(r.profileSpace, 2), Bit(r.tier), Fixed(r.profileIdc, 5),
     Fixed(r.compatibility, 32), Fixed(r.constraints, 48), Fixed(r.level, 8)]
  }

  function Formats(r: Record): seq<Field> {
    [Fixed(15, 4), Fixed(r.minSegmentation, 12), Fixed(63, 6), Fixed(r.parallelism, 2),
     Fixed(63, 6), Fixed(r.chromaFormat, 2), Fixed(31, 5), Fixed(r.lumaDepth, 3),
     Fixed(31, 5), Fixed(r.chromaDepth, 3)]
  }

  function Timing(r: Record): seq<Field> {
    [Fixed(r.frameRate, 16), Fixed(r.constantRate, 2), Fixed(r.layers, 3), Bit(r.nested),
     Fixed(r.lengthSize, 2)]
  }

  /** `len() as u8` and `len() as u16` keep the low bits. */
  function Count(n: nat, width: nat): Field {
    Fixed(n % Pow2(width), width)
  }

  function NaluFields(nalu: seq<byte>): seq<Field> {
    [Count(|nalu|, 16), Raw(nalu)]
  }

  function NalusFields(nalus: seq<seq<byte>>): seq<Field> {
    if nalus == [] then [] else NalusFields(nalus[..|nalus| - 1]) + NaluFields(nalus[|nalus| - 1])
  }

  function ArrayHead(a: NaluArray): seq<Field> {
    [Bit(a.complete), Fixed(0, 1), Fixed(a.nalType, 6)]
  }

  function ArrayFields(a: NaluArray): seq<Field> {
    ArrayHead(a) + [Count(|a.nalus|, 16)] + NalusFields(a.nalus)
  }

  function ArraysFields(arrays: seq<NaluArray>): seq<Field> {
    if arrays == [] then [] else ArraysFields(arrays[..|arrays| - 1]) + ArrayFields(arrays[|arrays| - 1])
  }

  function HeaderFields(r: Record): seq<Field> {
    [Fixed(1, 8)] + General(r) + Formats(r) + Timing(r) + [Count(|r.arrays|, 8)]
  }

  function RecordFields(r: Record): seq<Field> {
    HeaderFields(r) + ArraysFields(r.arrays)
  }

  /** Every field of a fixed number of bits fits. */
  predicate GeneralFits(r: Record) { r.profileSpace < 4 && r.profileIdc < 32 }

  predicate FormatsFit(r: Record) {
    r.minSegmentation < 4096 && r.parallelism < 4 && r.chromaFormat < 4 && r.lumaDepth < 8 && r.chromaDepth < 8
  }

  predicate TimingFits(r: Record) { r.constantRate < 4 && r.layers < 8 && r.lengthSize < 4 }

  predicate TypesFit(arrays: seq<NaluArray>) {
    forall i :: 0 <= i < |arrays| ==> arrays[i].nalType < 64
  }

  predicate BitsFit(r: Record) {
    GeneralFits(r) && FormatsFit(r) && TimingFits(r) && TypesFit(r.arrays)
  }

  const U48_LIMIT: nat := 0x1_0000_0000_0000

  /** What a record must satisfy to be one that `demux` can return. */
  predicate LengthsFit(nalus: seq<seq<byte>>) {
    |nalus| < 0x1_0000 && forall i :: 0 <= i < |nalus| ==> |nalus[i]| < 0x1_0000
  }

  predicate ArrayWellFormed(a: NaluArray) {
    ParameterSetType(a.nalType) && LengthsFit(a.nalus)
  }

  predicate ArraysWellFormed(arrays: seq<NaluArray>) {
    forall i :: 0 <= i < |arrays| ==> ArrayWellFormed(arrays[i])
  }

  predicate WellFormed(r: Record) {
    && GeneralFits(r) && FormatsFit(r) && TimingFits(r)
    && r.constraints < U48_LIMIT && r.lengthSize != 2
    && |r.arrays| < 256 && ArraysWellFormed(r.arrays)
  }

  /** `size()`. */
  function NalusSize(nalus: seq<seq<byte>>): nat {
    if nalus == [] then 0 else NalusSize(nalus[..|nalus| - 1]) + (2 + |nalus[|nalus| - 1]|)
  }

  function ArraysSize(arrays: seq<NaluArray>): nat {
    if arrays == [] then 0 else ArraysSize(arrays[..|arrays| - 1]) + (1 + 2 + NalusSize(arrays[|arrays| - 1].nalus))
  }

  function Size(r: Record): nat {
    1 + 1 + 4 + 6 + 1 + 2 + 1 + 1 + 1 + 1 + 2 + 1 + 1 + ArraysSize(r.arrays)
  }

  lemma Pow2Values()
    ensures Pow2(1) == 2 && Pow2(2) == 4 && Pow2(3) == 8 && Pow2(4) == 16 && Pow2(5) == 32 && Pow2(6) == 64
    ensures Pow2(8) == 256 && Pow2(12) == 4096 && Pow2(16) == 0x1_0000
    ensures Pow2(32) == 0x1_0000_0000 && Pow2(48) == U48_LIMIT
  {
    assert Pow2(8) == 256;
    Pow2Add(8, 4);
    Pow2Add(8, 8);
    Pow2Add(16, 16);
    Pow2Add(32, 16);
  }

  lemma HeadersWritable(r: Record)
    ensures AllWritable(General(r)) <==> GeneralFits(r) && r.constraints < U48_LIMIT
    ensures AllWritable(Formats(r)) <==> FormatsFit(r)
    ensures AllWritable(Timing(r)) <==> TimingFits(r)
  {
    hide Pow2;
    Pow2Values();
    var g, f, t := General(r), Formats(r), Timing(r);
    if AllWritable(g) { assert Writable(g[0]) && Writable(g[2]) && Writable(g[4]); }
    if AllWritable(f) { assert Writable(f[1]) && Writable(f[3]) && Writable(f[5]) && Writable(f[7]) && Writable(f[9]); }
    if AllWritable(t) { assert Writable(t[1]) && Writable(t[2]) && Writable(t[4]); }
  }

  lemma VersionWritable()
    ensures Writable(Fixed(1, 8)) && AllWritable([Fixed(1, 8)])
  {
    assert Pow2(8) == 256;
  }

  lemma CountWritable(n: nat, width: nat)
    requires width <= 64
    ensures Writable(Count(n, width)) && AllWritable([Count(n, width)])
  {
  }

  lemma NaluWritable(nalu: seq<byte>)
    ensures AllWritable(NaluFields(nalu))
  {
  }

  lemma {:induction false} NalusWritable(nalus: seq<seq<byte>>)
    ensures AllWritable(NalusFields(nalus))
  {
    if nalus != [] {
      NalusWritable(nalus[..|nalus| - 1]);
      NaluWritable(nalus[|nalus| - 1]);
    }
  }

  lemma ArrayWritable(a: NaluArray)
    ensures AllWritable(ArrayHead(a)) <==> a.nalType < 64
    ensures AllWritable(ArrayFields(a)) <==> a.nalType < 64
  {
    hide Pow2;
    Pow2Values();
    NalusWritable(a.nalus);
    var fs := ArrayFields(a);
    assert fs[2] == ArrayHead(a)[2] == Fixed(a.nalType, 6);
    CountWritable(|a.nalus|, 16);
    if a.nalType < 64 {
      assert AllWritable(ArrayHead(a));
    }
  }

  lemma {:induction false} ArraysWritable(arrays: seq<NaluArray>)
    requires TypesFit(arrays)
    ensures AllWritable(ArraysFields(arrays))
  {
    hide ArrayFields, Writable;
    if arrays != [] {
      ArraysWritable(arrays[..|arrays| - 1]);
      ArrayWritable(arrays[|arrays| - 1]);
    }
  }

  /** How many bits the rows of the header take. */
  lemma GeneralLength(r: Record, p: nat)
    requires AllWritable(General(r))
    ensures |Encode(General(r), p)| == 96
  {
    hide Encode, Writable;
    var fs := General(r);
    EncodeNothing(p);
    for i := 0 to |fs|
      invariant |Encode(fs[..i], p)| == [0, 2, 3, 8, 40, 88, 96][i]
    {
      EncodeGrows(fs[..i], fs[i], p);
      assert fs[..i] + [fs[i]] == fs[..i + 1];
    }
    assert fs[..|fs|] == fs;
  }

  lemma FormatsLength(r: Record, p: nat)
    requires AllWritable(Formats(r))
    ensures |Encode(Formats(r), p)| == 48
  {
    hide Encode, Writable;
    var fs := Formats(r);
    EncodeNothing(p);
    for i := 0 to |fs|
      invariant |Encode(fs[..i], p)| == [0, 4, 16, 22, 24, 30, 32, 37, 40, 45, 48][i]
    {
      EncodeGrows(fs[..i], fs[i], p);
      assert fs[..i] + [fs[i]] == fs[..i + 1];
    }
    assert fs[..|fs|] == fs;
  }

  lemma TimingLength(r: Record, p: nat)
    requires AllWritable(Timing(r))
    ensures |Encode(Timing(r), p)| == 24
  {
    hide Encode, Writable;
    var fs := Timing(r);
    EncodeNothing(p);
    for i := 0 to |fs|
      invariant |Encode(fs[..i], p)| == [0, 16, 18, 21, 22, 24][i]
    {
      EncodeGrows(fs[..i], fs[i], p);
      assert fs[..i] + [fs[i]] == fs[..i + 1];
    }
    assert fs[..|fs|] == fs;
  }

  lemma OneLength(f: Field, p: nat)
    requires Writable(f) && (f.Bit? || f.Fixed? || f.Raw?)
    ensures AllWritable([f]) && |Encode([f], p)| == Width(f)
  {
    EncodeNothing(p);
    EncodeGrows([], f, p);
    assert [] + [f] == [f];
  }

  lemma NaluLength(nalu: seq<byte>, p: nat)
    ensures AllWritable(NaluFields(nalu))
    ensures |Encode(NaluFields(nalu), p)| == 8 * (2 + |nalu|)
  {
    hide Encode;
    NaluWritable(nalu);
    OneLength(Count(|nalu|, 16), p);
    EncodeGrows([Count(|nalu|, 16)], Raw(nalu), p);
    assert [Count(|nalu|, 16)] + [Raw(nalu)] == NaluFields(nalu);
  }

  lemma {:induction false} NalusLength(nalus: seq<seq<byte>>, p: nat)
    ensures AllWritable(NalusFields(nalus))
    ensures |Encode(NalusFields(nalus), p)| == 8 * NalusSize(nalus)
  {
    hide Encode, NaluFields, Writable;
    if nalus == [] {
      EncodeNothing(p);
    } else {
      var n := |nalus| - 1;
      NalusLength(nalus[..n], p);
      NaluLength(nalus[n], p + 8 * NalusSize(nalus[..n]));
      EncodeConcat(NalusFields(nalus[..n]), NaluFields(nalus[n]), p);
    }
  }

  lemma ArrayHeadLength(a: NaluArray, p: nat)
    requires a.nalType < 64
    ensures AllWritable(ArrayHead(a))
    ensures |Encode(ArrayHead(a), p)| == 8
  {
    hide Encode;
    ArrayWritable(a);
    var fs := ArrayHead(a);
    assert Writable(fs[0]) && Writable(fs[1]) && Writable(fs[2]);
    OneLength(fs[0], p);
    EncodeGrows([fs[0]], fs[1], p);
    EncodeGrows([fs[0]] + [fs[1]], fs[2], p);
    assert [fs[0]] + [fs[1]] + [fs[2]] == fs;
  }

  lemma ArrayLength(a: NaluArray, p: nat)
    requires a.nalType < 64
    ensures AllWritable(ArrayFields(a))
    ensures |Encode(ArrayFields(a), p)| == 8 * (1 + 2 + NalusSize(a.nalus))
  {
    hide Encode, Writable, NalusFields;
    ArrayHeadLength(a, p);
    CountWritable(|a.nalus|, 16);
    OneLength(Count(|a.nalus|, 16), p + 8);
    EncodeConcat(ArrayHead(a), [Count(|a.nalus|, 16)], p);
    NalusLength(a.nalus, p + 24);
    EncodeConcat(ArrayHead(a) + [Count(|a.nalus|, 16)], NalusFields(a.nalus), p);
  }

  lemma {:induction false} ArraysLength(arrays: seq<NaluArray>, p: nat)
    requires TypesFit(arrays)
    ensures AllWritable(ArraysFields(arrays))
    ensures |Encode(ArraysFields(arrays), p)| == 8 * ArraysSize(arrays)
  {
    hide Encode, ArrayFields, Writable, NalusSize;
    if arrays == [] {
      EncodeNothing(p);
    } else {
      var n := |arrays| - 1;
      ArraysLength(arrays[..n], p);
      ArrayLength(arrays[n], p + 8 * ArraysSize(arrays[..n]));
      EncodeConcat(ArraysFields(arrays[..n]), ArrayFields(arrays[n]), p);
    }
  }

  lemma HeaderLength(r: Record, p: nat)
    requires BitsFit(r) && r.constraints < U48_LIMIT
    ensures AllWritable(HeaderFields(r))
    ensures |Encode(HeaderFields(r), p)| == 8 * 23
  {
    hide Encode, Writable, General, Formats, Timing, Pow2;
    HeadersWritable(r);
    Pow2Values();
    VersionWritable();
    CountWritable(|r.arrays|, 8);
    var v, c := [Fixed(1, 8)], [Count(|r.arrays|, 8)];
    OneLength(Fixed(1, 8), p);
    GeneralLength(r, p + 8);
    EncodeConcat(v, General(r), p);
    FormatsLength(r, p + 104);
    EncodeConcat(v + General(r), Formats(r), p);
    TimingLength(r, p + 152);
    EncodeConcat(v + General(r) + Formats(r), Timing(r), p);
    OneLength(c[0], p + 176);
    EncodeConcat(v + General(r) + Formats(r) + Timing(r), c, p);
  }

  /** `size()` is the number of bytes that are written, truncated counts or not. */
  lemma SizeIsWhatIsWritten(r: Record, p: nat)
    requires BitsFit(r) && r.constraints < U48_LIMIT
    ensures AllWritable(RecordFields(r))
    ensures |Encode(RecordFields(r), p)| == 8 * Size(r)
  {
    hide Encode, Writable, HeaderFields, ArraysFields, ArraysSize;
    HeaderLength(r, p);
    ArraysLength(r.arrays, p + 8 * 23);
    EncodeConcat(HeaderFields(r), ArraysFields(r.arrays), p);
  }
}
