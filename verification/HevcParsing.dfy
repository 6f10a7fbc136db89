/** What reading an HEVC decoder configuration record yields, and that it inverts writing. */
module HevcParsing {
  import opened Wrappers
  import opened Bits
  import opened BitReading
  import opened Fields
  import opened Hevc

  const GENERAL: seq<Shape> :=
    [FixedShape(2), BitShape, FixedShape(5), FixedShape(32), FixedShape(48), FixedShape(8)]

  const FORMATS: seq<Shape> :=
    [FixedShape(4), FixedShape(12), FixedShape(6), FixedShape(2), FixedShape(6), FixedShape(2),
     FixedShape(5), FixedShape(3), FixedShape(5), FixedShape(3)]

  const TIMING: seq<Shape> :=
    [FixedShape(16), FixedShape(2), FixedShape(3), BitShape, FixedShape(2)]

  const ARRAY_HEAD: seq<Shape> := [BitShape, FixedShape(1), FixedShape(6)]

  /** The fields as the record keeps them, after the casts `as u8` and `as u16`. */
  ghost function GeneralOf(g: seq<Field>): (byte, bool, byte, u32, nat, byte)
    requires ShapesOf(g) == GENERAL
  {
    assert ShapesOf(g)[0].FixedShape? && ShapesOf(g)[1].BitShape? && ShapesOf(g)[2].FixedShape?;
    assert ShapesOf(g)[3].FixedShape? && ShapesOf(g)[4].FixedShape? && ShapesOf(g)[5].FixedShape?;
    (g[0].value % 256, g[1].bit, g[2].value % 256, g[3].value % 0x1_0000_0000, g[4].value, g[5].value % 256)
  }

  ghost function FormatsOf(f: seq<Field>): (u16, byte, byte, byte, byte)
    requires ShapesOf(f) == FORMATS
  {
    assert ShapesOf(f)[1].FixedShape? && ShapesOf(f)[3].FixedShape? && ShapesOf(f)[5].FixedShape?;
    assert ShapesOf(f)[7].FixedShape? && ShapesOf(f)[9].FixedShape?;
    (f[1].value % 0x1_0000, f[3].value % 256, f[5].value % 256, f[7].value % 256, f[9].value % 256)
  }

  ghost function TimingOf(t: seq<Field>): (u16, byte, byte, bool, byte)
    requires ShapesOf(t) == TIMING
  {
    assert ShapesOf(t)[0].FixedShape? && ShapesOf(t)[1].FixedShape? && ShapesOf(t)[2].FixedShape?;
    assert ShapesOf(t)[3].BitShape? && ShapesOf(t)[4].FixedShape?;
    (t[0].value % 0x1_0000, t[1].value % 256, t[2].value % 256, t[3].bit, t[4].value % 256)
  }

  lemma GeneralIs(space: nat, tier: bool, idc: nat, compatibility: nat, constraints: nat, level: nat)
    ensures var fs := [Fixed(space, 2), Bit(tier), Fixed(idc, 5), Fixed(compatibility, 32), Fixed(constraints, 48),
                       Fixed(level, 8)];
            && ShapesOf(fs) == GENERAL
            && GeneralOf(fs) == (space % 256, tier, idc % 256, compatibility % 0x1_0000_0000, constraints, level % 256)
  {
  }

  lemma FormatsIs(a: nat, seg: nat, b: nat, parallelism: nat, c: nat, chroma: nat, d: nat, luma: nat, e: nat,
                  depth: nat)
    ensures var fs := [Fixed(a, 4), Fixed(seg, 12), Fixed(b, 6), Fixed(parallelism, 2), Fixed(c, 6), Fixed(chroma, 2),
                       Fixed(d, 5), Fixed(luma, 3), Fixed(e, 5), Fixed(depth, 3)];
            && ShapesOf(fs) == FORMATS
            && FormatsOf(fs) == (seg % 0x1_0000, parallelism % 256, chroma % 256, luma % 256, depth % 256)
  {
  }

  lemma TimingIs(rate: nat, constantRate: nat, layers: nat, nested: bool, lengthSize: nat)
    ensures var fs := [Fixed(rate, 16), Fixed(constantRate, 2), Fixed(layers, 3), Bit(nested), Fixed(lengthSize, 2)];
            && ShapesOf(fs) == TIMING
            && TimingOf(fs) == (rate % 0x1_0000, constantRate % 256, layers % 256, nested, lengthSize % 256)
  {
  }

  ghost function RecordOf(g: seq<Field>, f: seq<Field>, t: seq<Field>, arrays: seq<NaluArray>): Record
    requires ShapesOf(g) == GENERAL && ShapesOf(f) == FORMATS && ShapesOf(t) == TIMING
  {
    var (a, b, c) := (GeneralOf(g), FormatsOf(f), TimingOf(t));
    Record(a.0, a.1, a.2, a.3, a.4, a.5, b.0, b.1, b.2, b.3, b.4, c.0, c.1, c.2, c.3, c.4, arrays)
  }

  ghost function DecodeFixed(s: seq<bool>, p: nat, width: nat): Option<(nat, nat)> {
    match FieldAt(s, p, FixedShape(width))
    case None => None
    case Some((f, q)) => Some((f.value, q))
  }

  /** A length of 16 bits and as many bytes. */
  ghost function ParseNalu(s: seq<bool>, p: nat): Option<(seq<byte>, nat)> {
    match DecodeFixed(s, p, 16)
    case None => None
    case Some((len, q)) =>
      match FieldAt(s, q, RawShape(len))
      case None => None
      case Some((f, q')) => Some((f.bytes, q'))
  }

  ghost function ParseNalus(s: seq<bool>, p: nat, n: nat): Option<(seq<seq<byte>>, nat)> {
    if n == 0 then Some(([], p))
    else
      match ParseNalus(s, p, n - 1)
      case None => None
      case Some((nalus, q)) =>
        match ParseNalu(s, q)
        case None => None
        case Some((nalu, q')) => Some((nalus + [nalu], q'))
  }

  ghost function ParseArray(s: seq<bool>, p: nat): Result<(NaluArray, nat), IoError> {
    match Decode(s, p, ARRAY_HEAD)
    case None => Err(UnexpectedEof)
    case Some((h, q)) =>
      DecodedFieldsFit(s, p, ARRAY_HEAD);
      assert ShapesOf(h)[0].BitShape? && ShapesOf(h)[2].FixedShape?;
      if !ParameterSetType(h[2].value) then Err(InvalidData)
      else
        match DecodeFixed(s, q, 16)
        case None => Err(UnexpectedEof)
        case Some((n, q')) =>
          match ParseNalus(s, q', n)
          case None => Err(UnexpectedEof)
          case Some((nalus, end)) => Ok((NaluArray(h[0].bit, h[2].value, nalus), end))
  }

  ghost function ParseArrays(s: seq<bool>, p: nat, n: nat): Result<(seq<NaluArray>, nat), IoError> {
    if n == 0 then Ok(([], p))
    else
      match ParseArrays(s, p, n - 1)
      case Err(e) => Err(e)
      case Ok((arrays, q)) =>
        match ParseArray(s, q)
        case Err(e) => Err(e)
        case Ok((a, q')) => Ok((arrays + [a], q'))
  }

  /** One row of the header. */
  ghost function ParseRow(s: seq<bool>, p: nat, shapes: seq<Shape>): (row: Option<(seq<Field>, nat)>)
    requires shapes == GENERAL || shapes == FORMATS || shapes == TIMING
    ensures row.Some? ==> ShapesOf(row.value.0) == shapes && AllWritable(row.value.0)
  {
    var row := Decode(s, p, shapes);
    if row.Some? then DecodedFieldsFit(s, p, shapes); row else None
  }

  /** The three rows behind the version. */
  ghost function ParseRows(s: seq<bool>, p: nat): Option<(Record, nat)> {
    match ParseRow(s, p, GENERAL)
    case None => None
    case Some((g, q1)) =>
      match ParseRow(s, q1, FORMATS)
      case None => None
      case Some((f, q2)) =>
        match ParseRow(s, q2, TIMING)
        case None => None
        case Some((t, q3)) => Some((RecordOf(g, f, t, []), q3))
  }

  ghost function ParseRecord(s: seq<bool>, p: nat): Result<(Record, nat), IoError> {
    match DecodeFixed(s, p, 8)
    case None => Err(UnexpectedEof)
    case Some((version, q)) =>
      if version != 1 then Err(InvalidData)
      else
        match ParseRows(s, q)
        case None => Err(UnexpectedEof)
        case Some((r, q')) =>
          if r.lengthSize == 2 then Err(InvalidData)
          else
            match DecodeFixed(s, q', 8)
            case None => Err(UnexpectedEof)
            case Some((n, body)) =>
              match ParseArrays(s, body, n)
              case Err(e) => Err(e)
              case Ok((arrays, end)) => Ok((r.(arrays := arrays), end))
  }

  lemma FixedBack(s: seq<bool>, p: nat, value: nat, width: nat)
    requires Writable(Fixed(value, width)) && AllWritable([Fixed(value, width)])
    requires Holds(s, p, [Fixed(value, width)])
    ensures DecodeFixed(s, p, width) == Some((value, p + width))
    ensures |Encode([Fixed(value, width)], p)| == width
  {
    hide FieldAt, Pow2, Encode, NatBits;
    var f := Fixed(value, width);
    EncodeOne(f, p);
    FieldRoundTrip(s, p, f);
  }

  lemma RawBack(s: seq<bool>, p: nat, bytes: seq<byte>)
    requires AllWritable([Raw(bytes)]) && Holds(s, p, [Raw(bytes)])
    ensures FieldAt(s, p, RawShape(|bytes|)) == Some((Raw(bytes), p + 8 * |bytes|))
  {
    hide FieldAt, Encode, BytesBits;
    var f := Raw(bytes);
    EncodeOne(f, p);
    FieldRoundTrip(s, p, f);
  }

  lemma NaluBack(s: seq<bool>, p: nat, nalu: seq<byte>)
    requires |nalu| < 0x1_0000
    requires AllWritable(NaluFields(nalu)) && Holds(s, p, NaluFields(nalu))
    ensures ParseNalu(s, p) == Some((nalu, p + 8 * (2 + |nalu|)))
  {
    hide FieldAt, Encode, Pow2, DecodeFixed, Holds;
    Pow2Values();
    var c := Count(|nalu|, 16);
    CountWritable(|nalu|, 16);
    assert [c] + [Raw(nalu)] == NaluFields(nalu);
    HoldsConcat(s, p, [c], [Raw(nalu)]);
    FixedBack(s, p, |nalu|, 16);
    RawBack(s, p + 16, nalu);
  }

  lemma NalusSizeStep(nalus: seq<seq<byte>>)
    ensures nalus == [] ==> NalusSize(nalus) == 0
    ensures nalus != [] ==>
              var n := |nalus| - 1;
              && NalusSize(nalus) == NalusSize(nalus[..n]) + (2 + |nalus[n]|)
              && NalusFields(nalus) == NalusFields(nalus[..n]) + NaluFields(nalus[n])
  {
  }

  lemma {:induction false} NalusBack(s: seq<bool>, p: nat, nalus: seq<seq<byte>>)
    requires forall i :: 0 <= i < |nalus| ==> |nalus[i]| < 0x1_0000
    requires AllWritable(NalusFields(nalus)) && Holds(s, p, NalusFields(nalus))
    ensures ParseNalus(s, p, |nalus|) == Some((nalus, p + 8 * NalusSize(nalus)))
  {
    hide Holds, Encode, Writable, ParseNalu, NaluFields, NalusFields, NalusSize;
    if nalus == [] {
      assert NalusSize(nalus) == 0 by { NalusSizeStep(nalus); }
    } else {
      var n := |nalus| - 1;
      NalusSizeStep(nalus);
      NaluWritable(nalus[n]);
      NalusLength(nalus[..n], p);
      HoldsConcat(s, p, NalusFields(nalus[..n]), NaluFields(nalus[n]));
      NalusBack(s, p, nalus[..n]);
      NaluBack(s, p + 8 * NalusSize(nalus[..n]), nalus[n]);
      assert nalus[..n] + [nalus[n]] == nalus;
    }
  }

  lemma ArrayBack(s: seq<bool>, p: nat, a: NaluArray)
    requires ArrayWellFormed(a)
    ensures AllWritable(ArrayFields(a))
    ensures Holds(s, p, ArrayFields(a)) ==> ParseArray(s, p) == Ok((a, p + 8 * (1 + 2 + NalusSize(a.nalus))))
  {
    hide Holds, Encode, Writable, Decode, DecodeFixed, ParseNalus, NalusFields, NalusSize, Pow2;
    Pow2Values();
    var h, c, ns := ArrayHead(a), Count(|a.nalus|, 16), NalusFields(a.nalus);
    ArrayWritable(a);
    ArrayHeadLength(a, p);
    CountWritable(|a.nalus|, 16);
    NalusWritable(a.nalus);
    if Holds(s, p, ArrayFields(a)) {
      HoldsConcat(s, p, h + [c], ns);
      HoldsConcat(s, p, h, [c]);
      HeadBack(s, p, a);
      FixedBack(s, p + 8, |a.nalus|, 16);
      NalusBack(s, p + 24, a.nalus);
    }
  }

  lemma HeadBack(s: seq<bool>, p: nat, a: NaluArray)
    requires a.nalType < 64
    requires AllWritable(ArrayHead(a)) && Holds(s, p, ArrayHead(a))
    ensures Decode(s, p, ARRAY_HEAD) == Some((ArrayHead(a), p + 8))
  {
    hide Encode, Decode, Writable;
    ArrayHeadLength(a, p);
    MixedRoundTrip(s, p, ArrayHead(a));
    assert ShapesOf(ArrayHead(a)) == ARRAY_HEAD;
  }

  lemma TypesFitIfWellFormed(arrays: seq<NaluArray>)
    requires ArraysWellFormed(arrays)
    ensures TypesFit(arrays)
  {
  }

  lemma ArraysStep(arrays: seq<NaluArray>)
    ensures arrays == [] ==> ArraysSize(arrays) == 0
    ensures arrays != [] ==>
              var n := |arrays| - 1;
              && ArraysSize(arrays) == ArraysSize(arrays[..n]) + (1 + 2 + NalusSize(arrays[n].nalus))
              && ArraysFields(arrays) == ArraysFields(arrays[..n]) + ArrayFields(arrays[n])
  {
    hide ArrayFields, NalusSize;
  }

  lemma {:induction false} ArraysBack(s: seq<bool>, p: nat, arrays: seq<NaluArray>)
    requires ArraysWellFormed(arrays)
    ensures AllWritable(ArraysFields(arrays))
    ensures Holds(s, p, ArraysFields(arrays)) ==>
              ParseArrays(s, p, |arrays|) == Ok((arrays, p + 8 * ArraysSize(arrays)))
  {
    hide Holds, Encode, Writable, ParseArray, ArrayFields, ArraysFields, ArraysSize, NalusSize, ArrayWellFormed;
    TypesFitIfWellFormed(arrays);
    ArraysWritable(arrays);
    ArraysStep(arrays);
    if arrays != [] && Holds(s, p, ArraysFields(arrays)) {
      var n := |arrays| - 1;
      ArraysLength(arrays[..n], p);
      ArrayWritable(arrays[n]);
      HoldsConcat(s, p, ArraysFields(arrays[..n]), ArrayFields(arrays[n]));
      ArraysBack(s, p, arrays[..n]);
      ArrayBack(s, p + 8 * ArraysSize(arrays[..n]), arrays[n]);
      assert arrays[..n] + [arrays[n]] == arrays;
    }
  }

  lemma RecordOfRows(r: Record)
    ensures ShapesOf(General(r)) == GENERAL && ShapesOf(Formats(r)) == FORMATS && ShapesOf(Timing(r)) == TIMING
    ensures RecordOf(General(r), Formats(r), Timing(r), []) == r.(arrays := [])
  {
    assert ShapesOf(General(r)) == GENERAL;
    assert ShapesOf(Formats(r)) == FORMATS;
    assert ShapesOf(Timing(r)) == TIMING;
  }

  lemma RowsBack(s: seq<bool>, p: nat, r: Record)
    requires GeneralFits(r) && FormatsFit(r) && TimingFits(r) && r.constraints < U48_LIMIT
    requires AllWritable(General(r) + Formats(r) + Timing(r)) && Holds(s, p, General(r) + Formats(r) + Timing(r))
    ensures ParseRows(s, p) == Some((r.(arrays := []), p + 168))
  {
    hide Holds, Encode, Writable, General, Formats, Timing, ParseRow, ShapesOf, RecordOf;
    HeadersWritable(r);
    RecordOfRows(r);
    var g, f, t := General(r), Formats(r), Timing(r);
    GeneralLength(r, p);
    FormatsLength(r, p + 96);
    HoldsConcat(s, p, g + f, t);
    HoldsConcat(s, p, g, f);
    TimingLength(r, p + 144);
    RowBack(s, p, g, GENERAL);
    RowBack(s, p + 96, f, FORMATS);
    RowBack(s, p + 144, t, TIMING);
  }

  lemma RowBack(s: seq<bool>, p: nat, fs: seq<Field>, shapes: seq<Shape>)
    requires AllWritable(fs) && Holds(s, p, fs)
    requires shapes == GENERAL || shapes == FORMATS || shapes == TIMING
    requires ShapesOf(fs) == shapes
    ensures ParseRow(s, p, shapes) == Some((fs, p + |Encode(fs, p)|))
  {
    hide Encode, Decode, Writable, ShapesOf;
    MixedRoundTrip(s, p, fs);
  }

  /** A well-formed record is read back from wherever its bits stand in a stream, and the reader
      stops exactly behind its `size()` bytes. */
  lemma RecordBack(s: seq<bool>, p: nat, r: Record)
    requires WellFormed(r)
    requires AllWritable(RecordFields(r)) && Holds(s, p, RecordFields(r))
    ensures ParseRecord(s, p) == Ok((r, p + 8 * Size(r)))
  {
    hide Holds, Encode, Writable, DecodeFixed, ParseRows, ParseArrays;
    hide ArraysFields, ArraysSize, Pow2, General, Formats, Timing;
    Pow2Values();
    VersionWritable();
    HeadersWritable(r);
    ArraysWritable(r.arrays);
    CountWritable(|r.arrays|, 8);
    HeaderLength(r, p);
    var v, c := [Fixed(1, 8)], Count(|r.arrays|, 8);
    var rows := General(r) + Formats(r) + Timing(r);
    assert HeaderFields(r) == v + rows + [c];
    HoldsConcat(s, p, HeaderFields(r), ArraysFields(r.arrays));
    HoldsConcat(s, p, v + rows, [c]);
    HoldsConcat(s, p, v, rows);
    FixedBack(s, p, 1, 8);
    RowsBack(s, p + 8, r);
    OneLength(c, p + |Encode(v + rows, p)|);
    FixedBack(s, p + 176, |r.arrays|, 8);
    ArraysBack(s, p + 184, r.arrays);
  }

  /** A length size of 2, which `mux` writes, is refused in every record. */
  lemma LengthSizeTwoIsRefused(s: seq<bool>, p: nat, r: Record)
    requires BitsFit(r) && r.constraints < U48_LIMIT && r.lengthSize == 2
    requires AllWritable(RecordFields(r)) && Holds(s, p, RecordFields(r))
    ensures ParseRecord(s, p) == Err(InvalidData)
  {
    hide Holds, Encode, Writable, DecodeFixed, ParseRows, ParseArrays, ArraysFields;
    hide ArraysSize, Pow2, General, Formats, Timing;
    Pow2Values();
    VersionWritable();
    HeadersWritable(r);
    ArraysWritable(r.arrays);
    CountWritable(|r.arrays|, 8);
    HeaderLength(r, p);
    var v, c := [Fixed(1, 8)], Count(|r.arrays|, 8);
    var rows := General(r) + Formats(r) + Timing(r);
    assert HeaderFields(r) == v + rows + [c];
    HoldsConcat(s, p, HeaderFields(r), ArraysFields(r.arrays));
    HoldsConcat(s, p, v + rows, [c]);
    HoldsConcat(s, p, v, rows);
    FixedBack(s, p, 1, 8);
    RowsBack(s, p + 8, r);
  }

  /** Such a record: `mux` accepts it, and `demux` refuses what `mux` wrote. */
  lemma MuxedButRefused() returns (r: Record)
    ensures BitsFit(r) && AllWritable(RecordFields(r))
    ensures ParseRecord(Encode(RecordFields(r), 0), 0) == Err(InvalidData)
  {
    hide Encode, ParseRecord, RecordFields;
    r := Record(0, false, 1, 0, 0, 0, 0, 0, 1, 0, 0, 0, 0, 1, false, 2, []);
    SizeIsWhatIsWritten(r, 0);
    var s := Encode(RecordFields(r), 0);
    assert s[0..0 + |s|] == s;
    LengthSizeTwoIsRefused(s, 0, r);
  }

  /** Whatever bits are read, a record that comes out is well formed and took exactly its own
      `size()` bytes. */
  lemma ParsedIsWellFormed(s: seq<bool>, p: nat)
    ensures match ParseRecord(s, p)
            case Ok((r, q)) => WellFormed(r) && q == p + 8 * Size(r)
            case Err(_) => true
  {
    hide Decode, FieldAt, ParseRows, ParseArrays, ArraysSize;
    if ParseRecord(s, p).Ok? {
      var q := DecodeFixed(s, p, 8).value.1;
      FixedFits(s, p, 8);
      ParsedRowsFit(s, q);
      var (n, body) := DecodeFixed(s, q + 168, 8).value;
      FixedFits(s, q + 168, 8);
      ParsedArraysFit(s, body, n);
    }
  }

  lemma FixedFits(s: seq<bool>, p: nat, width: nat)
    requires DecodeFixed(s, p, width).Some? && (width == 8 || width == 16)
    ensures DecodeFixed(s, p, width).value.1 == p + width
    ensures DecodeFixed(s, p, width).value.0 < (if width == 8 then 256 else 0x1_0000)
  {
    hide Pow2, BitsValue;
    Pow2Values();
  }

  lemma ParsedRowsFit(s: seq<bool>, p: nat)
    ensures match ParseRows(s, p)
            case Some((r, q)) =>
              && q == p + 168
              && GeneralFits(r) && FormatsFit(r) && TimingFits(r) && r.constraints < U48_LIMIT
            case None => true
  {
    hide ParseRow, Writable, ShapesOf;
    if ParseRows(s, p).Some? {
      var (g, q1) := ParseRow(s, p, GENERAL).value;
      var (f, q2) := ParseRow(s, q1, FORMATS).value;
      var (t, q3) := ParseRow(s, q2, TIMING).value;
      RowWidth(s, p, GENERAL, [0, 2, 3, 8, 40, 88, 96]);
      RowWidth(s, q1, FORMATS, [0, 4, 16, 22, 24, 30, 32, 37, 40, 45, 48]);
      RowWidth(s, q2, TIMING, [0, 16, 18, 21, 22, 24]);
      GeneralRowFits(g, f, t);
    }
  }

  lemma GeneralRowFits(g: seq<Field>, f: seq<Field>, t: seq<Field>)
    requires ShapesOf(g) == GENERAL && ShapesOf(f) == FORMATS && ShapesOf(t) == TIMING
    requires AllWritable(g) && AllWritable(f) && AllWritable(t)
    ensures var r := RecordOf(g, f, t, []);
            GeneralFits(r) && FormatsFit(r) && TimingFits(r) && r.constraints < U48_LIMIT
  {
    hide ShapesOf, AllWritable, GeneralOf, FormatsOf, TimingOf;
    GeneralValues(g);
    FormatsValues(f);
    TimingValues(t);
  }

  lemma GeneralValues(g: seq<Field>)
    requires ShapesOf(g) == GENERAL && AllWritable(g)
    ensures var a := GeneralOf(g); a.0 < 4 && a.2 < 32 && a.4 < U48_LIMIT
  {
    hide Pow2, ShapesOf;
    Pow2Values();
    assert ShapesOf(g)[0] == FixedShape(2) && ShapesOf(g)[2] == FixedShape(5) && ShapesOf(g)[4] == FixedShape(48);
    assert Writable(g[0]) && Writable(g[2]) && Writable(g[4]);
  }

  lemma FormatsValues(f: seq<Field>)
    requires ShapesOf(f) == FORMATS && AllWritable(f)
    ensures var b := FormatsOf(f); b.0 < 4096 && b.1 < 4 && b.2 < 4 && b.3 < 8 && b.4 < 8
  {
    hide Pow2, ShapesOf;
    Pow2Values();
    assert ShapesOf(f)[1] == FixedShape(12) && ShapesOf(f)[3] == FixedShape(2) && ShapesOf(f)[5] == FixedShape(2);
    assert ShapesOf(f)[7] == FixedShape(3) && ShapesOf(f)[9] == FixedShape(3);
    assert Writable(f[1]) && Writable(f[3]) && Writable(f[5]) && Writable(f[7]) && Writable(f[9]);
  }

  lemma TimingValues(t: seq<Field>)
    requires ShapesOf(t) == TIMING && AllWritable(t)
    ensures var c := TimingOf(t); c.1 < 4 && c.2 < 8 && c.4 < 4
  {
    hide Pow2, ShapesOf;
    Pow2Values();
    assert ShapesOf(t)[1] == FixedShape(2) && ShapesOf(t)[2] == FixedShape(3) && ShapesOf(t)[4] == FixedShape(2);
    assert Writable(t[1]) && Writable(t[2]) && Writable(t[4]);
  }

  /** `ends[i]` is the width of the first `i` fields. */
  lemma RowWidth(s: seq<bool>, p: nat, shapes: seq<Shape>, ends: seq<nat>)
    requires shapes == GENERAL || shapes == FORMATS || shapes == TIMING
    requires |ends| == |shapes| + 1 && ends[0] == 0
    requires forall i :: 0 <= i < |shapes| ==>
               ends[i + 1] == ends[i] + if shapes[i].BitShape? then 1 else shapes[i].width
    requires ParseRow(s, p, shapes).Some?
    ensures ParseRow(s, p, shapes).value.1 == p + ends[|shapes|]
  {
    DecodedWidth(s, p, shapes, ends);
  }

  lemma {:induction false} DecodedWidth(s: seq<bool>, p: nat, shapes: seq<Shape>, ends: seq<nat>)
    requires forall i :: 0 <= i < |shapes| ==> shapes[i].BitShape? || (shapes[i].FixedShape? && shapes[i].width <= 64)
    requires |ends| == |shapes| + 1 && ends[0] == 0
    requires forall i :: 0 <= i < |shapes| ==>
               ends[i + 1] == ends[i] + if shapes[i].BitShape? then 1 else shapes[i].width
    requires Decode(s, p, shapes).Some?
    ensures Decode(s, p, shapes).value.1 == p + ends[|shapes|]
  {
    if shapes != [] {
      DecodedWidth(s, p, shapes[..|shapes| - 1], ends[..|shapes|]);
    }
  }

  lemma {:induction false} ParsedNalusFit(s: seq<bool>, p: nat, n: nat)
    requires ParseNalus(s, p, n).Some?
    ensures var (nalus, q) := ParseNalus(s, p, n).value;
            && |nalus| == n && q == p + 8 * NalusSize(nalus)
            && forall i :: 0 <= i < n ==> |nalus[i]| < 0x1_0000
  {
    hide DecodeFixed, FieldAt;
    if n != 0 {
      ParsedNalusFit(s, p, n - 1);
      var (init, q) := ParseNalus(s, p, n - 1).value;
      var nalu := ParseNalu(s, q).value.0;
      ParsedNaluFits(s, q);
      assert (init + [nalu])[..n - 1] == init;
    }
  }

  lemma ParsedNaluFits(s: seq<bool>, p: nat)
    requires ParseNalu(s, p).Some?
    ensures var (nalu, q) := ParseNalu(s, p).value; q == p + 8 * (2 + |nalu|) && |nalu| < 0x1_0000
  {
    hide DecodeFixed;
    FixedFits(s, p, 16);
  }

  lemma ParsedArrayFits(s: seq<bool>, p: nat)
    requires ParseArray(s, p).Ok?
    ensures var (a, q) := ParseArray(s, p).value;
            ArrayWellFormed(a) && q == p + 8 * (1 + 2 + NalusSize(a.nalus))
  {
    hide Decode, DecodeFixed, ParseNalus, NalusSize;
    var q := Decode(s, p, ARRAY_HEAD).value.1;
    DecodedWidth(s, p, ARRAY_HEAD, [0, 1, 2, 8]);
    FixedFits(s, q, 16);
    var (n, q') := DecodeFixed(s, q, 16).value;
    ParsedNalusFit(s, q', n);
  }

  lemma {:induction false} ParsedArraysFit(s: seq<bool>, p: nat, n: nat)
    requires ParseArrays(s, p, n).Ok?
    ensures var (arrays, q) := ParseArrays(s, p, n).value;
            |arrays| == n && ArraysWellFormed(arrays) && q == p + 8 * ArraysSize(arrays)
  {
    hide ParseArray, NalusSize, ArrayWellFormed;
    if n != 0 {
      ParsedArraysFit(s, p, n - 1);
      var (init, q) := ParseArrays(s, p, n - 1).value;
      var a := ParseArray(s, q).value.0;
      ParsedArrayFits(s, q);
      assert (init + [a])[..n - 1] == init;
    }
  }
}
