/** `mux` and `demux` of the HEVC decoder configuration record, call by call as in
    crates/h265/src/config.rs, on the bit writer and the bit reader. */
module HevcMuxing {
  import opened Wrappers
  import opened Bits
  import opened BitReading
  import opened BitWriting
  import opened Fields
  import opened FieldWriting
  import opened Hevc
  import opened HevcParsing
  import opened HevcBytes
  import opened HevcBytesParsing

  method MuxGeneral(w: BitWriter, r: Record, ghost base: seq<bool>, ghost before: seq<Field>)
    returns (res: Result<(), IoError>)
    requires w.Valid() && HasWritten(w, base, before) && r.constraints < U48_LIMIT
    modifies w
    ensures w.Valid()
    ensures res == if GeneralFits(r) then Ok(()) else Err(InvalidData)
    ensures res.Ok? ==> HasWritten(w, base, before + General(r))
  {
    hide HasWritten, Pow2;
    Pow2Values();
    ghost var fs := before;
    var _ :- PutBits(w, r.profileSpace, 2, base, fs);
    fs := fs + [Fixed(r.profileSpace, 2)];
    PutFlag(w, r.tier, base, fs);
    fs := fs + [Bit(r.tier)];
    var _ :- PutBits(w, r.profileIdc, 5, base, fs);
    fs := fs + [Fixed(r.profileIdc, 5)];
    PutUint(w, r.compatibility, 4, base, fs);
    fs := fs + [Fixed(r.compatibility, 32)];
    PutUint(w, r.constraints, 6, base, fs);
    fs := fs + [Fixed(r.constraints, 48)];
    PutUint(w, r.level, 1, base, fs);
    fs := fs + [Fixed(r.level, 8)];
    assert fs == before + General(r);
    return Ok(());
  }

  method MuxFormats(w: BitWriter, r: Record, ghost base: seq<bool>, ghost before: seq<Field>)
    returns (res: Result<(), IoError>)
    requires w.Valid() && HasWritten(w, base, before)
    modifies w
    ensures w.Valid()
    ensures res == if FormatsFit(r) then Ok(()) else Err(InvalidData)
    ensures res.Ok? ==> HasWritten(w, base, before + Formats(r))
  {
    hide HasWritten, Pow2;
    Pow2Values();
    ghost var fs := before;
    PutReserved(w, 15, 4, base, fs);
    fs := fs + [Fixed(15, 4)];
    var _ :- PutBits(w, r.minSegmentation, 12, base, fs);
    fs := fs + [Fixed(r.minSegmentation, 12)];
    PutReserved(w, 63, 6, base, fs);
    fs := fs + [Fixed(63, 6)];
    var _ :- PutBits(w, r.parallelism, 2, base, fs);
    fs := fs + [Fixed(r.parallelism, 2)];
    PutReserved(w, 63, 6, base, fs);
    fs := fs + [Fixed(63, 6)];
    var _ :- PutBits(w, r.chromaFormat, 2, base, fs);
    fs := fs + [Fixed(r.chromaFormat, 2)];
    PutReserved(w, 31, 5, base, fs);
    fs := fs + [Fixed(31, 5)];
    var _ :- PutBits(w, r.lumaDepth, 3, base, fs);
    fs := fs + [Fixed(r.lumaDepth, 3)];
    PutReserved(w, 31, 5, base, fs);
    fs := fs + [Fixed(31, 5)];
    var _ :- PutBits(w, r.chromaDepth, 3, base, fs);
    fs := fs + [Fixed(r.chromaDepth, 3)];
    assert fs == before + Formats(r);
    return Ok(());
  }

  method MuxTiming(w: BitWriter, r: Record, ghost base: seq<bool>, ghost before: seq<Field>)
    returns (res: Result<(), IoError>)
    requires w.Valid() && HasWritten(w, base, before)
    modifies w
    ensures w.Valid()
    ensures res == if TimingFits(r) then Ok(()) else Err(InvalidData)
    ensures res.Ok? ==> HasWritten(w, base, before + Timing(r))
  {
    hide HasWritten, Pow2;
    Pow2Values();
    ghost var fs := before;
    PutUint(w, r.frameRate, 2, base, fs);
    fs := fs + [Fixed(r.frameRate, 16)];
    var _ :- PutBits(w, r.constantRate, 2, base, fs);
    fs := fs + [Fixed(r.constantRate, 2)];
    var _ :- PutBits(w, r.layers, 3, base, fs);
    fs := fs + [Fixed(r.layers, 3)];
    PutFlag(w, r.nested, base, fs);
    fs := fs + [Bit(r.nested)];
    var _ :- PutBits(w, r.lengthSize, 2, base, fs);
    fs := fs + [Fixed(r.lengthSize, 2)];
    assert fs == before + Timing(r);
    return Ok(());
  }

  method MuxNalus(w: BitWriter, nalus: seq<seq<byte>>, ghost base: seq<bool>, ghost before: seq<Field>)
    requires w.Valid() && HasWritten(w, base, before)
    modifies w
    ensures w.Valid() && HasWritten(w, base, before + NalusFields(nalus))
  {
    hide HasWritten, Pow2;
    Pow2Values();
    ghost var fs := before;
    assert before + NalusFields([]) == before;
    for i := 0 to |nalus|
      invariant fs == before + NalusFields(nalus[..i])
      invariant w.Valid() && HasWritten(w, base, fs)
    {
      var len := |nalus[i]| % 0x1_0000;
      PutUint(w, len, 2, base, fs);
      fs := fs + [Fixed(len, 16)];
      PutRaw(w, nalus[i], base, fs);
      fs := fs + [Raw(nalus[i])];
      assert nalus[..i + 1][..i] == nalus[..i];
      assert fs == before + NalusFields(nalus[..i]) + NaluFields(nalus[i]);
    }
    assert nalus[..|nalus|] == nalus;
  }

  method MuxArray(w: BitWriter, a: NaluArray, ghost base: seq<bool>, ghost before: seq<Field>)
    returns (res: Result<(), IoError>)
    requires w.Valid() && HasWritten(w, base, before)
    modifies w
    ensures w.Valid()
    ensures res == if a.nalType < 64 then Ok(()) else Err(InvalidData)
    ensures res.Ok? ==> HasWritten(w, base, before + ArrayFields(a))
  {
    hide HasWritten, Pow2, NalusFields;
    Pow2Values();
    ghost var fs := before;
    PutFlag(w, a.complete, base, fs);
    fs := fs + [Bit(a.complete)];
    PutReserved(w, 0, 1, base, fs);
    fs := fs + [Fixed(0, 1)];
    var _ :- PutBits(w, a.nalType, 6, base, fs);
    fs := fs + [Fixed(a.nalType, 6)];
    var count := |a.nalus| % 0x1_0000;
    PutUint(w, count, 2, base, fs);
    fs := fs + [Fixed(count, 16)];
    MuxNalus(w, a.nalus, base, fs);
    assert fs + NalusFields(a.nalus) == before + ArrayFields(a);
    return Ok(());
  }

  method MuxArrays(w: BitWriter, arrays: seq<NaluArray>, ghost base: seq<bool>, ghost before: seq<Field>)
    returns (res: Result<(), IoError>)
    requires w.Valid() && HasWritten(w, base, before)
    modifies w
    ensures w.Valid()
    ensures res == if TypesFit(arrays) then Ok(()) else Err(InvalidData)
    ensures res.Ok? ==> HasWritten(w, base, before + ArraysFields(arrays))
  {
    hide HasWritten, ArrayFields;
    assert before + ArraysFields([]) == before;
    for i := 0 to |arrays|
      invariant TypesFit(arrays[..i])
      invariant w.Valid() && HasWritten(w, base, before + ArraysFields(arrays[..i]))
    {
      ghost var fs := before + ArraysFields(arrays[..i]);
      var _ :- MuxArray(w, arrays[i], base, fs);
      assert arrays[..i + 1][..i] == arrays[..i];
      assert fs + ArrayFields(arrays[i]) == before + ArraysFields(arrays[..i + 1]);
    }
    assert arrays[..|arrays|] == arrays;
    return Ok(());
  }

  method MuxRecord(w: BitWriter, r: Record, ghost base: seq<bool>) returns (res: Result<(), IoError>)
    requires w.Valid() && HasWritten(w, base, []) && r.constraints < U48_LIMIT
    modifies w
    ensures w.Valid()
    ensures res == if BitsFit(r) then Ok(()) else Err(InvalidData)
    ensures res.Ok? ==> HasWritten(w, base, RecordFields(r))
  {
    hide HasWritten, Pow2, General, Formats, Timing, ArraysFields;
    Pow2Values();
    ghost var fs: seq<Field> := [];
    PutUint(w, 1, 1, base, fs);
    fs := fs + [Fixed(1, 8)];
    var _ :- MuxGeneral(w, r, base, fs);
    fs := fs + General(r);
    var _ :- MuxFormats(w, r, base, fs);
    fs := fs + Formats(r);
    var _ :- MuxTiming(w, r, base, fs);
    fs := fs + Timing(r);
    var count := |r.arrays| % 256;
    PutUint(w, count, 1, base, fs);
    fs := fs + [Fixed(count, 8)];
    assert fs == HeaderFields(r);
    res := MuxArrays(w, r.arrays, base, fs);
  }

  /** `mux` behind the bytes that `writer` already holds. The `as u8` and `as u16` casts of the
      counts make it succeed on lists that are too long; only a field of a fixed number of bits
      can be refused. */
  method Mux(r: Record, writer: seq<byte>) returns (res: Result<seq<byte>, IoError>)
    requires r.constraints < U48_LIMIT
    ensures res.Ok? <==> BitsFit(r)
    ensures res.Err? ==> res.error == InvalidData
    ensures res.Ok? ==> AllWritable(RecordFields(r))
    ensures res.Ok? ==> BytesBits(res.value) == BytesBits(writer) + Encode(RecordFields(r), 8 * |writer|)
    ensures res.Ok? ==> res.value == writer + RecordBytes(r) && |res.value| == |writer| + Size(r)
  {
    hide HasWritten, RecordFields, RecordBytes, BytesBits, Size, Encode, AllWritable, BitsFit;
    var w := new BitWriter(writer);
    ghost var base := w.Written();
    WritingBegins(w);
    var _ :- MuxRecord(w, r, base);
    SizeIsWhatIsWritten(r, |base|);
    WritingEnds(w, base, RecordFields(r));
    var out := w.Finish();
    MuxedBytes(r, writer, out);
    return Ok(out);
  }

  lemma MuxedBytes(r: Record, writer: seq<byte>, out: seq<byte>)
    requires BitsFit(r) && r.constraints < U48_LIMIT && AllWritable(RecordFields(r))
    requires BytesBits(out) == BytesBits(writer) + Encode(RecordFields(r), 8 * |writer|)
    ensures out == writer + RecordBytes(r)
  {
    hide BytesBits, Encode, RecordFields, RecordBytes;
    RecordSpells(r, 8 * |writer|);
    BytesBitsConcat(writer, RecordBytes(r));
    BytesBitsInjective(out, writer + RecordBytes(r));
  }

  /** The reader has read `fs`, which are the first of `shapes`, from `p` on. */
  ghost predicate HasRead(r: BitReader, p: nat, shapes: seq<Shape>, fs: seq<Field>)
    reads r
  {
    && r.Valid() && |fs| <= |shapes|
    && Decode(r.Stream(), p, shapes[..|fs|]) == Some((fs, r.Position()))
  }

  lemma ReadOne(s: seq<bool>, p: nat, q: nat, shapes: seq<Shape>, fs: seq<Field>)
    requires |fs| < |shapes| && Decode(s, p, shapes[..|fs|]) == Some((fs, q))
    ensures match FieldAt(s, q, shapes[|fs|])
            case Some((f, q')) => Decode(s, p, shapes[..|fs| + 1]) == Some((fs + [f], q'))
            case None => Decode(s, p, shapes).None?
  {
    hide FieldAt;
    DecodeExtend(s, p, shapes[..|fs|], shapes[|fs|]);
    assert shapes[..|fs|] + [shapes[|fs|]] == shapes[..|fs| + 1];
    DecodeFails(s, p, shapes, |fs| + 1);
  }

  method GetBits(r: BitReader, width: nat, ghost p: nat, ghost shapes: seq<Shape>, ghost fs: seq<Field>)
    returns (v: Result<nat, IoError>)
    requires HasRead(r, p, shapes, fs) && |fs| < |shapes| && shapes[|fs|] == FixedShape(width)
    modifies r
    ensures v.Ok? ==> HasRead(r, p, shapes, fs + [Fixed(v.value, width)])
    ensures v.Err? ==> v.error == UnexpectedEof && Decode(r.Stream(), p, shapes).None?
  {
    hide Decode, ValueAt;
    ReadOne(r.Stream(), p, r.Position(), shapes, fs);
    v := r.ReadBits(width);
  }

  /** Reserved bits, whatever they are, and the bits behind them. */
  method GetPadded(r: BitReader, pad: nat, width: nat, ghost p: nat, ghost shapes: seq<Shape>, ghost fs: seq<Field>)
    returns (v: Result<nat, IoError>, ghost reserved: nat)
    requires HasRead(r, p, shapes, fs) && |fs| + 1 < |shapes|
    requires shapes[|fs|] == FixedShape(pad) && shapes[|fs| + 1] == FixedShape(width)
    modifies r
    ensures v.Ok? ==> HasRead(r, p, shapes, fs + [Fixed(reserved, pad), Fixed(v.value, width)])
    ensures v.Err? ==> v.error == UnexpectedEof && Decode(r.Stream(), p, shapes).None?
  {
    hide Decode, HasRead;
    reserved := 0;
    var skipped :- GetBits(r, pad, p, shapes, fs);
    reserved := skipped;
    v := GetBits(r, width, p, shapes, fs + [Fixed(skipped, pad)]);
    if v.Ok? {
      assert fs + [Fixed(skipped, pad)] + [Fixed(v.value, width)] == fs + [Fixed(skipped, pad), Fixed(v.value, width)];
    }
  }

  method GetBit(r: BitReader, ghost p: nat, ghost shapes: seq<Shape>, ghost fs: seq<Field>)
    returns (v: Result<bool, IoError>)
    requires HasRead(r, p, shapes, fs) && |fs| < |shapes| && shapes[|fs|] == BitShape
    modifies r
    ensures v.Ok? ==> HasRead(r, p, shapes, fs + [Bit(v.value)])
    ensures v.Err? ==> v.error == UnexpectedEof && Decode(r.Stream(), p, shapes).None?
  {
    hide Decode;
    ReadOne(r.Stream(), p, r.Position(), shapes, fs);
    v := r.ReadBit();
  }

  /** `read_u8/u16/u32/u48`. */
  method GetUint(r: BitReader, width: nat, ghost p: nat, ghost shapes: seq<Shape>, ghost fs: seq<Field>)
    returns (v: Result<nat, IoError>)
    requires HasRead(r, p, shapes, fs) && |fs| < |shapes| && shapes[|fs|] == FixedShape(8 * width) && 1 <= width <= 8
    modifies r
    ensures v.Ok? ==> HasRead(r, p, shapes, fs + [Fixed(v.value, 8 * width)])
    ensures v.Err? ==> v.error == UnexpectedEof && Decode(r.Stream(), p, shapes).None?
  {
    hide Decode, ValueAt;
    ReadOne(r.Stream(), p, r.Position(), shapes, fs);
    v := r.ReadUint(width);
  }

  /** A lone number of one or two bytes. */
  method GetCount(r: BitReader, width: nat) returns (v: Result<nat, IoError>)
    requires r.Valid() && 1 <= width <= 2
    modifies r
    ensures r.Valid()
    ensures match DecodeFixed(r.Stream(), old(r.Position()), 8 * width)
            case Some((n, q)) => v == Ok(n) && r.Position() == q
            case None => v == Err(UnexpectedEof)
  {
    hide ValueAt;
    v := r.ReadUint(width);
  }

  /** The fields of a row that is being read. */
  lemma RowBegins(r: BitReader, p: nat, shapes: seq<Shape>)
    requires r.Valid() && r.Position() == p
    requires shapes == GENERAL || shapes == FORMATS || shapes == TIMING
    ensures HasRead(r, p, shapes, [])
    ensures Decode(r.Stream(), p, shapes).None? ==> ParseRow(r.Stream(), p, shapes).None?
  {
  }

  lemma RowEnds(r: BitReader, p: nat, shapes: seq<Shape>, fs: seq<Field>)
    requires HasRead(r, p, shapes, fs) && |fs| == |shapes|
    requires shapes == GENERAL || shapes == FORMATS || shapes == TIMING
    ensures r.Valid() && ParseRow(r.Stream(), p, shapes) == Some((fs, r.Position()))
  {
    hide Decode;
    assert shapes[..|fs|] == shapes;
  }

  method DemuxGeneral(r: BitReader) returns (v: Result<(byte, bool, byte, u32, nat, byte), IoError>)
    requires r.Valid()
    modifies r
    ensures match ParseRow(r.Stream(), old(r.Position()), GENERAL)
            case None => v == Err(UnexpectedEof)
            case Some((row, q)) => r.Valid() && r.Position() == q && v == Ok(GeneralOf(row))
  {
    hide Decode, HasRead, ParseRow, ShapesOf, GeneralOf;
    hide FormatsOf, TimingOf, BytesBits, BitReader.Stream, BitReader.Position;
    ghost var p := r.Position();
    ghost var fs: seq<Field> := [];
    RowBegins(r, p, GENERAL);
    var space :- GetBits(r, 2, p, GENERAL, fs);
    fs := fs + [Fixed(space, 2)];
    var tier :- GetBit(r, p, GENERAL, fs);
    fs := fs + [Bit(tier)];
    var idc :- GetBits(r, 5, p, GENERAL, fs);
    fs := fs + [Fixed(idc, 5)];
    var compatibility :- GetUint(r, 4, p, GENERAL, fs);
    fs := fs + [Fixed(compatibility, 32)];
    var constraints :- GetUint(r, 6, p, GENERAL, fs);
    fs := fs + [Fixed(constraints, 48)];
    var level :- GetUint(r, 1, p, GENERAL, fs);
    fs := fs + [Fixed(level, 8)];
    assert fs == [Fixed(space, 2), Bit(tier), Fixed(idc, 5), Fixed(compatibility, 32), Fixed(constraints, 48),
                  Fixed(level, 8)];
    RowEnds(r, p, GENERAL, fs);
    GeneralIs(space, tier, idc, compatibility, constraints, level);
    return Ok((space % 256, tier, idc % 256, compatibility % 0x1_0000_0000, constraints, level % 256));
  }

  method DemuxFormats(r: BitReader) returns (v: Result<(u16, byte, byte, byte, byte), IoError>)
    requires r.Valid()
    modifies r
    ensures match ParseRow(r.Stream(), old(r.Position()), FORMATS)
            case None => v == Err(UnexpectedEof)
            case Some((row, q)) => r.Valid() && r.Position() == q && v == Ok(FormatsOf(row))
  {
    hide Decode, HasRead, ParseRow, ShapesOf, GeneralOf;
    hide FormatsOf, TimingOf, BytesBits, BitReader.Stream, BitReader.Position;
    ghost var p := r.Position();
    ghost var fs: seq<Field> := [];
    RowBegins(r, p, FORMATS);
    ghost var reserved0, reserved1, reserved2, reserved3, reserved4;
    var minSegmentation, parallelism, chroma, luma, chromaDepth;
    minSegmentation, reserved0 :- GetPadded(r, 4, 12, p, FORMATS, fs);
    fs := fs + [Fixed(reserved0, 4), Fixed(minSegmentation, 12)];
    parallelism, reserved1 :- GetPadded(r, 6, 2, p, FORMATS, fs);
    fs := fs + [Fixed(reserved1, 6), Fixed(parallelism, 2)];
    chroma, reserved2 :- GetPadded(r, 6, 2, p, FORMATS, fs);
    fs := fs + [Fixed(reserved2, 6), Fixed(chroma, 2)];
    luma, reserved3 :- GetPadded(r, 5, 3, p, FORMATS, fs);
    fs := fs + [Fixed(reserved3, 5), Fixed(luma, 3)];
    chromaDepth, reserved4 :- GetPadded(r, 5, 3, p, FORMATS, fs);
    fs := fs + [Fixed(reserved4, 5), Fixed(chromaDepth, 3)];
    assert fs == [Fixed(reserved0, 4), Fixed(minSegmentation, 12), Fixed(reserved1, 6), Fixed(parallelism, 2),
                  Fixed(reserved2, 6), Fixed(chroma, 2), Fixed(reserved3, 5), Fixed(luma, 3), Fixed(reserved4, 5),
                  Fixed(chromaDepth, 3)];
    RowEnds(r, p, FORMATS, fs);
    FormatsIs(reserved0, minSegmentation, reserved1, parallelism, reserved2, chroma, reserved3, luma, reserved4,
              chromaDepth);
    return Ok((minSegmentation % 0x1_0000, parallelism % 256, chroma % 256, luma % 256, chromaDepth % 256));
  }

  method DemuxTiming(r: BitReader) returns (v: Result<(u16, byte, byte, bool, byte), IoError>)
    requires r.Valid()
    modifies r
    ensures match ParseRow(r.Stream(), old(r.Position()), TIMING)
            case None => v == Err(UnexpectedEof)
            case Some((row, q)) => r.Valid() && r.Position() == q && v == Ok(TimingOf(row))
  {
    hide Decode, HasRead, ParseRow, ShapesOf, GeneralOf;
    hide FormatsOf, TimingOf, BytesBits, BitReader.Stream, BitReader.Position;
    ghost var p := r.Position();
    ghost var fs: seq<Field> := [];
    RowBegins(r, p, TIMING);
    var frameRate :- GetUint(r, 2, p, TIMING, fs);
    fs := fs + [Fixed(frameRate, 16)];
    var constantRate :- GetBits(r, 2, p, TIMING, fs);
    fs := fs + [Fixed(constantRate, 2)];
    var layers :- GetBits(r, 3, p, TIMING, fs);
    fs := fs + [Fixed(layers, 3)];
    var nested :- GetBit(r, p, TIMING, fs);
    fs := fs + [Bit(nested)];
    var lengthSize :- GetBits(r, 2, p, TIMING, fs);
    fs := fs + [Fixed(lengthSize, 2)];
    assert fs == [Fixed(frameRate, 16), Fixed(constantRate, 2), Fixed(layers, 3), Bit(nested), Fixed(lengthSize, 2)];
    RowEnds(r, p, TIMING, fs);
    TimingIs(frameRate, constantRate, layers, nested, lengthSize);
    return Ok((frameRate % 0x1_0000, constantRate % 256, layers % 256, nested, lengthSize % 256));
  }

  method DemuxNalu(r: BitReader) returns (v: Result<seq<byte>, IoError>)
    requires r.Valid()
    modifies r
    ensures r.Valid()
    ensures match ParseNalu(r.Stream(), old(r.Position()))
            case None => v == Err(UnexpectedEof)
            case Some((nalu, q)) => r.Position() == q && v == Ok(nalu)
  {
    hide DecodeFixed, BytesBits, BitsValue;
    var len :- GetCount(r, 2);
    var f :- ReadField(r, RawShape(len));
    return Ok(f.bytes);
  }

  method DemuxNalus(r: BitReader, n: nat) returns (v: Result<seq<seq<byte>>, IoError>)
    requires r.Valid()
    modifies r
    ensures r.Valid()
    ensures match ParseNalus(r.Stream(), old(r.Position()), n)
            case None => v == Err(UnexpectedEof)
            case Some((nalus, q)) => r.Position() == q && v == Ok(nalus)
  {
    hide ParseNalu;
    ghost var s, p := r.Stream(), r.Position();
    var nalus := [];
    for i := 0 to n
      invariant r.Valid()
      invariant ParseNalus(s, p, i) == Some((nalus, r.Position()))
    {
      NalusFail(s, p, i + 1, n);
      var nalu :- DemuxNalu(r);
      nalus := nalus + [nalu];
    }
    return Ok(nalus);
  }

  lemma {:induction false} NalusFail(s: seq<bool>, p: nat, i: nat, n: nat)
    requires i <= n
    ensures ParseNalus(s, p, i).None? ==> ParseNalus(s, p, n).None?
    decreases n
  {
    if i < n {
      NalusFail(s, p, i, n - 1);
    }
  }

  method DemuxArray(r: BitReader) returns (v: Result<NaluArray, IoError>)
    requires r.Valid()
    modifies r
    ensures match ParseArray(r.Stream(), old(r.Position()))
            case Err(e) => v == Err(e)
            case Ok((a, q)) => r.Valid() && r.Position() == q && v == Ok(a)
  {
    hide Decode, ParseNalus, DecodeFixed;
    ghost var p := r.Position();
    ghost var fs: seq<Field> := [];
    HeadBegins(r, p);
    var complete :- GetBit(r, p, ARRAY_HEAD, fs);
    fs := fs + [Bit(complete)];
    var reserved :- GetBits(r, 1, p, ARRAY_HEAD, fs);
    fs := fs + [Fixed(reserved, 1)];
    var nalType :- GetBits(r, 6, p, ARRAY_HEAD, fs);
    fs := fs + [Fixed(nalType, 6)];
    assert ARRAY_HEAD[..|fs|] == ARRAY_HEAD;
    if !ParameterSetType(nalType) {
      return Err(InvalidData);
    }
    var n :- GetCount(r, 2);
    var nalus :- DemuxNalus(r, n);
    return Ok(NaluArray(complete, nalType, nalus));
  }

  lemma HeadBegins(r: BitReader, p: nat)
    requires r.Valid() && r.Position() == p
    ensures HasRead(r, p, ARRAY_HEAD, [])
  {
  }

  method DemuxArrays(r: BitReader, n: nat) returns (v: Result<seq<NaluArray>, IoError>)
    requires r.Valid()
    modifies r
    ensures match ParseArrays(r.Stream(), old(r.Position()), n)
            case Err(e) => v == Err(e)
            case Ok((arrays, q)) => r.Valid() && r.Position() == q && v == Ok(arrays)
  {
    hide ParseArray;
    ghost var s, p := r.Stream(), r.Position();
    var arrays := [];
    for i := 0 to n
      invariant r.Valid()
      invariant ParseArrays(s, p, i) == Ok((arrays, r.Position()))
    {
      ArraysFail(s, p, i + 1, n);
      var a :- DemuxArray(r);
      arrays := arrays + [a];
    }
    return Ok(arrays);
  }

  lemma {:induction false} ArraysFail(s: seq<bool>, p: nat, i: nat, n: nat)
    requires i <= n
    ensures var before := ParseArrays(s, p, i); before.Err? ==> ParseArrays(s, p, n) == before
    decreases n
  {
    if i < n {
      ArraysFail(s, p, i, n - 1);
    }
  }

  /** `demux` on the bytes of `data`; `consumed` says how many of them a successful call takes. */
  method Demux(data: seq<byte>) returns (v: Result<Record, IoError>, consumed: nat)
    ensures match ParseRecord(BytesBits(data), 0)
            case Err(e) => v == Err(e)
            case Ok((r, q)) => v == Ok(r) && q == 8 * consumed
    ensures v.Ok? ==> WellFormed(v.value) && consumed == Size(v.value)
    ensures forall r :: v == Ok(r) <==> RecordStands(data, r)
  {
    hide ParseRecord, BytesBits, WellFormed, Size, RecordStands;
    var r := new BitReader(data);
    consumed := 0;
    ParsedIsWellFormed(r.Stream(), 0);
    v := DemuxRecord(r);
    consumed := r.pos;
    forall record
      ensures v == Ok(record) <==> RecordStands(data, record)
    {
      RecordAt(data, record);
    }
  }

  method DemuxRecord(r: BitReader) returns (v: Result<Record, IoError>)
    requires r.Valid()
    modifies r
    ensures match ParseRecord(r.Stream(), old(r.Position()))
            case Err(e) => v == Err(e)
            case Ok((record, q)) => r.Valid() && r.Position() == q && v == Ok(record)
  {
    hide DecodeFixed, ParseRow, ParseArrays, GeneralOf, FormatsOf, TimingOf;
    var version :- GetCount(r, 1);
    if version != 1 {
      return Err(InvalidData);
    }
    var g :- DemuxGeneral(r);
    var f :- DemuxFormats(r);
    var t :- DemuxTiming(r);
    if t.4 == 2 {
      return Err(InvalidData);
    }
    var n :- GetCount(r, 1);
    var arrays :- DemuxArrays(r, n);
    return Ok(Record(g.0, g.1, g.2, g.3, g.4, g.5, f.0, f.1, f.2, f.3, f.4, t.0, t.1, t.2, t.3, t.4, arrays));
  }

  /** Muxing a record and demuxing what comes out, in front of anything else, gives the record
      back exactly when it is well formed, and the demuxer takes exactly its bytes. */
  method MuxThenDemux(r: Record, trailing: seq<byte>)
    returns (muxed: Result<seq<byte>, IoError>, back: Result<Record, IoError>, consumed: nat)
    requires r.constraints < U48_LIMIT
    ensures muxed.Ok? <==> BitsFit(r)
    ensures muxed.Ok? ==> |muxed.value| == Size(r)
    ensures muxed.Ok? && back == Ok(r) <==> WellFormed(r)
    ensures WellFormed(r) ==> consumed == Size(r)
  {
    hide ParseRecord, Size, RecordFields, Encode, BytesBits;
    muxed := Mux(r, []);
    if muxed.Err? {
      return muxed, Err(muxed.error), 0;
    }
    var bytes := muxed.value;
    ghost var s := BytesBits(bytes + trailing);
    assert BytesBits([]) == [];
    BytesBitsConcat(bytes, trailing);
    assert s[0..0 + |Encode(RecordFields(r), 0)|] == Encode(RecordFields(r), 0);
    if WellFormed(r) {
      RecordBack(s, 0, r);
    }
    back, consumed := Demux(bytes + trailing);
  }
}
