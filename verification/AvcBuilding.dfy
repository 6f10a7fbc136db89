/** `build`, `parse` and `size` of the AVC decoder configuration record, call by call as in
    crates/h264/src/config.rs. */
module AvcBuilding {
  import opened Wrappers
  import opened Bits
  import opened BitReading
  import opened BitWriting
  import opened BytesCursors
  import opened Fields
  import opened Avc
  import Sps = SpsExtension
  import SpsCoding = SpsExtensionCoding

  /** Everything written so far is whole bytes. */
  ghost predicate HasBytes(w: BitWriter, bytes: seq<byte>)
    reads w
  {
    w.Valid() && w.Written() == BytesBits(bytes)
  }

  method PutUint(w: BitWriter, value: nat, width: nat, ghost bytes: seq<byte>)
    requires HasBytes(w, bytes) && value < Pow2(8 * width)
    modifies w
    ensures w.Valid() && HasBytes(w, bytes + BigEndian(value, width))
  {
    hide BytesBits, NatBits;
    w.WriteUint(value, width);
    BytesBitsOfBigEndian(value, width);
    BytesBitsConcat(bytes, BigEndian(value, width));
  }

  lemma OneByte(value: nat)
    requires value < 256
    ensures BigEndian(value, 1) == [value] && Pow2(8) == 256
  {
    assert Pow2(8) == 256;
  }

  /** `write_u8`. */
  method PutByte(w: BitWriter, value: byte, ghost bytes: seq<byte>)
    requires HasBytes(w, bytes)
    modifies w
    ensures w.Valid() && HasBytes(w, bytes + [value])
  {
    hide BytesBits, NatBits;
    OneByte(value);
    PutUint(w, value, 1, bytes);
  }

  /** Two calls of `write_bits` that make up one byte; the first one writes a constant that fits. */
  method PutPair(w: BitWriter, reserved: nat, reservedWidth: nat, value: nat, width: nat, ghost bytes: seq<byte>)
    returns (r: Result<(), IoError>)
    requires HasBytes(w, bytes) && reservedWidth + width == 8 && reserved < Pow2(reservedWidth) && value < U64_LIMIT
    modifies w
    ensures w.Valid()
    ensures r == if value < Pow2(width) then Ok(()) else Err(InvalidData)
    ensures r.Ok? ==> 0 <= reserved * Pow2(width) + value < 256
    ensures r.Ok? ==> HasBytes(w, bytes + [reserved * Pow2(width) + value])
  {
    hide BytesBits, NatBits, Pow2;
    Pow2Monotone(reservedWidth, 64);
    Pow2Of64();
    var first := w.WriteBits(reserved, reservedWidth);
    r := w.WriteBits(value, width);
    if r.Ok? {
      PairFits(reserved, reservedWidth, value, width);
      var b := reserved * Pow2(width) + value;
      NatBitsConcat(reserved, reservedWidth, value, width);
      ConcatAssoc(BytesBits(bytes), NatBits(reserved, reservedWidth), NatBits(value, width));
      BytesBitsSingle(b);
      BytesBitsConcat(bytes, [b]);
    }
  }

  lemma PairFits(x: nat, a: nat, y: nat, b: nat)
    requires a + b == 8 && x < Pow2(a) && y < Pow2(b)
    ensures 0 <= x * Pow2(b) + y < 256
  {
    hide Pow2;
    Pow2Of8();
    Pow2Add(a, b);
    PairBound(x, y, Pow2(a), Pow2(b));
  }

  lemma PairBound(x: nat, y: nat, p: nat, q: nat)
    requires x < p && y < q
    ensures 0 <= x * q + y < p * q
  {
    assert p * q == x * q + q + (p - x - 1) * q;
    assert (p - x - 1) * q >= 0;
    assert x * q >= 0;
  }

  /** `write_bits(n, 8)`. */
  method PutCount(w: BitWriter, n: nat, ghost bytes: seq<byte>) returns (r: Result<(), IoError>)
    requires HasBytes(w, bytes) && n < U64_LIMIT
    modifies w
    ensures w.Valid()
    ensures r == if n < 256 then Ok(()) else Err(InvalidData)
    ensures r.Ok? ==> HasBytes(w, bytes + [n])
  {
    hide BytesBits, NatBits, Pow2;
    OneByte(0);
    r := w.WriteBits(n, 8);
    if r.Ok? {
      BytesBitsSingle(n);
      BytesBitsConcat(bytes, [n]);
    }
  }

  method PutLength(w: BitWriter, n: nat, ghost bytes: seq<byte>)
    requires HasBytes(w, bytes)
    modifies w
    ensures w.Valid() && HasBytes(w, bytes + BigEndian(n % 0x1_0000, 2))
  {
    assert Pow2(16) == 0x1_0000 by {
      assert Pow2(8) == 256;
      Pow2Add(8, 8);
    }
    PutUint(w, n % 0x1_0000, 2, bytes);
  }

  method BuildUnits(w: BitWriter, units: seq<seq<byte>>, ghost before: seq<byte>)
    requires w.Valid() && HasBytes(w, before)
    modifies w
    ensures w.Valid() && HasBytes(w, before + UnitsBytes(units))
  {
    hide BytesBits, BigEndian, UnitsBytes;
    NoUnits();
    assert before + [] == before;
    for i := 0 to |units|
      invariant w.Valid() && HasBytes(w, before + UnitsBytes(units[..i]))
    {
      ghost var bytes := before + UnitsBytes(units[..i]);
      PutLength(w, |units[i]|, bytes);
      bytes := bytes + BigEndian(|units[i]| % 0x1_0000, 2);
      var n := w.Write(units[i]);
      BytesBitsConcat(bytes, units[i]);
      UnitsBytesStep(units[..i + 1], i);
      assert units[..i + 1][..i] == units[..i];
      assert bytes + units[i] == before + UnitsBytes(units[..i + 1]);
    }
    assert units[..|units|] == units;
  }

  method BuildExt(w: BitWriter, e: Sps.SpsExt, ghost before: seq<byte>)
    requires w.Valid() && HasBytes(w, before) && Sps.ScalingFits(e.scaling)
    modifies w
    ensures w.Valid() && HasBytes(w, before + ExtBytes(e))
  {
    hide BytesBits, BigEndian, Encode, Sps.ExtFields, Sps.ScalingFits, Pack, Padding;
    var bits := SpsCoding.BitSize(e);
    PutLength(w, CeilDiv8(bits), before);
    ghost var bytes := before + BigEndian(CeilDiv8(bits) % 0x1_0000, 2);
    SpsCoding.Build(w, e);
    NoAlignments(e);
    EncodeAnywhere(Sps.ExtFields(e), 8 * |bytes|, 0);
    ghost var packed := Pack(ExtBits(e));
    w.Align();
    PackedBehind(bytes, ExtBits(e));
    assert bytes + packed == before + ExtBytes(e);
  }

  lemma PackedBehind(bytes: seq<byte>, bits: seq<bool>)
    ensures var written := BytesBits(bytes) + bits;
            written + Padding(|written|) == BytesBits(bytes + Pack(bits))
  {
    hide BytesBits, Pack, Padding;
    BitsOfPack(bits);
    PaddingBehindBytes(|bytes|, |bits|);
    ConcatAssoc(BytesBits(bytes), bits, Padding(|bits|));
    BytesBitsConcat(bytes, Pack(bits));
  }

  lemma PaddingBehindBytes(bytes: nat, bits: nat)
    ensures Padding(8 * bytes + bits) == Padding(bits)
  {
  }

  lemma NoAlignments(e: Sps.SpsExt)
    ensures forall i :: 0 <= i < |Sps.ExtFields(e)| ==> !Sps.ExtFields(e)[i].AlignBits?
  {
    hide Sps.ListsFields;
    NoAlignmentsInLists(e.scaling);
  }

  lemma {:induction false} NoAlignmentsInLists(lists: seq<seq<int>>)
    ensures forall i :: 0 <= i < |Sps.ListsFields(lists)| ==> !Sps.ListsFields(lists)[i].AlignBits?
  {
    if lists != [] {
      NoAlignmentsInLists(lists[..|lists| - 1]);
    }
  }

  method BuildExts(w: BitWriter, exts: seq<Sps.SpsExt>, ghost before: seq<byte>)
    requires w.Valid() && HasBytes(w, before) && ExtsWritable(exts)
    modifies w
    ensures w.Valid() && HasBytes(w, before + ExtsBytes(exts))
  {
    hide HasBytes, ExtsBytes, ExtBytes, Sps.ScalingFits;
    NoExts();
    assert before + [] == before;
    for i := 0 to |exts|
      invariant w.Valid() && HasBytes(w, before + ExtsBytes(exts[..i]))
    {
      ghost var bytes := before + ExtsBytes(exts[..i]);
      BuildExt(w, exts[i], bytes);
      ExtsBytesStep(exts[..i + 1], i);
      assert exts[..i + 1][..i] == exts[..i];
      assert bytes + ExtBytes(exts[i]) == before + ExtsBytes(exts[..i + 1]);
    }
    assert exts[..|exts|] == exts;
  }

  method BuildConfig(w: BitWriter, c: ExtendedConfig, ghost before: seq<byte>) returns (res: Result<(), IoError>)
    requires w.Valid() && HasBytes(w, before) && ExtsWritable(c.exts) && |c.exts| < U64_LIMIT
    modifies w
    ensures w.Valid()
    ensures res == if ConfigFits(c) then Ok(()) else Err(InvalidData)
    ensures res.Ok? ==> HasBytes(w, before + ConfigBytes(c))
  {
    hide HasBytes, Pow2, ExtsBytes;
    SmallPowers();
    ghost var bytes := before;
    var _ :- PutPair(w, 63, 6, c.chroma, 2, bytes);
    bytes := bytes + [0xFC + c.chroma];
    var _ :- PutPair(w, 31, 5, c.luma, 3, bytes);
    bytes := bytes + [0xF8 + c.luma];
    var _ :- PutPair(w, 31, 5, c.chromaDepth, 3, bytes);
    bytes := bytes + [0xF8 + c.chromaDepth];
    var _ :- PutCount(w, |c.exts|, bytes);
    bytes := bytes + [|c.exts|];
    BuildExts(w, c.exts, bytes);
    assert bytes + ExtsBytes(c.exts) == before + ConfigBytes(c);
    return Ok(());
  }

  lemma SmallPowers()
    ensures Pow2(2) == 4 && Pow2(3) == 8 && Pow2(5) == 32 && Pow2(6) == 64
  {
    assert Pow2(2) == 4;
    assert Pow2(3) == 8;
    assert Pow2(5) == 32;
  }

  method BuildHead(w: BitWriter, r: Record, ghost before: seq<byte>) returns (res: Result<(), IoError>)
    requires w.Valid() && HasBytes(w, before) && |r.sps| < U64_LIMIT
    modifies w
    ensures w.Valid()
    ensures res == if r.lengthSize < 4 && |r.sps| < 32 then Ok(()) else Err(InvalidData)
    ensures res.Ok? ==> HasBytes(w, before + HeadBytes(r))
  {
    hide HasBytes, Pow2;
    SmallPowers();
    ghost var bytes := before;
    PutByte(w, r.version, bytes);
    bytes := bytes + [r.version];
    PutByte(w, r.profile, bytes);
    bytes := bytes + [r.profile];
    PutByte(w, r.compatibility, bytes);
    bytes := bytes + [r.compatibility];
    PutByte(w, r.level, bytes);
    bytes := bytes + [r.level];
    var _ :- PutPair(w, 63, 6, r.lengthSize, 2, bytes);
    bytes := bytes + [0xFC + r.lengthSize];
    var _ :- PutPair(w, 7, 3, |r.sps|, 5, bytes);
    bytes := bytes + [0xE0 + |r.sps|];
    assert bytes == before + HeadBytes(r);
    return Ok(());
  }

  /** `build` behind the bytes that `writer` already holds. */
  method Build(r: Record, writer: seq<byte>) returns (res: Result<seq<byte>, IoError>)
    requires ScalingsFit(r)
    requires |r.sps| < U64_LIMIT && |r.pps| < U64_LIMIT
    requires r.extended.Some? ==> |r.extended.value.exts| < U64_LIMIT
    ensures res.Ok? <==> BitsFit(r)
    ensures res.Err? ==> res.error == InvalidData
    ensures res.Ok? ==> res.value == writer + RecordBytes(r)
  {
    hide HasBytes, HeadBytes, UnitsBytes, ConfigBytes, ExtsWritable, BytesBits, BitWriter.Written;
    var w := new BitWriter(writer);
    BuildingBegins(w, writer);
    ghost var bytes := writer;
    var _ :- BuildHead(w, r, bytes);
    bytes := bytes + HeadBytes(r);
    BuildUnits(w, r.sps, bytes);
    bytes := bytes + UnitsBytes(r.sps);
    var _ :- PutCount(w, |r.pps|, bytes);
    bytes := bytes + [|r.pps|];
    BuildUnits(w, r.pps, bytes);
    bytes := bytes + UnitsBytes(r.pps);
    if r.extended.Some? {
      var _ :- BuildConfig(w, r.extended.value, bytes);
      bytes := bytes + ConfigBytes(r.extended.value);
    }
    assert bytes == writer + RecordBytes(r);
    BuildingEnds(w, bytes);
    var out := w.Finish();
    BytesBitsInjective(out, bytes);
    return Ok(out);
  }

  lemma BuildingBegins(w: BitWriter, bytes: seq<byte>)
    requires w.Valid() && w.Written() == BytesBits(bytes)
    ensures HasBytes(w, bytes)
  {
  }

  lemma BuildingEnds(w: BitWriter, bytes: seq<byte>)
    requires HasBytes(w, bytes)
    ensures w.Valid() && w.Written() == BytesBits(bytes) && |w.Written()| % 8 == 0
  {
  }

  method ParseUnit(c: BytesCursor) returns (v: Result<seq<byte>, IoError>)
    modifies c
    ensures match UnitAt(c.data, old(c.pos))
            case None => v == Err(UnexpectedEof)
            case Some((unit, q)) => v == Ok(unit) && c.pos == q
  {
    hide FromBigEndian;
    var len :- c.ReadUint(2);
    v := c.ExtractBytes(len);
  }

  method ReadUnits(c: BytesCursor, n: nat) returns (v: Result<seq<seq<byte>>, IoError>)
    modifies c
    ensures match ParseUnits(c.data, old(c.pos), n)
            case None => v == Err(UnexpectedEof)
            case Some((units, q)) => v == Ok(units) && c.pos == q
  {
    hide UnitAt;
    ghost var p := c.pos;
    var units := [];
    for i := 0 to n
      invariant ParseUnits(c.data, p, i) == Some((units, c.pos))
    {
      UnitsFail(c.data, p, i + 1, n);
      var unit :- ParseUnit(c);
      units := units + [unit];
    }
    return Ok(units);
  }

  lemma {:induction false} UnitsFail(data: seq<byte>, p: nat, i: nat, n: nat)
    requires i <= n
    ensures ParseUnits(data, p, i).None? ==> ParseUnits(data, p, n).None?
    decreases n
  {
    if i < n {
      UnitsFail(data, p, i, n - 1);
    }
  }

  method ReadExts(c: BytesCursor, n: nat) returns (v: Result<seq<Sps.SpsExt>, IoError>)
    modifies c
    ensures match ParseExts(c.data, old(c.pos), n)
            case Err(e) => v == Err(e)
            case Ok((exts, q)) => v == Ok(exts) && c.pos == q
  {
    hide UnitAt, Sps.ParseExt, BytesBits;
    ghost var p := c.pos;
    var exts := [];
    for i := 0 to n
      invariant ParseExts(c.data, p, i) == Ok((exts, c.pos))
    {
      ExtsFail(c.data, p, i + 1, n);
      var unit :- ParseUnit(c);
      var r := new BitReader(unit);
      var e :- SpsCoding.Parse(r);
      exts := exts + [e];
    }
    return Ok(exts);
  }

  lemma {:induction false} ExtsFail(data: seq<byte>, p: nat, i: nat, n: nat)
    requires i <= n
    ensures var before := ParseExts(data, p, i); before.Err? ==> ParseExts(data, p, n) == before
    decreases n
  {
    hide ExtAt;
    if i < n {
      ExtsFail(data, p, i, n - 1);
    }
  }

  /** Byte after byte is what reading them at once yields. */
  lemma BytesOneByOne(data: seq<byte>, p: nat, n: nat, i: nat)
    requires i < n
    ensures NumberAt(data, p + i, 1).None? ==> TakeAt(data, p, n).None?
    ensures TakeAt(data, p, n).Some? ==> NumberAt(data, p + i, 1) == Some(TakeAt(data, p, n).value[i])
    ensures i == n - 1 && NumberAt(data, p + i, 1).Some? ==> TakeAt(data, p, n).Some?
  {
    if TakeAt(data, p + i, 1).Some? {
      var b := data[p + i];
      assert data[p + i..p + i + 1] == [b];
      ByteBack(data, p + i, b);
    }
  }

  method ReadConfig(c: BytesCursor) returns (v: Result<ExtendedConfig, IoError>)
    modifies c
    ensures match ParseConfig(c.data, old(c.pos))
            case Err(e) => v == Err(e)
            case Ok((config, q)) => v == Ok(config) && c.pos == q
  {
    hide ParseExts, FromBigEndian;
    ghost var p := c.pos;
    BytesOneByOne(c.data, p, 4, 0);
    BytesOneByOne(c.data, p, 4, 1);
    BytesOneByOne(c.data, p, 4, 2);
    BytesOneByOne(c.data, p, 4, 3);
    var chroma :- c.ReadUint(1);
    var luma :- c.ReadUint(1);
    var chromaDepth :- c.ReadUint(1);
    var n :- c.ReadUint(1);
    var exts :- ReadExts(c, n);
    return Ok(ExtendedConfig(chroma % 4, luma % 8, chromaDepth % 8, exts));
  }

  /** The six bytes in front of the parameter sets. */
  method ReadHead(c: BytesCursor) returns (v: Result<(byte, byte, byte, byte, byte, byte), IoError>)
    modifies c
    ensures match TakeAt(c.data, old(c.pos), 6)
            case None => v == Err(UnexpectedEof)
            case Some(h) => v == Ok((h[0], h[1], h[2], h[3], h[4], h[5])) && c.pos == old(c.pos) + 6
  {
    hide FromBigEndian;
    ghost var p := c.pos;
    BytesOneByOne(c.data, p, 6, 0);
    BytesOneByOne(c.data, p, 6, 1);
    BytesOneByOne(c.data, p, 6, 2);
    BytesOneByOne(c.data, p, 6, 3);
    BytesOneByOne(c.data, p, 6, 4);
    BytesOneByOne(c.data, p, 6, 5);
    var version :- c.ReadUint(1);
    var profile :- c.ReadUint(1);
    var compatibility :- c.ReadUint(1);
    var level :- c.ReadUint(1);
    var lengthSize :- c.ReadUint(1);
    var n :- c.ReadUint(1);
    return Ok((version, profile, compatibility, level, lengthSize, n));
  }

  method Parse(c: BytesCursor) returns (v: Result<Record, IoError>)
    modifies c
    ensures match ParseRecord(c.data, old(c.pos))
            case Err(e) => v == Err(e)
            case Ok((r, q)) => v == Ok(r) && c.pos == q
    ensures v.Ok? ==> WellFormed(v.value)
  {
    hide ParseUnits, ParseConfig, WellFormed, FromBigEndian;
    if ParseRecord(c.data, c.pos).Ok? {
      ParsedIsWellFormed(c.data, c.pos);
    }
    var head :- ReadHead(c);
    var sps :- ReadUnits(c, head.5 % 32);
    var n :- c.ReadUint(1);
    var pps :- ReadUnits(c, n);
    var extended: Option<ExtendedConfig> := None;
    if !PlainProfile(head.1) && c.HasRemaining() {
      var config :- ReadConfig(c);
      extended := Some(config);
    }
    return Ok(Record(head.0, head.1, head.2, head.3, head.4 % 4, sps, pps, extended));
  }

  method UnitsSize(units: seq<seq<byte>>) returns (size: nat)
    ensures size == |UnitsBytes(units)|
  {
    hide BigEndian;
    size := 0;
    for i := 0 to |units|
      invariant size == |UnitsBytes(units[..i])|
    {
      size := size + (2 + |units[i]|);
      assert units[..i + 1][..i] == units[..i];
    }
    assert units[..|units|] == units;
  }

  method ExtsSize(exts: seq<Sps.SpsExt>) returns (size: nat)
    requires ExtsWritable(exts)
    ensures size == |ExtsBytes(exts)|
  {
    hide BigEndian, Sps.ScalingFits, ExtsBytes, Sps.ExtFields, Encode, Pack;
    NoExts();
    size := 0;
    for i := 0 to |exts|
      invariant size == |ExtsBytes(exts[..i])|
    {
      var bits := SpsCoding.BitSize(exts[i]);
      size := size + (2 + CeilDiv8(bits));
      ExtsBytesStep(exts[..i + 1], i);
      assert exts[..i + 1][..i] == exts[..i];
    }
    assert exts[..|exts|] == exts;
  }

  /** `size()`. */
  method Size(r: Record) returns (size: nat)
    requires ScalingsFit(r)
    ensures BitsFit(r) ==> size == |RecordBytes(r)|
  {
    hide UnitsBytes, ExtsBytes, ExtsWritable;
    size := 1 + 1 + 1 + 1 + 1 + 1;
    var sps := UnitsSize(r.sps);
    size := size + sps + 1;
    var pps := UnitsSize(r.pps);
    size := size + pps;
    if r.extended.Some? {
      var exts := ExtsSize(r.extended.value.exts);
      size := size + (1 + 1 + 1 + 1 + exts);
    }
  }

  /** Parsing what was built, in front of any bytes, gives the record back exactly when it is well
      formed and the bytes behind it, if any, cannot be taken for an extended configuration; it then
      takes exactly the `size()` bytes. */
  method BuildThenParse(r: Record, trailing: seq<byte>)
    returns (built: Result<seq<byte>, IoError>, back: Result<Record, IoError>, consumed: nat, size: nat)
    requires ScalingsFit(r)
    requires |r.sps| < U64_LIMIT && |r.pps| < U64_LIMIT
    requires r.extended.Some? ==> |r.extended.value.exts| < U64_LIMIT
    ensures built.Ok? <==> BitsFit(r)
    ensures built.Ok? ==> |built.value| == size
    ensures built.Ok? && back == Ok(r) <==> WellFormed(r) && (MayBeFollowed(r) || trailing == [])
    ensures built.Ok? && back == Ok(r) ==> consumed == size
  {
    hide ParseRecord, ParseConfig, RecordBytes, UnitsFit, ExtsWellFormed, ConfigFits, ScalingsFit;
    built := Build(r, []);
    size := Size(r);
    if built.Err? {
      return built, Err(built.error), 0, size;
    }
    var c := new BytesCursor(built.value + trailing);
    assert built.value == RecordBytes(r);
    assert c.data[0..0 + |RecordBytes(r)|] == RecordBytes(r);
    if WellFormed(r) {
      RecordBack(c.data, 0, r);
    }
    back := Parse(c);
    consumed := c.pos;
  }
}
