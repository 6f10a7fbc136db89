/** What `demux` of crates/h265/src/config.rs makes of arbitrary bytes, stated from the bytes themselves:
    section 8.3.2.1 of ISO/IEC 14496-15. */
module HevcBytesParsing {
  import opened Wrappers
  import opened Bits
  import opened BitReading
  import opened Fields
  import opened Hevc
  import opened HevcParsing
  import opened HevcBytes

  function Word(high: byte, low: byte): u16 {
    var h: int := high;
    256 * h + low
  }

  ghost function FourBytes(bytes: seq<byte>): u32
    requires |bytes| == 4
  {
    Pow2Values();
    FromBigEndian(bytes)
  }

  /** The record that the first 23 bytes describe, whatever the reserved bits are; no arrays yet. */
  ghost function HeaderOf(data: seq<byte>): Record
    requires |data| >= 23
  {
    Record(
      data[1] / 64, data[1] / 32 % 2 == 1, data[1] % 32,
      FourBytes(data[2..6]), FromBigEndian(data[6..12]), data[12],
      Word(data[13] % 16, data[14]), data[15] % 4, data[16] % 4, data[17] % 8, data[18] % 8,
      Word(data[19], data[20]), data[21] / 64, data[21] / 8 % 8, data[21] / 4 % 2 == 1, data[21] % 4, [])
  }

  /** A unit behind its length. */
  ghost predicate NaluStands(data: seq<byte>, p: nat, nalu: seq<byte>) {
    && p + 2 + |nalu| <= |data|
    && |nalu| == Word(data[p], data[p + 1])
    && data[p + 2..p + 2 + |nalu|] == nalu
  }

  /** The units, one directly behind the other. */
  ghost predicate NalusStand(data: seq<byte>, p: nat, nalus: seq<seq<byte>>) {
    forall i :: 0 <= i < |nalus| ==> NaluStands(data, p + NalusSize(nalus[..i]), nalus[i])
  }

  /** An array of units; one bit of its first byte is reserved. */
  ghost predicate ArrayStands(data: seq<byte>, p: nat, a: NaluArray) {
    && p + 3 <= |data|
    && (a.complete <==> data[p] >= 128)
    && a.nalType == data[p] % 64 && ParameterSetType(a.nalType)
    && |a.nalus| == Word(data[p + 1], data[p + 2])
    && NalusStand(data, p + 3, a.nalus)
  }

  ghost predicate ArraysStand(data: seq<byte>, p: nat, arrays: seq<NaluArray>) {
    forall i :: 0 <= i < |arrays| ==> ArrayStands(data, p + ArraysSize(arrays[..i]), arrays[i])
  }

  /** The bytes are a record of version 1 whose length size is not 3 bytes, and the record is `r`. */
  ghost predicate RecordStands(data: seq<byte>, r: Record) {
    && |data| >= 23 && data[0] == 1 && data[21] % 4 != 2
    && r == HeaderOf(data).(arrays := r.arrays)
    && |r.arrays| == data[22]
    && ArraysStand(data, 23, r.arrays)
  }

  lemma {:induction false} DecodedEnds(s: seq<bool>, p: nat, shapes: seq<Shape>)
    requires p <= |s| && Decode(s, p, shapes).Some?
    requires forall i :: 0 <= i < |shapes| ==> shapes[i].BitShape? || shapes[i].FixedShape?
    ensures p <= Decode(s, p, shapes).value.1 <= |s|
  {
    hide BitsValue;
    if shapes != [] {
      DecodedEnds(s, p, shapes[..|shapes| - 1]);
    }
  }

  /** Fields are read where their bytes stand. */
  lemma DecodeAtBytes(data: seq<byte>, p: nat, fs: seq<Field>, bytes: seq<byte>)
    requires Spells(fs, bytes)
    requires p + |bytes| <= |data| && data[p..p + |bytes|] == bytes
    ensures Decode(BytesBits(data), 8 * p, ShapesOf(fs)) == Some((fs, 8 * (p + |bytes|)))
  {
    hide Encode, BytesBits, Decode, Writable;
    assert Encode(fs, 8 * p) == BytesBits(bytes);
    BytesBitsSlice(data, p, p + |bytes|);
    MixedRoundTrip(BytesBits(data), 8 * p, fs);
  }

  lemma FixedIs(s: seq<bool>, p: nat, width: nat)
    requires 1 <= width <= 64
    ensures DecodeFixed(s, p, width) ==
            if p + width <= |s| then Some((BitsValue(s[p..p + width]), p + width)) else None
  {
    hide BitsValue;
  }

  /** A lone number of one or two bytes. */
  lemma ByteAt(data: seq<byte>, p: nat)
    ensures DecodeFixed(BytesBits(data), 8 * p, 8) == if p < |data| then Some((data[p], 8 * (p + 1))) else None
  {
    hide BitsValue, BytesBits, NatBits, Pow2, FieldAt, DecodeFixed;
    Pow2Values();
    FixedIs(BytesBits(data), 8 * p, 8);
    if p < |data| {
      BytesBitsAt(data, p);
      ValueOfNatBits(data[p], 8);
    }
  }

  lemma WordIs(bytes: seq<byte>)
    requires |bytes| == 2
    ensures FromBigEndian(bytes) == Word(bytes[0], bytes[1])
  {
    assert bytes[..1][..0] == [];
    assert FromBigEndian(bytes[..1]) == bytes[0];
  }

  lemma WordBits(data: seq<byte>, p: nat)
    requires p + 2 <= |data|
    ensures BitsValue(BytesBits(data)[8 * p..8 * p + 16]) == Word(data[p], data[p + 1])
  {
    hide BitsValue, BytesBits, FromBigEndian, Word;
    BytesBitsSlice(data, p, p + 2);
    ValueOfBytesBits(data[p..p + 2]);
    WordIs(data[p..p + 2]);
  }

  lemma WordAt(data: seq<byte>, p: nat)
    ensures DecodeFixed(BytesBits(data), 8 * p, 16) ==
            if p + 2 <= |data| then Some((Word(data[p], data[p + 1]), 8 * (p + 2))) else None
  {
    hide BitsValue, BytesBits, Word, FieldAt, DecodeFixed;
    FixedIs(BytesBits(data), 8 * p, 16);
    if p + 2 <= |data| {
      WordBits(data, p);
    }
  }

  lemma NaluAt(data: seq<byte>, p: nat, nalu: seq<byte>)
    ensures ParseNalu(BytesBits(data), 8 * p) == Some((nalu, 8 * (p + 2 + |nalu|))) <==> NaluStands(data, p, nalu)
  {
    hide BytesBits, DecodeFixed, BytesAt;
    WordAt(data, p);
    if p + 2 <= |data| {
      var n := Word(data[p], data[p + 1]);
      var q := p + 2 + n;
      if q <= |data| && n != 0 {
        BitsOfBytesAt(BytesBits(data), 8 * (p + 2), n);
        BytesBitsSlice(data, p + 2, q);
        BytesBitsInjective(BytesAt(BytesBits(data), 8 * (p + 2), n), data[p + 2..q]);
      }
    }
  }

  lemma NalusStandStep(data: seq<byte>, p: nat, nalus: seq<seq<byte>>)
    ensures NalusStand(data, p, [])
    ensures nalus != [] ==>
              var n := |nalus| - 1;
              NalusStand(data, p, nalus) <==>
              NalusStand(data, p, nalus[..n]) && NaluStands(data, p + NalusSize(nalus[..n]), nalus[n])
  {
    hide NaluStands, NalusSize;
    if nalus != [] {
      var n := |nalus| - 1;
      assert forall i :: 0 <= i < n ==> nalus[..n][..i] == nalus[..i];
      assert forall i :: 0 <= i < n ==> nalus[..n][i] == nalus[i];
    }
  }

  lemma {:induction false} NalusAt(data: seq<byte>, p: nat, nalus: seq<seq<byte>>)
    ensures ParseNalus(BytesBits(data), 8 * p, |nalus|) == Some((nalus, 8 * (p + NalusSize(nalus))))
            <==> NalusStand(data, p, nalus)
  {
    hide ParseNalu, NaluStands, NalusStand, BytesBits, NalusSize, NalusFields, NaluFields;
    NalusSizeStep(nalus);
    var s := BytesBits(data);
    NalusStandStep(data, p, nalus);
    if nalus != [] {
      var n := |nalus| - 1;
      NalusAt(data, p, nalus[..n]);
      NaluAt(data, p + NalusSize(nalus[..n]), nalus[n]);
      assert nalus == nalus[..n] + [nalus[n]];
      if ParseNalus(s, 8 * p, n).Some? {
        ParsedNalusFit(s, 8 * p, n);
      }
    }
  }

  lemma HeadAt(data: seq<byte>, p: nat)
    ensures match Decode(BytesBits(data), 8 * p, ARRAY_HEAD)
            case None => p >= |data|
            case Some((h, q)) =>
              && p < |data| && q == 8 * (p + 1) && |h| == 3 && h[0] == Bit(data[p] >= 128)
              && h[2] == Fixed(data[p] % 64, 6)
  {
    hide BytesBits, Decode, Spells;
    if p < |data| {
      var complete, reserved, nalType := data[p] >= 128, data[p] / 64 % 2, data[p] % 64;
      var fs := [Bit(complete), Fixed(reserved, 1), Fixed(nalType, 6)];
      HeadSpells(complete, reserved, nalType);
      assert ShapesOf(fs) == ARRAY_HEAD;
      assert data[p..p + 1] == [128 * One(complete) + 64 * reserved + nalType];
      DecodeAtBytes(data, p, fs, data[p..p + 1]);
    } else if Decode(BytesBits(data), 8 * p, ARRAY_HEAD).Some? {
      HeadNeedsByte(BytesBits(data), 8 * p);
    }
  }

  lemma HeadNeedsByte(s: seq<bool>, p: nat)
    requires Decode(s, p, ARRAY_HEAD).Some?
    ensures p < |s|
  {
    hide BitsValue, Decode;
    DecodeFails(s, p, ARRAY_HEAD, 1);
    assert ARRAY_HEAD[..1] == [BitShape];
    DecodeNothing(s, p);
    DecodeExtend(s, p, [], BitShape);
    assert [] + [BitShape] == [BitShape];
  }

  lemma ArrayAt(data: seq<byte>, p: nat, a: NaluArray)
    ensures ParseArray(BytesBits(data), 8 * p) == Ok((a, 8 * (p + (1 + 2 + NalusSize(a.nalus)))))
            <==> ArrayStands(data, p, a)
  {
    hide BytesBits, Decode, DecodeFixed, ParseNalus, NalusStand, NalusSize;
    var s := BytesBits(data);
    HeadAt(data, p);
    if p < |data| {
      WordAt(data, p + 1);
      if p + 3 <= |data| {
        NalusAt(data, p + 3, a.nalus);
        var n := Word(data[p + 1], data[p + 2]);
        if ParseNalus(s, 8 * (p + 3), n).Some? {
          ParsedNalusFit(s, 8 * (p + 3), n);
        }
      }
    }
  }

  lemma ArraysStandStep(data: seq<byte>, p: nat, arrays: seq<NaluArray>)
    ensures ArraysStand(data, p, [])
    ensures arrays != [] ==>
              var n := |arrays| - 1;
              ArraysStand(data, p, arrays) <==>
              ArraysStand(data, p, arrays[..n]) && ArrayStands(data, p + ArraysSize(arrays[..n]), arrays[n])
  {
    hide ArrayStands, ArraysSize;
    if arrays != [] {
      var n := |arrays| - 1;
      assert forall i :: 0 <= i < n ==> arrays[..n][..i] == arrays[..i];
      assert forall i :: 0 <= i < n ==> arrays[..n][i] == arrays[i];
    }
  }

  lemma {:induction false} ArraysAt(data: seq<byte>, p: nat, arrays: seq<NaluArray>)
    ensures ParseArrays(BytesBits(data), 8 * p, |arrays|) == Ok((arrays, 8 * (p + ArraysSize(arrays))))
            <==> ArraysStand(data, p, arrays)
  {
    hide ParseArray, ArrayStands, ArraysStand, BytesBits, NalusSize, ArraysSize, ArraysFields, ArrayFields;
    hide ArraysWellFormed;
    ArraysStep(arrays);
    var s := BytesBits(data);
    ArraysStandStep(data, p, arrays);
    if arrays != [] {
      var n := |arrays| - 1;
      ArraysAt(data, p, arrays[..n]);
      ArrayAt(data, p + ArraysSize(arrays[..n]), arrays[n]);
      assert arrays == arrays[..n] + [arrays[n]];
      if ParseArrays(s, 8 * p, n).Ok? {
        ParsedArraysFit(s, 8 * p, n);
      }
    }
  }

  /** The fields of a row that the bytes describe. */
  lemma RowAtBytes(data: seq<byte>, p: nat, shapes: seq<Shape>, fs: seq<Field>, bytes: seq<byte>)
    requires shapes == GENERAL || shapes == FORMATS || shapes == TIMING
    requires ShapesOf(fs) == shapes && Spells(fs, bytes)
    requires p + |bytes| <= |data| && data[p..p + |bytes|] == bytes
    ensures ParseRow(BytesBits(data), 8 * p, shapes) == Some((fs, 8 * (p + |bytes|)))
  {
    hide Decode, Spells, BytesBits;
    DecodeAtBytes(data, p, fs, bytes);
  }

  lemma FourBytesBack(bytes: seq<byte>)
    requires |bytes| == 4
    ensures BigEndian(FourBytes(bytes), 4) == bytes
  {
    BigEndianOfValue(bytes);
  }

  lemma SixBytesBack(bytes: seq<byte>)
    requires |bytes| == 6
    ensures BigEndian(FromBigEndian(bytes), 6) == bytes && FromBigEndian(bytes) < U48_LIMIT
  {
    hide Pow2;
    Pow2Values();
    BigEndianOfValue(bytes);
  }

  /** A byte of fields. */
  lemma FirstByte(b: byte)
    ensures var space, tier, idc := b / 64, b / 32 % 2 == 1, b % 32;
            space < 4 && idc < 32 && b == 64 * space + 32 * One(tier) + idc
  {
  }

  lemma LastByte(b: byte)
    ensures var constantRate, layers, nested, lengthSize := b / 64, b / 8 % 8, b / 4 % 2 == 1, b % 4;
            && constantRate < 4 && layers < 8 && lengthSize < 4
            && b == 64 * constantRate + 8 * layers + 4 * One(nested) + lengthSize
  {
    var a, c := b / 8, b / 4;
    assert a / 8 == b / 64 && a == 8 * (b / 64) + a % 8;
    assert c / 2 == a && c == 2 * a + c % 2;
    assert b == 4 * c + b % 4;
  }

  lemma GeneralRowIs(space: nat, tier: bool, idc: nat, compatibility: nat, constraints: nat, level: nat)
    ensures var fs := GeneralRow(space, tier, idc, compatibility, constraints, level);
            && ShapesOf(fs) == GENERAL
            && GeneralOf(fs) == (space % 256, tier, idc % 256, compatibility % 0x1_0000_0000, constraints, level % 256)
  {
    hide ShapesOf, GeneralOf;
    GeneralIs(space, tier, idc, compatibility, constraints, level);
    assert GeneralRow(space, tier, idc, compatibility, constraints, level) ==
           [Fixed(space, 2), Bit(tier), Fixed(idc, 5), Fixed(compatibility, 32), Fixed(constraints, 48),
            Fixed(level, 8)];
  }

  lemma FormatsRowIs(x: Reserved, seg: nat, parallelism: nat, chroma: nat, luma: nat, depth: nat)
    ensures var fs := FormatsRow(x, seg, parallelism, chroma, luma, depth);
            && ShapesOf(fs) == FORMATS
            && FormatsOf(fs) == (seg % 0x1_0000, parallelism % 256, chroma % 256, luma % 256, depth % 256)
  {
    hide ShapesOf, FormatsOf;
    FormatsIs(x.a, seg, x.b, parallelism, x.c, chroma, x.d, luma, x.e, depth);
    assert FormatsRow(x, seg, parallelism, chroma, luma, depth) ==
           [Fixed(x.a, 4), Fixed(seg, 12), Fixed(x.b, 6), Fixed(parallelism, 2), Fixed(x.c, 6), Fixed(chroma, 2),
            Fixed(x.d, 5), Fixed(luma, 3), Fixed(x.e, 5), Fixed(depth, 3)];
  }

  lemma TimingRowIs(rate: nat, constantRate: nat, layers: nat, nested: bool, lengthSize: nat)
    ensures var fs := TimingRow(rate, constantRate, layers, nested, lengthSize);
            && ShapesOf(fs) == TIMING
            && TimingOf(fs) == (rate % 0x1_0000, constantRate % 256, layers % 256, nested, lengthSize % 256)
  {
    hide ShapesOf, TimingOf;
    TimingIs(rate, constantRate, layers, nested, lengthSize);
    assert TimingRow(rate, constantRate, layers, nested, lengthSize) ==
           [Fixed(rate, 16), Fixed(constantRate, 2), Fixed(layers, 3), Bit(nested), Fixed(lengthSize, 2)];
  }

  lemma GeneralSplit(data: seq<byte>)
    requires |data| >= 13
    ensures data[1..13] == [data[1]] + data[2..6] + data[6..12] + [data[12]]
  {
  }

  lemma GeneralStands(data: seq<byte>, space: nat, tier: bool, idc: nat, compatibility: u32, constraints: nat,
                      level: byte)
    requires |data| >= 13 && space < 4 && idc < 32 && constraints < U48_LIMIT
    requires data[1..13] == [64 * space + 32 * One(tier) + idc] + BigEndian(compatibility, 4)
                            + BigEndian(constraints, 6) + [level]
    ensures match ParseRow(BytesBits(data), 8, GENERAL)
            case None => false
            case Some((g, q)) => q == 104 && GeneralOf(g) == (space, tier, idc, compatibility, constraints, level)
  {
    hide BytesBits, Spells, ParseRow, BigEndian, ShapesOf, GeneralOf, One, GeneralRow;
    GeneralSpells(space, tier, idc, compatibility, constraints, level);
    GeneralRowIs(space, tier, idc, compatibility, constraints, level);
    RowAtBytes(data, 1, GENERAL, GeneralRow(space, tier, idc, compatibility, constraints, level), data[1..13]);
  }

  lemma GeneralAt(data: seq<byte>)
    requires |data| >= 13
    ensures match ParseRow(BytesBits(data), 8, GENERAL)
            case None => false
            case Some((g, q)) =>
              && q == 104
              && GeneralOf(g) == (data[1] / 64, data[1] / 32 % 2 == 1, data[1] % 32, FourBytes(data[2..6]),
                                  FromBigEndian(data[6..12]), data[12])
  {
    hide BytesBits, ParseRow, FourBytes, FromBigEndian, BigEndian, ShapesOf, GeneralOf, One;
    FirstByte(data[1]);
    FourBytesBack(data[2..6]);
    SixBytesBack(data[6..12]);
    GeneralSplit(data);
    GeneralStands(data, data[1] / 64, data[1] / 32 % 2 == 1, data[1] % 32, FourBytes(data[2..6]),
                  FromBigEndian(data[6..12]), data[12]);
  }

  lemma FormatsStand(data: seq<byte>, x: Reserved, seg: u16, parallelism: byte, chroma: byte, luma: byte, depth: byte)
    requires |data| >= 19 && ReservedFit(x)
    requires seg < 4096 && parallelism < 4 && chroma < 4 && luma < 8 && depth < 8
    requires data[13..19] == [16 * x.a + seg / 256, seg % 256, 4 * x.b + parallelism, 4 * x.c + chroma,
                              8 * x.d + luma, 8 * x.e + depth]
    ensures match ParseRow(BytesBits(data), 104, FORMATS)
            case None => false
            case Some((f, q)) => q == 152 && FormatsOf(f) == (seg, parallelism, chroma, luma, depth)
  {
    hide BytesBits, Spells, ParseRow, ShapesOf, FormatsOf, FormatsRow;
    FormatsSpells(x, seg, parallelism, chroma, luma, depth);
    FormatsRowIs(x, seg, parallelism, chroma, luma, depth);
    RowAtBytes(data, 13, FORMATS, FormatsRow(x, seg, parallelism, chroma, luma, depth), data[13..19]);
  }

  lemma FormatsAt(data: seq<byte>)
    requires |data| >= 19
    ensures match ParseRow(BytesBits(data), 104, FORMATS)
            case None => false
            case Some((f, q)) =>
              && q == 152
              && FormatsOf(f) == (Word(data[13] % 16, data[14]), data[15] % 4, data[16] % 4, data[17] % 8, data[18] % 8)
  {
    hide BytesBits, ParseRow, FormatsOf;
    assert data[13..19] == [data[13], data[14], data[15], data[16], data[17], data[18]];
    FormatsStand(data, Reserved(data[13] / 16, data[15] / 4, data[16] / 4, data[17] / 8, data[18] / 8),
                 Word(data[13] % 16, data[14]), data[15] % 4, data[16] % 4, data[17] % 8, data[18] % 8);
  }

  lemma TimingStands(data: seq<byte>, rate: u16, constantRate: byte, layers: byte, nested: bool, lengthSize: byte)
    requires |data| >= 22 && constantRate < 4 && layers < 8 && lengthSize < 4
    requires data[19..22] == [rate / 256, rate % 256, 64 * constantRate + 8 * layers + 4 * One(nested) + lengthSize]
    ensures match ParseRow(BytesBits(data), 152, TIMING)
            case None => false
            case Some((t, q)) => q == 176 && TimingOf(t) == (rate, constantRate, layers, nested, lengthSize)
  {
    hide BytesBits, Spells, ParseRow, ShapesOf, TimingOf, One, TimingRow;
    TimingSpells(rate, constantRate, layers, nested, lengthSize);
    TimingRowIs(rate, constantRate, layers, nested, lengthSize);
    RowAtBytes(data, 19, TIMING, TimingRow(rate, constantRate, layers, nested, lengthSize), data[19..22]);
  }

  lemma TimingAt(data: seq<byte>)
    requires |data| >= 22
    ensures match ParseRow(BytesBits(data), 152, TIMING)
            case None => false
            case Some((t, q)) =>
              && q == 176
              && TimingOf(t) == (Word(data[19], data[20]), data[21] / 64, data[21] / 8 % 8, data[21] / 4 % 2 == 1,
                                 data[21] % 4)
  {
    hide BytesBits, ParseRow, TimingOf, One;
    LastByte(data[21]);
    assert data[19..22] == [data[19], data[20], data[21]];
    TimingStands(data, Word(data[19], data[20]), data[21] / 64, data[21] / 8 % 8, data[21] / 4 % 2 == 1,
                 data[21] % 4);
  }

  lemma RowsAt(data: seq<byte>)
    requires |data| >= 23
    ensures ParseRows(BytesBits(data), 8) == Some((HeaderOf(data), 176))
  {
    hide BytesBits, ParseRow, GeneralOf, FormatsOf, TimingOf, FourBytes, FromBigEndian, Word;
    GeneralAt(data);
    FormatsAt(data);
    TimingAt(data);
  }

  /** `demux` accepts exactly the bytes that describe a record, whatever the reserved bits are and
      whatever follows, and returns that record. */
  lemma RecordAt(data: seq<byte>, r: Record)
    ensures ParseRecord(BytesBits(data), 0) == Ok((r, 8 * Size(r))) <==> RecordStands(data, r)
  {
    hide BytesBits, DecodeFixed, ParseRows, ParseArrays, HeaderOf, ArraysStand, ArraysSize;
    var s := BytesBits(data);
    ByteAt(data, 0);
    if |data| >= 23 {
      RowsAt(data);
      ByteAt(data, 22);
      ArraysAt(data, 23, r.arrays);
      HeaderLengthSize(data);
    }
    if ParseRecord(s, 0).Ok? {
      ParsedHeaderEnds(data);
      ParsedArraysFit(s, 8 * 23, data[22]);
    }
  }

  lemma HeaderLengthSize(data: seq<byte>)
    requires |data| >= 23
    ensures HeaderOf(data).lengthSize == data[21] % 4 && HeaderOf(data).arrays == []
  {
  }

  lemma ParsedHeaderEnds(data: seq<byte>)
    requires ParseRecord(BytesBits(data), 0).Ok?
    ensures |data| >= 23
  {
    hide BytesBits, DecodeFixed, ParseRows, ParseArrays;
    ByteAt(data, 0);
    ParsedRowsFit(BytesBits(data), 8);
    ByteAt(data, 22);
  }
}
