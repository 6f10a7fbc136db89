/** The AVC decoder configuration record of crates/h264/src/config.rs;
    section 5.3.2.1.2 of ISO/IEC 14496-15. */
module Avc {
  import opened Wrappers
  import opened Bits
  import opened BitReading
  import opened BitWriting
  import opened BytesCursors
  import opened Fields
  import Sps = SpsExtension
  import SpsCoding = SpsExtensionCoding

  datatype ExtendedConfig = ExtendedConfig(chroma: byte, luma: byte, chromaDepth: byte, exts: seq<Sps.SpsExt>)

  datatype Record = Record(
    version: byte,
    profile: byte,
    compatibility: byte,
    level: byte,
    lengthSize: byte,
    sps: seq<seq<byte>>,
    pps: seq<seq<byte>>,
    extended: Option<ExtendedConfig>)

  /** Baseline, main and extended profile never carry the extended configuration. */
  predicate PlainProfile(profile: nat) {
    profile == 66 || profile == 77 || profile == 88
  }

  /** The deltas of all scaling lists can be written. */
  ghost predicate ExtsWritable(exts: seq<Sps.SpsExt>) {
    forall i :: 0 <= i < |exts| ==> Sps.ScalingFits(exts[i].scaling)
  }

  ghost predicate ScalingsFit(r: Record) {
    r.extended.Some? ==> ExtsWritable(r.extended.value.exts)
  }

  predicate ConfigFits(c: ExtendedConfig) {
    c.chroma < 4 && c.luma < 8 && c.chromaDepth < 8 && |c.exts| < 256
  }

  /** The fields and the counts that are written with a fixed number of bits fit. */
  predicate BitsFit(r: Record) {
    r.lengthSize < 4 && |r.sps| < 32 && |r.pps| < 256 && (r.extended.Some? ==> ConfigFits(r.extended.value))
  }

  predicate UnitsFit(units: seq<seq<byte>>) {
    forall i :: 0 <= i < |units| ==> |units[i]| < 0x1_0000
  }

  ghost predicate ExtsWellFormed(exts: seq<Sps.SpsExt>) {
    forall i :: 0 <= i < |exts| ==> Sps.WellFormed(exts[i])
  }

  /** What a record must satisfy to be one that `parse` can return. */
  ghost predicate WellFormed(r: Record) {
    && BitsFit(r) && UnitsFit(r.sps) && UnitsFit(r.pps)
    && (r.extended.Some? ==> !PlainProfile(r.profile) && ExtsWellFormed(r.extended.value.exts))
  }

  /** A length of 16 bits, which keeps the low bits of `len() as u16`, and the bytes. */
  function UnitBytes(unit: seq<byte>): seq<byte> {
    BigEndian(|unit| % 0x1_0000, 2) + unit
  }

  function UnitsBytes(units: seq<seq<byte>>): seq<byte> {
    if units == [] then [] else UnitsBytes(units[..|units| - 1]) + UnitBytes(units[|units| - 1])
  }

  /** A bit string, padded with zeros to whole bytes. */
  ghost function Pack(bits: seq<bool>): (bytes: seq<byte>)
    ensures |bytes| == CeilDiv8(|bits|)
  {
    BytesAt(bits + Padding(|bits|), 0, CeilDiv8(|bits|))
  }

  lemma BitsOfPack(bits: seq<bool>)
    ensures BytesBits(Pack(bits)) == bits + Padding(|bits|)
  {
    hide BytesBits, BytesAt;
    var s := bits + Padding(|bits|);
    BitsOfBytesAt(s, 0, CeilDiv8(|bits|));
    assert s[0..0 + 8 * CeilDiv8(|bits|)] == s;
  }

  ghost function ExtBits(e: Sps.SpsExt): seq<bool>
    requires Sps.ScalingFits(e.scaling)
  {
    Sps.ExtWritable(e);
    Encode(Sps.ExtFields(e), 0)
  }

  ghost function ExtBytes(e: Sps.SpsExt): seq<byte>
    requires Sps.ScalingFits(e.scaling)
  {
    UnitBytes(Pack(ExtBits(e)))
  }

  ghost function ExtsBytes(exts: seq<Sps.SpsExt>): seq<byte>
    requires ExtsWritable(exts)
  {
    if exts == [] then [] else ExtsBytes(exts[..|exts| - 1]) + ExtBytes(exts[|exts| - 1])
  }

  ghost function ConfigBytes(c: ExtendedConfig): seq<byte>
    requires ConfigFits(c) && ExtsWritable(c.exts)
  {
    [0xFC + c.chroma, 0xF8 + c.luma, 0xF8 + c.chromaDepth, |c.exts|] + ExtsBytes(c.exts)
  }

  function HeadBytes(r: Record): seq<byte>
    requires r.lengthSize < 4 && |r.sps| < 32
  {
    [r.version, r.profile, r.compatibility, r.level, 0xFC + r.lengthSize, 0xE0 + |r.sps|]
  }

  ghost function TailBytes(r: Record): seq<byte>
    requires BitsFit(r) && ScalingsFit(r)
  {
    if r.extended.Some? then ConfigBytes(r.extended.value) else []
  }

  /** The bytes of a record: reserved bits are ones. */
  ghost function RecordBytes(r: Record): seq<byte>
    requires BitsFit(r) && ScalingsFit(r)
  {
    HeadBytes(r) + UnitsBytes(r.sps) + [|r.pps|] + UnitsBytes(r.pps) + TailBytes(r)
  }

  /** The bytes of the fixed part, where they stand: every reserved bit is a one. */
  lemma FixedBytes(r: Record)
    requires BitsFit(r) && ScalingsFit(r)
    ensures var out := RecordBytes(r);
            && |out| >= 7 && out[0] == r.version && out[1] == r.profile
            && out[2] == r.compatibility && out[3] == r.level
            && out[4] / 4 == 0x3F && out[4] % 4 == r.lengthSize
            && out[5] / 32 == 7 && out[5] % 32 == |r.sps|
            && out[6 + |UnitsBytes(r.sps)|] == |r.pps|
    ensures r.extended.Some? ==>
              var c := r.extended.value;
              var out := RecordBytes(r)[7 + |UnitsBytes(r.sps)| + |UnitsBytes(r.pps)|..];
              && |out| >= 4
              && out[0] / 4 == 0x3F && out[0] % 4 == c.chroma
              && out[1] / 8 == 0x1F && out[1] % 8 == c.luma
              && out[2] / 8 == 0x1F && out[2] % 8 == c.chromaDepth
              && out[3] == |c.exts|
  {
    hide UnitsBytes, ExtsBytes;
    var s, u := UnitsBytes(r.sps), UnitsBytes(r.pps);
    assert RecordBytes(r) == HeadBytes(r) + s + [|r.pps|] + u + TailBytes(r);
    assert RecordBytes(r)[7 + |s| + |u|..] == TailBytes(r);
  }

  /** A unit is its length, the high byte first, and its bytes. */
  lemma UnitBytesAre(unit: seq<byte>)
    requires |unit| < 0x1_0000
    ensures UnitBytes(unit) == [|unit| / 256, |unit| % 256] + unit
  {
    assert BigEndian(|unit| / 256, 1) == [|unit| / 256 % 256];
  }

  ghost function NumberAt(data: seq<byte>, p: nat, width: nat): Option<nat> {
    match TakeAt(data, p, width)
    case None => None
    case Some(bytes) => Some(FromBigEndian(bytes))
  }

  ghost function UnitAt(data: seq<byte>, p: nat): Option<(seq<byte>, nat)> {
    match NumberAt(data, p, 2)
    case None => None
    case Some(len) =>
      match TakeAt(data, p + 2, len)
      case None => None
      case Some(unit) => Some((unit, p + 2 + len))
  }

  ghost function ParseUnits(data: seq<byte>, p: nat, n: nat): Option<(seq<seq<byte>>, nat)> {
    if n == 0 then Some(([], p))
    else
      match ParseUnits(data, p, n - 1)
      case None => None
      case Some((units, q)) =>
        match UnitAt(data, q)
        case None => None
        case Some((unit, end)) => Some((units + [unit], end))
  }

  /** An extension is read from its own bytes only. */
  ghost function ExtAt(data: seq<byte>, p: nat): Result<(Sps.SpsExt, nat), IoError> {
    match UnitAt(data, p)
    case None => Err(UnexpectedEof)
    case Some((unit, end)) =>
      match Sps.ParseExt(BytesBits(unit), 0)
      case Err(e) => Err(e)
      case Ok((e, _)) => Ok((e, end))
  }

  ghost function ParseExts(data: seq<byte>, p: nat, n: nat): Result<(seq<Sps.SpsExt>, nat), IoError> {
    if n == 0 then Ok(([], p))
    else
      match ParseExts(data, p, n - 1)
      case Err(e) => Err(e)
      case Ok((exts, q)) =>
        match ExtAt(data, q)
        case Err(e) => Err(e)
        case Ok((e, end)) => Ok((exts + [e], end))
  }

  /** The masks `& 0b11` and `& 0b111` keep the low bits. */
  ghost function ParseConfig(data: seq<byte>, p: nat): Result<(ExtendedConfig, nat), IoError> {
    match TakeAt(data, p, 4)
    case None => Err(UnexpectedEof)
    case Some(head) =>
      match ParseExts(data, p + 4, head[3])
      case Err(e) => Err(e)
      case Ok((exts, end)) => Ok((ExtendedConfig(head[0] % 4, head[1] % 8, head[2] % 8, exts), end))
  }

  /** The extended configuration is absent for the plain profiles, and tolerated to be absent
      at the end of the data. */
  ghost function ParseTail(data: seq<byte>, p: nat, profile: nat): Result<(Option<ExtendedConfig>, nat), IoError> {
    if PlainProfile(profile) || p >= |data| then Ok((None, p))
    else
      match ParseConfig(data, p)
      case Err(e) => Err(e)
      case Ok((c, end)) => Ok((Some(c), end))
  }

  ghost function ParseRecord(data: seq<byte>, p: nat): Result<(Record, nat), IoError> {
    match TakeAt(data, p, 6) case None => Err(UnexpectedEof) case Some(head) =>
    match ParseUnits(data, p + 6, head[5] % 32) case None => Err(UnexpectedEof) case Some((sps, q)) =>
    match NumberAt(data, q, 1) case None => Err(UnexpectedEof) case Some(n) =>
    match ParseUnits(data, q + 1, n) case None => Err(UnexpectedEof) case Some((pps, q')) =>
    match ParseTail(data, q', head[1]) case Err(e) => Err(e) case Ok((extended, end)) =>
      Ok((Record(head[0], head[1], head[2], head[3], head[4] % 4, sps, pps, extended), end))
  }

  /** The bytes stand at `p`. */
  predicate Stands(data: seq<byte>, p: nat, bytes: seq<byte>) {
    p + |bytes| <= |data| && data[p..p + |bytes|] == bytes
  }

  lemma StandsConcat(data: seq<byte>, p: nat, a: seq<byte>, b: seq<byte>)
    requires Stands(data, p, a + b)
    ensures Stands(data, p, a) && Stands(data, p + |a|, b)
  {
    var w := data[p..p + |a + b|];
    assert data[p..p + |a|] == w[..|a|] == a;
    assert data[p + |a|..p + |a| + |b|] == w[|a|..] == b;
  }

  lemma UnitBack(data: seq<byte>, p: nat, unit: seq<byte>)
    requires |unit| < 0x1_0000 && Stands(data, p, UnitBytes(unit))
    ensures UnitAt(data, p) == Some((unit, p + |UnitBytes(unit)|))
  {
    hide BigEndian, FromBigEndian;
    StandsConcat(data, p, BigEndian(|unit|, 2), unit);
    assert Pow2(16) == 0x1_0000 by {
      assert Pow2(8) == 256;
      Pow2Add(8, 8);
    }
    BigEndianRoundTrip(|unit|, 2);
  }

  lemma UnitsBytesStep(units: seq<seq<byte>>, n: nat)
    requires |units| == n + 1
    ensures UnitsBytes(units) == UnitsBytes(units[..n]) + UnitBytes(units[n])
  {
  }

  lemma NoUnits()
    ensures UnitsBytes([]) == []
  {
  }

  lemma {:induction false} UnitsBack(data: seq<byte>, p: nat, units: seq<seq<byte>>)
    requires UnitsFit(units) && Stands(data, p, UnitsBytes(units))
    ensures ParseUnits(data, p, |units|) == Some((units, p + |UnitsBytes(units)|))
  {
    hide UnitAt, UnitBytes, UnitsBytes, Stands;
    if units == [] {
      NoUnits();
    } else {
      var n := |units| - 1;
      UnitsBytesStep(units, n);
      StandsConcat(data, p, UnitsBytes(units[..n]), UnitBytes(units[n]));
      UnitsBack(data, p, units[..n]);
      UnitBack(data, p + |UnitsBytes(units[..n])|, units[n]);
      assert units[..n] + [units[n]] == units;
    }
  }

  lemma ExtBack(data: seq<byte>, p: nat, e: Sps.SpsExt)
    requires Sps.WellFormed(e) && Sps.ScalingFits(e.scaling) && Stands(data, p, ExtBytes(e))
    ensures ExtAt(data, p) == Ok((e, p + |ExtBytes(e)|))
  {
    hide Sps.WellFormed, Sps.ExtFields, Sps.ParseExt, Sps.ScalingFits, Encode;
    hide UnitBytes, UnitAt, BytesBits, Pack, Stands;
    Sps.ExtWritable(e);
    SpsCoding.ExtIsShort(e, 0);
    UnitBack(data, p, Pack(ExtBits(e)));
    BitsOfPack(ExtBits(e));
    var s := BytesBits(Pack(ExtBits(e)));
    assert s[0..0 + |ExtBits(e)|] == ExtBits(e);
    Sps.ExtBack(s, 0, e);
  }

  lemma ExtsBytesStep(exts: seq<Sps.SpsExt>, n: nat)
    requires |exts| == n + 1 && ExtsWritable(exts)
    ensures Sps.ScalingFits(exts[n].scaling)
    ensures ExtsBytes(exts) == ExtsBytes(exts[..n]) + ExtBytes(exts[n])
  {
  }

  lemma NoExts()
    ensures ExtsBytes([]) == []
  {
  }

  lemma {:induction false} ExtsBack(data: seq<byte>, p: nat, exts: seq<Sps.SpsExt>)
    requires ExtsWellFormed(exts) && ExtsWritable(exts) && Stands(data, p, ExtsBytes(exts))
    ensures ParseExts(data, p, |exts|) == Ok((exts, p + |ExtsBytes(exts)|))
  {
    hide ExtAt, ExtBytes, ExtsBytes, Stands, Sps.WellFormed, Sps.ScalingFits;
    if exts == [] {
      NoExts();
    } else {
      var n := |exts| - 1;
      ExtsBytesStep(exts, n);
      StandsConcat(data, p, ExtsBytes(exts[..n]), ExtBytes(exts[n]));
      ExtsBack(data, p, exts[..n]);
      ExtBack(data, p + |ExtsBytes(exts[..n])|, exts[n]);
      assert exts[..n] + [exts[n]] == exts;
    }
  }

  lemma ConfigBack(data: seq<byte>, p: nat, c: ExtendedConfig)
    requires ConfigFits(c) && ExtsWritable(c.exts) && ExtsWellFormed(c.exts)
    requires Stands(data, p, ConfigBytes(c))
    ensures ParseConfig(data, p) == Ok((c, p + |ConfigBytes(c)|))
  {
    hide ExtsBytes, ParseExts, ExtsWritable, ExtsWellFormed;
    var head := [0xFC + c.chroma, 0xF8 + c.luma, 0xF8 + c.chromaDepth, |c.exts|];
    StandsConcat(data, p, head, ExtsBytes(c.exts));
    ExtsBack(data, p + 4, c.exts);
  }

  lemma ByteBack(data: seq<byte>, p: nat, b: byte)
    requires Stands(data, p, [b])
    ensures NumberAt(data, p, 1) == Some(b)
  {
    assert [b][..0] == [];
    assert FromBigEndian([b]) == 256 * FromBigEndian([b][..0]) + b;
  }

  /** Whether bytes may follow the record without being taken for a part of it. */
  predicate MayBeFollowed(r: Record) {
    r.extended.Some? || PlainProfile(r.profile)
  }

  /** A record that reading continues with an extended configuration. */
  ghost function Continued(data: seq<byte>, p: nat, r: Record): Result<(Record, nat), IoError> {
    match ParseConfig(data, p)
    case Err(e) => Err(e)
    case Ok((c, end)) => Ok((r.(extended := Some(c)), end))
  }

  /** What is read where the bytes of a well-formed record stand: the record, up to its end, unless
      it has no extended configuration of its own, the profile may have one and bytes follow. In
      that case the bytes that follow are read as one. */
  lemma RecordBack(data: seq<byte>, p: nat, r: Record)
    requires WellFormed(r) && ScalingsFit(r) && Stands(data, p, RecordBytes(r))
    ensures ParseRecord(data, p) ==
            var end := p + |RecordBytes(r)|;
            if MayBeFollowed(r) || end == |data| then Ok((r, end)) else Continued(data, end, r)
  {
    hide UnitsBytes, ParseUnits, ConfigBytes, ParseConfig, Stands, NumberAt, ExtsWritable, ExtsWellFormed, UnitsFit;
    var h, s, n, u, t := HeadBytes(r), UnitsBytes(r.sps), [|r.pps|], UnitsBytes(r.pps), TailBytes(r);
    StandsConcat(data, p, h + s + n + u, t);
    StandsConcat(data, p, h + s + n, u);
    StandsConcat(data, p, h + s, n);
    StandsConcat(data, p, h, s);
    StandsInside(data, p, h + s + n + u + t);
    TakeBack(data, p, h);
    UnitsBack(data, p + 6, r.sps);
    var q := p + 6 + |s|;
    ByteBack(data, q, |r.pps|);
    UnitsBack(data, q + 1, r.pps);
    if r.extended.Some? {
      ConfigBack(data, q + 1 + |u|, r.extended.value);
      ConfigIsSomething(data, q + 1 + |u|, r.extended.value);
    }
  }

  lemma StandsInside(data: seq<byte>, p: nat, bytes: seq<byte>)
    requires Stands(data, p, bytes)
    ensures p + |bytes| <= |data|
  {
  }

  /** Four bytes behind a record of the high profile are taken for its extended configuration. */
  lemma FollowedRecordIsMisread() returns (r: Record, trailing: seq<byte>)
    ensures WellFormed(r) && ScalingsFit(r) && r.extended.None? && |trailing| == 4
    ensures var data := RecordBytes(r) + trailing;
            ParseRecord(data, 0) == Ok((r.(extended := Some(ExtendedConfig(1, 2, 3, []))), |data|))
  {
    hide RecordBytes, ParseRecord, ParseConfig, ExtsWritable, ExtsWellFormed;
    r, trailing := Record(1, 100, 0, 31, 3, [], [], None), [1, 2, 3, 0];
    var data := RecordBytes(r) + trailing;
    var end := |RecordBytes(r)|;
    assert data[0..0 + end] == RecordBytes(r);
    RecordBack(data, 0, r);
    assert data[end..end + 4] == trailing;
    FourBytes(data, end);
  }

  lemma FourBytes(data: seq<byte>, p: nat)
    requires p + 4 <= |data| && data[p..p + 4] == [1, 2, 3, 0]
    ensures ParseConfig(data, p) == Ok((ExtendedConfig(1, 2, 3, []), p + 4))
  {
    assert ParseExts(data, p + 4, 0) == Ok(([], p + 4));
  }

  lemma TakeBack(data: seq<byte>, p: nat, bytes: seq<byte>)
    requires Stands(data, p, bytes)
    ensures TakeAt(data, p, |bytes|) == Some(bytes)
  {
  }

  lemma ConfigIsSomething(data: seq<byte>, p: nat, c: ExtendedConfig)
    requires ConfigFits(c) && ExtsWritable(c.exts) && Stands(data, p, ConfigBytes(c))
    ensures p < |data|
  {
  }

  lemma {:induction false} ParsedUnitsFit(data: seq<byte>, p: nat, n: nat)
    requires ParseUnits(data, p, n).Some?
    ensures var units := ParseUnits(data, p, n).value.0; |units| == n && UnitsFit(units)
  {
    hide FromBigEndian;
    if n != 0 {
      ParsedUnitsFit(data, p, n - 1);
      assert Pow2(16) == 0x1_0000 by {
        assert Pow2(8) == 256;
        Pow2Add(8, 8);
      }
    }
  }

  lemma {:induction false} ParsedExtsFit(data: seq<byte>, p: nat, n: nat)
    ensures match ParseExts(data, p, n)
            case Ok((exts, _)) => |exts| == n && ExtsWellFormed(exts)
            case Err(_) => true
  {
    hide UnitAt, Sps.WellFormed, Sps.ParseExt;
    if n != 0 && ParseExts(data, p, n).Ok? {
      ParsedExtsFit(data, p, n - 1);
      var q := ParseExts(data, p, n - 1).value.1;
      Sps.ParsedIsWellFormed(BytesBits(UnitAt(data, q).value.0), 0);
    }
  }

  /** Whatever bytes are read, every record that comes out is well formed. */
  lemma ParsedIsWellFormed(data: seq<byte>, p: nat)
    requires ParseRecord(data, p).Ok?
    ensures WellFormed(ParseRecord(data, p).value.0)
  {
    hide ParseUnits, ParseExts, NumberAt, UnitsFit, ExtsWellFormed;
    var head := TakeAt(data, p, 6).value;
    ParsedUnitsFit(data, p + 6, head[5] % 32);
    var q := ParseUnits(data, p + 6, head[5] % 32).value.1;
    var n := NumberAt(data, q, 1).value;
    ByteFits(data, q);
    ParsedUnitsFit(data, q + 1, n);
    var q' := ParseUnits(data, q + 1, n).value.1;
    if !PlainProfile(head[1]) && q' < |data| {
      ParsedExtsFit(data, q' + 4, TakeAt(data, q', 4).value[3]);
    }
  }

  lemma ByteFits(data: seq<byte>, p: nat)
    requires NumberAt(data, p, 1).Some?
    ensures NumberAt(data, p, 1).value < 256
  {
    assert Pow2(8) == 256;
  }
}
