/** The decoder accepts no other byte strings than those of the grammar, and refuses markers exactly as
    crates/amf0/src/decoder.rs does. */
module Amf0WireReading {
  import opened Wrappers
  import opened Bits
  import opened Amf0
  import opened Amf0Decoding
  import opened Amf0RoundTrip
  import opened Amf0Wire
  import opened Amf0WireDecoding

  /** What is left over, seen from the decoder. */
  function Before(i: Input): Tail {
    if i.pending.Some? then Holding(i.pending.value) else Clear
  }

  /** `i` begins with the value `w`, and the decoder is left with `rest` behind it. */
  ghost predicate BeginsWith(i: Input, w: Wire, rest: Input) {
    && WireOk(w) && Follows(w, Before(i))
    && i.bytes == WireBytes(w, Before(i)) + rest.bytes
    && rest == After(TailOf(w), rest.bytes)
    && MayEnd(TailOf(w), rest.bytes)
  }

  lemma {:induction false} CodeOfMarker(code: byte, w: Wire)
    requires code < |MARKERS| && MARKERS[code] == MARKERS[Code(w)]
    ensures code == Code(w)
  {
  }

  lemma PeekedFrom(i: Input)
    requires PeekMarker(i).Ok?
    ensures var (m, peeked) := PeekMarker(i).value;
            && peeked == Input(Some(m), peeked.bytes)
            && DecodeValue(peeked) == DecodeValue(i)
            && if i.pending.Some? then peeked == i
               else i.bytes != [] && i.bytes[0] < |MARKERS| && m == MARKERS[i.bytes[0]]
                    && i.bytes == [i.bytes[0]] + peeked.bytes
  {
    hide DecodeValue;
    DecodeAfterPeek(i);
    if i.pending.None? {
      PeekedByte(i.bytes);
    }
  }

  lemma PeekedByte(bytes: seq<byte>)
    requires PeekMarker(At(bytes)).Ok?
    ensures bytes != [] && bytes[0] < |MARKERS|
    ensures PeekMarker(At(bytes)) == Ok((MARKERS[bytes[0]], Input(Some(MARKERS[bytes[0]]), bytes[1..])))
    ensures bytes == [bytes[0]] + bytes[1..]
  {
  }

  lemma ReadBytesIs(i: Input, n: nat)
    requires ReadBytes(i, n).Ok?
    ensures var (bytes, rest) := ReadBytes(i, n).value;
            rest == Input(i.pending, rest.bytes) && i.bytes == bytes + rest.bytes && |bytes| == n
  {
  }

  lemma ReadUintIs(i: Input, width: nat)
    requires ReadUint(i, width).Ok?
    ensures var (n, rest) := ReadUint(i, width).value;
            rest == Input(i.pending, rest.bytes) && i.bytes == BigEndian(n, width) + rest.bytes && n < Pow2(8 * width)
  {
    hide BigEndian, FromBigEndian, Pow2;
    var (bytes, rest) := ReadBytes(i, width).value;
    BigEndianOfValue(bytes);
  }

  lemma ReadStrIs(i: Input, width: nat)
    requires ReadStr(i, width).Ok?
    ensures var (s, rest) := ReadStr(i, width).value;
            && rest == Input(i.pending, rest.bytes)
            && i.bytes == BigEndian(|s|, width) + s + rest.bytes
            && |s| < Pow2(8 * width)
  {
    hide BigEndian, Pow2, ValidUtf8, ReadUint, ReadBytes;
    ReadUintIs(i, width);
    ReadBytesIs(ReadUint(i, width).value.1, ReadUint(i, width).value.0);
  }

  lemma KeyIs(i: Input)
    requires DecodeNormalString(i).Ok?
    ensures var (key, rest) := DecodeNormalString(i).value;
            && rest == Input(i.pending, rest.bytes)
            && i.bytes == KeyBytes(key) + rest.bytes
            && |key| < U16_LIMIT
  {
    hide BigEndian, Pow2, ValidUtf8, ReadStr;
    Limits();
    ReadStrIs(i, 2);
  }

  /** A value whose marker has been read: its body stands in front of what is left. */
  ghost predicate BodyOf(m: Marker, bytes: seq<byte>, w: Wire, rest: Input) {
    && WireOk(w) && MARKERS[Code(w)] == m
    && bytes == Body(w) + rest.bytes
    && rest == After(TailOf(w), rest.bytes)
    && MayEnd(TailOf(w), rest.bytes)
  }

  lemma NumbersAre(m: Marker, bytes: seq<byte>) returns (w: Wire)
    requires m == NumberMarker || m == DateMarker
    requires DecodeValue(Input(Some(m), bytes)).Ok?
    ensures var (t, rest) := DecodeValue(Input(Some(m), bytes)).value;
            TreeOf(w) == t && BodyOf(m, bytes, w, rest)
  {
    hide BigEndian, FromBigEndian, Pow2, ReadUint, ReadBytes, DecodeObject, DecodeStrictArray;
    Pow2Of64();
    ReadUintIs(At(bytes), 8);
    var (n, behind) := ReadUint(At(bytes), 8).value;
    if m == NumberMarker {
      w := WNumber(n);
    } else {
      ReadBytesIs(behind, 2);
      w := WDate(n, ReadBytes(behind, 2).value.0);
    }
  }

  lemma BooleansAre(m: Marker, bytes: seq<byte>) returns (w: Wire)
    requires m == BooleanMarker && DecodeValue(Input(Some(m), bytes)).Ok?
    ensures var (t, rest) := DecodeValue(Input(Some(m), bytes)).value;
            TreeOf(w) == t && BodyOf(m, bytes, w, rest)
  {
    hide BigEndian, FromBigEndian, Pow2, ReadUint, DecodeObject, DecodeStrictArray;
    ReadUintIs(At(bytes), 1);
    assert Pow2(8 * 1) == 256 by { Pow2Of8(); }
    var n := ReadUint(At(bytes), 1).value.0;
    OneByte(n);
    w := WBoolean(n);
  }

  lemma StringsAre(m: Marker, bytes: seq<byte>) returns (w: Wire)
    requires m == StringMarker || m == LongStringMarker || m == XmlDocumentMarker
    requires DecodeValue(Input(Some(m), bytes)).Ok?
    ensures var (t, rest) := DecodeValue(Input(Some(m), bytes)).value;
            TreeOf(w) == t && BodyOf(m, bytes, w, rest)
  {
    hide BigEndian, Pow2, ValidUtf8, ReadStr, DecodeObject, DecodeStrictArray;
    Limits();
    var width := if m == StringMarker then 2 else 4;
    ReadStrIs(At(bytes), width);
    var s := ReadStr(At(bytes), width).value.0;
    w := if m == StringMarker then WString(s) else if m == LongStringMarker then WLongString(s) else WXmlDocument(s);
  }

  lemma NullsAre(m: Marker, bytes: seq<byte>) returns (w: Wire)
    requires m == NullMarker || m == UndefinedMarker
    requires DecodeValue(Input(Some(m), bytes)).Ok?
    ensures var (t, rest) := DecodeValue(Input(Some(m), bytes)).value;
            TreeOf(w) == t && BodyOf(m, bytes, w, rest)
  {
    hide DecodeValue;
    Dispatch(m, bytes);
    assert [] + bytes == bytes;
    w := if m == NullMarker then WNull else WUndefined;
  }

  const REFUSED: set<Marker> :=
    {MovieClipMarker, ReferenceMarker, ObjectEndMarker, UnsupportedMarker, RecordsetMarker, AvmPlusObjectMarker}

  lemma RefusedMarker(i: Input)
    requires PeekMarker(i).Ok?
    ensures PeekMarker(i).value.0 in REFUSED ==> DecodeValue(i) == Err(NotSupported(PeekMarker(i).value.0))
  {
    hide DecodeObject, DecodeStrictArray, DecodeNumber, DecodeString, DecodeBoolean, DecodeNull;
  }

  /** Whatever is decoded is a value of the grammar. */
  lemma {:induction false} DecodedIsWire(i: Input) returns (w: Wire)
    requires DecodeValue(i).Ok?
    ensures TreeOf(w) == DecodeValue(i).value.0 && BeginsWith(i, w, DecodeValue(i).value.1)
    decreases i.Measure(), 3
  {
    hide DecodeValue, Body, WireOk, TreeOf, TailOf;
    PeekNeeded(i);
    RefusedMarker(i);
    PeekedFrom(i);
    var (m, peeked) := PeekMarker(i).value;
    w := BodyIsWire(m, peeked.bytes);
    if i.pending.None? {
      CodeOfMarker(i.bytes[0], w);
    }
    Standing(i, m, peeked.bytes, w);
  }

  lemma PeekNeeded(i: Input)
    requires DecodeValue(i).Ok?
    ensures PeekMarker(i).Ok?
  {
  }

  lemma Standing(i: Input, m: Marker, bytes: seq<byte>, w: Wire)
    requires DecodeValue(i).Ok? && BodyOf(m, bytes, w, DecodeValue(i).value.1)
    requires if i.pending.Some? then i == Input(Some(m), bytes) else i.bytes == [Code(w)] + bytes
    ensures BeginsWith(i, w, DecodeValue(i).value.1)
  {
    hide DecodeValue, Body, WireOk, TailOf;
    var rest := DecodeValue(i).value.1;
    assert [Code(w)] + (Body(w) + rest.bytes) == [Code(w)] + Body(w) + rest.bytes;
  }

  lemma {:induction false} BodyIsWire(m: Marker, bytes: seq<byte>) returns (w: Wire)
    requires m !in REFUSED && DecodeValue(Input(Some(m), bytes)).Ok?
    ensures var (t, rest) := DecodeValue(Input(Some(m), bytes)).value;
            TreeOf(w) == t && BodyOf(m, bytes, w, rest)
    decreases |bytes| + 1, 2
  {
    hide DecodeValue, BodyOf, TreeOf;
    match m
    case NumberMarker | DateMarker => w := NumbersAre(m, bytes);
    case BooleanMarker => w := BooleansAre(m, bytes);
    case StringMarker | LongStringMarker | XmlDocumentMarker => w := StringsAre(m, bytes);
    case NullMarker | UndefinedMarker => w := NullsAre(m, bytes);
    case ObjectMarker | TypedObjectMarker => w := ObjectIsWire(m, bytes);
    case EcmaArrayMarker => w := EcmaIsWire(bytes);
    case StrictArrayMarker => w := StrictIsWire(bytes);
  }

  lemma ObjectDecodes(m: Marker, bytes: seq<byte>) returns (name: Str, behind: seq<byte>)
    requires m == ObjectMarker || m == TypedObjectMarker
    requires DecodeObject(Input(Some(m), bytes)).Ok?
    ensures |name| < U16_LIMIT
    ensures bytes == (if m == TypedObjectMarker then KeyBytes(name) else []) + behind
    ensures DecodeObject(Input(Some(m), bytes)) == DecodeEntries(At(behind))
  {
    hide DecodeEntries, DecodeNormalString, KeyBytes, ValidUtf8;
    if m == TypedObjectMarker {
      KeyIs(At(bytes));
      name := DecodeNormalString(At(bytes)).value.0;
      behind := DecodeNormalString(At(bytes)).value.1.bytes;
    } else {
      NoLength();
      name, behind := [], bytes;
    }
  }

  lemma ObjectIsWire(m: Marker, bytes: seq<byte>) returns (w: Wire)
    requires m == ObjectMarker || m == TypedObjectMarker
    requires DecodeValue(Input(Some(m), bytes)).Ok?
    ensures var (t, rest) := DecodeValue(Input(Some(m), bytes)).value;
            TreeOf(w) == t && BodyOf(m, bytes, w, rest)
    decreases |bytes| + 1, 1
  {
    hide DecodeValue, DecodeObject, DecodeEntries, FieldsBytes, FieldsOk, FieldsTail, KeyBytes, EntriesOf, Body;
    hide WireOk, TreeOf, TailOf;
    Dispatch(m, bytes);
    var name, behind := ObjectDecodes(m, bytes);
    var fields := EntriesAreFields(Clear, At(behind));
    w := if m == ObjectMarker then WObject(fields) else WTypedObject(name, fields);
    ObjectFacts(w);
    ObjectBody(w, DecodeEntries(At(behind)).value.1.bytes);
  }

  /** The entries up to the end of the object. */
  lemma {:induction false} EntriesAreFields(before: Tail, i: Input) returns (fields: seq<Field>)
    requires i == After(before, i.bytes) && MayEnd(before, i.bytes) && before != Holding(ObjectEndMarker)
    requires DecodeEntries(i).Ok?
    ensures var (entries, rest) := DecodeEntries(i).value;
            && FieldsOk(fields, before) && FieldsTail(fields, before).Clear?
            && EntriesOf(fields) == entries && rest == At(rest.bytes)
            && i.bytes == FieldsBytes(fields, before) + OBJECT_TRAILER + rest.bytes
    decreases i.Measure(), 0
  {
    hide DecodeEntries, DecodeValue, DecodeObjectKey, DecodeNormalString, WireBytes, KeyBytes, TailOf, TreeOf, WireOk;
    EntriesParts(i);
    var (key, afterKey) := DecodeNormalString(i).value;
    KeyIs(i);
    ObjectKeyIs(i, before);
    if DecodeObjectKey(i).value.0.None? {
      EntriesEnd(i);
      fields := [];
    } else {
      var value := DecodeObjectKey(i).value.1;
      var w := DecodedIsWire(afterKey);
      TailIsNoEnd(w);
      var more := DecodeValue(afterKey).value.1;
      var others := EntriesAreFields(TailOf(w), more);
      fields := [Field(key, w)] + others;
      FieldsExtend(before, i, key, w, others, DecodeEntries(more).value.1.bytes);
    }
  }

  lemma FieldsExtend(before: Tail, i: Input, key: Str, w: Wire, others: seq<Field>, rest: seq<byte>)
    requires i.bytes ==
             KeyBytes(key) + (WireBytes(w, before) + (FieldsBytes(others, TailOf(w)) + OBJECT_TRAILER + rest))
    ensures i.bytes == FieldsBytes([Field(key, w)] + others, before) + OBJECT_TRAILER + rest
  {
    hide KeyBytes, WireBytes;
    var fields := [Field(key, w)] + others;
    assert fields[1..] == others;
  }

  /** One turn of the loop over the entries, seen from its success. */
  lemma EntriesParts(i: Input)
    requires DecodeEntries(i).Ok?
    ensures DecodeNormalString(i).Ok? && DecodeObjectKey(i).Ok?
    ensures var (key, value) := DecodeObjectKey(i).value;
            if key.None? then DecodeEntries(i) == Ok(([], value))
            else
              && DecodeValue(value).Ok?
              && var (t, more) := DecodeValue(value).value;
              && DecodeEntries(more).Ok?
              && DecodeEntries(i) == Ok(([Entry(key.value, t)] + DecodeEntries(more).value.0,
                                         DecodeEntries(more).value.1))
  {
    hide DecodeValue, DecodeNormalString, PeekMarker;
  }

  /** The key of `DecodeObjectKey` is the string that stands there, unless it is the end of the object. */
  lemma ObjectKeyIs(i: Input, before: Tail)
    requires i == After(before, i.bytes) && before != Holding(ObjectEndMarker)
    requires DecodeNormalString(i).Ok? && DecodeObjectKey(i).Ok?
    ensures var (name, afterKey) := DecodeNormalString(i).value;
            var (key, value) := DecodeObjectKey(i).value;
            if key.None? then
              && i.pending.None? && value == At(value.bytes)
              && i.bytes == OBJECT_TRAILER + value.bytes
            else key == Some(name) && DecodeValue(value) == DecodeValue(afterKey)
  {
    hide DecodeValue, DecodeNormalString, KeyBytes;
    KeyIs(i);
    var (name, afterKey) := DecodeNormalString(i).value;
    if name == [] {
      EmptyKey();
      PeekedFrom(afterKey);
      var (m, peeked) := PeekMarker(afterKey).value;
      if m == ObjectEndMarker {
        MarkersDiffer(afterKey.bytes[0]);
        assert i.bytes == KeyBytes([]) + ([9] + peeked.bytes);
      }
    }
  }

  lemma EmptyKey()
    ensures ValidUtf8([]) && KeyBytes([]) == [0, 0]
  {
    NoLength();
  }

  /** One turn of the loop over the entries of an ECMA array, seen from its success. */
  lemma EcmaParts(i: Input, size: nat)
    requires size != 0 && DecodeEcmaEntries(i, size).Ok?
    ensures DecodeNormalString(i).Ok?
    ensures var (key, value) := DecodeNormalString(i).value;
            && DecodeValue(value).Ok?
            && var (t, more) := DecodeValue(value).value;
            && DecodeEcmaEntries(more, size - 1).Ok?
            && DecodeEcmaEntries(i, size) == Ok(([Entry(key, t)] + DecodeEcmaEntries(more, size - 1).value.0,
                                                 DecodeEcmaEntries(more, size - 1).value.1))
  {
    hide DecodeValue, DecodeNormalString;
  }

  lemma {:induction false} EcmaEntriesAreFields(before: Tail, i: Input, size: nat) returns (fields: seq<Field>)
    requires i == After(before, i.bytes) && MayEnd(before, i.bytes)
    requires DecodeEcmaEntries(i, size).Ok?
    ensures var (entries, rest) := DecodeEcmaEntries(i, size).value;
            var tail := FieldsTail(fields, before);
            && |fields| == size && FieldsOk(fields, before)
            && EntriesOf(fields) == entries && rest == After(tail, rest.bytes) && MayEnd(tail, rest.bytes)
            && i.bytes == FieldsBytes(fields, before) + rest.bytes
    decreases i.Measure(), 0
  {
    hide DecodeValue, DecodeNormalString, WireBytes, KeyBytes, TailOf, TreeOf, WireOk;
    if size == 0 {
      fields := [];
    } else {
      hide DecodeEcmaEntries;
      EcmaParts(i, size);
      KeyIs(i);
      var (key, afterKey) := DecodeNormalString(i).value;
      var w := DecodedIsWire(afterKey);
      var more := DecodeValue(afterKey).value.1;
      var others := EcmaEntriesAreFields(TailOf(w), more, size - 1);
      fields := [Field(key, w)] + others;
      KeyNeedsBytes(before, i, key);
      EcmaFieldsExtend(before, i, key, w, others, DecodeEcmaEntries(more, size - 1).value.1.bytes);
    }
  }

  /** A key cannot stand behind the end of the input. */
  lemma KeyNeedsBytes(before: Tail, i: Input, key: Str)
    requires MayEnd(before, i.bytes) && KeyBytes(key) <= i.bytes
    ensures !before.Exhausted?
  {
  }

  lemma EcmaFieldsExtend(before: Tail, i: Input, key: Str, w: Wire, others: seq<Field>, rest: seq<byte>)
    requires i.bytes == KeyBytes(key) + (WireBytes(w, before) + (FieldsBytes(others, TailOf(w)) + rest))
    ensures i.bytes == FieldsBytes([Field(key, w)] + others, before) + rest
  {
    hide KeyBytes, WireBytes;
    var fields := [Field(key, w)] + others;
    assert fields[1..] == others;
  }

  lemma EcmaDecodes(bytes: seq<byte>) returns (size: nat, behind: seq<byte>)
    requires DecodeObject(Input(Some(EcmaArrayMarker), bytes)).Ok?
    ensures size < U32_LIMIT && bytes == BigEndian(size, 4) + behind
  {
    hide BigEndian, Pow2, ReadUint, DecodeEcmaEntries;
    Limits();
    ReadUintIs(At(bytes), 4);
    size := ReadUint(At(bytes), 4).value.0;
    behind := ReadUint(At(bytes), 4).value.1.bytes;
  }

  /** What the probe has found. */
  lemma ProbeIs(tail: Tail, i: Input) returns (probe: Probe)
    requires i == After(tail, i.bytes) && MayEnd(tail, i.bytes) && Probed(i).Ok? && tail != Holding(ObjectEndMarker)
    ensures ProbeOk(probe)
    ensures var rest := Probed(i).value.1;
            var after := if tail.Clear? then ProbeTail(probe) else tail;
            && i.bytes == (if tail.Clear? then ProbeBytes(probe) else []) + rest.bytes
            && rest == After(after, rest.bytes) && MayEnd(after, rest.bytes)
  {
    assert [] + i.bytes == i.bytes;
    if i.pending.Some? || i.bytes == [] {
      probe := AtEnd;
    } else {
      MarkersDiffer(i.bytes[0]);
      probe := if i.bytes[0] == 9 then Ended else Holds(i.bytes[0]);
    }
  }

  lemma EcmaIsWire(bytes: seq<byte>) returns (w: Wire)
    requires DecodeValue(Input(Some(EcmaArrayMarker), bytes)).Ok?
    ensures var (t, rest) := DecodeValue(Input(Some(EcmaArrayMarker), bytes)).value;
            TreeOf(w) == t && BodyOf(EcmaArrayMarker, bytes, w, rest)
    decreases |bytes| + 1, 1
  {
    hide DecodeValue, DecodeObject, DecodeEcmaEntries, FieldsBytes, FieldsOk, FieldsTail, EntriesOf, BigEndian, Probed;
    hide ProbeTail, ProbeBytes, MayEnd, Body, WireOk, TreeOf, TailOf;
    Dispatch(EcmaArrayMarker, bytes);
    var size, behind := EcmaDecodes(bytes);
    EcmaIs(behind, size);
    NothingEnds(behind);
    var fields := EcmaEntriesAreFields(Clear, At(behind), size);
    FieldsTailIsNoEnd(fields, Clear);
    var afterEntries := DecodeEcmaEntries(At(behind), size).value.1;
    var probe := ProbeIs(FieldsTail(fields, Clear), afterEntries);
    w := WEcmaArray(fields, probe);
    EcmaFacts(w);
    EcmaIsBody(bytes, w, behind, afterEntries.bytes, Probed(afterEntries).value.1.bytes);
  }

  lemma EcmaFacts(w: Wire)
    requires w.WEcmaArray?
    ensures TreeOf(w) == TObject(EntriesOf(w.fields)) && MARKERS[Code(w)] == EcmaArrayMarker
    ensures ProbeOk(w.probe) ==>
              var tail := FieldsTail(w.fields, Clear);
              TailOf(w) == if tail.Clear? then ProbeTail(w.probe) else tail
    ensures WireOk(w) <==> |w.fields| < U32_LIMIT && FieldsOk(w.fields, Clear) && ProbeOk(w.probe)
  {
    hide FieldsOk, FieldsTail, EntriesOf, ProbeTail;
  }

  lemma EcmaIsBody(bytes: seq<byte>, w: Wire, behind: seq<byte>, behindEntries: seq<byte>, rest: seq<byte>)
    requires w.WEcmaArray? && bytes == BigEndian(|w.fields|, 4) + behind
    requires behind == FieldsBytes(w.fields, Clear) + behindEntries
    requires behindEntries == (if FieldsTail(w.fields, Clear).Clear? then ProbeBytes(w.probe) else []) + rest
    ensures bytes == Body(w) + rest
  {
    hide FieldsBytes, FieldsTail, BigEndian, ProbeBytes;
  }

  lemma NothingEnds(bytes: seq<byte>)
    ensures MayEnd(Clear, bytes)
  {
  }

  lemma {:induction false} ItemsAreWires(before: Tail, i: Input, size: nat) returns (items: seq<Wire>)
    requires i == After(before, i.bytes) && MayEnd(before, i.bytes)
    requires DecodeItems(i, size).Ok?
    ensures var (ts, rest) := DecodeItems(i, size).value;
            var tail := ItemsTail(items, before);
            && |items| == size && WiresOk(items, before)
            && TreesOf(items) == ts && rest == After(tail, rest.bytes) && MayEnd(tail, rest.bytes)
            && i.bytes == WiresBytes(items, before) + rest.bytes
    decreases i.Measure(), size + 4
  {
    hide DecodeValue, WireBytes, TailOf, TreeOf, WireOk;
    if size == 0 {
      items := [];
    } else {
      hide DecodeItems;
      ItemsStep(i, size);
      ValueNeedsBytes(i);
      var w := DecodedIsWire(i);
      var more := DecodeValue(i).value.1;
      var others := ItemsAreWires(TailOf(w), more, size - 1);
      items := [w] + others;
      ItemsExtend(before, i, w, others, DecodeItems(more, size - 1).value.1.bytes);
    }
  }

  lemma ValueNeedsBytes(i: Input)
    requires DecodeValue(i).Ok?
    ensures i.pending.Some? || i.bytes != []
  {
  }

  lemma ItemsExtend(before: Tail, i: Input, w: Wire, others: seq<Wire>, rest: seq<byte>)
    requires i.bytes == WireBytes(w, before) + (WiresBytes(others, TailOf(w)) + rest)
    ensures i.bytes == WiresBytes([w] + others, before) + rest
  {
    hide WireBytes;
    var items := [w] + others;
    assert items[1..] == others;
  }

  lemma StrictDecodes(bytes: seq<byte>) returns (size: nat, behind: seq<byte>)
    requires DecodeStrictArray(Input(Some(StrictArrayMarker), bytes)).Ok?
    ensures size < U32_LIMIT && bytes == BigEndian(size, 4) + behind
    ensures DecodeStrictArray(Input(Some(StrictArrayMarker), bytes)) == DecodeItems(At(behind), size)
  {
    hide BigEndian, Pow2, ReadUint, DecodeItems;
    Limits();
    ReadUintIs(At(bytes), 4);
    size := ReadUint(At(bytes), 4).value.0;
    behind := ReadUint(At(bytes), 4).value.1.bytes;
  }

  lemma StrictIsWire(bytes: seq<byte>) returns (w: Wire)
    requires DecodeValue(Input(Some(StrictArrayMarker), bytes)).Ok?
    ensures var (t, rest) := DecodeValue(Input(Some(StrictArrayMarker), bytes)).value;
            TreeOf(w) == t && BodyOf(StrictArrayMarker, bytes, w, rest)
    decreases |bytes| + 1, 1
  {
    hide DecodeValue, DecodeStrictArray, DecodeItems, WiresBytes, WiresOk, ItemsTail, TreesOf, BigEndian;
    Dispatch(StrictArrayMarker, bytes);
    var size, behind := StrictDecodes(bytes);
    var items := ItemsAreWires(Clear, At(behind), size);
    w := WStrictArray(items);
  }

  /** `decode_value` succeeds exactly on the byte strings of the grammar, with the tree and the rest that
      the grammar assigns to them. */
  lemma DecodeIffWire(i: Input, t: Tree, rest: Input)
    ensures DecodeValue(i) == Ok((t, rest)) <==> exists w :: BeginsWith(i, w, rest) && TreeOf(w) == t
  {
    hide DecodeValue, BeginsWith, TreeOf;
    if DecodeValue(i) == Ok((t, rest)) {
      var w := DecodedIsWire(i);
    }
    forall w | BeginsWith(i, w, rest)
      ensures DecodeValue(i) == Ok((TreeOf(w), rest))
    {
      BeginningIsDecoded(i, w, rest);
    }
  }

  lemma BeginningIsDecoded(i: Input, w: Wire, rest: Input)
    requires BeginsWith(i, w, rest)
    ensures DecodeValue(i) == Ok((TreeOf(w), rest))
  {
    hide DecodeValue, Body, TreeOf, TailOf, WireOk, WireBytes;
    PeekWire(w, Before(i), rest.bytes);
    WireBack(w, rest.bytes);
  }

  /** An error that is `NotSupported` names a refused marker. */
  predicate NamesRefused<T>(r: Decoded<T>) {
    r.Err? && r.error.NotSupported? ==> r.error.marker in REFUSED
  }

  /** `NotSupported` is returned for the markers that the decoder refuses where a value should stand, and
      for no other marker, however deep in a value. */
  lemma {:induction false} NotSupportedIffRefused(i: Input)
    ensures NamesRefused(DecodeValue(i))
    ensures PeekMarker(i).Ok? && PeekMarker(i).value.0 in REFUSED ==>
              DecodeValue(i) == Err(NotSupported(PeekMarker(i).value.0))
    decreases i.Measure(), 3
  {
    hide DecodeValue, DecodeObject, DecodeStrictArray, NamesRefused;
    if PeekMarker(i).Ok? {
      RefusedMarker(i);
      PeekedFrom(i);
      var (m, peeked) := PeekMarker(i).value;
      Dispatch(m, peeked.bytes);
      if m == ObjectMarker || m == TypedObjectMarker || m == EcmaArrayMarker {
        RefusedInObject(peeked);
      } else if m == StrictArrayMarker {
        RefusedInArray(peeked);
      }
    }
    RefusedAtOnce(i);
  }

  /** Values without values in them. */
  lemma RefusedAtOnce(i: Input)
    requires PeekMarker(i).Ok? ==>
               var (m, peeked) := PeekMarker(i).value;
               && (m == ObjectMarker || m == TypedObjectMarker || m == EcmaArrayMarker ==>
                     NamesRefused(DecodeObject(peeked)))
               && (m == StrictArrayMarker ==> NamesRefused(DecodeStrictArray(peeked)))
    ensures NamesRefused(DecodeValue(i))
  {
    hide DecodeObject, DecodeStrictArray, DecodeNumber, DecodeBoolean, DecodeString, DecodeNull;
    if PeekMarker(i).Ok? {
      NumberErrors(PeekMarker(i).value.1);
      StringErrors(PeekMarker(i).value.1);
    }
  }

  lemma NumberErrors(i: Input)
    ensures NamesRefused(DecodeNumber(i)) && NamesRefused(DecodeBoolean(i)) && NamesRefused(DecodeNull(i))
  {
    hide FromBigEndian, Pow2;
  }

  lemma StringErrors(i: Input)
    ensures NamesRefused(DecodeString(i))
  {
    hide FromBigEndian, Pow2, ValidUtf8;
  }

  lemma RefusedInObject(i: Input)
    ensures NamesRefused(DecodeObject(i))
    decreases i.Measure(), 2
  {
    hide DecodeEntries, DecodeEcmaEntries, NamesRefused;
    if DecodeObjectHeader(i).Ok? {
      var (header, behind) := DecodeObjectHeader(i).value;
      if header.EcmaArray? {
        RefusedInEcma(behind, header.size);
      } else {
        RefusedInEntries(behind);
      }
    }
    RefusedInHeader(i);
  }

  lemma RefusedInHeader(i: Input)
    requires DecodeObjectHeader(i).Ok? ==>
               var (header, behind) := DecodeObjectHeader(i).value;
               if header.EcmaArray? then NamesRefused(DecodeEcmaEntries(behind, header.size))
               else NamesRefused(DecodeEntries(behind))
    ensures NamesRefused(DecodeObject(i))
  {
    hide DecodeEntries, DecodeEcmaEntries;
  }

  lemma {:induction false} RefusedInEntries(i: Input)
    ensures NamesRefused(DecodeEntries(i))
    decreases i.Measure(), 1
  {
    hide DecodeValue;
    if DecodeObjectKey(i).Ok? && DecodeObjectKey(i).value.0.Some? {
      var value := DecodeObjectKey(i).value.1;
      NotSupportedIffRefused(value);
      if DecodeValue(value).Ok? {
        RefusedInEntries(DecodeValue(value).value.1);
      }
    }
  }

  lemma {:induction false} RefusedInEcma(i: Input, size: nat)
    ensures NamesRefused(DecodeEcmaEntries(i, size))
    decreases i.Measure(), 1
  {
    hide DecodeValue;
    if size != 0 && DecodeNormalString(i).Ok? {
      var value := DecodeNormalString(i).value.1;
      NotSupportedIffRefused(value);
      if DecodeValue(value).Ok? {
        RefusedInEcma(DecodeValue(value).value.1, size - 1);
      }
    }
  }

  lemma RefusedInArray(i: Input)
    ensures NamesRefused(DecodeStrictArray(i))
    decreases i.Measure(), 2
  {
    hide DecodeItems;
    if DecodeStrictArrayHeader(i).Ok? {
      var (size, behind) := DecodeStrictArrayHeader(i).value;
      RefusedInItems(behind, size);
    }
  }

  lemma {:induction false} RefusedInItems(i: Input, size: nat)
    ensures NamesRefused(DecodeItems(i, size))
    decreases i.Measure(), size + 4
  {
    hide DecodeValue;
    if size != 0 {
      NotSupportedIffRefused(i);
      if DecodeValue(i).Ok? {
        RefusedInItems(DecodeValue(i).value.1, size - 1);
      }
    }
  }
}
