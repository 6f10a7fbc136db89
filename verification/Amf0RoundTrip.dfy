/** Decoding undoes encoding. */
module Amf0RoundTrip {
  import opened Wrappers
  import opened Bits
  import opened Amf0
  import opened Amf0Decoding

  /** The decoder behind a value: nothing read ahead. */
  function At(bytes: seq<byte>): Input {
    Input(None, bytes)
  }

  lemma ReadUintBack(n: nat, width: nat, rest: seq<byte>)
    requires n < Pow2(8 * width)
    ensures ReadUint(At(BigEndian(n, width) + rest), width) == Ok((n, At(rest)))
  {
    var bytes := BigEndian(n, width) + rest;
    assert bytes[..width] == BigEndian(n, width) && bytes[width..] == rest;
    BigEndianRoundTrip(n, width);
  }

  lemma ReadBytesBack(bytes: seq<byte>, rest: seq<byte>)
    ensures ReadBytes(At(bytes + rest), |bytes|) == Ok((bytes, At(rest)))
  {
    assert (bytes + rest)[..|bytes|] == bytes && (bytes + rest)[|bytes|..] == rest;
  }

  lemma Limits()
    ensures Pow2(16) == U16_LIMIT && Pow2(32) == U32_LIMIT
  {
    assert Pow2(8) == 256;
    Pow2Add(8, 8);
    Pow2Add(16, 16);
  }

  lemma ReadStrBack(s: Str, width: nat, rest: seq<byte>)
    requires |s| < Pow2(8 * width)
    ensures ReadStr(At(BigEndian(|s|, width) + s + rest), width) == Ok((s, At(rest)))
  {
    assert BigEndian(|s|, width) + s + rest == BigEndian(|s|, width) + (s + rest);
    ReadUintBack(|s|, width, s + rest);
    ReadBytesBack(s, rest);
  }

  /** Looking at the next marker does not change what is decoded. */
  lemma DecodeAfterPeek(i: Input)
    requires PeekMarker(i).Ok?
    ensures DecodeValue(PeekMarker(i).value.1) == DecodeValue(i)
  {
    var (m, peeked) := PeekMarker(i).value;
    assert PeekMarker(peeked) == Ok((m, peeked));
  }

  lemma PeekCode(code: byte, tail: seq<byte>)
    requires code < |MARKERS|
    ensures PeekMarker(At([code] + tail)) == Ok((MARKERS[code], Input(Some(MARKERS[code]), tail)))
  {
    assert ([code] + tail)[1..] == tail;
  }

  lemma NumberBack(bits: F64, rest: seq<byte>)
    ensures DecodeValue(At(Bytes(TNumber(bits)) + rest)) == Ok((TNumber(bits), At(rest)))
  {
    hide BigEndian, FromBigEndian, Pow2;
    var tail := BigEndian(bits, 8) + rest;
    Pow2Of64();
    assert Bytes(TNumber(bits)) + rest == [0] + tail;
    PeekCode(0, tail);
    ReadUintBack(bits, 8, rest);
  }

  lemma BooleanBack(b: bool, rest: seq<byte>)
    ensures DecodeValue(At(Bytes(TBoolean(b)) + rest)) == Ok((TBoolean(b), At(rest)))
  {
    hide DecodeObject, DecodeStrictArray, ReadUint, FromBigEndian;
    var n := if b then 1 else 0;
    var tail := [n] + rest;
    assert Bytes(TBoolean(b)) + rest == [1] + tail;
    PeekCode(1, tail);
    assert ReadUint(At(tail), 1) == Ok((n, At(rest))) by {
      assert BigEndian(n, 1) == [n] && Pow2(8) == 256;
      ReadUintBack(n, 1, rest);
    }
  }

  lemma StringBack(s: Str, rest: seq<byte>)
    requires |s| < U32_LIMIT
    ensures DecodeValue(At(Bytes(TString(s)) + rest)) == Ok((TString(s), At(rest)))
  {
    hide BigEndian, FromBigEndian, Pow2, ValidUtf8, ReadStr;
    var width := if |s| < U16_LIMIT then 2 else 4;
    var code := if |s| < U16_LIMIT then 2 else 12;
    var tail := BigEndian(|s|, width) + s + rest;
    Limits();
    assert Bytes(TString(s)) + rest == [code] + tail;
    PeekCode(code, tail);
    ReadStrBack(s, width, rest);
  }

  lemma NullBack(rest: seq<byte>)
    ensures DecodeValue(At(Bytes(TNull) + rest)) == Ok((TNull, At(rest)))
  {
    PeekCode(5, rest);
  }

  lemma ArrayLayout(items: seq<Tree>, rest: seq<byte>)
    ensures Bytes(TArray(items)) + rest == [10] + (BigEndian(|items|, 4) + (ItemsBytes(items) + rest))
  {
    hide BigEndian, ItemsBytes;
  }

  lemma ArrayHeaderBack(size: nat, rest: seq<byte>)
    requires size < U32_LIMIT
    ensures DecodeStrictArrayHeader(Input(Some(StrictArrayMarker), BigEndian(size, 4) + rest)) == Ok((size, At(rest)))
  {
    hide BigEndian, ReadUint;
    Limits();
    ReadUintBack(size, 4, rest);
  }

  lemma StrictArrayBack(items: seq<Tree>, rest: seq<byte>)
    requires |items| < U32_LIMIT
    requires DecodeItems(At(ItemsBytes(items) + rest), |items|) == Ok((items, At(rest)))
    ensures DecodeStrictArray(Input(Some(StrictArrayMarker), BigEndian(|items|, 4) + (ItemsBytes(items) + rest)))
         == Ok((items, At(rest)))
  {
    hide BigEndian, ItemsBytes, DecodeItems, DecodeStrictArrayHeader;
    ArrayHeaderBack(|items|, ItemsBytes(items) + rest);
  }

  lemma ArrayBack(items: seq<Tree>, rest: seq<byte>)
    requires |items| < U32_LIMIT
    requires DecodeItems(At(ItemsBytes(items) + rest), |items|) == Ok((items, At(rest)))
    ensures DecodeValue(At(Bytes(TArray(items)) + rest)) == Ok((TArray(items), At(rest)))
  {
    hide Bytes, BigEndian, ItemsBytes, DecodeItems, DecodeStrictArray, DecodeValue;
    ArrayLayout(items, rest);
    StrictArrayDispatch(BigEndian(|items|, 4) + (ItemsBytes(items) + rest));
    StrictArrayBack(items, rest);
  }

  lemma StrictArrayDispatch(tail: seq<byte>)
    ensures DecodeValue(At([10] + tail)) ==
            match DecodeStrictArray(Input(Some(StrictArrayMarker), tail))
            case Ok((items, rest)) => Ok((TArray(items), rest))
            case Err(e) => Err(e)
  {
    hide DecodeStrictArray;
    PeekCode(10, tail);
  }

  lemma ObjectBack(entries: seq<Entry>, rest: seq<byte>)
    requires DecodeEntries(At(EntriesBytes(entries) + OBJECT_TRAILER + rest)) == Ok((entries, At(rest)))
    ensures DecodeValue(At(Bytes(TObject(entries)) + rest)) == Ok((TObject(entries), At(rest)))
  {
    hide EntriesBytes, DecodeEntries, Nodes, ItemsNodes, EntriesNodes;
    var tail := EntriesBytes(entries) + OBJECT_TRAILER + rest;
    assert Bytes(TObject(entries)) + rest == [3] + tail;
    PeekCode(3, tail);
  }

  /** Behind any nested value, and whatever follows it, the decoder has the value back, has
      consumed exactly its encoding, and has no marker read ahead. */
  lemma {:induction false} DecodeOfBytes(t: Tree, rest: seq<byte>)
    requires Fits(t)
    ensures DecodeValue(At(Bytes(t) + rest)) == Ok((t, At(rest)))
    decreases t, 1
  {
    hide Bytes, DecodeValue, DecodeEntries, DecodeItems;
    match t
    case TNumber(bits) => NumberBack(bits, rest);
    case TBoolean(b) => BooleanBack(b, rest);
    case TString(s) => StringBack(s, rest);
    case TNull => NullBack(rest);
    case TObject(entries) =>
      EntriesBack(entries, rest);
      ObjectBack(entries, rest);
    case TArray(items) =>
      ItemsBack(items, rest);
      ArrayBack(items, rest);
  }

  /** One turn of the loop over the items. */
  lemma ItemsStep(i: Input, size: nat)
    requires size != 0
    ensures DecodeItems(i, size) ==
            match DecodeValue(i)
            case Err(e) => Err(e)
            case Ok((t, more)) =>
              match DecodeItems(more, size - 1)
              case Err(e) => Err(e)
              case Ok((items, rest)) => Ok(([t] + items, rest))
  {
    hide DecodeValue;
  }

  lemma {:induction false} ItemsBack(items: seq<Tree>, rest: seq<byte>)
    requires forall i :: 0 <= i < |items| ==> Fits(items[i])
    ensures DecodeItems(At(ItemsBytes(items) + rest), |items|) == Ok((items, At(rest)))
    decreases items, 0
  {
    hide Bytes, DecodeValue;
    if items == [] {
      assert ItemsBytes(items) + rest == rest;
    } else {
      hide DecodeItems;
      var tail := ItemsBytes(items[1..]) + rest;
      assert ItemsBytes(items) + rest == Bytes(items[0]) + tail;
      DecodeOfBytes(items[0], tail);
      ItemsBack(items[1..], rest);
      ItemsStep(At(ItemsBytes(items) + rest), |items|);
      assert [items[0]] + items[1..] == items;
    }
  }

  /** A key is read back, also the empty one that starts like the end of the object. */
  lemma KeyBack(key: Str, code: byte, tail: seq<byte>)
    requires |key| < U16_LIMIT && code < |MARKERS| && code != 9
    ensures var after := At([code] + tail);
            DecodeObjectKey(At(KeyBytes(key) + ([code] + tail))) ==
            Ok((Some(key), if key == [] then PeekMarker(after).value.1 else after))
  {
    hide ReadStr, BigEndian, Pow2, ValidUtf8;
    Limits();
    ReadStrBack(key, 2, [code] + tail);
    PeekCode(code, tail);
  }

  lemma NoLength()
    ensures BigEndian(0, 2) == [0, 0] && ValidUtf8([])
  {
  }

  lemma TrailerBack(rest: seq<byte>)
    ensures DecodeObjectKey(At(OBJECT_TRAILER + rest)) == Ok((None, At(rest)))
  {
    hide ReadStr, Pow2, BigEndian;
    NoLength();
    assert OBJECT_TRAILER + rest == BigEndian(0, 2) + [] + ([9] + rest);
    Limits();
    ReadStrBack([], 2, [9] + rest);
    PeekCode(9, rest);
  }

  lemma FirstByteIsMarker(t: Tree)
    ensures Bytes(t)[0] < |MARKERS|
  {
  }

  /** One turn of the loop over the entries. */
  lemma EntriesStep(i: Input, e: Entry, entries: seq<Entry>, rest: seq<byte>)
    requires DecodeObjectKey(i).Ok? && DecodeObjectKey(i).value.0 == Some(e.key)
    requires var afterKey := DecodeObjectKey(i).value.1;
             && DecodeValue(afterKey).Ok?
             && DecodeValue(afterKey).value.0 == e.value
             && DecodeEntries(DecodeValue(afterKey).value.1) == Ok((entries, At(rest)))
    ensures DecodeEntries(i) == Ok(([e] + entries, At(rest)))
  {
    hide DecodeObjectKey, DecodeValue;
  }

  lemma EntriesLayout(entries: seq<Entry>, rest: seq<byte>)
    requires entries != []
    ensures EntriesBytes(entries) + rest ==
            KeyBytes(entries[0].key) + (Bytes(entries[0].value) + (EntriesBytes(entries[1..]) + rest))
  {
    hide KeyBytes, Bytes;
  }

  lemma {:induction false} EntriesBack(entries: seq<Entry>, rest: seq<byte>)
    requires forall i :: 0 <= i < |entries| ==> |entries[i].key| < U16_LIMIT && Fits(entries[i].value)
    ensures DecodeEntries(At(EntriesBytes(entries) + OBJECT_TRAILER + rest)) == Ok((entries, At(rest)))
    decreases entries, 0
  {
    if entries == [] {
      hide DecodeObjectKey;
      assert EntriesBytes(entries) + OBJECT_TRAILER + rest == OBJECT_TRAILER + rest;
      TrailerBack(rest);
    } else {
      hide Bytes, KeyBytes, DecodeValue, DecodeObjectKey, DecodeEntries, EntriesBytes;
      EntriesLayout(entries, OBJECT_TRAILER + rest);
      ConcatAssoc(EntriesBytes(entries), OBJECT_TRAILER, rest);
      ConcatAssoc(EntriesBytes(entries[1..]), OBJECT_TRAILER, rest);
      var e := entries[0];
      var more := EntriesBytes(entries[1..]) + OBJECT_TRAILER + rest;
      var value := Bytes(e.value) + more;
      assert EntriesBytes(entries) + OBJECT_TRAILER + rest == KeyBytes(e.key) + value;
      FirstByteIsMarker(e.value);
      assert value == [value[0]] + value[1..];
      KeyBack(e.key, value[0], value[1..]);
      PeekCode(value[0], value[1..]);
      DecodeAfterPeek(At(value));
      DecodeOfBytes(e.value, more);
      EntriesBack(entries[1..], rest);
      EntriesStep(At(KeyBytes(e.key) + value), e, entries[1..], rest);
      assert [e] + entries[1..] == entries;
    }
  }

  /** A stream of values is decoded to its end, in order. */
  lemma {:induction false} DecodeAllOfBytes(items: seq<Tree>)
    requires forall i :: 0 <= i < |items| ==> Fits(items[i])
    ensures DecodeAll(At(ItemsBytes(items))) == Ok((items, At([])))
  {
    if items != [] {
      var tail := ItemsBytes(items[1..]);
      var bytes := Bytes(items[0]) + tail;
      FirstByteIsMarker(items[0]);
      assert bytes == [bytes[0]] + bytes[1..];
      PeekCode(bytes[0], bytes[1..]);
      DecodeAfterPeek(At(bytes));
      DecodeOfBytes(items[0], tail);
      DecodeAllOfBytes(items[1..]);
      assert [items[0]] + items[1..] == items;
    }
  }

  /** An ECMA array without a terminator, as in section 2.10 of the AMF 0 specification. The encoder
      does not emit these. */
  function EcmaBytes(entries: seq<Entry>): seq<byte> {
    [8] + BigEndian(|entries|, 4) + EntriesBytes(entries)
  }

  /** One turn of the loop over the entries of an ECMA array. */
  lemma EcmaStep(i: Input, size: nat, e: Entry, value: Input, more: Input, entries: seq<Entry>, rest: Input)
    requires size != 0
    ensures DecodeNormalString(i) == Ok((e.key, value)) && DecodeValue(value) == Ok((e.value, more))
            && DecodeEcmaEntries(more, size - 1) == Ok((entries, rest)) ==>
              DecodeEcmaEntries(i, size) == Ok(([e] + entries, rest))
  {
    hide DecodeNormalString, DecodeValue;
  }

  lemma {:induction false} EcmaEntriesBack(entries: seq<Entry>, rest: seq<byte>)
    requires forall i :: 0 <= i < |entries| ==> |entries[i].key| < U16_LIMIT && Fits(entries[i].value)
    ensures DecodeEcmaEntries(At(EntriesBytes(entries) + rest), |entries|) == Ok((entries, At(rest)))
  {
    if entries == [] {
      assert EntriesBytes(entries) + rest == rest;
    } else {
      hide Bytes, DecodeValue, ReadStr, BigEndian, ValidUtf8, DecodeEcmaEntries, EntriesBytes;
      EntriesLayout(entries, rest);
      ConcatAssoc(BigEndian(|entries[0].key|, 2), entries[0].key,
                  Bytes(entries[0].value) + (EntriesBytes(entries[1..]) + rest));
      var e := entries[0];
      var more := EntriesBytes(entries[1..]) + rest;
      assert EntriesBytes(entries) + rest == BigEndian(|e.key|, 2) + e.key + (Bytes(e.value) + more);
      Limits();
      ReadStrBack(e.key, 2, Bytes(e.value) + more);
      DecodeOfBytes(e.value, more);
      EcmaEntriesBack(entries[1..], rest);
      EcmaStep(At(EntriesBytes(entries) + rest), |entries|, e, At(Bytes(e.value) + more), At(more), entries[1..],
               At(rest));
      assert [e] + entries[1..] == entries;
    }
  }

  /** The probe for an end marker behind an ECMA array takes the next byte whatever it is: it is
      dropped if it is the end marker, held back if it is another marker, and an error otherwise.
      Only at the end of the input is the decoder left with exactly what follows the array. */
  lemma EcmaArrayProbe(entries: seq<Entry>, rest: seq<byte>)
    requires |entries| < U32_LIMIT
    requires forall i :: 0 <= i < |entries| ==> |entries[i].key| < U16_LIMIT && Fits(entries[i].value)
    ensures DecodeObject(At(EcmaBytes(entries) + rest)) ==
            if rest == [] then Ok((entries, At([])))
            else if rest[0] == 9 then Ok((entries, At(rest[1..])))
            else if rest[0] < |MARKERS| then Ok((entries, Input(Some(MARKERS[rest[0]]), rest[1..])))
            else Err(UnknownMarker(rest[0]))
    ensures DecodeValue(At(EcmaBytes(entries) + rest)) ==
            match DecodeObject(At(EcmaBytes(entries) + rest))
            case Ok((found, left)) => Ok((TObject(found), left))
            case Err(e) => Err(e)
  {
    hide DecodeEcmaEntries, DecodeEntries, EntriesBytes, BigEndian, DecodeObjectHeader, DecodeObject, EcmaBytes;
    EcmaProbe(entries, rest);
    EcmaDispatch(entries, rest);
  }

  lemma EcmaDispatch(entries: seq<Entry>, rest: seq<byte>)
    ensures DecodeValue(At(EcmaBytes(entries) + rest)) ==
            match DecodeObject(At(EcmaBytes(entries) + rest))
            case Ok((found, left)) => Ok((TObject(found), left))
            case Err(e) => Err(e)
  {
    hide DecodeEcmaEntries, DecodeEntries, EntriesBytes, BigEndian;
    var tail := BigEndian(|entries|, 4) + (EntriesBytes(entries) + rest);
    assert EcmaBytes(entries) + rest == [8] + tail;
    PeekCode(8, tail);
  }

  lemma EcmaProbe(entries: seq<Entry>, rest: seq<byte>)
    requires |entries| < U32_LIMIT
    requires forall i :: 0 <= i < |entries| ==> |entries[i].key| < U16_LIMIT && Fits(entries[i].value)
    ensures DecodeObject(At(EcmaBytes(entries) + rest)) ==
            if rest == [] then Ok((entries, At([])))
            else if rest[0] == 9 then Ok((entries, At(rest[1..])))
            else if rest[0] < |MARKERS| then Ok((entries, Input(Some(MARKERS[rest[0]]), rest[1..])))
            else Err(UnknownMarker(rest[0]))
  {
    hide DecodeEcmaEntries, DecodeEntries, EntriesBytes, BigEndian, DecodeObjectHeader;
    EcmaHeaderBack(|entries|, EntriesBytes(entries) + rest);
    assert EcmaBytes(entries) + rest == [8] + (BigEndian(|entries|, 4) + (EntriesBytes(entries) + rest));
    EcmaEntriesBack(entries, rest);
  }

  lemma EcmaHeaderBack(size: nat, rest: seq<byte>)
    requires size < U32_LIMIT
    ensures DecodeObjectHeader(At([8] + (BigEndian(size, 4) + rest))) == Ok((EcmaArray(size), At(rest)))
  {
    hide BigEndian, ReadUint;
    var tail := BigEndian(size, 4) + rest;
    assert ([8] + tail)[1..] == tail;
    Limits();
    ReadUintBack(size, 4, rest);
  }
}
