/** The decoder accepts every byte string of the grammar, whatever follows it. */
module Amf0WireDecoding {
  import opened Wrappers
  import opened Bits
  import opened Amf0
  import opened Amf0Decoding
  import opened Amf0RoundTrip
  import opened Amf0Wire

  /** The decoder behind a value. */
  function After(tail: Tail, bytes: seq<byte>): Input {
    Input(if tail.Holding? then Some(tail.m) else None, bytes)
  }

  /** The decoder at a value of which it has read the marker. */
  function Peeked(w: Wire, bytes: seq<byte>): Input {
    Input(Some(MARKERS[Code(w)]), bytes)
  }

  /** Where the input must end, it ends. */
  predicate MayEnd(tail: Tail, rest: seq<byte>) {
    tail.Exhausted? ==> rest == []
  }

  lemma PeekWire(w: Wire, before: Tail, rest: seq<byte>)
    requires Follows(w, before)
    ensures PeekMarker(After(before, WireBytes(w, before) + rest)) ==
            Ok((MARKERS[Code(w)], Peeked(w, Body(w) + rest)))
    ensures DecodeValue(After(before, WireBytes(w, before) + rest)) == DecodeValue(Peeked(w, Body(w) + rest))
  {
    hide Body, DecodeValue;
    if before.Clear? {
      assert WireBytes(w, before) + rest == [Code(w)] + (Body(w) + rest);
      PeekCode(Code(w), Body(w) + rest);
    }
    DecodeAfterPeek(After(before, WireBytes(w, before) + rest));
  }

  lemma NumbersBack(w: Wire, rest: seq<byte>)
    requires WireOk(w) && (w.WNumber? || w.WDate?)
    ensures DecodeValue(Peeked(w, Body(w) + rest)) == Ok((TreeOf(w), At(rest)))
  {
    hide BigEndian, FromBigEndian, Pow2, ReadUint, DecodeObject, DecodeStrictArray;
    Pow2Of64();
    if w.WNumber? {
      ReadUintBack(w.bits, 8, rest);
    } else {
      ReadUintBack(w.bits, 8, w.zone + rest);
      ReadBytesBack(w.zone, rest);
      assert Body(w) + rest == BigEndian(w.bits, 8) + (w.zone + rest);
    }
  }

  lemma BooleansBack(w: Wire, rest: seq<byte>)
    requires w.WBoolean?
    ensures DecodeValue(Peeked(w, Body(w) + rest)) == Ok((TreeOf(w), At(rest)))
  {
    hide DecodeObject, DecodeStrictArray, ReadUint, FromBigEndian, BigEndian, Pow2;
    OneByte(w.code);
    ReadUintBack(w.code, 1, rest);
  }

  lemma OneByte(b: byte)
    ensures BigEndian(b, 1) == [b] && b < Pow2(8 * 1)
  {
    assert Pow2(8) == 256;
  }

  lemma StringsBack(w: Wire, rest: seq<byte>)
    requires WireOk(w) && (w.WString? || w.WLongString? || w.WXmlDocument?)
    ensures DecodeValue(Peeked(w, Body(w) + rest)) == Ok((TreeOf(w), At(rest)))
  {
    hide BigEndian, FromBigEndian, Pow2, ValidUtf8, ReadStr, DecodeObject, DecodeStrictArray;
    Limits();
    ReadStrBack(w.s, if w.WString? then 2 else 4, rest);
  }

  /** How a value is dispatched when its marker has been read. */
  lemma Dispatch(m: Marker, bytes: seq<byte>)
    ensures var i := Input(Some(m), bytes);
            && (m == ObjectMarker || m == TypedObjectMarker || m == EcmaArrayMarker ==>
                  DecodeValue(i) ==
                  match DecodeObject(i)
                  case Ok((entries, rest)) => Ok((TObject(entries), rest))
                  case Err(e) => Err(e))
            && (m == StrictArrayMarker ==>
                  DecodeValue(i) ==
                  match DecodeStrictArray(i)
                  case Ok((items, rest)) => Ok((TArray(items), rest))
                  case Err(e) => Err(e))
            && (m == NullMarker || m == UndefinedMarker ==> DecodeValue(i) == Ok((TNull, At(bytes))))
  {
    hide DecodeObject, DecodeStrictArray;
  }

  /** Every value of the grammar is decoded to its tree; what is left is what the grammar says. */
  lemma {:induction false} WireBack(w: Wire, rest: seq<byte>)
    requires WireOk(w) && MayEnd(TailOf(w), rest)
    ensures DecodeValue(Peeked(w, Body(w) + rest)) == Ok((TreeOf(w), After(TailOf(w), rest)))
    decreases w, 2
  {
    hide DecodeValue, DecodeObject, DecodeStrictArray, Body, WireOk, TreeOf, TailOf, MayEnd;
    match w
    case WNumber(_) => NumbersBack(w, rest); SimpleTail(w);
    case WDate(_, _) => NumbersBack(w, rest); SimpleTail(w);
    case WBoolean(_) => BooleansBack(w, rest); SimpleTail(w);
    case WString(_) => StringsBack(w, rest); SimpleTail(w);
    case WLongString(_) => StringsBack(w, rest); SimpleTail(w);
    case WXmlDocument(_) => StringsBack(w, rest); SimpleTail(w);
    case WNull => NothingBack(w, rest);
    case WUndefined => NothingBack(w, rest);
    case WObject(fields) => ObjectsBack(w, rest);
    case WTypedObject(_, fields) => ObjectsBack(w, rest);
    case WEcmaArray(fields, probe) => EcmaBack(w, rest);
    case WStrictArray(items) => StrictBack(w, rest);
  }

  lemma SimpleTail(w: Wire)
    requires !w.WEcmaArray? && !w.WStrictArray?
    ensures TailOf(w) == Clear
  {
  }

  lemma NothingBack(w: Wire, rest: seq<byte>)
    requires w.WNull? || w.WUndefined?
    ensures DecodeValue(Peeked(w, Body(w) + rest)) == Ok((TreeOf(w), After(TailOf(w), rest)))
  {
    hide DecodeValue;
    Dispatch(MARKERS[Code(w)], rest);
    assert [] + rest == rest;
  }

  lemma ObjectHeaderBack(w: Wire, tail: seq<byte>)
    requires w.WObject? || (w.WTypedObject? && |w.name| < U16_LIMIT)
    ensures var header := if w.WTypedObject? then KeyBytes(w.name) else [];
            DecodeObject(Peeked(w, header + tail)) == DecodeEntries(At(tail))
  {
    hide DecodeEntries, ReadStr, BigEndian, Pow2, ValidUtf8;
    if w.WTypedObject? {
      Limits();
      ReadStrBack(w.name, 2, tail);
    } else {
      assert [] + tail == tail;
    }
  }

  lemma ObjectBody(w: Wire, rest: seq<byte>)
    requires w.WObject? || w.WTypedObject?
    ensures Body(w) + rest ==
            (if w.WTypedObject? then KeyBytes(w.name) else []) + (FieldsBytes(w.fields, Clear) + OBJECT_TRAILER + rest)
  {
    hide KeyBytes, FieldsBytes;
  }

  lemma ObjectFacts(w: Wire)
    requires w.WObject? || w.WTypedObject?
    ensures TailOf(w) == Clear && TreeOf(w) == TObject(EntriesOf(w.fields))
    ensures MARKERS[Code(w)] == if w.WObject? then ObjectMarker else TypedObjectMarker
    ensures WireOk(w) <==>
            && FieldsOk(w.fields, Clear) && FieldsTail(w.fields, Clear).Clear?
            && (w.WTypedObject? ==> |w.name| < U16_LIMIT)
  {
    hide FieldsOk, FieldsTail, EntriesOf;
  }

  lemma ObjectsBack(w: Wire, rest: seq<byte>)
    requires WireOk(w) && (w.WObject? || w.WTypedObject?)
    ensures DecodeValue(Peeked(w, Body(w) + rest)) == Ok((TreeOf(w), After(TailOf(w), rest)))
    decreases w, 1
  {
    hide DecodeValue, DecodeEntries, DecodeObject, FieldsBytes, FieldsOk, FieldsTail, KeyBytes, EntriesOf, Body;
    hide WireOk, TreeOf, TailOf;
    ObjectFacts(w);
    var tail := FieldsBytes(w.fields, Clear) + OBJECT_TRAILER + rest;
    ObjectBody(w, rest);
    Dispatch(MARKERS[Code(w)], Body(w) + rest);
    ObjectHeaderBack(w, tail);
    FieldsBack(w.fields, Clear, rest);
  }

  /** A key, and the value behind it. */
  lemma KeyThenValue(key: Str, w: Wire, before: Tail, rest: seq<byte>)
    requires |key| < U16_LIMIT && Follows(w, before)
    ensures var bytes := KeyBytes(key) + (WireBytes(w, before) + rest);
            var i := After(before, bytes);
            && DecodeNormalString(i) == Ok((key, After(before, WireBytes(w, before) + rest)))
            && DecodeObjectKey(i).Ok? && DecodeObjectKey(i).value.0 == Some(key)
            && DecodeValue(DecodeObjectKey(i).value.1) == DecodeValue(Peeked(w, Body(w) + rest))
  {
    hide ReadStr, BigEndian, Pow2, ValidUtf8, DecodeValue, WireBytes, Body;
    Limits();
    var behind := WireBytes(w, before) + rest;
    ReadStrHeld(key, before, behind);
    PeekWire(w, before, rest);
    MarkersDiffer(Code(w));
    DecodeAfterPeek(After(before, behind));
  }

  lemma MarkersDiffer(code: byte)
    requires code < |MARKERS|
    ensures MARKERS[code] == ObjectEndMarker <==> code == 9
  {
  }

  /** Keys are read past a marker that was read ahead. */
  lemma ReadStrHeld(key: Str, before: Tail, behind: seq<byte>)
    requires |key| < U16_LIMIT
    ensures DecodeNormalString(After(before, KeyBytes(key) + behind)) == Ok((key, After(before, behind)))
  {
    hide BigEndian, FromBigEndian, Pow2, ValidUtf8;
    Limits();
    ReadStrBack(key, 2, behind);
  }

  lemma {:induction false} FieldsBack(fields: seq<Field>, before: Tail, rest: seq<byte>)
    requires FieldsOk(fields, before) && FieldsTail(fields, before).Clear?
    ensures DecodeEntries(After(before, FieldsBytes(fields, before) + OBJECT_TRAILER + rest))
         == Ok((EntriesOf(fields), At(rest)))
    decreases fields, 0
  {
    hide DecodeObjectKey, DecodeEntries, DecodeValue, WireBytes, Body, KeyBytes, TailOf, TreeOf, WireOk;
    if fields == [] {
      assert FieldsBytes(fields, before) + OBJECT_TRAILER + rest == OBJECT_TRAILER + rest;
      TrailerBack(rest);
      EntriesEnd(At(OBJECT_TRAILER + rest));
    } else {
      var e, tail := fields[0], TailOf(fields[0].value);
      var more := FieldsBytes(fields[1..], tail) + OBJECT_TRAILER + rest;
      assert FieldsBytes(fields, before) + OBJECT_TRAILER + rest ==
             KeyBytes(e.key) + (WireBytes(e.value, before) + more);
      KeyThenValue(e.key, e.value, before, more);
      NotExhausted(fields[1..], tail);
      WireBack(e.value, more);
      FieldsBack(fields[1..], tail, rest);
      EntriesStep(After(before, KeyBytes(e.key) + (WireBytes(e.value, before) + more)),
                  Entry(e.key, TreeOf(e.value)), EntriesOf(fields[1..]), rest);
    }
  }

  lemma EntriesEnd(i: Input)
    requires DecodeObjectKey(i).Ok? && DecodeObjectKey(i).value.0.None?
    ensures DecodeEntries(i) == Ok(([], DecodeObjectKey(i).value.1))
  {
    hide DecodeObjectKey;
  }

  /** Nothing stands behind the end of the input. */
  lemma NotExhausted(fields: seq<Field>, before: Tail)
    requires FieldsOk(fields, before)
    ensures fields != [] ==> !before.Exhausted?
    ensures fields == [] ==> FieldsTail(fields, before) == before && FieldsBytes(fields, before) == []
  {
  }

  lemma {:induction false} EcmaFieldsBack(fields: seq<Field>, before: Tail, rest: seq<byte>)
    requires FieldsOk(fields, before) && MayEnd(FieldsTail(fields, before), rest)
    ensures DecodeEcmaEntries(After(before, FieldsBytes(fields, before) + rest), |fields|)
         == Ok((EntriesOf(fields), After(FieldsTail(fields, before), rest)))
    decreases fields, 0
  {
    hide DecodeNormalString, DecodeValue, WireBytes, Body, KeyBytes, TailOf, TreeOf, WireOk;
    if fields == [] {
      assert FieldsBytes(fields, before) + rest == rest;
    } else {
      hide DecodeEcmaEntries;
      var e, tail := fields[0], TailOf(fields[0].value);
      var more := FieldsBytes(fields[1..], tail) + rest;
      assert FieldsBytes(fields, before) + rest == KeyBytes(e.key) + (WireBytes(e.value, before) + more);
      KeyThenValue(e.key, e.value, before, more);
      NotExhausted(fields[1..], tail);
      PeekWire(e.value, before, more);
      WireBack(e.value, more);
      EcmaFieldsBack(fields[1..], tail, rest);
      var i := After(before, KeyBytes(e.key) + (WireBytes(e.value, before) + more));
      EcmaStepTo(i, |fields|, Entry(e.key, TreeOf(e.value)), After(before, WireBytes(e.value, before) + more),
                 After(tail, more), EntriesOf(fields[1..]), After(FieldsTail(fields, before), rest));
    }
  }

  lemma EcmaStepTo(i: Input, size: nat, e: Entry, value: Input, more: Input, entries: seq<Entry>, rest: Input)
    requires size != 0 && DecodeNormalString(i) == Ok((e.key, value)) && DecodeValue(value) == Ok((e.value, more))
    requires DecodeEcmaEntries(more, size - 1) == Ok((entries, rest))
    ensures DecodeEcmaEntries(i, size) == Ok(([e] + entries, rest))
  {
    EcmaStep(i, size, e, value, more, entries, rest);
  }

  /** The probe behind the entries of an ECMA array. */
  function Probed(i: Input): Decoded<()> {
    match HasRemaining(i)
    case Err(e) => Err(e)
    case Ok((more, probed)) =>
      Ok(((), if more && probed.pending == Some(ObjectEndMarker) then probed.(pending := None) else probed))
  }

  lemma EcmaIs(tail: seq<byte>, size: nat)
    requires size < U32_LIMIT
    ensures DecodeObject(Input(Some(EcmaArrayMarker), BigEndian(size, 4) + tail)) ==
            match DecodeEcmaEntries(At(tail), size)
            case Err(e) => Err(e)
            case Ok((entries, afterEntries)) =>
              match Probed(afterEntries)
              case Err(e) => Err(e)
              case Ok((_, rest)) => Ok((entries, rest))
  {
    hide DecodeEcmaEntries, DecodeEntries, BigEndian, ReadUint, HasRemaining;
    Limits();
    ReadUintBack(size, 4, tail);
  }

  lemma ProbedBack(tail: Tail, probe: Probe, rest: seq<byte>)
    requires ProbeOk(probe) && tail != Holding(ObjectEndMarker)
    requires MayEnd(if tail.Clear? then ProbeTail(probe) else tail, rest)
    ensures Probed(After(tail, (if tail.Clear? then ProbeBytes(probe) else []) + rest))
         == Ok(((), After(if tail.Clear? then ProbeTail(probe) else tail, rest)))
  {
    assert [] + rest == rest;
    if tail.Clear? {
      match probe
      case Ended => PeekCode(9, rest);
      case Holds(code) =>
        PeekCode(code, rest);
        MarkersDiffer(code);
      case AtEnd =>
    }
  }

  /** The marker that is held back is never the end marker. */
  lemma {:induction false} TailIsNoEnd(w: Wire)
    requires WireOk(w)
    ensures TailOf(w) != Holding(ObjectEndMarker)
    decreases w, 1
  {
    match w
    case WEcmaArray(fields, probe) =>
      FieldsTailIsNoEnd(fields, Clear);
      if probe.Holds? {
        MarkersDiffer(probe.code);
      }
    case WStrictArray(items) => ItemsTailIsNoEnd(items, Clear);
    case _ =>
  }

  lemma {:induction false} FieldsTailIsNoEnd(fields: seq<Field>, before: Tail)
    requires FieldsOk(fields, before) && before != Holding(ObjectEndMarker)
    ensures FieldsTail(fields, before) != Holding(ObjectEndMarker)
    decreases fields, 0
  {
    if fields != [] {
      TailIsNoEnd(fields[0].value);
      FieldsTailIsNoEnd(fields[1..], TailOf(fields[0].value));
    }
  }

  lemma {:induction false} ItemsTailIsNoEnd(items: seq<Wire>, before: Tail)
    requires WiresOk(items, before) && before != Holding(ObjectEndMarker)
    ensures ItemsTail(items, before) != Holding(ObjectEndMarker)
    decreases items, 0
  {
    if items != [] {
      TailIsNoEnd(items[0]);
      ItemsTailIsNoEnd(items[1..], TailOf(items[0]));
    }
  }

  lemma EcmaBack(w: Wire, rest: seq<byte>)
    requires WireOk(w) && w.WEcmaArray? && MayEnd(TailOf(w), rest)
    ensures DecodeValue(Peeked(w, Body(w) + rest)) == Ok((TreeOf(w), After(TailOf(w), rest)))
    decreases w, 1
  {
    hide DecodeValue, DecodeObject, DecodeEcmaEntries, FieldsBytes, FieldsOk, FieldsTail, EntriesOf, BigEndian, Probed;
    hide ProbeTail, ProbeBytes;
    var tail := FieldsTail(w.fields, Clear);
    var probe := if tail.Clear? then ProbeBytes(w.probe) else [];
    var behind := probe + rest;
    assert Body(w) + rest == BigEndian(|w.fields|, 4) + (FieldsBytes(w.fields, Clear) + behind);
    Dispatch(EcmaArrayMarker, Body(w) + rest);
    EcmaIs(FieldsBytes(w.fields, Clear) + behind, |w.fields|);
    EcmaFieldsBack(w.fields, Clear, behind);
    FieldsTailIsNoEnd(w.fields, Clear);
    ProbedBack(tail, w.probe, rest);
  }

  lemma {:induction false} WiresBack(items: seq<Wire>, before: Tail, rest: seq<byte>)
    requires WiresOk(items, before) && MayEnd(ItemsTail(items, before), rest)
    ensures DecodeItems(After(before, WiresBytes(items, before) + rest), |items|)
         == Ok((TreesOf(items), After(ItemsTail(items, before), rest)))
    decreases items, 0
  {
    hide DecodeValue, WireBytes, Body, TailOf, TreeOf, WireOk;
    if items == [] {
      assert WiresBytes(items, before) + rest == rest;
    } else {
      hide DecodeItems;
      var w, tail := items[0], TailOf(items[0]);
      var more := WiresBytes(items[1..], tail) + rest;
      assert WiresBytes(items, before) + rest == WireBytes(w, before) + more;
      NotExhaustedItems(items[1..], tail);
      PeekWire(w, before, more);
      WireBack(w, more);
      WiresBack(items[1..], tail, rest);
      ItemsStep(After(before, WireBytes(w, before) + more), |items|);
    }
  }

  lemma NotExhaustedItems(items: seq<Wire>, before: Tail)
    requires WiresOk(items, before)
    ensures items != [] ==> !before.Exhausted?
    ensures items == [] ==> ItemsTail(items, before) == before && WiresBytes(items, before) == []
  {
  }

  lemma StrictBack(w: Wire, rest: seq<byte>)
    requires WireOk(w) && w.WStrictArray? && MayEnd(TailOf(w), rest)
    ensures DecodeValue(Peeked(w, Body(w) + rest)) == Ok((TreeOf(w), After(TailOf(w), rest)))
    decreases w, 1
  {
    hide DecodeValue, DecodeItems, WiresBytes, WiresOk, ItemsTail, TreesOf, BigEndian, DecodeStrictArrayHeader;
    assert Body(w) + rest == BigEndian(|w.items|, 4) + (WiresBytes(w.items, Clear) + rest);
    Dispatch(StrictArrayMarker, Body(w) + rest);
    ArrayHeaderBack(|w.items|, WiresBytes(w.items, Clear) + rest);
    WiresBack(w.items, Clear, rest);
  }
}
