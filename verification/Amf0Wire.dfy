/** Every byte string that the AMF0 decoder accepts, as a grammar of its own: sections 2.2-2.15 and 2.18 of
    the AMF 0 specification, with the one byte that crates/amf0/src/decoder.rs takes behind an ECMA array. */
module Amf0Wire {
  import opened Wrappers
  import opened Bits
  import opened Amf0

  /** A value as it stands in the bytes. A boolean is any byte, a date has a time zone, strings may be
      long or XML documents whatever their length, and an object may have a class name. */
  datatype Wire =
    | WNumber(bits: F64)
    | WDate(bits: F64, zone: seq<byte>)
    | WBoolean(code: byte)
    | WString(s: Str)
    | WLongString(s: Str)
    | WXmlDocument(s: Str)
    | WNull
    | WUndefined
    | WObject(fields: seq<Field>)
    | WTypedObject(name: Str, fields: seq<Field>)
    | WEcmaArray(fields: seq<Field>, probe: Probe)
    | WStrictArray(items: seq<Wire>)
  datatype Field = Field(key: Str, value: Wire)

  /** What the decoder finds behind the entries of an ECMA array: the end marker, another marker, or the
      end of the input. */
  datatype Probe = Ended | Holds(code: byte) | AtEnd

  /** What is left behind a value: nothing read ahead, a marker that was read ahead, or nothing at all
      because the input is over. */
  datatype Tail = Clear | Holding(m: Marker) | Exhausted

  /** The value that the decoder makes of it. */
  function TreeOf(w: Wire): Tree {
    match w
    case WNumber(bits) => TNumber(bits)
    case WDate(bits, _) => TNumber(bits)
    case WBoolean(code) => TBoolean(code != 0)
    case WString(s) => TString(s)
    case WLongString(s) => TString(s)
    case WXmlDocument(s) => TString(s)
    case WNull => TNull
    case WUndefined => TNull
    case WObject(fields) => TObject(EntriesOf(fields))
    case WTypedObject(_, fields) => TObject(EntriesOf(fields))
    case WEcmaArray(fields, _) => TObject(EntriesOf(fields))
    case WStrictArray(items) => TArray(TreesOf(items))
  }

  function EntriesOf(fields: seq<Field>): (entries: seq<Entry>)
    ensures |entries| == |fields|
  {
    if fields == [] then [] else [Entry(fields[0].key, TreeOf(fields[0].value))] + EntriesOf(fields[1..])
  }

  function TreesOf(items: seq<Wire>): (ts: seq<Tree>)
    ensures |ts| == |items|
  {
    if items == [] then [] else [TreeOf(items[0])] + TreesOf(items[1..])
  }

  /** The code of the marker in front. */
  function Code(w: Wire): (code: byte)
    ensures code < |MARKERS| && code != 9
  {
    match w
    case WNumber(_) => 0
    case WBoolean(_) => 1
    case WString(_) => 2
    case WObject(_) => 3
    case WNull => 5
    case WUndefined => 6
    case WEcmaArray(_, _) => 8
    case WStrictArray(_) => 10
    case WDate(_, _) => 11
    case WLongString(_) => 12
    case WXmlDocument(_) => 15
    case WTypedObject(_, _) => 16
  }

  function ProbeTail(probe: Probe): Tail
    requires ProbeOk(probe)
  {
    match probe
    case Ended => Clear
    case Holds(code) => Holding(MARKERS[code])
    case AtEnd => Exhausted
  }

  predicate ProbeOk(probe: Probe) {
    probe.Holds? ==> probe.code < |MARKERS| && probe.code != 9
  }

  function TailOf(w: Wire): Tail {
    match w
    case WEcmaArray(fields, probe) =>
      var tail := FieldsTail(fields, Clear);
      if tail.Clear? then (if ProbeOk(probe) then ProbeTail(probe) else Clear) else tail
    case WStrictArray(items) => ItemsTail(items, Clear)
    case _ => Clear
  }

  function FieldsTail(fields: seq<Field>, before: Tail): Tail {
    if fields == [] then before else FieldsTail(fields[1..], TailOf(fields[0].value))
  }

  function ItemsTail(items: seq<Wire>, before: Tail): Tail {
    if items == [] then before else ItemsTail(items[1..], TailOf(items[0]))
  }

  /** The bytes behind the marker. */
  function Body(w: Wire): seq<byte>
    decreases w, 0
  {
    match w
    case WNumber(bits) => BigEndian(bits, 8)
    case WDate(bits, zone) => BigEndian(bits, 8) + zone
    case WBoolean(code) => [code]
    case WString(s) => BigEndian(|s|, 2) + s
    case WLongString(s) => BigEndian(|s|, 4) + s
    case WXmlDocument(s) => BigEndian(|s|, 4) + s
    case WNull => []
    case WUndefined => []
    case WObject(fields) => FieldsBytes(fields, Clear) + OBJECT_TRAILER
    case WTypedObject(name, fields) => KeyBytes(name) + FieldsBytes(fields, Clear) + OBJECT_TRAILER
    case WEcmaArray(fields, probe) =>
      BigEndian(|fields|, 4) + FieldsBytes(fields, Clear)
      + if FieldsTail(fields, Clear).Clear? then ProbeBytes(probe) else []
    case WStrictArray(items) => BigEndian(|items|, 4) + WiresBytes(items, Clear)
  }

  function ProbeBytes(probe: Probe): seq<byte> {
    match probe
    case Ended => [9]
    case Holds(code) => [code]
    case AtEnd => []
  }

  /** A value whose marker was read ahead stands there without it. */
  function WireBytes(w: Wire, before: Tail): seq<byte>
    decreases w, 1
  {
    if before.Holding? then Body(w) else [Code(w)] + Body(w)
  }

  /** A key stands in front of its value's marker, also when that marker was read ahead of the key. */
  function FieldsBytes(fields: seq<Field>, before: Tail): seq<byte> {
    if fields == [] then []
    else
      KeyBytes(fields[0].key) + WireBytes(fields[0].value, before)
      + FieldsBytes(fields[1..], TailOf(fields[0].value))
  }

  function WiresBytes(items: seq<Wire>, before: Tail): seq<byte> {
    if items == [] then [] else WireBytes(items[0], before) + WiresBytes(items[1..], TailOf(items[0]))
  }

  /** The value can stand behind what is left: a marker that was read ahead must be its own. */
  predicate Follows(w: Wire, before: Tail) {
    before.Clear? || before == Holding(MARKERS[Code(w)])
  }

  predicate WireOk(w: Wire) {
    match w
    case WDate(_, zone) => |zone| == 2
    case WString(s) => |s| < U16_LIMIT
    case WLongString(s) => |s| < U32_LIMIT
    case WXmlDocument(s) => |s| < U32_LIMIT
    case WObject(fields) => FieldsOk(fields, Clear) && FieldsTail(fields, Clear).Clear?
    case WTypedObject(name, fields) =>
      |name| < U16_LIMIT && FieldsOk(fields, Clear) && FieldsTail(fields, Clear).Clear?
    case WEcmaArray(fields, probe) => |fields| < U32_LIMIT && FieldsOk(fields, Clear) && ProbeOk(probe)
    case WStrictArray(items) => |items| < U32_LIMIT && WiresOk(items, Clear)
    case _ => true
  }

  predicate FieldsOk(fields: seq<Field>, before: Tail) {
    fields != [] ==>
      && |fields[0].key| < U16_LIMIT
      && Follows(fields[0].value, before) && WireOk(fields[0].value)
      && FieldsOk(fields[1..], TailOf(fields[0].value))
  }

  predicate WiresOk(items: seq<Wire>, before: Tail) {
    items != [] ==>
      Follows(items[0], before) && WireOk(items[0]) && WiresOk(items[1..], TailOf(items[0]))
  }
}
