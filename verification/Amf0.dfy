/** AMF0 values, markers and the byte layout of an encoded value, crates/amf0.
    Sections 2.1-2.5, 2.7, 2.11, 2.12 and 2.14 of the AMF 0 specification. */
module Amf0 {
  import opened Wrappers
  import opened Bits

  datatype Marker =
    | NumberMarker | BooleanMarker | StringMarker | ObjectMarker | MovieClipMarker | NullMarker
    | UndefinedMarker | ReferenceMarker | EcmaArrayMarker | ObjectEndMarker | StrictArrayMarker
    | DateMarker | LongStringMarker | UnsupportedMarker | RecordsetMarker | XmlDocumentMarker
    | TypedObjectMarker | AvmPlusObjectMarker

  const MARKERS: seq<Marker> :=
    [NumberMarker, BooleanMarker, StringMarker, ObjectMarker, MovieClipMarker, NullMarker,
     UndefinedMarker, ReferenceMarker, EcmaArrayMarker, ObjectEndMarker, StrictArrayMarker,
     DateMarker, LongStringMarker, UnsupportedMarker, RecordsetMarker, XmlDocumentMarker,
     TypedObjectMarker, AvmPlusObjectMarker]

  /** `Amf0Marker::from_u8`. */
  function MarkerOf(b: byte): Option<Marker> {
    if b < |MARKERS| then Some(MARKERS[b]) else None
  }

  datatype Error =
    | Eof
    | TooLong
    | UnknownMarker(code: byte)
    | NotSupported(marker: Marker)
    | StringParse
    | UnexpectedType(expected: seq<Marker>, got: Marker)

  /** Continuation bytes of UTF-8. */
  predicate Continues(s: seq<byte>, from: nat, to: nat) {
    to <= |s| && forall i :: from <= i < to ==> 0x80 <= s[i] <= 0xBF
  }

  /** Well-formed UTF-8, section 4 of RFC 3629. */
  predicate ValidUtf8(s: seq<byte>) {
    if s == [] then true
    else if s[0] <= 0x7F then ValidUtf8(s[1..])
    else if 0xC2 <= s[0] <= 0xDF then Continues(s, 1, 2) && ValidUtf8(s[2..])
    else if 0xE0 <= s[0] <= 0xEF then
      && Continues(s, 1, 3)
      && (s[0] == 0xE0 ==> s[1] >= 0xA0)
      && (s[0] == 0xED ==> s[1] <= 0x9F)
      && ValidUtf8(s[3..])
    else if 0xF0 <= s[0] <= 0xF4 then
      && Continues(s, 1, 4)
      && (s[0] == 0xF0 ==> s[1] >= 0x90)
      && (s[0] == 0xF4 ==> s[1] <= 0x8F)
      && ValidUtf8(s[4..])
    else false
  }

  /** The bytes of a Rust string. */
  type Str = s: seq<byte> | ValidUtf8(s)

  /** The bit pattern of an `f64`. */
  type F64 = n: nat | n < U64_LIMIT

  /** `Amf0Value`. Objects are maps without an order. */
  datatype Value =
    | Number(bits: F64)
    | Boolean(b: bool)
    | String(s: Str)
    | Object(fields: map<Str, Value>)
    | Null
    | Array(items: seq<Value>)

  const U16_LIMIT: nat := 0x1_0000
  const U32_LIMIT: nat := 0x1_0000_0000

  /** The values that fit the length fields of the format. */
  predicate Encodable(v: Value) {
    match v
    case String(s) => |s| < U32_LIMIT
    case Object(m) => forall k :: k in m ==> |k| < U16_LIMIT && Encodable(m[k])
    case Array(items) => |items| < U32_LIMIT && forall i :: 0 <= i < |items| ==> Encodable(items[i])
    case _ => true
  }

  /** A value in which every object has its entries in some order: the order in which the hash map
      happens to be walked when encoding, or the order of the bytes when decoding. */
  datatype Tree =
    | TNumber(bits: F64)
    | TBoolean(b: bool)
    | TString(s: Str)
    | TObject(entries: seq<Entry>)
    | TNull
    | TArray(items: seq<Tree>)
  datatype Entry = Entry(key: Str, value: Tree)

  /** Forgetting the order; as in `HashMap::insert`, the last of two entries with a key stays. */
  function ValueOf(t: Tree): Value {
    match t
    case TNumber(bits) => Number(bits)
    case TBoolean(b) => Boolean(b)
    case TString(s) => String(s)
    case TObject(entries) => Object(MapOf(entries))
    case TNull => Null
    case TArray(items) => Array(ValuesOf(items))
  }

  function MapOf(entries: seq<Entry>): map<Str, Value> {
    if entries == [] then map[]
    else
      var e := entries[|entries| - 1];
      MapOf(entries[..|entries| - 1])[e.key := ValueOf(e.value)]
  }

  function ValuesOf(items: seq<Tree>): (vs: seq<Value>)
    ensures |vs| == |items|
  {
    if items == [] then []
    else ValuesOf(items[..|items| - 1]) + [ValueOf(items[|items| - 1])]
  }

  predicate Fits(t: Tree) {
    match t
    case TString(s) => |s| < U32_LIMIT
    case TObject(entries) => forall i :: 0 <= i < |entries| ==> |entries[i].key| < U16_LIMIT && Fits(entries[i].value)
    case TArray(items) => |items| < U32_LIMIT && forall i :: 0 <= i < |items| ==> Fits(items[i])
    case _ => true
  }

  function StringBytes(s: Str): seq<byte> {
    if |s| < U16_LIMIT then [2] + BigEndian(|s|, 2) + s else [12] + BigEndian(|s|, 4) + s
  }

  const OBJECT_TRAILER: seq<byte> := [0, 0, 9]

  /** The encoding of a value whose entries are emitted in the order of `t`. */
  function Bytes(t: Tree): (bs: seq<byte>)
    ensures bs != [] && bs[0] != 9
  {
    match t
    case TNumber(bits) => [0] + BigEndian(bits, 8)
    case TBoolean(b) => [1, if b then 1 else 0]
    case TString(s) => StringBytes(s)
    case TObject(entries) => [3] + EntriesBytes(entries) + OBJECT_TRAILER
    case TNull => [5]
    case TArray(items) => [10] + BigEndian(|items|, 4) + ItemsBytes(items)
  }

  function KeyBytes(key: Str): seq<byte> {
    BigEndian(|key|, 2) + key
  }

  function EntriesBytes(entries: seq<Entry>): seq<byte> {
    if entries == [] then []
    else KeyBytes(entries[0].key) + Bytes(entries[0].value) + EntriesBytes(entries[1..])
  }

  function ItemsBytes(items: seq<Tree>): seq<byte> {
    if items == [] then [] else Bytes(items[0]) + ItemsBytes(items[1..])
  }

  lemma EntriesBytesCons(entries: seq<Entry>)
    requires entries != []
    ensures EntriesBytes(entries) ==
            KeyBytes(entries[0].key) + Bytes(entries[0].value) + EntriesBytes(entries[1..])
  {
    hide KeyBytes, Bytes;
  }

  lemma EntriesBytesOne(e: Entry)
    ensures EntriesBytes([e]) == KeyBytes(e.key) + Bytes(e.value)
  {
    hide KeyBytes, Bytes;
    assert [e][1..] == [];
  }

  lemma NoEntries()
    ensures EntriesBytes([]) == []
  {
  }

  lemma {:induction false} EntriesBytesExtend(entries: seq<Entry>, e: Entry)
    ensures EntriesBytes(entries + [e]) == EntriesBytes(entries) + KeyBytes(e.key) + Bytes(e.value)
  {
    hide EntriesBytes, KeyBytes, Bytes;
    if entries == [] {
      NoEntries();
      EntriesBytesOne(e);
      assert entries + [e] == [e];
    } else {
      var all := entries + [e];
      EntriesBytesExtend(entries[1..], e);
      assert all[0] == entries[0] && all[1..] == entries[1..] + [e];
      EntriesBytesCons(entries);
      EntriesBytesCons(all);
      var first := KeyBytes(entries[0].key) + Bytes(entries[0].value);
      ConcatAssoc(first, EntriesBytes(entries[1..]), KeyBytes(e.key));
      ConcatAssoc(first, EntriesBytes(entries[1..]) + KeyBytes(e.key), Bytes(e.value));
    }
  }

  lemma ItemsBytesCons(items: seq<Tree>)
    requires items != []
    ensures ItemsBytes(items) == Bytes(items[0]) + ItemsBytes(items[1..])
  {
    hide Bytes;
  }

  lemma ItemsBytesOne(t: Tree)
    ensures ItemsBytes([t]) == Bytes(t)
  {
    hide Bytes;
    assert [t][1..] == [];
  }

  lemma NoItems()
    ensures ItemsBytes([]) == []
  {
  }

  lemma {:induction false} ItemsBytesExtend(items: seq<Tree>, t: Tree)
    ensures ItemsBytes(items + [t]) == ItemsBytes(items) + Bytes(t)
  {
    hide ItemsBytes, Bytes;
    if items == [] {
      NoItems();
      ItemsBytesOne(t);
      assert items + [t] == [t];
    } else {
      var all := items + [t];
      ItemsBytesExtend(items[1..], t);
      assert all[0] == items[0] && all[1..] == items[1..] + [t];
      ItemsBytesCons(items);
      ItemsBytesCons(all);
      ConcatAssoc(Bytes(items[0]), ItemsBytes(items[1..]), Bytes(t));
    }
  }

  /** What announces each kind of value, by the code of its marker: null is not written as undefined,
      and a string is long only if its length does not fit 16 bits. */
  lemma FirstByte(t: Tree)
    ensures Bytes(t)[0] ==
            match t
            case TNumber(_) => 0x00
            case TBoolean(_) => 0x01
            case TString(s) => if |s| <= 0xFFFF then 0x02 else 0x0C
            case TObject(_) => 0x03
            case TNull => 0x05
            case TArray(_) => 0x0A
  {
    hide EntriesBytes, ItemsBytes, BigEndian;
  }

  /** The bytes behind it, with the lengths written out. */
  lemma PayloadBytes(t: Tree)
    requires Fits(t)
    ensures match t
            case TNumber(bits) => |Bytes(t)| == 9 && FromBigEndian(Bytes(t)[1..]) == bits
            case TBoolean(b) => Bytes(t)[1..] == [if b then 1 else 0]
            case TString(s) =>
              if |s| <= 0xFFFF then Bytes(t) == [2, |s| / 256, |s| % 256] + s
              else FromBigEndian(Bytes(t)[1..5]) == |s| && Bytes(t)[5..] == s
            case TObject(entries) => Bytes(t)[1..] == EntriesBytes(entries) + [0, 0, 9]
            case TNull => |Bytes(t)| == 1
            case TArray(items) => FromBigEndian(Bytes(t)[1..5]) == |items| && Bytes(t)[5..] == ItemsBytes(items)
  {
    hide EntriesBytes, ItemsBytes, Pow2, FromBigEndian, BigEndian;
    Pow2Of8();
    Pow2Of64();
    Pow2Add(8, 8);
    Pow2Add(16, 16);
    match t
    case TNumber(bits) => BigEndianRoundTrip(bits, 8);
    case TString(s) =>
      if |s| <= 0xFFFF {
        TwoBytes(|s|);
      } else {
        BigEndianRoundTrip(|s|, 4);
        LongStringParts(s);
      }
    case TObject(entries) => assert Bytes(t) == [3] + (EntriesBytes(entries) + OBJECT_TRAILER);
    case TArray(items) =>
      BigEndianRoundTrip(|items|, 4);
      assert Bytes(t)[1..5] == BigEndian(|items|, 4);
    case _ =>
  }

  lemma TwoBytes(n: nat)
    requires n <= 0xFFFF
    ensures BigEndian(n, 2) == [n / 256, n % 256]
  {
    assert BigEndian(n / 256, 1) == [n / 256 % 256];
  }

  lemma LongStringParts(s: Str)
    requires |s| > 0xFFFF
    ensures StringBytes(s)[1..5] == BigEndian(|s|, 4) && StringBytes(s)[5..] == s
  {
    hide BigEndian;
  }

  function Nodes(t: Tree): (n: nat)
    ensures n >= 1
  {
    match t
    case TObject(entries) => 1 + EntriesNodes(entries)
    case TArray(items) => 1 + ItemsNodes(items)
    case _ => 1
  }

  function EntriesNodes(entries: seq<Entry>): nat {
    if entries == [] then 0 else Nodes(entries[0].value) + EntriesNodes(entries[1..])
  }

  function ItemsNodes(items: seq<Tree>): nat {
    if items == [] then 0 else Nodes(items[0]) + ItemsNodes(items[1..])
  }
}
