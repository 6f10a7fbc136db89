/** What the AMF0 decoder computes, as functions of its input: a marker that was read ahead, if
    any, and the bytes behind it. crates/amf0/src/decoder.rs. */
module Amf0Decoding {
  import opened Wrappers
  import opened Bits
  import opened Amf0

  datatype Input = Input(pending: Option<Marker>, bytes: seq<byte>) {
    /** The bytes that are still to be decoded, counting the one that was read ahead. */
    function Measure(): nat {
      |bytes| + if pending.Some? then 1 else 0
    }
  }

  type Decoded<T> = Result<(T, Input), Error>

  /** `try_read`, and the fixed-width reads of `byteorder`. They do not look at the marker that
      was read ahead. */
  function ReadBytes(i: Input, n: nat): (r: Decoded<seq<byte>>)
    ensures r.Ok? ==> r.value.1.Measure() == i.Measure() - n && |r.value.0| == n
  {
    if n > |i.bytes| then Err(Eof) else Ok((i.bytes[..n], i.(bytes := i.bytes[n..])))
  }

  function ReadUint(i: Input, width: nat): (r: Decoded<nat>)
    ensures r.Ok? ==> r.value.1.Measure() == i.Measure() - width && r.value.0 < Pow2(8 * width)
  {
    var (bytes, rest) :- ReadBytes(i, width);
    Ok((FromBigEndian(bytes), rest))
  }

  function ReadMarker(i: Input): (r: Decoded<Marker>)
    ensures r.Ok? ==> r.value.1.Measure() == i.Measure() - 1 && r.value.1.pending.None?
  {
    if i.pending.Some? then Ok((i.pending.value, i.(pending := None)))
    else if i.bytes == [] then Err(Eof)
    else
      match MarkerOf(i.bytes[0])
      case Some(m) => Ok((m, Input(None, i.bytes[1..])))
      case None => Err(UnknownMarker(i.bytes[0]))
  }

  function PeekMarker(i: Input): (r: Decoded<Marker>)
    ensures r.Ok? ==> r.value.1.Measure() == i.Measure() && r.value.1.pending == Some(r.value.0)
  {
    var (m, rest) :- ReadMarker(i);
    Ok((m, rest.(pending := Some(m))))
  }

  function HasRemaining(i: Input): (r: Decoded<bool>)
    ensures r.Ok? ==> r.value.1.Measure() == i.Measure()
  {
    match PeekMarker(i)
    case Ok((_, rest)) => Ok((true, rest))
    case Err(Eof) => Ok((false, i))
    case Err(e) => Err(e)
  }

  function ExpectMarker(i: Input, expected: seq<Marker>): (r: Decoded<Marker>)
    ensures r.Ok? ==> r.value.1.Measure() == i.Measure() - 1 && r.value.1.pending.None?
    ensures r.Ok? ==> r.value.0 in expected
  {
    var (m, rest) :- ReadMarker(i);
    if m in expected then Ok((m, rest)) else Err(UnexpectedType(expected, m))
  }

  function DecodeNumber(i: Input): (r: Decoded<F64>)
    ensures r.Ok? ==> r.value.1.Measure() < i.Measure()
  {
    var (m, afterMarker) :- ExpectMarker(i, [NumberMarker, DateMarker]);
    var (n, rest) :- ReadUint(afterMarker, 8);
    Pow2Of64();
    if m == DateMarker then
      var (_, rest) :- ReadBytes(rest, 2);
      Ok((n, rest))
    else Ok((n, rest))
  }

  function DecodeBoolean(i: Input): (r: Decoded<bool>)
    ensures r.Ok? ==> r.value.1.Measure() < i.Measure()
  {
    var (_, afterMarker) :- ExpectMarker(i, [BooleanMarker]);
    var (n, rest) :- ReadUint(afterMarker, 1);
    Ok((n != 0, rest))
  }

  function ReadStr(i: Input, lenWidth: nat): (r: Decoded<Str>)
    ensures r.Ok? ==> r.value.1.Measure() == i.Measure() - lenWidth - |r.value.0|
  {
    var (len, afterLen) :- ReadUint(i, lenWidth);
    var (bytes, rest) :- ReadBytes(afterLen, len);
    if ValidUtf8(bytes) then Ok((bytes, rest)) else Err(StringParse)
  }

  /** Keys and class names: no marker, a 16-bit length. */
  function DecodeNormalString(i: Input): (r: Decoded<Str>)
    ensures r.Ok? ==> r.value.1.Measure() <= i.Measure() - 2
  {
    ReadStr(i, 2)
  }

  function DecodeString(i: Input): (r: Decoded<Str>)
    ensures r.Ok? ==> r.value.1.Measure() < i.Measure()
  {
    var (m, afterMarker) :- ExpectMarker(i, [StringMarker, LongStringMarker, XmlDocumentMarker]);
    ReadStr(afterMarker, if m == StringMarker then 2 else 4)
  }

  function DecodeNull(i: Input): (r: Decoded<()>)
    ensures r.Ok? ==> r.value.1.Measure() < i.Measure()
  {
    var (_, rest) :- ExpectMarker(i, [NullMarker, UndefinedMarker]);
    Ok(((), rest))
  }

  datatype ObjectHeader = PlainObject | TypedObject(name: Str) | EcmaArray(size: nat)

  function DecodeObjectHeader(i: Input): (r: Decoded<ObjectHeader>)
    ensures r.Ok? ==> r.value.1.Measure() < i.Measure()
  {
    var (m, afterMarker) :- ExpectMarker(i, [ObjectMarker, TypedObjectMarker, EcmaArrayMarker]);
    if m == ObjectMarker then Ok((PlainObject, afterMarker))
    else if m == TypedObjectMarker then
      var (name, rest) :- DecodeNormalString(afterMarker);
      Ok((TypedObject(name), rest))
    else
      var (size, rest) :- ReadUint(afterMarker, 4);
      Ok((EcmaArray(size), rest))
  }

  /** The next key, or nothing at the end of the object. */
  function DecodeObjectKey(i: Input): (r: Decoded<Option<Str>>)
    ensures r.Ok? ==> r.value.1.Measure() < i.Measure()
  {
    var (key, afterKey) :- DecodeNormalString(i);
    if key == [] then
      var (m, peeked) :- PeekMarker(afterKey);
      if m == ObjectEndMarker then Ok((None, peeked.(pending := None))) else Ok((Some(key), peeked))
    else Ok((Some(key), afterKey))
  }

  /** One value. A decoded value never has more nodes than bytes were consumed for it; hence the
      recursion ends on every input. */
  function DecodeValue(i: Input): (r: Decoded<Tree>)
    ensures r.Ok? ==> Nodes(r.value.0) + r.value.1.Measure() <= i.Measure()
    decreases i.Measure(), 3
  {
    var (m, peeked) :- PeekMarker(i);
    match m
    case BooleanMarker =>
      var (b, rest) :- DecodeBoolean(peeked);
      Ok((TBoolean(b), rest))
    case NumberMarker | DateMarker =>
      var (n, rest) :- DecodeNumber(peeked);
      Ok((TNumber(n), rest))
    case StringMarker | LongStringMarker | XmlDocumentMarker =>
      var (s, rest) :- DecodeString(peeked);
      Ok((TString(s), rest))
    case NullMarker | UndefinedMarker =>
      (match DecodeNull(peeked)
       case Ok((_, rest)) => Ok((TNull, rest))
       case Err(e) => Err(e))
    case ObjectMarker | TypedObjectMarker | EcmaArrayMarker =>
      var (entries, rest) :- DecodeObject(peeked);
      Ok((TObject(entries), rest))
    case StrictArrayMarker =>
      var (items, rest) :- DecodeStrictArray(peeked);
      Ok((TArray(items), rest))
    case _ => Err(NotSupported(m))
  }

  function DecodeObject(i: Input): (r: Decoded<seq<Entry>>)
    ensures r.Ok? ==> 1 + EntriesNodes(r.value.0) + r.value.1.Measure() <= i.Measure()
    decreases i.Measure(), 2
  {
    var (header, afterHeader) :- DecodeObjectHeader(i);
    match header
    case EcmaArray(size) =>
      var (entries, afterEntries) :- DecodeEcmaEntries(afterHeader, size);
      var (more, probed) :- HasRemaining(afterEntries);
      if more && probed.pending == Some(ObjectEndMarker)
      then Ok((entries, probed.(pending := None)))
      else Ok((entries, probed))
    case _ => DecodeEntries(afterHeader)
  }

  function DecodeEntries(i: Input): (r: Decoded<seq<Entry>>)
    ensures r.Ok? ==> EntriesNodes(r.value.0) + r.value.1.Measure() <= i.Measure()
    decreases i.Measure(), 1
  {
    var (key, afterKey) :- DecodeObjectKey(i);
    if key.None? then Ok(([], afterKey))
    else
      var (t, afterValue) :- DecodeValue(afterKey);
      var (entries, rest) :- DecodeEntries(afterValue);
      Ok(([Entry(key.value, t)] + entries, rest))
  }

  function DecodeEcmaEntries(i: Input, size: nat): (r: Decoded<seq<Entry>>)
    ensures r.Ok? ==> EntriesNodes(r.value.0) + r.value.1.Measure() <= i.Measure()
    decreases i.Measure(), 1
  {
    if size == 0 then Ok(([], i))
    else
      var (key, afterKey) :- DecodeNormalString(i);
      var (t, afterValue) :- DecodeValue(afterKey);
      var (entries, rest) :- DecodeEcmaEntries(afterValue, size - 1);
      Ok(([Entry(key, t)] + entries, rest))
  }

  function DecodeStrictArrayHeader(i: Input): (r: Decoded<nat>)
    ensures r.Ok? ==> r.value.1.Measure() < i.Measure()
  {
    var (_, afterMarker) :- ExpectMarker(i, [StrictArrayMarker]);
    ReadUint(afterMarker, 4)
  }

  function DecodeStrictArray(i: Input): (r: Decoded<seq<Tree>>)
    ensures r.Ok? ==> 1 + ItemsNodes(r.value.0) + r.value.1.Measure() <= i.Measure()
    decreases i.Measure(), 2
  {
    var (size, afterHeader) :- DecodeStrictArrayHeader(i);
    DecodeItems(afterHeader, size)
  }

  function DecodeItems(i: Input, size: nat): (r: Decoded<seq<Tree>>)
    ensures r.Ok? ==> ItemsNodes(r.value.0) + r.value.1.Measure() <= i.Measure()
    decreases i.Measure(), size + 3
  {
    if size == 0 then Ok(([], i))
    else
      var (t, afterItem) :- DecodeValue(i);
      var (items, rest) :- DecodeItems(afterItem, size - 1);
      Ok(([t] + items, rest))
  }

  /** All values up to the end of the input. */
  function DecodeAll(i: Input): (r: Decoded<seq<Tree>>)
    ensures r.Ok? ==> ItemsNodes(r.value.0) + r.value.1.Measure() <= i.Measure()
    decreases i.Measure()
  {
    var (more, peeked) :- HasRemaining(i);
    if !more then Ok(([], peeked))
    else
      var (t, afterValue) :- DecodeValue(peeked);
      var (items, rest) :- DecodeAll(afterValue);
      Ok(([t] + items, rest))
  }
}
