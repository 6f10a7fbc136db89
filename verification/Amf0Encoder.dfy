/** The AMF0 encoder of crates/amf0/src/encoder.rs and `Amf0Value::encode`. */
module Amf0EncoderModel {
  import opened Wrappers
  import opened Bits
  import opened Amf0
  import opened Amf0RoundTrip
  import opened Amf0DecoderModel

  class Amf0Encoder {
    var writer: seq<byte>

    constructor (writer: seq<byte>)
      ensures this.writer == writer
    {
      this.writer := writer;
    }

    method EncodeBoolean(b: bool)
      modifies this
      ensures writer == old(writer) + Bytes(TBoolean(b))
    {
      writer := writer + [1];
      writer := writer + [if b then 1 else 0];
    }

    method EncodeNumber(bits: F64)
      modifies this
      ensures writer == old(writer) + Bytes(TNumber(bits))
    {
      writer := writer + [0];
      writer := writer + BigEndian(bits, 8);
    }

    method EncodeString(s: Str) returns (r: Result<(), Error>)
      modifies this
      ensures r == if |s| < U32_LIMIT then Ok(()) else Err(TooLong)
      ensures r.Ok? ==> writer == old(writer) + Bytes(TString(s))
    {
      hide BigEndian;
      var len := |s|;
      if len <= 0xFFFF {
        writer := writer + [2];
        writer := writer + BigEndian(len, 2);
        writer := writer + s;
      } else {
        if len >= U32_LIMIT {
          return Err(TooLong);
        }
        writer := writer + [12];
        writer := writer + BigEndian(len, 4);
        writer := writer + s;
      }
      return Ok(());
    }

    method EncodeNull()
      modifies this
      ensures writer == old(writer) + Bytes(TNull)
    {
      writer := writer + [5];
    }

    method EncodeObjectKey(key: Str) returns (r: Result<(), Error>)
      modifies this
      ensures r == if |key| < U16_LIMIT then Ok(()) else Err(TooLong)
      ensures r.Ok? ==> writer == old(writer) + KeyBytes(key)
    {
      hide BigEndian;
      if |key| >= U16_LIMIT {
        return Err(TooLong);
      }
      writer := writer + BigEndian(|key|, 2);
      writer := writer + key;
      return Ok(());
    }

    /** Encodes a value. The ghost result is the order in which the entries of the objects in it
        were visited. */
    method EncodeValue(v: Value) returns (r: Result<(), Error>, ghost t: Tree)
      modifies this
      ensures r == if Encodable(v) then Ok(()) else Err(TooLong)
      ensures r.Ok? ==> ValueOf(t) == v && Fits(t) && writer == old(writer) + Bytes(t)
      decreases v, 1
    {
      r, t := Ok(()), TNull;
      match v
      case Number(bits) => EncodeNumber(bits); t := TNumber(bits);
      case Boolean(b) => EncodeBoolean(b); t := TBoolean(b);
      case String(s) => r := EncodeString(s); t := TString(s);
      case Object(fields) =>
        ghost var entries;
        r, entries := EncodeObject(fields, v);
        t := TObject(entries);
      case Null => EncodeNull();
      case Array(items) =>
        ghost var trees;
        r, trees := EncodeArray(items, v);
        t := TArray(trees);
    }

    method EncodeArray(values: seq<Value>, ghost v: Value) returns (r: Result<(), Error>, ghost items: seq<Tree>)
      requires v == Array(values)
      modifies this
      ensures r == if Encodable(v) then Ok(()) else Err(TooLong)
      ensures r.Ok? ==> ValuesOf(items) == values && Fits(TArray(items))
      ensures r.Ok? ==> writer == old(writer) + Bytes(TArray(items))
      decreases v, 0
    {
      hide BigEndian, Bytes, ValueOf, ValuesOf, ItemsBytes, Encodable, Fits;
      items := [];
      ArrayFits(v);
      if |values| >= U32_LIMIT {
        return Err(TooLong), items;
      }
      writer := writer + [10];
      writer := writer + BigEndian(|values|, 4);
      ghost var header := writer;
      NoItems();
      ValuesOfNone();
      for i := 0 to |values|
        invariant |items| == i && ValuesOf(items) == values[..i]
        invariant forall j :: 0 <= j < i ==> Encodable(values[j]) && Fits(items[j])
        invariant writer == header + ItemsBytes(items)
      {
        ghost var t;
        r, t := EncodeValue(values[i]);
        if r.Err? {
          return;
        }
        ItemAppended(header, items, t, writer);
        ValuesOfExtend(items, t);
        items := items + [t];
      }
      ArrayBytes(items);
      TreesFit(items);
      return Ok(()), items;
    }

    /** Walks the map in any order. */
    method EncodeObject(fields: map<Str, Value>, ghost v: Value)
      returns (r: Result<(), Error>, ghost entries: seq<Entry>)
      requires v == Object(fields)
      modifies this
      ensures r == if Encodable(v) then Ok(()) else Err(TooLong)
      ensures r.Ok? ==> MapOf(entries) == fields && Fits(TObject(entries))
      ensures r.Ok? ==> writer == old(writer) + Bytes(TObject(entries))
      decreases v, 0
    {
      hide Bytes, EntriesBytes, KeyBytes, Walked, Encodable, Fits, MapOf, ValueOf, ValidUtf8;
      writer := writer + [3];
      ghost var header := writer;
      entries := [];
      NoEntries();
      WalkStart(fields);
      var left := fields.Keys;
      while left != {}
        invariant left <= fields.Keys
        invariant Walked(fields, left, entries)
        invariant writer == header + EntriesBytes(entries)
        decreases |left|
      {
        var key :| key in left;
        if Encodable(v) {
          EncodableField(fields, key);
        }
        r := EncodeObjectKey(key);
        if r.Err? {
          return;
        }
        ghost var t;
        r, t := EncodeValue(fields[key]);
        if r.Err? {
          return;
        }
        EntryAppended(header, entries, Entry(key, t), writer);
        WalkStep(fields, left, entries, key, t);
        entries := entries + [Entry(key, t)];
        left := left - {key};
      }
      writer := writer + [0, 0, 9];
      ObjectBytes(entries);
      WalkEnd(fields, entries);
      return Ok(()), entries;
    }
  }

  /** The entries are those of `fields` whose keys are no longer in `left`, in some order. */
  ghost predicate Walked(fields: map<Str, Value>, left: set<Str>, entries: seq<Entry>) {
    && MapOf(entries) == fields - left
    && (forall k :: k in fields && k !in left ==> |k| < U16_LIMIT && Encodable(fields[k]))
    && Fits(TObject(entries))
  }

  /** The header, the entries so far, and one more entry. */
  lemma EntryAppended(header: seq<byte>, entries: seq<Entry>, e: Entry, out: seq<byte>)
    requires out == header + EntriesBytes(entries) + KeyBytes(e.key) + Bytes(e.value)
    ensures out == header + EntriesBytes(entries + [e])
  {
    hide EntriesBytes, KeyBytes, Bytes;
    EntriesBytesExtend(entries, e);
    assert header + EntriesBytes(entries) + KeyBytes(e.key) + Bytes(e.value)
        == header + (EntriesBytes(entries) + KeyBytes(e.key) + Bytes(e.value));
  }

  lemma ItemAppended(header: seq<byte>, items: seq<Tree>, t: Tree, out: seq<byte>)
    requires out == header + ItemsBytes(items) + Bytes(t)
    ensures out == header + ItemsBytes(items + [t])
  {
    hide ItemsBytes, Bytes;
    ItemsBytesExtend(items, t);
    ConcatAssoc(header, ItemsBytes(items), Bytes(t));
  }

  lemma ArrayFits(v: Value)
    requires v.Array?
    ensures Encodable(v) <==>
              |v.items| < U32_LIMIT && forall i :: 0 <= i < |v.items| ==> Encodable(v.items[i])
  {
  }

  lemma TreesFit(items: seq<Tree>)
    requires |items| < U32_LIMIT && forall i :: 0 <= i < |items| ==> Fits(items[i])
    ensures Fits(TArray(items))
  {
  }

  lemma EncodableField(fields: map<Str, Value>, key: Str)
    requires key in fields && Encodable(Object(fields))
    ensures |key| < U16_LIMIT && Encodable(fields[key])
  {
  }

  lemma WalkStart(fields: map<Str, Value>)
    ensures Walked(fields, fields.Keys, [])
  {
  }

  lemma FitsExtend(entries: seq<Entry>, e: Entry)
    requires Fits(TObject(entries)) && |e.key| < U16_LIMIT && Fits(e.value)
    ensures Fits(TObject(entries + [e]))
  {
    hide ValidUtf8;
  }

  lemma WalkStep(fields: map<Str, Value>, left: set<Str>, entries: seq<Entry>, key: Str, t: Tree)
    requires Walked(fields, left, entries) && key in left && left <= fields.Keys
    requires |key| < U16_LIMIT && Encodable(fields[key]) && ValueOf(t) == fields[key] && Fits(t)
    ensures Walked(fields, left - {key}, entries + [Entry(key, t)])
  {
    hide MapOf, ValueOf, Encodable, Fits, ValidUtf8;
    MapOfExtend(entries, Entry(key, t));
    FitsExtend(entries, Entry(key, t));
    assert fields - (left - {key}) == (fields - left)[key := fields[key]];
  }

  lemma WalkEnd(fields: map<Str, Value>, entries: seq<Entry>)
    requires Walked(fields, {}, entries)
    ensures MapOf(entries) == fields && Fits(TObject(entries)) && Encodable(Object(fields))
  {
    assert fields - {} == fields;
  }

  lemma ArrayBytes(items: seq<Tree>)
    ensures Bytes(TArray(items)) == [10] + BigEndian(|items|, 4) + ItemsBytes(items)
  {
  }

  lemma ObjectBytes(entries: seq<Entry>)
    ensures Bytes(TObject(entries)) == [3] + EntriesBytes(entries) + OBJECT_TRAILER
  {
  }

  /** Encoding any value that fits the format, at the end of any bytes and with any bytes behind it,
      and decoding from where it starts: the value comes back, the bytes behind it are left over,
      and no marker is held back. Values that do not fit are refused. */
  method EncodeThenDecode(before: seq<byte>, v: Value, rest: seq<byte>)
    returns (encoded: Result<(), Error>, decoded: Result<Value, Error>, decoder: Amf0Decoder)
    ensures encoded == if Encodable(v) then Ok(()) else Err(TooLong)
    ensures encoded.Ok? ==> decoded == Ok(v)
    ensures encoded.Ok? ==> decoder.reader == rest && decoder.nextMarker == None
  {
    hide Bytes, ValueOf, Fits;
    var encoder := new Amf0Encoder(before);
    ghost var t;
    encoded, t := encoder.EncodeValue(v);
    if encoded.Err? {
      decoder := new Amf0Decoder([]);
      return encoded, Err(TooLong), decoder;
    }
    var bytes := encoder.writer[|before|..] + rest;
    assert encoder.writer[|before|..] == Bytes(t);
    DecodeOfBytes(t, rest);
    decoder := new Amf0Decoder(bytes);
    decoded := decoder.DecodeValue();
  }
}
