/** The AMF0 decoder of crates/amf0/src/decoder.rs, an object that consumes its reader and may
    hold one marker that it read ahead. */
module Amf0DecoderModel {
  import opened Wrappers
  import opened Bits
  import opened Amf0
  import D = Amf0Decoding

  class Amf0Decoder {
    var reader: seq<byte>
    var nextMarker: Option<Marker>

    ghost function State(): D.Input
      reads this
    {
      D.Input(nextMarker, reader)
    }

    constructor (bytes: seq<byte>)
      ensures State() == D.Input(None, bytes)
    {
      reader, nextMarker := bytes, None;
    }

    method TryRead(n: nat) returns (r: Result<seq<byte>, Error>)
      modifies this
      ensures match D.ReadBytes(old(State()), n)
              case Ok((bytes, rest)) => r == Ok(bytes) && State() == rest
              case Err(e) => r == Err(e)
    {
      if n > |reader| {
        return Err(Eof);
      }
      r := Ok(reader[..n]);
      reader := reader[n..];
    }

    method ReadUint(width: nat) returns (r: Result<nat, Error>)
      modifies this
      ensures match D.ReadUint(old(State()), width)
              case Ok((n, rest)) => r == Ok(n) && State() == rest
              case Err(e) => r == Err(e)
    {
      var bytes :- TryRead(width);
      return Ok(FromBigEndian(bytes));
    }

    method ReadMarker() returns (r: Result<Marker, Error>)
      modifies this
      ensures match D.ReadMarker(old(State()))
              case Ok((m, rest)) => r == Ok(m) && State() == rest
              case Err(e) => r == Err(e) && (e == Eof ==> State() == old(State()))
    {
      if nextMarker.Some? {
        r := Ok(nextMarker.value);
        nextMarker := None;
        return;
      }
      if reader == [] {
        return Err(Eof);
      }
      var code := reader[0];
      reader := reader[1..];
      match MarkerOf(code)
      case Some(m) => return Ok(m);
      case None => return Err(UnknownMarker(code));
    }

    method PeekMarker() returns (r: Result<Marker, Error>)
      modifies this
      ensures match D.PeekMarker(old(State()))
              case Ok((m, rest)) => r == Ok(m) && State() == rest
              case Err(e) => r == Err(e) && (e == Eof ==> State() == old(State()))
    {
      var m :- ReadMarker();
      nextMarker := Some(m);
      return Ok(m);
    }

    method HasRemaining() returns (r: Result<bool, Error>)
      modifies this
      ensures match D.HasRemaining(old(State()))
              case Ok((more, rest)) => r == Ok(more) && State() == rest
              case Err(e) => r == Err(e)
    {
      var peeked := PeekMarker();
      match peeked
      case Ok(_) => return Ok(true);
      case Err(Eof) => return Ok(false);
      case Err(e) => return Err(e);
    }

    method ExpectMarker(expected: seq<Marker>) returns (r: Result<Marker, Error>)
      modifies this
      ensures match D.ExpectMarker(old(State()), expected)
              case Ok((m, rest)) => r == Ok(m) && State() == rest
              case Err(e) => r == Err(e)
    {
      var m :- ReadMarker();
      if m !in expected {
        return Err(UnexpectedType(expected, m));
      }
      return Ok(m);
    }

    method DecodeNumber() returns (r: Result<F64, Error>)
      modifies this
      ensures match D.DecodeNumber(old(State()))
              case Ok((n, rest)) => r == Ok(n) && State() == rest
              case Err(e) => r == Err(e)
    {
      var m :- ExpectMarker([NumberMarker, DateMarker]);
      var n :- ReadUint(8);
      Pow2Of64();
      if m == DateMarker {
        var _ :- TryRead(2);
      }
      return Ok(n);
    }

    method DecodeBoolean() returns (r: Result<bool, Error>)
      modifies this
      ensures match D.DecodeBoolean(old(State()))
              case Ok((b, rest)) => r == Ok(b) && State() == rest
              case Err(e) => r == Err(e)
    {
      var _ :- ExpectMarker([BooleanMarker]);
      var n :- ReadUint(1);
      return Ok(n != 0);
    }

    method ReadStr(lenWidth: nat) returns (r: Result<Str, Error>)
      modifies this
      ensures match D.ReadStr(old(State()), lenWidth)
              case Ok((s, rest)) => r == Ok(s) && State() == rest
              case Err(e) => r == Err(e)
    {
      var len :- ReadUint(lenWidth);
      var bytes :- TryRead(len);
      if !ValidUtf8(bytes) {
        return Err(StringParse);
      }
      return Ok(bytes);
    }

    method DecodeString() returns (r: Result<Str, Error>)
      modifies this
      ensures match D.DecodeString(old(State()))
              case Ok((s, rest)) => r == Ok(s) && State() == rest
              case Err(e) => r == Err(e)
    {
      var m :- ExpectMarker([StringMarker, LongStringMarker, XmlDocumentMarker]);
      r := ReadStr(if m == StringMarker then 2 else 4);
    }

    method DecodeNull() returns (r: Result<(), Error>)
      modifies this
      ensures match D.DecodeNull(old(State()))
              case Ok((_, rest)) => r == Ok(()) && State() == rest
              case Err(e) => r == Err(e)
    {
      var _ :- ExpectMarker([NullMarker, UndefinedMarker]);
      return Ok(());
    }

    method DecodeObjectHeader() returns (r: Result<D.ObjectHeader, Error>)
      modifies this
      ensures match D.DecodeObjectHeader(old(State()))
              case Ok((h, rest)) => r == Ok(h) && State() == rest
              case Err(e) => r == Err(e)
    {
      var m :- ExpectMarker([ObjectMarker, TypedObjectMarker, EcmaArrayMarker]);
      if m == ObjectMarker {
        return Ok(D.PlainObject);
      } else if m == TypedObjectMarker {
        var name :- ReadStr(2);
        return Ok(D.TypedObject(name));
      } else {
        var size :- ReadUint(4);
        return Ok(D.EcmaArray(size));
      }
    }

    method DecodeObjectKey() returns (r: Result<Option<Str>, Error>)
      modifies this
      ensures match D.DecodeObjectKey(old(State()))
              case Ok((key, rest)) => r == Ok(key) && State() == rest
              case Err(e) => r == Err(e)
    {
      var key :- ReadStr(2);
      if key == [] {
        var m :- PeekMarker();
        if m == ObjectEndMarker {
          nextMarker := None;
          return Ok(None);
        }
      }
      return Ok(Some(key));
    }

    method DecodeValue() returns (r: Result<Value, Error>)
      modifies this
      ensures match D.DecodeValue(old(State()))
              case Ok((t, rest)) => r == Ok(ValueOf(t)) && State() == rest
              case Err(e) => r == Err(e)
      decreases State().Measure(), 3
    {
      hide D.DecodeNumber, D.DecodeBoolean, D.DecodeString, D.DecodeNull, D.DecodeObject, D.DecodeStrictArray;
      var marker :- PeekMarker();
      match marker
      case BooleanMarker =>
        var b :- DecodeBoolean();
        return Ok(Boolean(b));
      case NumberMarker | DateMarker =>
        var n :- DecodeNumber();
        return Ok(Number(n));
      case StringMarker | LongStringMarker | XmlDocumentMarker =>
        var s :- DecodeString();
        return Ok(String(s));
      case NullMarker | UndefinedMarker =>
        var _ :- DecodeNull();
        return Ok(Null);
      case ObjectMarker | TypedObjectMarker | EcmaArrayMarker =>
        var fields :- DecodeObject();
        return Ok(Object(fields));
      case StrictArrayMarker =>
        var items :- DecodeStrictArray();
        return Ok(Array(items));
      case _ => return Err(NotSupported(marker));
    }

    method DecodeObject() returns (r: Result<map<Str, Value>, Error>)
      modifies this
      ensures match D.DecodeObject(old(State()))
              case Ok((entries, rest)) => r == Ok(MapOf(entries)) && State() == rest
              case Err(e) => r == Err(e)
      decreases State().Measure(), 2
    {
      hide D.DecodeEntries, D.DecodeEcmaEntries;
      var header :- DecodeObjectHeader();
      match header
      case EcmaArray(size) =>
        var fields :- DecodeEcmaEntries(size);
        var more :- HasRemaining();
        if more {
          var peeked := PeekMarker();
          if peeked == Ok(ObjectEndMarker) {
            nextMarker := None;
          }
        }
        return Ok(fields);
      case _ =>
        r := DecodeEntries();
    }

    /** The `while let` loop of `decode_object`. */
    method DecodeEntries() returns (r: Result<map<Str, Value>, Error>)
      modifies this
      ensures match D.DecodeEntries(old(State()))
              case Ok((entries, rest)) => r == Ok(MapOf(entries)) && State() == rest
              case Err(e) => r == Err(e)
      decreases State().Measure(), 1
    {
      hide D.DecodeObjectKey, D.DecodeValue, D.DecodeEntries, MapOf, ValueOf;
      ghost var start := State();
      ghost var done: seq<Entry> := [];
      var fields := map[];
      var more := true;
      MapOfNone();
      assert forall xs: seq<Entry> :: [] + xs == xs;
      while more
        invariant fields == MapOf(done)
        invariant if more then Resume(done, State()) == D.DecodeEntries(start)
                  else D.DecodeEntries(start) == Ok((done, State()))
        invariant State().Measure() <= start.Measure()
        decreases more, State().Measure()
      {
        ResumeStep(done, State());
        var key :- DecodeObjectKey();
        match key {
          case None => more := false;
          case Some(k) =>
            ghost var before := State();
            var value :- DecodeValue();
            ghost var e := Entry(k, D.DecodeValue(before).value.0);
            MapOfExtend(done, e);
            fields := fields[k := value];
            done := done + [e];
        }
      }
      return Ok(fields);
    }

    /** The `for` loop of `decode_object` for ECMA arrays. */
    method DecodeEcmaEntries(size: nat) returns (r: Result<map<Str, Value>, Error>)
      modifies this
      ensures match D.DecodeEcmaEntries(old(State()), size)
              case Ok((entries, rest)) => r == Ok(MapOf(entries)) && State() == rest
              case Err(e) => r == Err(e)
      decreases State().Measure(), 1
    {
      hide D.DecodeNormalString, D.DecodeValue, D.DecodeEcmaEntries, MapOf, ValueOf;
      ghost var start := State();
      ghost var done: seq<Entry> := [];
      var fields := map[];
      MapOfNone();
      assert forall xs: seq<Entry> :: [] + xs == xs;
      for i := 0 to size
        invariant fields == MapOf(done)
        invariant ResumeEcma(done, State(), size - i) == D.DecodeEcmaEntries(start, size)
        invariant State().Measure() <= start.Measure()
      {
        ResumeEcmaStep(done, State(), size - i);
        var k :- DecodeNormalString();
        ghost var before := State();
        var value :- DecodeValue();
        ghost var e := Entry(k, D.DecodeValue(before).value.0);
        MapOfExtend(done, e);
        fields := fields[k := value];
        done := done + [e];
      }
      ResumeEcmaStep(done, State(), 0);
      return Ok(fields);
    }

    method DecodeNormalString() returns (r: Result<Str, Error>)
      modifies this
      ensures match D.DecodeNormalString(old(State()))
              case Ok((s, rest)) => r == Ok(s) && State() == rest
              case Err(e) => r == Err(e)
    {
      r := ReadStr(2);
    }

    method DecodeStrictArray() returns (r: Result<seq<Value>, Error>)
      modifies this
      ensures match D.DecodeStrictArray(old(State()))
              case Ok((items, rest)) => r == Ok(ValuesOf(items)) && State() == rest
              case Err(e) => r == Err(e)
      decreases State().Measure(), 2
    {
      hide D.DecodeValue, D.DecodeItems, ValuesOf, ValueOf;
      var _ :- ExpectMarker([StrictArrayMarker]);
      var size :- ReadUint(4);
      ghost var start := State();
      ghost var done: seq<Tree> := [];
      var values := [];
      ValuesOfNone();
      assert forall xs: seq<Tree> :: [] + xs == xs;
      for i := 0 to size
        invariant values == ValuesOf(done)
        invariant ResumeItems(done, State(), size - i) == D.DecodeItems(start, size)
        invariant State().Measure() <= start.Measure()
      {
        ghost var before := State();
        ResumeItemsStep(done, before, size - i);
        var value :- DecodeValue();
        ghost var t := D.DecodeValue(before).value.0;
        ValuesOfExtend(done, t);
        values := values + [value];
        done := done + [t];
      }
      ResumeItemsStep(done, State(), 0);
      return Ok(values);
    }

    method DecodeAll() returns (r: Result<seq<Value>, Error>)
      modifies this
      ensures match D.DecodeAll(old(State()))
              case Ok((items, rest)) => r == Ok(ValuesOf(items)) && State() == rest
              case Err(e) => r == Err(e)
    {
      hide D.HasRemaining, D.DecodeValue, D.DecodeAll, ValuesOf, ValueOf;
      ghost var start := State();
      ghost var done: seq<Tree> := [];
      var values := [];
      var more := true;
      ValuesOfNone();
      assert forall xs: seq<Tree> :: [] + xs == xs;
      while more
        invariant values == ValuesOf(done)
        invariant if more then ResumeAll(done, State()) == D.DecodeAll(start)
                  else D.DecodeAll(start) == Ok((done, State()))
        decreases more, State().Measure()
      {
        ResumeAllStep(done, State());
        more :- HasRemaining();
        if more {
          ghost var before := State();
          var value :- DecodeValue();
          ghost var t := D.DecodeValue(before).value.0;
          ValuesOfExtend(done, t);
          values := values + [value];
          done := done + [t];
        }
      }
      return Ok(values);
    }
  }

  lemma MapOfNone()
    ensures MapOf([]) == map[]
  {
  }

  lemma MapOfExtend(entries: seq<Entry>, e: Entry)
    ensures MapOf(entries + [e]) == MapOf(entries)[e.key := ValueOf(e.value)]
  {
    var all := entries + [e];
    assert all[..|all| - 1] == entries && all[|all| - 1] == e;
  }

  lemma ValuesOfNone()
    ensures ValuesOf([]) == []
  {
  }

  lemma ValuesOfExtend(items: seq<Tree>, t: Tree)
    ensures ValuesOf(items + [t]) == ValuesOf(items) + [ValueOf(t)]
  {
    var all := items + [t];
    assert all[..|all| - 1] == items && all[|all| - 1] == t;
  }

  /** What a loop that has gathered `done` still has to produce. */
  ghost function Prepend<T>(done: seq<T>, r: D.Decoded<seq<T>>): D.Decoded<seq<T>> {
    match r
    case Ok((more, rest)) => Ok((done + more, rest))
    case Err(e) => Err(e)
  }

  ghost function Resume(done: seq<Entry>, i: D.Input): D.Decoded<seq<Entry>> {
    Prepend(done, D.DecodeEntries(i))
  }

  lemma ResumeStep(done: seq<Entry>, i: D.Input)
    ensures Resume(done, i) ==
            match D.DecodeObjectKey(i)
            case Err(e) => Err(e)
            case Ok((None, rest)) => Ok((done, rest))
            case Ok((Some(key), afterKey)) =>
              match D.DecodeValue(afterKey)
              case Err(e) => Err(e)
              case Ok((t, rest)) => Resume(done + [Entry(key, t)], rest)
  {
    hide D.DecodeObjectKey, D.DecodeValue;
    PrependCons(done);
  }

  ghost function ResumeEcma(done: seq<Entry>, i: D.Input, size: nat): D.Decoded<seq<Entry>> {
    Prepend(done, D.DecodeEcmaEntries(i, size))
  }

  lemma ResumeEcmaStep(done: seq<Entry>, i: D.Input, size: nat)
    ensures ResumeEcma(done, i, size) ==
            if size == 0 then Ok((done, i))
            else
              match D.DecodeNormalString(i)
              case Err(e) => Err(e)
              case Ok((key, afterKey)) =>
                match D.DecodeValue(afterKey)
                case Err(e) => Err(e)
                case Ok((t, rest)) => ResumeEcma(done + [Entry(key, t)], rest, size - 1)
  {
    hide D.DecodeNormalString, D.DecodeValue;
    PrependCons(done);
  }

  ghost function ResumeItems(done: seq<Tree>, i: D.Input, size: nat): D.Decoded<seq<Tree>> {
    Prepend(done, D.DecodeItems(i, size))
  }

  lemma ResumeItemsStep(done: seq<Tree>, i: D.Input, size: nat)
    ensures ResumeItems(done, i, size) ==
            if size == 0 then Ok((done, i))
            else
              match D.DecodeValue(i)
              case Err(e) => Err(e)
              case Ok((t, rest)) => ResumeItems(done + [t], rest, size - 1)
  {
    hide D.DecodeValue;
    PrependCons(done);
  }

  ghost function ResumeAll(done: seq<Tree>, i: D.Input): D.Decoded<seq<Tree>> {
    Prepend(done, D.DecodeAll(i))
  }

  lemma ResumeAllStep(done: seq<Tree>, i: D.Input)
    ensures ResumeAll(done, i) ==
            match D.HasRemaining(i)
            case Err(e) => Err(e)
            case Ok((false, rest)) => Ok((done, rest))
            case Ok((true, peeked)) =>
              match D.DecodeValue(peeked)
              case Err(e) => Err(e)
              case Ok((t, rest)) => ResumeAll(done + [t], rest)
  {
    hide D.HasRemaining, D.DecodeValue;
    PrependCons(done);
  }

  lemma PrependCons<T(!new)>(done: seq<T>)
    ensures done + [] == done
    ensures forall x: T, xs: seq<T> {:trigger done + ([x] + xs)} :: done + ([x] + xs) == done + [x] + xs
  {
  }
}
