/** The bit reader of crates/bytes-util/src/bit_read.rs over an in-memory cursor. */
module BitReading {
  import opened Wrappers
  import opened Bits

  datatype SeekFrom = Start(offset: nat) | End(delta: int) | Current(delta: int)

  /** Rust's `/` and `%` on signed integers truncate toward zero. */
  function TruncDiv8(n: int): int {
    if n >= 0 then n / 8 else -((-n) / 8)
  }

  function TruncMod8(n: int): int {
    n - 8 * TruncDiv8(n)
  }

  lemma TruncParts(n: int)
    ensures n == 8 * TruncDiv8(n) + TruncMod8(n) && -8 < TruncMod8(n) < 8
    ensures TruncMod8(n) < 0 ==> n < 0
    ensures TruncMod8(n) > 0 ==> n > 0
  {
  }

  /** The byte to move to and the bit offset in it, for any signed count. */
  lemma SeekLands(bitPos: nat, count: int)
    requires bitPos < 8
    ensures var n := bitPos + count;
            var back := if TruncMod8(n) < 0 then 1 else 0;
            && bitPos + count == 8 * (TruncDiv8(n) - back) + (8 + TruncMod8(n)) % 8
            && 0 <= (8 + TruncMod8(n)) % 8 < 8
  {
    hide TruncDiv8, TruncMod8;
    TruncParts(bitPos + count);
  }

  function CeilDiv8(n: nat): nat {
    (n + 7) / 8
  }

  lemma BytesBitsBit(bs: seq<byte>, i: nat, j: nat)
    requires i < |bs| && j < 8
    ensures BytesBits(bs)[8 * i + j] == BitOf(bs[i], j)
  {
    BytesBitsAt(bs, i);
    BitOfNatBits(bs[i], j);
    assert BytesBits(bs)[8 * i..8 * i + 8][j] == BytesBits(bs)[8 * i + j];
  }

  /** The number spelled by the `n` bits at `p`. */
  ghost function ValueAt(s: seq<bool>, p: nat, n: nat): nat {
    if p + n <= |s| then BitsValue(s[p..p + n]) else 0
  }

  /** `acc <<= 1; acc |= bit` in an accumulator of `width` bits, which drops what is shifted
      out, reads one more bit as long as at most `width` bits are read. */
  lemma ShiftIn(s: seq<bool>, p: nat, n: nat, width: nat)
    requires p + n < |s| && n < width
    ensures (ValueAt(s, p, n) * 2) % Pow2(width) + (if s[p + n] then 1 else 0) == ValueAt(s, p, n + 1)
    ensures ValueAt(s, p, n + 1) < Pow2(width)
  {
    var t := s[p..p + n + 1];
    var a := BitsValue(t[..n]);
    assert t[..n] == s[p..p + n];
    assert BitsValue(t) == 2 * a + if s[p + n] then 1 else 0;
    Pow2Monotone(n + 1, width);
    DivUnique(2 * a, Pow2(width), 0, 2 * a);
  }

  lemma ShiftInU64(s: seq<bool>, p: nat, n: nat)
    requires p + n < |s| && n < 64
    ensures (ValueAt(s, p, n) * 2) % U64_LIMIT + (if s[p + n] then 1 else 0) == ValueAt(s, p, n + 1)
  {
    Pow2Of64();
    ShiftIn(s, p, n, 64);
  }

  lemma ShiftInU8(s: seq<bool>, p: nat, n: nat)
    requires p + n < |s| && n < 8
    ensures (ValueAt(s, p, n) * 2) % 256 + (if s[p + n] then 1 else 0) == ValueAt(s, p, n + 1) < 256
  {
    assert Pow2(8) == 256;
    ShiftIn(s, p, n, 8);
  }

  class BitReader {
    const data: seq<byte>
    var pos: nat
    var bitPos: nat
    var currentByte: byte

    /** While a byte is partly read, the cursor stands behind it and a copy of it is kept. */
    ghost predicate Valid()
      reads this
    {
      bitPos < 8 && (bitPos != 0 ==> 0 < pos <= |data| && currentByte == data[pos - 1])
    }

    /** All bits of the underlying stream. */
    ghost function Stream(): (s: seq<bool>)
      ensures |s| == 8 * |data|
    {
      BytesBits(data)
    }

    /** The number of bits before the next bit to read. */
    ghost function Position(): nat
      reads this
      requires Valid()
    {
      if bitPos == 0 then 8 * pos else 8 * (pos - 1) + bitPos
    }

    /** The number of bits that are left to read. */
    ghost function Left(): nat
      reads this
      requires Valid()
    {
      if Position() <= |Stream()| then |Stream()| - Position() else 0
    }

    /** The bytes are the bits of the stream from `p` to the present position. */
    ghost predicate ReadSince(p: nat, bytes: seq<byte>)
      reads this
      requires Valid()
    {
      && Position() == p + 8 * |bytes|
      && (bytes != [] ==> Position() <= |Stream()| && BytesBits(bytes) == Stream()[p..Position()])
    }

    lemma ReadSinceExtend(p: nat, q: nat, before: seq<byte>, more: seq<byte>)
      requires Valid()
      requires q == p + 8 * |before|
      requires before != [] ==> q <= |Stream()| && BytesBits(before) == Stream()[p..q]
      requires ReadSince(q, more)
      ensures more != [] || q <= |Stream()| ==> ReadSince(p, before + more)
    {
      if more == [] {
        assert before + more == before;
      } else if before == [] {
        assert before + more == more;
      } else {
        BytesBitsConcat(before, more);
        JoinSlices(Stream(), p, q, Position());
      }
    }

    lemma JoinSlices(s: seq<bool>, a: nat, b: nat, c: nat)
      requires a <= b <= c <= |s|
      ensures s[a..b] + s[b..c] == s[a..c]
    {
    }

    constructor (data: seq<byte>)
      ensures Valid() && this.data == data && Position() == 0
    {
      this.data, this.pos, this.bitPos, this.currentByte := data, 0, 0, 0;
    }

    predicate IsAligned()
      reads this
      requires Valid()
      ensures IsAligned() <==> Position() % 8 == 0
    {
      bitPos == 0
    }

    /** Reads the next byte of the cursor into `currentByte`. */
    method UpdateByte() returns (r: Result<(), IoError>)
      modifies this`pos, this`currentByte
      ensures r == if old(pos) < |data| then Ok(()) else Err(UnexpectedEof)
      ensures r.Ok? ==> pos == old(pos) + 1 && currentByte == data[old(pos)]
      ensures r.Err? ==> pos == old(pos) && currentByte == old(currentByte)
    {
      if pos >= |data| {
        return Err(UnexpectedEof);
      }
      currentByte := data[pos];
      pos := pos + 1;
      return Ok(());
    }

    method ReadBit() returns (r: Result<bool, IoError>)
      requires Valid()
      modifies this
      ensures Valid()
      ensures r == if old(Position()) < |Stream()| then Ok(Stream()[old(Position())]) else Err(UnexpectedEof)
      ensures Position() == old(Position()) + if r.Ok? then 1 else 0
    {
      if IsAligned() {
        var _ :- UpdateByte();
      }
      var bit := BitOf(currentByte, bitPos);
      BytesBitsBit(data, pos - 1, bitPos);
      bitPos := (bitPos + 1) % 8;
      return Ok(bit);
    }

    /** Reads `count` bits, at most 64. Running out of bits consumes what was left. */
    method ReadBits(count: nat) returns (r: Result<nat, IoError>)
      requires Valid()
      modifies this
      ensures Valid()
      ensures var n := AtMost64(count);
              var p := old(Position());
              if p + n <= |Stream()| || n == 0 then
                && r == Ok(ValueAt(Stream(), p, n))
                && Position() == p + n
              else
                && r == Err(UnexpectedEof)
                && Position() == if p < |Stream()| then |Stream()| else p
    {
      var n := AtMost64(count);
      ghost var p := Position();
      var bits: nat := 0;
      for i := 0 to n
        invariant Valid() && Position() == p + i
        invariant i > 0 ==> p + i <= |Stream()|
        invariant bits == ValueAt(Stream(), p, i)
      {
        var bit :- ReadBit();
        ShiftInU64(Stream(), p, i);
        bits := (bits * 2) % U64_LIMIT + if bit then 1 else 0;
      }
      return Ok(bits);
    }

    /** Skips to the next byte boundary. */
    method Align()
      requires Valid()
      modifies this
      ensures Valid() && Position() == 8 * CeilDiv8(old(Position()))
    {
      bitPos := 0;
    }

    /** `io::Read::read` into `buf[from..]`: a plain read of the cursor when aligned, and
        otherwise one bit at a time. The unaligned path fails where the aligned one would
        return a short count. */
    method Read(buf: array<byte>, from: nat) returns (r: Result<nat, IoError>)
      requires Valid() && from <= buf.Length
      modifies this, buf
      ensures Valid()
      ensures r == var room, left := buf.Length - from, old(Left());
                   if old(IsAligned()) then Ok(if room < left / 8 then room else left / 8)
                   else if 8 * room <= left then Ok(room)
                   else Err(UnexpectedEof)
      ensures buf[..from] == old(buf[..from])
      ensures r.Ok? ==> forall i :: from + r.value <= i < buf.Length ==> buf[i] == old(buf[i])
      ensures r.Ok? ==> ReadSince(old(Position()), buf[from..from + r.value])
    {
      hide ReadSince;
      if IsAligned() {
        var n := ReadAligned(buf, from);
        return Ok(n);
      }
      r := ReadUnaligned(buf, from);
    }

    method ReadAligned(buf: array<byte>, from: nat) returns (n: nat)
      requires Valid() && from <= buf.Length && IsAligned()
      modifies this, buf
      ensures Valid()
      ensures n == var room, left := buf.Length - from, old(Left()); if room < left / 8 then room else left / 8
      ensures from + n <= buf.Length
      ensures buf[..from] == old(buf[..from])
      ensures forall i :: from + n <= i < buf.Length ==> buf[i] == old(buf[i])
      ensures ReadSince(old(Position()), buf[from..from + n])
    {
      hide BytesBits;
      var left := if pos <= |data| then |data| - pos else 0;
      n := if buf.Length - from < left then buf.Length - from else left;
      forall i | from <= i < from + n {
        buf[i] := data[pos + i - from];
      }
      if n > 0 {
        BytesBitsSlice(data, pos, pos + n);
        assert buf[from..from + n] == data[pos..pos + n];
      }
      pos := pos + n;
    }

    /** One byte of the unaligned path. */
    method ReadByteBits() returns (r: Result<byte, IoError>)
      requires Valid()
      modifies this
      ensures Valid()
      ensures r.Ok? <==> 8 <= old(Left())
      ensures r.Err? ==> r.error == UnexpectedEof
      ensures r.Ok? ==> ReadSince(old(Position()), [r.value])
    {
      hide NatBits;
      ghost var p := Position();
      var b: nat := 0;
      for i := 0 to 8
        invariant Valid() && Position() == p + i
        invariant i > 0 ==> p + i <= |Stream()|
        invariant b == ValueAt(Stream(), p, i) < 256
      {
        var bit :- ReadBit();
        ShiftInU8(Stream(), p, i);
        b := (b * 2) % 256 + if bit then 1 else 0;
      }
      assert BytesBits([b]) == Stream()[p..p + 8] by {
        NatBitsOfValue(Stream()[p..p + 8]);
        BytesBitsSingle(b);
      }
      return Ok(b);
    }

    method ReadUnaligned(buf: array<byte>, from: nat) returns (r: Result<nat, IoError>)
      requires Valid() && from <= buf.Length && !IsAligned()
      modifies this, buf
      ensures Valid()
      ensures r == if 8 * (buf.Length - from) <= old(Left()) then Ok(buf.Length - from) else Err(UnexpectedEof)
      ensures buf[..from] == old(buf[..from])
      ensures r.Ok? ==> ReadSince(old(Position()), buf[from..from + r.value])
    {
      ghost var p := Position();
      for i := from to buf.Length
        invariant Valid() && ReadSince(p, buf[from..i])
        invariant Position() <= |Stream()|
        invariant buf[..from] == old(buf[..from])
      {
        ghost var done, q := buf[from..i], Position();
        var b :- ReadByteBits();
        buf[i] := b;
        assert buf[from..i + 1] == done + [b];
        ReadSinceExtend(p, q, done, [b]);
      }
      return Ok(buf.Length - from);
    }

    /** `io::Read::read_exact`: reads until the buffer is full. */
    method ReadExact(buf: array<byte>) returns (r: Result<(), IoError>)
      requires Valid()
      modifies this, buf
      ensures Valid()
      ensures r == if 8 * buf.Length <= old(Left()) then Ok(()) else Err(UnexpectedEof)
      ensures r.Ok? ==> ReadSince(old(Position()), buf[..])
    {
      hide BytesBits;
      ghost var p := Position();
      var done := 0;
      while done < buf.Length
        invariant Valid() && done <= buf.Length
        invariant ReadSince(p, buf[..done])
        invariant 8 * done + Left() == old(Left())
      {
        ghost var before, q := buf[..done], Position();
        var n :- Read(buf, done);
        if n == 0 {
          return Err(UnexpectedEof);
        }
        assert buf[..done + n] == before + buf[done..done + n];
        ReadSinceExtend(p, q, before, buf[done..done + n]);
        done := done + n;
      }
      assert buf[..] == buf[..buf.Length];
      return Ok(());
    }

    /** `vec![0; n]` followed by `read_exact`. */
    method ReadBytes(n: nat) returns (r: Result<seq<byte>, IoError>)
      requires Valid()
      modifies this
      ensures Valid()
      ensures r.Ok? <==> 8 * n <= old(Left())
      ensures r.Err? ==> r.error == UnexpectedEof
      ensures r.Ok? ==> |r.value| == n && ReadSince(old(Position()), r.value)
    {
      var buf := new byte[n](_ => 0);
      var _ :- ReadExact(buf);
      return Ok(buf[..]);
    }

    /** `ReadBytesExt::read_u8/u16/u32/u48`, big-endian. */
    method ReadUint(width: nat) returns (r: Result<nat, IoError>)
      requires Valid()
      modifies this
      ensures Valid()
      ensures r == if 8 * width <= old(Left()) then Ok(ValueAt(Stream(), old(Position()), 8 * width))
                   else Err(UnexpectedEof)
      ensures r.Ok? ==> Position() == old(Position()) + 8 * width
    {
      var bytes :- ReadBytes(width);
      ValueOfBytesBits(bytes);
      return Ok(FromBigEndian(bytes));
    }

    /** `bit_stream_position`. */
    method BitStreamPosition() returns (p: nat)
      requires Valid()
      ensures p == Position()
    {
      p := pos * 8 + (if IsAligned() then 8 else bitPos) - 8;
    }

    /** Moves by `count` bits. The last postconditions say when that fails: before the start,
        leaving the reader as it was, or inside a byte that the stream does not have. */
    method SeekBits(count: int) returns (r: Result<nat, IoError>)
      requires Valid()
      modifies this
      ensures var target := old(Position()) + count;
              && (target < 0 ==>
                    r == Err(InvalidInput) && Valid() && Position() == old(Position()))
              && (target >= 0 && (count == 0 || target % 8 == 0 || target < |Stream()|) ==>
                    r == Ok(target) && Valid() && Position() == target)
              && (count != 0 && target % 8 != 0 && target >= |Stream()| ==>
                    r == Err(UnexpectedEof))
    {
      hide TruncDiv8, TruncMod8, BytesBits;
      if count == 0 {
        var p := BitStreamPosition();
        return Ok(p);
      }
      var n := bitPos + count;
      SeekLands(bitPos, count);
      var bitMove := TruncMod8(n);
      var byteMove := TruncDiv8(n);
      if !IsAligned() {
        byteMove := byteMove - 1;
      }
      if bitMove < 0 {
        byteMove := byteMove - 1;
      }
      if pos + byteMove < 0 {
        return Err(InvalidInput);
      }
      pos := pos + byteMove;
      var newPos := pos * 8;
      bitPos := (8 + bitMove) % 8;
      if bitPos != 0 {
        var _ :- UpdateByte();
        newPos := newPos + bitPos;
      }
      return Ok(newPos);
    }

    /** `io::Seek::seek`: relative moves of an unaligned reader keep the bit offset, every
        other move lands on a byte boundary. */
    method Seek(to: SeekFrom) returns (r: Result<nat, IoError>)
      requires Valid()
      modifies this
      ensures to.Current? && !old(IsAligned()) ==>
                var target := old(Position()) + 8 * to.delta;
                && (target < 0 ==> r == Err(InvalidInput) && Valid() && Position() == old(Position()))
                && (0 <= target < |Stream()| ==> r == Ok(CeilDiv8(target)) && Valid() && Position() == target)
      ensures to.Current? && !old(IsAligned()) && to.delta > 0 && old(Position()) + 8 * to.delta >= |Stream()| ==>
                r == Err(UnexpectedEof)
      ensures !(to.Current? && !old(IsAligned())) ==>
                var target := match to
                              case Start(n) => n
                              case End(d) => |data| + d
                              case Current(d) => old(pos) + d;
                Valid() && r == (if target < 0 then Err(InvalidInput) else Ok(target)) &&
                (r.Ok? ==> Position() == 8 * target)
    {
      if to.Current? && !IsAligned() {
        var p :- SeekBits(to.delta * 8);
        return Ok(CeilDiv8(p));
      }
      bitPos := 0;
      var target := match to
                    case Start(n) => n
                    case End(d) => |data| + d
                    case Current(d) => pos + d;
      if target < 0 {
        return Err(InvalidInput);
      }
      pos := target;
      return Ok(target);
    }
  }

  /** Seeking to a place inside the stream and back leaves the reader as it was, at every
      alignment. */
  method SeekThereAndBack(r: BitReader, count: int)
    requires r.Valid()
    requires var target := r.Position() + count;
             target >= 0 && (target % 8 == 0 || target < |r.Stream()|)
    modifies r
    ensures r.Valid()
    ensures r.pos == old(r.pos) && r.bitPos == old(r.bitPos)
    ensures r.bitPos != 0 ==> r.currentByte == old(r.currentByte)
  {
    var there := r.SeekBits(count);
    var back := r.SeekBits(-count);
  }

  /** Skipping `count` bits and reading them leave two readers of the same stream in the same
      state, whatever their alignment. */
  method SkipIsRead(skipper: BitReader, reader: BitReader, count: nat) returns (bits: seq<bool>)
    requires skipper != reader && skipper.Valid() && reader.Valid()
    requires skipper.data == reader.data && skipper.Position() == reader.Position()
    requires reader.Position() + count <= |reader.Stream()|
    modifies skipper, reader
    ensures skipper.Valid() && reader.Valid()
    ensures bits == reader.Stream()[old(reader.Position())..old(reader.Position()) + count]
    ensures skipper.pos == reader.pos && skipper.bitPos == reader.bitPos
    ensures skipper.bitPos != 0 ==> skipper.currentByte == reader.currentByte
  {
    hide BytesBits;
    ghost var s, p := reader.Stream(), reader.Position();
    bits := [];
    for i := 0 to count
      invariant skipper.Valid() && skipper.Position() == p
      invariant reader.Valid() && reader.Position() == p + i
      invariant bits == s[p..p + i]
    {
      var bit := reader.ReadBit();
      bits := bits + [bit.value];
    }
    var there := skipper.SeekBits(count);
  }
}
