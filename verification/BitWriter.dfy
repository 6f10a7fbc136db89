/** The bit writer of crates/bytes-util/src/bit_write.rs over an in-memory byte vector. */
module BitWriting {
  import opened Wrappers
  import opened Bits

  /** `b |= 1 << (7 - pos)`, or `b &= !(1 << (7 - pos))` for a zero bit. */
  function PutBit(b: byte, pos: nat, bit: bool): (r: int)
    requires pos < 8
  {
    if bit && !BitOf(b, pos) then b + Pow2(7 - pos)
    else if !bit && BitOf(b, pos) then b - Pow2(7 - pos)
    else b
  }

  lemma PutBitBits(b: byte, pos: nat, bit: bool)
    requires pos < 8
    ensures 0 <= PutBit(b, pos, bit) < 256
    ensures NatBits(PutBit(b, pos, bit), 8) == NatBits(b, 8)[pos := bit]
  {
    var s := NatBits(b, 8);
    var t := s[pos := bit];
    BitOfNatBits(b, pos);
    assert BitsValue(s) == b by {
      assert Pow2(8) == 256;
      ValueOfNatBits(b, 8);
    }
    assert BitsValue(t) == PutBit(b, pos, bit) by {
      ValueOfUpdate(s, pos, bit);
    }
    assert BitsValue(t) < 256 by {
      assert Pow2(8) == 256;
    }
    NatBitsOfValue(t);
  }

  /** The zero bits that bring a stream of `n` bits to a byte boundary. */
  function Padding(n: nat): seq<bool> {
    Zeros((8 - n % 8) % 8)
  }

  class BitWriter {
    var bitPos: nat
    var currentByte: byte
    var writer: seq<byte>

    ghost predicate Valid()
      reads this
    {
      bitPos < 8
    }

    /** Everything written so far: the flushed bytes, then the bits of the partial byte. */
    ghost function Written(): (s: seq<bool>)
      reads this
      requires Valid()
      ensures |s| == 8 * |writer| + bitPos
    {
      BytesBits(writer) + NatBits(currentByte, 8)[..bitPos]
    }

    constructor (writer: seq<byte>)
      ensures Valid() && Written() == BytesBits(writer)
    {
      this.bitPos, this.currentByte, this.writer := 0, 0, writer;
      new;
      assert NatBits(currentByte, 8)[..bitPos] == [];
    }

    predicate IsAligned()
      reads this
      requires Valid()
      ensures IsAligned() <==> |Written()| % 8 == 0
    {
      bitPos % 8 == 0
    }

    method WriteBit(bit: bool)
      requires Valid()
      modifies this
      ensures Valid() && Written() == old(Written()) + [bit]
    {
      hide NatBits, BytesBits;
      ghost var before := Written();
      PutBitBits(currentByte, bitPos, bit);
      currentByte := PutBit(currentByte, bitPos, bit);
      ghost var bits := NatBits(currentByte, 8);
      assert bits[..bitPos + 1] == old(NatBits(currentByte, 8))[..bitPos] + [bit];
      bitPos := bitPos + 1;
      if bitPos == 8 {
        assert bits[..8] == bits;
        BytesBitsConcat(writer, [currentByte]);
        BytesBitsSingle(currentByte);
        writer := writer + [currentByte];
        currentByte := 0;
        bitPos := 0;
        assert BytesBits(writer) == before + [bit];
        assert NatBits(currentByte, 8)[..bitPos] == [];
      }
    }

    /** Writes the low `count` bits (at most 64) of `bits`; refuses a value that needs more. */
    method WriteBits(bits: nat, count: nat) returns (r: Result<(), IoError>)
      requires Valid() && bits < U64_LIMIT
      modifies this
      ensures Valid()
      ensures r == if bits < Pow2(AtMost64(count)) then Ok(()) else Err(InvalidData)
      ensures Written() == old(Written()) + if r.Ok? then NatBits(bits, AtMost64(count)) else []
    {
      hide NatBits, BytesBits, Pow2;
      var n := AtMost64(count);
      Pow2Of64();
      if n != 64 && bits > Pow2(n) - 1 {
        return Err(InvalidData);
      }
      for i := 0 to n
        invariant Valid()
        invariant Written() == old(Written()) + NatBits(bits, n)[..i]
      {
        var bit := (bits / Pow2(n - i - 1)) % 2 == 1;
        NatBitsAt(bits, n, i);
        WriteBit(bit);
      }
      return Ok(());
    }

    /** Pads with zero bits up to the byte boundary. */
    method Align()
      requires Valid()
      modifies this
      ensures Valid() && Written() == old(Written()) + Padding(|old(Written())|)
      ensures IsAligned()
    {
      hide NatBits, BytesBits, Zeros, Pow2;
      assert |Written()| % 8 == bitPos;
      if IsAligned() {
        assert Written() + Zeros(0) == Written();
      } else {
        NatBitsOfZero(8 - bitPos);
        var r := WriteBits(0, 8 - bitPos);
      }
    }

    method Finish() returns (out: seq<byte>)
      requires Valid()
      modifies this
      ensures BytesBits(out) == old(Written()) + Padding(|old(Written())|)
    {
      Align();
      assert NatBits(currentByte, 8)[..bitPos] == [];
      return writer;
    }

    /** One byte of the unaligned path, `write_bits(byte as u64, 8)`. */
    method WriteByteBits(b: byte)
      requires Valid()
      modifies this
      ensures Valid() && Written() == old(Written()) + NatBits(b, 8)
    {
      assert Pow2(8) == 256;
      var r := WriteBits(b, 8);
    }

    /** `io::Write::write`: straight to the inner writer when aligned, bit by bit otherwise. */
    method Write(buf: seq<byte>) returns (n: nat)
      requires Valid()
      modifies this
      ensures Valid() && Written() == old(Written()) + BytesBits(buf)
      ensures n == |buf|
    {
      if IsAligned() {
        BytesBitsConcat(writer, buf);
        writer := writer + buf;
        return |buf|;
      }
      for i := 0 to |buf|
        invariant Valid()
        invariant Written() == old(Written()) + BytesBits(buf[..i])
      {
        WriteByteBits(buf[i]);
        BytesBitsExtend(buf, i);
        ConcatAssoc(old(Written()), BytesBits(buf[..i]), NatBits(buf[i], 8));
      }
      assert buf[..|buf|] == buf;
      return |buf|;
    }

    /** `WriteBytesExt::write_u8/u16/u32/u48`: the big-endian bytes through `write_all`. */
    method WriteUint(value: nat, width: nat)
      requires Valid() && value < Pow2(8 * width)
      modifies this
      ensures Valid() && Written() == old(Written()) + NatBits(value, 8 * width)
    {
      BytesBitsOfBigEndian(value, width);
      var n := Write(BigEndian(value, width));
    }
  }
}
