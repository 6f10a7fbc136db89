/** Writing fields one call at a time: what is written so far is the encoding of the fields so
    far. `base` and `fs` are what stood there before and the fields behind it. */
module FieldWriting {
  import opened Wrappers
  import opened Bits
  import opened BitWriting
  import opened ExpGolomb
  import opened Fields

  /** What is written is `base` and then `fs`. */
  ghost predicate Wrote(written: seq<bool>, base: seq<bool>, fs: seq<Field>) {
    AllWritable(fs) && written == base + Encode(fs, |base|)
  }

  ghost predicate HasWritten(w: BitWriter, base: seq<bool>, fs: seq<Field>)
    reads w
  {
    w.Valid() && Wrote(w.Written(), base, fs)
  }

  lemma WroteNothing(base: seq<bool>)
    ensures Wrote(base, base, [])
  {
  }

  lemma WroteOne(base: seq<bool>, fs: seq<Field>, f: Field, before: seq<bool>)
    requires Writable(f) && Wrote(before, base, fs)
    ensures Wrote(before + FieldBits(f, |before|), base, fs + [f])
  {
    hide Encode, FieldBits, Writable;
    EncodeExtend(fs, f, |base|);
    ConcatAssoc(base, Encode(fs, |base|), FieldBits(f, |before|));
  }

  /** `write_bits(value, width)`. */
  method PutBits(w: BitWriter, value: nat, width: nat, ghost base: seq<bool>, ghost fs: seq<Field>)
    returns (r: Result<(), IoError>)
    requires HasWritten(w, base, fs) && value < U64_LIMIT && width <= 64
    modifies w
    ensures w.Valid()
    ensures r == if value < Pow2(width) then Ok(()) else Err(InvalidData)
    ensures r.Ok? ==> HasWritten(w, base, fs + [Fixed(value, width)])
  {
    hide Wrote, NatBits;
    ghost var before := w.Written();
    r := w.WriteBits(value, width);
    if r.Ok? {
      WroteOne(base, fs, Fixed(value, width), before);
    }
  }

  /** A constant that fits, so that the call cannot fail. */
  method PutReserved(w: BitWriter, value: nat, width: nat, ghost base: seq<bool>, ghost fs: seq<Field>)
    requires HasWritten(w, base, fs) && value < Pow2(width) && value < U64_LIMIT && width <= 64
    modifies w
    ensures w.Valid() && HasWritten(w, base, fs + [Fixed(value, width)])
  {
    var r := PutBits(w, value, width, base, fs);
  }

  method PutFlag(w: BitWriter, bit: bool, ghost base: seq<bool>, ghost fs: seq<Field>)
    requires HasWritten(w, base, fs)
    modifies w
    ensures w.Valid() && HasWritten(w, base, fs + [Bit(bit)])
  {
    hide Wrote;
    ghost var before := w.Written();
    w.WriteBit(bit);
    WroteOne(base, fs, Bit(bit), before);
  }

  /** `write_u8/u16/u32/u48(value)`. */
  method PutUint(w: BitWriter, value: nat, width: nat, ghost base: seq<bool>, ghost fs: seq<Field>)
    requires HasWritten(w, base, fs) && value < Pow2(8 * width) && width <= 8
    modifies w
    ensures w.Valid() && HasWritten(w, base, fs + [Fixed(value, 8 * width)])
  {
    hide Wrote, NatBits;
    ghost var before := w.Written();
    w.WriteUint(value, width);
    WroteOne(base, fs, Fixed(value, 8 * width), before);
  }

  method PutRaw(w: BitWriter, bytes: seq<byte>, ghost base: seq<bool>, ghost fs: seq<Field>)
    requires HasWritten(w, base, fs)
    modifies w
    ensures w.Valid() && HasWritten(w, base, fs + [Raw(bytes)])
  {
    hide Wrote, BytesBits;
    ghost var before := w.Written();
    var n := w.Write(bytes);
    WroteOne(base, fs, Raw(bytes), before);
  }

  method PutUnsigned(w: BitWriter, n: nat, ghost base: seq<bool>, ghost fs: seq<Field>)
    requires HasWritten(w, base, fs) && n <= MAX_VALUE
    modifies w
    ensures w.Valid() && HasWritten(w, base, fs + [Unsigned(n)])
  {
    hide Wrote, CodeWord;
    ghost var before := w.Written();
    var r := WriteExpGolomb(w, n);
    WroteOne(base, fs, Unsigned(n), before);
  }

  method PutSigned(w: BitWriter, z: int, ghost base: seq<bool>, ghost fs: seq<Field>)
    requires HasWritten(w, base, fs) && -I64_LIMIT < z < I64_LIMIT
    modifies w
    ensures w.Valid() && HasWritten(w, base, fs + [Signed(z)])
  {
    hide Wrote, CodeWord;
    ghost var before := w.Written();
    var r := WriteSignedExpGolomb(w, z);
    WroteOne(base, fs, Signed(z), before);
  }

  /** The first and the last step of a list of writes. */
  lemma WritingBegins(w: BitWriter)
    requires w.Valid()
    ensures HasWritten(w, w.Written(), [])
  {
    WroteNothing(w.Written());
  }

  lemma WritingEnds(w: BitWriter, base: seq<bool>, fs: seq<Field>)
    requires HasWritten(w, base, fs)
    ensures w.Valid() && AllWritable(fs) && w.Written() == base + Encode(fs, |base|)
  {
  }
}
