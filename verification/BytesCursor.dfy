/** The byte cursor of crates/bytes-util/src/bytes_cursor.rs, with the big-endian reads of
    `ReadBytesExt`. */
module BytesCursors {
  import opened Wrappers
  import opened Bits

  /** `n` bytes from `p` on; no bytes can be taken anywhere. */
  function TakeAt(data: seq<byte>, p: nat, n: nat): (r: Option<seq<byte>>)
    ensures r.Some? ==> |r.value| == n
  {
    if n == 0 then Some([]) else if p + n <= |data| then Some(data[p..p + n]) else None
  }

  class BytesCursor {
    const data: seq<byte>
    var pos: nat

    constructor (data: seq<byte>)
      ensures this.data == data && pos == 0
    {
      this.data, this.pos := data, 0;
    }

    predicate HasRemaining()
      reads this
    {
      pos < |data|
    }

    /** `extract_bytes`. */
    method ExtractBytes(size: nat) returns (r: Result<seq<byte>, IoError>)
      modifies this
      ensures match TakeAt(data, old(pos), size)
              case Some(bytes) => r == Ok(bytes) && pos == old(pos) + size
              case None => r == Err(UnexpectedEof) && pos == old(pos)
    {
      if size == 0 {
        return Ok([]);
      }
      var remaining := if pos <= |data| then |data| - pos else 0;
      if size > remaining {
        return Err(UnexpectedEof);
      }
      r := Ok(data[pos..pos + size]);
      pos := pos + size;
    }

    /** `read_u8` and `read_u16`, for a width of one or two bytes. */
    method ReadUint(width: nat) returns (r: Result<nat, IoError>)
      requires width > 0
      modifies this
      ensures match TakeAt(data, old(pos), width)
              case Some(bytes) => r == Ok(FromBigEndian(bytes)) && pos == old(pos) + width
              case None => r == Err(UnexpectedEof)
    {
      if pos + width > |data| {
        return Err(UnexpectedEof);
      }
      r := Ok(FromBigEndian(data[pos..pos + width]));
      pos := pos + width;
    }
  }
}
