/** NAL emulation prevention, crates/bytes-util/src/nal_emulation_prevention.rs;
    section 7.4.1.1 of ISO/IEC 14496-10 and section 7.4.2.3 of ISO/IEC 23008-2. */
module NalEmulationPrevention {
  import opened Bits

  /** The zero counter behind a byte that was written or delivered. */
  function Count(zeros: nat, b: byte): nat {
    if b == 0 then zeros + 1 else 0
  }

  /** A byte that may not follow two zero bytes as it stands. */
  predicate NeedsGuard(zeros: nat, b: byte) {
    zeros >= 2 && b <= 3
  }

  /** What the writer emits for `payload` when its counter stands at `zeros`. */
  function Stuff(zeros: nat, payload: seq<byte>): (out: seq<byte>)
    decreases |payload|
  {
    if payload == [] then []
    else if NeedsGuard(zeros, payload[0]) then [3, payload[0]] + Stuff(Count(0, payload[0]), payload[1..])
    else [payload[0]] + Stuff(Count(zeros, payload[0]), payload[1..])
  }

  function StuffCount(zeros: nat, payload: seq<byte>): (z: nat)
    decreases |payload|
  {
    if payload == [] then zeros
    else
      StuffCount(Count(if NeedsGuard(zeros, payload[0]) then 0 else zeros, payload[0]), payload[1..])
  }

  /** What the reader delivers for the raw stream `raw` when its counter stands at `zeros`. The
      counter is a `u8`. */
  function Unstuff(zeros: nat, raw: seq<byte>): (payload: seq<byte>)
    decreases |raw|
  {
    if raw == [] then []
    else if raw[0] == 3 && zeros >= 2 then Unstuff(0, raw[1..])
    else [raw[0]] + Unstuff(Count(zeros, raw[0]) % 256, raw[1..])
  }

  /** What one payload byte makes the writer emit. */
  function Emitted(zeros: nat, b: byte): seq<byte> {
    if NeedsGuard(zeros, b) then [3, b] else [b]
  }

  /** The counter behind it. */
  function Counted(zeros: nat, b: byte): (n: nat)
    ensures zeros <= 2 ==> n <= 2
  {
    Count(if NeedsGuard(zeros, b) then 0 else zeros, b)
  }

  lemma StuffCons(zeros: nat, payload: seq<byte>)
    requires payload != []
    ensures Stuff(zeros, payload) == Emitted(zeros, payload[0]) + Stuff(Counted(zeros, payload[0]), payload[1..])
    ensures StuffCount(zeros, payload) == StuffCount(Counted(zeros, payload[0]), payload[1..])
  {
  }

  lemma StuffNothing(zeros: nat)
    ensures Stuff(zeros, []) == [] && StuffCount(zeros, []) == zeros
  {
  }

  lemma UnstuffNothing(zeros: nat)
    ensures Unstuff(zeros, []) == []
  {
  }

  lemma UnstuffStep(zeros: nat, raw: seq<byte>)
    requires raw != []
    ensures Unstuff(zeros, raw) ==
            if raw[0] == 3 && zeros >= 2 then Unstuff(0, raw[1..])
            else [raw[0]] + Unstuff(Count(zeros, raw[0]) % 256, raw[1..])
  {
  }

  /** At position `i` the standard's requirement holds: no 00 00 00, 00 00 01 or 00 00 02, and
      00 00 03 only in front of a byte of at most 03. */
  ghost predicate LegalAt(raw: seq<byte>, i: nat) {
    i + 2 < |raw| && raw[i] == 0 && raw[i + 1] == 0 ==>
      raw[i + 2] > 3 || (raw[i + 2] == 3 && i + 3 < |raw| && raw[i + 3] <= 3)
  }

  ghost predicate Legal(raw: seq<byte>) {
    forall i: nat :: LegalAt(raw, i)
  }

  /** The same requirement as a scan, for a stream that continues one ending in `zeros` zeros. */
  ghost predicate Scan(zeros: nat, raw: seq<byte>)
    decreases |raw|
  {
    raw == [] ||
    if zeros >= 2 && raw[0] <= 3 then
      raw[0] == 3 && |raw| >= 2 && raw[1] <= 3 && Scan(0, raw[1..])
    else
      Scan(Count(zeros, raw[0]), raw[1..])
  }

  lemma LegalStep(raw: seq<byte>)
    requires raw != []
    ensures Legal(raw) <==> LegalAt(raw, 0) && Legal(raw[1..])
  {
    if Legal(raw) {
      forall i: nat
        ensures LegalAt(raw[1..], i)
      {
        assert LegalAt(raw, i + 1);
      }
    }
    if LegalAt(raw, 0) && Legal(raw[1..]) {
      forall i: nat
        ensures LegalAt(raw, i)
      {
        if i > 0 {
          assert LegalAt(raw[1..], i - 1);
        }
      }
    }
  }

  function SomeZeros(n: nat): seq<byte>
    requires n <= 2
  {
    if n == 0 then [] else if n == 1 then [0] else [0, 0]
  }

  /** A non-zero byte separates what stands before it from what follows. */
  lemma LegalBehind(zeros: nat, b: byte, rest: seq<byte>)
    requires zeros <= 2 && b != 0
    ensures Legal(SomeZeros(zeros) + [b] + rest) <==>
            Legal(rest) && (zeros == 2 && b <= 3 ==> b == 3 && rest != [] && rest[0] <= 3)
  {
    hide Legal;
    var all := SomeZeros(zeros) + [b] + rest;
    var one, two := [b] + rest, [0, b] + rest;
    LegalStep(one);
    LegalStep(two);
    assert one[1..] == rest && two[1..] == one;
    if zeros == 0 {
      assert all == one;
    } else if zeros == 1 {
      assert all == two;
    } else {
      LegalStep(all);
      assert all[1..] == two && all[2] == b;
      assert rest != [] ==> all[3] == rest[0];
    }
  }

  /** The scan and the requirement by position agree. */
  lemma {:induction false} ScanIsLegal(zeros: nat, raw: seq<byte>)
    requires zeros <= 2
    ensures Scan(zeros, raw) <==> Legal(SomeZeros(zeros) + raw)
    decreases |raw|
  {
    if raw != [] {
      hide Legal;
      var b, rest := raw[0], raw[1..];
      var all := SomeZeros(zeros) + [b] + rest;
      assert SomeZeros(zeros) + raw == all;
      if b == 0 && zeros < 2 {
        ScanIsLegal(zeros + 1, rest);
        assert SomeZeros(zeros) + [b] == SomeZeros(zeros + 1);
      } else if b == 0 {
        assert !LegalAt(all, 0);
        LegalStep(all);
      } else {
        ScanIsLegal(0, rest);
        assert SomeZeros(0) + rest == rest;
        LegalBehind(zeros, b, rest);
      }
    }
  }

  /** What the writer emits always meets the requirement. */
  lemma {:induction false} StuffScans(zeros: nat, payload: seq<byte>)
    requires zeros <= 2
    ensures Scan(zeros, Stuff(zeros, payload)) && StuffCount(zeros, payload) <= 2
    decreases |payload|
  {
    if payload != [] {
      var b, rest := payload[0], payload[1..];
      var z := if NeedsGuard(zeros, b) then 0 else zeros;
      StuffScans(Count(z, b), rest);
      var tail := Stuff(Count(z, b), rest);
      assert ([b] + tail)[1..] == tail;
      assert ([3, b] + tail)[1..] == [b] + tail;
    }
  }

  /** Reading what was written gives the payload back. */
  lemma {:induction false} UnstuffOfStuff(zeros: nat, payload: seq<byte>)
    requires zeros <= 2
    ensures Unstuff(zeros, Stuff(zeros, payload)) == payload
    decreases |payload|
  {
    hide Stuff, Unstuff;
    if payload == [] {
      StuffNothing(zeros);
      UnstuffNothing(zeros);
    } else {
      var b, rest := payload[0], payload[1..];
      var tail := Stuff(Counted(zeros, b), rest);
      UnstuffOfStuff(Counted(zeros, b), rest);
      StuffCons(zeros, payload);
      UnstuffEmitted(zeros, b, tail);
      assert payload == [b] + rest;
    }
  }

  lemma UnstuffEmitted(zeros: nat, b: byte, tail: seq<byte>)
    requires zeros <= 2
    ensures Unstuff(zeros, Emitted(zeros, b) + tail) == [b] + Unstuff(Counted(zeros, b), tail)
  {
    hide Unstuff;
    var one, two := [b] + tail, [3, b] + tail;
    assert one[0] == b && one[1..] == tail;
    if NeedsGuard(zeros, b) {
      assert two[0] == 3 && two[1..] == one;
      UnstuffStep(zeros, two);
      UnstuffStep(0, one);
      assert Count(0, b) % 256 == Count(0, b);
    } else {
      UnstuffStep(zeros, one);
      assert Count(zeros, b) % 256 == Count(zeros, b);
    }
  }

  /** Writing what was read from a stream that meets the requirement gives that stream back. */
  lemma {:induction false} StuffOfUnstuff(zeros: nat, raw: seq<byte>)
    requires zeros <= 2 && Scan(zeros, raw)
    ensures Stuff(zeros, Unstuff(zeros, raw)) == raw
    decreases |raw|
  {
    hide Stuff, Unstuff;
    if raw == [] {
      UnstuffNothing(zeros);
      StuffNothing(zeros);
    } else {
      var b, rest := ScanStep(zeros, raw);
      StuffOfUnstuff(Counted(zeros, b), rest);
      UnstuffEmitted(zeros, b, rest);
      var payload := Unstuff(Counted(zeros, b), rest);
      assert ([b] + payload)[1..] == payload;
      StuffCons(zeros, [b] + payload);
    }
  }

  /** A stream that meets the requirement begins with what some payload byte makes the writer emit. */
  lemma ScanStep(zeros: nat, raw: seq<byte>) returns (b: byte, rest: seq<byte>)
    requires zeros <= 2 && raw != [] && Scan(zeros, raw)
    ensures raw == Emitted(zeros, b) + rest && Scan(Counted(zeros, b), rest)
    ensures |rest| < |raw|
  {
    if zeros >= 2 && raw[0] <= 3 {
      b, rest := raw[1], raw[2..];
      assert raw[1..][1..] == rest && raw == [3, b] + rest;
    } else {
      b, rest := raw[0], raw[1..];
    }
  }

  /** From a fresh state stuffing is a bijection between all payloads and the streams that meet
      the standard's requirement, and removing the bytes again is its inverse. */
  lemma StuffingIsBijection(payload: seq<byte>, raw: seq<byte>)
    ensures Stuff(0, payload) == raw <==> Legal(raw) && Unstuff(0, raw) == payload
  {
    StuffScans(0, payload);
    UnstuffOfStuff(0, payload);
    assert SomeZeros(0) + raw == raw;
    ScanIsLegal(0, raw);
    if Scan(0, raw) {
      StuffOfUnstuff(0, raw);
    }
  }

  /** Writing a payload in two pieces emits what writing it at once does. */
  lemma {:induction false} StuffConcat(zeros: nat, a: seq<byte>, b: seq<byte>)
    ensures Stuff(zeros, a + b) == Stuff(zeros, a) + Stuff(StuffCount(zeros, a), b)
    ensures StuffCount(zeros, a + b) == StuffCount(StuffCount(zeros, a), b)
    decreases |a|
  {
    hide Stuff, StuffCount, Emitted, Counted;
    if a == [] {
      StuffNothing(zeros);
      assert a + b == b;
    } else {
      var z := Counted(zeros, a[0]);
      StuffConcat(z, a[1..], b);
      assert (a + b)[0] == a[0] && (a + b)[1..] == a[1..] + b;
      StuffCons(zeros, a);
      StuffCons(zeros, a + b);
    }
  }

  /** Stuffing adds a byte at most after every second payload byte: with the counter at `zeros`,
      at most (n - 1 + zeros) / 2 bytes. */
  lemma {:induction false} StuffGrowth(zeros: nat, payload: seq<byte>)
    requires zeros <= 2 && payload != []
    ensures |payload| <= |Stuff(zeros, payload)| <= |payload| + (|payload| - 1 + zeros) / 2
    decreases |payload|
  {
    var b, rest := payload[0], payload[1..];
    var z := if NeedsGuard(zeros, b) then 0 else zeros;
    if rest != [] {
      StuffGrowth(Count(z, b), rest);
    }
  }

  /** Zero payloads reach that bound. */
  lemma {:induction false} StuffGrowthIsTight(zeros: nat, n: nat)
    requires zeros <= 2 && n >= 1
    ensures var payload := seq(n, _ => 0 as byte);
            |Stuff(zeros, payload)| == n + (n - 1 + zeros) / 2
    decreases n
  {
    var payload := seq(n, _ => 0 as byte);
    if n > 1 {
      assert payload[1..] == seq(n - 1, _ => 0 as byte);
      StuffGrowthIsTight(Count(if NeedsGuard(zeros, 0) then 0 else zeros, 0), n - 1);
    }
  }

  /** The number of zero bytes at the end of a byte string. */
  function TrailingZeros(s: seq<byte>): (n: nat)
    ensures n <= |s|
  {
    if s == [] || s[|s| - 1] != 0 then 0 else 1 + TrailingZeros(s[..|s| - 1])
  }

  lemma TrailingZerosExtend(s: seq<byte>, b: byte)
    ensures TrailingZeros(s + [b]) == Count(TrailingZeros(s), b)
  {
    var t := s + [b];
    assert t[..|t| - 1] == s && t[|t| - 1] == b;
  }

  /** The writer half of `EmulationPreventionIo`. */
  class StuffingWriter {
    var inner: seq<byte>
    var zeroCount: nat
    ghost const start: seq<byte>
    ghost var payload: seq<byte>

    /** Everything behind `start` is the stuffed payload, and the counter is the number of zero
        bytes that it ends with. */
    ghost predicate Valid()
      reads this
    {
      && inner == start + Stuff(0, payload)
      && zeroCount == StuffCount(0, payload) == TrailingZeros(Stuff(0, payload))
      && zeroCount <= 2
    }

    constructor (inner: seq<byte>)
      ensures Valid() && start == inner && payload == []
    {
      this.inner, this.zeroCount, this.start, this.payload := inner, 0, inner, [];
    }

    method Write(buf: seq<byte>) returns (n: nat)
      requires Valid()
      modifies this
      ensures Valid() && payload == old(payload) + buf
      ensures n == |buf|
    {
      hide Stuff, StuffCount, TrailingZeros;
      for i := 0 to |buf|
        invariant Valid() && payload == old(payload) + buf[..i]
      {
        label Loop:
        var b := buf[i];
        StuffStep(payload, b);
        ghost var before := inner;
        if zeroCount >= 2 && b <= 3 {
          inner := inner + [3];
          zeroCount := 0;
        }
        inner := inner + [b];
        if b == 0 {
          zeroCount := zeroCount + 1;
        } else {
          zeroCount := 0;
        }
        payload := payload + [b];
        assert inner == before + if NeedsGuard(old@Loop(zeroCount), b) then [3, b] else [b];
      }
      assert buf[..|buf|] == buf;
      return |buf|;
    }
  }

  /** One more payload byte appends one or two bytes and moves the counter, which stays the number
      of zero bytes at the end of the output. */
  lemma StuffStep(payload: seq<byte>, b: byte)
    requires StuffCount(0, payload) == TrailingZeros(Stuff(0, payload))
    ensures var z := StuffCount(0, payload);
            var after := payload + [b];
            && Stuff(0, after) == Stuff(0, payload) + (if NeedsGuard(z, b) then [3, b] else [b])
            && StuffCount(0, after) == Count(if NeedsGuard(z, b) then 0 else z, b) <= 2
            && StuffCount(0, after) == TrailingZeros(Stuff(0, after))
  {
    hide Stuff, StuffCount, TrailingZeros;
    var out := Stuff(0, payload);
    StuffConcat(0, payload, [b]);
    StuffSingle(StuffCount(0, payload), b);
    StuffScans(0, payload + [b]);
    TrailingZerosExtend(out, b);
    TrailingZerosExtend(out, 3);
    TrailingZerosExtend(out + [3], b);
    assert out + [3] + [b] == out + [3, b];
  }

  lemma StuffSingle(zeros: nat, b: byte)
    ensures Stuff(zeros, [b]) == if NeedsGuard(zeros, b) then [3, b] else [b]
    ensures StuffCount(zeros, [b]) == Count(if NeedsGuard(zeros, b) then 0 else zeros, b)
  {
    assert [b][1..] == [];
  }

  /** The reader half of `EmulationPreventionIo`. */
  class UnstuffingReader {
    const inner: seq<byte>
    var pos: nat
    var zeroCount: nat

    ghost predicate Valid()
      reads this
    {
      pos <= |inner| && zeroCount < 256
    }

    /** The payload that is still to be delivered. */
    ghost function Pending(): seq<byte>
      reads this
      requires Valid()
    {
      Unstuff(zeroCount, inner[pos..])
    }

    constructor (inner: seq<byte>)
      ensures Valid() && this.inner == inner && Pending() == Unstuff(0, inner)
    {
      this.inner, this.pos, this.zeroCount := inner, 0, 0;
      new;
      assert inner[0..] == inner;
    }

    /** Fills the buffer with the next payload bytes, as far as there are any; however reads are
        cut, the bytes delivered are the same. */
    method Read(buf: array<byte>) returns (readSize: nat)
      requires Valid()
      modifies this, buf
      ensures Valid()
      ensures readSize == if buf.Length < |old(Pending())| then buf.Length else |old(Pending())|
      ensures buf[..readSize] + Pending() == old(Pending())
      ensures forall i :: readSize <= i < buf.Length ==> buf[i] == old(buf[i])
    {
      hide Unstuff;
      ghost var all := Pending();
      readSize := 0;
      assert buf[..0] == [];
      while buf.Length > readSize
        invariant Valid() && readSize <= buf.Length
        invariant buf[..readSize] + Pending() == all
        invariant forall i :: readSize <= i < buf.Length ==> buf[i] == old(buf[i])
        decreases |inner| - pos
      {
        if pos >= |inner| {
          UnstuffNothing(zeroCount);
          assert inner[pos..] == [];
          break;
        }
        ghost var pending, delivered := Pending(), buf[..readSize];
        var b := inner[pos];
        NextByte(zeroCount, inner, pos);
        pos := pos + 1;
        if b == 3 && zeroCount >= 2 {
          zeroCount := 0;
          assert Pending() == pending;
          continue;
        } else if b == 0 {
          zeroCount := (zeroCount + 1) % 256;
        } else {
          zeroCount := 0;
        }
        ghost var rest := Pending();
        assert pending == [b] + rest;
        ConcatAssoc(delivered, [b], rest);
        buf[readSize] := b;
        readSize := readSize + 1;
        assert buf[..readSize] == delivered + [b];
        assert Pending() == rest;
      }
      assert |all| == readSize + |Pending()|;
    }
  }

  /** What the next byte of the inner stream delivers. */
  lemma NextByte(zeros: nat, inner: seq<byte>, pos: nat)
    requires pos < |inner| && zeros < 256
    ensures var b := inner[pos];
            Unstuff(zeros, inner[pos..]) ==
            if b == 3 && zeros >= 2 then Unstuff(0, inner[pos + 1..])
            else [b] + Unstuff(if b == 0 then (zeros + 1) % 256 else 0, inner[pos + 1..])
  {
    hide Unstuff;
    assert inner[pos..][0] == inner[pos] && inner[pos..][1..] == inner[pos + 1..];
    UnstuffStep(zeros, inner[pos..]);
  }

  /** What one side writes, in however many calls, the other side reads. */
  method StuffThenUnstuff(first: seq<byte>, second: seq<byte>) returns (raw: seq<byte>, back: array<byte>)
    ensures Legal(raw) && raw == Stuff(0, first + second)
    ensures back[..] == first + second
  {
    hide Stuff, Unstuff, StuffCount, TrailingZeros, Legal;
    ghost var payload := first + second;
    var w := new StuffingWriter([]);
    var n := w.Write(first);
    assert [] + first == first;
    n := w.Write(second);
    raw := w.inner;
    assert [] + Stuff(0, payload) == Stuff(0, payload);
    StuffingIsBijection(payload, raw);
    var r := new UnstuffingReader(raw);
    back := new byte[|first + second|](_ => 0);
    n := r.Read(back);
    assert n == back.Length && back[..n] == back[..];
    assert back[..] == payload;
  }
}
