/** The sequence parameter set extension of crates/h264/src/sps/sps_ext.rs: Exp-Golomb coded
    fields and scaling lists, whose lengths are not written but follow from their values;
    section 7.3.2 of ISO/IEC 14496-10. */
module SpsExtension {
  import opened Wrappers
  import opened Bits
  import opened BitReading
  import opened BitWriting
  import opened ExpGolomb
  import opened Fields
  import opened FieldWriting

  datatype SpsExt = SpsExt(
    chroma: byte,
    separate: bool,
    luma: byte,
    chromaDepth: byte,
    bypass: bool,
    scaling: seq<seq<int>>)

  function ListCount(chroma: nat): nat { if chroma != 3 then 8 else 12 }

  function ListSize(i: nat): nat { if i < 6 then 16 else 64 }

  /** Every delta is an `i64` that can be written. */
  ghost predicate DeltasFit(l: seq<int>) {
    forall i :: 0 <= i < |l| ==> -I64_LIMIT < l[i] < I64_LIMIT
  }

  ghost predicate ScalingFits(scaling: seq<seq<int>>) {
    forall i :: 0 <= i < |scaling| ==> DeltasFit(scaling[i])
  }

  function Deltas(l: seq<int>): (fs: seq<Field>)
    ensures |fs| == |l| && forall i :: 0 <= i < |l| ==> fs[i] == Signed(l[i])
  {
    seq(|l|, i requires 0 <= i < |l| => Signed(l[i]))
  }

  function ListFields(l: seq<int>): seq<Field> {
    [Bit(l != [])] + Deltas(l)
  }

  function ListsFields(lists: seq<seq<int>>): seq<Field> {
    if lists == [] then [] else ListsFields(lists[..|lists| - 1]) + ListFields(lists[|lists| - 1])
  }

  function HeadFields(e: SpsExt): seq<Field> {
    [Unsigned(e.chroma)] + (if e.chroma == 3 then [Bit(e.separate)] else [])
  }

  function FlagFields(e: SpsExt): seq<Field> {
    [Unsigned(e.luma), Unsigned(e.chromaDepth), Bit(e.bypass), Bit(e.scaling != [])]
  }

  function ExtFields(e: SpsExt): seq<Field> {
    HeadFields(e) + FlagFields(e) + ListsFields(e.scaling)
  }

  function Sum(l: seq<int>): int {
    if l == [] then 0 else l[0] + Sum(l[1..])
  }

  /** The scale after the first `i` deltas is zero modulo 256. */
  ghost predicate StopsAfter(scale: int, l: seq<int>, i: nat)
    requires i <= |l|
  {
    (scale + Sum(l[..i])) % 256 == 0
  }

  /** The list is read back: it is absent, or it ends exactly where the reader stops, at the
      first zero scale or when it is full. */
  ghost predicate EndsWhereReadingStops(l: seq<int>, size: nat) {
    l == [] || Ends(l, size, 8)
  }

  ghost predicate Ends(l: seq<int>, size: nat, scale: int) {
    && |l| <= size
    && (l == [] ==> size == 0)
    && (forall i :: 1 <= i < |l| ==> !StopsAfter(scale, l, i))
    && (l != [] && |l| < size ==> StopsAfter(scale, l, |l|))
  }

  ghost predicate ScalingWellFormed(scaling: seq<seq<int>>, chroma: nat) {
    && (scaling != [] ==> |scaling| == ListCount(chroma))
    && forall i :: 0 <= i < |scaling| ==> EndsWhereReadingStops(scaling[i], ListSize(i))
  }

  ghost predicate WellFormed(e: SpsExt) {
    && e.chroma <= 3 && e.luma <= 6 && e.chromaDepth <= 6
    && (e.separate ==> e.chroma == 3)
    && ScalingWellFormed(e.scaling, e.chroma)
  }

  /** Two's complement wrap-around of an `i64`. */
  function WrapI64(n: int): int {
    (n + I64_LIMIT) % U64_LIMIT - I64_LIMIT
  }

  /** Rust's remainder truncates toward zero. */
  function TruncMod256(n: int): int {
    if n >= 0 then n % 256 else -((-n) % 256)
  }

  /** `(next_scale + delta_scale + 256) % 256`. */
  function NextScale(scale: int, delta: int): int {
    TruncMod256(WrapI64(scale + delta + 256))
  }

  lemma WrapIs(n: int)
    ensures WrapI64(n) == n - U64_LIMIT * ((n + I64_LIMIT) / U64_LIMIT)
  {
  }

  lemma TruncModIs(n: int) returns (t: int)
    ensures TruncMod256(n) == n - 256 * t && -256 < TruncMod256(n) < 256
  {
    t := if n >= 0 then n / 256 else -((-n) / 256);
  }

  /** However the sum wraps around, it is the right one modulo 256. */
  lemma NextScaleIsSum(scale: int, delta: int)
    ensures (NextScale(scale, delta) - (scale + delta)) % 256 == 0
    ensures NextScale(scale, delta) == 0 <==> (scale + delta) % 256 == 0
  {
    hide WrapI64, TruncMod256;
    var m := scale + delta + 256;
    var k := (m + I64_LIMIT) / U64_LIMIT;
    WrapIs(m);
    var t := TruncModIs(WrapI64(m));
    SameResidue(NextScale(scale, delta), scale + delta, 1 - 0x100_0000_0000_0000 * k - t);
  }

  lemma SameResidue(x: int, y: int, j: int)
    requires x == y + 256 * j
    ensures (x - y) % 256 == 0 && x % 256 == y % 256
    ensures -256 < x < 256 ==> (x == 0 <==> y % 256 == 0)
  {
  }

  ghost function ParseDeltas(s: seq<bool>, p: nat, size: nat, scale: int): Option<(seq<int>, nat)>
    decreases size
  {
    if size == 0 then Some(([], p))
    else
      match CodeAt(s, p)
      case None => None
      case Some((n, q)) =>
        var next := NextScale(scale, ToSigned(n));
        if next == 0 then Some(([ToSigned(n)], q))
        else
          match ParseDeltas(s, q, size - 1, next)
          case None => None
          case Some((rest, end)) => Some(([ToSigned(n)] + rest, end))
  }

  ghost function ParseList(s: seq<bool>, p: nat, size: nat): Option<(seq<int>, nat)> {
    if p >= |s| then None
    else if s[p] then ParseDeltas(s, p + 1, size, 8)
    else Some(([], p + 1))
  }

  ghost function ParseLists(s: seq<bool>, p: nat, n: nat): Option<(seq<seq<int>>, nat)> {
    if n == 0 then Some(([], p))
    else
      match ParseLists(s, p, n - 1)
      case None => None
      case Some((lists, q)) =>
        match ParseList(s, q, ListSize(n - 1))
        case None => None
        case Some((l, end)) => Some((lists + [l], end))
  }

  /** An Exp-Golomb number that is refused above `limit`. */
  ghost function ParseRanged(s: seq<bool>, p: nat, limit: nat): Result<(nat, nat), IoError> {
    match CodeAt(s, p)
    case None => Err(UnexpectedEof)
    case Some((n, q)) => if n > limit then Err(InvalidData) else Ok((n, q))
  }

  ghost function ParseFlag(s: seq<bool>, p: nat): Result<(bool, nat), IoError> {
    if p < |s| then Ok((s[p], p + 1)) else Err(UnexpectedEof)
  }

  ghost function ParseSeparate(s: seq<bool>, p: nat, chroma: nat): Result<(bool, nat), IoError> {
    if chroma == 3 then ParseFlag(s, p) else Ok((false, p))
  }

  ghost function ParseScaling(s: seq<bool>, p: nat, chroma: nat): Result<(seq<seq<int>>, nat), IoError> {
    match ParseFlag(s, p)
    case Err(e) => Err(e)
    case Ok((present, q)) =>
      if !present then Ok(([], q))
      else
        match ParseLists(s, q, ListCount(chroma))
        case None => Err(UnexpectedEof)
        case Some(lists) => Ok(lists)
  }

  ghost function ParseExt(s: seq<bool>, p: nat): Result<(SpsExt, nat), IoError> {
    match ParseRanged(s, p, 3) case Err(e) => Err(e) case Ok((chroma, q0)) =>
    match ParseSeparate(s, q0, chroma) case Err(e) => Err(e) case Ok((separate, q1)) =>
    match ParseRanged(s, q1, 6) case Err(e) => Err(e) case Ok((luma, q2)) =>
    match ParseRanged(s, q2, 6) case Err(e) => Err(e) case Ok((chromaDepth, q3)) =>
    match ParseFlag(s, q3) case Err(e) => Err(e) case Ok((bypass, q4)) =>
    match ParseScaling(s, q4, chroma) case Err(e) => Err(e) case Ok((scaling, end)) =>
      Ok((SpsExt(chroma, separate, luma, chromaDepth, bypass, scaling), end))
  }

  lemma {:induction false} SumExtend(l: seq<int>, i: nat)
    requires 1 <= i <= |l|
    ensures Sum(l[..i]) == l[0] + Sum(l[1..][..i - 1])
  {
    assert l[..i][1..] == l[1..][..i - 1];
  }

  /** Where reading stops, seen one delta at a time. */
  lemma EndsStep(l: seq<int>, size: nat, scale: int)
    requires l != [] && size != 0
    ensures Ends(l, size, scale) <==>
              if NextScale(scale, l[0]) == 0 then |l| == 1
              else Ends(l[1..], size - 1, NextScale(scale, l[0]))
  {
    var next, rest := NextScale(scale, l[0]), l[1..];
    forall i | 1 <= i <= |l|
      ensures StopsAfter(scale, l, i) <==> StopsAfter(next, rest, i - 1)
    {
      StopsStep(l, scale, i);
    }
    NextScaleIsSum(scale, l[0]);
    assert StopsAfter(scale, l, 1) <==> next == 0 by {
      assert l[1..][..0] == [];
      SumExtend(l, 1);
    }
    if next != 0 && Ends(l, size, scale) {
      forall j | 1 <= j < |rest| ensures !StopsAfter(next, rest, j) {
        assert !StopsAfter(scale, l, j + 1);
      }
    }
    if next != 0 && Ends(rest, size - 1, next) {
      forall i | 1 <= i < |l| ensures !StopsAfter(scale, l, i) {
        assert i > 1 ==> !StopsAfter(next, rest, i - 1);
      }
    }
  }

  lemma StopsStep(l: seq<int>, scale: int, i: nat)
    requires 1 <= i <= |l|
    ensures StopsAfter(scale, l, i) <==> StopsAfter(NextScale(scale, l[0]), l[1..], i - 1)
  {
    var next, sum := NextScale(scale, l[0]), Sum(l[1..][..i - 1]);
    SumExtend(l, i);
    NextScaleIsSum(scale, l[0]);
    var j := (next - (scale + l[0])) / 256;
    SameResidue(next + sum, scale + l[0] + sum, j);
  }

  lemma DeltasWritable(l: seq<int>)
    requires DeltasFit(l)
    ensures AllWritable(Deltas(l)) && AllWritable(ListFields(l))
  {
    assert Writable(Bit(l != []));
  }

  lemma {:induction false} ListsWritable(lists: seq<seq<int>>)
    requires ScalingFits(lists)
    ensures AllWritable(ListsFields(lists))
  {
    hide Writable, ListFields;
    if lists != [] {
      ListsWritable(lists[..|lists| - 1]);
      DeltasWritable(lists[|lists| - 1]);
    }
  }

  lemma NoLists()
    ensures ListsFields([]) == []
  {
  }

  lemma ExtWritable(e: SpsExt)
    requires ScalingFits(e.scaling)
    ensures AllWritable(HeadFields(e)) && AllWritable(FlagFields(e)) && AllWritable(ExtFields(e))
  {
    ListsWritable(e.scaling);
  }

  /** What an extension begins with, code by code. */
  lemma FirstBits(e: SpsExt, p: nat)
    requires ScalingFits(e.scaling)
    ensures AllWritable(ExtFields(e))
    ensures CodeWord(e.chroma) + (if e.chroma == 3 then [e.separate] else [])
            + CodeWord(e.luma) + CodeWord(e.chromaDepth) + [e.bypass] + [e.scaling != []]
            <= Encode(ExtFields(e), p)
  {
    hide Encode, CodeWord, ListsFields, Writable;
    ExtWritable(e);
    ListsWritable(e.scaling);
    var head, flags := HeadFields(e), FlagFields(e);
    EncodeConcat(head + flags, ListsFields(e.scaling), p);
    EncodeConcat(head, flags, p);
    HeadBits(e, p);
    FlagBits(e, p + |Encode(head, p)|);
  }

  lemma HeadBits(e: SpsExt, p: nat)
    ensures AllWritable(HeadFields(e))
    ensures Encode(HeadFields(e), p) == CodeWord(e.chroma) + if e.chroma == 3 then [e.separate] else []
  {
    hide Encode, CodeWord;
    EncodeOne(Unsigned(e.chroma), p);
    if e.chroma == 3 {
      EncodeExtend([Unsigned(e.chroma)], Bit(e.separate), p);
    } else {
      assert HeadFields(e) == [Unsigned(e.chroma)];
    }
  }

  lemma FlagBits(e: SpsExt, p: nat)
    ensures AllWritable(FlagFields(e))
    ensures Encode(FlagFields(e), p) ==
            CodeWord(e.luma) + CodeWord(e.chromaDepth) + [e.bypass] + [e.scaling != []]
  {
    hide Encode, CodeWord;
    var fs := FlagFields(e);
    EncodeOne(fs[0], p);
    EncodeExtend([fs[0]], fs[1], p);
    EncodeExtend([fs[0]] + [fs[1]], fs[2], p);
    EncodeExtend([fs[0]] + [fs[1]] + [fs[2]], fs[3], p);
    assert fs == [fs[0]] + [fs[1]] + [fs[2]] + [fs[3]];
  }

  /** What stands alone at `p` is read back. */
  lemma FieldBack(s: seq<bool>, p: nat, f: Field)
    requires AllWritable([f]) && Holds(s, p, [f])
    ensures Writable(f) && FieldAt(s, p, ShapeOf(f)) == Some((f, p + |Encode([f], p)|))
  {
    hide Encode, FieldBits, FieldAt;
    assert Writable([f][0]);
    EncodeOne(f, p);
    FieldRoundTrip(s, p, f);
  }

  lemma ParseDeltasStep(s: seq<bool>, p: nat, size: nat, scale: int)
    ensures size == 0 ==> ParseDeltas(s, p, size, scale) == Some(([], p))
    ensures size != 0 && CodeAt(s, p).Some? ==>
              var (n, q) := CodeAt(s, p).value;
              var next := NextScale(scale, ToSigned(n));
              ParseDeltas(s, p, size, scale) ==
              if next == 0 then Some(([ToSigned(n)], q))
              else
                match ParseDeltas(s, q, size - 1, next)
                case None => None
                case Some((rest, end)) => Some(([ToSigned(n)] + rest, end))
  {
    hide CodeAt, NextScale, ToSigned;
  }

  lemma SignedBack(s: seq<bool>, p: nat, z: int)
    requires AllWritable([Signed(z)]) && Holds(s, p, [Signed(z)])
    ensures CodeAt(s, p).Some? && ToSigned(CodeAt(s, p).value.0) == z
    ensures CodeAt(s, p).value.1 == p + |Encode([Signed(z)], p)|
  {
    hide Encode, Holds, CodeAt, ToSigned;
    FieldBack(s, p, Signed(z));
  }

  lemma DeltasFitTail(l: seq<int>)
    requires DeltasFit(l) && l != []
    ensures DeltasFit(l[1..]) && AllWritable([Signed(l[0])])
  {
  }

  lemma {:induction false} DeltasBack(s: seq<bool>, p: nat, l: seq<int>, size: nat, scale: int)
    requires DeltasFit(l) && Ends(l, size, scale)
    requires AllWritable(Deltas(l)) && Holds(s, p, Deltas(l))
    ensures ParseDeltas(s, p, size, scale) == Some((l, p + |Encode(Deltas(l), p)|))
    decreases size
  {
    hide Encode, Holds, CodeAt, NextScale, Ends, ParseDeltas, DeltasFit, AllWritable, ToSigned;
    ParseDeltasStep(s, p, size, scale);
    if size == 0 {
      EndsAtZero(l, scale);
      assert Deltas(l) == [];
      EncodeNothing(p);
    } else {
      EndsNonEmpty(l, size, scale);
      var f, rest := Signed(l[0]), l[1..];
      assert Deltas(l) == [f] + Deltas(rest);
      DeltasFitTail(l);
      DeltasWritable(rest);
      HoldsConcat(s, p, [f], Deltas(rest));
      SignedBack(s, p, l[0]);
      EndsStep(l, size, scale);
      var q := p + |Encode([f], p)|;
      if NextScale(scale, l[0]) == 0 {
        assert Deltas(rest) == [] && l == [l[0]];
        EncodeNothing(q);
      } else {
        DeltasBack(s, q, rest, size - 1, NextScale(scale, l[0]));
        assert [l[0]] + rest == l;
      }
    }
  }

  lemma EndsAtZero(l: seq<int>, scale: int)
    requires Ends(l, 0, scale)
    ensures l == []
  {
  }

  lemma EndsNonEmpty(l: seq<int>, size: nat, scale: int)
    requires Ends(l, size, scale) && size != 0
    ensures l != []
  {
  }

  lemma ListBack(s: seq<bool>, p: nat, l: seq<int>, size: nat)
    requires DeltasFit(l) && EndsWhereReadingStops(l, size)
    requires AllWritable(ListFields(l)) && Holds(s, p, ListFields(l))
    ensures ParseList(s, p, size) == Some((l, p + |Encode(ListFields(l), p)|))
  {
    hide Encode, FieldBits, Ends, ParseDeltas;
    DeltasWritable(l);
    var f := Bit(l != []);
    assert Writable(ListFields(l)[0]);
    HoldsConcat(s, p, [f], Deltas(l));
    FieldBack(s, p, f);
    if l == [] {
      assert Deltas(l) == [];
      EncodeNothing(p + 1);
    } else {
      DeltasBack(s, p + 1, l, size, 8);
    }
  }

  lemma ListsStep(lists: seq<seq<int>>, n: nat)
    requires |lists| == n + 1
    ensures ListsFields(lists) == ListsFields(lists[..n]) + ListFields(lists[n])
  {
    hide ListFields;
  }

  lemma {:induction false} ListsBack(s: seq<bool>, p: nat, lists: seq<seq<int>>)
    requires ScalingFits(lists) && forall i :: 0 <= i < |lists| ==> EndsWhereReadingStops(lists[i], ListSize(i))
    requires AllWritable(ListsFields(lists)) && Holds(s, p, ListsFields(lists))
    ensures ParseLists(s, p, |lists|) == Some((lists, p + |Encode(ListsFields(lists), p)|))
  {
    hide Encode, Holds, Writable, ListFields, ListsFields, ParseList, EndsWhereReadingStops, DeltasFit;
    if lists == [] {
      NoLists();
      EncodeNothing(p);
    } else {
      var n := |lists| - 1;
      ListsStep(lists, n);
      ListsWritable(lists[..n]);
      DeltasWritable(lists[n]);
      HoldsConcat(s, p, ListsFields(lists[..n]), ListFields(lists[n]));
      ListsBack(s, p, lists[..n]);
      ListBack(s, p + |Encode(ListsFields(lists[..n]), p)|, lists[n], ListSize(n));
      assert lists[..n] + [lists[n]] == lists;
    }
  }

  lemma HeadBack(s: seq<bool>, p: nat, e: SpsExt)
    requires e.chroma <= 3 && (e.separate ==> e.chroma == 3)
    requires AllWritable(HeadFields(e)) && Holds(s, p, HeadFields(e))
    ensures ParseRanged(s, p, 3).Ok?
    ensures var (chroma, q) := ParseRanged(s, p, 3).value;
            chroma == e.chroma && ParseSeparate(s, q, chroma) == Ok((e.separate, p + |Encode(HeadFields(e), p)|))
  {
    hide Encode, FieldBits, CodeAt;
    var f, rest := Unsigned(e.chroma), if e.chroma == 3 then [Bit(e.separate)] else [];
    HoldsConcat(s, p, [f], rest);
    FieldBack(s, p, f);
    var q := p + |Encode([f], p)|;
    if e.chroma == 3 {
      FieldBack(s, q, Bit(e.separate));
      assert FieldAt(s, q, BitShape).Some?;
    } else {
      EncodeNothing(q);
    }
  }

  lemma FlagsBack(s: seq<bool>, p: nat, e: SpsExt)
    requires e.luma <= 6 && e.chromaDepth <= 6
    requires AllWritable(FlagFields(e)) && Holds(s, p, FlagFields(e))
    ensures var r0 := ParseRanged(s, p, 6); r0.Ok? && r0.value.0 == e.luma
    ensures var r1 := ParseRanged(s, ParseRanged(s, p, 6).value.1, 6);
            r1.Ok? && r1.value.0 == e.chromaDepth
    ensures var q := ParseRanged(s, ParseRanged(s, p, 6).value.1, 6).value.1;
            && ParseFlag(s, q) == Ok((e.bypass, q + 1))
            && ParseFlag(s, q + 1) == Ok((e.scaling != [], q + 2))
            && p + |Encode(FlagFields(e), p)| == q + 2
  {
    hide Encode, FieldBits, CodeAt;
    var a, b, c, d := Unsigned(e.luma), Unsigned(e.chromaDepth), Bit(e.bypass), Bit(e.scaling != []);
    assert FlagFields(e) == [a] + [b] + [c] + [d];
    HoldsConcat(s, p, [a] + [b] + [c], [d]);
    HoldsConcat(s, p, [a] + [b], [c]);
    HoldsConcat(s, p, [a], [b]);
    FieldBack(s, p, a);
    var q0 := p + |Encode([a], p)|;
    FieldBack(s, q0, b);
    var q1 := q0 + |Encode([b], q0)|;
    FieldBack(s, q1, c);
    FieldBack(s, q1 + 1, d);
  }

  lemma ExtBack(s: seq<bool>, p: nat, e: SpsExt)
    requires WellFormed(e) && ScalingFits(e.scaling)
    requires AllWritable(ExtFields(e)) && Holds(s, p, ExtFields(e))
    ensures ParseExt(s, p) == Ok((e, p + |Encode(ExtFields(e), p)|))
  {
    hide Encode, Holds, HeadFields, FlagFields, ListsFields, ParseRanged, ParseLists, EndsWhereReadingStops;
    ExtWritable(e);
    ListsWritable(e.scaling);
    HoldsConcat(s, p, HeadFields(e) + FlagFields(e), ListsFields(e.scaling));
    HoldsConcat(s, p, HeadFields(e), FlagFields(e));
    HeadBack(s, p, e);
    var q := p + |Encode(HeadFields(e), p)|;
    FlagsBack(s, q, e);
    var q' := q + |Encode(FlagFields(e), q)|;
    if e.scaling == [] {
      NoLists();
      EncodeNothing(q');
    } else {
      ListsBack(s, q', e.scaling);
    }
  }

  lemma {:induction false} ParsedDeltasEnd(s: seq<bool>, p: nat, size: nat, scale: int)
    requires ParseDeltas(s, p, size, scale).Some?
    ensures Ends(ParseDeltas(s, p, size, scale).value.0, size, scale)
    decreases size
  {
    hide CodeAt, NextScale, Ends, ToSigned;
    var l := ParseDeltas(s, p, size, scale).value.0;
    if size == 0 {
      EmptyEnds(scale);
    } else {
      EndsStep(l, size, scale);
      var (n, q) := CodeAt(s, p).value;
      var next := NextScale(scale, ToSigned(n));
      if next != 0 {
        ParsedDeltasEnd(s, q, size - 1, next);
        assert l[1..] == ParseDeltas(s, q, size - 1, next).value.0;
      }
    }
  }

  lemma EmptyEnds(scale: int)
    ensures Ends([], 0, scale)
  {
  }

  lemma {:induction false} ParsedListsEnd(s: seq<bool>, p: nat, n: nat)
    requires ParseLists(s, p, n).Some?
    ensures var lists := ParseLists(s, p, n).value.0;
            |lists| == n && forall i :: 0 <= i < n ==> EndsWhereReadingStops(lists[i], ListSize(i))
  {
    hide ParseDeltas, Ends;
    if n != 0 {
      ParsedListsEnd(s, p, n - 1);
      var (init, q) := ParseLists(s, p, n - 1).value;
      if s[q] {
        ParsedDeltasEnd(s, q + 1, ListSize(n - 1), 8);
      }
    }
  }

  /** Whatever bits are read, every extension that comes out is well formed. */
  lemma ParsedIsWellFormed(s: seq<bool>, p: nat)
    requires ParseExt(s, p).Ok?
    ensures WellFormed(ParseExt(s, p).value.0)
  {
    hide CodeAt, ParseLists, EndsWhereReadingStops;
    var (chroma, q0) := ParseRanged(s, p, 3).value;
    var q1 := ParseSeparate(s, q0, chroma).value.1;
    var q2 := ParseRanged(s, q1, 6).value.1;
    var q3 := ParseRanged(s, q2, 6).value.1;
    var (present, q5) := ParseFlag(s, q3 + 1).value;
    if present {
      ParsedListsEnd(s, q5, ListCount(chroma));
    }
  }
}
