/** `build`, `parse`, `bitsize` and `bytesize` of the sequence parameter set extension, call by
    call as in crates/h264/src/sps/sps_ext.rs. */
module SpsExtensionCoding {
  import opened Wrappers
  import opened Bits
  import opened BitReading
  import opened BitWriting
  import opened ExpGolomb
  import opened Fields
  import opened FieldWriting
  import opened SpsExtension

  method BuildList(w: BitWriter, l: seq<int>, ghost base: seq<bool>, ghost before: seq<Field>)
    requires w.Valid() && HasWritten(w, base, before) && DeltasFit(l)
    modifies w
    ensures w.Valid() && HasWritten(w, base, before + ListFields(l))
  {
    hide HasWritten;
    PutFlag(w, l != [], base, before);
    ghost var fs := before + [Bit(l != [])];
    assert fs + Deltas(l[..0]) == fs;
    for i := 0 to |l|
      invariant w.Valid() && HasWritten(w, base, fs + Deltas(l[..i]))
    {
      PutSigned(w, l[i], base, fs + Deltas(l[..i]));
      assert fs + Deltas(l[..i]) + [Signed(l[i])] == fs + Deltas(l[..i + 1]);
    }
    assert l[..|l|] == l;
    assert fs + Deltas(l) == before + ListFields(l);
  }

  method BuildLists(w: BitWriter, lists: seq<seq<int>>, ghost base: seq<bool>, ghost before: seq<Field>)
    requires w.Valid() && HasWritten(w, base, before) && ScalingFits(lists)
    modifies w
    ensures w.Valid() && HasWritten(w, base, before + ListsFields(lists))
  {
    hide HasWritten, ListFields, DeltasFit;
    assert before + ListsFields([]) == before;
    for i := 0 to |lists|
      invariant w.Valid() && HasWritten(w, base, before + ListsFields(lists[..i]))
    {
      ghost var fs := before + ListsFields(lists[..i]);
      BuildList(w, lists[i], base, fs);
      assert lists[..i + 1][..i] == lists[..i];
      assert fs + ListFields(lists[i]) == before + ListsFields(lists[..i + 1]);
    }
    assert lists[..|lists|] == lists;
  }

  /** `build`. It checks nothing: ranges and list lengths are the caller's business. */
  method Build(w: BitWriter, e: SpsExt)
    requires w.Valid() && ScalingFits(e.scaling)
    modifies w
    ensures w.Valid() && AllWritable(ExtFields(e))
    ensures w.Written() == old(w.Written()) + Encode(ExtFields(e), |old(w.Written())|)
  {
    hide HasWritten, ListsFields, ScalingFits;
    ghost var base := w.Written();
    ghost var fs: seq<Field> := [];
    WritingBegins(w);
    PutUnsigned(w, e.chroma, base, fs);
    fs := fs + [Unsigned(e.chroma)];
    if e.chroma == 3 {
      PutFlag(w, e.separate, base, fs);
      fs := fs + [Bit(e.separate)];
    }
    assert fs == HeadFields(e);
    PutUnsigned(w, e.luma, base, fs);
    fs := fs + [Unsigned(e.luma)];
    PutUnsigned(w, e.chromaDepth, base, fs);
    fs := fs + [Unsigned(e.chromaDepth)];
    PutFlag(w, e.bypass, base, fs);
    fs := fs + [Bit(e.bypass)];
    PutFlag(w, e.scaling != [], base, fs);
    fs := fs + [Bit(e.scaling != [])];
    assert fs == HeadFields(e) + FlagFields(e);
    BuildLists(w, e.scaling, base, fs);
    WritingEnds(w, base, ExtFields(e));
  }

  function Prepend(l: seq<int>, rest: Option<(seq<int>, nat)>): Option<(seq<int>, nat)> {
    match rest
    case None => None
    case Some((more, q)) => Some((l + more, q))
  }

  lemma PrependNothing(rest: Option<(seq<int>, nat)>)
    ensures Prepend([], rest) == rest
  {
    if rest.Some? {
      assert [] + rest.value.0 == rest.value.0;
    }
  }

  lemma DeltasStep(s: seq<bool>, p: nat, size: nat, scale: int, l: seq<int>)
    requires size != 0
    ensures var whole := Prepend(l, ParseDeltas(s, p, size, scale));
            match CodeAt(s, p)
            case None => whole == None
            case Some((n, q)) =>
              var delta := ToSigned(n);
              var next := NextScale(scale, delta);
              whole == if next == 0 then Some((l + [delta], q))
                       else Prepend(l + [delta], ParseDeltas(s, q, size - 1, next))
  {
    hide CodeAt, NextScale, ToSigned;
    if CodeAt(s, p).Some? {
      var (n, q) := CodeAt(s, p).value;
      var delta := ToSigned(n);
      var rest := ParseDeltas(s, q, size - 1, NextScale(scale, delta));
      assert rest.Some? ==> l + ([delta] + rest.value.0) == (l + [delta]) + rest.value.0;
    }
  }

  lemma DeltasDone(s: seq<bool>, p: nat, scale: int, l: seq<int>)
    ensures Prepend(l, ParseDeltas(s, p, 0, scale)) == Some((l, p))
  {
    assert l + [] == l;
  }

  /** The loop over one list, which stops early at the first zero scale. */
  method ReadDeltas(r: BitReader, size: nat) returns (v: Result<seq<int>, IoError>)
    requires r.Valid()
    modifies r
    ensures r.Valid()
    ensures match ParseDeltas(r.Stream(), old(r.Position()), size, 8)
            case None => v == Err(UnexpectedEof)
            case Some((l, q)) => v == Ok(l) && r.Position() == q
  {
    hide CodeAt, NextScale, ToSigned, BytesBits, Prepend, ParseDeltas;
    ghost var s := r.Stream();
    ghost var whole := ParseDeltas(s, r.Position(), size, 8);
    var l, scale := [], 8;
    PrependNothing(whole);
    for i := 0 to size
      invariant r.Valid()
      invariant whole == Prepend(l, ParseDeltas(s, r.Position(), size - i, scale))
    {
      DeltasStep(s, r.Position(), size - i, scale, l);
      var delta :- ReadSignedExpGolomb(r);
      l := l + [delta];
      scale := NextScale(scale, delta);
      if scale == 0 {
        return Ok(l);
      }
    }
    DeltasDone(s, r.Position(), scale, l);
    return Ok(l);
  }

  method ReadLists(r: BitReader, count: nat) returns (v: Result<seq<seq<int>>, IoError>)
    requires r.Valid()
    modifies r
    ensures r.Valid()
    ensures match ParseLists(r.Stream(), old(r.Position()), count)
            case None => v == Err(UnexpectedEof)
            case Some((lists, q)) => v == Ok(lists) && r.Position() == q
  {
    hide BytesBits, ParseDeltas;
    ghost var s, p := r.Stream(), r.Position();
    var lists := [];
    for i := 0 to count
      invariant r.Valid()
      invariant ParseLists(s, p, i) == Some((lists, r.Position()))
    {
      ListsFail(s, p, i + 1, count);
      var bit :- r.ReadBit();
      var l := [];
      if bit {
        l :- ReadDeltas(r, ListSize(i));
      }
      lists := lists + [l];
    }
    return Ok(lists);
  }

  lemma {:induction false} ListsFail(s: seq<bool>, p: nat, i: nat, n: nat)
    requires i <= n
    ensures ParseLists(s, p, i).None? ==> ParseLists(s, p, n).None?
    decreases n
  {
    if i < n {
      ListsFail(s, p, i, n - 1);
    }
  }

  /** `read_exp_golomb` and `range_check!`. */
  method ReadRanged(r: BitReader, limit: nat) returns (v: Result<nat, IoError>)
    requires r.Valid()
    modifies r
    ensures r.Valid()
    ensures match ParseRanged(r.Stream(), old(r.Position()), limit)
            case Err(e) => v == Err(e)
            case Ok((n, q)) => v == Ok(n) && r.Position() == q && n <= limit
  {
    hide CodeAt;
    var n :- ReadExpGolomb(r);
    if n > limit {
      return Err(InvalidData);
    }
    return Ok(n);
  }

  /** The flag and, behind it, the lists. */
  method ReadScaling(r: BitReader, chroma: nat) returns (v: Result<seq<seq<int>>, IoError>)
    requires r.Valid()
    modifies r
    ensures r.Valid()
    ensures match ParseScaling(r.Stream(), old(r.Position()), chroma)
            case Err(e) => v == Err(e)
            case Ok((scaling, q)) => v == Ok(scaling) && r.Position() == q
  {
    hide ParseLists, BytesBits;
    var present :- r.ReadBit();
    if !present {
      return Ok([]);
    }
    v := ReadLists(r, ListCount(chroma));
  }

  method Parse(r: BitReader) returns (v: Result<SpsExt, IoError>)
    requires r.Valid()
    modifies r
    ensures r.Valid()
    ensures match ParseExt(r.Stream(), old(r.Position()))
            case Err(e) => v == Err(e)
            case Ok((e, q)) => v == Ok(e) && r.Position() == q && WellFormed(e)
  {
    hide ParseRanged, ParseScaling, BytesBits, WellFormed;
    if ParseExt(r.Stream(), r.Position()).Ok? {
      ParsedIsWellFormed(r.Stream(), r.Position());
    }
    var chroma :- ReadRanged(r, 3);
    var separate := false;
    if chroma == 3 {
      separate :- r.ReadBit();
    }
    var luma :- ReadRanged(r, 6);
    var chromaDepth :- ReadRanged(r, 6);
    var bypass :- r.ReadBit();
    var scaling :- ReadScaling(r, chroma);
    return Ok(SpsExt(chroma, separate, luma, chromaDepth, bypass, scaling));
  }

  ghost function DeltaBits(l: seq<int>): nat
    requires DeltasFit(l)
  {
    if l == [] then 0 else DeltaBits(l[..|l| - 1]) + |CodeWord(FromSigned(l[|l| - 1]))|
  }

  ghost function ScalingBits(lists: seq<seq<int>>): nat
    requires ScalingFits(lists)
  {
    if lists == [] then 0 else ScalingBits(lists[..|lists| - 1]) + DeltaBits(lists[|lists| - 1])
  }

  lemma {:induction false} DeltasLength(l: seq<int>, p: nat)
    requires DeltasFit(l)
    ensures AllWritable(Deltas(l)) && |Encode(Deltas(l), p)| == DeltaBits(l)
  {
    hide Encode, CodeWord;
    DeltasWritable(l);
    if l == [] {
      EncodeNothing(p);
    } else {
      var n := |l| - 1;
      DeltasLength(l[..n], p);
      EncodeExtend(Deltas(l[..n]), Signed(l[n]), p);
      assert Deltas(l[..n]) + [Signed(l[n])] == Deltas(l);
    }
  }

  lemma ListLength(l: seq<int>, p: nat)
    requires DeltasFit(l)
    ensures AllWritable(ListFields(l)) && |Encode(ListFields(l), p)| == 1 + DeltaBits(l)
  {
    hide Encode, DeltaBits;
    DeltasWritable(l);
    var f := Bit(l != []);
    EncodeOne(f, p);
    DeltasLength(l, p + 1);
    EncodeConcat([f], Deltas(l), p);
  }

  lemma {:induction false} ListsLength(lists: seq<seq<int>>, p: nat)
    requires ScalingFits(lists)
    ensures AllWritable(ListsFields(lists)) && |Encode(ListsFields(lists), p)| == |lists| + ScalingBits(lists)
  {
    hide Encode, DeltaBits, DeltasFit, ListFields;
    ListsWritable(lists);
    if lists == [] {
      EncodeNothing(p);
    } else {
      var n := |lists| - 1;
      ListsLength(lists[..n], p);
      ListLength(lists[n], p + |Encode(ListsFields(lists[..n]), p)|);
      EncodeConcat(ListsFields(lists[..n]), ListFields(lists[n]), p);
    }
  }

  lemma HeadLength(e: SpsExt, p: nat)
    ensures AllWritable(HeadFields(e)) && AllWritable(FlagFields(e)) && AllWritable(HeadFields(e) + FlagFields(e))
    ensures |Encode(HeadFields(e) + FlagFields(e), p)| ==
            |CodeWord(e.chroma)| + (if e.chroma == 3 then 1 else 0) + |CodeWord(e.luma)| + |CodeWord(e.chromaDepth)| + 2
  {
    hide Encode, CodeWord;
    var fs := HeadFields(e) + FlagFields(e);
    EncodeNothing(p);
    for i := 0 to |fs|
      invariant AllWritable(fs)
      invariant |Encode(fs[..i], p)| == FieldSizes(e, i)
    {
      EncodeExtend(fs[..i], fs[i], p);
      assert fs[..i] + [fs[i]] == fs[..i + 1];
    }
    assert fs[..|fs|] == fs;
  }

  /** The bits of the first `i` fields. */
  ghost function FieldSizes(e: SpsExt, i: nat): nat {
    (if i >= 1 then |CodeWord(e.chroma)| else 0)
    + (if e.chroma == 3 && i >= 2 then 1 else 0)
    + var j := if e.chroma == 3 && i >= 1 then i - 1 else i;
      (if j >= 2 then |CodeWord(e.luma)| else 0) + (if j >= 3 then |CodeWord(e.chromaDepth)| else 0)
      + (if j >= 4 then 1 else 0) + (if j >= 5 then 1 else 0)
  }

  lemma ExtLength(e: SpsExt, p: nat)
    requires ScalingFits(e.scaling)
    ensures AllWritable(ExtFields(e))
    ensures |Encode(ExtFields(e), p)| ==
            |CodeWord(e.chroma)| + (if e.chroma == 3 then 1 else 0) + |CodeWord(e.luma)| + |CodeWord(e.chromaDepth)| + 2
            + |e.scaling| + ScalingBits(e.scaling)
  {
    hide Encode, CodeWord, HeadFields, FlagFields, ListsFields, ScalingBits;
    HeadLength(e, p);
    var q := p + |Encode(HeadFields(e) + FlagFields(e), p)|;
    ListsLength(e.scaling, q);
    EncodeConcat(HeadFields(e) + FlagFields(e), ListsFields(e.scaling), p);
  }

  /** `bitsize()`, at whatever position the extension is written. */
  method BitSize(e: SpsExt) returns (size: nat)
    requires ScalingFits(e.scaling)
    ensures AllWritable(ExtFields(e))
    ensures forall p: nat {:trigger Encode(ExtFields(e), p)} :: |Encode(ExtFields(e), p)| == size
  {
    hide Encode, CodeWord, ExtFields;
    var chroma := SizeOfExpGolomb(e.chroma);
    var luma := SizeOfExpGolomb(e.luma);
    var chromaDepth := SizeOfExpGolomb(e.chromaDepth);
    size := chroma + (if e.chroma == 3 then 1 else 0) + luma + chromaDepth + 1 + 1 + |e.scaling|;
    var lists := DeltaSizes(e.scaling);
    size := size + lists;
    forall p: nat ensures AllWritable(ExtFields(e)) && |Encode(ExtFields(e), p)| == size {
      ExtLength(e, p);
    }
    ExtLength(e, 0);
  }

  method DeltaSizes(lists: seq<seq<int>>) returns (size: nat)
    requires ScalingFits(lists)
    ensures size == ScalingBits(lists)
  {
    hide CodeWord, DeltasFit;
    size := 0;
    for i := 0 to |lists|
      invariant ScalingFits(lists[..i]) && size == ScalingBits(lists[..i])
    {
      var l := ListDeltaSizes(lists[i]);
      size := size + l;
      assert lists[..i + 1][..i] == lists[..i];
    }
    assert lists[..|lists|] == lists;
  }

  method ListDeltaSizes(l: seq<int>) returns (size: nat)
    requires DeltasFit(l)
    ensures size == DeltaBits(l)
  {
    hide CodeWord;
    size := 0;
    for i := 0 to |l|
      invariant DeltasFit(l[..i]) && size == DeltaBits(l[..i])
    {
      var n := SizeOfSignedExpGolomb(l[i]);
      size := size + n;
      assert l[..i + 1][..i] == l[..i];
    }
    assert l[..|l|] == l;
  }

  lemma CodeWordIsShort(n: nat)
    requires n <= MAX_VALUE
    ensures |CodeWord(n)| <= 127
  {
    Log2OfU64(n + 1);
  }

  lemma {:induction false} DeltaBitsBound(l: seq<int>)
    requires DeltasFit(l)
    ensures DeltaBits(l) <= 127 * |l|
  {
    hide CodeWord;
    if l != [] {
      DeltaBitsBound(l[..|l| - 1]);
      CodeWordIsShort(FromSigned(l[|l| - 1]));
    }
  }

  lemma {:induction false} ScalingBitsBound(lists: seq<seq<int>>)
    requires ScalingFits(lists) && forall i :: 0 <= i < |lists| ==> |lists[i]| <= 64
    ensures ScalingBits(lists) <= 127 * 64 * |lists|
  {
    hide DeltaBits, DeltasFit;
    if lists != [] {
      ScalingBitsBound(lists[..|lists| - 1]);
      DeltaBitsBound(lists[|lists| - 1]);
    }
  }

  /** A well-formed extension fits a 16-bit byte length. */
  lemma ExtIsShort(e: SpsExt, p: nat)
    requires WellFormed(e) && ScalingFits(e.scaling)
    ensures AllWritable(ExtFields(e)) && |Encode(ExtFields(e), p)| < 8 * 0xFFFF
  {
    hide Encode, CodeWord, ExtFields, ScalingBits, ScalingFits, StopsAfter;
    ExtLength(e, p);
    CodeWordIsShort(e.chroma);
    CodeWordIsShort(e.luma);
    CodeWordIsShort(e.chromaDepth);
    forall i | 0 <= i < |e.scaling| ensures |e.scaling[i]| <= 64 {
      assert EndsWhereReadingStops(e.scaling[i], ListSize(i));
    }
    ScalingBitsBound(e.scaling);
  }

  /** `build` and `parse` are inverse exactly on the well-formed extensions: wherever the
      extension stands, reading yields it if and only if every scaling list ends where the
      reader stops. */
  lemma RoundTripIffWellFormed(s: seq<bool>, p: nat, e: SpsExt)
    requires ScalingFits(e.scaling)
    requires AllWritable(ExtFields(e)) && Holds(s, p, ExtFields(e))
    ensures (ParseExt(s, p).Ok? && ParseExt(s, p).value.0 == e) <==> WellFormed(e)
    ensures WellFormed(e) ==> ParseExt(s, p).value.1 == p + |Encode(ExtFields(e), p)|
  {
    hide ParseExt, WellFormed, ExtFields, Holds;
    if WellFormed(e) {
      ExtBack(s, p, e);
    } else if ParseExt(s, p).Ok? {
      ParsedIsWellFormed(s, p);
    }
  }

  /** A list that runs on behind the place where reading stops is read up to there; what is left of it
      is taken for whatever comes next. */
  lemma ListIsCutShort(s: seq<bool>, p: nat, l: seq<int>, more: seq<int>, size: nat)
    requires DeltasFit(l + more) && l != [] && EndsWhereReadingStops(l, size)
    requires AllWritable(ListFields(l + more)) && Holds(s, p, ListFields(l + more))
    ensures AllWritable(ListFields(l))
    ensures ParseList(s, p, size) == Some((l, p + |Encode(ListFields(l), p)|))
  {
    hide Encode, Holds, Ends, ParseList, Writable;
    assert l == (l + more)[..|l|] && more == (l + more)[|l|..];
    DeltasWritable(l);
    DeltasWritable(more);
    assert ListFields(l + more) == ListFields(l) + Deltas(more);
    HoldsConcat(s, p, ListFields(l), Deltas(more));
    ListBack(s, p, l, size);
  }

  /** Such an extension: the first list goes on behind a zero scale, is read as its first delta alone,
      and the extension does not come back from wherever it stands. */
  lemma ListBehindZeroScale(s: seq<bool>, p: nat) returns (e: SpsExt)
    ensures |e.scaling| == 8 && e.scaling[0] == [-8, 1] && ScalingFits(e.scaling) && AllWritable(ExtFields(e))
    ensures EndsWhereReadingStops([-8], ListSize(0)) && !EndsWhereReadingStops(e.scaling[0], ListSize(0))
    ensures Holds(s, p, ExtFields(e)) ==> !(ParseExt(s, p).Ok? && ParseExt(s, p).value.0 == e)
  {
    hide Holds, Encode, ParseExt, ExtFields;
    e := SpsExt(1, false, 0, 0, false, [[-8, 1], [], [], [], [], [], [], []]);
    ExtWritable(e);
    ZeroScaleStops();
    ListNotWellFormed(e, 0);
    if Holds(s, p, ExtFields(e)) {
      RoundTripIffWellFormed(s, p, e);
    }
  }

  lemma ListNotWellFormed(e: SpsExt, i: nat)
    requires i < |e.scaling| && !EndsWhereReadingStops(e.scaling[i], ListSize(i))
    ensures !WellFormed(e)
  {
  }

  lemma ZeroScaleStops()
    ensures EndsWhereReadingStops([-8], 16) && !EndsWhereReadingStops([-8, 1], 16)
  {
    SumOfOne(-8);
    assert [-8, 1][..1] == [-8] && [-8][..1] == [-8];
    assert StopsAfter(8, [-8, 1], 1) && StopsAfter(8, [-8], 1);
  }

  lemma SumOfOne(n: int)
    ensures Sum([n]) == n
  {
    assert [n][1..] == [];
  }
}
