/** Counting and summing over a sequence of which one element changes. */
module Tally {
  import opened Bits

  function Sum(xs: seq<nat>): nat {
    if xs == [] then 0 else xs[0] + Sum(xs[1..])
  }

  lemma {:induction false} SumUpdate(xs: seq<nat>, i: nat, x: nat)
    requires i < |xs|
    ensures Sum(xs[i := x]) == Sum(xs) - xs[i] + x
  {
    if i > 0 {
      SumUpdate(xs[1..], i - 1, x);
      assert xs[i := x][1..] == xs[1..][i - 1 := x];
    }
  }

  lemma {:induction false} SumConcat(xs: seq<nat>, ys: seq<nat>)
    ensures Sum(xs + ys) == Sum(xs) + Sum(ys)
  {
    if xs == [] {
      assert xs + ys == ys;
    } else {
      SumConcat(xs[1..], ys);
      assert (xs + ys)[1..] == xs[1..] + ys;
    }
  }

  lemma {:induction false} SumOfZeros(xs: seq<nat>)
    ensures Sum(xs) == 0 <==> forall i :: 0 <= i < |xs| ==> xs[i] == 0
  {
    if xs != [] {
      SumOfZeros(xs[1..]);
      assert forall i :: 0 <= i < |xs| - 1 ==> xs[1..][i] == xs[i + 1];
      if Sum(xs) == 0 {
        forall i | 0 <= i < |xs|
          ensures xs[i] == 0
        {
          assert i > 0 ==> xs[1..][i - 1] == xs[i];
        }
      }
    }
  }

  function Map<T, U>(f: T -> U, xs: seq<T>): (ys: seq<U>)
    ensures |ys| == |xs|
    ensures forall i :: 0 <= i < |xs| ==> ys[i] == f(xs[i])
  {
    seq(|xs|, i requires 0 <= i < |xs| => f(xs[i]))
  }

  /** The weights of a sequence, added up. */
  function Total<T>(f: T -> nat, xs: seq<T>): nat {
    Sum(Map(f, xs))
  }

  lemma TotalUpdate<T>(f: T -> nat, xs: seq<T>, i: nat, x: T)
    requires i < |xs|
    ensures Total(f, xs[i := x]) == Total(f, xs) - f(xs[i]) + f(x)
    ensures f(xs[i]) <= Total(f, xs)
  {
    SumUpdate(Map(f, xs), i, f(x));
    SumUpdate(Map(f, xs), i, 0);
    assert Map(f, xs[i := x]) == Map(f, xs)[i := f(x)];
  }

  lemma TotalConcat<T>(f: T -> nat, xs: seq<T>, ys: seq<T>)
    ensures Total(f, xs + ys) == Total(f, xs) + Total(f, ys)
  {
    SumConcat(Map(f, xs), Map(f, ys));
    assert Map(f, xs + ys) == Map(f, xs) + Map(f, ys);
  }

  lemma TotalOfZeros<T>(f: T -> nat, xs: seq<T>)
    ensures Total(f, xs) == 0 <==> forall i :: 0 <= i < |xs| ==> f(xs[i]) == 0
  {
    SumOfZeros(Map(f, xs));
    assert forall i :: 0 <= i < |xs| ==> Map(f, xs)[i] == f(xs[i]);
  }

  /** One more item, in groups of `size`. */
  lemma DivModStep(n: nat, size: nat)
    requires size >= 1
    ensures n < size ==> n / size == 0 && n % size == n
    ensures n >= 1 && (n - 1) % size + 1 < size ==> n / size == (n - 1) / size && n % size == (n - 1) % size + 1
    ensures n >= 1 && (n - 1) % size + 1 == size ==> n / size == (n - 1) / size + 1 && n % size == 0
  {
    if n >= 1 {
      var q, r := (n - 1) / size, (n - 1) % size;
      assert n - 1 == q * size + r;
      if r + 1 < size {
        DivUnique(n, size, q, r + 1);
      } else {
        assert (q + 1) * size == q * size + size;
        DivUnique(n, size, q + 1, 0);
      }
    }
    if n < size {
      DivUnique(n, size, 0, n);
    }
  }
}
