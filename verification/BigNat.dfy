/** Natural numbers as little-endian sequences of 32-bit words, and the arithmetic that carries and borrows rest on. */
module BigNat {
  import opened Arithmetic

  const U32: int := 0x1_0000_0000

  const U64: int := 0x1_0000_0000_0000_0000

  type Word = w: int | 0 <= w < U32

  /** The weight of word `i`. */
  function B(i: nat): (r: nat)
    ensures r > 0
  {
    if i == 0 then 1 else U32 * B(i - 1)
  }

  /** The number that words denote. */
  function Nat(x: seq<Word>): nat
  {
    if x == [] then 0 else Nat(x[..|x| - 1]) + x[|x| - 1] * B(|x| - 1)
  }

  lemma NatAppend(x: seq<Word>, w: Word)
    ensures Nat(x + [w]) == Nat(x) + w * B(|x|)
  {
    assert (x + [w])[..|x|] == x;
  }

  lemma NatPrefix(x: seq<Word>, i: nat)
    requires i < |x|
    ensures Nat(x[..i + 1]) == Nat(x[..i]) + x[i] * B(i)
  {
    assert x[..i + 1] == x[..i] + [x[i]];
    NatAppend(x[..i], x[i]);
  }

  lemma {:induction false} NatBound(x: seq<Word>)
    ensures Nat(x) < B(|x|)
  {
    if x != [] {
      var n := |x| - 1;
      var top: int := x[n];
      NatBound(x[..n]);
      MulOrder(top + 1, U32, B(n));
      Distribute(top, 1, B(n));
    }
  }

  /** Leading zeros do not count. */
  lemma {:induction false} NatZeros(x: seq<Word>, n: nat)
    requires n <= |x| && forall k | n <= k < |x| :: x[k] == 0
    ensures Nat(x) == Nat(x[..n])
    decreases |x|
  {
    if n < |x| {
      NatZeros(x[..|x| - 1], n);
      assert x[..|x| - 1][..n] == x[..n];
    } else { assert x[..n] == x; }
  }

  lemma {:induction false} AllZero(x: seq<Word>)
    requires forall k | 0 <= k < |x| :: x[k] == 0
    ensures Nat(x) == 0
  {
    if x != [] { AllZero(x[..|x| - 1]); }
  }

  /** A number without leading zeros is at least the weight of its last word. */
  lemma NatTop(x: seq<Word>)
    requires x != [] && x[|x| - 1] != 0
    ensures B(|x| - 1) <= Nat(x)
  {
    MulOrder(1, x[|x| - 1], B(|x| - 1));
  }

  lemma {:induction false} WeightOrder(i: nat, j: nat)
    requires i <= j
    ensures B(i) <= B(j)
    decreases j - i
  {
    if i < j { WeightOrder(i, j - 1); }
  }

  /** More words without leading zeros are more. */
  lemma LongerIsMore(x: seq<Word>, y: seq<Word>)
    requires |x| < |y| && y[|y| - 1] != 0
    ensures Nat(x) < Nat(y)
  {
    NatBound(x);
    NatTop(y);
    WeightOrder(|x|, |y| - 1);
  }

  /** Numbers of one length compare as their first different words from the top do. */
  lemma {:induction false} CompareAt(x: seq<Word>, y: seq<Word>, j: nat)
    requires |x| == |y| && j < |x| && x[j] < y[j] && forall k | j < k < |x| :: x[k] == y[k]
    ensures Nat(x) < Nat(y)
    decreases |x|
  {
    var n := |x| - 1;
    if j < n {
      CompareAt(x[..n], y[..n], j);
    } else {
      var top: int := x[n];
      NatBound(x[..n]);
      MulOrder(top + 1, y[n], B(n));
      Distribute(top, 1, B(n));
    }
  }

  // ---------- Powers ----------

  function Pow(b: nat, n: nat): (r: nat)
    ensures b > 0 ==> r > 0
  {
    if n == 0 then 1 else b * Pow(b, n - 1)
  }

  lemma {:induction false} PowAdd(b: nat, m: nat, n: nat)
    ensures Pow(b, m + n) == Pow(b, m) * Pow(b, n)
  {
    if m > 0 {
      PowAdd(b, m - 1, n);
      Associate(b, Pow(b, m - 1), Pow(b, n));
    }
  }

  lemma {:induction false} WeightIsPower(i: nat)
    ensures B(i) == Pow(2, 32 * i)
  {
    if i > 0 {
      WeightIsPower(i - 1);
      PowAdd(2, 32, 32 * (i - 1));
      TwoTo32();
    }
  }

  lemma TwoTo32()
    ensures Pow(2, 32) == U32
  {
    assert Pow(2, 8) == 0x100;
    PowAdd(2, 8, 8);
    PowAdd(2, 16, 16);
  }

  lemma {:induction false} WeightAdd(i: nat, j: nat)
    ensures B(i + j) == B(i) * B(j)
  {
    if i > 0 {
      WeightAdd(i - 1, j);
      Associate(U32, B(i - 1), B(j));
    }
  }
}
