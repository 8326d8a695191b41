/** Powers of five, the scaling of divisors, and the digits of a quotient, on the big integers of dtoa.c. */
module Decimal {
  import opened Arithmetic
  import opened BigNat
  import opened BigInt

  // ---------- Powers of five ----------

  /** Entry `i` of the chain: 625 squared `i` times. */
  function Square(i: nat): (r: nat)
    ensures r > 0
  {
    if i == 0 then 625 else Square(i - 1) * Square(i - 1)
  }

  lemma {:induction false} SquareIsPower(i: nat)
    ensures Square(i) == Pow(5, 4 * Pow(2, i))
  {
    if i == 0 { assert Pow(5, 4) == 625 by { PowAdd(5, 2, 2); } }
    else {
      SquareIsPower(i - 1);
      PowAdd(5, 4 * Pow(2, i - 1), 4 * Pow(2, i - 1));
    }
  }

  /** The chain of powers that are computed once and kept. */
  class Powers {
    var chain: seq<Bigint>

    ghost predicate Valid()
      reads this, chain, set i | 0 <= i < |chain| :: chain[i].x
    {
      forall i | 0 <= i < |chain| :: chain[i].Normal() && chain[i].Value() == Square(i)
    }

    constructor ()
      ensures Valid() && chain == []
    {
      chain := [];
    }

    /** A number that is no entry of the chain. */
    ghost predicate Apart(b: Bigint)
      reads this, chain, b
    {
      forall i | 0 <= i < |chain| :: chain[i] != b && chain[i].x != b.x
    }

    /** Make sure that the chain has an entry `i`; a new entry is no number that exists already. */
    method Extend(i: nat, ghost b: Bigint)
      requires Valid() && i <= |chain| && Apart(b)
      modifies this
      ensures Valid() && i < |chain| && old(chain) <= chain && Apart(b)
    {
      if i == |chain| {
        var p;
        if i == 0 {
          p := new Bigint(1);
          p.x[0], p.wds := 625, 1;
          OneWord(p.x[..1]);
        } else {
          p := Mult(chain[i - 1], chain[i - 1]);
        }
        chain := chain + [p];
      }
    }

    /** Multiply by 5 to the `k`: by a small power in place, then by entries of the chain for the bits of k / 4. */
    method Pow5Mult(b: Bigint, k: nat) returns (r: Bigint)
      requires Valid() && b.Normal() && b.Value() > 0 && Apart(b)
      modifies this, b, b.x
      ensures Valid() && r.Normal() && r.Value() == old(b.Value()) * Pow(5, k) && Apart(r) && old(chain) <= chain
      ensures r == b || fresh(r)
      ensures r.x == old(b.x) || fresh(r.x)
    {
      hide Nat, B, Square;
      ghost var v := b.Value();
      r := b;
      var i := k % 4;
      SmallPowers();
      PowAdd(5, i, 4 * (k / 4));
      PowFour(k / 4);
      if i != 0 {
        b.MultAdd(if i == 1 then 5 else if i == 2 then 25 else 125, 0);
      }
      ghost var w := b.Value();
      Associate(v, Pow(5, i), Pow(5, 4 * (k / 4)));
      assert w == v * Pow(5, i);
      if k / 4 != 0 { r := MultChain(b, k / 4); }
    }

    /** Multiply by one entry of the chain. */
    method TimesEntry(b: Bigint, i: nat) returns (r: Bigint)
      requires Valid() && i < |chain| && b.Normal() && b.Value() > 0
      ensures r.Normal() && r.Value() == b.Value() * Square(i) && r.Value() > 0 && Apart(r) && fresh(r) && fresh(r.x)
    {
      hide Nat, Square;
      r := Mult(b, chain[i]);
      MulOrder(1, b.Value(), Square(i));
    }

    /** Multiply by 625 to the `n`. */
    method MultChain(b: Bigint, n: nat) returns (r: Bigint)
      requires Valid() && b.Normal() && b.Value() > 0 && Apart(b) && n > 0
      modifies this
      ensures Valid() && r.Normal() && r.Value() == b.Value() * Pow(625, n) && Apart(r) && old(chain) <= chain
      ensures r == b || (fresh(r) && fresh(r.x))
    {
      SquareStart();
      hide Nat, B, Square, Pow, Valid, Apart;
      r := b;
      var k, i := n, 0;
      Extend(0, b);
      while true
        invariant Valid() && i < |chain| && old(chain) <= chain && k > 0
        invariant r.Normal() && r.Value() > 0 && Apart(r)
        invariant r == b || (fresh(r) && fresh(r.x))
        invariant r.Value() * Pow(Square(i), k) == b.Value() * Pow(625, n)
        decreases k
      {
        PowHalf(Square(i), k);
        SquareNext(i);
        Associate(r.Value(), if k % 2 == 1 then Square(i) else 1, Pow(Square(i + 1), k / 2));
        if k % 2 == 1 { r := TimesEntry(r, i); }
        k := k / 2;
        if k == 0 { PowZero(Square(i + 1)); break; }
        Extend(i + 1, r);
        i := i + 1;
      }
    }
  }

  lemma SmallPowers()
    ensures Pow(5, 0) == 1 && Pow(5, 1) == 5 && Pow(5, 2) == 25 && Pow(5, 3) == 125
  {
  }

  lemma SquareStart()
    ensures Square(0) == 625
  {
  }

  lemma SquareNext(i: nat)
    ensures Square(i + 1) == Square(i) * Square(i)
  {
  }

  lemma PowZero(p: nat)
    ensures Pow(p, 0) == 1
  {
  }

  lemma {:induction false} PowSquare(p: nat, n: nat)
    ensures Pow(p, 2 * n) == Pow(p * p, n)
  {
    if n > 0 {
      PowSquare(p, n - 1);
      Associate(p, p, Pow(p, 2 * n - 2));
    }
  }

  /** A power by the lowest bit of the exponent and the square. */
  lemma PowHalf(p: nat, k: nat)
    ensures Pow(p, k) == (if k % 2 == 1 then p else 1) * Pow(p * p, k / 2)
  {
    PowSquare(p, k / 2);
    if k % 2 == 1 { assert k == 2 * (k / 2) + 1; } else { assert k == 2 * (k / 2); }
  }

  lemma {:induction false} PowFour(n: nat)
    ensures Pow(625, n) == Pow(5, 4 * n)
  {
    if n > 0 {
      PowFour(n - 1);
      PowAdd(5, 4, 4 * (n - 1));
      assert Pow(5, 4) == 625 by { PowAdd(5, 2, 2); }
    }
  }

  lemma OneWord(s: seq<Word>)
    requires |s| == 1
    ensures Nat(s) == s[0]
  {
    assert s[..0] == [];
  }

  // ---------- Digits ----------

  /** The quotient rounded to the nearest integer, and to the even one of two that are equally near. */
  function Nearest(n: nat, d: nat): nat
    requires d > 0
  {
    var q, r := n / d, n % d;
    if 2 * r > d || (2 * r == d && q % 2 == 1) then q + 1 else q
  }

  /** That is the only integer no farther than half a divisor away, and even when exactly as far. */
  lemma NearestIs(n: nat, d: nat, m: nat)
    requires d > 0
    ensures var e := 2 * n - 2 * (m * d);
            m == Nearest(n, d) <==> 0 - d <= e <= d && (e == d || e + d == 0 ==> m % 2 == 0)
  {
    var q, r := n / d, n % d;
    assert n == q * d + r by { Commute(q, d); }
    if m < q { MulOrder(m + 1, q, d); Distribute(m, 1, d); }
    if m > q + 1 { MulOrder(q + 2, m, d); Distribute(q, 2, d); }
    if m == q + 1 { Distribute(q, 1, d); }
  }

  type Digit = c: int | 0 <= c < 10

  /** The number that decimal digits denote. */
  function FromDigits(ds: seq<Digit>): nat
  {
    if ds == [] then 0 else 10 * FromDigits(ds[..|ds| - 1]) + ds[|ds| - 1]
  }

  lemma DigitAppend(ds: seq<Digit>, c: Digit)
    ensures FromDigits(ds + [c]) == 10 * FromDigits(ds) + c
  {
    assert (ds + [c])[..|ds|] == ds;
  }

  /** Digits of b / s so far: what is left of b, times ten each time, is the remainder. */
  ghost predicate Digits(ds: seq<Digit>, b: nat, s: nat, r: nat)
  {
    |ds| > 0 && s > 0 && b * Pow(10, |ds| - 1) == FromDigits(ds) * s + r && r < s && ds[0] != 0
  }

  lemma FirstDigit(b: nat, s: nat, c: int)
    requires s > 0 && s <= b && c == b / s && 0 <= c <= 9
    ensures Digits([c], b, s, b % s)
  {
    DigitAppend([], c);
    assert [] + [c] == [c];
    hide FromDigits;
    Commute(c, s);
    if c == 0 { Below(b, s); }
  }

  lemma Below(b: nat, s: nat)
    requires s > 0 && b / s == 0
    ensures b < s
  {
  }

  lemma NextDigit(ds: seq<Digit>, b: nat, s: nat, r: nat, c: int)
    requires Digits(ds, b, s, r) && c == 10 * r / s && 0 <= c <= 9
    ensures Digits(ds + [c], b, s, 10 * r % s)
  {
    DigitAppend(ds, c);
    assert Pow(10, |ds|) == 10 * Pow(10, |ds| - 1);
    hide Pow, FromDigits;
    DigitSum(b, Pow(10, |ds| - 1), FromDigits(ds), s, r, c, 10 * r % s);
  }

  lemma DigitSum(b: int, p: int, n: int, s: int, r: int, c: int, r': int)
    requires s > 0 && b * p == n * s + r && c == 10 * r / s && r' == 10 * r % s
    ensures b * (10 * p) == (10 * n + c) * s + r'
  {
    Tenfold(b, p);
    assert 10 * r == s * c + r';
    Distribute(10 * n, c, s);
    Associate(10, n, s);
    Commute(c, s);
  }

  lemma Tenfold(b: int, p: int)
    ensures b * (10 * p) == 10 * (b * p)
  {
  }

  /** No remainder: the digits denote the quotient exactly, also of more digits. */
  lemma ExactDigits(ds: seq<Digit>, b: nat, s: nat, n: nat)
    requires Digits(ds, b, s, 0) && n >= |ds|
    ensures FromDigits(ds) * Pow(10, n - |ds|) == Nearest(b * Pow(10, n - 1), s)
  {
    var m := n - |ds|;
    PowAdd(10, |ds| - 1, m);
    hide Pow, FromDigits;
    var p, k := Pow(10, |ds| - 1), Pow(10, m);
    assert b * (p * k) == (FromDigits(ds) * k) * s by {
      Associate(b, p, k);
      Swap3(FromDigits(ds), s, k);
    }
    NearestIs(b * (p * k), s, FromDigits(ds) * k);
  }

  /** All digits: the quotient is rounded by the remainder and the last digit. */
  lemma RoundedDigits(ds: seq<Digit>, b: nat, s: nat, r: nat)
    requires Digits(ds, b, s, r)
    ensures Nearest(b * Pow(10, |ds| - 1), s)
              == FromDigits(ds) + (if 2 * r > s || (2 * r == s && ds[|ds| - 1] % 2 == 1) then 1 else 0)
  {
    LastParity(ds);
    hide Pow, FromDigits;
    var n := FromDigits(ds);
    Commute(n, s);
    DivisionIs(b * Pow(10, |ds| - 1), s, n, r);
  }

  lemma LastParity(ds: seq<Digit>)
    requires ds != []
    ensures FromDigits(ds) % 2 == ds[|ds| - 1] % 2
  {
  }

  /** Rounding up: trailing nines go, and the digit before them grows; all nines become a one in front. */
  method RoundOff(ds: seq<Digit>) returns (out: seq<Digit>, bump: bool)
    requires |ds| > 0 && ds[0] != 0
    ensures 0 < |out| <= |ds| && out[0] != 0 && out[|out| - 1] != 0
    ensures bump ==> out == [1] && FromDigits(ds) + 1 == Pow(10, |ds|)
    ensures !bump ==> FromDigits(out) * Pow(10, |ds| - |out|) == FromDigits(ds) + 1
  {
    var n := |ds|;
    assert ds[..n] == ds;
    while n > 0 && ds[n - 1] == 9
      invariant 0 <= n <= |ds|
      invariant (FromDigits(ds[..n]) + 1) * Pow(10, |ds| - n) == FromDigits(ds) + 1
    {
      assert ds[..n][..n - 1] == ds[..n - 1];
      Associate(FromDigits(ds[..n - 1]) + 1, 10, Pow(10, |ds| - n));
      n := n - 1;
    }
    if n == 0 { return [1], true; }
    out := ds[..n - 1] + [ds[n - 1] + 1];
    bump := false;
    DigitAppend(ds[..n - 1], ds[n - 1] + 1);
    assert ds[..n][..n - 1] == ds[..n - 1];
  }

  /** Drop trailing zeros. */
  method TrimZeros(ds: seq<Digit>) returns (out: seq<Digit>)
    requires |ds| > 0 && ds[0] != 0
    ensures 0 < |out| <= |ds| && out[0] != 0 && out[|out| - 1] != 0
    ensures FromDigits(out) * Pow(10, |ds| - |out|) == FromDigits(ds)
  {
    var n := |ds|;
    assert ds[..n] == ds;
    while ds[n - 1] == 0
      decreases n
      invariant 0 < n <= |ds|
      invariant FromDigits(ds[..n]) * Pow(10, |ds| - n) == FromDigits(ds)
    {
      assert ds[..n][..n - 1] == ds[..n - 1];
      Associate(FromDigits(ds[..n - 1]), 10, Pow(10, |ds| - n));
      n := n - 1;
    }
    out := ds[..n];
  }

  /**
   * What the digits say: the quotient to `n` digits, rounded, without trailing zeros; `bump` for a carry out of all
   * nines.
   */
  ghost predicate Output(out: seq<Digit>, bump: bool, b: nat, s: nat, n: nat)
    requires s > 0 && n > 0
  {
    && 0 < |out| <= n && out[0] != 0 && out[|out| - 1] != 0
    && Nearest(b * Pow(10, n - 1), s) == (if bump then Pow(10, n) else FromDigits(out) * Pow(10, n - |out|))
    && (bump ==> out == [1])
  }

  /** Whether a number is zero, as the program looks at it. */
  method IsZero(b: Bigint) returns (z: bool)
    requires b.Valid() && b.x.Length > 0 && (b.wds > 1 ==> b.x[b.wds - 1] != 0) && (b.wds == 0 ==> b.x[0] == 0)
    ensures z == (b.Value() == 0)
  {
    z := b.x[0] == 0 && b.wds <= 1;
    if z { AllZero(b.x[..b.wds]); }
    else if b.wds > 1 { NatTop(b.x[..b.wds]); }
    else { OneWord(b.x[..1]); }
  }

  /** Both numbers of a division in progress. */
  ghost predicate Dividing(b: Bigint, s: Bigint)
    reads b, b.x, s, s.x
  {
    && b != s && b.x != s.x && b.Normal() && s.Normal()
    && 0x0800_0000 <= s.x[s.wds - 1] < 0x1000_0000
  }

  /** One more digit: the quotient of ten times what is left. */
  method MoreDigits(b: Bigint, s: Bigint, ds: seq<Digit>, ghost whole: nat) returns (ds': seq<Digit>, zero: bool)
    requires Dividing(b, s) && 0 < b.Value() < s.Value() && Digits(ds, whole, s.Value(), b.Value())
    modifies b, b.x
    ensures b.Valid() && s.Value() == old(s.Value()) && (!zero ==> Dividing(b, s)) && zero == (b.Value() == 0)
    ensures b.Value() < s.Value() && |ds'| == |ds| + 1 && Digits(ds', whole, s.Value(), b.Value())
    ensures (zero ==> ds'[|ds|] != 0) && (b.x == old(b.x) || fresh(b.x))
  {
    hide Nat, Digits;
    ghost var r, d := b.Value(), s.Value();
    b.MultAdd(10, 0);
    var c := Quorem(b, s);
    NextDigit(ds, whole, d, r, c);
    LastNotZero(r, d, c);
    ds' := ds + [c];
    zero := IsZero(b);
  }

  /** Digits until nothing is left or there are `n` of them. */
  method AllDigits(b: Bigint, s: Bigint, n: nat) returns (ds: seq<Digit>, zero: bool)
    requires Dividing(b, s) && n > 0 && s.Value() <= b.Value() < 10 * s.Value()
    modifies b, b.x
    ensures b.Valid() && s.Value() == old(s.Value()) > 0 && (!zero ==> Dividing(b, s)) && zero == (b.Value() == 0)
    ensures 0 < |ds| <= n && (!zero ==> |ds| == n) && (zero ==> ds[|ds| - 1] != 0) && ds[0] != 0
    ensures Digits(ds, old(b.Value()), s.Value(), b.Value())
  {
    ghost var whole, d := b.Value(), s.Value();
    hide Nat, Digits;
    var c := Quorem(b, s);
    FirstDigit(whole, d, c);
    ds := [c];
    zero := IsZero(b);
    StartsWell(ds, whole, d, b.Value());
    while !zero && |ds| < n
      invariant b.Valid() && s.Value() == d > b.Value() && (!zero ==> Dividing(b, s)) && zero == (b.Value() == 0)
      invariant 0 < |ds| <= n && (zero ==> ds[|ds| - 1] != 0) && ds[0] != 0
      invariant Digits(ds, whole, d, b.Value()) && (b.x == old(b.x) || fresh(b.x))
      decreases n - |ds|
    {
      ds, zero := MoreDigits(b, s, ds, whole);
      StartsWell(ds, whole, d, b.Value());
    }
  }

  /**
   * The digits of b / s, at most `n` of them: one digit is the quotient, and ten times the remainder is divided
   * next; the last digit is rounded by the final remainder.
   */
  method QuotientDigits(b: Bigint, s: Bigint, n: nat) returns (out: seq<Digit>, bump: bool)
    requires Dividing(b, s) && n > 0 && s.Value() <= b.Value() < 10 * s.Value()
    modifies b, b.x
    ensures s.Value() > 0 && Output(out, bump, old(b.Value()), s.Value(), n)
  {
    ghost var whole := b.Value();
    hide Nat, Pow, FromDigits, Digits, Nearest;
    var ds, zero := AllDigits(b, s, n);
    if zero {
      ExactDigits(ds, whole, s.Value(), n);
      return ds, false;
    }
    RoundedDigits(ds, whole, s.Value(), b.Value());
    out, bump := RoundLast(ds, b, s);
  }

  lemma StartsWell(ds: seq<Digit>, b: nat, s: nat, r: nat)
    requires Digits(ds, b, s, r)
    ensures |ds| > 0 && ds[0] != 0 && s > 0
  {
  }

  /** The digit that leaves no remainder is not zero. */
  lemma LastNotZero(r: nat, s: nat, c: int)
    requires s > 0 && r > 0 && c == 10 * r / s
    ensures 10 * r % s == 0 ==> c != 0
  {
  }

  method Twice(b: Bigint) returns (twice: Bigint)
    requires b.Normal() && b.Value() > 0
    ensures twice.Normal() && twice.Value() == 2 * b.Value()
  {
    twice := LShift(b, 1);
    assert Pow(2, 1) == 2;
  }

  /** Round by twice the remainder. */
  method RoundLast(ds: seq<Digit>, b: Bigint, s: Bigint) returns (out: seq<Digit>, bump: bool)
    requires |ds| > 0 && ds[0] != 0 && b.Normal() && s.Normal() && b.Value() > 0 && s.Value() > 0
    ensures var up := 2 * b.Value() > s.Value() || (2 * b.Value() == s.Value() && ds[|ds| - 1] % 2 == 1);
            && 0 < |out| <= |ds| && out[0] != 0 && out[|out| - 1] != 0 && (bump ==> out == [1])
            && FromDigits(ds) + (if up then 1 else 0) ==
                 (if bump then Pow(10, |ds|) else FromDigits(out) * Pow(10, |ds| - |out|))
  {
    var twice := Twice(b);
    hide *;
    var j := Cmp(twice, s);
    if j > 0 || (j == 0 && ds[|ds| - 1] % 2 == 1) {
      out, bump := RoundOff(ds);
    } else {
      out := TrimZeros(ds);
      bump := false;
    }
  }

  // ---------- Scaling the divisor ----------

  /** The number of leading zero bits of a word. */
  method Hi0bits(x0: Word) returns (k: nat)
    ensures x0 == 0 <==> k == 32
    ensures x0 != 0 ==> k < 32 && 0x8000_0000 <= x0 * Pow(2, k) < U32
  {
    hide Pow;
    SmallTwos();
    var x: int := x0;
    k := 0;
    if x < 0x1_0000 { k, x := Up(x0, x, k, 16); }
    if x < 0x100_0000 { k, x := Up(x0, x, k, 8); }
    if x < 0x1000_0000 { k, x := Up(x0, x, k, 4); }
    if x < 0x4000_0000 { k, x := Up(x0, x, k, 2); }
    if x < 0x8000_0000 {
      if x < 0x4000_0000 { return 32; }
      k, x := Up(x0, x, k, 1);
    }
  }

  /** Shift by `m` bits more. */
  method Up(ghost x0: int, x: int, k: nat, m: nat) returns (k': nat, x': int)
    requires x == x0 * Pow(2, k) && (m == 16 || m == 8 || m == 4 || m == 2 || m == 1)
    ensures k' == k + m && x' == x0 * Pow(2, k') && x' == x * Pow(2, m)
  {
    SmallTwos();
    PowAdd(2, k, m);
    Associate(x0, Pow(2, k), Pow(2, m));
    k' := k + m;
    x' := x * (if m == 16 then 0x1_0000 else if m == 8 then 0x100 else if m == 4 then 0x10
               else if m == 2 then 4 else 2);
  }

  lemma SmallTwos()
    ensures Pow(2, 16) == 0x1_0000 && Pow(2, 8) == 0x100 && Pow(2, 4) == 0x10 && Pow(2, 2) == 4 && Pow(2, 1) == 2
    ensures Pow(2, 0) == 1 && Pow(2, 27) == 0x0800_0000 && Pow(2, 28) == 0x1000_0000
  {
    PowAdd(2, 4, 4);
    PowAdd(2, 8, 8);
    PowAdd(2, 16, 8);
    PowAdd(2, 24, 4);
    PowAdd(2, 24, 3);
  }

  /** The shift, besides `p2` bits, that leaves the top word of `b` with four leading zero bits. */
  method DShift(b: Bigint, p2: nat) returns (i: nat)
    requires b.Normal() && b.x[b.wds - 1] != 0
    ensures i < 32
    ensures exists h: nat | h < 32 ::
              0x8000_0000 <= b.x[b.wds - 1] * Pow(2, h) < U32 && (p2 + i - (h - 4)) % 32 == 0
  {
    var h := Hi0bits(b.x[b.wds - 1]);
    i := (h - 4 - p2) % 32;
    Aligned(p2, h);
  }

  lemma Aligned(p2: nat, h: nat)
    ensures (p2 + (h - 4 - p2) % 32 - (h - 4)) % 32 == 0
  {
  }

  /** A number between these bounds has one word more than `m`, and its top word has four leading zero bits. */
  lemma TopRange(x: seq<Word>, m: nat)
    requires x != [] && x[|x| - 1] != 0 && 0x0800_0000 * B(m) <= Nat(x) < 0x1000_0000 * B(m)
    ensures |x| == m + 1 && 0x0800_0000 <= x[m] < 0x1000_0000
  {
    var n := |x| - 1;
    NatTop(x);
    NatBound(x);
    NatBound(x[..n]);
    assert Nat(x) == Nat(x[..n]) + x[n] * B(n);
    assert B(m + 1) == U32 * B(m);
    if n < m { WeightOrder(n + 1, m); }
    if n > m { WeightOrder(m + 1, n); }
    hide Nat, B;
    MulOrder(1, 0x0800_0000, B(m));
    var top: int := x[n];
    if top >= 0x1000_0000 { MulOrder(0x1000_0000, top, B(m)); }
    if top + 1 <= 0x0800_0000 { MulOrder(top + 1, 0x0800_0000, B(m)); Distribute(top, 1, B(m)); }
  }

  /** Bounds of a number from its top word and a power of two that fills it. */
  lemma FilledRange(x: seq<Word>, h: nat, t: nat, j: nat)
    requires x != [] && h < 32 && 0x8000_0000 <= x[|x| - 1] * Pow(2, h) < U32 && t + 4 == h + 32 * j
    ensures var m := |x| - 1 + j; 0x0800_0000 * B(m) <= Nat(x) * Pow(2, t) < 0x1000_0000 * B(m)
  {
    var n := |x| - 1;
    var top: int := x[n];
    TopBounds(x, top);
    FillFactors(h, t, j);
    WeightAdd(n, j);
    hide Nat, B, Pow;
    FillTop(top, Pow(2, h), Pow(2, 32 - h));
    Filled(Nat(x), top, B(n), Pow(2, h), Pow(2, t), B(j));
  }

  lemma TopBounds(x: seq<Word>, top: int)
    requires x != [] && top == x[|x| - 1]
    ensures top * B(|x| - 1) <= Nat(x) < (top + 1) * B(|x| - 1)
  {
    NatBound(x[..|x| - 1]);
    Distribute(top, 1, B(|x| - 1));
  }

  lemma FillFactors(h: nat, t: nat, j: nat)
    requires h < 32 && t + 4 == h + 32 * j
    ensures Pow(2, t) * 16 == Pow(2, h) * B(j) && Pow(2, h) * Pow(2, 32 - h) == U32
  {
    WeightIsPower(j);
    PowAdd(2, t, 4);
    PowAdd(2, h, 32 * j);
    PowAdd(2, h, 32 - h);
    TwoTo32();
    SmallTwos();
  }

  /** What fills a word fills it whole. */
  lemma FillTop(top: int, p: int, q: int)
    requires p > 0 && q > 0 && p * q == U32 && top * p < U32
    ensures (top + 1) * p <= U32
  {
    if top >= q { MulOrder(q, top, p); Commute(q, p); }
    MulOrder(top + 1, q, p);
    Commute(q, p);
  }

  lemma Filled(v: int, top: int, b: int, p: int, t: int, w: int)
    requires b > 0 && p > 0 && t > 0 && w > 0 && top * b <= v < (top + 1) * b
    requires 0x8000_0000 <= top * p && (top + 1) * p <= U32 && t * 16 == p * w
    ensures 0x0800_0000 * (b * w) <= v * t < 0x1000_0000 * (b * w)
  {
    FilledWord(v, top, b, p);
    MulOrder(0x8000_0000 * b, v * p, w);
    MulOrder(v * p + 1, U32 * b, w);
    Distribute(v * p, 1, w);
    Associate(0x8000_0000, b, w);
    Associate(U32, b, w);
    assert 16 * (v * t) == (v * p) * w by { Sixteenth(v, p, t, w); }
  }

  lemma Sixteenth(v: int, p: int, t: int, w: int)
    requires t * 16 == p * w
    ensures 16 * (v * t) == (v * p) * w
  {
    Associate(v, t, 16);
    Associate(v, p, w);
    Commute(16, v * t);
  }

  lemma FilledWord(v: int, top: int, b: int, p: int)
    requires b > 0 && p > 0 && top * b <= v < (top + 1) * b
    requires 0x8000_0000 <= top * p && (top + 1) * p <= U32
    ensures 0x8000_0000 * b <= v * p < U32 * b
  {
    MulOrder(top * b, v, p);
    MulOrder(v + 1, (top + 1) * b, p);
    Swap3(top, b, p);
    Swap3(top + 1, b, p);
    MulOrder(0x8000_0000, top * p, b);
    MulOrder((top + 1) * p, U32, b);
    Distribute(v, 1, p);
  }

  /** The divisor times 2 to the `s2` and a little more, such that its top word has four leading zero bits. */
  method Scale(s: Bigint, s2: nat) returns (s': Bigint, i: nat)
    requires s.Normal() && s.Value() > 0
    ensures fresh(s') && fresh(s'.x) && s'.Normal() && s'.Value() == s.Value() * Pow(2, s2 + i) && i < 32
    ensures 0x0800_0000 <= s'.x[s'.wds - 1] < 0x1000_0000
  {
    TopWord(s);
    i := DShift(s, s2);
    ghost var h: nat :| h < 32 && 0x8000_0000 <= s.x[s.wds - 1] * Pow(2, h) < U32 && (s2 + i - (h - 4)) % 32 == 0;
    s' := LShift(s, s2 + i);
    ScaledTop(s.x[..s.wds], s'.x[..s'.wds], h, s2 + i);
  }

  lemma ScaledTop(x: seq<Word>, y: seq<Word>, h: nat, t: nat)
    requires x != [] && h < 32 && 0x8000_0000 <= x[|x| - 1] * Pow(2, h) < U32 && (t - (h - 4)) % 32 == 0
    requires y != [] && (|y| > 1 ==> y[|y| - 1] != 0) && Nat(y) == Nat(x) * Pow(2, t)
    ensures 0x0800_0000 <= y[|y| - 1] < 0x1000_0000
  {
    hide *;
    var j: nat := (t - (h - 4)) / 32;
    var m := |x| - 1 + j;
    FilledRange(x, h, t, j);
    MulOrder(1, 0x0800_0000, B(m));
    if |y| == 1 { OneWord(y); }
    TopRange(y, m);
  }
}
