/** The big integers of dtoa.c: word arrays multiplied, shifted, compared and divided in place. */
module BigInt {
  import opened Arithmetic
  import opened BigNat

  class Bigint {
    var x: array<Word>
    var wds: nat
    var sign: bool

    ghost predicate Valid()
      reads this
    {
      wds <= x.Length
    }

    /** No leading zero, but for the number zero itself. */
    ghost predicate Normal()
      reads this, x
    {
      0 < wds <= x.Length && (wds > 1 ==> x[wds - 1] != 0)
    }

    ghost function Value(): nat
      requires Valid()
      reads this, x
    {
      Nat(x[..wds])
    }

    /** Room for `maxwds` words, of which none is used. */
    constructor (maxwds: nat)
      ensures Valid() && x.Length == maxwds && wds == 0 && !sign && fresh(x)
      ensures forall k | 0 <= k < maxwds :: x[k] == 0
    {
      x := new Word[maxwds](_ => 0);
      wds := 0;
      sign := false;
    }

    /** Multiply by `m` and add `a`, in place; a last carry takes another word. */
    method MultAdd(m: int, a: int)
      requires Valid() && wds > 0 && 0 <= m < U32 && 0 <= a < U32
      modifies this, x
      ensures Valid() && wds > 0 && Value() == old(Value()) * m + a && (x == old(x) || fresh(x)) && sign == old(sign)
      ensures old(Normal()) && m > 0 ==> Normal()
    {
      ghost var was := x[..wds];
      hide Nat, MultAddDone;
      var carry := MultAddLoop(x, wds, m, a);
      MultAddEnd(x[..wds], carry, was, m, a);
      if carry != 0 { Push(carry); }
    }

    /** Another word at the top. */
    method Push(w: Word)
      requires Valid() && wds > 0
      modifies this, x
      ensures Valid() && wds == old(wds) + 1 && (x == old(x) || fresh(x)) && sign == old(sign)
      ensures x[..wds] == old(x[..wds]) + [w]
    {
      if wds >= x.Length { Grow(); }
      ghost var low := x[..wds];
      x[wds] := w;
      assert x[..wds + 1] == low + [w];
      wds := wds + 1;
    }

    /** Room for twice as many words. */
    method Grow()
      requires Valid() && wds > 0
      modifies this
      ensures Valid() && fresh(x) && x.Length > wds && wds == old(wds) && sign == old(sign)
      ensures x[..wds] == old(x[..wds])
    {
      var bigger := new Word[2 * x.Length](_ => 0);
      for k := 0 to wds
        invariant x == old(x) && wds == old(wds) && sign == old(sign)
        invariant bigger[..k] == x[..k] == old(x[..wds])[..k]
      {
        bigger[k] := x[k];
        assert bigger[..k + 1] == bigger[..k] + [x[k]];
      }
      x := bigger;
    }
  }

  // ---------- Products ----------

  /** Writing word `k` of an array, seen from both sides of it. */
  method Put(c: array<Word>, k: nat, w: Word)
    requires k < c.Length
    modifies c
    ensures c[..k + 1] == old(c[..k]) + [w] && c[k + 1..] == old(c[k + 1..]) && c[..k] == old(c[..k])
    ensures forall l | 0 <= l < c.Length :: c[l] == if l == k then w else old(c[l])
  {
    ghost var low := c[..k];
    c[k] := w;
    assert c[..k + 1] == low + [w];
  }

  /** Multiply two words and add a third and a carry: the low half goes into `c`, the high half is the next carry. */
  method RowWord(c: array<Word>, k: nat, x: Word, y: Word, carry: Word) returns (next: Word)
    requires k < c.Length
    modifies c
    ensures c[..k + 1] == old(c[..k]) + [c[k]] && c[k + 1..] == old(c[k + 1..])
    ensures x * y + old(c[k]) + carry == next * U32 + c[k]
  {
    var z := x * y + c[k] + carry;
    RowFits(x, y, c[k], carry);
    next := z / U32;
    var w := z % U32;
    Put(c, k, w);
  }

  /** The first `i` words of a row are added: `low` holds them, and `carry` is left over. */
  ghost predicate RowDone(low: seq<Word>, carry: int, was: seq<Word>, a: seq<Word>, i: nat, j: nat, y: int)
  {
    && i <= |a| && j + i <= |was| && |low| == j + i
    && Nat(low) + carry * B(j + i) == Nat(was[..j + i]) + (Nat(a[..i]) * y) * B(j)
  }

  /** Add `a` times word `y`, moved up by `j` words, to the words in `c`; what is left over is returned. */
  method RowLoop(c: array<Word>, a: array<Word>, wa: nat, y: Word, j: nat) returns (carry: Word)
    requires c != a && 0 < wa <= a.Length && j + wa < c.Length
    modifies c
    ensures c[j + wa..] == old(c[j + wa..])
    ensures RowDone(c[..j + wa], carry, old(c[..]), a[..wa], wa, j, y)
  {
    ghost var was, xa := c[..], a[..wa];
    RowStart(was, xa, j, y);
    hide *;
    var i := 0;
    carry := 0;
    assert c[..j] == was[..j];
    while i < wa
      invariant 0 <= i <= wa && c[j + i..] == was[j + i..]
      invariant RowDone(c[..j + i], carry, was, xa, i, j, y)
    {
      assert c[j + i] == c[j + i..][0] == was[j + i] && a[i] == xa[i];
      assert c[j + i + 1..] == c[j + i..][1..] && was[j + i + 1..] == was[j + i..][1..];
      ghost var low, c0 := c[..j + i], carry;
      carry := RowWord(c, j + i, a[i], y, carry);
      RowStep(low, was, xa, i, j, y, c0, carry, c[j + i]);
      i := i + 1;
    }
  }

  /** The same when the words above are zero: what is left over goes there. */
  method MultRow(c: array<Word>, a: array<Word>, wa: nat, y: Word, j: nat)
    requires c != a && 0 < wa <= a.Length && j + wa < c.Length
    requires forall k | j + wa <= k < c.Length :: c[k] == 0
    modifies c
    ensures forall k | j + wa < k < c.Length :: c[k] == 0
    ensures Nat(c[..]) == old(Nat(c[..])) + (Nat(a[..wa]) * y) * B(j)
  {
    ghost var was := c[..];
    hide Nat, B;
    NatZeros(was, j + wa);
    assert was[..j + wa] == c[..j + wa];
    var carry := RowLoop(c, a, wa, y, j);
    assert a[..wa][..wa] == a[..wa];
    NatAppend(c[..j + wa], carry);
    forall k | j + wa < k < c.Length ensures c[k] == 0 {
      assert c[k] == c[j + wa..][k - j - wa] == old(c[j + wa..])[k - j - wa];
    }
    Put(c, j + wa, carry);
    NatZeros(c[..], j + wa + 1);
    assert c[..][..j + wa + 1] == c[..j + wa + 1];
  }

  lemma RowStart(was: seq<Word>, a: seq<Word>, j: nat, y: int)
    requires j <= |was|
    ensures RowDone(was[..j], 0, was, a, 0, j, y)
  {
    assert a[..0] == [];
  }

  /** A product of words, a word and a carry fit 64 bits. */
  lemma RowFits(x: Word, y: Word, v: Word, c: int)
    requires 0 <= c < U32
    ensures 0 <= x * y + v + c < U64 && 0 <= (x * y + v + c) / U32 < U32
  {
    var p := x * y;
    assert 0 <= p <= (U32 - 1) * (U32 - 1) by { ProductBound(x, y, U32 - 1); }
    HalfFits(p + v + c);
  }

  lemma RowStep(low: seq<Word>, was: seq<Word>, a: seq<Word>, i: nat, j: nat, y: int, c: int, c': int, w: Word)
    requires i < |a| && j + i < |was| && RowDone(low, c, was, a, i, j, y) && a[i] * y + was[j + i] + c == c' * U32 + w
    ensures RowDone(low + [w], c', was, a, i + 1, j, y)
  {
    NatAppend(low, w);
    NatPrefix(was, j + i);
    NatPrefix(a, i);
    WeightAdd(j, i);
    hide Nat;
    RowSum(Nat(low), Nat(was[..j + i]), Nat(a[..i]), y, c, c', w, a[i], was[j + i], B(j), B(i));
  }

  lemma RowSum(p: int, q: int, r: int, y: int, c: int, c': int, w: int, x: int, v: int, bj: int, bi: int)
    requires p + c * (bj * bi) == q + (r * y) * bj && x * y + v + c == c' * U32 + w
    ensures (p + w * (bj * bi)) + c' * (U32 * (bj * bi)) == (q + v * (bj * bi)) + ((r + x * bi) * y) * bj
  {
    var b := bj * bi;
    calc {
      (p + w * b) + c' * (U32 * b);
      p + (c' * U32 + w) * b;
      p + (x * y + v + c) * b;
      { Distribute(x * y + v, c, b); Distribute(x * y, v, b); }
      p + c * b + v * b + (x * y) * b;
      q + v * b + (r * y) * bj + (x * y) * b;
      { RowFactor(r, x, y, bi, bj); }
      (q + v * b) + ((r + x * bi) * y) * bj;
    }
  }

  lemma RowFactor(r: int, x: int, y: int, bi: int, bj: int)
    ensures (r * y) * bj + (x * y) * (bj * bi) == ((r + x * bi) * y) * bj
  {
    calc {
      ((r + x * bi) * y) * bj;
      { Distribute(r, x * bi, y); }
      (r * y + (x * bi) * y) * bj;
      { Distribute(r * y, (x * bi) * y, bj); }
      (r * y) * bj + ((x * bi) * y) * bj;
      { Shuffle(x, bi, y, bj); }
      (r * y) * bj + (x * y) * (bj * bi);
    }
  }

  lemma Shuffle(a: int, b: int, c: int, d: int)
    ensures ((a * b) * c) * d == (a * c) * (d * b)
  {
    calc {
      ((a * b) * c) * d;
      { Associate(a, b, c); Associate(a, c, b); }
      ((a * c) * b) * d;
      { Associate(a * c, b, d); }
      (a * c) * (b * d);
    }
  }

  /** Add all rows of a product to words that are zero. */
  method MultLoop(c: array<Word>, a: array<Word>, wa: nat, b: array<Word>, wb: nat)
    requires c != a && c != b && 0 < wa <= a.Length && wb <= b.Length && c.Length == wa + wb
    requires forall k | 0 <= k < c.Length :: c[k] == 0
    modifies c
    ensures Nat(c[..]) == Nat(a[..wa]) * Nat(b[..wb])
  {
    hide Nat, B;
    AllZero(c[..]);
    ghost var xa, xb := Nat(a[..wa]), b[..wb];
    ProductStart(xa);
    assert xb[..0] == [];
    var j := 0;
    while j < wb
      invariant 0 <= j <= wb
      invariant forall k | j + wa <= k < c.Length :: c[k] == 0
      invariant Nat(c[..]) == xa * Nat(xb[..j])
    {
      var y := b[j];
      assert y == xb[j];
      ProductStep(xa, xb, j);
      if y != 0 { MultRow(c, a, wa, y, j); } else { ZeroTimes(xa, B(j)); }
      j := j + 1;
    }
    assert xb[..wb] == xb;
  }

  /** The product of two numbers, as a new one; a zero product may have no words at all. */
  method Mult(a0: Bigint, b0: Bigint) returns (c: Bigint)
    requires a0.Valid() && b0.Valid() && a0.wds > 0 && b0.wds > 0
    ensures fresh(c) && fresh(c.x) && c.Valid() && c.Value() == a0.Value() * b0.Value() && !c.sign
    ensures c.Value() > 0 ==> c.Normal()
  {
    hide Nat;
    var a, b := a0, b0;
    if a.wds < b.wds { a, b := b, a; }
    c := new Bigint(a.wds + b.wds);
    MultLoop(c.x, a.x, a.wds, b.x, b.wds);
    Commute(a.Value(), b.Value());
    Strip(c, c.x.Length);
  }

  lemma ProductStart(n: int)
    ensures n * Nat([]) == 0
  {
  }

  lemma ZeroTimes(n: int, b: int)
    ensures (n * 0) * b == 0
  {
  }

  lemma ProductStep(a: int, xb: seq<Word>, j: nat)
    requires j < |xb|
    ensures a * Nat(xb[..j + 1]) == a * Nat(xb[..j]) + (a * xb[j]) * B(j)
  {
    NatPrefix(xb, j);
    Associate(a, xb[j], B(j));
    Commute(a, Nat(xb[..j + 1]));
    Distribute(Nat(xb[..j]), xb[j] * B(j), a);
    Commute(Nat(xb[..j]), a);
    Commute(xb[j] * B(j), a);
  }

  /** Drop leading zeros. */
  method Strip(c: Bigint, n: nat)
    requires n == c.x.Length
    modifies c`wds
    ensures c.Valid() && c.Value() == Nat(c.x[..]) && (c.wds > 0 ==> c.x[c.wds - 1] != 0)
    ensures c.Value() > 0 ==> c.wds > 0
  {
    var wc := n;
    while wc > 0 && c.x[wc - 1] == 0
      invariant 0 <= wc <= n && forall k | wc <= k < n :: c.x[k] == 0
    {
      wc := wc - 1;
    }
    c.wds := wc;
    NatZeros(c.x[..], wc);
    assert c.x[..][..wc] == c.x[..wc];
  }

  /** Multiply a word and add a carry: the low half stays, the high half is the next carry. */
  method MultAddWord(x: array<Word>, k: nat, m: int, carry: Word) returns (next: Word)
    requires k < x.Length && 0 <= m < U32
    modifies x
    ensures x[..k + 1] == old(x[..k]) + [x[k]] && x[k + 1..] == old(x[k + 1..])
    ensures old(x[k]) * m + carry == next * U32 + x[k]
    ensures old(x[k]) != 0 && m > 0 && next == 0 ==> x[k] != 0
  {
    var y := x[k] * m + carry;
    ProductFits(x[k], m, carry);
    TopStays(x[k], m, carry);
    next := y / U32;
    var w := y % U32;
    Put(x, k, w);
  }

  /** Multiply the first `n` words by `m` and add `a`; the last carry is returned. */
  method MultAddLoop(x: array<Word>, n: nat, m: int, a: int) returns (carry: Word)
    requires 0 < n <= x.Length && 0 <= m < U32 && 0 <= a < U32
    modifies x
    ensures MultAddDone(x[..n], carry, old(x[..n]), n, m, a)
    ensures n > 1 && old(x[n - 1]) != 0 && m > 0 && carry == 0 ==> x[n - 1] != 0
  {
    ghost var was := x[..n];
    MultAddStart(was, m, a);
    hide Nat, MultAddDone;
    var i := 0;
    carry := a;
    while i < n
      invariant 0 <= i <= n
      invariant x[i..] == old(x[..])[i..]
      invariant MultAddDone(x[..i], carry, was, i, m, a)
      invariant i == n > 1 && was[n - 1] != 0 && m > 0 && carry == 0 ==> x[n - 1] != 0
    {
      assert x[i] == x[i..][0] == was[i];
      assert x[i + 1..] == x[i..][1..] && old(x[..])[i + 1..] == old(x[..])[i..][1..];
      ghost var low, c0 := x[..i], carry;
      carry := MultAddWord(x, i, m, carry);
      MultAddStep(low, was, i, m, a, c0, carry, x[i]);
      i := i + 1;
    }
  }

  /** The first `i` words are multiplied: `low` holds them, and `carry` is left over. */
  ghost predicate MultAddDone(low: seq<Word>, carry: int, was: seq<Word>, i: nat, m: int, a: int)
  {
    i <= |was| && |low| == i && Nat(low) + carry * B(i) == Nat(was[..i]) * m + a
  }

  lemma MultAddStart(was: seq<Word>, m: int, a: int)
    ensures MultAddDone([], a, was, 0, m, a)
  {
    assert was[..0] == [];
  }

  lemma MultAddEnd(low: seq<Word>, carry: Word, was: seq<Word>, m: int, a: int)
    requires MultAddDone(low, carry, was, |was|, m, a)
    ensures Nat(if carry == 0 then low else low + [carry]) == Nat(was) * m + a
  {
    assert was[..|was|] == was;
    NatAppend(low, carry);
  }

  /** A word times a word plus a word fits 64 bits, and its upper half a word. */
  lemma ProductFits(x: Word, m: int, c: int)
    requires 0 <= m < U32 && 0 <= c < U32
    ensures 0 <= x * m + c < U64 && 0 <= (x * m + c) / U32 < U32
  {
    var p := x * m;
    assert 0 <= p <= (U32 - 1) * (U32 - 1) by { ProductBound(x, m, U32 - 1); }
    HalfFits(p + c);
  }

  lemma ProductBound(x: int, y: int, n: int)
    requires 0 <= x <= n && 0 <= y <= n
    ensures 0 <= x * y <= n * n
  {
    MulOrder(x, n, y);
    MulOrder(y, n, n);
    MulOrder(0, x, y);
  }

  lemma HalfFits(y: int)
    requires 0 <= y < U64
    ensures 0 <= y / U32 < U32
  {
  }

  /** A non-zero word stays non-zero, or carries. */
  lemma TopStays(x: Word, m: int, c: int)
    requires 0 <= m < U32 && 0 <= c < U32
    ensures x != 0 && m > 0 && (x * m + c) / U32 == 0 ==> (x * m + c) % U32 != 0
  {
    if x != 0 && m > 0 { MulOrder(1, x, m); Remains(x * m + c); }
  }

  lemma Remains(y: int)
    requires y > 0
    ensures y / U32 == 0 ==> y % U32 != 0
  {
  }

  /** One more word of a product. */
  lemma MultAddStep(low: seq<Word>, was: seq<Word>, i: nat, m: int, a: int, c: int, c': int, w: Word)
    requires i < |was| && MultAddDone(low, c, was, i, m, a) && was[i] * m + c == c' * U32 + w
    ensures MultAddDone(low + [w], c', was, i + 1, m, a)
  {
    NatAppend(low, w);
    NatPrefix(was, i);
    hide Nat;
    MultStep(Nat(low), Nat(was[..i]), m, a, c, c', w, was[i], B(i));
  }

  lemma MultStep(p: int, q: int, m: int, a: int, c: int, c': int, w: int, x: int, b: int)
    requires p + c * b == q * m + a && x * m + c == c' * U32 + w
    ensures (p + w * b) + c' * (U32 * b) == (q + x * b) * m + a
  {
    calc {
      (p + w * b) + c' * (U32 * b);
      p + (c' * U32 + w) * b;
      p + (x * m + c) * b;
      { Distribute(x * m, c, b); }
      q * m + a + (x * m) * b;
      (q + x * b) * m + a;
    }
  }

  // ---------- Comparison and difference ----------

  /** The sign of the difference of two numbers. Zero with no words at all is compared with positive numbers only. */
  method Cmp(a: Bigint, b: Bigint) returns (r: int)
    requires a.Valid() && (a.wds > 1 ==> a.x[a.wds - 1] != 0) && b.Normal() && (a.wds == 0 ==> b.Value() > 0)
    ensures (r < 0 <==> a.Value() < b.Value()) && (r > 0 <==> a.Value() > b.Value())
    ensures r == 0 <==> a.Value() == b.Value()
  {
    hide Nat, B;
    ghost var xa, xb := a.x[..a.wds], b.x[..b.wds];
    r := a.wds - b.wds;
    if r < 0 {
      if a.wds > 0 || b.wds > 1 { LongerIsMore(xa, xb); } else { NoWords(xa); }
      return;
    }
    if r > 0 { LongerIsMore(xb, xa); return; }
    var j := b.wds;
    while j > 0
      invariant 0 <= j <= b.wds == a.wds
      invariant forall k | j <= k < b.wds :: a.x[k] == b.x[k]
    {
      j := j - 1;
      if a.x[j] != b.x[j] {
        if a.x[j] < b.x[j] { CompareAt(xa, xb, j); return -1; }
        CompareAt(xb, xa, j);
        return 1;
      }
    }
    assert xa == xb;
    return 0;
  }

  lemma NoWords(x: seq<Word>)
    requires x == []
    ensures Nat(x) == 0
  {
  }

  /** Subtract a word and a borrow in 64-bit arithmetic: the low half, and whether to borrow from the next word. */
  method SubWord(x: Word, y: Word, borrow: int) returns (w: Word, next: int)
    requires 0 <= borrow <= 1
    ensures 0 <= next <= 1 && x - y - borrow == w - next * U32
  {
    var d := (x - y - borrow) % U64;
    Borrowed(x - y - borrow);
    next := d / U32 % 2;
    w := d % U32;
  }

  lemma Borrowed(d: int)
    requires -U32 <= d < U32
    ensures d % U64 / U32 % 2 == (if d < 0 then 1 else 0) && d % U64 % U32 == (if d < 0 then d + U32 else d)
  {
    if d < 0 { assert d % U64 == d + U64; } else { assert d % U64 == d; }
  }

  /** The first `i` words of `a` less those of `b` times `q`: `low` holds them, and `debt` is still to be taken. */
  ghost predicate SubDone(low: seq<Word>, debt: int, a: seq<Word>, b: seq<Word>, q: int, i: nat)
  {
    && i <= |a| && i <= |b| && |low| == i
    && Nat(low) == Nat(a[..i]) - Nat(b[..i]) * q + debt * B(i)
  }

  lemma SubStart(a: seq<Word>, b: seq<Word>, q: int)
    ensures SubDone([], 0, a, b, q, 0)
  {
    assert a[..0] == [] && b[..0] == [];
  }

  lemma SubStep(low: seq<Word>, a: seq<Word>, b: seq<Word>, q: int, i: nat, debt: int, debt': int, w: Word)
    requires i < |a| && i < |b| && SubDone(low, debt, a, b, q, i) && w == a[i] - b[i] * q - debt + debt' * U32
    ensures SubDone(low + [w], debt', a, b, q, i + 1)
  {
    NatAppend(low, w);
    NatPrefix(a, i);
    NatPrefix(b, i);
    hide Nat;
    SubSum(Nat(a[..i]), Nat(b[..i]), q, debt, debt', w, a[i], b[i], B(i));
  }

  lemma SubSum(p: int, r: int, q: int, d: int, d': int, w: int, x: int, y: int, b: int)
    requires w == x - y * q - d + d' * U32
    ensures (p - r * q + d * b) + w * b == (p + x * b) - (r + y * b) * q + d' * (U32 * b)
  {
    calc {
      (p - r * q + d * b) + w * b;
      p - r * q + (d + w) * b;
      p - r * q + (x - y * q + d' * U32) * b;
      { Distribute(x - y * q, d' * U32, b); Distribute(x - y * q, y * q, b); }
      p - r * q + x * b - (y * q) * b + (d' * U32) * b;
      { Swap3(y, q, b); Associate(d', U32, b); Distribute(r, y * b, q); }
      (p + x * b) - (r + y * b) * q + d' * (U32 * b);
    }
  }

  lemma Swap3(y: int, q: int, b: int)
    ensures (y * q) * b == (y * b) * q
  {
    Associate(y, q, b);
    Associate(y, b, q);
    Commute(q, b);
  }

  /** Nothing is owed when the difference is a number that fits. */
  lemma SubEnd(low: seq<Word>, debt: int, a: seq<Word>, b: seq<Word>, q: int)
    requires |a| == |b| && SubDone(low, debt, a, b, q, |a|) && 0 <= Nat(a) - Nat(b) * q && debt >= 0
    ensures Nat(low) == Nat(a) - Nat(b) * q && debt == 0
  {
    assert a[..|a|] == a && b[..|b|] == b;
    NatBound(low);
    NothingOwed(Nat(low), Nat(a) - Nat(b) * q, debt, B(|a|));
  }

  lemma NothingOwed(p: int, d: int, debt: int, w: int)
    requires p == d + debt * w && 0 <= d && p < w && debt >= 0 && w > 0
    ensures debt == 0 && p == d
  {
    if debt > 0 { MulOrder(1, debt, w); }
  }

  function Zeros(n: nat): (s: seq<Word>)
    ensures |s| == n
  {
    seq(n, _ => 0)
  }

  lemma Padded(x: seq<Word>, n: nat)
    ensures Nat(x + Zeros(n)) == Nat(x)
  {
    NatZeros(x + Zeros(n), |x|);
    assert (x + Zeros(n))[..|x|] == x;
  }

  /** The difference of two numbers, as a new one, and its sign. */
  method Diff(a0: Bigint, b0: Bigint) returns (c: Bigint)
    requires a0.Normal() && b0.Normal()
    ensures fresh(c) && fresh(c.x) && c.Normal()
    ensures c.sign == (a0.Value() < b0.Value())
    ensures c.Value() == if c.sign then b0.Value() - a0.Value() else a0.Value() - b0.Value()
  {
    hide Nat;
    var r := Cmp(a0, b0);
    if r == 0 {
      c := new Bigint(1);
      c.wds := 1;
      AllZero(c.x[..1]);
      return;
    }
    var a, b := a0, b0;
    if r < 0 { a, b := b0, a0; }
    c := new Bigint(a.wds);
    c.sign := r < 0;
    Longer(b, a);
    SubtractInto(c.x, a.x, a.wds, b.x, b.wds);
    StripSome(c);
  }

  /** A smaller number does not have more words. */
  lemma Longer(b: Bigint, a: Bigint)
    requires b.Normal() && a.Normal() && b.Value() < a.Value()
    ensures b.wds <= a.wds
  {
    if a.wds < b.wds { LongerIsMore(a.x[..a.wds], b.x[..b.wds]); }
  }

  /** One word of a difference. */
  method SubPlace(c: array<Word>, i: nat, x: Word, y: Word, borrow: int, ghost xa: seq<Word>, ghost xb: seq<Word>)
    returns (borrow': int)
    requires i < c.Length && i < |xa| && i < |xb| && x == xa[i] && y == xb[i] && 0 <= borrow <= 1
    requires SubDone(c[..i], borrow, xa, xb, 1, i)
    modifies c
    ensures 0 <= borrow' <= 1 && SubDone(c[..i + 1], borrow', xa, xb, 1, i + 1)
  {
    hide *;
    ghost var low := c[..i];
    var w;
    w, borrow' := SubWord(x, y, borrow);
    SubStep(low, xa, xb, 1, i, borrow, borrow', w);
    Put(c, i, w);
  }

  /** The words that both numbers have. */
  method SubtractBoth(c: array<Word>, a: array<Word>, b: array<Word>, wb: nat, ghost xa: seq<Word>, ghost xb: seq<Word>)
    returns (borrow: int)
    requires c != a && c != b && wb <= a.Length && wb <= b.Length && wb <= c.Length && wb <= |xa| && wb <= |xb|
    requires a[..wb] == xa[..wb] && b[..wb] == xb[..wb]
    modifies c
    ensures 0 <= borrow <= 1 && SubDone(c[..wb], borrow, xa, xb, 1, wb)
  {
    hide *;
    SubStart(xa, xb, 1);
    var i := 0;
    borrow := 0;
    while i < wb
      invariant 0 <= i <= wb && 0 <= borrow <= 1
      invariant SubDone(c[..i], borrow, xa, xb, 1, i)
    {
      assert a[i] == a[..wb][i] == xa[i] && b[i] == b[..wb][i] == xb[i];
      borrow := SubPlace(c, i, a[i], b[i], borrow, xa, xb);
      i := i + 1;
    }
  }

  /** The words that only the larger number has. */
  method SubtractRest(c: array<Word>, a: array<Word>, wa: nat, wb: nat, borrow0: int,
                      ghost xa: seq<Word>, ghost xb: seq<Word>)
    returns (borrow: int)
    requires c != a && wb <= wa <= a.Length && wa <= c.Length && wa == |xa| == |xb| && 0 <= borrow0 <= 1
    requires a[..wa] == xa && forall k | wb <= k < wa :: xb[k] == 0
    requires SubDone(c[..wb], borrow0, xa, xb, 1, wb)
    modifies c
    ensures 0 <= borrow <= 1 && SubDone(c[..wa], borrow, xa, xb, 1, wa)
  {
    hide *;
    var i := wb;
    borrow := borrow0;
    while i < wa
      invariant wb <= i <= wa && 0 <= borrow <= 1
      invariant SubDone(c[..i], borrow, xa, xb, 1, i)
    {
      assert a[i] == a[..wa][i] == xa[i];
      borrow := SubPlace(c, i, a[i], 0, borrow, xa, xb);
      i := i + 1;
    }
  }

  method SubtractInto(c: array<Word>, a: array<Word>, wa: nat, b: array<Word>, wb: nat)
    requires c != a && c != b && c.Length == wa <= a.Length && 0 < wb <= b.Length && wb <= wa
    requires Nat(b[..wb]) <= Nat(a[..wa])
    modifies c
    ensures Nat(c[..]) == Nat(a[..wa]) - Nat(b[..wb])
  {
    ghost var xa, xb := a[..wa], b[..wb] + Zeros(wa - wb);
    Padded(b[..wb], wa - wb);
    assert xa[..wb] == a[..wb] && xb[..wb] == b[..wb];
    assert forall k | wb <= k < wa :: xb[k] == 0;
    hide *;
    var borrow := SubtractBoth(c, a, b, wb, xa, xb);
    borrow := SubtractRest(c, a, wa, wb, borrow, xa, xb);
    assert c[..wa] == c[..];
    SubEnd(c[..], borrow, xa, xb, 1);
  }

  /** Drop leading zeros of a positive number. */
  method StripSome(c: Bigint)
    requires Nat(c.x[..]) > 0
    modifies c`wds
    ensures c.Normal() && c.Value() == Nat(c.x[..])
  {
    Strip(c, c.x.Length);
  }

  // ---------- Quotient and remainder ----------

  /** Take word `s` times `q` and what is owed from a word: the low half, the next carry and the next borrow. */
  method SubTimesWord(x: Word, s: Word, q: Word, carry: Word, borrow: int) returns (w: Word, carry': Word, borrow': int)
    requires 0 <= borrow <= 1
    ensures 0 <= borrow' <= 1 && w == x - s * q - (carry + borrow) + (carry' + borrow') * U32
  {
    var ys := s * q + carry;
    ProductFits(s, q, carry);
    carry' := ys / U32;
    var low := ys % U32;
    w, borrow' := SubWord(x, low, borrow);
  }

  /** Take `q` times the words of `s` from those of `x`, in place. */
  method SubtractTimes(x: array<Word>, s: array<Word>, q: Word, n: nat)
    requires x != s && n <= x.Length && n <= s.Length && Nat(s[..n]) * q <= Nat(x[..n])
    modifies x
    ensures Nat(x[..n]) == old(Nat(x[..n])) - Nat(s[..n]) * q
  {
    ghost var was, xs := x[..n], s[..n];
    SubStart(was, xs, q);
    hide Nat, SubDone;
    var i, borrow := 0, 0;
    var carry: Word := 0;
    while i < n
      invariant 0 <= i <= n && 0 <= borrow <= 1 && x[i..] == old(x[..])[i..]
      invariant SubDone(x[..i], carry + borrow, was, xs, q, i)
    {
      ghost var low, d := x[..i], carry + borrow;
      assert x[i] == x[i..][0] == was[i];
      assert x[i + 1..] == x[i..][1..] && old(x[..])[i + 1..] == old(x[..])[i..][1..];
      var w;
      w, carry, borrow := SubTimesWord(x[i], s[i], q, carry, borrow);
      SubStep(low, was, xs, q, i, d, carry + borrow, w);
      Put(x, i, w);
      i := i + 1;
    }
    SubEnd(x[..n], carry + borrow, was, xs, q);
  }

  /** Drop leading zeros once the top word is zero; a single zero word leaves no words. */
  method DropZeros(b: Bigint)
    requires b.Valid() && b.wds > 0
    modifies b`wds
    ensures b.Valid() && b.Value() == old(b.Value()) && b.wds <= old(b.wds)
    ensures b.wds > 1 ==> b.x[b.wds - 1] != 0
    ensures b.wds == 0 ==> b.Value() == 0 && b.x[0] == 0
  {
    var n := b.wds - 1;
    ghost var all := b.x[..b.wds];
    if b.x[n] == 0 {
      var e := n - 1;
      while e > 0 && b.x[e] == 0
        invariant -1 <= e < n && forall k | 0 <= k <= n && e < k :: b.x[k] == 0
      {
        e := e - 1;
      }
      NatZeros(all, e + 1);
      b.wds := e + 1;
      assert all[..e + 1] == b.x[..e + 1];
      if e + 1 == 0 { NoWords(b.x[..0]); }
    }
  }

  /** A number below ten times a divisor with four leading zero bits has no more words than it. */
  lemma NoMoreWords(b: seq<Word>, s: seq<Word>)
    requires b != [] && (|b| > 1 ==> b[|b| - 1] != 0) && s != [] && s[|s| - 1] < 0x1000_0000 && Nat(b) < 10 * Nat(s)
    ensures |b| <= |s|
  {
    if |b| > |s| {
      var n := |s| - 1;
      var top: int := s[n];
      assert Nat(s) == Nat(s[..n]) + s[n] * B(n);
      NatTop(b);
      WeightOrder(|s|, |b| - 1);
      NatBound(s[..n]);
      assert B(|s|) == U32 * B(n);
      hide Nat, B;
      MulOrder(top, 0x0fff_ffff, B(n));
    }
  }

  /** The quotient of the top words is the quotient or one less. */
  lemma QuotientEstimate(b: int, s: int, bt: int, st: int, bl: int, sl: int, w: int, q: int)
    requires w > 0 && b == bl + bt * w && s == sl + st * w && 0 <= bl < w && 0 <= sl < w
    requires st >= 11 && bt >= 0 && q == bt / (st + 1) && b < 10 * s
    ensures 0 <= q <= 9 && s * q <= b < s * (q + 2)
  {
    EstimateBelow(b, s, bt, st, bl, sl, w, q);
    if q > 9 { MulOrder(10, q, s); Commute(q, s); }
    EstimateAbove(b, s, bt, st, bl, sl, w, q);
  }

  lemma EstimateBelow(b: int, s: int, bt: int, st: int, bl: int, sl: int, w: int, q: int)
    requires w > 0 && b == bl + bt * w && s == sl + st * w && 0 <= bl < w && 0 <= sl < w
    requires st >= 11 && bt >= 0 && q == bt / (st + 1)
    ensures q >= 0 && s > 0 && s * q <= b
  {
    assert (st + 1) * q <= bt;
    MulOrder(11, st, w);
    assert s <= (st + 1) * w by { Distribute(st, 1, w); }
    MulOrder(s, (st + 1) * w, q);
    Swap3(st + 1, w, q);
    MulOrder((st + 1) * q, bt, w);
  }

  lemma EstimateAbove(b: int, s: int, bt: int, st: int, bl: int, sl: int, w: int, q: int)
    requires w > 0 && b == bl + bt * w && s == sl + st * w && 0 <= bl < w && 0 <= sl < w
    requires st >= 11 && bt >= 0 && q == bt / (st + 1) && 0 <= q <= 9
    ensures b < s * (q + 2)
  {
    TopBelow(bt, st, q);
    MulOrder(bt + 1, st * (q + 2), w);
    Distribute(bt, 1, w);
    Swap3(st, q + 2, w);
    MulOrder(st * w, s, q + 2);
  }

  lemma TopBelow(bt: int, st: int, q: int)
    requires st >= 11 && bt >= 0 && q == bt / (st + 1) && 0 <= q <= 9
    ensures bt + 1 <= st * (q + 2)
  {
    assert bt < (st + 1) * (q + 1);
    assert (st + 1) * (q + 1) == st * (q + 1) + q + 1;
    assert st * (q + 2) == st * (q + 1) + st;
  }

  lemma DivisionIs(b: int, s: int, q: int, r: int)
    requires s > 0 && b == s * q + r && 0 <= r < s
    ensures q == b / s && r == b % s
  {
    var q', r' := b / s, b % s;
    assert b == s * q' + r';
    if q < q' { MulOrder(q + 1, q', s); Commute(q', s); Distribute(q, 1, s); Commute(q, s); }
    if q' < q { MulOrder(q' + 1, q, s); Commute(q, s); Distribute(q', 1, s); Commute(q', s); }
  }

  /** The top words of both numbers give the quotient or one less. */
  lemma Estimate(b: seq<Word>, s: seq<Word>, q: int, top: int)
    requires |b| == |s| > 0 && 0x0800_0000 <= s[|s| - 1] == top && Nat(b) < 10 * Nat(s)
    requires q == b[|s| - 1] / (top + 1)
    ensures 0 <= q <= 9 && Nat(s) * q <= Nat(b) < Nat(s) * (q + 2)
  {
    var n := |s| - 1;
    var bt: int := b[n];
    NatBound(b[..n]);
    NatBound(s[..n]);
    assert Nat(s) == Nat(s[..n]) + s[n] * B(n);
    assert Nat(b) == Nat(b[..n]) + b[n] * B(n);
    hide Nat, B;
    QuotientEstimate(Nat(b), Nat(s), bt, top, Nat(b[..n]), Nat(s[..n]), B(n), q);
  }

  /**
   * Divide `b` by a divisor whose top word has exactly four leading zero bits, at most nine times as large: the
   * remainder stays in `b`, and the quotient is returned.
   */
  method Quorem(b: Bigint, s: Bigint) returns (q: int)
    requires b != s && b.x != s.x && b.Normal() && s.Normal()
    requires 0x0800_0000 <= s.x[s.wds - 1] < 0x1000_0000 && b.Value() < 10 * s.Value()
    modifies b`wds, b.x
    ensures q == old(b.Value()) / s.Value() && 0 <= q <= 9
    ensures b.Valid() && b.Value() == old(b.Value()) % s.Value()
    ensures (b.wds > 1 ==> b.x[b.wds - 1] != 0) && (b.Value() > 0 ==> b.Normal()) && b.x == old(b.x)
    ensures b.wds == 0 ==> b.x[0] == 0
  {
    ghost var whole := b.Value();
    NoMoreWords(b.x[..b.wds], s.x[..s.wds]);
    NatTop(s.x[..s.wds]);
    hide Nat, B;
    if b.wds < s.wds {
      LongerIsMore(b.x[..b.wds], s.x[..s.wds]);
      DivisionIs(whole, s.Value(), 0, whole);
      return 0;
    }
    q := FirstGuess(b, s);
    var r := Cmp(b, s);
    Corrected(whole, s.Value(), q, r >= 0);
    if r >= 0 {
      q := q + 1;
      OnceMore(b, s);
    }
    DivisionIs(whole, s.Value(), q, b.Value());
  }

  /** Guess the quotient from the top words, and take the divisor off as often. */
  method FirstGuess(b: Bigint, s: Bigint) returns (q: int)
    requires b != s && b.x != s.x && b.Normal() && s.Normal() && b.wds == s.wds
    requires 0x0800_0000 <= s.x[s.wds - 1] < 0x1000_0000 && b.Value() < 10 * s.Value()
    modifies b`wds, b.x
    ensures 0 <= q <= 9 && b.Valid() && b.x == old(b.x) && b.wds <= s.wds && s.Value() == old(s.Value())
    ensures s.Value() * q <= old(b.Value()) < s.Value() * (q + 2) && b.Value() == old(b.Value()) - s.Value() * q
    ensures (b.wds > 1 ==> b.x[b.wds - 1] != 0) && (b.Value() > 0 ==> b.Normal())
    ensures b.wds == 0 ==> b.x[0] == 0
  {
    hide Nat, B;
    var n := s.wds;
    var top: int := s.x[n - 1];
    q := b.x[n - 1] / (top + 1);
    Estimate(b.x[..n], s.x[..n], q, top);
    if q != 0 {
      SubtractTimes(b.x, s.x, q, n);
      DropZeros(b);
    }
  }

  /** Take the divisor off once more. */
  method OnceMore(b: Bigint, s: Bigint)
    requires b != s && b.x != s.x && b.Valid() && s.Normal() && b.wds <= s.wds && s.Value() <= b.Value()
    requires s.x[s.wds - 1] != 0
    modifies b`wds, b.x
    ensures b.Valid() && b.x == old(b.x) && b.Value() == old(b.Value()) - s.Value() && s.Value() == old(s.Value())
    ensures (b.wds > 1 ==> b.x[b.wds - 1] != 0) && (b.Value() > 0 ==> b.Normal())
    ensures b.wds == 0 ==> b.x[0] == 0
  {
    hide Nat, B;
    FullLength(b, s);
    SubtractTimes(b.x, s.x, 1, s.wds);
    DropZeros(b);
  }

  lemma Corrected(b: int, s: int, q: int, more: bool)
    requires s > 0 && s * q <= b < s * (q + 2)
    requires more <==> b - s * q >= s
    ensures var q' := if more then q + 1 else q; 0 <= b - s * q' < s && s * (q + 1) == s * q + s
  {
    assert s * (q + 1) == s * q + s && s * (q + 2) == s * q + s + s;
  }

  lemma FullLength(b: Bigint, s: Bigint)
    requires b.Valid() && s.Normal() && b.wds <= s.wds && s.Value() <= b.Value() && s.x[s.wds - 1] != 0
    ensures b.wds == s.wds
  {
    if b.wds < s.wds { LongerIsMore(b.x[..b.wds], s.x[..s.wds]); }
  }

  // ---------- Shifts ----------

  /** Shift a word up by the factor `p` and put in what the word below left over; `p` times `q` is 2 to the 32. */
  lemma ShiftWord(x: Word, z: int, p: int, q: int)
    requires p > 0 && q > 0 && p * q == U32 && 0 <= z < p
    ensures 0 <= x * p % U32 + z < U32 && 0 <= x / q < p
    ensures x * p + z == x / q * U32 + (x * p % U32 + z)
    ensures x != 0 && x / q == 0 ==> x * p % U32 + z != 0
  {
    var h, l := x / q, x % q;
    assert x == q * h + l;
    MulOrder(l + 1, q, p);
    Distribute(l, 1, p);
    Commute(p, q);
    assert x * p == h * U32 + l * p by {
      Distribute(q * h, l, p);
      Commute(q, h);
      Associate(h, q, p);
    }
    RemainderIs(x * p, h, l * p);
    if h >= p { MulOrder(p, h, q); Commute(h, q); }
    if x != 0 && h == 0 { MulOrder(1, l, p); }
  }

  lemma RemainderIs(y: int, h: int, r: int)
    requires y == h * U32 + r && 0 <= r < U32
    ensures y % U32 == r
  {
  }

  /** Words moved up by `n` places. */
  lemma {:induction false} NatShifted(n: nat, s: seq<Word>)
    ensures Nat(Zeros(n) + s) == B(n) * Nat(s)
  {
    if s == [] {
      assert Zeros(n) + s == Zeros(n);
      AllZero(Zeros(n));
    } else {
      var m := |s| - 1;
      NatShifted(n, s[..m]);
      assert Zeros(n) + s == (Zeros(n) + s[..m]) + [s[m]];
      NatAppend(Zeros(n) + s[..m], s[m]);
      WeightAdd(n, m);
      hide Nat;
      ShiftFactor(B(n), Nat(s[..m]), s[m], B(m));
    }
  }

  lemma ShiftFactor(b: int, r: int, w: int, bm: int)
    ensures b * r + w * (b * bm) == b * (r + w * bm)
  {
    Commute(b, r + w * bm);
    Distribute(r, w * bm, b);
    Commute(r, b);
    Commute(b, bm);
    Associate(w, bm, b);
  }

  /** Shift `m` words of `x` up by the factor `p` into the words of `c` from `n` on; the last overflow is returned. */
  method ShiftLoop(c: array<Word>, n: nat, x: array<Word>, m: nat, p: int, q: int) returns (z: Word)
    requires c != x && n + m <= c.Length && 0 < m <= x.Length && p > 0 && q > 0 && p * q == U32
    modifies c
    ensures c[..n] == old(c[..n]) && c[n + m..] == old(c[n + m..])
    ensures MultAddDone(c[n..n + m], z, x[..m], m, p, 0)
    ensures x[m - 1] != 0 && z == 0 ==> c[n + m - 1] != 0
  {
    ghost var xs := x[..m];
    MultAddStart(xs, p, 0);
    hide MultAddDone;
    MulOrder(1, p, q);
    var i := 0;
    z := 0;
    while i < m
      invariant 0 <= i <= m && 0 <= z < p
      invariant c[..n] == old(c[..n]) && c[n + m..] == old(c[n + m..])
      invariant MultAddDone(c[n..n + i], z, xs, i, p, 0)
      invariant i > 0 && x[i - 1] != 0 && z == 0 ==> c[n + i - 1] != 0
    {
      ShiftWord(x[i], z, p, q);
      ghost var low, z0 := c[n..n + i], z;
      var w := x[i] * p % U32 + z;
      z := x[i] / q;
      c[n + i] := w;
      assert c[n..n + i + 1] == low + [w];
      MultAddStep(low, xs, i, p, 0, z0, z, w);
      i := i + 1;
    }
  }

  /** Shift by `n` words and the factor `p` into the words of a new number. */
  method ShiftInto(c: Bigint, b: Bigint, n: nat, p: int, q: int)
    requires c != b && c.x != b.x && c.x.Length == n + b.wds + 1 && forall k | 0 <= k < c.x.Length :: c.x[k] == 0
    requires b.Normal() && p > 0 && q > 0 && p * q == U32
    modifies c`wds, c.x
    ensures c.x == old(c.x) && c.Valid() && c.wds > 0 && c.Value() == B(n) * (b.Value() * p + 0)
    ensures b.x[b.wds - 1] != 0 ==> c.x[c.wds - 1] != 0
  {
    hide Nat, B;
    var wds := b.wds;
    assert c.x[..n] == Zeros(n);
    var z := ShiftLoop(c.x, n, b.x, wds, p, q);
    ghost var low := c.x[n..n + wds];
    MultAddEnd(low, z, b.x[..wds], p, 0);
    c.wds := n + wds;
    if z != 0 {
      c.x[n + wds] := z;
      c.wds := c.wds + 1;
      assert c.x[..c.wds] == Zeros(n) + (low + [z]);
      NatShifted(n, low + [z]);
    } else {
      assert c.x[..c.wds] == Zeros(n) + low;
      NatShifted(n, low);
    }
  }

  /** Multiply by 2 to the `k`, as a new number. */
  method LShift(b: Bigint, k: nat) returns (c: Bigint)
    requires b.Normal()
    ensures fresh(c) && fresh(c.x) && c.Valid() && c.wds > 0 && c.Value() == b.Value() * Pow(2, k)
    ensures b.Value() > 0 ==> c.Normal()
  {
    var n, k1 := k / 32, k % 32;
    PowAdd(2, 32 * n, k1);
    WeightIsPower(n);
    PowAdd(2, k1, 32 - k1);
    TwoTo32();
    TopWord(b);
    hide Nat, B, Pow;
    c := new Bigint(n + b.wds + 1);
    var p := PowerOfTwo(k1);
    var q := PowerOfTwo(32 - k1);
    ShiftInto(c, b, n, p, q);
    Shifted(b.Value(), p, B(n), Pow(2, k));
  }

  lemma TopWord(b: Bigint)
    requires b.Normal()
    ensures b.Value() > 0 ==> b.x[b.wds - 1] != 0
  {
    if b.wds == 1 && b.x[0] == 0 { AllZero(b.x[..1]); }
  }

  lemma Shifted(v: int, p: int, b: int, t: int)
    requires t == b * p
    ensures b * (v * p + 0) == v * t
  {
    Commute(b, v * p);
    Associate(v, p, b);
    Commute(p, b);
  }

  method PowerOfTwo(k: nat) returns (p: int)
    requires k <= 32
    ensures p == Pow(2, k)
  {
    p := 1;
    for i := 0 to k
      invariant p == Pow(2, i)
    {
      p := 2 * p;
    }
  }
}
