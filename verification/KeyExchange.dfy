/** Diffie-Hellman key exchange over 64-bit words. */
module KeyExchange {
  import opened Arithmetic

  const U64: int := 0x1_0000_0000_0000_0000
  const P: int := 0xffff_ffff_ffff_ffc5
  const G: int := 5

  // ---------- Unsigned 64-bit words ----------

  predicate Word(x: int)
  {
    0 <= x < U64
  }

  function Add64(x: int, y: int): int
  {
    (x + y) % U64
  }

  function Sub64(x: int, y: int): int
  {
    (x - y) % U64
  }

  // ---------- Powers and remainders ----------

  function Pow(a: int, n: nat): int
  {
    if n == 0 then 1 else a * Pow(a, n - 1)
  }

  lemma {:induction false} PowNat(a: nat, n: nat)
    ensures Pow(a, n) >= 0
  {
    if n > 0 {
      PowNat(a, n - 1);
      MulOrder(0, Pow(a, n - 1), a);
    }
  }

  lemma {:induction false} PowSum(a: int, m: nat, n: nat)
    ensures Pow(a, m + n) == Pow(a, m) * Pow(a, n)
  {
    if m > 0 {
      PowSum(a, m - 1, n);
      Associate(a, Pow(a, m - 1), Pow(a, n));
    }
  }

  lemma {:induction false} PowProduct(a: int, b: int, n: nat)
    ensures Pow(a * b, n) == Pow(a, n) * Pow(b, n)
  {
    if n > 0 {
      PowProduct(a, b, n - 1);
      var x, y := Pow(a, n - 1), Pow(b, n - 1);
      calc {
        (a * b) * (x * y);
        { Associate(a, b, x * y); Associate(b, x, y); Commute(b, x); Associate(x, b, y); }
        a * (x * (b * y));
        { Associate(a, x, b * y); }
        (a * x) * (b * y);
      }
    }
  }

  lemma {:induction false} PowPower(a: int, m: nat, n: nat)
    ensures m * n >= 0 && Pow(Pow(a, m), n) == Pow(a, m * n)
  {
    if n == 0 {
    } else {
      PowPower(a, m, n - 1);
      Distribute(1, n - 1, m);
      Commute(m, n);
      Commute(m, n - 1);
      PowSum(a, m, m * (n - 1));
    }
  }

  /** `x` and `y` leave the same remainder. */
  predicate Same(x: int, y: int)
  {
    x % P == y % P
  }

  lemma Shifted(x: int, k: int)
    ensures Same(x + k * P, x)
  {
    var q, r := x / P, x % P;
    Distribute(q, k, P);
    Division(x + k * P, P, q + k, r);
  }

  lemma SameTimes(x: int, x': int, y: int)
    requires Same(x, x')
    ensures Same(x * y, x' * y)
  {
    var k := x / P - x' / P;
    assert x == x' + k * P;
    Distribute(x', k * P, y);
    Associate(k, P, y);
    Commute(P, y);
    Associate(k, y, P);
    Shifted(x' * y, k * y);
  }

  lemma SameProduct(x: int, x': int, y: int, y': int)
    requires Same(x, x') && Same(y, y')
    ensures Same(x * y, x' * y')
  {
    SameTimes(x, x', y);
    Commute(x', y);
    Commute(x', y');
    SameTimes(y, y', x');
  }

  lemma {:induction false} SamePow(x: int, x': int, n: nat)
    requires Same(x, x')
    ensures Same(Pow(x, n), Pow(x', n))
  {
    if n > 0 {
      SamePow(x, x', n - 1);
      SameProduct(x, x', Pow(x, n - 1), Pow(x', n - 1));
    }
  }

  lemma SameRest(x: int)
    ensures 0 <= x % P < P && Same(x % P, x)
  {
  }

  // ---------- Products ----------

  /** One bit of the second factor: the sum of what is done and what is left stays the same. */
  lemma BitDone(m: int, a: int, b: int, m': int, a': int)
    requires b > 0
    requires b % 2 == 1 ==> m' == m + a || m' == m + a - P
    requires b % 2 == 0 ==> m' == m
    requires a' == 2 * a || a' == 2 * a - P
    ensures Same(m' + a' * (b / 2), m + a * b)
  {
    var c := b / 2;
    var e, f := if a' == 2 * a then 0 else 1, if b % 2 == 0 || m' == m + a then 0 else 1;
    calc {
      a * b;
      { Distribute(2 * c, b % 2, a); Commute(a, b); Associate(2, c, a); Commute(c, a); Associate(2, a, c); }
      (2 * a) * c + (b % 2) * a;
    }
    Distribute(a', e * P, c);
    Associate(e, P, c);
    Commute(P, c);
    Associate(e, c, P);
    Distribute(e * c, f, P);
    assert m + a * b == (m' + a' * c) + (e * c + f) * P;
    Shifted(m' + a' * c, e * c + f);
  }

  /** Adding below P without leaving 64 bits. */
  lemma NoOverflow(m: int, a: int)
    requires 0 <= a <= P && 0 <= m <= P
    ensures Sub64(P, a) == P - a
    ensures m >= P - a ==> Sub64(m, P - a) == m + a - P
    ensures m < P - a ==> Add64(m, a) == m + a
    ensures Sub64(Add64(a, a), P) == if 2 * a < P then 2 * a - P + U64 else 2 * a - P
  {
  }

  lemma AllBitsDone(m: int, a: int, b: int, x: int)
    requires 0 <= m < P && b == 0 && Same(m + a * b, x)
    ensures m == x % P
  {
  }

  lemma SameChain(x: int, y: int, z: int)
    requires Same(x, y) && Same(y, z)
    ensures Same(x, z)
  {
  }

  /** mul_mod_p, for a first factor up to P: no intermediate word overflows to a wrong remainder. */
  method MulModP(a0: int, b0: int) returns (m: int)
    requires 0 <= a0 <= P && Word(b0)
    ensures m == a0 * b0 % P
  {
    hide Same, Add64, Sub64;
    m := 0;
    var a, b := a0, b0;
    StartsSame(a0, b0);
    while b != 0
      invariant 0 <= a <= P && Word(b) && 0 <= m < P
      invariant Same(m + a * b, a0 * b0)
    {
      ghost var m1, a1, b1 := m, a, b;
      NoOverflow(m, a);
      if b % 2 == 1 {
        var t := Sub64(P, a);
        if m >= t { m := Sub64(m, t); } else { m := Add64(m, a); }
      }
      NoOverflow(a, a);
      if a >= Sub64(P, a) { a := Sub64(Add64(a, a), P); } else { a := Add64(a, a); }
      b := b / 2;
      BitDone(m1, a1, b1, m, a);
      SameChain(m + a * b, m1 + a1 * b1, a0 * b0);
    }
    AllBitsDone(m, a, b, a0 * b0);
  }

  lemma StartsSame(a: int, b: int)
    ensures Same(0 + a * b, a * b)
  {
  }

  // ---------- Powers ----------

  /** pow_mod_p; an exponent of 1 returns the base as it is. */
  method PowModP(a: int, b: int) returns (r: int)
    requires 0 <= a <= P && 1 <= b < U64
    ensures r == if b == 1 then a else Pow(a, b) % P
    decreases b
  {
    if b == 1 { return a; }
    var t := PowModP(a, b / 2);
    Halved(a, b, t);
    t := MulModP(t, t);
    if b % 2 == 1 { t := MulModP(t, a); }
    r := t;
  }

  lemma Halved(a: int, b: int, t: int)
    requires 0 <= a <= P && 2 <= b && t == if b / 2 == 1 then a else Pow(a, b / 2) % P
    ensures 0 <= t <= P
    ensures Pow(a, b) % P == if b % 2 == 1 then (t * t % P) * a % P else t * t % P
  {
    var h := b / 2;
    var p := Pow(a, h);
    SameRest(p);
    assert Pow(a, 1) == a * Pow(a, 0);
    assert Same(t, p);
    SameProduct(t, p, t, p);
    PowSum(a, h, h);
    if b % 2 == 1 {
      PowSum(a, 1, h + h);
      SameRest(t * t);
      SameTimes(t * t % P, Pow(a, h + h), a);
      Commute(a, Pow(a, h + h));
    }
  }

  /** powmodp reduces only bases above P, so that it misses exactly one base and exponent. */
  method PowMod(a: int, b: int) returns (r: int)
    requires Word(a) && 1 <= b < U64
    ensures Word(r)
    ensures r == Pow(a, b) % P <==> !(a == P && b == 1)
    ensures a == P && b == 1 ==> r == P
  {
    var base := if a > P then a % P else a;
    r := PowModP(base, b);
    SameRest(a);
    SamePow(base, a, b);
    assert Pow(a, 1) == a * Pow(a, 0);
  }

  // ---------- The exchange ----------

  datatype Option = None | Some(value: int)

  /** ldhexchange: what one side sends. */
  method DhExchange(x: int) returns (r: Option)
    requires Word(x)
    ensures r == if x == 0 then None else Some(Pow(G, x) % P)
  {
    if x == 0 { return None; }
    var v := PowMod(G, x);
    r := Some(v);
  }

  /** ldhsecret: what one side derives from what it got. */
  method DhSecret(x: int, y: int) returns (r: Option)
    requires Word(x) && Word(y)
    ensures x == 0 || y == 0 ==> r == None
    ensures x != 0 && y != 0 && x != P ==> r == Some(Pow(x, y) % P)
  {
    if x == 0 || y == 0 { return None; }
    var v := PowMod(x, y);
    r := Some(v);
  }

  /** A power of the generator is never a multiple of P, so that what is sent is never refused as 0. */
  lemma SentIsAccepted(x: nat)
    ensures 0 < Pow(G, x) % P < P
  {
    var inverse := (2 * P + 1) / G;
    assert G * inverse == 1 + 2 * P;
    PowProduct(G, inverse, x);
    Shifted(1, 2);
    SamePow(G * inverse, 1, x);
    PowOne(x);
    SameRest(Pow(G, x));
    if Pow(G, x) % P == 0 { SameTimes(Pow(G, x), 0, Pow(inverse, x)); }
  }

  lemma {:induction false} PowOne(n: nat)
    ensures Pow(1, n) == 1
  {
    if n > 0 { PowOne(n - 1); }
  }

  /** Both orders of the two exponents give the same remainder. */
  lemma Agreement(g: int, x: nat, y: nat)
    ensures Same(Pow(Pow(g, x) % P, y), Pow(Pow(g, y) % P, x))
  {
    SameRest(Pow(g, x));
    SameRest(Pow(g, y));
    SamePow(Pow(g, x) % P, Pow(g, x), y);
    SamePow(Pow(g, y) % P, Pow(g, y), x);
    PowPower(g, x, y);
    PowPower(g, y, x);
    Commute(x, y);
  }

  /** Both sides of an exchange end with the same secret. */
  method KeyExchange(x: int, y: int) returns (left: Option, right: Option)
    requires Word(x) && Word(y) && x != 0 && y != 0
    ensures left == right == Some(Pow(Pow(G, x) % P, y) % P)
  {
    var sentX := DhExchange(x);
    var sentY := DhExchange(y);
    SentIsAccepted(x);
    SentIsAccepted(y);
    Agreement(G, x, y);
    left := DhSecret(sentX.value, y);
    right := DhSecret(sentY.value, x);
  }
}
