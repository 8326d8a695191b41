/** The block cipher of lua-crypt.c and its padding, over any round function (FIPS 46-3). */
module Des {
  type Word = bv32
  type Byte = bv8

  /** The two words of a subkey. */
  datatype Key = Key(first: Word, second: Word)

  /** The two halves of a block. */
  datatype Halves = Halves(l: Word, r: Word)

  /** What a round makes of one half and a subkey. */
  type RoundFunction = (Word, Key) -> Word

  datatype Option = None | Some(value: seq<Byte>)

  const ROUNDS: nat := 16

  // ---------- Permutations ----------

  /** Exchange the bits of `y` under a mask with those of `x` some places higher. */
  function Exchange4(x: Word, y: Word): Halves
  {
    var t := ((x >> 4) ^ y) & 0x0F0F0F0F;
    Halves(x ^ (t << 4), y ^ t)
  }

  function Exchange16(x: Word, y: Word): Halves
  {
    var t := ((x >> 16) ^ y) & 0x0000FFFF;
    Halves(x ^ (t << 16), y ^ t)
  }

  function Exchange2(x: Word, y: Word): Halves
  {
    var t := ((x >> 2) ^ y) & 0x33333333;
    Halves(x ^ (t << 2), y ^ t)
  }

  function Exchange8(x: Word, y: Word): Halves
  {
    var t := ((x >> 8) ^ y) & 0x00FF00FF;
    Halves(x ^ (t << 8), y ^ t)
  }

  function Exchange0(x: Word, y: Word): Halves
  {
    var t := (x ^ y) & 0xAAAAAAAA;
    Halves(x ^ t, y ^ t)
  }

  function RotateLeft(x: Word): Word
  {
    (x << 1) | (x >> 31)
  }

  function RotateRight(x: Word): Word
  {
    (x << 31) | (x >> 1)
  }

  lemma Exchange4Twice(x: Word, y: Word)
    ensures var Halves(x', y') := Exchange4(x, y); Exchange4(x', y') == Halves(x, y)
  {
  }

  lemma Exchange16Twice(x: Word, y: Word)
    ensures var Halves(x', y') := Exchange16(x, y); Exchange16(x', y') == Halves(x, y)
  {
  }

  lemma Exchange2Twice(x: Word, y: Word)
    ensures var Halves(x', y') := Exchange2(x, y); Exchange2(x', y') == Halves(x, y)
  {
  }

  lemma Exchange8Twice(x: Word, y: Word)
    ensures var Halves(x', y') := Exchange8(x, y); Exchange8(x', y') == Halves(x, y)
  {
  }

  lemma Exchange0Twice(x: Word, y: Word)
    ensures var Halves(x', y') := Exchange0(x, y); Exchange0(x', y') == Halves(x, y)
  {
  }

  lemma RotateBack(x: Word)
    ensures RotateRight(RotateLeft(x)) == x && RotateLeft(RotateRight(x)) == x
  {
  }

  /** DES_IP. */
  function InitialPermutation(x: Word, y: Word): Halves
  {
    var Halves(x1, y1) := Exchange4(x, y);
    var Halves(x2, y2) := Exchange16(x1, y1);
    var Halves(y3, x3) := Exchange2(y2, x2);
    var Halves(y4, x4) := Exchange8(y3, x3);
    var y5 := RotateLeft(y4);
    var Halves(x6, y6) := Exchange0(x4, y5);
    Halves(RotateLeft(x6), y6)
  }

  /** DES_FP. */
  function FinalPermutation(x: Word, y: Word): Halves
  {
    var x1 := RotateRight(x);
    var Halves(x2, y2) := Exchange0(x1, y);
    var y3 := RotateRight(y2);
    var Halves(y4, x4) := Exchange8(y3, x2);
    var Halves(y5, x5) := Exchange2(y4, x4);
    var Halves(x6, y6) := Exchange16(x5, y5);
    Exchange4(x6, y6)
  }

  lemma PermutationsInverse(x: Word, y: Word)
    ensures var Halves(x', y') := InitialPermutation(x, y); FinalPermutation(x', y') == Halves(x, y)
    ensures var Halves(x', y') := FinalPermutation(x, y); InitialPermutation(x', y') == Halves(x, y)
  {
    hide Exchange4, Exchange16, Exchange2, Exchange8, Exchange0, RotateLeft, RotateRight;
    var Halves(x1, y1) := Exchange4(x, y);
    Exchange4Twice(x, y);
    var Halves(x2, y2) := Exchange16(x1, y1);
    Exchange16Twice(x1, y1);
    var Halves(y3, x3) := Exchange2(y2, x2);
    Exchange2Twice(y2, x2);
    var Halves(y4, x4) := Exchange8(y3, x3);
    Exchange8Twice(y3, x3);
    RotateBack(y4);
    var Halves(x6, y6) := Exchange0(x4, RotateLeft(y4));
    Exchange0Twice(x4, RotateLeft(y4));
    RotateBack(x6);
    FinalThenInitial(x, y);
  }

  lemma FinalThenInitial(x: Word, y: Word)
    ensures var Halves(x', y') := FinalPermutation(x, y); InitialPermutation(x', y') == Halves(x, y)
  {
    hide Exchange4, Exchange16, Exchange2, Exchange8, Exchange0, RotateLeft, RotateRight;
    RotateBack(x);
    var Halves(x2, y2) := Exchange0(RotateRight(x), y);
    Exchange0Twice(RotateRight(x), y);
    RotateBack(y2);
    var Halves(y4, x4) := Exchange8(RotateRight(y2), x2);
    Exchange8Twice(RotateRight(y2), x2);
    var Halves(y5, x5) := Exchange2(y4, x4);
    Exchange2Twice(y4, x4);
    var Halves(x6, y6) := Exchange16(x5, y5);
    Exchange16Twice(x5, y5);
    Exchange4Twice(x6, y6);
  }

  // ---------- Rounds ----------

  /** Rounds on two halves, one after the other. */
  function Rounds(h: Halves, keys: seq<Key>, f: RoundFunction): Halves
  {
    if keys == [] then h else Round(Rounds(h, keys[..|keys| - 1], f), keys[|keys| - 1], f)
  }

  /** The subkeys in the order of decoding. */
  function Reversed(keys: seq<Key>): (r: seq<Key>)
    ensures |r| == |keys|
  {
    if keys == [] then [] else [keys[|keys| - 1]] + Reversed(keys[..|keys| - 1])
  }

  /** A round: the halves change places, and the mixed one goes to the end. */
  function Round(h: Halves, k: Key, f: RoundFunction): Halves
  {
    Halves(h.r, h.l ^ f(h.r, k))
  }

  lemma OneMore(h: Halves, keys: seq<Key>, k: Key, f: RoundFunction)
    ensures Rounds(h, keys + [k], f) == Round(Rounds(h, keys, f), k, f)
  {
    assert (keys + [k])[..|keys|] == keys;
  }

  lemma NoRounds(h: Halves, f: RoundFunction)
    ensures Rounds(h, [], f) == h
  {
  }

  /** Starting with one more round. */
  lemma {:induction false} RoundFirst(h: Halves, k: Key, keys: seq<Key>, f: RoundFunction)
    ensures Rounds(h, [k] + keys, f) == Rounds(Round(h, k, f), keys, f)
    decreases |keys|
  {
    hide *;
    if keys == [] {
      NoRounds(h, f);
      NoRounds(Round(h, k, f), f);
      OneMore(h, [], k, f);
      assert [k] + keys == [] + [k];
    } else {
      var init, last := keys[..|keys| - 1], keys[|keys| - 1];
      RoundFirst(h, k, init, f);
      OneMore(h, [k] + init, last, f);
      OneMore(Round(h, k, f), init, last, f);
      assert [k] + keys == ([k] + init) + [last] && keys == init + [last];
    }
  }

  function Swapped(h: Halves): Halves
  {
    Halves(h.r, h.l)
  }

  lemma RoundUndone(h: Halves, k: Key, f: RoundFunction)
    ensures Round(Swapped(Round(h, k, f)), k, f) == Swapped(h)
  {
    XorTwice(h.l, f(h.r, k));
  }

  lemma XorTwice(a: Word, b: Word)
    ensures (a ^ b) ^ b == a
  {
  }

  /** Rounds with the subkeys in reverse order, on exchanged halves, undo rounds, whatever the round function is. */
  lemma {:induction false} RoundsUndone(h: Halves, keys: seq<Key>, f: RoundFunction)
    ensures Rounds(Swapped(Rounds(h, keys, f)), Reversed(keys), f) == Swapped(h)
    decreases |keys|
  {
    if keys == [] {
      hide Swapped;
      NoRounds(h, f);
      NoRounds(Swapped(h), f);
    } else {
      var init, last := keys[..|keys| - 1], keys[|keys| - 1];
      assert Reversed(keys) == [last] + Reversed(init);
      hide *;
      RoundsUndone(h, init, f);
      OneMore(h, init, last, f);
      assert keys == init + [last];
      RoundFirst(Swapped(Rounds(h, keys, f)), last, Reversed(init), f);
      RoundUndone(Rounds(h, init, f), last, f);
    }
  }

  // ---------- Blocks ----------

  /** Four bytes as a word, the first one highest. */
  function Joined(b0: Byte, b1: Byte, b2: Byte, b3: Byte): Word
  {
    (b0 as Word << 24) | (b1 as Word << 16) | (b2 as Word << 8) | (b3 as Word)
  }

  /** GET_UINT32. */
  function GetWord(b: seq<Byte>): Word
    requires |b| == 4
  {
    Joined(b[0], b[1], b[2], b[3])
  }

  /** PUT_UINT32. */
  function PutWord(x: Word): (r: seq<Byte>)
    ensures |r| == 4
  {
    [((x >> 24) & 0xFF) as Byte, ((x >> 16) & 0xFF) as Byte, ((x >> 8) & 0xFF) as Byte, (x & 0xFF) as Byte]
  }

  lemma WordBack(x: Word)
    ensures GetWord(PutWord(x)) == x
  {
  }

  lemma BytesBack(b: seq<Byte>)
    requires |b| == 4
    ensures PutWord(GetWord(b)) == b
  {
  }

  /** The `k`-th bits of eight bytes, the last byte giving the highest bit; the lowest bit of a byte is the 0-th. */
  function Column(b0: Byte, b1: Byte, b2: Byte, b3: Byte, b4: Byte, b5: Byte, b6: Byte, b7: Byte, k: Byte): Byte
    requires k < 8
  {
    (((b7 >> k) & 1) << 7) | (((b6 >> k) & 1) << 6) | (((b5 >> k) & 1) << 5) | (((b4 >> k) & 1) << 4)
    | (((b3 >> k) & 1) << 3) | (((b2 >> k) & 1) << 2) | (((b1 >> k) & 1) << 1) | ((b0 >> k) & 1)
  }

  lemma Joined4(a0: Byte, a1: Byte, a2: Byte, a3: Byte, c0: Byte, c1: Byte, c2: Byte, c3: Byte)
    ensures Exchange4(Joined(a0, a1, a2, a3), Joined(c0, c1, c2, c3)) ==
            Halves(Joined(High4(a0, c0), High4(a1, c1), High4(a2, c2), High4(a3, c3)),
                   Joined(Low4(a0, c0), Low4(a1, c1), Low4(a2, c2), Low4(a3, c3)))
  {
  }

  function High4(a: Byte, c: Byte): Byte { (a & 0x0F) | ((c & 0x0F) << 4) }

  function Low4(a: Byte, c: Byte): Byte { (c & 0xF0) | ((a >> 4) & 0x0F) }

  lemma Joined16(a0: Byte, a1: Byte, a2: Byte, a3: Byte, c0: Byte, c1: Byte, c2: Byte, c3: Byte)
    ensures Exchange16(Joined(a0, a1, a2, a3), Joined(c0, c1, c2, c3)) ==
            Halves(Joined(c2, c3, a2, a3), Joined(c0, c1, a0, a1))
  {
  }

  lemma Joined2(a0: Byte, a1: Byte, a2: Byte, a3: Byte, c0: Byte, c1: Byte, c2: Byte, c3: Byte)
    ensures Exchange2(Joined(a0, a1, a2, a3), Joined(c0, c1, c2, c3)) ==
            Halves(Joined(High2(a0, c0), High2(a1, c1), High2(a2, c2), High2(a3, c3)),
                   Joined(Low2(a0, c0), Low2(a1, c1), Low2(a2, c2), Low2(a3, c3)))
  {
  }

  function High2(a: Byte, c: Byte): Byte { (a & 0x33) | ((c & 0x33) << 2) }

  function Low2(a: Byte, c: Byte): Byte { (c & 0xCC) | ((a >> 2) & 0x33) }

  lemma Joined8(a0: Byte, a1: Byte, a2: Byte, a3: Byte, c0: Byte, c1: Byte, c2: Byte, c3: Byte)
    ensures Exchange8(Joined(a0, a1, a2, a3), Joined(c0, c1, c2, c3)) ==
            Halves(Joined(c1, a1, c3, a3), Joined(c0, a0, c2, a2))
  {
  }

  function Even(a: Byte, c: Byte): Byte { (a & 0x55) | ((c & 0x55) << 1) }

  function Odd(a: Byte, c: Byte): Byte { (c & 0xAA) | ((a >> 1) & 0x55) }

  /** The bytes of a word, the highest first. */
  function Byte0(w: Word): Byte { ((w >> 24) & 0xFF) as Byte }

  function Byte1(w: Word): Byte { ((w >> 16) & 0xFF) as Byte }

  function Byte2(w: Word): Byte { ((w >> 8) & 0xFF) as Byte }

  function Byte3(w: Word): Byte { (w & 0xFF) as Byte }

  lemma JoinedBytes(b0: Byte, b1: Byte, b2: Byte, b3: Byte)
    ensures var w := Joined(b0, b1, b2, b3); Byte0(w) == b0 && Byte1(w) == b1 && Byte2(w) == b2 && Byte3(w) == b3
  {
  }

  lemma Split(w: Word)
    ensures w == Joined(Byte0(w), Byte1(w), Byte2(w), Byte3(w))
  {
  }

  lemma Even0(x: Word, c: Word)
    ensures Byte0(Exchange0(x, RotateLeft(c)).l) == Even(Byte0(x), Byte0(c))
  {
  }

  lemma Odd0(x: Word, c: Word)
    ensures Byte0(RotateRight(Exchange0(x, RotateLeft(c)).r)) == Odd(Byte0(x), Byte0(c))
  {
  }

  lemma Even1(x: Word, c: Word)
    ensures Byte1(Exchange0(x, RotateLeft(c)).l) == Even(Byte1(x), Byte1(c))
  {
  }

  lemma Odd1(x: Word, c: Word)
    ensures Byte1(RotateRight(Exchange0(x, RotateLeft(c)).r)) == Odd(Byte1(x), Byte1(c))
  {
  }

  lemma Even2(x: Word, c: Word)
    ensures Byte2(Exchange0(x, RotateLeft(c)).l) == Even(Byte2(x), Byte2(c))
  {
  }

  lemma Odd2(x: Word, c: Word)
    ensures Byte2(RotateRight(Exchange0(x, RotateLeft(c)).r)) == Odd(Byte2(x), Byte2(c))
  {
  }

  lemma Even3(x: Word, c: Word)
    ensures Byte3(Exchange0(x, RotateLeft(c)).l) == Even(Byte3(x), Byte3(c))
  {
  }

  lemma Odd3(x: Word, c: Word)
    ensures Byte3(RotateRight(Exchange0(x, RotateLeft(c)).r)) == Odd(Byte3(x), Byte3(c))
  {
  }

  lemma Joined0(a0: Byte, a1: Byte, a2: Byte, a3: Byte, c0: Byte, c1: Byte, c2: Byte, c3: Byte)
    ensures var h := Exchange0(Joined(a0, a1, a2, a3), RotateLeft(Joined(c0, c1, c2, c3)));
            && h.l == Joined(Even(a0, c0), Even(a1, c1), Even(a2, c2), Even(a3, c3))
            && RotateRight(h.r) == Joined(Odd(a0, c0), Odd(a1, c1), Odd(a2, c2), Odd(a3, c3))
  {
    hide *;
    var x, c := Joined(a0, a1, a2, a3), Joined(c0, c1, c2, c3);
    var h := Exchange0(x, RotateLeft(c));
    JoinedBytes(a0, a1, a2, a3);
    JoinedBytes(c0, c1, c2, c3);
    Even0(x, c);
    Even1(x, c);
    Even2(x, c);
    Even3(x, c);
    Odd0(x, c);
    Odd1(x, c);
    Odd2(x, c);
    Odd3(x, c);
    Split(h.l);
    Split(RotateRight(h.r));
  }

  lemma Column7(b0: Byte, b1: Byte, b2: Byte, b3: Byte, b4: Byte, b5: Byte, b6: Byte, b7: Byte)
    ensures Odd(Low2(Low4(b0, b4), Low4(b2, b6)), Low2(Low4(b1, b5), Low4(b3, b7)))
            == Column(b0, b1, b2, b3, b4, b5, b6, b7, 7)
  {
  }

  lemma Column6(b0: Byte, b1: Byte, b2: Byte, b3: Byte, b4: Byte, b5: Byte, b6: Byte, b7: Byte)
    ensures Even(Low2(Low4(b0, b4), Low4(b2, b6)), Low2(Low4(b1, b5), Low4(b3, b7)))
            == Column(b0, b1, b2, b3, b4, b5, b6, b7, 6)
  {
  }

  lemma Column5(b0: Byte, b1: Byte, b2: Byte, b3: Byte, b4: Byte, b5: Byte, b6: Byte, b7: Byte)
    ensures Odd(High2(Low4(b0, b4), Low4(b2, b6)), High2(Low4(b1, b5), Low4(b3, b7)))
            == Column(b0, b1, b2, b3, b4, b5, b6, b7, 5)
  {
  }

  lemma Column4(b0: Byte, b1: Byte, b2: Byte, b3: Byte, b4: Byte, b5: Byte, b6: Byte, b7: Byte)
    ensures Even(High2(Low4(b0, b4), Low4(b2, b6)), High2(Low4(b1, b5), Low4(b3, b7)))
            == Column(b0, b1, b2, b3, b4, b5, b6, b7, 4)
  {
  }

  lemma Column3(b0: Byte, b1: Byte, b2: Byte, b3: Byte, b4: Byte, b5: Byte, b6: Byte, b7: Byte)
    ensures Odd(Low2(High4(b0, b4), High4(b2, b6)), Low2(High4(b1, b5), High4(b3, b7)))
            == Column(b0, b1, b2, b3, b4, b5, b6, b7, 3)
  {
  }

  lemma Column2(b0: Byte, b1: Byte, b2: Byte, b3: Byte, b4: Byte, b5: Byte, b6: Byte, b7: Byte)
    ensures Even(Low2(High4(b0, b4), High4(b2, b6)), Low2(High4(b1, b5), High4(b3, b7)))
            == Column(b0, b1, b2, b3, b4, b5, b6, b7, 2)
  {
  }

  lemma Column1(b0: Byte, b1: Byte, b2: Byte, b3: Byte, b4: Byte, b5: Byte, b6: Byte, b7: Byte)
    ensures Odd(High2(High4(b0, b4), High4(b2, b6)), High2(High4(b1, b5), High4(b3, b7)))
            == Column(b0, b1, b2, b3, b4, b5, b6, b7, 1)
  {
  }

  lemma Column0(b0: Byte, b1: Byte, b2: Byte, b3: Byte, b4: Byte, b5: Byte, b6: Byte, b7: Byte)
    ensures Even(High2(High4(b0, b4), High4(b2, b6)), High2(High4(b1, b5), High4(b3, b7)))
            == Column(b0, b1, b2, b3, b4, b5, b6, b7, 0)
  {
  }

  lemma InitialIs(x: Word, y: Word)
    ensures var (e1, h) := (Exchange4(x, y), InitialPermutation(x, y));
            var e2 := Exchange16(e1.l, e1.r);
            var e3 := Exchange2(e2.r, e2.l);
            var e4 := Exchange8(e3.l, e3.r);
            var e5 := Exchange0(e4.r, RotateLeft(e4.l));
            h == Halves(RotateLeft(e5.l), e5.r)
  {
    hide Exchange4, Exchange16, Exchange2, Exchange8, Exchange0, RotateLeft;
  }

  /**
   * The table of the initial permutation of FIPS 46-3: the left half takes the bits 2, 4, 6 and 8 of the bytes of the
   * block, counted from the highest, from the last byte to the first, and the right half the others. The program keeps
   * both halves rotated by one place.
   */
  lemma InitialTable(b0: Byte, b1: Byte, b2: Byte, b3: Byte, b4: Byte, b5: Byte, b6: Byte, b7: Byte)
    ensures var h := InitialPermutation(Joined(b0, b1, b2, b3), Joined(b4, b5, b6, b7));
            && RotateRight(h.l) == Joined(Column(b0, b1, b2, b3, b4, b5, b6, b7, 6),
                                          Column(b0, b1, b2, b3, b4, b5, b6, b7, 4),
                                          Column(b0, b1, b2, b3, b4, b5, b6, b7, 2),
                                          Column(b0, b1, b2, b3, b4, b5, b6, b7, 0))
            && RotateRight(h.r) == Joined(Column(b0, b1, b2, b3, b4, b5, b6, b7, 7),
                                          Column(b0, b1, b2, b3, b4, b5, b6, b7, 5),
                                          Column(b0, b1, b2, b3, b4, b5, b6, b7, 3),
                                          Column(b0, b1, b2, b3, b4, b5, b6, b7, 1))
  {
    hide *;
    var x, y := Joined(b0, b1, b2, b3), Joined(b4, b5, b6, b7);
    var h0, h1, h2, h3 := High4(b0, b4), High4(b1, b5), High4(b2, b6), High4(b3, b7);
    var l0, l1, l2, l3 := Low4(b0, b4), Low4(b1, b5), Low4(b2, b6), Low4(b3, b7);
    Joined4(b0, b1, b2, b3, b4, b5, b6, b7);
    Joined16(h0, h1, h2, h3, l0, l1, l2, l3);
    Joined2(l0, l1, h0, h1, l2, l3, h2, h3);
    var p0, p1, p2, p3 := High2(l0, l2), High2(l1, l3), High2(h0, h2), High2(h1, h3);
    var q0, q1, q2, q3 := Low2(l0, l2), Low2(l1, l3), Low2(h0, h2), Low2(h1, h3);
    Joined8(p0, p1, p2, p3, q0, q1, q2, q3);
    Joined0(q0, p0, q2, p2, q1, p1, q3, p3);
    InitialIs(x, y);
    RotateBack(Exchange0(Joined(q0, p0, q2, p2), RotateLeft(Joined(q1, p1, q3, p3))).l);
    Column7(b0, b1, b2, b3, b4, b5, b6, b7);
    Column6(b0, b1, b2, b3, b4, b5, b6, b7);
    Column5(b0, b1, b2, b3, b4, b5, b6, b7);
    Column4(b0, b1, b2, b3, b4, b5, b6, b7);
    Column3(b0, b1, b2, b3, b4, b5, b6, b7);
    Column2(b0, b1, b2, b3, b4, b5, b6, b7);
    Column1(b0, b1, b2, b3, b4, b5, b6, b7);
    Column0(b0, b1, b2, b3, b4, b5, b6, b7);
  }

  /** des_crypt. */
  function Crypt(b: seq<Byte>, keys: seq<Key>, f: RoundFunction): (r: seq<Byte>)
    requires |b| == 8
    ensures |r| == 8
  {
    var h := Rounds(InitialPermutation(GetWord(b[..4]), GetWord(b[4..])), keys, f);
    var Halves(y, x) := FinalPermutation(h.r, h.l);
    PutWord(y) + PutWord(x)
  }

  /** A block is decoded to what was encoded, with the subkeys in reverse order, whatever the round function is. */
  lemma CryptUndone(b: seq<Byte>, keys: seq<Key>, f: RoundFunction)
    requires |b| == 8
    ensures Crypt(Crypt(b, keys, f), Reversed(keys), f) == b
  {
    hide PutWord, GetWord, InitialPermutation, FinalPermutation, Rounds, Reversed;
    var x0, y0 := GetWord(b[..4]), GetWord(b[4..]);
    var h0 := InitialPermutation(x0, y0);
    var h := Rounds(h0, keys, f);
    var Halves(y, x) := FinalPermutation(h.r, h.l);
    var c := PutWord(y) + PutWord(x);
    assert c[..4] == PutWord(y) && c[4..] == PutWord(x);
    WordBack(y);
    WordBack(x);
    PermutationsInverse(h.r, h.l);
    PermutationsInverse(x0, y0);
    RoundsUndone(h0, keys, f);
    BytesBack(b[..4]);
    BytesBack(b[4..]);
    assert b == b[..4] + b[4..];
  }

  /** des_crypt: two rounds in a turn, on the two words in place. */
  method DesCrypt(keys: array<Key>, input: seq<Byte>, f: RoundFunction) returns (output: seq<Byte>)
    requires keys.Length == ROUNDS && |input| == 8
    ensures output == Crypt(input, keys[..], f)
  {
    hide Rounds, InitialPermutation, FinalPermutation, GetWord, PutWord;
    var h := InitialPermutation(GetWord(input[..4]), GetWord(input[4..]));
    var halves := TwoByTwo(keys, h, f);
    var o := FinalPermutation(halves.r, halves.l);
    output := PutWord(o.l) + PutWord(o.r);
  }

  method TwoByTwo(keys: array<Key>, h: Halves, f: RoundFunction) returns (halves: Halves)
    requires keys.Length == ROUNDS
    ensures halves == Rounds(h, keys[..], f)
  {
    hide *;
    var x, y := h.l, h.r;
    ghost var ks := keys[..];
    var i := 0;
    NoRounds(h, f);
    assert ks[..0] == [];
    EvenLength(keys);
    while i < keys.Length
      invariant 0 <= i <= keys.Length && i % 2 == 0 && Halves(x, y) == Rounds(h, ks[..i], f)
    {
      x, y := Turn(x, y, keys[i], keys[i + 1], h, ks, i, f);
      i := i + 2;
    }
    assert ks[..i] == ks;
    halves := Halves(x, y);
  }

  /** Two rounds. */
  method Turn(x: Word, y: Word, k: Key, k': Key, ghost h: Halves, ghost ks: seq<Key>, ghost i: nat, f: RoundFunction)
    returns (x': Word, y': Word)
    requires i + 1 < |ks| && k == ks[i] && k' == ks[i + 1] && Halves(x, y) == Rounds(h, ks[..i], f)
    ensures Halves(x', y') == Rounds(h, ks[..i + 2], f)
  {
    hide *;
    TwoRounds(h, ks, i, f);
    x' := x ^ f(y, k);
    RoundIs(x, y, k, f);
    y' := y ^ f(x', k');
    RoundIs(y, x', k', f);
  }

  lemma EvenLength(keys: array<Key>)
    requires keys.Length == ROUNDS
    ensures keys.Length % 2 == 0
  {
  }

  lemma RoundIs(x: Word, y: Word, k: Key, f: RoundFunction)
    ensures Round(Halves(x, y), k, f) == Halves(y, x ^ f(y, k))
  {
  }

  lemma TwoRounds(h: Halves, keys: seq<Key>, i: nat, f: RoundFunction)
    requires i + 1 < |keys|
    ensures Rounds(h, keys[..i + 2], f) == Round(Round(Rounds(h, keys[..i], f), keys[i], f), keys[i + 1], f)
  {
    hide *;
    OneMore(h, keys[..i], keys[i], f);
    OneMore(h, keys[..i + 1], keys[i + 1], f);
    assert keys[..i] + [keys[i]] == keys[..i + 1] && keys[..i + 1] + [keys[i + 1]] == keys[..i + 2];
  }

  // ---------- Texts ----------

  function Zeros(n: nat): (r: seq<Byte>)
    ensures |r| == n
  {
    seq(n, _ => 0)
  }

  /** A text is filled up to whole blocks by a mark and zeros. */
  function Padded(text: seq<Byte>): (r: seq<Byte>)
    ensures |r| % 8 == 0 && |r| > |text|
  {
    text + [0x80] + Zeros(7 - |text| % 8)
  }

  /** Blocks one after the other. */
  function CryptAll(text: seq<Byte>, keys: seq<Key>, f: RoundFunction): (r: seq<Byte>)
    requires |text| % 8 == 0
    ensures |r| == |text|
  {
    if text == [] then []
    else
      var n := |text| - 8;
      CryptAll(text[..n], keys, f) + Crypt(text[n..], keys, f)
  }

  lemma {:induction false} CryptAllUndone(text: seq<Byte>, keys: seq<Key>, f: RoundFunction)
    requires |text| % 8 == 0
    ensures CryptAll(CryptAll(text, keys, f), Reversed(keys), f) == text
  {
    hide *;
    if text == [] {
      NoBlocks(keys, f);
      NoBlocks(Reversed(keys), f);
    } else {
      var init, last := text[..|text| - 8], text[|text| - 8..];
      CryptAllUndone(init, keys, f);
      CryptUndone(last, keys, f);
      assert text == init + last;
      CryptSplit(init, last, keys, f);
      CryptSplit(CryptAll(init, keys, f), Crypt(last, keys, f), Reversed(keys), f);
    }
  }

  lemma CryptSplit(init: seq<Byte>, last: seq<Byte>, keys: seq<Key>, f: RoundFunction)
    requires |init| % 8 == 0 && |last| == 8
    ensures CryptAll(init + last, keys, f) == CryptAll(init, keys, f) + Crypt(last, keys, f)
  {
    hide Crypt;
    assert (init + last)[..|init + last| - 8] == init && (init + last)[|init + last| - 8..] == last;
  }

  /** The whole blocks of a text. */
  method CryptBlocks(keys: array<Key>, text: seq<Byte>, f: RoundFunction) returns (out: seq<Byte>)
    requires keys.Length == ROUNDS
    ensures out == CryptAll(text[..|text| - |text| % 8], keys[..], f)
  {
    hide Crypt, CryptAll;
    out := [];
    var i := 0;
    NoBlocks(keys[..], f);
    assert text[..0] == [];
    while i + 8 <= |text|
      invariant 0 <= i <= |text| && i % 8 == 0 && out == CryptAll(text[..i], keys[..], f)
    {
      CryptSplit(text[..i], text[i..i + 8], keys[..], f);
      assert text[..i] + text[i..i + 8] == text[..i + 8];
      var c := DesCrypt(keys, text[i..i + 8], f);
      out := out + c;
      i := i + 8;
    }
    assert i == |text| - |text| % 8;
  }

  /** ldesencode: whole blocks, and then the rest of the text with its padding. */
  method DesEncode(keys: array<Key>, text: seq<Byte>, f: RoundFunction) returns (out: seq<Byte>)
    requires keys.Length == ROUNDS
    ensures out == CryptAll(Padded(text), keys[..], f)
  {
    hide Crypt, CryptAll;
    var i := |text| - |text| % 8;
    out := CryptBlocks(keys, text, f);
    var tail := text[i..] + [0x80] + Zeros(7 - (|text| - i));
    CryptSplit(text[..i], tail, keys[..], f);
    LastBlock(text, i);
    var c := DesCrypt(keys, tail, f);
    out := out + c;
  }

  lemma NoBlocks(keys: seq<Key>, f: RoundFunction)
    ensures CryptAll([], keys, f) == []
  {
  }

  lemma LastBlock(text: seq<Byte>, i: nat)
    requires i <= |text| < i + 8 && i % 8 == 0
    ensures text[..i] + (text[i..] + [0x80] + Zeros(7 - (|text| - i))) == Padded(text)
  {
    assert |text| - i == |text| % 8;
  }

  /** What is left when the zeros at the end and the mark before them are taken off, at most one block. */
  function Stripped(b: seq<Byte>, limit: nat): Option
  {
    if limit == 0 || b == [] then None
    else
      var n := |b| - 1;
      if b[n] == 0x80 then Some(b[..n]) else if b[n] == 0 then Stripped(b[..n], limit - 1) else None
  }

  lemma {:induction false} StripPadding(text: seq<Byte>, zeros: nat, limit: nat)
    requires zeros < limit
    ensures Stripped(text + [0x80] + Zeros(zeros), limit) == Some(text)
  {
    var b := text + [0x80] + Zeros(zeros);
    if zeros == 0 { assert b[..|b| - 1] == text; }
    else {
      assert b[..|b| - 1] == text + [0x80] + Zeros(zeros - 1);
      StripPadding(text, zeros - 1, limit - 1);
    }
  }

  /** What decoding ends with; `Below` is a read below the buffer. */
  datatype Decoded = Text(value: seq<Byte>) | Invalid | Below

  function Outcome(b: seq<Byte>): Decoded
  {
    if b == Zeros(8) then Below
    else if Stripped(b, 8) == None then Invalid else Text(Stripped(b, 8).value)
  }

  lemma {:induction false} ZerosStrip(n: nat, limit: nat)
    ensures Stripped(Zeros(n), limit) == None
  {
    if n > 0 && limit > 0 {
      assert Zeros(n)[..n - 1] == Zeros(n - 1);
      ZerosStrip(n - 1, limit - 1);
    }
  }

  /** ldesdecode: subkeys in reverse order, then the padding is checked from the end. */
  method DesDecode(keys: array<Key>, text: seq<Byte>, f: RoundFunction) returns (out: Decoded)
    requires keys.Length == ROUNDS
    ensures out == if |text| % 8 != 0 || text == [] then Invalid
                   else Outcome(CryptAll(text, Reversed(keys[..]), f))
  {
    if |text| % 8 != 0 || text == [] { return Invalid; }
    hide *;
    var sk := Backwards(keys);
    var buffer := CryptBlocks(sk, text, f);
    assert text[..|text|] == text;
    out := Unpad(buffer);
  }

  /** The padding, from the end of the last block; the index is compared as an unsigned number. */
  method Unpad(buffer: seq<Byte>) returns (out: Decoded)
    requires |buffer| >= 8
    ensures out == Outcome(buffer)
  {
    var i := |buffer| - 1;
    assert buffer[..i + 1] == buffer;
    while i < 0 || i >= |buffer| - 8
      invariant |buffer| - 9 <= i < |buffer|
      invariant forall k | i < k < |buffer| :: buffer[k] == 0
      invariant Stripped(buffer, 8) == Stripped(buffer[..i + 1], 9 - (|buffer| - i))
      decreases i
    {
      if i < 0 {
        assert buffer == Zeros(8);
        return Below;
      }
      assert buffer[..i + 1][..i] == buffer[..i];
      if buffer[i] == 0x80 { return Text(buffer[..i]); }
      if buffer[i] != 0 { return Invalid; }
      i := i - 1;
    }
    return Invalid;
  }

  method Backwards(keys: array<Key>) returns (sk: array<Key>)
    requires keys.Length == ROUNDS
    ensures fresh(sk) && sk.Length == ROUNDS && sk[..] == Reversed(keys[..])
  {
    sk := new Key[ROUNDS](_ => Key(0, 0));
    forall i | 0 <= i < ROUNDS { sk[i] := keys[ROUNDS - 1 - i]; }
    forall i | 0 <= i < ROUNDS ensures sk[i] == Reversed(keys[..])[i] { ReversedAt(keys[..], i); }
  }

  lemma {:induction false} ReversedAt(keys: seq<Key>, i: nat)
    requires i < |keys|
    ensures Reversed(keys)[i] == keys[|keys| - 1 - i]
  {
    if i > 0 { ReversedAt(keys[..|keys| - 1], i - 1); }
  }

  lemma {:induction false} ReversedTwice(keys: seq<Key>)
    ensures Reversed(Reversed(keys)) == keys
  {
    forall i | 0 <= i < |keys| ensures Reversed(Reversed(keys))[i] == keys[i] {
      ReversedAt(Reversed(keys), i);
      ReversedAt(keys, |keys| - 1 - i);
    }
  }

  /** The check of the padding reads below its buffer for one text only: the block that zeros are encrypted to. */
  lemma ReadsBelow(text: seq<Byte>, keys: seq<Key>, f: RoundFunction)
    requires |text| % 8 == 0
    ensures Outcome(CryptAll(text, Reversed(keys), f)).Below? <==> text == CryptAll(Zeros(8), keys, f)
  {
    hide CryptAll, Stripped, Reversed;
    CryptAllUndone(Zeros(8), keys, f);
    CryptAllUndone(text, Reversed(keys), f);
    ReversedTwice(keys);
  }

  /** Decoding gives back the text that was encoded, for every text and every key. */
  method EncodeDecode(keys: array<Key>, text: seq<Byte>, f: RoundFunction) returns (out: Decoded)
    requires keys.Length == ROUNDS
    ensures out == Text(text)
  {
    var c := DesEncode(keys, text, f);
    CryptAllUndone(Padded(text), keys[..], f);
    StripPadding(text, 7 - |text| % 8, 8);
    ZerosStrip(8, 8);
    out := DesDecode(keys, c, f);
  }
}
