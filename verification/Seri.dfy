/** Packing values into bytes, in a chain of blocks, and unpacking them. */
module Seri {
  import opened Arithmetic

  type Byte = x: nat | x < 256

  const BLOCK_SIZE: nat := 128
  const MAX_DEPTH: nat := 32
  const MAX_COOKIE: nat := 32

  const TYPE_NIL: nat := 0
  const TYPE_BOOLEAN: nat := 1
  const TYPE_NUMBER: nat := 2
  const TYPE_USERDATA: nat := 3
  const TYPE_SHORT_STRING: nat := 4
  const TYPE_LONG_STRING: nat := 5
  const TYPE_TABLE: nat := 6

  const NUMBER_ZERO: nat := 0
  const NUMBER_BYTE: nat := 1
  const NUMBER_WORD: nat := 2
  const NUMBER_DWORD: nat := 4
  const NUMBER_QWORD: nat := 6
  const NUMBER_REAL: nat := 8

  /**
   * A value. A table is given as it is traversed: what it holds at 1, 2, ... up to its raw length, and its other
   * entries in the order of `next`.
   */
  datatype Value =
    | Nil
    | Boolean(b: bool)
    | Integer(n: int)
    | Real(word: seq<Byte>)
    | Pointer(word: seq<Byte>)
    | Str(s: seq<Byte>)
    | Table(arr: seq<Value>, hash: seq<Entry>)

  datatype Entry = Entry(key: Value, value: Value)

  /** 64-bit integers and words, strings and arrays shorter than 2^31, and no entry of a table nil. */
  predicate Proper(v: Value)
  {
    match v
    case Integer(n) => -0x8000_0000_0000_0000 <= n < 0x8000_0000_0000_0000
    case Real(word) => |word| == 8
    case Pointer(word) => |word| == 8
    case Str(s) => |s| < 0x8000_0000
    case Table(arr, hash) =>
      && |arr| < 0x8000_0000 && (forall i | 0 <= i < |arr| :: Proper(arr[i]))
      && forall i | 0 <= i < |hash| :: !hash[i].key.Nil? && Proper(hash[i].key) && Proper(hash[i].value)
    case _ => true
  }

  /** Not nested too deeply to be packed at some depth. */
  predicate Fits(v: Value, depth: nat)
  {
    && depth <= MAX_DEPTH
    && (v.Table? ==>
          && (forall i | 0 <= i < |v.arr| :: Fits(v.arr[i], depth + 1))
          && (forall i | 0 <= i < |v.hash| :: Fits(v.hash[i].key, depth + 1) && Fits(v.hash[i].value, depth + 1)))
  }

  /** Something lies `n` tables deep in `v`. */
  predicate Deep(v: Value, n: nat)
    decreases v
  {
    n == 0
    || (v.Table?
        && ((exists i | 0 <= i < |v.arr| :: Deep(v.arr[i], n - 1))
            || exists i | 0 <= i < |v.hash| :: Deep(v.hash[i].key, n - 1) || Deep(v.hash[i].value, n - 1)))
  }

  /** A value can be packed when nothing lies more than 32 tables deep in it. */
  lemma {:induction false} FitsExact(v: Value, depth: nat)
    requires depth <= 33
    ensures Fits(v, depth) <==> !Deep(v, 33 - depth)
    decreases v
  {
    if v.Table? && depth < 33 {
      forall i | 0 <= i < |v.arr| ensures Fits(v.arr[i], depth + 1) <==> !Deep(v.arr[i], 32 - depth) {
        FitsExact(v.arr[i], depth + 1);
      }
      forall i | 0 <= i < |v.hash|
        ensures Fits(v.hash[i].key, depth + 1) <==> !Deep(v.hash[i].key, 32 - depth)
        ensures Fits(v.hash[i].value, depth + 1) <==> !Deep(v.hash[i].value, 32 - depth)
      {
        FitsExact(v.hash[i].key, depth + 1);
        FitsExact(v.hash[i].value, depth + 1);
      }
    }
  }

  // ---------- Words ----------

  /** The low `k` bytes of a number, the lowest first. */
  function LE(x: nat, k: nat): (r: seq<Byte>)
    ensures |r| == k
  {
    if k == 0 then [] else [x % 256] + LE(x / 256, k - 1)
  }

  function FromLE(s: seq<Byte>): nat
  {
    if s == [] then 0 else s[0] as int + 256 * FromLE(s[1..])
  }

  function Power256(k: nat): (r: nat)
    ensures r > 0
  {
    if k == 0 then 1 else 256 * Power256(k - 1)
  }

  lemma {:induction false} WordTrip(x: nat, k: nat)
    requires x < Power256(k)
    ensures FromLE(LE(x, k)) == x
  {
    if k > 0 {
      WordTrip(x / 256, k - 1);
      assert LE(x, k)[1..] == LE(x / 256, k - 1);
    }
  }

  lemma Powers()
    ensures Power256(1) == 0x100 && Power256(2) == 0x1_0000 && Power256(4) == 0x1_0000_0000
    ensures Power256(8) == 0x1_0000_0000_0000_0000
  {
    assert Power256(3) == 0x100_0000;
    assert Power256(5) == 0x100_0000_0000;
    assert Power256(6) == 0x1_0000_0000_0000;
    assert Power256(7) == 0x100_0000_0000_0000;
  }

  /** A signed word as an unsigned one, and back. */
  function Unsigned(n: int, bits32: bool): nat
    requires if bits32 then -0x8000_0000 <= n < 0x1_0000_0000
             else -0x8000_0000_0000_0000 <= n < 0x8000_0000_0000_0000
  {
    if n >= 0 then n else if bits32 then n + 0x1_0000_0000 else n + 0x1_0000_0000_0000_0000
  }

  function Signed(x: int, bits32: bool): int
  {
    if bits32 then (if x < 0x8000_0000 then x else x - 0x1_0000_0000)
    else (if x < 0x8000_0000_0000_0000 then x else x - 0x1_0000_0000_0000_0000)
  }

  // ---------- Packing ----------

  /** COMBINE_TYPE. */
  function Head(kind: nat, cookie: nat): (r: Byte)
    requires kind < 8 && cookie < 32
    ensures r % 8 == kind && r / 8 == cookie
  {
    kind + cookie * 8
  }

  /** wb_integer. */
  function PackInteger(n: int): (r: seq<Byte>)
    requires -0x8000_0000_0000_0000 <= n < 0x8000_0000_0000_0000
    ensures |r| > 0
  {
    if n == 0 then [Head(TYPE_NUMBER, NUMBER_ZERO)]
    else if n < -0x8000_0000 || n >= 0x8000_0000 then [Head(TYPE_NUMBER, NUMBER_QWORD)] + LE(Unsigned(n, false), 8)
    else if n < 0 then [Head(TYPE_NUMBER, NUMBER_DWORD)] + LE(Unsigned(n, true), 4)
    else if n < 0x100 then [Head(TYPE_NUMBER, NUMBER_BYTE)] + LE(n, 1)
    else if n < 0x1_0000 then [Head(TYPE_NUMBER, NUMBER_WORD)] + LE(n, 2)
    else [Head(TYPE_NUMBER, NUMBER_DWORD)] + LE(n, 4)
  }

  /** wb_string. */
  function PackString(s: seq<Byte>): (r: seq<Byte>)
    requires |s| < 0x8000_0000
    ensures |r| > 0
  {
    if |s| < MAX_COOKIE then [Head(TYPE_SHORT_STRING, |s|)] + s
    else if |s| < 0x1_0000 then [Head(TYPE_LONG_STRING, 2)] + LE(|s|, 2) + s
    else [Head(TYPE_LONG_STRING, 4)] + LE(|s|, 4) + s
  }

  /** The head of a table, with the size of its array. */
  function PackSize(n: nat): (r: seq<Byte>)
    requires n < 0x8000_0000
    ensures |r| > 0
  {
    if n >= MAX_COOKIE - 1 then [Head(TYPE_TABLE, MAX_COOKIE - 1)] + PackInteger(n) else [Head(TYPE_TABLE, n)]
  }

  /** pack_one. */
  function Pack(v: Value): (r: seq<Byte>)
    requires Proper(v)
    ensures |r| > 0
    decreases v, 0
  {
    match v
    case Nil => [Head(TYPE_NIL, 0)]
    case Boolean(b) => [Head(TYPE_BOOLEAN, if b then 1 else 0)]
    case Integer(n) => PackInteger(n)
    case Real(word) => [Head(TYPE_NUMBER, NUMBER_REAL)] + word
    case Pointer(word) => [Head(TYPE_USERDATA, 0)] + word
    case Str(s) => PackString(s)
    case Table(arr, hash) => PackSize(|arr|) + PackAll(arr) + PackEntries(hash) + [Head(TYPE_NIL, 0)]
  }

  function PackAll(vs: seq<Value>): (r: seq<Byte>)
    requires forall i | 0 <= i < |vs| :: Proper(vs[i])
    decreases vs, 1
  {
    if vs == [] then [] else Pack(vs[0]) + PackAll(vs[1..])
  }

  function PackEntries(hash: seq<Entry>): (r: seq<Byte>)
    requires forall i | 0 <= i < |hash| :: Proper(hash[i].key) && Proper(hash[i].value)
    decreases hash, 1
  {
    if hash == [] then [] else PackEntry(hash[0]) + PackEntries(hash[1..])
  }

  function PackEntry(e: Entry): (r: seq<Byte>)
    requires Proper(e.key) && Proper(e.value)
    decreases e, 0
  {
    Pack(e.key) + Pack(e.value)
  }

  /** The bytes of a word of `k` bytes. */
  lemma {:induction false} LEAt(x: nat, k: nat, i: nat)
    requires i < k
    ensures LE(x, k)[i] == x / Power256(i) % 256
  {
    if i > 0 {
      LEAt(x / 256, k - 1, i - 1);
      Nested(x, 256, Power256(i - 1));
    }
  }

  lemma Nested(x: nat, a: nat, b: nat)
    requires a > 0 && b > 0
    ensures a * b > 0 && x / a / b == x / (a * b)
  {
    var y, r0 := x / a, x % a;
    var q, r := y / b, y % b;
    MulOrder(1, a, b);
    Commute(a, y);
    Commute(b, q);
    assert x == y * a + r0 && y == q * b + r;
    Distribute(q * b, r, a);
    Associate(q, b, a);
    Commute(b, a);
    MulOrder(r + 1, b, a);
    Distribute(r, 1, a);
    MulOrder(0, r, a);
    Division(x, a * b, q, r * a + r0);
  }

  lemma HeadIs(kind: nat, cookie: nat)
    requires kind < 8 && cookie < 32
    ensures Head(kind, cookie) == kind + 8 * cookie
  {
  }

  /** The format: the low three bits of the first byte give the type, the others a cookie. */
  lemma IntegerFormat(n: int)
    requires -0x8000_0000_0000_0000 <= n < 0x8000_0000_0000_0000
    ensures PackInteger(n) == if n == 0 then [2]
                              else if 0 < n < 0x100 then [10] + LE(n, 1)
                              else if 0 < n < 0x1_0000 then [18] + LE(n, 2)
                              else if 0 < n < 0x8000_0000 then [34] + LE(n, 4)
                              else if -0x8000_0000 <= n < 0 then [34] + LE(n + 0x1_0000_0000, 4)
                              else [50] + LE(if n > 0 then n else n + 0x1_0000_0000_0000_0000, 8)
  {
    hide LE, Head;
    HeadIs(TYPE_NUMBER, NUMBER_ZERO);
    HeadIs(TYPE_NUMBER, NUMBER_BYTE);
    HeadIs(TYPE_NUMBER, NUMBER_WORD);
    HeadIs(TYPE_NUMBER, NUMBER_DWORD);
    HeadIs(TYPE_NUMBER, NUMBER_QWORD);
  }

  lemma StringFormat(s: seq<Byte>)
    requires |s| < 0x8000_0000
    ensures PackString(s) == if |s| < 32 then [4 + 8 * |s|] + s
                             else if |s| < 0x1_0000 then [21] + LE(|s|, 2) + s
                             else [37] + LE(|s|, 4) + s
  {
    hide LE, Head;
    if |s| < 32 { HeadIs(TYPE_SHORT_STRING, |s|); }
    HeadIs(TYPE_LONG_STRING, 2);
    HeadIs(TYPE_LONG_STRING, 4);
  }

  lemma SizeFormat(n: nat)
    requires n < 0x8000_0000
    ensures PackSize(n) == if n < 31 then [6 + 8 * n] else [254] + PackInteger(n)
  {
    hide PackInteger, Head;
    HeadIs(TYPE_TABLE, if n < 31 then n else 31);
  }

  lemma ValueFormat(v: Value)
    requires Proper(v)
    ensures v.Nil? ==> Pack(v) == [0]
    ensures v.Boolean? ==> Pack(v) == [if v.b then 9 else 1]
    ensures v.Real? ==> Pack(v) == [66] + v.word
    ensures v.Pointer? ==> Pack(v) == [3] + v.word
  {
    hide Head, PackInteger, PackString, PackSize, PackAll, PackEntries;
    HeadIs(TYPE_NIL, 0);
    HeadIs(TYPE_BOOLEAN, 0);
    HeadIs(TYPE_BOOLEAN, 1);
    HeadIs(TYPE_NUMBER, NUMBER_REAL);
    HeadIs(TYPE_USERDATA, 0);
  }

  lemma TableFormat(arr: seq<Value>, hash: seq<Entry>)
    requires |arr| < 0x8000_0000 && forall i | 0 <= i < |arr| :: Proper(arr[i])
    requires forall i | 0 <= i < |hash| :: !hash[i].key.Nil? && Proper(hash[i].key) && Proper(hash[i].value)
    ensures Proper(Table(arr, hash))
    ensures Pack(Table(arr, hash)) == PackSize(|arr|) + PackAll(arr) + PackEntries(hash) + [0]
  {
    hide Head, PackSize, PackAll, PackEntries;
    HeadIs(TYPE_NIL, 0);
  }

  // ---------- Unpacking ----------

  /** What was read and what is left, or an invalid stream. */
  datatype Read<T> = Invalid | Got(value: T, rest: seq<Byte>)

  function Take(b: seq<Byte>, n: nat): (r: Read<seq<Byte>>)
    ensures r.Got? ==> b == r.value + r.rest && |r.value| == n
  {
    if |b| < n then Invalid else Got(b[..n], b[n..])
  }

  /** get_integer. */
  function GetInteger(b: seq<Byte>, cookie: nat): (r: Read<int>)
    ensures r.Got? ==> |r.rest| <= |b|
  {
    if cookie == NUMBER_ZERO then Got(0, b)
    else if cookie == NUMBER_BYTE then GetWord(b, 1, x => x)
    else if cookie == NUMBER_WORD then GetWord(b, 2, x => x)
    else if cookie == NUMBER_DWORD then GetWord(b, 4, x => Signed(x, true))
    else if cookie == NUMBER_QWORD then GetWord(b, 8, x => Signed(x, false))
    else Invalid
  }

  function GetWord(b: seq<Byte>, n: nat, f: int -> int): (r: Read<int>)
    ensures r.Got? ==> |r.rest| <= |b|
  {
    var w := Take(b, n);
    if w.Invalid? then Invalid else Got(f(FromLE(w.value)), w.rest)
  }

  /**
   * A length and as many bytes. The length becomes an int, so one of 2^31 or more is negative: it passes rb_read, and
   * then Lua refuses to make a string of that size.
   */
  function GetLong(b: seq<Byte>, cookie: nat): (r: Read<seq<Byte>>)
    ensures r.Got? ==> |r.rest| <= |b|
  {
    if cookie != 2 && cookie != 4 then Invalid
    else
      var n := GetWord(b, cookie, x => Signed(x, true));
      if n.Invalid? || n.value < 0 then Invalid else Take(n.rest, n.value)
  }

  /** unpack_one. */
  function Unpack(b: seq<Byte>): (r: Read<Value>)
    ensures r.Got? ==> |r.rest| < |b|
    decreases |b|, 0
  {
    if b == [] then Invalid else PushValue(b[0] % 8, b[0] / 8, b[1..])
  }

  function PushValue(kind: nat, cookie: nat, b: seq<Byte>): (r: Read<Value>)
    requires cookie < 32
    ensures r.Got? ==> |r.rest| <= |b|
    decreases |b|, 4
  {
    if kind == TYPE_NIL then Got(Nil, b)
    else if kind == TYPE_BOOLEAN then Got(Boolean(cookie != 0), b)
    else if kind == TYPE_NUMBER then
      if cookie == NUMBER_REAL then Then(Take(b, 8), w => Real(w))
      else
        var n := GetInteger(b, cookie);
        if n.Invalid? then Invalid else Got(Integer(n.value), n.rest)
    else if kind == TYPE_USERDATA then Then(Take(b, 8), w => Pointer(w))
    else if kind == TYPE_SHORT_STRING then Then(Take(b, cookie), w => Str(w))
    else if kind == TYPE_LONG_STRING then Then(GetLong(b, cookie), w => Str(w))
    else if kind == TYPE_TABLE then UnpackTable(b, cookie)
    else Invalid
  }

  function Then(r: Read<seq<Byte>>, f: seq<Byte> -> Value): Read<Value>
  {
    if r.Invalid? then Invalid else Got(f(r.value), r.rest)
  }

  /** The size of an array, which is read when the cookie has no room for it. */
  function GetSize(b: seq<Byte>, cookie: nat): (r: Read<int>)
    ensures r.Got? ==> |r.rest| <= |b|
  {
    if cookie != MAX_COOKIE - 1 then Got(cookie, b)
    else if b == [] || b[0] % 8 != TYPE_NUMBER || b[0] / 8 == NUMBER_REAL then Invalid
    else
      var n := GetInteger(b[1..], b[0] / 8);
      if n.Invalid? then Invalid else Got(Signed(n.value % 0x1_0000_0000, true), n.rest)
  }

  function UnpackTable(b: seq<Byte>, cookie: nat): (r: Read<Value>)
    ensures r.Got? ==> |r.rest| <= |b|
    decreases |b|, 3
  {
    var n := GetSize(b, cookie);
    if n.Invalid? then Invalid
    else
      var arr := UnpackArray(n.rest, n.value);
      if arr.Invalid? then Invalid
      else
        var hash := UnpackEntries(arr.rest);
        if hash.Invalid? then Invalid else Got(Table(arr.value, hash.value), hash.rest)
  }

  function UnpackArray(b: seq<Byte>, n: int): (r: Read<seq<Value>>)
    ensures r.Got? ==> |r.rest| <= |b|
    decreases |b|, 2
  {
    if n <= 0 then Got([], b)
    else
      var v := Unpack(b);
      if v.Invalid? then Invalid
      else
        var more := UnpackArray(v.rest, n - 1);
        if more.Invalid? then Invalid else Got([v.value] + more.value, more.rest)
  }

  function UnpackEntries(b: seq<Byte>): (r: Read<seq<Entry>>)
    ensures r.Got? ==> |r.rest| <= |b|
    decreases |b|, 2
  {
    var k := Unpack(b);
    if k.Invalid? then Invalid
    else if k.value.Nil? then Got([], k.rest)
    else
      var v := Unpack(k.rest);
      if v.Invalid? then Invalid
      else
        var more := UnpackEntries(v.rest);
        if more.Invalid? then Invalid else Got([Entry(k.value, v.value)] + more.value, more.rest)
  }

  /** luaseri_unpack. */
  function UnpackList(b: seq<Byte>): (r: Read<seq<Value>>)
    decreases |b|
  {
    if b == [] then Got([], [])
    else
      var v := Unpack(b);
      if v.Invalid? then Invalid
      else
        var more := UnpackList(v.rest);
        if more.Invalid? then Invalid else Got([v.value] + more.value, more.rest)
  }

  // ---------- The round trip ----------

  lemma TakeBack(w: seq<Byte>, rest: seq<Byte>)
    ensures Take(w + rest, |w|) == Got(w, rest)
  {
  }

  lemma WordBack(x: nat, k: nat, f: int -> int, rest: seq<Byte>)
    requires x < Power256(k)
    ensures GetWord(LE(x, k) + rest, k, f) == Got(f(x), rest)
  {
    TakeBack(LE(x, k), rest);
    WordTrip(x, k);
  }

  lemma NumberBack(cookie: nat, word: seq<Byte>, rest: seq<Byte>)
    requires cookie < 32
    ensures var b := [Head(TYPE_NUMBER, cookie)] + word + rest;
            b[0] % 8 == TYPE_NUMBER && b[0] / 8 == cookie && b[1..] == word + rest
  {
    hide Head;
    assert ([Head(TYPE_NUMBER, cookie)] + word + rest)[1..] == word + rest;
  }

  lemma IntegerBack(n: int, rest: seq<Byte>)
    requires -0x8000_0000_0000_0000 <= n < 0x8000_0000_0000_0000
    ensures var b := PackInteger(n) + rest;
            b[0] % 8 == TYPE_NUMBER && b[0] / 8 != NUMBER_REAL && GetInteger(b[1..], b[0] / 8) == Got(n, rest)
  {
    hide LE, GetWord, Head, Power256;
    Powers();
    if n == 0 {
      NumberBack(NUMBER_ZERO, [], rest);
      assert [Head(TYPE_NUMBER, NUMBER_ZERO)] + [] == [Head(TYPE_NUMBER, NUMBER_ZERO)];
      assert [] + rest == rest;
    } else if n < -0x8000_0000 || n >= 0x8000_0000 {
      NumberBack(NUMBER_QWORD, LE(Unsigned(n, false), 8), rest);
      WordBack(Unsigned(n, false), 8, x => Signed(x, false), rest);
    } else if n < 0 {
      NumberBack(NUMBER_DWORD, LE(Unsigned(n, true), 4), rest);
      WordBack(Unsigned(n, true), 4, x => Signed(x, true), rest);
    } else if n < 0x100 {
      NumberBack(NUMBER_BYTE, LE(n, 1), rest);
      WordBack(n, 1, x => x, rest);
    } else if n < 0x1_0000 {
      NumberBack(NUMBER_WORD, LE(n, 2), rest);
      WordBack(n, 2, x => x, rest);
    } else {
      NumberBack(NUMBER_DWORD, LE(n, 4), rest);
      WordBack(n, 4, x => Signed(x, true), rest);
    }
  }

  /** A length of `k` bytes and the bytes. */
  lemma LongBack(s: seq<Byte>, k: nat, rest: seq<Byte>)
    requires (k == 2 || k == 4) && |s| < Power256(k) && |s| < 0x8000_0000
    ensures GetLong(LE(|s|, k) + (s + rest), k) == Got(s, rest)
  {
    hide LE, GetWord, Power256, Take;
    WordBack(|s|, k, x => Signed(x, true), s + rest);
    TakeBack(s, rest);
  }

  lemma StringRead(kind: nat, cookie: nat, b: seq<Byte>, r: Read<seq<Byte>>)
    requires cookie < 32
    requires || (kind == TYPE_SHORT_STRING && r == Take(b, cookie))
             || (kind == TYPE_LONG_STRING && r == GetLong(b, cookie))
    ensures Unpack([Head(kind, cookie)] + b) == Then(r, w => Str(w))
  {
    hide Take, GetLong;
    var whole := [Head(kind, cookie)] + b;
    assert whole[1..] == b;
    assert PushValue(kind, cookie, b) == Then(r, w => Str(w));
  }

  lemma ShortBack(s: seq<Byte>, rest: seq<Byte>)
    requires |s| < MAX_COOKIE
    ensures Unpack(PackString(s) + rest) == Got(Str(s), rest)
  {
    hide Unpack, Head, LE, Take;
    TakeBack(s, rest);
    StringRead(TYPE_SHORT_STRING, |s|, s + rest, Got(s, rest));
    assert PackString(s) + rest == [Head(TYPE_SHORT_STRING, |s|)] + (s + rest);
  }

  lemma LongTrip(s: seq<Byte>, k: nat, rest: seq<Byte>)
    requires (k == 2 || k == 4) && |s| < Power256(k) && |s| < 0x8000_0000
    ensures Unpack([Head(TYPE_LONG_STRING, k)] + LE(|s|, k) + s + rest) == Got(Str(s), rest)
  {
    hide Unpack, Head, GetLong, LE, Take, Power256;
    LongBack(s, k, rest);
    StringRead(TYPE_LONG_STRING, k, LE(|s|, k) + (s + rest), Got(s, rest));
    assert [Head(TYPE_LONG_STRING, k)] + LE(|s|, k) + s + rest ==
           [Head(TYPE_LONG_STRING, k)] + (LE(|s|, k) + (s + rest));
  }

  lemma StringBack(s: seq<Byte>, rest: seq<Byte>)
    requires |s| < 0x8000_0000
    ensures Unpack(PackString(s) + rest) == Got(Str(s), rest)
  {
    hide Unpack, Head, LE, Power256;
    Powers();
    if |s| < MAX_COOKIE { ShortBack(s, rest); }
    else if |s| < 0x1_0000 { LongTrip(s, 2, rest); }
    else { LongTrip(s, 4, rest); }
  }

  lemma SizeBack(n: nat, rest: seq<Byte>)
    requires n < 0x8000_0000
    ensures var b := PackSize(n) + rest; b[0] % 8 == TYPE_TABLE && GetSize(b[1..], b[0] / 8) == Got(n, rest)
  {
    hide PackInteger, GetInteger, Head;
    var b := PackSize(n) + rest;
    if n >= MAX_COOKIE - 1 {
      IntegerBack(n, rest);
      assert b[1..] == PackInteger(n) + rest;
    } else {
      assert b[1..] == rest;
    }
  }

  /** Unpacking what a value was packed into returns the value, whatever comes after it. */
  lemma {:induction false} RoundTrip(v: Value, rest: seq<Byte>)
    requires Proper(v)
    ensures Unpack(Pack(v) + rest) == Got(v, rest)
    decreases v, 0
  {
    var b := Pack(v) + rest;
    match v
    case Nil => assert b[1..] == rest;
    case Boolean(_) => assert b[1..] == rest;
    case Integer(n) => IntegerBack(n, rest);
    case Real(word) =>
      TakeBack(word, rest);
      assert b[1..] == word + rest;
    case Pointer(word) =>
      TakeBack(word, rest);
      assert b[1..] == word + rest;
    case Str(s) => StringBack(s, rest);
    case Table(arr, hash) => TableTrip(arr, hash, rest);
  }

  lemma {:induction false} TableTrip(arr: seq<Value>, hash: seq<Entry>, rest: seq<Byte>)
    requires Proper(Table(arr, hash))
    ensures Unpack(Pack(Table(arr, hash)) + rest) == Got(Table(arr, hash), rest)
    decreases Table(arr, hash), -1
  {
    hide PackAll, PackEntries, PackSize, GetSize, UnpackArray, UnpackEntries, Head;
    var tail := [NilByte()] + rest;
    var after := PackEntries(hash) + tail;
    ArrayTrip(arr, after);
    EntriesTrip(hash, rest);
    SizeBack(|arr|, PackAll(arr) + after);
    assert PackEntries(hash) + [Head(TYPE_NIL, 0)] + rest == after;
    assert Pack(Table(arr, hash)) + rest == PackSize(|arr|) + (PackAll(arr) + after);
    TableRead(PackSize(|arr|) + (PackAll(arr) + after), |arr|, PackAll(arr) + after, after);
  }

  /** Reading a table, once its head and parts are known. */
  lemma TableRead(b: seq<Byte>, n: nat, arr: seq<Byte>, hash: seq<Byte>)
    requires |b| > 0 && b[0] % 8 == TYPE_TABLE && GetSize(b[1..], b[0] / 8) == Got(n, arr)
    requires UnpackArray(arr, n).Got? && UnpackArray(arr, n).rest == hash && UnpackEntries(hash).Got?
    ensures Unpack(b) == Got(Table(UnpackArray(arr, n).value, UnpackEntries(hash).value), UnpackEntries(hash).rest)
  {
    hide GetSize, UnpackArray, UnpackEntries;
    assert UnpackTable(b[1..], b[0] / 8)
        == Got(Table(UnpackArray(arr, n).value, UnpackEntries(hash).value), UnpackEntries(hash).rest);
    assert PushValue(b[0] % 8, b[0] / 8, b[1..]) == UnpackTable(b[1..], b[0] / 8);
  }

  lemma {:induction false} ArrayTrip(vs: seq<Value>, rest: seq<Byte>)
    requires forall i | 0 <= i < |vs| :: Proper(vs[i])
    ensures UnpackArray(PackAll(vs) + rest, |vs|) == Got(vs, rest)
    decreases vs, 1
  {
    hide *;
    if vs == [] {
      AllEnd(rest);
    } else {
      var more := PackAll(vs[1..]) + rest;
      RoundTrip(vs[0], more);
      ArrayTrip(vs[1..], rest);
      AllStart(vs, rest);
      ArrayRead(Pack(vs[0]) + more, |vs|, vs[0], more);
      assert [vs[0]] + vs[1..] == vs;
    }
  }

  lemma AllEnd(rest: seq<Byte>)
    ensures UnpackArray(PackAll([]) + rest, 0) == Got([], rest)
  {
    assert PackAll([]) + rest == rest;
  }

  lemma AllStart(vs: seq<Value>, rest: seq<Byte>)
    requires vs != [] && forall i | 0 <= i < |vs| :: Proper(vs[i])
    ensures PackAll(vs) + rest == Pack(vs[0]) + (PackAll(vs[1..]) + rest)
  {
    hide Pack, Proper;
  }

  lemma ArrayRead(b: seq<Byte>, n: nat, v: Value, more: seq<Byte>)
    requires n > 0 && Unpack(b) == Got(v, more) && UnpackArray(more, n - 1).Got?
    ensures UnpackArray(b, n) == Got([v] + UnpackArray(more, n - 1).value, UnpackArray(more, n - 1).rest)
  {
    hide Unpack;
  }

  /** What ends a table. */
  function NilByte(): Byte
  {
    Head(TYPE_NIL, 0)
  }

  lemma {:induction false} EntriesTrip(hash: seq<Entry>, rest: seq<Byte>)
    requires forall i | 0 <= i < |hash| :: !hash[i].key.Nil? && Proper(hash[i].key) && Proper(hash[i].value)
    ensures UnpackEntries(PackEntries(hash) + ([NilByte()] + rest)) == Got(hash, rest)
    decreases hash, 1
  {
    hide *;
    var end := [NilByte()] + rest;
    if hash == [] {
      EntriesEnd(rest);
    } else {
      var e, more := hash[0], PackEntries(hash[1..]) + end;
      EntryTrip(e, more);
      EntriesTrip(hash[1..], rest);
      EntriesStart(hash, end);
      EntryRead(Pack(e.key) + (Pack(e.value) + more), e, Pack(e.value) + more, more);
      assert [e] + hash[1..] == hash;
    }
  }

  lemma EntriesStart(hash: seq<Entry>, end: seq<Byte>)
    requires hash != [] && forall i | 0 <= i < |hash| :: Proper(hash[i].key) && Proper(hash[i].value)
    ensures PackEntries(hash) + end == Pack(hash[0].key) + (Pack(hash[0].value) + (PackEntries(hash[1..]) + end))
  {
    hide Pack, Proper;
  }

  lemma EntriesEnd(rest: seq<Byte>)
    ensures UnpackEntries(PackEntries([]) + ([NilByte()] + rest)) == Got([], rest)
  {
    hide Unpack, NilByte;
    NilBack(rest);
    assert PackEntries([]) + ([NilByte()] + rest) == [NilByte()] + rest;
  }

  lemma EntryRead(b: seq<Byte>, e: Entry, second: seq<Byte>, more: seq<Byte>)
    requires Unpack(b) == Got(e.key, second) && !e.key.Nil? && Unpack(second) == Got(e.value, more)
    requires UnpackEntries(more).Got?
    ensures UnpackEntries(b) == Got([e] + UnpackEntries(more).value, UnpackEntries(more).rest)
  {
    hide Unpack;
  }

  lemma {:induction false} EntryTrip(e: Entry, rest: seq<Byte>)
    requires Proper(e.key) && Proper(e.value)
    ensures Unpack(Pack(e.key) + (Pack(e.value) + rest)) == Got(e.key, Pack(e.value) + rest)
    ensures Unpack(Pack(e.value) + rest) == Got(e.value, rest)
    decreases e, 0
  {
    RoundTrip(e.key, Pack(e.value) + rest);
    RoundTrip(e.value, rest);
  }

  lemma NilBack(rest: seq<Byte>)
    ensures Unpack([NilByte()] + rest) == Got(Nil, rest)
  {
    assert ([NilByte()] + rest)[1..] == rest;
  }

  /** Unpacking a packed list of values returns the list. */
  lemma {:induction false} ListTrip(vs: seq<Value>)
    requires forall i | 0 <= i < |vs| :: Proper(vs[i])
    ensures UnpackList(PackAll(vs)) == Got(vs, [])
  {
    if vs != [] {
      hide Pack, Proper, Unpack;
      RoundTrip(vs[0], PackAll(vs[1..]));
      ListTrip(vs[1..]);
      assert [vs[0]] + vs[1..] == vs;
    }
  }

  // ---------- Tables as maps ----------

  /** What assigning the entries one after the other makes of a table; an entry of nil is none. */
  function Assigned(m: map<Value, Value>, k: Value, v: Value): map<Value, Value>
  {
    if v.Nil? then m - {k} else m[k := v]
  }

  function FromArray(arr: seq<Value>): map<Value, Value>
  {
    if arr == [] then map[]
    else Assigned(FromArray(arr[..|arr| - 1]), Integer(|arr|), arr[|arr| - 1])
  }

  function FromEntries(m: map<Value, Value>, hash: seq<Entry>): map<Value, Value>
  {
    if hash == [] then m
    else Assigned(FromEntries(m, hash[..|hash| - 1]), hash[|hash| - 1].key, hash[|hash| - 1].value)
  }

  /** The table that a traversal builds. */
  function Entries(v: Value): map<Value, Value>
    requires v.Table?
  {
    FromEntries(FromArray(v.arr), v.hash)
  }

  /** A key that is packed with the array. */
  predicate InArray(k: Value, n: nat)
  {
    k.Integer? && 0 < k.n <= n
  }

  /** The traversal of table `m` with array part 1..`n` that meets the other keys in some order. */
  function Traversal(m: map<Value, Value>, n: nat, order: seq<Value>): Value
    requires forall i | 0 <= i < |order| :: order[i] in m
  {
    Table(seq(n, i requires 0 <= i < n => if Integer(i + 1) in m then m[Integer(i + 1)] else Nil),
          seq(|order|, i requires 0 <= i < |order| => Entry(order[i], m[order[i]])))
  }

  lemma {:induction false} ArrayPart(m: map<Value, Value>, n: nat, arr: seq<Value>)
    requires forall k | k in m :: !m[k].Nil?
    requires |arr| <= n
    requires forall i | 0 <= i < |arr| :: arr[i] == if Integer(i + 1) in m then m[Integer(i + 1)] else Nil
    ensures FromArray(arr) == map k | k in m && InArray(k, |arr|) :: m[k]
  {
    if arr != [] {
      var c := |arr| - 1;
      ArrayPart(m, n, arr[..c]);
      assert forall k :: InArray(k, |arr|) <==> InArray(k, c) || k == Integer(|arr|);
    }
  }

  /** Entries of `m` put into a part of `m` give a larger part of it. */
  lemma {:induction false} EntriesPart(m: map<Value, Value>, base: map<Value, Value>, hash: seq<Entry>)
    requires forall k | k in m :: !m[k].Nil?
    requires forall k | k in base :: k in m && base[k] == m[k]
    requires forall i | 0 <= i < |hash| :: hash[i].key in m && hash[i].value == m[hash[i].key]
    ensures var r := FromEntries(base, hash);
            && (forall k | k in r :: k in m && r[k] == m[k]) && (forall k | k in base :: k in r)
            && forall i | 0 <= i < |hash| :: hash[i].key in r
  {
    if hash != [] { EntriesPart(m, base, hash[..|hash| - 1]); }
  }

  /**
   * Whatever raw length a table reports and in whatever order it is traversed, its traversal builds the same table; so
   * does, by the round trip, what is unpacked.
   */
  lemma AnyOrder(m: map<Value, Value>, n: nat, order: seq<Value>)
    requires forall k | k in m :: !m[k].Nil?
    requires forall i | 0 <= i < |order| :: order[i] in m
    requires forall k | k in m && !InArray(k, n) :: k in order
    ensures Entries(Traversal(m, n, order)) == m
  {
    var t := Traversal(m, n, order);
    ArrayPart(m, n, t.arr);
    EntriesPart(m, FromArray(t.arr), t.hash);
    forall k | k in m ensures k in Entries(t) {
      if !InArray(k, n) {
        var i :| 0 <= i < |order| && order[i] == k;
        assert t.hash[i].key == k;
      }
    }
  }

  // ---------- The chain of blocks ----------

  class WriteBlock {
    var blocks: seq<array<Byte>>
    var ptr: nat
    var len: nat
    /** What was written. */
    ghost var written: seq<Byte>
    /** The blocks, as a set. */
    ghost var repr: set<array<Byte>>

    ghost predicate Valid()
      reads this, repr
    {
      && |blocks| > 0 && (forall i | 0 <= i < |blocks| :: blocks[i] in repr)
      && ptr <= BLOCK_SIZE && len == |written| == (|blocks| - 1) * BLOCK_SIZE + ptr
      && (forall i | 0 <= i < |blocks| :: blocks[i].Length == BLOCK_SIZE)
      && (forall i, j | 0 <= i < j < |blocks| :: blocks[i] != blocks[j])
      && (forall k | 0 <= k < |written| :: blocks[k / BLOCK_SIZE][k % BLOCK_SIZE] == written[k])
    }

    /** wb_init. */
    constructor ()
      ensures Valid() && written == [] && fresh(repr)
    {
      var b := new Byte[BLOCK_SIZE](_ => 0);
      blocks, ptr, len, written, repr := [b], 0, 0, [], {b};
    }

    /** blk_alloc: go on in a new block. */
    method NextBlock()
      requires Valid() && ptr == BLOCK_SIZE
      modifies this
      ensures Valid() && ptr == 0 && written == old(written) && fresh(repr - old(repr))
    {
      var b := new Byte[BLOCK_SIZE](_ => 0);
      blocks, ptr, repr := blocks + [b], 0, repr + {b};
    }

    /** Copy into the current block. */
    method Copy(data: seq<Byte>)
      requires Valid() && |data| <= BLOCK_SIZE - ptr
      modifies `ptr, `len, `written, blocks[|blocks| - 1]
      ensures Valid() && ptr == old(ptr) + |data| && written == old(written) + data
    {
      var n := |blocks| - 1;
      var current := blocks[n];
      forall i | 0 <= i < |data| { current[ptr + i] := data[i]; }
      ptr, len, written := ptr + |data|, len + |data|, written + data;
      forall k | 0 <= k < |written| ensures blocks[k / BLOCK_SIZE][k % BLOCK_SIZE] == written[k] {
        if k >= n * BLOCK_SIZE { Division(k, BLOCK_SIZE, n, k - n * BLOCK_SIZE); }
      }
    }

    /** wb_push: what does not fit in the current block goes on in new ones. */
    method Push(data: seq<Byte>)
      requires Valid()
      modifies this, repr
      ensures Valid() && written == old(written) + data
      ensures fresh(repr - old(repr))
    {
      if ptr == BLOCK_SIZE { NextBlock(); }
      var rest := data;
      while |rest| > BLOCK_SIZE - ptr
        invariant Valid() && written + rest == old(written) + data
        invariant fresh(repr - old(repr)) && ptr < BLOCK_SIZE
        decreases |rest|
      {
        var n := BLOCK_SIZE - ptr;
        Append(rest[..n]);
        NextBlock();
        rest := rest[n..];
      }
      Append(rest);
    }

    method Append(data: seq<Byte>)
      requires Valid() && |data| <= BLOCK_SIZE - ptr
      modifies this, repr
      ensures Valid() && ptr == old(ptr) + |data| && written == old(written) + data && repr == old(repr)
    {
      Copy(data);
    }

    /** seri: the blocks one after the other in one buffer. */
    method Seri() returns (buffer: array<Byte>)
      requires Valid()
      ensures fresh(buffer) && buffer[..] == written
    {
      buffer := new Byte[len](_ => 0);
      var at, i := 0, 0;
      while at < len
        invariant at == if i * BLOCK_SIZE <= len then i * BLOCK_SIZE else len
        invariant buffer[..at] == written[..at]
      {
        var n := if len - at >= BLOCK_SIZE then BLOCK_SIZE else len - at;
        var b := blocks[i];
        forall k | 0 <= k < n { buffer[at + k] := b[k]; }
        forall k | at <= k < at + n ensures buffer[k] == written[k] { Division(k, BLOCK_SIZE, i, k - at); }
        at, i := at + n, i + 1;
      }
    }

    // ---------- Packing into it ----------

    /** wb_integer. */
    method PushInteger(n: int)
      requires Valid() && -0x8000_0000_0000_0000 <= n < 0x8000_0000_0000_0000
      modifies this, repr
      ensures Valid() && fresh(repr - old(repr))
      ensures written == old(written) + PackInteger(n)
    {
      hide Valid, LE, Head;
      if n == 0 {
        Push([Head(TYPE_NUMBER, NUMBER_ZERO)]);
      } else if n < -0x8000_0000 || n >= 0x8000_0000 {
        PushTwo([Head(TYPE_NUMBER, NUMBER_QWORD)], LE(Unsigned(n, false), 8));
      } else if n < 0 {
        PushTwo([Head(TYPE_NUMBER, NUMBER_DWORD)], LE(Unsigned(n, true), 4));
      } else if n < 0x100 {
        PushTwo([Head(TYPE_NUMBER, NUMBER_BYTE)], LE(n, 1));
      } else if n < 0x1_0000 {
        PushTwo([Head(TYPE_NUMBER, NUMBER_WORD)], LE(n, 2));
      } else {
        PushTwo([Head(TYPE_NUMBER, NUMBER_DWORD)], LE(n, 4));
      }
    }

    /** A head and what follows it. */
    method PushTwo(head: seq<Byte>, data: seq<Byte>)
      requires Valid()
      modifies this, repr
      ensures Valid() && fresh(repr - old(repr))
      ensures written == old(written) + (head + data)
    {
      hide Valid;
      Push(head);
      Push(data);
    }

    /** wb_string. */
    method PushString(s: seq<Byte>)
      requires Valid() && |s| < 0x8000_0000
      modifies this, repr
      ensures Valid() && fresh(repr - old(repr))
      ensures written == old(written) + PackString(s)
    {
      hide Valid, LE, Head;
      StringParts(s, written);
      if |s| < MAX_COOKIE {
        hide *;
        Push([Head(TYPE_SHORT_STRING, |s|)]);
        if |s| > 0 { Push(s); }
      } else if |s| < 0x1_0000 {
        hide *;
        PushTwo([Head(TYPE_LONG_STRING, 2)], LE(|s|, 2));
        Push(s);
      } else {
        hide *;
        PushTwo([Head(TYPE_LONG_STRING, 4)], LE(|s|, 4));
        Push(s);
      }
    }

    lemma StringParts(s: seq<Byte>, before: seq<Byte>)
      requires |s| < 0x8000_0000
      ensures before + PackString(s)
           == if |s| < MAX_COOKIE then (if |s| > 0 then before + [Head(TYPE_SHORT_STRING, |s|)] + s
                                        else before + [Head(TYPE_SHORT_STRING, |s|)])
              else if |s| < 0x1_0000 then before + ([Head(TYPE_LONG_STRING, 2)] + LE(|s|, 2)) + s
              else before + ([Head(TYPE_LONG_STRING, 4)] + LE(|s|, 4)) + s
    {
      hide Head, LE;
      if |s| < MAX_COOKIE {
        Regrouped(before, [Head(TYPE_SHORT_STRING, |s|)], s);
        if s == [] { assert [Head(TYPE_SHORT_STRING, |s|)] + s == [Head(TYPE_SHORT_STRING, |s|)]; }
      } else if |s| < 0x1_0000 {
        Regrouped(before, [Head(TYPE_LONG_STRING, 2)] + LE(|s|, 2), s);
      } else {
        Regrouped(before, [Head(TYPE_LONG_STRING, 4)] + LE(|s|, 4), s);
      }
    }

    method PushSize(n: nat)
      requires Valid() && n < 0x8000_0000
      modifies this, repr
      ensures Valid() && fresh(repr - old(repr))
      ensures written == old(written) + PackSize(n)
    {
      hide Valid, Head, PackInteger;
      if n >= MAX_COOKIE - 1 {
        Push([Head(TYPE_TABLE, MAX_COOKIE - 1)]);
        PushInteger(n);
      } else {
        Push([Head(TYPE_TABLE, n)]);
      }
    }

    /** pack_one: values that are nested too deeply are refused. */
    method PackOne(v: Value, depth: nat) returns (ok: bool)
      requires Valid() && Proper(v)
      modifies this, repr
      ensures Valid() && fresh(repr - old(repr))
      ensures ok <==> Fits(v, depth)
      ensures ok ==> written == old(written) + Pack(v)
      decreases v, 0
    {
      hide Valid, Head, PackSize, PackAll, PackEntries, PackInteger, PackString;
      if depth > MAX_DEPTH { return false; }
      ok := true;
      match v {
        case Table(arr, hash) => ok := PackTable(arr, hash, depth + 1);
        case Nil => Push([Head(TYPE_NIL, 0)]);
        case Boolean(b) => Push([Head(TYPE_BOOLEAN, if b then 1 else 0)]);
        case Integer(n) => PushInteger(n);
        case Real(word) => PushTwo([Head(TYPE_NUMBER, NUMBER_REAL)], word);
        case Pointer(word) => PushTwo([Head(TYPE_USERDATA, 0)], word);
        case Str(s) => PushString(s);
      }
    }

    /** wb_table. */
    method PackTable(arr: seq<Value>, hash: seq<Entry>, depth: nat) returns (ok: bool)
      requires Valid() && Proper(Table(arr, hash)) && 0 < depth <= MAX_DEPTH + 1
      modifies this, repr
      ensures Valid() && fresh(repr - old(repr))
      ensures ok <==> Fits(Table(arr, hash), depth - 1)
      ensures ok ==> written == old(written) + Pack(Table(arr, hash))
      decreases Table(arr, hash), -1
    {
      hide Valid, PackSize, PackAll, PackEntries;
      PushSize(|arr|);
      ok := PackArray(arr, depth);
      if ok {
        ok := PackHash(hash, depth);
        if ok { Push([Head(TYPE_NIL, 0)]); }
      }
    }

    /** wb_table_array, behind the size. */
    method PackArray(arr: seq<Value>, depth: nat) returns (ok: bool)
      requires Valid() && forall i | 0 <= i < |arr| :: Proper(arr[i])
      modifies this, repr
      ensures Valid() && fresh(repr - old(repr))
      ensures ok <==> forall i | 0 <= i < |arr| :: Fits(arr[i], depth)
      ensures ok ==> written == old(written) + PackAll(arr)
      decreases arr, 1
    {
      hide Valid, Pack, Fits, Proper;
      var i := 0;
      while i < |arr|
        invariant 0 <= i <= |arr| && Valid() && fresh(repr - old(repr))
        invariant forall k | 0 <= k < i :: Fits(arr[k], depth)
        invariant written + PackAll(arr[i..]) == old(written) + PackAll(arr)
      {
        PackAllStep(arr, i, written);
        ok := PackOne(arr[i], depth);
        if !ok { return; }
        i := i + 1;
      }
      ok := true;
    }

    /** wb_table_hash, up to the nil at the end. */
    method PackHash(hash: seq<Entry>, depth: nat) returns (ok: bool)
      requires Valid() && forall i | 0 <= i < |hash| :: Proper(hash[i].key) && Proper(hash[i].value)
      modifies this, repr
      ensures Valid() && fresh(repr - old(repr))
      ensures ok <==> forall i | 0 <= i < |hash| :: Fits(hash[i].key, depth) && Fits(hash[i].value, depth)
      ensures ok ==> written == old(written) + PackEntries(hash)
      decreases hash, 1
    {
      hide Valid, Fits, Proper, PackEntry;
      var i := 0;
      while i < |hash|
        invariant 0 <= i <= |hash| && Valid() && fresh(repr - old(repr))
        invariant forall k | 0 <= k < i :: Fits(hash[k].key, depth) && Fits(hash[k].value, depth)
        invariant written + PackEntries(hash[i..]) == old(written) + PackEntries(hash)
      {
        PackEntriesStep(hash, i, written);
        ok := PackPair(hash[i], depth);
        if !ok { return; }
        i := i + 1;
      }
      ok := true;
    }

    method PackPair(e: Entry, depth: nat) returns (ok: bool)
      requires Valid() && Proper(e.key) && Proper(e.value)
      modifies this, repr
      ensures Valid() && fresh(repr - old(repr))
      ensures ok <==> Fits(e.key, depth) && Fits(e.value, depth)
      ensures ok ==> written == old(written) + PackEntry(e)
      decreases e, 0
    {
      hide Valid, Fits, Proper, Pack;
      ok := PackOne(e.key, depth);
      if ok { ok := PackOne(e.value, depth); }
    }
  }

  lemma Regrouped(a: seq<Byte>, b: seq<Byte>, c: seq<Byte>)
    ensures a + (b + c) == a + b + c
  {
  }

  lemma PackAllStep(vs: seq<Value>, i: nat, before: seq<Byte>)
    requires i < |vs| && forall k | 0 <= k < |vs| :: Proper(vs[k])
    ensures before + PackAll(vs[i..]) == before + Pack(vs[i]) + PackAll(vs[i + 1..])
  {
    hide Pack, Proper;
    assert vs[i..][1..] == vs[i + 1..];
  }

  lemma PackEntriesStep(hash: seq<Entry>, i: nat, before: seq<Byte>)
    requires i < |hash| && forall k | 0 <= k < |hash| :: Proper(hash[k].key) && Proper(hash[k].value)
    ensures before + PackEntries(hash[i..]) == before + PackEntry(hash[i]) + PackEntries(hash[i + 1..])
  {
    hide PackEntry, Proper;
    assert hash[i..][1..] == hash[i + 1..];
  }

  // ---------- The read cursor ----------

  datatype Option<T> = None | Some(value: T)

  class ReadBlock {
    const buffer: array<Byte>
    var ptr: nat
    var len: nat

    ghost predicate Valid()
      reads this
    {
      ptr + len == buffer.Length
    }

    /** What is left to read. */
    ghost function Left(): seq<Byte>
      requires Valid()
      reads this, buffer
    {
      buffer[ptr..]
    }

    /** rball_init. */
    constructor (b: array<Byte>)
      ensures Valid() && buffer == b && Left() == b[..]
    {
      buffer, ptr, len := b, 0, b.Length;
    }

    /** rb_read. */
    method ReadBytes(n: nat) returns (r: Option<seq<Byte>>)
      requires Valid()
      modifies this
      ensures Valid() && Agrees(r, Take(old(Left()), n), Left())
    {
      if len < n { return None; }
      ghost var b := Left();
      r := Some(buffer[ptr..ptr + n]);
      assert r.value == b[..n];
      ptr, len := ptr + n, len - n;
      assert Left() == b[n..];
    }

    /** What was read is what a function says, and so is what is left; nothing is said when the stream is invalid. */
    static ghost predicate Agrees<T>(r: Option<T>, spec: Read<T>, left: seq<Byte>)
    {
      (r.None? <==> spec.Invalid?) && (r.Some? ==> spec.Got? && spec.value == r.value && spec.rest == left)
    }

    method ReadWord(n: nat) returns (r: Option<nat>)
      requires Valid()
      modifies this
      ensures Valid() && (r.None? <==> Take(old(Left()), n).Invalid?)
      ensures r.Some? ==> r.value == FromLE(Take(old(Left()), n).value) && Left() == Take(old(Left()), n).rest
    {
      var w := ReadBytes(n);
      if w.None? { return None; }
      var i := n;
      var x := 0;
      while i > 0
        invariant 0 <= i <= n && x == FromLE(w.value[i..])
      {
        i := i - 1;
        assert w.value[i..][1..] == w.value[i + 1..];
        x := w.value[i] as int + 256 * x;
      }
      assert w.value[0..] == w.value;
      r := Some(x);
    }

    /** get_integer. */
    method ReadInteger(cookie: nat) returns (r: Option<int>)
      requires Valid()
      modifies this
      ensures Valid() && Agrees(r, GetInteger(old(Left()), cookie), Left())
    {
      hide Take, FromLE;
      var n: nat := 0;
      match cookie {
        case 0 => return Some(0);
        case 1 => n := 1;
        case 2 => n := 2;
        case 4 => n := 4;
        case 6 => n := 8;
        case _ => return None;
      }
      var w := ReadWord(n);
      if w.None? { return None; }
      r := Some(if n < 4 then w.value else Signed(w.value, n == 4));
    }

    /** unpack_one. */
    method UnpackOne() returns (r: Option<Value>)
      requires Valid()
      modifies this
      ensures Valid() && Agrees(r, Unpack(old(Left())), Left())
      decreases len, 0
    {
      hide PushValue;
      var t := ReadBytes(1);
      if t.None? { return None; }
      r := ReadValue(t.value[0] % 8, t.value[0] / 8);
    }

    /** push_value. */
    method ReadValue(kind: nat, cookie: nat) returns (r: Option<Value>)
      requires Valid() && cookie < 32
      modifies this
      ensures Valid() && Agrees(r, PushValue(kind, cookie, old(Left())), Left())
      decreases len, 4
    {
      hide UnpackTable, GetInteger, GetLong, Take;
      if kind == TYPE_NIL { return Some(Nil); }
      if kind == TYPE_BOOLEAN { return Some(Boolean(cookie != 0)); }
      if kind == TYPE_NUMBER && cookie != NUMBER_REAL {
        var n := ReadInteger(cookie);
        return if n.None? then None else Some(Integer(n.value));
      }
      if kind == TYPE_TABLE {
        r := ReadTable(cookie);
        return;
      }
      var w: Option<seq<Byte>>;
      if kind == TYPE_NUMBER || kind == TYPE_USERDATA { w := ReadBytes(8); }
      else if kind == TYPE_SHORT_STRING { w := ReadBytes(cookie); }
      else if kind == TYPE_LONG_STRING { w := ReadLong(cookie); }
      else { return None; }
      if w.None? { return None; }
      r := Some(if kind == TYPE_NUMBER then Real(w.value) else if kind ==
          TYPE_USERDATA then Pointer(w.value) else Str(w.value));
    }

    method ReadLong(cookie: nat) returns (r: Option<seq<Byte>>)
      requires Valid()
      modifies this
      ensures Valid() && Agrees(r, GetLong(old(Left()), cookie), Left())
    {
      hide Take, FromLE;
      if cookie != 2 && cookie != 4 { return None; }
      var n := ReadWord(cookie);
      if n.None? { return None; }
      var signed := Signed(n.value, true);
      if signed < 0 { return None; }
      r := ReadBytes(signed);
    }

    /** unpack_table. */
    method ReadTable(cookie: nat) returns (r: Option<Value>)
      requires Valid()
      modifies this
      ensures Valid() && Agrees(r, UnpackTable(old(Left()), cookie), Left())
      decreases len, 3
    {
      hide GetSize, UnpackArray, UnpackEntries;
      var n := ReadSize(cookie);
      if n.None? { return None; }
      var arr := ReadArray(n.value);
      if arr.None? { return None; }
      var hash := ReadEntries();
      if hash.None? { return None; }
      r := Some(Table(arr.value, hash.value));
    }

    method ReadSize(cookie: nat) returns (r: Option<int>)
      requires Valid()
      modifies this
      ensures Valid() && Agrees(r, GetSize(old(Left()), cookie), Left())
    {
      hide GetInteger;
      if cookie != MAX_COOKIE - 1 { return Some(cookie); }
      var t := ReadBytes(1);
      if t.None? || t.value[0] % 8 != TYPE_NUMBER || t.value[0] / 8 == NUMBER_REAL { return None; }
      var n := ReadInteger(t.value[0] / 8);
      if n.None? { return None; }
      r := Some(Signed(n.value % 0x1_0000_0000, true));
    }

    method ReadArray(n: int) returns (r: Option<seq<Value>>)
      requires Valid()
      modifies this
      ensures Valid() && Agrees(r, UnpackArray(old(Left()), n), Left())
      decreases len, 2
    {
      if n <= 0 { return Some([]); }
      var v := UnpackOne();
      if v.None? { return None; }
      var more := ReadArray(n - 1);
      r := if more.None? then None else Some([v.value] + more.value);
    }

    method ReadEntries() returns (r: Option<seq<Entry>>)
      requires Valid()
      modifies this
      ensures Valid() && Agrees(r, UnpackEntries(old(Left())), Left())
      decreases len, 2
    {
      var k := UnpackOne();
      if k.None? { return None; }
      if k.value.Nil? { return Some([]); }
      var v := UnpackOne();
      if v.None? { return None; }
      var more := ReadEntries();
      r := if more.None? then None else Some([Entry(k.value, v.value)] + more.value);
    }

    /** luaseri_unpack: values until nothing is left. */
    method UnpackAll() returns (r: Option<seq<Value>>)
      requires Valid()
      modifies this
      ensures Valid() && Agrees(r, UnpackList(old(Left())), Left())
      decreases len
    {
      hide Unpack;
      if len == 0 { return Some([]); }
      var v := UnpackOne();
      if v.None? { return None; }
      var more := UnpackAll();
      r := if more.None? then None else Some([v.value] + more.value);
    }
  }

  // ---------- From one service to another ----------

  /** luaseri_pack. */
  method PackValues(vs: seq<Value>) returns (buffer: Option<array<Byte>>)
    requires forall i | 0 <= i < |vs| :: Proper(vs[i])
    ensures buffer.Some? <==> forall i | 0 <= i < |vs| :: Fits(vs[i], 0)
    ensures buffer.Some? ==> fresh(buffer.value) && buffer.value[..] == PackAll(vs)
  {
    var wb := new WriteBlock();
    var ok := wb.PackArray(vs, 0);
    if !ok { return None; }
    var b := wb.Seri();
    buffer := Some(b);
  }

  /** A list of values that is packed and unpacked comes back as it was, when nothing lies more than 32 tables deep. */
  method Transfer(vs: seq<Value>) returns (r: Option<seq<Value>>)
    requires forall i | 0 <= i < |vs| :: Proper(vs[i])
    ensures r == if exists i | 0 <= i < |vs| :: Deep(vs[i], 33) then None else Some(vs)
  {
    hide Proper, Fits, PackAll, Deep;
    forall i | 0 <= i < |vs| ensures Fits(vs[i], 0) <==> !Deep(vs[i], 33) { FitsExact(vs[i], 0); }
    var buffer := PackValues(vs);
    if buffer.None? { return None; }
    var rb := new ReadBlock(buffer.value);
    ListTrip(vs);
    r := rb.UnpackAll();
  }
}
