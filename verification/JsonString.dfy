/** Printing byte strings as JSON strings and reading them back (section 7 of RFC 8259). */
module JsonString {
  type Byte = x: nat | x < 256

  const QUOTE: Byte := 34
  const SLASH: Byte := 47
  const BACKSLASH: Byte := 92
  const LETTER_U: Byte := 117

  datatype Option<T> = None | Some(value: T)

  // ---------- Escapes ----------

  function HexDigit(d: nat): (r: Byte)
    requires d < 16
    ensures r != 0
  {
    if d < 10 then 48 + d else 87 + d
  }

  /** char2escape: the escape of a character, or nothing. */
  function Escape(c: Byte): (r: seq<Byte>)
    ensures |r| <= 6
  {
    if c == 8 then [BACKSLASH, 98]
    else if c == 9 then [BACKSLASH, 116]
    else if c == 10 then [BACKSLASH, 110]
    else if c == 12 then [BACKSLASH, 102]
    else if c == 13 then [BACKSLASH, 114]
    else if c == QUOTE || c == SLASH || c == BACKSLASH then [BACKSLASH, c]
    else if c < 32 || c == 127 then [BACKSLASH, LETTER_U, 48, 48, HexDigit(c / 16), HexDigit(c % 16)]
    else []
  }

  /** escape2char: what an escape stands for; 0 for none. */
  function Unescape(c: Byte): Byte
  {
    if c == QUOTE || c == SLASH || c == BACKSLASH then c
    else if c == 98 then 8
    else if c == 116 then 9
    else if c == 110 then 10
    else if c == 102 then 12
    else if c == 114 then 13
    else if c == LETTER_U then LETTER_U
    else 0
  }

  // ---------- Code points ----------

  /** hexdigit2int: -1 for no hexadecimal digit. */
  function HexValue(c: Byte): (r: int)
    ensures -1 <= r < 16
  {
    if 48 <= c <= 57 then c - 48
    else if 65 <= c <= 70 then c - 55
    else if 97 <= c <= 102 then c - 87
    else -1
  }

  /** decode_hex4: stops at the first character that is no digit, and so at the end of the data. */
  function Hex4(b: seq<Byte>): (r: int)
    ensures -1 <= r < 0x1_0000
    ensures r >= 0 ==> |b| >= 4 && forall k | 0 <= k < 4 :: b[k] != 0
  {
    if |b| >= 4 && forall k | 0 <= k < 4 :: HexValue(b[k]) >= 0
    then HexValue(b[0]) * 0x1000 + HexValue(b[1]) * 0x100 + HexValue(b[2]) * 0x10 + HexValue(b[3])
    else -1
  }

  /** codepoint_to_utf8. */
  function Utf8(c: nat): (r: seq<Byte>)
    requires c < 0x20_0000
    ensures 1 <= |r| <= 4 && (c < 0x1_0000 ==> |r| <= 3)
  {
    if c < 0x80 then [c]
    else if c < 0x800 then [0xC0 + c / 0x40, 0x80 + c % 0x40]
    else if c < 0x1_0000 then [0xE0 + c / 0x1000, 0x80 + c / 0x40 % 0x40, 0x80 + c % 0x40]
    else [0xF0 + c / 0x4_0000, 0x80 + c / 0x1000 % 0x40, 0x80 + c / 0x40 % 0x40, 0x80 + c % 0x40]
  }

  /** The code point that bytes encode (section 3 of RFC 3629). */
  function CodePoint(b: seq<Byte>): int
  {
    if |b| == 1 && b[0] < 0x80 then b[0]
    else if |b| == 2 && 0xC0 <= b[0] < 0xE0 && Tail(b[1]) then Bits(b[0], 0xC0) * 0x40 + Bits(b[1], 0x80)
    else if |b| == 3 && 0xE0 <= b[0] < 0xF0 && Tail(b[1]) && Tail(b[2]) then
      Bits(b[0], 0xE0) * 0x1000 + Bits(b[1], 0x80) * 0x40 + Bits(b[2], 0x80)
    else if |b| == 4 && 0xF0 <= b[0] < 0xF8 && Tail(b[1]) && Tail(b[2]) && Tail(b[3]) then
      Bits(b[0], 0xF0) * 0x4_0000 + Bits(b[1], 0x80) * 0x1000 + Bits(b[2], 0x80) * 0x40 + Bits(b[3], 0x80)
    else -1
  }

  predicate Tail(c: Byte)
  {
    0x80 <= c < 0xC0
  }

  /** What a byte holds besides its mark. */
  function Bits(c: int, mark: int): int
  {
    c - mark
  }

  lemma Utf8Right(c: nat)
    requires c < 0x20_0000
    ensures CodePoint(Utf8(c)) == c
    ensures |Utf8(c)| == if c < 0x80 then 1 else if c < 0x800 then 2 else if c < 0x1_0000 then 3 else 4
  {
    if c < 0x800 {
      assert c == c / 0x40 * 0x40 + c % 0x40;
    } else if c < 0x1_0000 {
      Utf8Three(c);
    } else {
      Utf8Four(c);
    }
  }

  lemma Utf8Three(c: nat)
    requires 0x800 <= c < 0x1_0000
    ensures CodePoint(Utf8(c)) == c
  {
    var high, low := c / 0x40, c % 0x40;
    assert high / 0x40 == c / 0x1000;
    assert c == high * 0x40 + low && high == high / 0x40 * 0x40 + high % 0x40;
  }

  lemma Utf8Four(c: nat)
    requires 0x1_0000 <= c < 0x20_0000
    ensures CodePoint(Utf8(c)) == c
  {
    var high, low := c / 0x40, c % 0x40;
    var top := c / 0x1000;
    assert high / 0x40 == top && top / 0x40 == c / 0x4_0000;
    assert c == high * 0x40 + low && high == top * 0x40 + high % 0x40 && top == top / 0x40 * 0x40 + top % 0x40;
  }

  /** What a unicode escape gives, and how long it is. */
  datatype Escaped = Bad | Code(point: nat, size: nat)

  /** json_append_unicode_escape: a high surrogate has to be followed by the escape of a low one. */
  function ReadEscape(b: seq<Byte>): (r: Escaped)
    requires |b| >= 2
    ensures r.Code? ==> r.size <= |b| && r.point < 0x20_0000 && |Utf8(r.point)| <= r.size
    ensures r.Code? ==> (r.size == 6 && r.point < 0x1_0000) || (r.size == 12 && r.point >= 0x1_0000)
  {
    var high := Hex4(b[2..]);
    if high < 0 then Bad
    else if !(0xD800 <= high < 0xE000) then Code(high, 6)
    else if high >= 0xDC00 || |b| < 8 || b[6] != BACKSLASH || b[7] != LETTER_U then Bad
    else
      var low := Hex4(b[8..]);
      if 0xDC00 <= low < 0xE000 then Code(0x1_0000 + (high - 0xD800) * 0x400 + (low - 0xDC00), 12) else Bad
  }

  // ---------- Printing ----------

  function Printed(s: seq<Byte>): (r: seq<Byte>)
    ensures |r| <= 6 * |s|
  {
    if s == [] then []
    else Printed(s[..|s| - 1]) + (if Escape(s[|s| - 1]) == [] then [s[|s| - 1]] else Escape(s[|s| - 1]))
  }

  function Encoded(s: seq<Byte>): (r: seq<Byte>)
    ensures |r| <= 6 * |s| + 2
  {
    [QUOTE] + Printed(s) + [QUOTE]
  }

  /** A buffer that has room for a terminating zero beyond its length. */
  class StrBuf {
    var buf: array<Byte>
    var length: nat

    ghost predicate Valid()
      reads this
    {
      length < buf.Length
    }

    ghost function Contents(): seq<Byte>
      requires Valid()
      reads this, buf
    {
      buf[..length]
    }

    /** strbuf_new, with room for `n` characters. */
    constructor (n: nat)
      ensures Valid() && Contents() == [] && fresh(buf) && buf.Length > n
    {
      buf := new Byte[n + 1](_ => 0);
      length := 0;
    }

    /** strbuf_ensure_empty_length. */
    method EnsureEmptyLength(n: nat)
      requires Valid()
      modifies this
      ensures Valid() && Contents() == old(Contents()) && length == old(length) && buf.Length - length - 1 >= n
      ensures buf == old(buf) || fresh(buf)
      ensures old(buf.Length - length - 1) >= n ==> buf == old(buf)
    {
      if n > buf.Length - length - 1 {
        var larger := new Byte[length + n + 1](_ => 0);
        forall k | 0 <= k < length { larger[k] := buf[k]; }
        assert larger[..length] == buf[..length];
        buf := larger;
      }
    }

    /** strbuf_append_char_unsafe: there must be room. */
    method AppendUnsafe(c: Byte)
      requires Valid() && length + 1 < buf.Length
      modifies this`length, buf
      ensures Valid() && Contents() == old(Contents()) + [c] && length == old(length) + 1
    {
      buf[length] := c;
      length := length + 1;
    }

    /** strbuf_reset. */
    method Reset()
      requires Valid()
      modifies this`length
      ensures Valid() && Contents() == [] && length == 0
    {
      length := 0;
    }

    /** strbuf_append_mem_unsafe: there must be room. */
    method AppendMemUnsafe(s: seq<Byte>)
      requires Valid() && length + |s| < buf.Length
      modifies this`length, buf
      ensures Valid() && Contents() == old(Contents()) + s && length == old(length) + |s|
    {
      forall k | 0 <= k < |s| { buf[length + k] := s[k]; }
      length := length + |s|;
    }

    /** strbuf_append_string. */
    method AppendString(s: seq<Byte>)
      requires Valid()
      modifies this, buf
      ensures Valid() && Contents() == old(Contents()) + s && (buf == old(buf) || fresh(buf))
      ensures old(buf.Length - length) > |s| ==> buf == old(buf)
      ensures length == old(length) + |s|
    {
      EnsureEmptyLength(|s|);
      var i := 0;
      while i < |s|
        modifies this`length, buf
        invariant 0 <= i <= |s| && Valid() && length == old(length) + i && buf.Length - length > |s| - i
        invariant Contents() == old(Contents()) + s[..i]
      {
        AppendUnsafe(s[i]);
        i := i + 1;
      }
      assert s[..i] == s;
    }
  }

  lemma PrintedNext(s: seq<Byte>, i: nat)
    requires i < |s|
    ensures Printed(s[..i + 1]) == Printed(s[..i]) + (if Escape(s[i]) == [] then [s[i]] else Escape(s[i]))
  {
    assert s[..i + 1][..i] == s[..i];
  }

  /** json_append_string: the room asked for once is enough for all the unchecked appends. */
  method JsonAppendString(json: StrBuf, s: seq<Byte>)
    requires json.Valid()
    modifies json, json.buf
    ensures json.Valid() && json.Contents() == old(json.Contents()) + Encoded(s)
    ensures json.buf == old(json.buf) || fresh(json.buf)
  {
    hide Escape, Printed, json.Contents;
    json.EnsureEmptyLength(|s| * 6 + 2);
    ghost var before, size := json.Contents(), json.buf.Length;
    json.AppendUnsafe(QUOTE);
    var i := 0;
    NothingPrinted(s);
    while i < |s|
      invariant 0 <= i <= |s| && json.Valid() && json.buf.Length == size
      invariant json.buf == old(json.buf) || fresh(json.buf)
      invariant json.Contents() == before + ([QUOTE] + Printed(s[..i]))
      invariant size - json.length >= 6 * (|s| - i) + 2
    {
      PrintedNext(s, i);
      var esc := Escape(s[i]);
      if esc != [] { json.AppendString(esc); } else { json.AppendUnsafe(s[i]); }
      i := i + 1;
    }
    assert s[..i] == s;
    json.AppendUnsafe(QUOTE);
  }

  lemma NothingPrinted(s: seq<Byte>)
    ensures Printed(s[..0]) == []
  {
  }

  // ---------- Reading ----------

  /** An escape does not reach the zero at the end of the data. */
  lemma EscapeInside(data: seq<Byte>, ptr: nat)
    requires ptr + 1 < |data| && data[|data| - 1] == 0 && ReadEscape(data[ptr..]).Code?
    ensures var e := ReadEscape(data[ptr..]); ptr + e.size < |data| && |Utf8(e.point)| <= e.size
  {
    var b := data[ptr..];
    assert forall k | 0 <= k < |b| :: b[k] == data[ptr + k];
    var e := ReadEscape(b);
    assert forall k | 0 <= k < 4 :: b[2..][k] == b[2 + k];
    if e.size == 12 { assert forall k | 0 <= k < 4 :: b[8..][k] == b[8 + k]; }
  }

  /** What was read and what is left, or an error. */
  datatype Read = Error | Token(text: seq<Byte>, rest: seq<Byte>)

  /** What follows the opening quote, after `text` was read; a zero ends the data. */
  function ReadString(b: seq<Byte>, text: seq<Byte>): (r: Read)
    decreases |b|
  {
    if b == [] || b[0] == 0 then Error
    else if b[0] == QUOTE then Token(text, b[1..])
    else if b[0] != BACKSLASH then ReadString(b[1..], text + [b[0]])
    else if |b| < 2 || Unescape(b[1]) == 0 then Error
    else if Unescape(b[1]) != LETTER_U then ReadString(b[2..], text + [Unescape(b[1])])
    else
      var e := ReadEscape(b);
      if e.Bad? then Error else ReadString(b[e.size..], text + Utf8(e.point))
  }

  /**
   * json_next_string_token, on data with a string next; the buffer holds as much as the data, so no append is
   * checked.
   */
  method NextStringToken(data: array<Byte>, start: nat, tmp: StrBuf) returns (ptr: nat, ok: bool)
    requires start < data.Length && data[start] == QUOTE && data[data.Length - 1] == 0
    requires tmp.Valid() && tmp.buf.Length >= data.Length && tmp.buf != data
    modifies tmp, tmp.buf
    ensures tmp.Valid() && ptr <= data.Length
    ensures var r := ReadString(data[start + 1..], []);
            (ok <==> r.Token?) && (ok ==> tmp.Contents() == r.text && data[ptr..] == r.rest)
  {
    hide Utf8, ReadEscape, Unescape, tmp.Contents, ReadString;
    ptr := start + 1;
    tmp.Reset();
    while data[ptr] != QUOTE
      invariant start < ptr < data.Length && tmp.Valid() && tmp.buf == old(tmp.buf) && tmp.length < ptr
      invariant ReadString(data[ptr..], tmp.Contents()) == ReadString(data[start + 1..], [])
      decreases data.Length - ptr
    {
      ReadNext(data[..], ptr, tmp.Contents());
      if data[ptr] == 0 { return ptr, false; }
      var ch := data[ptr];
      if ch == BACKSLASH {
        ch := Unescape(data[ptr + 1]);
        if ch == LETTER_U {
          var e := ReadEscape(data[ptr..]);
          if e.Bad? { return ptr, false; }
          EscapeInside(data[..], ptr);
          tmp.AppendMemUnsafe(Utf8(e.point));
          ptr := ptr + e.size;
          continue;
        }
        if ch == 0 { return ptr, false; }
        ptr := ptr + 1;
      }
      tmp.AppendUnsafe(ch);
      ptr := ptr + 1;
    }
    ReadEnd(data[..], ptr, tmp.Contents());
    ptr := ptr + 1;
    ok := true;
  }

  lemma ReadEnd(data: seq<Byte>, ptr: nat, text: seq<Byte>)
    requires ptr < |data| && data[ptr] == QUOTE
    ensures ReadString(data[ptr..], text) == Token(text, data[ptr + 1..])
  {
  }

  /** What one round of the loop reads. */
  lemma ReadNext(data: seq<Byte>, ptr: nat, text: seq<Byte>)
    requires ptr < |data| && data[|data| - 1] == 0 && data[ptr] != QUOTE
    ensures data[ptr] == BACKSLASH ==> ptr + 1 < |data|
    ensures data[ptr] == BACKSLASH && Unescape(data[ptr + 1]) != LETTER_U && Unescape(data[ptr + 1]) != 0 ==>
            ptr + 2 < |data|
    ensures var r, c := ReadString(data[ptr..], text), data[ptr];
            if c == 0 then r == Error
            else if c != BACKSLASH then ptr + 1 < |data| && r == ReadString(data[ptr + 1..], text + [c])
            else
              var ch := Unescape(data[ptr + 1]);
              if ch == 0 then r == Error
              else if ch != LETTER_U then r == ReadString(data[ptr + 2..], text + [ch])
              else
                var e := ReadEscape(data[ptr..]);
                if e.Bad? then r == Error else r == ReadString(data[ptr + e.size..], text + Utf8(e.point))
  {
    hide Utf8, ReadEscape;
    var b := data[ptr..];
    if data[ptr] == BACKSLASH {
      assert b[1] == data[ptr + 1] && b[2..] == data[ptr + 2..];
      if Unescape(b[1]) == LETTER_U {
        var e := ReadEscape(b);
        if e.Code? { assert b[e.size..] == data[ptr + e.size..]; }
      }
    } else {
      assert b[1..] == data[ptr + 1..];
    }
  }

  // ---------- What strings are written as ----------

  /** A part of a string: a character as it is, a short escape, or the escapes of a code point. */
  datatype Piece =
    | Raw(c: Byte)
    | Short(letter: char)
    | Unit(point: nat, upper: seq<bool>)
    | Pair(point: nat, upper: seq<bool>, upper2: seq<bool>)

  /** A hexadecimal digit, as a capital or a small letter. */
  function Digit(d: nat, upper: bool): (r: Byte)
    requires d < 16
    ensures r != 0
  {
    if d < 10 then '0' as int + d else if upper then 'A' as int + (d - 10) else 'a' as int + (d - 10)
  }

  /** Four digits, the highest first. */
  function Digits(n: nat, upper: seq<bool>): (r: seq<Byte>)
    requires n < 0x1_0000 && |upper| == 4
    ensures |r| == 4 && forall k | 0 <= k < 4 :: r[k] != 0
  {
    [Digit(n / 0x1000, upper[0]), Digit(n / 0x100 % 16, upper[1]), Digit(n / 16 % 16, upper[2]), Digit(n % 16,
        upper[3])]
  }

  const SHORT_LETTERS: string := "\"\\/bfnrt"

  /** What the short escapes stand for (section 7 of RFC 8259). */
  function ShortMeans(letter: char): Byte
    requires letter in SHORT_LETTERS
  {
    match letter
    case 'b' => 8
    case 't' => 9
    case 'n' => 10
    case 'f' => 12
    case 'r' => 13
    case _ => if letter == '"' then 34 else if letter == '/' then 47 else 92
  }

  predicate Surrogate(n: nat)
  {
    0xD800 <= n <= 0xDFFF
  }

  predicate Proper(p: Piece)
  {
    match p
    case Raw(c) => c != 0 && c != QUOTE && c != BACKSLASH
    case Short(letter) => letter in SHORT_LETTERS
    case Unit(point, upper) => point < 0x1_0000 && !Surrogate(point) && |upper| == 4
    case Pair(point, upper, upper2) => 0x1_0000 <= point < 0x11_0000 && |upper| == |upper2| == 4
  }

  /** How a part is written; code points from 0x10000 on as two surrogates. */
  function Spell(p: Piece): (r: seq<Byte>)
    requires Proper(p)
    ensures r != []
  {
    match p
    case Raw(c) => [c]
    case Short(letter) => ['\\' as int, ShortByte(letter)]
    case Unit(point, upper) => ['\\' as int, 'u' as int] + Digits(point, upper)
    case Pair(point, upper, upper2) =>
      var n := point - 0x1_0000;
      ['\\' as int, 'u' as int] + Digits(0xD800 + n / 0x400, upper)
      + (['\\' as int, 'u' as int] + Digits(0xDC00 + n % 0x400, upper2))
  }

  function ShortByte(letter: char): Byte
    requires letter in SHORT_LETTERS
  {
    letter as int
  }

  /** What a part stands for. */
  function Denote(p: Piece): seq<Byte>
    requires Proper(p)
  {
    match p
    case Raw(c) => [c]
    case Short(letter) => [ShortMeans(letter)]
    case Unit(point, _) => Utf8(point)
    case Pair(point, _, _) => Utf8(point)
  }

  function Spelled(ps: seq<Piece>): seq<Byte>
    requires forall k | 0 <= k < |ps| :: Proper(ps[k])
  {
    if ps == [] then [] else Spell(ps[0]) + Spelled(ps[1..])
  }

  function Denoted(ps: seq<Piece>): seq<Byte>
    requires forall k | 0 <= k < |ps| :: Proper(ps[k])
  {
    if ps == [] then [] else Denote(ps[0]) + Denoted(ps[1..])
  }

  lemma DigitBack(d: nat, upper: bool)
    requires d < 16
    ensures HexValue(Digit(d, upper)) == d
  {
  }

  lemma DigitsBack(n: nat, upper: seq<bool>, rest: seq<Byte>)
    requires n < 0x1_0000 && |upper| == 4
    ensures Hex4(Digits(n, upper) + rest) == n
  {
    var b := Digits(n, upper) + rest;
    hide Digit, HexValue;
    DigitBack(n / 0x1000, upper[0]);
    DigitBack(n / 0x100 % 16, upper[1]);
    DigitBack(n / 16 % 16, upper[2]);
    DigitBack(n % 16, upper[3]);
    assert forall k | 0 <= k < 4 :: b[k] == Digits(n, upper)[k];
    Places(n);
  }

  lemma Places(n: nat)
    ensures n == n / 0x1000 * 0x1000 + n / 0x100 % 16 * 0x100 + n / 16 % 16 * 16 + n % 16
  {
    assert n / 0x1000 == n / 0x100 / 16 && n / 0x100 == n / 16 / 16;
  }

  /** Four characters that are read as digits are written so. */
  lemma DigitsFrom(b: seq<Byte>) returns (upper: seq<bool>)
    requires Hex4(b) >= 0
    ensures |upper| == 4 && b[..4] == Digits(Hex4(b), upper)
  {
    upper := [b[0] < 97, b[1] < 97, b[2] < 97, b[3] < 97];
    var n := Hex4(b);
    var d0, d1, d2, d3 := HexValue(b[0]), HexValue(b[1]), HexValue(b[2]), HexValue(b[3]);
    assert d0 >= 0 && d1 >= 0 && d2 >= 0 && d3 >= 0;
    PlacesFrom(d0, d1, d2, d3);
  }

  lemma PlacesFrom(d0: nat, d1: nat, d2: nat, d3: nat)
    requires d0 < 16 && d1 < 16 && d2 < 16 && d3 < 16
    ensures var n := d0 * 0x1000 + d1 * 0x100 + d2 * 0x10 + d3;
            n / 0x1000 == d0 && n / 0x100 % 16 == d1 && n / 16 % 16 == d2 && n % 16 == d3
  {
    var n := d0 * 0x1000 + d1 * 0x100 + d2 * 0x10 + d3;
    assert n / 16 == d0 * 0x100 + d1 * 0x10 + d2;
    assert n / 0x100 == d0 * 0x10 + d1;
  }

  lemma RawRead(c: Byte, rest: seq<Byte>, text: seq<Byte>)
    requires c != 0 && c != QUOTE && c != BACKSLASH
    ensures ReadString([c] + rest, text) == ReadString(rest, text + [c])
  {
    assert ([c] + rest)[1..] == rest;
  }

  lemma ShortRead(c: Byte, rest: seq<Byte>, text: seq<Byte>)
    requires Unescape(c) != 0 && Unescape(c) != LETTER_U
    ensures ReadString([BACKSLASH, c] + rest, text) == ReadString(rest, text + [Unescape(c)])
  {
    hide Unescape;
    assert ([BACKSLASH, c] + rest)[2..] == rest;
  }

  lemma ShortBack(letter: char)
    requires letter in SHORT_LETTERS
    ensures Unescape(ShortByte(letter)) == ShortMeans(letter) != 0 && ShortMeans(letter) != LETTER_U
  {
  }

  lemma EscapeRead(b: seq<Byte>, point: nat, size: nat, text: seq<Byte>)
    requires |b| >= 2 && b[0] == BACKSLASH && b[1] == LETTER_U && ReadEscape(b) == Code(point, size)
    ensures size <= |b| && point < 0x20_0000 && ReadString(b, text) == ReadString(b[size..], text + Utf8(point))
  {
    hide ReadEscape, Utf8;
  }

  lemma UnitRead(p: Piece, rest: seq<Byte>)
    requires Proper(p) && p.Unit?
    ensures ReadEscape(Spell(p) + rest) == Code(p.point, 6)
  {
    hide Digits, Hex4;
    assert (Spell(p) + rest)[2..] == Digits(p.point, p.upper) + rest;
    DigitsBack(p.point, p.upper, rest);
  }

  lemma PieceIs(p: Piece)
    requires Proper(p)
    ensures p.Raw? ==> Spell(p) == [p.c] && Denote(p) == [p.c]
    ensures p.Short? ==> Spell(p) == [BACKSLASH, ShortByte(p.letter)] && Denote(p) == [ShortMeans(p.letter)]
    ensures p.Unit? ==> |Spell(p)| == 6 && Denote(p) == Utf8(p.point)
    ensures p.Pair? ==> |Spell(p)| == 12 && Denote(p) == Utf8(p.point)
    ensures p.Unit? || p.Pair? ==> Spell(p)[0] == BACKSLASH && Spell(p)[1] == LETTER_U
  {
    hide Digits, Utf8, ShortByte, ShortMeans;
  }

  /** Reading a part adds what it stands for. */
  lemma PieceRead(p: Piece, rest: seq<Byte>, text: seq<Byte>)
    requires Proper(p)
    ensures ReadString(Spell(p) + rest, text) == ReadString(rest, text + Denote(p))
  {
    hide ReadString, ReadEscape, Utf8, Spell, Denote, ShortByte, ShortMeans, Unescape;
    PieceIs(p);
    var b := Spell(p) + rest;
    match p
    case Raw(c) => RawRead(c, rest, text);
    case Short(letter) =>
      ShortBack(letter);
      ShortRead(ShortByte(letter), rest, text);
    case Unit(point, _) =>
      UnitRead(p, rest);
      EscapeRead(b, point, 6, text);
      assert b[6..] == rest;
    case Pair(point, _, _) =>
      PairRead(p, rest);
      EscapeRead(b, point, 12, text);
      assert b[12..] == rest;
  }

  lemma PairRead(p: Piece, rest: seq<Byte>)
    requires Proper(p) && p.Pair?
    ensures ReadEscape(Spell(p) + rest) == Code(p.point, 12)
  {
    hide Digits, Hex4;
    var b, n := Spell(p) + rest, p.point - 0x1_0000;
    var d1, d2 := Digits(0xD800 + n / 0x400, p.upper), Digits(0xDC00 + n % 0x400, p.upper2);
    assert b[2..] == d1 + ([BACKSLASH, LETTER_U] + d2 + rest) && b[8..] == d2 + rest;
    assert b[6] == BACKSLASH && b[7] == LETTER_U;
    DigitsBack(0xD800 + n / 0x400, p.upper, [BACKSLASH, LETTER_U] + d2 + rest);
    DigitsBack(0xDC00 + n % 0x400, p.upper2, rest);
    assert n == n / 0x400 * 0x400 + n % 0x400;
  }

  predicate AllProper(ps: seq<Piece>)
  {
    forall k | 0 <= k < |ps| :: Proper(ps[k])
  }

  /** However a string is written, it is read as what its parts stand for. */
  lemma {:induction false} ReadsSpelled(ps: seq<Piece>, rest: seq<Byte>, text: seq<Byte>)
    requires AllProper(ps)
    ensures ReadString(Spelled(ps) + [QUOTE] + rest, text) == Token(text + Denoted(ps), rest)
    decreases |ps|
  {
    hide Spell, Denote;
    if ps == [] {
      hide *;
      QuoteEnds(rest, text);
      NothingSpelled();
      assert [] + [QUOTE] + rest == [QUOTE] + rest && text + [] == text;
    } else {
      hide ReadString;
      var after := Spelled(ps[1..]) + [QUOTE] + rest;
      assert Spelled(ps) + [QUOTE] + rest == Spell(ps[0]) + after;
      PieceRead(ps[0], after, text);
      ReadsSpelled(ps[1..], rest, text + Denote(ps[0]));
      assert text + Denote(ps[0]) + Denoted(ps[1..]) == text + Denoted(ps);
    }
  }

  lemma QuoteEnds(rest: seq<Byte>, text: seq<Byte>)
    ensures ReadString([QUOTE] + rest, text) == Token(text, rest)
  {
    assert ([QUOTE] + rest)[1..] == rest;
  }

  lemma NothingSpelled()
    ensures Spelled([]) == [] && Denoted([]) == []
  {
  }

  /** The first part of what is read as a string. */
  lemma FirstPiece(b: seq<Byte>, text: seq<Byte>) returns (p: Piece, rest: seq<Byte>)
    requires ReadString(b, text).Token? && b != [] && b[0] != QUOTE
    ensures Proper(p) && b == Spell(p) + rest
  {
    if b[0] != BACKSLASH {
      p, rest := Raw(b[0]), b[1..];
    } else if Unescape(b[1]) != LETTER_U {
      p, rest := Short(b[1] as char), b[2..];
    } else {
      p, rest := FirstUnit(b);
    }
  }

  /** What follows a `\u` that is read. */
  lemma EscapeIs(b: seq<Byte>)
    requires |b| >= 2 && ReadEscape(b).Code?
    ensures var high := Hex4(b[2..]);
            && high >= 0 && (Surrogate(high) ==>
                 && high < 0xDC00 && |b| >= 8 && b[6] == BACKSLASH && b[7] == LETTER_U
                 && 0xDC00 <= Hex4(b[8..]) < 0xE000)
  {
    hide Hex4, Utf8;
  }

  lemma FirstUnit(b: seq<Byte>) returns (p: Piece, rest: seq<Byte>)
    requires |b| >= 2 && b[0] == BACKSLASH && b[1] == LETTER_U && ReadEscape(b).Code?
    ensures Proper(p) && b == Spell(p) + rest
  {
    hide Digits, Hex4, ReadEscape, Utf8;
    EscapeIs(b);
    var high := Hex4(b[2..]);
    var upper := DigitsFrom(b[2..]);
    assert b[2..][..4] == b[2..6];
    if !Surrogate(high) {
      p, rest := Unit(high, upper), b[6..];
      assert b == b[..2] + b[2..6] + b[6..];
    } else {
      p, rest := FirstPair(b, high, upper);
    }
  }

  lemma FirstPair(b: seq<Byte>, high: nat, upper: seq<bool>) returns (p: Piece, rest: seq<Byte>)
    requires |b| >= 8 && b[0] == BACKSLASH && b[1] == LETTER_U && 0xD800 <= high < 0xDC00
    requires |upper| == 4 && b[2..6] == Digits(high, upper)
    requires b[6] == BACKSLASH && b[7] == LETTER_U && 0xDC00 <= Hex4(b[8..]) < 0xE000
    ensures Proper(p) && b == Spell(p) + rest
  {
    hide Digits, Hex4;
    var low := Hex4(b[8..]);
    var upper2 := DigitsFrom(b[8..]);
    assert b[8..][..4] == b[8..12];
    var n := (high - 0xD800) * 0x400 + (low - 0xDC00);
    assert n / 0x400 == high - 0xD800 && n % 0x400 == low - 0xDC00;
    p, rest := Pair(0x1_0000 + n, upper, upper2), b[12..];
    assert b == b[..2] + b[2..6] + (b[6..8] + b[8..12]) + b[12..];
  }

  /** Only what is written as a string is read as one. */
  lemma {:induction false} OnlySpelled(b: seq<Byte>, text: seq<Byte>) returns (ps: seq<Piece>)
    requires ReadString(b, text).Token?
    ensures AllProper(ps)
    ensures var r := ReadString(b, text); b == Spelled(ps) + [QUOTE] + r.rest && r.text == text + Denoted(ps)
    decreases |b|
  {
    hide Spell, Denote, Spelled, Denoted;
    if b[0] == QUOTE {
      ps := [];
      NothingSpelled();
      assert b == [] + [QUOTE] + b[1..] && text + [] == text;
    } else {
      var p, rest := FirstPiece(b, text);
      PieceRead(p, rest, text);
      ps := OnlySpelled(rest, text + Denote(p));
      SpelledMore(p, ps);
      var r := ReadString(b, text);
      assert b == Spell(p) + (Spelled(ps) + [QUOTE] + r.rest);
      assert b == Spelled([p] + ps) + [QUOTE] + r.rest;
      assert r.text == text + (Denote(p) + Denoted(ps));
      ps := [p] + ps;
    }
  }

  lemma SpelledMore(p: Piece, ps: seq<Piece>)
    requires Proper(p) && AllProper(ps)
    ensures Spelled([p] + ps) == Spell(p) + Spelled(ps) && Denoted([p] + ps) == Denote(p) + Denoted(ps)
  {
    assert ([p] + ps)[1..] == ps;
  }

  /** A surrogate that is not one of a pair is an error, wherever it stands. */
  lemma LoneSurrogate(n: nat, upper: seq<bool>, rest: seq<Byte>, text: seq<Byte>)
    requires Surrogate(n) && |upper| == 4
    ensures var b := [BACKSLASH, LETTER_U] + Digits(n, upper) + rest;
            ReadString(b, text).Token? ==>
              && n < 0xDC00 && |rest| >= 6 && rest[0] == BACKSLASH && rest[1] == LETTER_U
              && 0xDC00 <= Hex4(rest[2..]) < 0xE000
  {
    hide Digits, Hex4;
    var b := [BACKSLASH, LETTER_U] + Digits(n, upper) + rest;
    assert b[2..] == Digits(n, upper) + rest;
    DigitsBack(n, upper, rest);
    if |rest| >= 2 { assert b[8..] == rest[2..]; }
  }

  // ---------- What is printed, and the round trip ----------

  /** How a character is printed: by its short escape, by a code point, or as it is. */
  function PieceOf(c: Byte): (p: Piece)
    ensures Proper(p)
  {
    match c
    case 8 => Short('b')
    case 9 => Short('t')
    case 10 => Short('n')
    case 12 => Short('f')
    case 13 => Short('r')
    case 34 => Short('"')
    case 47 => Short('/')
    case 92 => Short('\\')
    case _ => if c < 32 || c == 127 then Unit(c, [false, false, false, false]) else Raw(c)
  }

  lemma PieceDenotes(c: Byte)
    ensures Denote(PieceOf(c)) == [c]
    ensures Spell(PieceOf(c)) == if Escape(c) == [] then [c] else Escape(c)
    ensures forall k | 0 <= k < |Spell(PieceOf(c))| :: Spell(PieceOf(c))[k] >= 32
  {
    if PieceOf(c).Unit? { assert c / 0x1000 == 0 && c / 0x100 == 0 && c / 16 % 16 == c / 16; }
  }

  function PiecesOf(s: seq<Byte>): (ps: seq<Piece>)
    ensures |ps| == |s| && AllProper(ps)
  {
    seq(|s|, k requires 0 <= k < |s| => PieceOf(s[k]))
  }

  lemma {:induction false} SpelledLast(ps: seq<Piece>, p: Piece)
    requires Proper(p) && AllProper(ps)
    ensures Spelled(ps + [p]) == Spelled(ps) + Spell(p) && Denoted(ps + [p]) == Denoted(ps) + Denote(p)
  {
    hide Spell, Denote, Spelled, Denoted;
    NothingSpelled();
    if ps == [] {
      SpelledMore(p, []);
      assert [] + [p] == [p] + [];
    } else {
      SpelledLast(ps[1..], p);
      SpelledMore(ps[0], ps[1..] + [p]);
      SpelledMore(ps[0], ps[1..]);
      assert [ps[0]] + ps[1..] == ps && ps + [p] == [ps[0]] + (ps[1..] + [p]);
    }
  }

  /** Printed text writes each character by itself, and holds no control character. */
  lemma {:induction false} PrintedIs(s: seq<Byte>)
    ensures Printed(s) == Spelled(PiecesOf(s)) && Denoted(PiecesOf(s)) == s
    ensures forall k | 0 <= k < |Printed(s)| :: Printed(s)[k] >= 32
  {
    hide Spell, Denote, Spelled, Denoted, Escape, PieceOf;
    if s == [] {
      NothingSpelled();
    } else {
      var n := |s| - 1;
      PrintedIs(s[..n]);
      PieceDenotes(s[n]);
      assert PiecesOf(s) == PiecesOf(s[..n]) + [PieceOf(s[n])];
      SpelledLast(PiecesOf(s[..n]), PieceOf(s[n]));
      assert s == s[..n] + [s[n]];
    }
  }

  /** Reading what was printed gives the string back, whatever its bytes and whatever follows. */
  lemma RoundTrip(s: seq<Byte>, rest: seq<Byte>)
    ensures Encoded(s)[0] == QUOTE && ReadString(Encoded(s)[1..] + rest, []) == Token(s, rest)
  {
    hide ReadString, Printed;
    PrintedIs(s);
    ReadsSpelled(PiecesOf(s), rest, []);
    assert Encoded(s)[1..] + rest == Printed(s) + [QUOTE] + rest;
    assert [] + s == s;
  }
}
