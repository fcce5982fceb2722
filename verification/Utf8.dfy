/** UTF-8 (RFC 3629): Dafny's `char` is exactly a Unicode scalar value, so `string` is Rust's `str` and
    its bytes are `Encode(s)`. */
module Utf8 {
  import opened Order

  type Byte = b: int | 0 <= b < 256
  type Bytes = seq<Byte>

  datatype Option<T> = None | Some(value: T)

  predicate IsScalar(n: int) {
    0 <= n < 0xD800 || 0xE000 <= n <= 0x10FFFF
  }

  /** `char::from_u32`. */
  function FromScalar(n: int): (r: Option<char>)
    ensures r.Some? <==> IsScalar(n)
    ensures r.Some? ==> r.value as int == n
  {
    if IsScalar(n) then Some(n as char) else None
  }

  // ----- Encoding -----

  function EncodeChar(ch: char): (r: Bytes)
    ensures 1 <= |r| <= 4
    ensures ch as int < 0x80 <==> |r| == 1
    ensures ch as int < 0x80 ==> r == [ch as int]
    ensures ch as int >= 0x80 ==> forall i :: 0 <= i < |r| ==> r[i] >= 0x80
    ensures |r| == 2 ==> 0xC0 <= r[0] <= 0xDF
    ensures |r| == 3 ==> 0xE0 <= r[0] <= 0xEF
    ensures |r| == 4 ==> 0xF0 <= r[0] <= 0xF7
  {
    var c := ch as int;
    var q := c / 64;
    var r := q / 64;
    if c < 0x80 then [c]
    else if c < 0x800 then [0xC0 + q, 0x80 + c % 64]
    else if c < 0x10000 then [0xE0 + r, 0x80 + q % 64, 0x80 + c % 64]
    else [0xF0 + r / 64, 0x80 + r % 64, 0x80 + q % 64, 0x80 + c % 64]
  }

  function Encode(s: string): Bytes {
    if s == [] then [] else EncodeChar(s[0]) + Encode(s[1..])
  }

  lemma EncodeCons(ch: char, tail: string)
    ensures Encode([ch] + tail) == EncodeChar(ch) + Encode(tail)
  {
    assert ([ch] + tail)[1..] == tail;
  }

  lemma {:induction false} EncodeConcat(a: string, b: string)
    ensures Encode(a + b) == Encode(a) + Encode(b)
  {
    if a == [] {
      assert a + b == b;
    } else {
      EncodeConcat(a[1..], b);
      ConcatStep(a, b);
    }
  }

  lemma ConcatStep(a: string, b: string)
    requires a != [] && Encode(a[1..] + b) == Encode(a[1..]) + Encode(b)
    ensures Encode(a + b) == Encode(a) + Encode(b)
  {
    hide *;
    EncodeCons(a[0], a[1..] + b);
    EncodeCons(a[0], a[1..]);
    assert a + b == [a[0]] + (a[1..] + b);
    assert a == [a[0]] + a[1..];
  }

  // ----- Decoding: the well-formed byte sequences of section 4 -----

  datatype Decoded = Char(ch: char, length: nat) | Malformed

  predicate Cont(b: Byte) {
    0x80 <= b <= 0xBF
  }

  function DecodeChar(s: Bytes): (r: Decoded)
    requires s != []
    ensures r.Char? ==> 1 <= r.length <= 4 && r.length <= |s|
  {
    var b: int := s[0];
    if b < 0x80 then Char(b as char, 1)
    else if 0xC2 <= b <= 0xDF && |s| >= 2 && Cont(s[1]) then Char(Join(b - 0xC0, s[1]) as char, 2)
    else if 0xE0 <= b <= 0xEF && |s| >= 3 && Cont(s[1]) && Cont(s[2])
         && (b == 0xE0 ==> s[1] >= 0xA0) && (b == 0xED ==> s[1] <= 0x9F) then
      Char(Join(Join(b - 0xE0, s[1]), s[2]) as char, 3)
    else if 0xF0 <= b <= 0xF4 && |s| >= 4 && Cont(s[1]) && Cont(s[2]) && Cont(s[3])
         && (b == 0xF0 ==> s[1] >= 0x90) && (b == 0xF4 ==> s[1] <= 0x8F) then
      Char(Join(Join(Join(b - 0xF0, s[1]), s[2]), s[3]) as char, 4)
    else Malformed
  }

  /** Six more bits. */
  function Join(high: int, cont: int): int {
    high * 64 + (cont - 0x80)
  }

  /** `std::str::from_utf8`. */
  function Decode(s: Bytes): Option<string> {
    if s == [] then Some([])
    else
      var d := DecodeChar(s);
      if d.Malformed? then None
      else
        var rest := Decode(s[d.length..]);
        if rest.None? then None else Some([d.ch] + rest.value)
  }

  lemma DecodeCharEncoded(ch: char, rest: Bytes)
    ensures DecodeChar(EncodeChar(ch) + rest) == Char(ch, |EncodeChar(ch)|)
  {
    var c := ch as int;
    var q := c / 64;
    var r := q / 64;
    assert Join(q, 0x80 + c % 64) == c && Join(r, 0x80 + q % 64) == q && Join(r / 64, 0x80 + r % 64) == r;
    var s := EncodeChar(ch) + rest;
    if c < 0x80 {
      assert s[0] == c;
    } else if c < 0x800 {
      assert s[0] == 0xC0 + q && s[1] == 0x80 + c % 64;
    } else if c < 0x10000 {
      assert s[0] == 0xE0 + r && s[1] == 0x80 + q % 64 && s[2] == 0x80 + c % 64;
    } else {
      assert s[0] == 0xF0 + r / 64 && s[1] == 0x80 + r % 64 && s[2] == 0x80 + q % 64 && s[3] == 0x80 + c % 64;
    }
  }

  /** Undoing `Join`. */
  lemma JoinParts(high: int, cont: Byte)
    requires Cont(cont) && high >= 0
    ensures Join(high, cont) / 64 == high && 0x80 + Join(high, cont) % 64 == cont
  {
  }

  lemma EncodeCharDecoded(s: Bytes)
    requires s != [] && DecodeChar(s).Char?
    ensures EncodeChar(DecodeChar(s).ch) == s[..DecodeChar(s).length]
  {
    var d := DecodeChar(s);
    if d.length == 2 {
      JoinParts(s[0] as int - 0xC0, s[1]);
    } else if d.length == 3 {
      JoinParts(s[0] as int - 0xE0, s[1]);
      JoinParts(Join(s[0] as int - 0xE0, s[1]), s[2]);
    } else if d.length == 4 {
      JoinParts(s[0] as int - 0xF0, s[1]);
      JoinParts(Join(s[0] as int - 0xF0, s[1]), s[2]);
      JoinParts(Join(Join(s[0] as int - 0xF0, s[1]), s[2]), s[3]);
    }
  }

  lemma DecodePrepend(ch: char, rest: Bytes)
    ensures Decode(EncodeChar(ch) + rest)
         == if Decode(rest).Some? then Some([ch] + Decode(rest).value) else None
  {
    hide EncodeChar, DecodeChar;
    var n := |EncodeChar(ch)|;
    DecodeCharEncoded(ch, rest);
    assert (EncodeChar(ch) + rest)[n..] == rest;
  }

  lemma {:induction false} DecodeEncoded(s: string)
    ensures Decode(Encode(s)) == Some(s)
  {
    hide EncodeChar, DecodeChar;
    if s != [] {
      DecodeEncoded(s[1..]);
      DecodePrepend(s[0], Encode(s[1..]));
      assert s == [s[0]] + s[1..];
    }
  }

  lemma {:induction false} EncodeDecoded(bs: Bytes)
    requires Decode(bs).Some?
    ensures Encode(Decode(bs).value) == bs
    decreases |bs|
  {
    hide EncodeChar, DecodeChar;
    if bs != [] {
      var d := DecodeChar(bs);
      EncodeCharDecoded(bs);
      EncodeDecoded(bs[d.length..]);
      EncodeCons(d.ch, Decode(bs[d.length..]).value);
      assert bs == bs[..d.length] + bs[d.length..];
    }
  }

  /** Valid UTF-8 is exactly what some text encodes to, and only one text does. */
  lemma ValidIffEncoded(bs: Bytes, s: string)
    ensures Decode(bs) == Some(s) <==> Encode(s) == bs
  {
    hide *;
    DecodeEncoded(s);
    if Decode(bs).Some? {
      EncodeDecoded(bs);
    }
  }

  // ----- Order -----

  predicate BytesLe(a: Bytes, b: Bytes) {
    a == [] || (b != [] && (a[0] < b[0] || (a[0] == b[0] && BytesLe(a[1..], b[1..]))))
  }

  /** Two encodings differ first at `k`, where `x` is smaller. */
  predicate DecidedBy(x: Bytes, y: Bytes, k: nat) {
    k < |x| && k < |y| && x[..k] == y[..k] && x[k] < y[k]
  }

  lemma CharOrder(a: char, b: char) returns (k: nat)
    requires a < b
    ensures DecidedBy(EncodeChar(a), EncodeChar(b), k)
  {
    var x, y := EncodeChar(a), EncodeChar(b);
    SameQuotient(a as int, b as int);
    SameQuotient(a as int / 64, b as int / 64);
    if |x| < |y| || |x| == 1 {
      LongerLeadsHigher(a, b);
      k := 0;
    } else if |x| == 2 {
      k := if x[0] == y[0] then 1 else 0;
    } else if |x| == 3 {
      k := CharOrder3(a, b);
    } else {
      k := CharOrder4(a, b);
    }
  }

  lemma LongerLeadsHigher(a: char, b: char)
    requires a < b && (|EncodeChar(a)| < |EncodeChar(b)| || |EncodeChar(a)| == 1)
    ensures EncodeChar(a)[0] < EncodeChar(b)[0]
  {
  }

  lemma CharOrder3(a: char, b: char) returns (k: nat)
    requires a < b && |EncodeChar(a)| == |EncodeChar(b)| == 3
    ensures DecidedBy(EncodeChar(a), EncodeChar(b), k)
  {
    var x, y := EncodeChar(a), EncodeChar(b);
    SameQuotient(a as int, b as int);
    SameQuotient(a as int / 64, b as int / 64);
    k := if x[0] != y[0] then 0 else if x[1] != y[1] then 1 else 2;
  }

  lemma CharOrder4(a: char, b: char) returns (k: nat)
    requires a < b && |EncodeChar(a)| == |EncodeChar(b)| == 4
    ensures DecidedBy(EncodeChar(a), EncodeChar(b), k)
  {
    var x, y := EncodeChar(a), EncodeChar(b);
    SameQuotient(a as int, b as int);
    SameQuotient(a as int / 64, b as int / 64);
    SameQuotient(a as int / 64 / 64, b as int / 64 / 64);
    k := if x[0] != y[0] then 0 else if x[1] != y[1] then 1 else if x[2] != y[2] then 2 else 3;
  }

  /** Order is decided by the quotient, or by the remainder when the quotients agree. */
  lemma SameQuotient(a: int, b: int)
    requires 0 <= a <= b
    ensures a / 64 <= b / 64
    ensures a / 64 == b / 64 ==> (a < b <==> a % 64 < b % 64)
    ensures a / 64 == b / 64 && a % 64 == b % 64 ==> a == b
  {
  }

  lemma {:induction false} SharedPrefix(p: Bytes, a: Bytes, b: Bytes)
    ensures BytesLe(p + a, p + b) <==> BytesLe(a, b)
    decreases |p|
  {
    if p == [] {
      assert p + a == a && p + b == b;
    } else {
      SharedPrefix(p[1..], a, b);
      assert (p + a)[1..] == p[1..] + a && (p + b)[1..] == p[1..] + b;
    }
  }

  lemma DecidedAt(x: Bytes, y: Bytes, k: nat, a: Bytes, b: Bytes)
    requires DecidedBy(x, y, k)
    ensures BytesLe(x + a, y + b) && !BytesLe(y + b, x + a)
  {
    var p, u, v := x[..k], x[k..] + a, y[k..] + b;
    assert x + a == p + u && y + b == p + v;
    SharedPrefix(p, u, v);
    SharedPrefix(p, v, u);
  }

  /** Comparing bytes and comparing code points give the same order: what `PhStr::cmp` and every sorted
      table of names rely on (section 1). */
  lemma {:induction false} ByteOrderIsCodePointOrder(a: string, b: string)
    ensures BytesLe(Encode(a), Encode(b)) <==> StrLe(a, b)
    decreases |a|
  {
    if a != [] && b != [] {
      if a[0] == b[0] {
        SharedPrefix(EncodeChar(a[0]), Encode(a[1..]), Encode(b[1..]));
        ByteOrderIsCodePointOrder(a[1..], b[1..]);
      } else if a[0] < b[0] {
        var k := CharOrder(a[0], b[0]);
        DecidedAt(EncodeChar(a[0]), EncodeChar(b[0]), k, Encode(a[1..]), Encode(b[1..]));
      } else {
        var k := CharOrder(b[0], a[0]);
        DecidedAt(EncodeChar(b[0]), EncodeChar(a[0]), k, Encode(b[1..]), Encode(a[1..]));
      }
    }
  }
}
