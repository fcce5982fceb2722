/** The transcoding kernel (src/charset.rs). For every charset, decoding and encoding are partial
    inverses of each other. */
module Charset {
  import opened Utf8

  datatype Charset = CsUtf8 | CsUtf16Le | CsUtf16Be | CsLatin1 | CsLatin9 | CsWindows1252 | CsAscii

  /** Where ISO-8859-15 differs from ISO-8859-1. */
  const LATIN9_DIFF: seq<(Byte, int)> := [
    (0xA4, 0x20AC), (0xA6, 0x0160), (0xA8, 0x0161), (0xB4, 0x017D),
    (0xB8, 0x017E), (0xBC, 0x0152), (0xBD, 0x0153), (0xBE, 0x0178)]

  /** Windows-1252 in 0x80..0x9F; 0 marks an undefined byte. */
  const CP1252_C1: seq<int> := [
    0x20AC, 0, 0x201A, 0x0192, 0x201E, 0x2026, 0x2020, 0x2021,
    0x02C6, 0x2030, 0x0160, 0x2039, 0x0152, 0, 0x017D, 0,
    0, 0x2018, 0x2019, 0x201C, 0x201D, 0x2022, 0x2013, 0x2014,
    0x02DC, 0x2122, 0x0161, 0x203A, 0x0153, 0, 0x017E, 0x0178]

  // ----- Single bytes -----

  function FindByte(t: seq<(Byte, int)>, b: Byte): (r: Option<int>)
    ensures r.Some? ==> (b, r.value) in t
    ensures r.None? ==> forall e :: e in t ==> e.0 != b
  {
    if t == [] then None else if t[0].0 == b then Some(t[0].1) else FindByte(t[1..], b)
  }

  function FindCode(t: seq<(Byte, int)>, cp: int): (r: Option<Byte>)
    ensures r.Some? ==> (r.value, cp) in t
    ensures r.None? ==> forall e :: e in t ==> e.1 != cp
  {
    if t == [] then None else if t[0].1 == cp then Some(t[0].0) else FindCode(t[1..], cp)
  }

  function Position(t: seq<int>, cp: int): (r: Option<nat>)
    ensures r.Some? ==> r.value < |t| && t[r.value] == cp
    ensures r.None? ==> forall i :: 0 <= i < |t| ==> t[i] != cp
  {
    if t == [] then None
    else if t[0] == cp then Some(0)
    else
      match Position(t[1..], cp)
      case None => None
      case Some(i) => Some(i + 1)
  }

  /** `single_byte_cp`. */
  function CodeOf(cs: Charset, b: Byte): Option<int> {
    match cs
    case CsAscii => if b < 0x80 then Some(b) else None
    case CsLatin1 => Some(b)
    case CsLatin9 =>
      var found := FindByte(LATIN9_DIFF, b);
      Some(if found.Some? then found.value else b)
    case CsWindows1252 =>
      if 0x80 <= b <= 0x9F then
        var cp := CP1252_C1[b - 0x80];
        if cp != 0 then Some(cp) else None
      else Some(b)
    case _ => None
  }

  /** `single_byte_byte`: a search over the same tables. */
  function ByteOf(cs: Charset, cp: nat): Option<Byte> {
    match cs
    case CsAscii => if cp < 0x80 then Some(cp) else None
    case CsLatin1 => if cp < 0x100 then Some(cp) else None
    case CsLatin9 =>
      var found := FindCode(LATIN9_DIFF, cp);
      if found.Some? then Some(found.value)
      else if cp < 0x100 && FindByte(LATIN9_DIFF, cp).None? then Some(cp)
      else None
    case CsWindows1252 =>
      var found := if cp != 0 then Position(CP1252_C1, cp) else None;
      if found.Some? then Some(0x80 + found.value)
      else if cp < 0x100 && !(0x80 <= cp <= 0x9F) then Some(cp)
      else None
    case _ => None
  }

  /** Where a code of the Windows-1252 block stands: the table has no repeats but 0. */
  function Cp1252Index(cp: int): int {
    match cp
    case 0x20AC => 0 case 0x201A => 2 case 0x0192 => 3 case 0x201E => 4 case 0x2026 => 5 case 0x2020 => 6
    case 0x2021 => 7 case 0x02C6 => 8 case 0x2030 => 9 case 0x0160 => 10 case 0x2039 => 11 case 0x0152 => 12
    case 0x017D => 14 case 0x2018 => 17 case 0x2019 => 18 case 0x201C => 19 case 0x201D => 20 case 0x2022 => 21
    case 0x2013 => 22 case 0x2014 => 23 case 0x02DC => 24 case 0x2122 => 25 case 0x0161 => 26 case 0x203A => 27
    case 0x0153 => 28 case 0x017E => 30 case 0x0178 => 31
    case _ => -1
  }

  lemma Cp1252Entries(i: nat)
    requires i < 32
    ensures |CP1252_C1| == 32
    ensures CP1252_C1[i] == 0 || (Cp1252Index(CP1252_C1[i]) == i && CP1252_C1[i] > 0x100 && IsScalar(CP1252_C1[i]))
  {
  }

  lemma Windows1252Inverse(b: Byte, cp: nat)
    ensures CodeOf(CsWindows1252, b) == Some(cp) <==> ByteOf(CsWindows1252, cp) == Some(b)
    ensures CodeOf(CsWindows1252, b) == Some(cp) ==> IsScalar(cp)
  {
    hide Cp1252Index;
    if 0x80 <= b <= 0x9F {
      Cp1252Entries(b - 0x80);
    }
    var found := Position(CP1252_C1, cp);
    if found.Some? {
      Cp1252Entries(found.value);
    }
  }

  lemma Latin9Entries(e: (Byte, int))
    requires e in LATIN9_DIFF
    ensures e.1 > 0x100 && IsScalar(e.1)
    ensures forall f :: f in LATIN9_DIFF ==> (f.0 == e.0 <==> f.1 == e.1)
  {
  }

  lemma Latin9Inverse(b: Byte, cp: nat)
    ensures CodeOf(CsLatin9, b) == Some(cp) <==> ByteOf(CsLatin9, cp) == Some(b)
    ensures CodeOf(CsLatin9, b) == Some(cp) ==> IsScalar(cp)
  {
    hide FindByte, FindCode;
    var byCode, byByte := FindCode(LATIN9_DIFF, cp), FindByte(LATIN9_DIFF, b);
    if byCode.Some? {
      Latin9Entries((byCode.value, cp));
    }
    if byByte.Some? {
      Latin9Entries((b, byByte.value));
    }
  }

  /** A byte decodes to a character exactly when that character encodes to the byte. */
  lemma SingleByteInverse(cs: Charset, b: Byte, cp: nat)
    ensures CodeOf(cs, b) == Some(cp) <==> ByteOf(cs, cp) == Some(b)
    ensures CodeOf(cs, b) == Some(cp) ==> IsScalar(cp)
  {
    if cs.CsWindows1252? {
      Windows1252Inverse(b, cp);
    } else if cs.CsLatin9? {
      Latin9Inverse(b, cp);
    }
  }

  function DecodeSingle(bs: Bytes, cs: Charset): Option<string> {
    if bs == [] then Some([])
    else
      var cp := CodeOf(cs, bs[0]);
      var ch := if cp.Some? then FromScalar(cp.value) else None;
      var rest := DecodeSingle(bs[1..], cs);
      if ch.Some? && rest.Some? then Some([ch.value] + rest.value) else None
  }

  function EncodeSingle(s: string, cs: Charset): Option<Bytes> {
    if s == [] then Some([])
    else
      var b := ByteOf(cs, s[0] as int);
      var rest := EncodeSingle(s[1..], cs);
      if b.Some? && rest.Some? then Some([b.value] + rest.value) else None
  }

  lemma {:induction false} SingleBytesInverse(bs: Bytes, s: string, cs: Charset)
    ensures DecodeSingle(bs, cs) == Some(s) <==> EncodeSingle(s, cs) == Some(bs)
    decreases |bs|
  {
    hide CodeOf, ByteOf;
    if bs != [] && s != [] {
      SingleBytesInverse(bs[1..], s[1..], cs);
      SingleByteInverse(cs, bs[0], s[0] as int);
      FirstCode(cs, bs[0]);
      assert bs == [bs[0]] + bs[1..] && s == [s[0]] + s[1..];
    }
  }

  lemma FirstCode(cs: Charset, b: Byte)
    ensures CodeOf(cs, b).Some? ==> CodeOf(cs, b).value >= 0 && IsScalar(CodeOf(cs, b).value)
  {
    hide Cp1252Index, FindByte, FindCode, Position;
    if cs.CsWindows1252? && 0x80 <= b <= 0x9F {
      Cp1252Entries(b - 0x80);
    } else if cs.CsLatin9? && FindByte(LATIN9_DIFF, b).Some? {
      Latin9Entries((b, FindByte(LATIN9_DIFF, b).value));
    }
  }

  // ----- UTF-16 (sections 2.1 and 2.2 of RFC 2781) -----

  type CodeUnit = u: int | 0 <= u < 0x10000

  predicate HighUnit(u: CodeUnit) {
    0xD800 <= u <= 0xDBFF
  }

  predicate LowUnit(u: CodeUnit) {
    0xDC00 <= u <= 0xDFFF
  }

  /** One character as code units. */
  function UnitsOf(ch: char): seq<CodeUnit> {
    var c := ch as int;
    if c < 0x10000 then [c]
    else [0xD800 + (c - 0x10000) / 1024, 0xDC00 + (c - 0x10000) % 1024]
  }

  function ToUnits(s: string): seq<CodeUnit> {
    if s == [] then [] else UnitsOf(s[0]) + ToUnits(s[1..])
  }

  /** `char::decode_utf16`: `None` on any unpaired surrogate. */
  function FromUnits(us: seq<CodeUnit>): Option<string> {
    if us == [] then Some([])
    else if HighUnit(us[0]) then
      if |us| < 2 || !LowUnit(us[1]) then None
      else
        var rest := FromUnits(us[2..]);
        var c: int := 0x10000 + (us[0] as int - 0xD800) * 1024 + (us[1] as int - 0xDC00);
        if rest.Some? then Some([c as char] + rest.value) else None
    else if LowUnit(us[0]) then None
    else
      var rest := FromUnits(us[1..]);
      if rest.Some? then Some([us[0] as char] + rest.value) else None
  }

  lemma FromUnitsOf(ch: char, rest: seq<CodeUnit>)
    ensures FromUnits(UnitsOf(ch) + rest)
         == if FromUnits(rest).Some? then Some([ch] + FromUnits(rest).value) else None
  {
    var us := UnitsOf(ch) + rest;
    assert us[|UnitsOf(ch)|..] == rest;
  }

  lemma {:induction false} FromToUnits(s: string)
    ensures FromUnits(ToUnits(s)) == Some(s)
  {
    hide UnitsOf, FromUnits;
    if s == [] {
      NoUnits();
    } else {
      FromToUnits(s[1..]);
      FromUnitsOf(s[0], ToUnits(s[1..]));
      assert s == [s[0]] + s[1..];
    }
  }

  lemma NoUnits()
    ensures FromUnits([]) == Some([])
  {
  }

  lemma UnitsCons(ch: char, tail: string)
    ensures ToUnits([ch] + tail) == UnitsOf(ch) + ToUnits(tail)
  {
    assert ([ch] + tail)[1..] == tail;
  }

  lemma {:induction false} ToFromUnits(us: seq<CodeUnit>)
    requires FromUnits(us).Some?
    ensures ToUnits(FromUnits(us).value) == us
    decreases |us|
  {
    if us != [] {
      var n := if HighUnit(us[0]) then 2 else 1;
      ToFromUnits(us[n..]);
      UnitsCons(FromUnits(us).value[0], FromUnits(us[n..]).value);
      assert us == us[..n] + us[n..];
      assert UnitsOf(FromUnits(us).value[0]) == us[..n];
    }
  }

  /** A code unit's two bytes, in either order. */
  function UnitBytes(u: CodeUnit, little: bool): Bytes {
    if little then [u % 256, u / 256] else [u / 256, u % 256]
  }

  function UnitOf(a: Byte, b: Byte, little: bool): CodeUnit {
    if little then b as int * 256 + a else a as int * 256 + b
  }

  function SplitUnits(us: seq<CodeUnit>, little: bool): Bytes {
    if us == [] then [] else UnitBytes(us[0], little) + SplitUnits(us[1..], little)
  }

  function JoinUnits(bs: Bytes, little: bool): seq<CodeUnit>
    requires |bs| % 2 == 0
  {
    if bs == [] then [] else [UnitOf(bs[0], bs[1], little)] + JoinUnits(bs[2..], little)
  }

  lemma {:induction false} JoinSplit(us: seq<CodeUnit>, little: bool)
    ensures |SplitUnits(us, little)| == 2 * |us|
    ensures JoinUnits(SplitUnits(us, little), little) == us
  {
    if us != [] {
      JoinSplit(us[1..], little);
      var bs := SplitUnits(us, little);
      assert bs[2..] == SplitUnits(us[1..], little);
      assert UnitOf(bs[0], bs[1], little) == us[0];
    }
  }

  lemma {:induction false} SplitJoin(bs: Bytes, little: bool)
    requires |bs| % 2 == 0
    ensures SplitUnits(JoinUnits(bs, little), little) == bs
    decreases |bs|
  {
    if bs != [] {
      SplitJoin(bs[2..], little);
      var us := JoinUnits(bs, little);
      assert us[1..] == JoinUnits(bs[2..], little) && UnitBytes(us[0], little) == bs[..2];
      assert bs == bs[..2] + bs[2..];
    }
  }

  function DecodeUtf16(bs: Bytes, little: bool): Option<string> {
    if |bs| % 2 != 0 then None else FromUnits(JoinUnits(bs, little))
  }

  lemma Utf16Inverse(bs: Bytes, s: string, little: bool)
    ensures DecodeUtf16(bs, little) == Some(s) <==> SplitUnits(ToUnits(s), little) == bs
  {
    hide FromUnits, ToUnits, JoinUnits, SplitUnits;
    JoinSplit(ToUnits(s), little);
    FromToUnits(s);
    if |bs| % 2 == 0 {
      SplitJoin(bs, little);
      if FromUnits(JoinUnits(bs, little)).Some? {
        ToFromUnits(JoinUnits(bs, little));
      }
    }
  }

  // ----- The two directions -----

  function Decoded(bs: Bytes, cs: Charset): Option<string> {
    match cs
    case CsUtf8 => Utf8.Decode(bs)
    case CsUtf16Le => DecodeUtf16(bs, true)
    case CsUtf16Be => DecodeUtf16(bs, false)
    case _ => DecodeSingle(bs, cs)
  }

  function Encoded(s: string, cs: Charset): Option<Bytes> {
    match cs
    case CsUtf8 => Some(Utf8.Encode(s))
    case CsUtf16Le => Some(SplitUnits(ToUnits(s), true))
    case CsUtf16Be => Some(SplitUnits(ToUnits(s), false))
    case _ => EncodeSingle(s, cs)
  }

  /** Bytes decode to a text exactly when that text encodes to those bytes, in all seven charsets. */
  lemma PartialInverses(bs: Bytes, s: string, cs: Charset)
    ensures Decoded(bs, cs) == Some(s) <==> Encoded(s, cs) == Some(bs)
  {
    hide Utf8.Decode, Utf8.Encode, DecodeUtf16, SplitUnits, ToUnits, DecodeSingle, EncodeSingle;
    match cs
    case CsUtf8 => ValidIffEncoded(bs, s);
    case CsUtf16Le => Utf16Inverse(bs, s, true);
    case CsUtf16Be => Utf16Inverse(bs, s, false);
    case _ => SingleBytesInverse(bs, s, cs);
  }

  method DecodeBytes(bs: Bytes, cs: Charset) returns (r: Option<string>)
    ensures r == Decoded(bs, cs)
  {
    match cs {
      case CsUtf8 => return Utf8.Decode(bs);
      case CsUtf16Le => return DecodeUtf16(bs, true);
      case CsUtf16Be => return DecodeUtf16(bs, false);
      case _ =>
        hide CodeOf;
        var out: string := [];
        BeforeNothing(DecodeSingle(bs, cs));
        assert bs[0..] == bs;
        for i := 0 to |bs|
          invariant DecodeSingle(bs, cs) == Before(out, DecodeSingle(bs[i..], cs))
        {
          assert bs[i..][0] == bs[i] && bs[i..][1..] == bs[i + 1..];
          var cp := CodeOf(cs, bs[i]);
          if cp.None? {
            return None;
          }
          var ch := FromScalar(cp.value);
          if ch.None? {
            return None;
          }
          BeforeMore(out, ch.value, DecodeSingle(bs[i + 1..], cs));
          out := out + [ch.value];
        }
        assert out + [] == out;
        return Some(out);
    }
  }

  function Before<T>(out: seq<T>, rest: Option<seq<T>>): Option<seq<T>> {
    if rest.Some? then Some(out + rest.value) else None
  }

  lemma BeforeNothing<T>(rest: Option<seq<T>>)
    ensures Before([], rest) == rest
  {
    if rest.Some? {
      assert [] + rest.value == rest.value;
    }
  }

  lemma BeforeMore<T>(out: seq<T>, x: T, rest: Option<seq<T>>)
    ensures Before(out, Before([x], rest)) == Before(out + [x], rest)
  {
    if rest.Some? {
      assert out + ([x] + rest.value) == (out + [x]) + rest.value;
    }
  }

  method EncodeText(s: string, cs: Charset) returns (r: Option<Bytes>)
    ensures r == Encoded(s, cs)
  {
    match cs {
      case CsUtf8 => return Some(Utf8.Encode(s));
      case CsUtf16Le =>
        var out := PushUnits(ToUnits(s), true);
        return Some(out);
      case CsUtf16Be =>
        var out := PushUnits(ToUnits(s), false);
        return Some(out);
      case _ =>
        hide ByteOf;
        var out: Bytes := [];
        BeforeNothing(EncodeSingle(s, cs));
        assert s[0..] == s;
        for i := 0 to |s|
          invariant EncodeSingle(s, cs) == Before(out, EncodeSingle(s[i..], cs))
        {
          assert s[i..][0] == s[i] && s[i..][1..] == s[i + 1..];
          var b := ByteOf(cs, s[i] as int);
          if b.None? {
            return None;
          }
          BeforeMore(out, b.value, EncodeSingle(s[i + 1..], cs));
          out := out + [b.value];
        }
        assert out + [] == out;
        return Some(out);
    }
  }

  method PushUnits(us: seq<CodeUnit>, little: bool) returns (out: Bytes)
    ensures out == SplitUnits(us, little)
  {
    out := [];
    for i := 0 to |us|
      invariant out + SplitUnits(us[i..], little) == SplitUnits(us, little)
    {
      assert us[i..][0] == us[i] && us[i..][1..] == us[i + 1..];
      ghost var tail := SplitUnits(us[i + 1..], little);
      assert (out + UnitBytes(us[i], little)) + tail == out + (UnitBytes(us[i], little) + tail);
      out := out + UnitBytes(us[i], little);
    }
    assert out + [] == out;
  }
}
