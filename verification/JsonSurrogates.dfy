/** The low-surrogate subtraction of src/json.rs:198. The parser's documentation calls it total; a
    build with overflow checks panics on some documents, and every build accepts pairs that are not
    surrogate pairs. */
module JsonSurrogates {
  import opened Utf8
  import opened JsonGrammar
  import opened JsonRoundTrip

  /** What the second escape must be for the pair to be one (section 7 of RFC 8259). */
  predicate IsLow(lo: nat) {
    0xDC00 <= lo <= 0xDFFF
  }

  /** The character code the code computes, whatever follows the high surrogate. */
  function PairCode(cp: nat, lo: nat): int {
    0x10000 + (cp - 0xD800) * 1024 + (lo - 0xDC00)
  }

  /** Exactly what the arithmetic does: a fault below 0xDC00 in a checked build; otherwise the code of
      the formula, with no check that `lo` is a low surrogate, wrapping included. */
  lemma CombineExactly(cp: nat, lo: nat, checks: bool)
    requires IsHigh(cp) && lo < 0x10000
    ensures Combine(cp, lo, checks).Fault? <==> checks && lo < 0xDC00
    ensures IsLow(lo) ==> Combine(cp, lo, checks) == Ok(PairCode(cp, lo) as char, [])
    ensures Combine(cp, lo, checks).Ok? ==> Combine(cp, lo, checks).value as int == PairCode(cp, lo)
    ensures !(checks && lo < 0xDC00) ==> (Combine(cp, lo, checks).Ok? <==> IsScalar(PairCode(cp, lo)))
  {
    var c := PairCode(cp, lo);
    assert 0 < c < WORD;
    if lo >= 0xDC00 {
      assert (lo - 0xDC00) % WORD == lo - 0xDC00 && c % WORD == c;
    } else {
      assert (lo - 0xDC00) % WORD == lo - 0xDC00 + WORD;
      assert (c + WORD) % WORD == c;
    }
  }

  /** An unchecked build reads an escape pair that is no surrogate pair as a character: U+2400 for the
      pair D800, 0000. */
  lemma UncheckedAcceptsNonPair()
    ensures !IsLow(0) && Combine(0xD800, 0, false) == Ok(0x2400 as char, [])
  {
    CombineExactly(0xD800, 0, false);
  }

  // ----- Faulting documents -----

  function HexText(v: nat): string
    requires v < 0x10000
  {
    [HexChar(v / 4096), HexChar(v / 256 % 16), HexChar(v / 16 % 16), HexChar(v % 16)]
  }

  lemma HexTextReads(v: nat, rest: Bytes)
    requires v < 0x10000
    ensures Hex4(Encode(HexText(v)) + rest) == Some(v)
    ensures (Encode(HexText(v)) + rest)[4..] == rest
    ensures |Encode(HexText(v))| == 4
  {
    hide Encode, Hex4, HexDigit;
    AsciiText(HexText(v));
    var s := Encode(HexText(v)) + rest;
    assert |Encode(HexText(v))| == 4;
    HexCharDigit(v / 4096);
    HexCharDigit(v / 256 % 16);
    HexCharDigit(v / 16 % 16);
    HexCharDigit(v % 16);
    Hex4Of(s, v / 4096, v / 256 % 16, v / 16 % 16, v % 16);
    assert v / 256 == v / 4096 * 16 + v / 256 % 16 && v / 16 == v / 256 * 16 + v / 16 % 16;
  }

  lemma HexCharDigit(d: nat)
    requires d < 16
    ensures HexDigit(HexChar(d) as int) == Some(d)
  {
  }

  lemma Hex4Of(s: Bytes, a: nat, b: nat, c: nat, d: nat)
    requires |s| >= 4 && HexDigit(s[0]) == Some(a) && HexDigit(s[1]) == Some(b)
    requires HexDigit(s[2]) == Some(c) && HexDigit(s[3]) == Some(d)
    ensures Hex4(s) == Some(((a * 16 + b) * 16 + c) * 16 + d)
  {
  }

  /** An escape pair in a string's content, before anything at all. */
  function PairBytes(cp: nat, lo: nat): Bytes
    requires cp < 0x10000 && lo < 0x10000
  {
    ['\\' as int, 'u' as int] + Encode(HexText(cp)) + ['\\' as int, 'u' as int] + Encode(HexText(lo))
  }

  lemma PairPiece(cp: nat, lo: nat, rest: Bytes, checks: bool)
    requires IsHigh(cp) && lo < 0x10000
    ensures var s := PairBytes(cp, lo) + rest;
            s != [] && s[0] != '"' as int
            && (Combine(cp, lo, checks).Fault? ==> Piece(s, checks) == Fault)
            && (Combine(cp, lo, checks).Ok? ==> Piece(s, checks) == Ok([Combine(cp, lo, checks).value], rest))
            && (Combine(cp, lo, checks).Reject? ==> Piece(s, checks) == Reject)
  {
    hide Decode, Encode, Hex4, Combine;
    var s := PairBytes(cp, lo) + rest;
    var second := ['\\' as int, 'u' as int] + (Encode(HexText(lo)) + rest);
    HexTextReads(cp, second);
    HexTextReads(lo, rest);
    assert s[0] == '\\' as int && s[1..][0] == 'u' as int;
    assert s[1..][1..] == Encode(HexText(cp)) + second;
    assert second[0] == '\\' as int && second[1] == 'u' as int && second[2..] == Encode(HexText(lo)) + rest;
    assert second[6..] == second[2..][4..];
  }

  /** Escaped text before the rest of a string's content. */
  lemma {:induction false} ContentAfter(t: string, rest: Bytes, checks: bool)
    ensures Content(Encode(Escape(t)) + rest, checks) == Prepend(t, Content(rest, checks))
    decreases |t|
  {
    hide Piece, EscapeChar, Encode, Content, Escape, Extra, Escaped;
    if t == [] {
      NothingBefore(rest, checks);
    } else {
      var head, tail := Encode(EscapeChar(t[0])), Encode(Escape(t[1..])) + rest;
      EscapeBytes(t);
      assert Encode(Escape(t)) + rest == head + tail;
      EscapedChar(t[0], tail, checks);
      ContentStep(head, t[0], tail, checks);
      ContentAfter(t[1..], rest, checks);
      if Content(rest, checks).Ok? {
        assert [t[0]] + (t[1..] + Content(rest, checks).value) == t + Content(rest, checks).value by {
          assert [t[0]] + t[1..] == t;
        }
      }
    }
  }

  lemma NothingBefore(rest: Bytes, checks: bool)
    ensures Content(Encode(Escape([])) + rest, checks) == Prepend([], Content(rest, checks))
  {
    hide Content, Piece;
    assert Encode(Escape([])) + rest == rest;
    if Content(rest, checks).Ok? {
      assert [] + Content(rest, checks).value == Content(rest, checks).value;
    }
  }

  /** A document that opens a string with any text and then an escape pair faults exactly when the build
      checks arithmetic and the second half is below 0xDC00, whatever comes after; otherwise what comes
      after decides, once the pair is a character. */
  lemma StringWithPair(t: string, cp: nat, lo: nat, rest: Bytes, checks: bool)
    requires IsHigh(cp) && lo < 0x10000
    ensures checks && lo < 0xDC00 ==>
              Document(['"' as int] + (Encode(Escape(t)) + (PairBytes(cp, lo) + rest)), checks) == Fault
    ensures !(checks && lo < 0xDC00) && IsScalar(PairCode(cp, lo)) ==>
              Document(['"' as int] + (Encode(Escape(t)) + (PairBytes(cp, lo) + (['"' as int] + rest))), checks)
              == if SkipWs(rest) == [] then Ok(Str(t + [PairCode(cp, lo) as char]), []) else Reject
  {
    hide Piece, Encode, Escape, Content, PairBytes, Combine, Members, Items, Number;
    CombineExactly(cp, lo, checks);
    PairEnds(t, cp, lo, rest, checks);
    PairEnds(t, cp, lo, ['"' as int] + rest, checks);
    QuoteEnds(rest, checks);
    if Combine(cp, lo, checks).Ok? {
      assert Combine(cp, lo, checks).value == PairCode(cp, lo) as char;
      assert (t + [PairCode(cp, lo) as char]) + [] == t + [PairCode(cp, lo) as char];
    }
    StringDocument(Encode(Escape(t)) + (PairBytes(cp, lo) + rest), checks);
    StringDocument(Encode(Escape(t)) + (PairBytes(cp, lo) + (['"' as int] + rest)), checks);
  }

  lemma QuoteEnds(rest: Bytes, checks: bool)
    ensures Content(['"' as int] + rest, checks) == Ok([], rest)
  {
    hide Piece;
    assert (['"' as int] + rest)[1..] == rest;
  }

  lemma PairEnds(t: string, cp: nat, lo: nat, rest: Bytes, checks: bool)
    requires IsHigh(cp) && lo < 0x10000
    ensures Combine(cp, lo, checks).Fault? ==> Content(Encode(Escape(t)) + (PairBytes(cp, lo) + rest), checks) == Fault
    ensures Combine(cp, lo, checks).Ok? ==>
              Content(Encode(Escape(t)) + (PairBytes(cp, lo) + rest), checks)
              == Prepend(t + [Combine(cp, lo, checks).value], Content(rest, checks))
  {
    hide Encode, Escape, PairBytes, Combine, Piece, Content;
    ContentAfter(t, PairBytes(cp, lo) + rest, checks);
    PairPiece(cp, lo, rest, checks);
    ContentOnePiece(PairBytes(cp, lo) + rest, checks);
    if Combine(cp, lo, checks).Ok? && Content(rest, checks).Ok? {
      assert t + ([Combine(cp, lo, checks).value] + Content(rest, checks).value)
          == (t + [Combine(cp, lo, checks).value]) + Content(rest, checks).value;
    }
  }

  lemma ContentOnePiece(s: Bytes, checks: bool)
    requires s != [] && s[0] != '"' as int
    ensures Piece(s, checks) == Fault ==> Content(s, checks) == Fault
    ensures Piece(s, checks).Ok? ==> Content(s, checks) == Prepend(Piece(s, checks).value, Content(Piece(s, checks).rest, checks))
  {
    hide Piece;
  }

  lemma StringDocument(content: Bytes, checks: bool)
    ensures Document(['"' as int] + content, checks)
         == match Content(content, checks)
            case Ok(t, rest) => if SkipWs(rest) == [] then Ok(Str(t), []) else Reject
            case Reject => Reject
            case Fault => Fault
  {
    hide Content, Members, Items, Number;
    assert (['"' as int] + content)[1..] == content;
  }

  // ----- Documents that cannot fault -----

  /** At `i` stands an escape pair whose second half is below 0xDC00. */
  predicate BadPairAt(s: Bytes, i: nat) {
    && i + 12 <= |s|
    && s[i] == '\\' as int && s[i + 1] == 'u' as int
    && Hex4(s[i + 2..]).Some? && IsHigh(Hex4(s[i + 2..]).value)
    && s[i + 6] == '\\' as int && s[i + 7] == 'u' as int
    && Hex4(s[i + 8..]).Some? && Hex4(s[i + 8..]).value < 0xDC00
  }

  /** No such pair anywhere in the bytes: what a caller can check without parsing. */
  predicate Clean(s: Bytes) {
    forall i: nat :: i < |s| ==> !BadPairAt(s, i)
  }

  /** A step that cannot fault and leaves clean bytes. */
  predicate Safe<T>(r: Res<T>) {
    !r.Fault? && (r.Ok? ==> Clean(r.rest))
  }

  lemma CleanDrop(s: Bytes, k: nat)
    requires Clean(s) && k <= |s|
    ensures Clean(s[k..])
  {
    hide Hex4;
    forall i: nat | i < |s[k..]| ensures BadPairAt(s[k..], i) ==> BadPairAt(s, k + i) {
      if i + 12 <= |s[k..]| {
        assert s[k..][i + 2..] == s[k + i + 2..] && s[k..][i + 8..] == s[k + i + 8..];
      }
    }
  }

  lemma {:induction false} SkipWsClean(s: Bytes)
    requires Clean(s)
    ensures Clean(SkipWs(s))
  {
    hide BadPairAt;
    if s != [] && IsWs(s[0]) {
      CleanDrop(s, 1);
      SkipWsClean(s[1..]);
    }
  }

  lemma EscapedSafe(s: Bytes, checks: bool)
    requires s != [] && s[0] == '\\' as int && Clean(s)
    ensures Safe(Escaped(s[1..], checks))
  {
    hide Clean, Hex4, Combine;
    var e := s[1..];
    CleanDrop(s, 1);
    if e != [] {
      CleanDrop(e, 1);
      if e[0] == 'u' as int {
        UnicodeEscapeSafe(s, checks);
      }
    }
  }

  lemma UnicodeEscapeSafe(s: Bytes, checks: bool)
    requires |s| >= 2 && s[0] == '\\' as int && s[1] == 'u' as int && Clean(s)
    ensures Safe(UnicodeEscape(s[1..][1..], checks))
  {
    hide Hex4, Combine;
    var d := s[2..];
    assert s[1..][1..] == d;
    if Hex4(d).Some? {
      CleanDrop(s, 6);
      assert d[4..] == s[6..];
      if IsHigh(Hex4(d).value) {
        var t := d[4..];
        if |t| >= 2 && t[0] == '\\' as int && t[1] == 'u' as int && Hex4(t[2..]).Some? {
          assert t[2..] == s[8..] && t[6..] == s[12..];
          CleanDrop(s, 12);
          assert !BadPairAt(s, 0);
          assert s[0 + 2..] == d && s[0 + 8..] == t[2..];
          CombineExactly(Hex4(d).value, Hex4(t[2..]).value, checks);
        }
      }
    }
  }

  lemma PieceSafe(s: Bytes, checks: bool)
    requires s != [] && s[0] != '"' as int && Clean(s)
    ensures Safe(Piece(s, checks))
  {
    hide Clean, Escaped, Decode;
    if s[0] == '\\' as int {
      EscapedSafe(s, checks);
    } else {
      CleanDrop(s, 1);
      if s[0] >= 0x80 && Extra(s[0]).Some? && |s| >= Extra(s[0]).value + 1 {
        CleanDrop(s, Extra(s[0]).value + 1);
      }
    }
  }

  lemma {:induction false} ContentSafe(s: Bytes, checks: bool)
    requires Clean(s)
    ensures Safe(Content(s, checks))
    decreases |s|
  {
    hide Clean, Piece;
    if s != [] {
      CleanDrop(s, 1);
      if s[0] != '"' as int {
        PieceSafe(s, checks);
        if Piece(s, checks).Ok? {
          ContentSafe(Piece(s, checks).rest, checks);
        }
      }
    }
  }

  lemma ScalarSafe(s: Bytes)
    requires Clean(s)
    ensures Safe(Number(s)) && Safe(Keyword(s))
  {
    hide Clean, ParseReal;
    CleanDrop(s, NumberLength(s));
    if |s| >= 4 { CleanDrop(s, 4); }
    if |s| >= 5 { CleanDrop(s, 5); }
  }

  lemma {:induction false} ValueSafe(s: Bytes, depth: nat, checks: bool)
    requires Clean(s) && depth < MAX_JSON_DEPTH
    ensures Safe(Value(s, depth, checks))
    decreases |s|, 1
  {
    hide Clean, Content, Number, Keyword, ArrayAfterOpen, ObjectAfterOpen, Nest;
    if s != [] {
      CleanDrop(s, 1);
      ScalarSafe(s);
      ContentSafe(s[1..], checks);
      if depth + 1 < MAX_JSON_DEPTH {
        ArraySafe(s[1..], depth + 1, checks);
        ObjectSafe(s[1..], depth + 1, checks);
      }
    }
  }

  lemma {:induction false} ArraySafe(s: Bytes, depth: nat, checks: bool)
    requires Clean(s) && 0 < depth < MAX_JSON_DEPTH
    ensures Safe(ArrayAfterOpen(s, depth, checks))
    decreases |s|, 4
  {
    hide Clean, Items, SkipWs, Nest;
    SkipWsClean(s);
    var t := SkipWs(s);
    if t != [] { CleanDrop(t, 1); }
    ItemsSafe(t, depth, checks);
  }

  lemma {:induction false} ItemsSafe(s: Bytes, depth: nat, checks: bool)
    requires Clean(s) && depth < MAX_JSON_DEPTH
    ensures Safe(Items(s, depth, checks))
    decreases |s|, 2
  {
    hide Clean, Value, SkipWs, Nest;
    SkipWsClean(s);
    ValueSafe(SkipWs(s), depth, checks);
    var v := Value(SkipWs(s), depth, checks);
    if v.Ok? {
      SkipWsClean(v.rest);
      var t := SkipWs(v.rest);
      if t != [] {
        CleanDrop(t, 1);
        ItemsSafe(t[1..], depth, checks);
      }
    }
  }

  lemma {:induction false} ObjectSafe(s: Bytes, depth: nat, checks: bool)
    requires Clean(s) && 0 < depth < MAX_JSON_DEPTH
    ensures Safe(ObjectAfterOpen(s, depth, checks))
    decreases |s|, 4
  {
    hide Clean, Members, SkipWs, Nest;
    SkipWsClean(s);
    var t := SkipWs(s);
    if t != [] { CleanDrop(t, 1); }
    MembersSafe(t, depth, checks);
  }

  lemma {:induction false} OneMemberSafe(s: Bytes, depth: nat, checks: bool)
    requires Clean(s) && depth < MAX_JSON_DEPTH
    ensures Safe(OneMember(s, depth, checks))
    decreases |s|, 2
  {
    hide Clean, Value, Content, SkipWs, Nest;
    SkipWsClean(s);
    var k := SkipWs(s);
    if k != [] && k[0] == '"' as int {
      CleanDrop(k, 1);
      ContentSafe(k[1..], checks);
      var key := Content(k[1..], checks);
      if key.Ok? {
        SkipWsClean(key.rest);
        var colon := SkipWs(key.rest);
        if colon != [] {
          CleanDrop(colon, 1);
          SkipWsClean(colon[1..]);
          ValueSafe(SkipWs(colon[1..]), depth, checks);
        }
      }
    }
  }

  lemma {:induction false} MembersSafe(s: Bytes, depth: nat, checks: bool)
    requires Clean(s) && depth < MAX_JSON_DEPTH
    ensures Safe(Members(s, depth, checks))
    decreases |s|, 3
  {
    hide Clean, OneMember, SkipWs, Nest;
    OneMemberSafe(s, depth, checks);
    var m := OneMember(s, depth, checks);
    if m.Ok? {
      SkipWsClean(m.rest);
      var t := SkipWs(m.rest);
      if t != [] {
        CleanDrop(t, 1);
        MembersSafe(t[1..], depth, checks);
      }
    }
  }

  /** A document without such a pair never faults in any build, and nothing faults in an unchecked one. */
  lemma CleanNeverFaults(s: Bytes, checks: bool)
    requires Clean(s) || !checks
    ensures !Document(s, checks).Fault?
  {
    hide Clean, Value, SkipWs;
    if checks {
      SkipWsClean(s);
      ValueSafe(SkipWs(s), 0, checks);
    }
  }
}
