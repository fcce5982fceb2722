/** Exactly which documents make a build with overflow checks fault: those in which the parser reads, as an
    escape of a string, a high surrogate followed by an escape below U+DC00. */
module JsonFaults {
  import opened Utf8
  import opened JsonGrammar
  import opened JsonSurrogates

  // ----- Where escapes are read -----

  /** The rest of the input at each escape read in a string's content. */
  function ContentEscapes(s: Bytes): seq<Bytes>
    decreases |s|
  {
    if s == [] || s[0] == '"' as int then []
    else
      var here := if s[0] == '\\' as int then [s] else [];
      var piece := Piece(s, false);
      if piece.Ok? then here + ContentEscapes(piece.rest) else here
  }

  function ValueEscapes(s: Bytes, depth: nat): seq<Bytes>
    requires depth < MAX_JSON_DEPTH
    decreases |s|, 1
  {
    if s == [] then []
    else if s[0] == '{' as int then if depth + 1 >= MAX_JSON_DEPTH then [] else ObjectEscapes(s[1..], depth + 1)
    else if s[0] == '[' as int then if depth + 1 >= MAX_JSON_DEPTH then [] else ArrayEscapes(s[1..], depth + 1)
    else if s[0] == '"' as int then ContentEscapes(s[1..])
    else []
  }

  function ArrayEscapes(s: Bytes, depth: nat): seq<Bytes>
    requires 0 < depth < MAX_JSON_DEPTH
    decreases |s|, 4
  {
    var t := SkipWs(s);
    if t != [] && t[0] == ']' as int then [] else ItemsEscapes(t, depth)
  }

  function ObjectEscapes(s: Bytes, depth: nat): seq<Bytes>
    requires 0 < depth < MAX_JSON_DEPTH
    decreases |s|, 4
  {
    var t := SkipWs(s);
    if t != [] && t[0] == '}' as int then [] else MembersEscapes(t, depth)
  }

  function ItemsEscapes(s: Bytes, depth: nat): seq<Bytes>
    requires depth < MAX_JSON_DEPTH
    decreases |s|, 2
  {
    var v := Value(SkipWs(s), depth, false);
    ValueEscapes(SkipWs(s), depth)
    + if !v.Ok? then []
      else
        var t := SkipWs(v.rest);
        if t != [] && t[0] == ',' as int then ItemsEscapes(t[1..], depth) else []
  }

  function MemberEscapes(s: Bytes, depth: nat): seq<Bytes>
    requires depth < MAX_JSON_DEPTH
    decreases |s|, 2
  {
    var k := SkipWs(s);
    if k == [] || k[0] != '"' as int then []
    else
      var key := Content(k[1..], false);
      ContentEscapes(k[1..])
      + if !key.Ok? then []
        else
          var colon := SkipWs(key.rest);
          if colon != [] && colon[0] == ':' as int then ValueEscapes(SkipWs(colon[1..]), depth) else []
  }

  function MembersEscapes(s: Bytes, depth: nat): seq<Bytes>
    requires depth < MAX_JSON_DEPTH
    decreases |s|, 3
  {
    var m := OneMember(s, depth, false);
    MemberEscapes(s, depth)
    + if !m.Ok? then []
      else
        var t := SkipWs(m.rest);
        if t != [] && t[0] == ',' as int then MembersEscapes(t[1..], depth) else []
  }

  function DocumentEscapes(s: Bytes): seq<Bytes> {
    ValueEscapes(SkipWs(s), 0)
  }

  // ----- The two builds differ exactly there -----

  /** One of these escapes is a high surrogate followed by an escape below U+DC00. */
  predicate Bad(escapes: seq<Bytes>) {
    exists t :: t in escapes && BadPairAt(t, 0)
  }

  lemma BadConcat(a: seq<Bytes>, b: seq<Bytes>)
    ensures Bad(a + b) <==> Bad(a) || Bad(b)
  {
    hide BadPairAt;
    if t :| t in a && BadPairAt(t, 0) { assert t in a + b; }
    if t :| t in b && BadPairAt(t, 0) { assert t in a + b; }
  }

  lemma BadOne(s: Bytes)
    ensures Bad([s]) <==> BadPairAt(s, 0)
  {
    hide BadPairAt;
    assert s in [s];
  }

  /** The checked result faults exactly when `bad`, and is the unchecked one otherwise. */
  predicate Tells<T(==)>(checked: Res<T>, unchecked: Res<T>, bad: bool) {
    if bad then checked.Fault? else checked == unchecked && !checked.Fault?
  }

  lemma EscapeTells(s: Bytes)
    requires s != [] && s[0] == '\\' as int
    ensures Tells(Escaped(s[1..], true), Escaped(s[1..], false), BadPairAt(s, 0))
  {
    hide Hex4, UnicodeEscape;
    var e := s[1..];
    assert e != [] ==> e[0] == s[1];
    if e != [] && e[0] == 'u' as int {
      assert e[1..] == s[2..];
      UnicodeTells(s);
    }
  }

  lemma UnicodeTells(s: Bytes)
    requires |s| >= 2 && s[0] == '\\' as int && s[1] == 'u' as int
    ensures Tells(UnicodeEscape(s[2..], true), UnicodeEscape(s[2..], false), BadPairAt(s, 0))
  {
    hide Hex4, Combine;
    var d := s[2..];
    assert s[0 + 2..] == d;
    if Hex4(d).Some? && IsHigh(Hex4(d).value) {
      var t := d[4..];
      assert |t| >= 2 ==> t[0] == s[6] && t[1] == s[7] && t[2..] == s[0 + 8..];
      if |t| >= 2 && Hex4(t[2..]).Some? {
        CombineExactly(Hex4(d).value, Hex4(t[2..]).value, true);
        if Hex4(t[2..]).value >= 0xDC00 { CombineAgrees(Hex4(d).value, Hex4(t[2..]).value); }
      }
    }
  }

  lemma CombineAgrees(cp: nat, lo: nat)
    requires IsHigh(cp) && 0xDC00 <= lo < 0x10000
    ensures Combine(cp, lo, true) == Combine(cp, lo, false)
  {
  }

  lemma {:induction false} ContentTells(s: Bytes)
    ensures Tells(Content(s, true), Content(s, false), Bad(ContentEscapes(s)))
    decreases |s|
  {
    hide Piece, BadPairAt, Bad;
    if s != [] && s[0] != '"' as int {
      var here := if s[0] == '\\' as int then [s] else [];
      PieceTells(s);
      var piece := Piece(s, false);
      if piece.Ok? {
        ContentTells(piece.rest);
        BadConcat(here, ContentEscapes(piece.rest));
      }
    } else {
      NoneBad();
    }
  }

  lemma NoneBad()
    ensures !Bad([])
  {
  }

  lemma PieceTells(s: Bytes)
    requires s != [] && s[0] != '"' as int
    ensures Tells(Piece(s, true), Piece(s, false), Bad(if s[0] == '\\' as int then [s] else []))
  {
    hide BadPairAt, Bad, Escaped, Decode, Extra;
    NoneBad();
    BadOne(s);
    if s[0] == '\\' as int { EscapeTells(s); }
  }

  lemma {:induction false} ValueTells(s: Bytes, depth: nat)
    requires depth < MAX_JSON_DEPTH
    ensures Tells(Value(s, depth, true), Value(s, depth, false), Bad(ValueEscapes(s, depth)))
    decreases |s|, 1
  {
    hide Bad, Content, ContentEscapes, Number, Keyword, ArrayAfterOpen, ObjectAfterOpen, ArrayEscapes, ObjectEscapes;
    hide Nest;
    NoneBad();
    if s != [] {
      NeverFaults(s);
      ContentTells(s[1..]);
      if depth + 1 < MAX_JSON_DEPTH {
        ArrayTells(s[1..], depth + 1);
        ObjectTells(s[1..], depth + 1);
      }
    }
  }

  lemma NeverFaults(s: Bytes)
    ensures !Number(s).Fault? && !Keyword(s).Fault?
  {
    hide ParseReal;
  }

  lemma {:induction false} ArrayTells(s: Bytes, depth: nat)
    requires 0 < depth < MAX_JSON_DEPTH
    ensures Tells(ArrayAfterOpen(s, depth, true), ArrayAfterOpen(s, depth, false), Bad(ArrayEscapes(s, depth)))
    decreases |s|, 4
  {
    hide Bad, Items, ItemsEscapes, Nest;
    NoneBad();
    ItemsTells(SkipWs(s), depth);
  }

  lemma {:induction false} ObjectTells(s: Bytes, depth: nat)
    requires 0 < depth < MAX_JSON_DEPTH
    ensures Tells(ObjectAfterOpen(s, depth, true), ObjectAfterOpen(s, depth, false), Bad(ObjectEscapes(s, depth)))
    decreases |s|, 4
  {
    hide Bad, Members, MembersEscapes, Nest;
    NoneBad();
    MembersTells(SkipWs(s), depth);
  }

  lemma {:induction false} ItemsTells(s: Bytes, depth: nat)
    requires depth < MAX_JSON_DEPTH
    ensures Tells(Items(s, depth, true), Items(s, depth, false), Bad(ItemsEscapes(s, depth)))
    decreases |s|, 2
  {
    hide Bad, Value, ValueEscapes, SkipWs, Nest;
    NoneBad();
    ValueTells(SkipWs(s), depth);
    var v := Value(SkipWs(s), depth, false);
    if v.Ok? {
      var t := SkipWs(v.rest);
      if t != [] && t[0] == ',' as int {
        ItemsTells(t[1..], depth);
        BadConcat(ValueEscapes(SkipWs(s), depth), ItemsEscapes(t[1..], depth));
      }
    }
    BadConcat(ValueEscapes(SkipWs(s), depth), []);
  }

  lemma {:induction false} MemberTells(s: Bytes, depth: nat)
    requires depth < MAX_JSON_DEPTH
    ensures Tells(OneMember(s, depth, true), OneMember(s, depth, false), Bad(MemberEscapes(s, depth)))
    decreases |s|, 2
  {
    hide Bad, Value, ValueEscapes, Content, ContentEscapes, SkipWs, Nest;
    NoneBad();
    var k := SkipWs(s);
    if k != [] && k[0] == '"' as int {
      ContentTells(k[1..]);
      var key := Content(k[1..], false);
      if key.Ok? {
        var colon := SkipWs(key.rest);
        if colon != [] && colon[0] == ':' as int {
          ValueTells(SkipWs(colon[1..]), depth);
          BadConcat(ContentEscapes(k[1..]), ValueEscapes(SkipWs(colon[1..]), depth));
        }
      }
      BadConcat(ContentEscapes(k[1..]), []);
    }
  }

  lemma {:induction false} MembersTells(s: Bytes, depth: nat)
    requires depth < MAX_JSON_DEPTH
    ensures Tells(Members(s, depth, true), Members(s, depth, false), Bad(MembersEscapes(s, depth)))
    decreases |s|, 3
  {
    hide Bad, OneMember, MemberEscapes, SkipWs, Nest;
    NoneBad();
    MemberTells(s, depth);
    var m := OneMember(s, depth, false);
    if m.Ok? {
      var t := SkipWs(m.rest);
      if t != [] && t[0] == ',' as int {
        MembersTells(t[1..], depth);
        BadConcat(MemberEscapes(s, depth), MembersEscapes(t[1..], depth));
      }
    }
    BadConcat(MemberEscapes(s, depth), []);
  }

  /** A checked build faults on a document if and only if such a pair is read as an escape in it; on every
      other document the two builds agree. An unchecked build never faults. */
  lemma DocumentFaultsIff(s: Bytes)
    ensures Document(s, true).Fault? <==> Bad(DocumentEscapes(s))
    ensures !Bad(DocumentEscapes(s)) ==> Document(s, true) == Document(s, false)
    ensures !Document(s, false).Fault?
  {
    hide Bad, Value, ValueEscapes, SkipWs;
    ValueTells(SkipWs(s), 0);
  }
}
