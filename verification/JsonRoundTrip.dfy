/** Printing and parsing back: `json_escape` and the documents built from it (src/diagnostic.rs), read
    by the parser of src/json.rs. */
module JsonRoundTrip {
  import opened Utf8
  import opened JsonGrammar

  // ----- Escaping (section 7 of RFC 8259) -----

  function HexChar(d: nat): char
    requires d < 16
  {
    if d < 10 then '0' + d as char else 'a' + (d - 10) as char
  }

  function EscapeChar(c: char): string {
    if c == '"' then "\\\""
    else if c == '\\' then "\\\\"
    else if c == '\n' then "\\n"
    else if c == '\r' then "\\r"
    else if c == '\t' then "\\t"
    else if c as int < 0x20 then "\\u00" + [HexChar(c as int / 16), HexChar(c as int % 16)]
    else [c]
  }

  function Escape(s: string): string {
    if s == [] then [] else EscapeChar(s[0]) + Escape(s[1..])
  }

  method JsonEscape(s: string) returns (out: string)
    ensures out == Escape(s)
  {
    hide EscapeChar;
    out := [];
    for i := 0 to |s|
      invariant out + Escape(s[i..]) == Escape(s)
    {
      assert s[i..][1..] == s[i + 1..] && s[i..][0] == s[i];
      ghost var tail := Escape(s[i + 1..]);
      var e := EscapeChar(s[i]);
      assert (out + e) + tail == out + (e + tail);
      out := out + e;
    }
    assert out + [] == out;
  }

  lemma AsciiChar(c: char)
    requires c as int < 0x80
    ensures Encode([c]) == [c as int]
  {
    assert Encode([c]) == EncodeChar(c) + Encode([]);
  }

  lemma AsciiCons(c: char, rest: string)
    requires c as int < 0x80
    ensures Encode([c] + rest) == [c as int] + Encode(rest)
  {
    EncodeCons(c, rest);
  }

  /** An escaped character followed by anything is read as one piece: that character. */
  lemma EscapedChar(c: char, rest: Bytes, checks: bool)
    ensures var s := Encode(EscapeChar(c)) + rest;
            s != [] && s[0] != '"' as int && Piece(s, checks) == Ok([c], rest)
  {
    var s := Encode(EscapeChar(c)) + rest;
    if c in "\"\\\n\r\t" {
      ShorthandChar(c, rest, checks);
    } else if c as int < 0x20 {
      ControlChar(c, rest, checks);
    } else if c as int < 0x80 {
      AsciiChar(c);
      assert s == [c as int] + rest && s[1..] == rest;
    } else {
      WideChar(c, rest, checks);
    }
  }

  lemma ShorthandChar(c: char, rest: Bytes, checks: bool)
    requires c in "\"\\\n\r\t"
    ensures var s := Encode(EscapeChar(c)) + rest;
            s != [] && s[0] != '"' as int && Piece(s, checks) == Ok([c], rest)
  {
    hide Decode, UnicodeEscape;
    var e := EscapeChar(c);
    assert |e| == 2 && e[0] == '\\' && e == [e[0]] + [e[1]];
    AsciiCons(e[0], [e[1]]);
    AsciiChar(e[1]);
    var s := Encode(e) + rest;
    assert s[0] == '\\' as int && s[1..] == [e[1] as int] + rest && s[1..][1..] == rest;
  }

  lemma ControlChar(c: char, rest: Bytes, checks: bool)
    requires c as int < 0x20 && c !in "\n\r\t"
    ensures var s := Encode(EscapeChar(c)) + rest;
            s != [] && s[0] != '"' as int && Piece(s, checks) == Ok([c], rest)
  {
    hide Decode, Encode, Hex4, HexDigit;
    ControlBytes(c);
    var digits: Bytes := ['0' as int, '0' as int, HexChar(c as int / 16) as int, HexChar(c as int % 16) as int];
    var s := Encode(EscapeChar(c)) + rest;
    assert s[0] == '\\' as int && s[1] == 'u' as int && s[1..][1..] == digits + rest;
    HexOfControl(c, digits + rest);
    assert (digits + rest)[4..] == rest;
  }

  lemma ControlBytes(c: char)
    requires c as int < 0x20 && c !in "\n\r\t"
    ensures Encode(EscapeChar(c)) == ['\\' as int, 'u' as int, '0' as int, '0' as int,
                                      HexChar(c as int / 16) as int, HexChar(c as int % 16) as int]
  {
    hide Encode;
    AsciiText(EscapeChar(c));
  }

  lemma {:induction false} AsciiText(s: string)
    requires forall i :: 0 <= i < |s| ==> s[i] as int < 0x80
    ensures |Encode(s)| == |s| && forall i :: 0 <= i < |s| ==> Encode(s)[i] == s[i] as int
  {
    if s != [] {
      AsciiText(s[1..]);
    }
  }

  lemma HexOfControl(c: char, s: Bytes)
    requires c as int < 0x20 && |s| >= 4 && s[0] == s[1] == '0' as int
    requires s[2] == HexChar(c as int / 16) as int && s[3] == HexChar(c as int % 16) as int
    ensures Hex4(s) == Some(c as int)
  {
    assert HexDigit(s[2]) == Some(c as int / 16) && HexDigit(s[3]) == Some(c as int % 16);
  }

  lemma WideChar(c: char, rest: Bytes, checks: bool)
    requires c as int >= 0x80
    ensures var s := Encode(EscapeChar(c)) + rest;
            s != [] && s[0] != '"' as int && Piece(s, checks) == Ok([c], rest)
  {
    hide EncodeChar, Decode;
    EncodeCons(c, []);
    assert [c] + [] == [c] && Encode([c]) == EncodeChar(c);
    var bytes := EncodeChar(c);
    var s := bytes + rest;
    assert s[0] == bytes[0] && Extra(s[0]) == Some(|bytes| - 1);
    assert s[..|bytes|] == bytes && s[|bytes|..] == rest;
    DecodeEncoded([c]);
  }

  lemma EscapeBytes(t: string)
    requires t != []
    ensures Encode(Escape(t)) == Encode(EscapeChar(t[0])) + Encode(Escape(t[1..]))
  {
    hide Encode, EscapeChar;
    EncodeConcat(EscapeChar(t[0]), Escape(t[1..]));
  }

  lemma ContentStep(head: Bytes, c: char, tail: Bytes, checks: bool)
    requires var s := head + tail; s != [] && s[0] != '"' as int && Piece(s, checks) == Ok([c], tail)
    ensures Content(head + tail, checks) == Prepend([c], Content(tail, checks))
  {
    hide Piece;
  }

  /** Escaping any text and reading it back as a string's content is the identity. */
  lemma {:induction false} ContentOfEscaped(t: string, rest: Bytes, checks: bool)
    ensures Content(Encode(Escape(t)) + (['"' as int] + rest), checks) == Ok(t, rest)
    decreases |t|
  {
    hide Piece, EscapeChar, Encode, Content, Escape, Extra, Escaped;
    var end := ['"' as int] + rest;
    if t == [] {
      ContentEnds(rest, checks);
    } else {
      var head, tail := Encode(EscapeChar(t[0])), Encode(Escape(t[1..])) + end;
      EscapeBytes(t);
      assert Encode(Escape(t)) + end == head + tail;
      EscapedChar(t[0], tail, checks);
      ContentStep(head, t[0], tail, checks);
      ContentOfEscaped(t[1..], rest, checks);
      assert [t[0]] + t[1..] == t;
    }
  }

  lemma ContentEnds(rest: Bytes, checks: bool)
    ensures Content(Encode(Escape([])) + (['"' as int] + rest), checks) == Ok([], rest)
  {
    hide Piece;
    var end := ['"' as int] + rest;
    assert Encode(Escape([])) + end == end && end[1..] == rest;
  }

  // ----- Numbers -----

  /** Decimal digits, as `{}` prints an unsigned integer. */
  function Decimal(n: nat): string {
    if n < 10 then ['0' + n as char] else Decimal(n / 10) + ['0' + (n % 10) as char]
  }

  lemma {:induction false} DecimalDigits(n: nat)
    ensures var d := Encode(Decimal(n));
            d != [] && (forall i :: 0 <= i < |d| ==> IsDigit(d[i])) && DigitsValue(d) == n
  {
    var last := '0' + (n % 10) as char;
    AsciiChar(last);
    if n < 10 {
      assert Encode(Decimal(n)) == [last as int];
      assert Encode(Decimal(n))[..0] == [];
    } else {
      DecimalDigits(n / 10);
      EncodeConcat(Decimal(n / 10), [last]);
      var d := Encode(Decimal(n));
      assert d == Encode(Decimal(n / 10)) + [last as int];
      assert d[..|d| - 1] == Encode(Decimal(n / 10)) && d[|d| - 1] == last as int;
    }
  }

  lemma {:induction false} AllDigits(d: Bytes)
    requires forall i :: 0 <= i < |d| ==> IsDigit(d[i])
    ensures DigitCount(d) == |d|
  {
    if d != [] {
      AllDigits(d[1..]);
    }
  }

  /** The byte after a number ends it. */
  predicate Ends(rest: Bytes) {
    rest == [] || !IsNumberByte(rest[0])
  }

  lemma {:induction false} DigitsThenEnd(d: Bytes, rest: Bytes)
    requires (forall i :: 0 <= i < |d| ==> IsDigit(d[i])) && Ends(rest)
    ensures NumberLength(d + rest) == |d|
  {
    if d == [] {
      assert d + rest == rest;
    } else {
      assert (d + rest)[1..] == d[1..] + rest;
      DigitsThenEnd(d[1..], rest);
    }
  }

  lemma RealOfDecimal(n: nat)
    ensures ParseReal(Encode(Decimal(n))) == Some(n as real)
  {
    var d := Encode(Decimal(n));
    DecimalDigits(n);
    AllDigits(d);
    assert !IsSign(d[0]);
    assert d[..|d|] + [] == d && d[|d|..] == [];
    assert Power10(0) == 1.0;
  }

  lemma NumberOfDecimal(n: nat, rest: Bytes)
    requires Ends(rest)
    ensures Number(Encode(Decimal(n)) + rest) == Ok(Num(n as real), rest)
  {
    var d := Encode(Decimal(n));
    DecimalDigits(n);
    DigitsThenEnd(d, rest);
    RealOfDecimal(n);
    assert (d + rest)[..|d|] == d && (d + rest)[|d|..] == rest;
  }

  // ----- Documents -----

  /** What the printers of this repository put into JSON. */
  datatype Doc =
    | DNull
    | DNum(n: nat)
    | DStr(s: string)
    | DArr(items: seq<Doc>)
    | DObj(fields: seq<DField>)

  datatype DField = DField(key: string, val: Doc)

  function ToJson(d: Doc): Json {
    match d
    case DNull => Null
    case DNum(n) => Num(n as real)
    case DStr(s) => Str(s)
    case DArr(items) => Arr(ToItems(items))
    case DObj(fields) => Obj(ToMembers(fields))
  }

  function ToItems(items: seq<Doc>): seq<Json> {
    if items == [] then [] else [ToJson(items[0])] + ToItems(items[1..])
  }

  function ToMember(f: DField): Member {
    Member(f.key, ToJson(f.val))
  }

  function ToMembers(fields: seq<DField>): seq<Member> {
    if fields == [] then [] else [ToMember(fields[0])] + ToMembers(fields[1..])
  }

  function Quoted(s: string): string {
    "\"" + Escape(s) + "\""
  }

  function Print(d: Doc): string {
    match d
    case DNull => "null"
    case DNum(n) => Decimal(n)
    case DStr(s) => Quoted(s)
    case DArr(items) => "[" + PrintItems(items) + "]"
    case DObj(fields) => "{" + PrintFields(fields) + "}"
  }

  function PrintItems(items: seq<Doc>): string {
    if items == [] then []
    else if |items| == 1 then Print(items[0])
    else Print(items[0]) + "," + PrintItems(items[1..])
  }

  function PrintField(f: DField): string {
    Quoted(f.key) + ":" + Print(f.val)
  }

  function PrintFields(fields: seq<DField>): string {
    if fields == [] then []
    else if |fields| == 1 then PrintField(fields[0])
    else PrintField(fields[0]) + "," + PrintFields(fields[1..])
  }

  lemma EncodeThree(a: string, b: string, c: string)
    ensures Encode(a + b + c) == Encode(a) + Encode(b) + Encode(c)
  {
    EncodeConcat(a + b, c);
    EncodeConcat(a, b);
  }

  lemma QuotedBytes(s: string)
    ensures Encode(Quoted(s)) == ['"' as int] + Encode(Escape(s)) + ['"' as int]
  {
    EncodeThree("\"", Escape(s), "\"");
    AsciiChar('"');
  }

  lemma QuotedParses(s: string, rest: Bytes, checks: bool)
    ensures var t := Encode(Quoted(s)) + rest;
            t != [] && t[0] == '"' as int && Content(t[1..], checks) == Ok(s, rest)
  {
    hide Content, Escape, Encode;
    QuotedBytes(s);
    ContentOfEscaped(s, rest, checks);
    assert (Encode(Quoted(s)) + rest)[1..] == Encode(Escape(s)) + (['"' as int] + rest);
  }

  /** The bytes a printed value can begin with. */
  predicate ValueStart(b: Byte) {
    b == 'n' as int || b == '"' as int || b == '[' as int || b == '{' as int || IsDigit(b)
  }

  lemma PrintStarts(d: Doc)
    ensures Encode(Print(d)) != [] && ValueStart(Encode(Print(d))[0])
  {
    match d
    case DNull => EncodeCons('n', "ull"); assert Print(d) == ['n'] + "ull";
    case DNum(n) => DecimalDigits(n);
    case DStr(s) => QuotedBytes(s);
    case DArr(items) => EncodeThree("[", PrintItems(items), "]"); AsciiChar('[');
    case DObj(fields) => EncodeThree("{", PrintFields(fields), "}"); AsciiChar('{');
  }

  lemma NullBytes()
    ensures Encode("null") == NULL
  {
    assert "null" == ['n'] + (['u'] + (['l'] + ['l']));
    AsciiCons('n', ['u'] + (['l'] + ['l']));
    AsciiCons('u', ['l'] + ['l']);
    AsciiCons('l', ['l']);
    AsciiChar('l');
  }

  lemma ArrayText(items: seq<Doc>, rest: Bytes)
    ensures var s := Encode(Print(DArr(items))) + rest;
            s != [] && s[0] == '[' as int && s[1..] == Encode(PrintItems(items)) + ([']' as int] + rest)
  {
    hide Encode;
    EncodeThree("[", PrintItems(items), "]");
    AsciiChar('[');
    AsciiChar(']');
  }

  lemma ObjectText(fields: seq<DField>, rest: Bytes)
    ensures var s := Encode(Print(DObj(fields))) + rest;
            s != [] && s[0] == '{' as int && s[1..] == Encode(PrintFields(fields)) + (['}' as int] + rest)
  {
    hide Encode;
    EncodeThree("{", PrintFields(fields), "}");
    AsciiChar('{');
    AsciiChar('}');
  }

  /** Printing then parsing gives the document back and leaves what follows untouched, at any depth the
      limit allows. */
  lemma {:induction false} PrintParses(d: Doc, rest: Bytes, depth: nat, checks: bool)
    requires depth + Nest(ToJson(d)) < MAX_JSON_DEPTH && Ends(rest)
    ensures Value(Encode(Print(d)) + rest, depth, checks) == Ok(ToJson(d), rest)
    decreases d, 0
  {
    hide Content, Number, Members, Items, Encode;
    PrintStarts(d);
    var s := Encode(Print(d)) + rest;
    match d
    case DNull =>
      NullBytes();
      assert NULL <= s && s[0] == 'n' as int && s[4..] == rest;
    case DNum(n) =>
      DecimalDigits(n);
      NumberOfDecimal(n, rest);
    case DStr(t) =>
      QuotedParses(t, rest, checks);
    case DArr(items) =>
      ArrayText(items, rest);
      ArrayParses(items, rest, depth + 1, checks);
    case DObj(fields) =>
      ObjectText(fields, rest);
      ObjectParses(fields, rest, depth + 1, checks);
  }

  lemma {:induction false} ArrayParses(items: seq<Doc>, rest: Bytes, depth: nat, checks: bool)
    requires 0 < depth && depth + NestItems(ToItems(items)) < MAX_JSON_DEPTH
    ensures ArrayAfterOpen(Encode(PrintItems(items)) + ([']' as int] + rest), depth, checks) == Ok(Arr(ToItems(items)), rest)
    decreases items, 2
  {
    hide Value, Items;
    var end := [']' as int] + rest;
    if items == [] {
      assert Encode(PrintItems(items)) + end == end && end[1..] == rest;
    } else {
      ItemsStart(items);
      ItemsParse(items, rest, depth, checks);
    }
  }

  lemma ItemsStart(items: seq<Doc>)
    requires items != []
    ensures Encode(PrintItems(items)) != [] && ValueStart(Encode(PrintItems(items))[0])
  {
    PrintStarts(items[0]);
    if |items| > 1 {
      EncodeThree(Print(items[0]), ",", PrintItems(items[1..]));
    }
  }

  lemma SkipNothing(s: Bytes)
    ensures s != [] && !IsWs(s[0]) ==> SkipWs(s) == s
  {
  }

  lemma {:induction false} ItemsParse(items: seq<Doc>, rest: Bytes, depth: nat, checks: bool)
    requires items != [] && depth + NestItems(ToItems(items)) < MAX_JSON_DEPTH
    ensures Items(Encode(PrintItems(items)) + ([']' as int] + rest), depth, checks) == Ok(ToItems(items), rest)
    decreases items, 1
  {
    hide Value, Encode, Print, ToJson, Nest, SkipWs;
    var end := [']' as int] + rest;
    PrintStarts(items[0]);
    SkipNothing(end);
    if |items| == 1 {
      PrintParses(items[0], end, depth, checks);
      SkipNothing(Encode(Print(items[0])) + end);
      assert end[1..] == rest && ToItems(items) == [ToJson(items[0])];
    } else {
      EncodeThree(Print(items[0]), ",", PrintItems(items[1..]));
      AsciiChar(',');
      var more := Encode(PrintItems(items[1..])) + end;
      var after := [',' as int] + more;
      assert Encode(PrintItems(items)) + end == Encode(Print(items[0])) + after;
      PrintParses(items[0], after, depth, checks);
      SkipNothing(Encode(Print(items[0])) + after);
      SkipNothing(after);
      assert after[1..] == more;
      ItemsParse(items[1..], rest, depth, checks);
    }
  }

  lemma {:induction false} ObjectParses(fields: seq<DField>, rest: Bytes, depth: nat, checks: bool)
    requires 0 < depth && depth + NestMembers(ToMembers(fields)) < MAX_JSON_DEPTH
    ensures ObjectAfterOpen(Encode(PrintFields(fields)) + (['}' as int] + rest), depth, checks)
         == Ok(Obj(ToMembers(fields)), rest)
    decreases fields, 2
  {
    hide Value, Members;
    var end := ['}' as int] + rest;
    if fields == [] {
      assert Encode(PrintFields(fields)) + end == end && end[1..] == rest;
    } else {
      FieldsStart(fields);
      FieldsParse(fields, rest, depth, checks);
    }
  }

  lemma FieldStarts(f: DField)
    ensures Encode(PrintField(f)) != [] && Encode(PrintField(f))[0] == '"' as int
  {
    EncodeThree(Quoted(f.key), ":", Print(f.val));
    QuotedBytes(f.key);
  }

  lemma FieldsStart(fields: seq<DField>)
    requires fields != []
    ensures Encode(PrintFields(fields)) != [] && Encode(PrintFields(fields))[0] == '"' as int
  {
    FieldStarts(fields[0]);
    if |fields| > 1 {
      EncodeThree(PrintField(fields[0]), ",", PrintFields(fields[1..]));
    }
  }

  lemma {:induction false} FieldParses(f: DField, rest: Bytes, depth: nat, checks: bool)
    requires depth + NestMember(ToMember(f)) < MAX_JSON_DEPTH && Ends(rest)
    ensures OneMember(Encode(PrintField(f)) + rest, depth, checks) == Ok(ToMember(f), rest)
    decreases f, 0
  {
    hide Value, Content, Encode, Print, Escape;
    FieldStarts(f);
    EncodeThree(Quoted(f.key), ":", Print(f.val));
    AsciiChar(':');
    var tail := Encode(Print(f.val)) + rest;
    var after := [':' as int] + tail;
    assert Encode(PrintField(f)) + rest == Encode(Quoted(f.key)) + after;
    QuotedParses(f.key, after, checks);
    PrintStarts(f.val);
    assert after[1..] == tail;
    PrintParses(f.val, rest, depth, checks);
  }

  lemma {:induction false} FieldsParse(fields: seq<DField>, rest: Bytes, depth: nat, checks: bool)
    requires fields != [] && depth + NestMembers(ToMembers(fields)) < MAX_JSON_DEPTH
    ensures Members(Encode(PrintFields(fields)) + (['}' as int] + rest), depth, checks) == Ok(ToMembers(fields), rest)
    decreases fields, 1
  {
    hide OneMember, Encode, PrintField, ToMember, NestMember;
    var end := ['}' as int] + rest;
    if |fields| == 1 {
      FieldParses(fields[0], end, depth, checks);
      assert end[1..] == rest && ToMembers(fields) == [ToMember(fields[0])];
    } else {
      EncodeThree(PrintField(fields[0]), ",", PrintFields(fields[1..]));
      AsciiChar(',');
      var more := Encode(PrintFields(fields[1..])) + end;
      var after := [',' as int] + more;
      assert Encode(PrintFields(fields)) + end == Encode(PrintField(fields[0])) + after;
      FieldParses(fields[0], after, depth, checks);
      assert after[1..] == more;
      FieldsParse(fields[1..], rest, depth, checks);
    }
  }

  // ----- Too deep -----

  /** A printed value that nests past the limit is rejected, wherever in it the limit is passed. */
  lemma {:induction false} PrintTooDeep(d: Doc, rest: Bytes, depth: nat, checks: bool)
    requires depth < MAX_JSON_DEPTH <= depth + Nest(ToJson(d))
    ensures Value(Encode(Print(d)) + rest, depth, checks) == Reject
    decreases d, 0
  {
    hide Content, Number, Members, Items, Encode;
    PrintStarts(d);
    var s := Encode(Print(d)) + rest;
    match d
    case DArr(items) =>
      ArrayText(items, rest);
      if depth + 1 < MAX_JSON_DEPTH {
        ItemsStart(items);
        ItemsTooDeep(items, [']' as int] + rest, depth + 1, checks);
        SkipNothing(s[1..]);
      }
    case DObj(fields) =>
      ObjectText(fields, rest);
      if depth + 1 < MAX_JSON_DEPTH {
        FieldsStart(fields);
        FieldsTooDeep(fields, ['}' as int] + rest, depth + 1, checks);
        SkipNothing(s[1..]);
      }
    case _ =>
  }

  lemma {:induction false} ItemsTooDeep(items: seq<Doc>, end: Bytes, depth: nat, checks: bool)
    requires items != [] && depth < MAX_JSON_DEPTH <= depth + NestItems(ToItems(items))
    ensures Items(Encode(PrintItems(items)) + end, depth, checks) == Reject
    decreases items, 1
  {
    hide Value, Encode, Print, ToJson, Nest, SkipWs;
    PrintStarts(items[0]);
    EncodeThree(Print(items[0]), ",", PrintItems(items[1..]));
    AsciiChar(',');
    var more := Encode(PrintItems(items[1..])) + end;
    var after := if |items| == 1 then end else [',' as int] + more;
    assert Encode(PrintItems(items)) + end == Encode(Print(items[0])) + after;
    SkipNothing(Encode(Print(items[0])) + after);
    assert ToItems(items) == [ToJson(items[0])] + ToItems(items[1..]);
    if depth + Nest(ToJson(items[0])) >= MAX_JSON_DEPTH {
      PrintTooDeep(items[0], after, depth, checks);
    } else {
      PrintParses(items[0], after, depth, checks);
      SkipNothing(after);
      assert after[1..] == more;
      ItemsTooDeep(items[1..], end, depth, checks);
    }
  }

  lemma {:induction false} FieldTooDeep(f: DField, rest: Bytes, depth: nat, checks: bool)
    requires depth < MAX_JSON_DEPTH <= depth + NestMember(ToMember(f))
    ensures OneMember(Encode(PrintField(f)) + rest, depth, checks) == Reject
    decreases f, 0
  {
    hide Value, Content, Encode, Print, Escape;
    FieldStarts(f);
    EncodeThree(Quoted(f.key), ":", Print(f.val));
    AsciiChar(':');
    var tail := Encode(Print(f.val)) + rest;
    var after := [':' as int] + tail;
    assert Encode(PrintField(f)) + rest == Encode(Quoted(f.key)) + after;
    QuotedParses(f.key, after, checks);
    PrintStarts(f.val);
    assert after[1..] == tail;
    PrintTooDeep(f.val, rest, depth, checks);
  }

  lemma {:induction false} FieldsTooDeep(fields: seq<DField>, end: Bytes, depth: nat, checks: bool)
    requires fields != [] && depth < MAX_JSON_DEPTH <= depth + NestMembers(ToMembers(fields))
    ensures Members(Encode(PrintFields(fields)) + end, depth, checks) == Reject
    decreases fields, 1
  {
    hide OneMember, Encode, PrintField, ToMember, NestMember, SkipWs;
    EncodeThree(PrintField(fields[0]), ",", PrintFields(fields[1..]));
    AsciiChar(',');
    var more := Encode(PrintFields(fields[1..])) + end;
    var after := if |fields| == 1 then end else [',' as int] + more;
    assert Encode(PrintFields(fields)) + end == Encode(PrintField(fields[0])) + after;
    assert ToMembers(fields) == [ToMember(fields[0])] + ToMembers(fields[1..]);
    if depth + NestMember(ToMember(fields[0])) >= MAX_JSON_DEPTH {
      FieldTooDeep(fields[0], after, depth, checks);
    } else {
      FieldParses(fields[0], after, depth, checks);
      SkipNothing(after);
      assert after[1..] == more;
      FieldsTooDeep(fields[1..], end, depth, checks);
    }
  }

  // ----- Whole documents -----

  /** A printed document followed by white space parses back to itself exactly when it nests at most
      511 deep, and is rejected otherwise. */
  lemma DocumentRoundTrip(d: Doc, space: Bytes, checks: bool)
    requires forall i :: 0 <= i < |space| ==> IsWs(space[i])
    ensures Document(Encode(Print(d)) + space, checks)
         == if Nest(ToJson(d)) <= MAX_JSON_DEPTH - 1 then Ok(ToJson(d), []) else Reject
  {
    hide Value, Encode, Print;
    PrintStarts(d);
    if Nest(ToJson(d)) < MAX_JSON_DEPTH {
      PrintParses(d, space, 0, checks);
    } else {
      PrintTooDeep(d, space, 0, checks);
    }
    OnlySpace(space);
  }

  lemma {:induction false} OnlySpace(space: Bytes)
    requires forall i :: 0 <= i < |space| ==> IsWs(space[i])
    ensures SkipWs(space) == []
  {
    if space != [] {
      OnlySpace(space[1..]);
    }
  }
}
