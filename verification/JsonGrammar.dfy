/** What `Json::parse` (src/json.rs) accepts and returns, as functions of the bytes still to be read. */
module JsonGrammar {
  import opened Utf8

  const MAX_JSON_DEPTH: nat := 512

  datatype Json =
    | Null
    | Bool(b: bool)
    | Num(n: real)
    | Str(s: string)
    | Arr(items: seq<Json>)
    | Obj(members: seq<Member>)

  datatype Member = Member(key: string, val: Json)

  /** `Fault` is the arithmetic panic of a build with overflow checks. */
  datatype Res<T> = Ok(value: T, rest: Bytes) | Reject | Fault

  /** How deeply arrays and objects are nested. */
  function Nest(v: Json): nat {
    match v
    case Arr(items) => 1 + NestItems(items)
    case Obj(members) => 1 + NestMembers(members)
    case _ => 0
  }

  function NestItems(items: seq<Json>): nat {
    if items == [] then 0 else Max(Nest(items[0]), NestItems(items[1..]))
  }

  function NestMembers(members: seq<Member>): nat {
    if members == [] then 0 else Max(NestMember(members[0]), NestMembers(members[1..]))
  }

  function NestMember(m: Member): nat {
    Nest(m.val)
  }

  function Max(a: nat, b: nat): nat {
    if a < b then b else a
  }

  // ----- Tokens -----

  predicate IsWs(b: Byte) {
    b == ' ' as int || b == '\t' as int || b == '\n' as int || b == '\r' as int
  }

  function SkipWs(s: Bytes): (r: Bytes)
    ensures |r| <= |s|
    ensures r == [] || !IsWs(r[0])
  {
    if s != [] && IsWs(s[0]) then SkipWs(s[1..]) else s
  }

  function HexDigit(b: Byte): Option<nat> {
    if '0' as int <= b <= '9' as int then Some(b - '0' as int)
    else if 'a' as int <= b <= 'f' as int then Some(b - 'a' as int + 10)
    else if 'A' as int <= b <= 'F' as int then Some(b - 'A' as int + 10)
    else None
  }

  function Hex4(s: Bytes): (r: Option<nat>)
    ensures r.Some? ==> |s| >= 4 && r.value < 0x10000
  {
    if |s| >= 4 && HexDigit(s[0]).Some? && HexDigit(s[1]).Some? && HexDigit(s[2]).Some? && HexDigit(s[3]).Some? then
      Some(((HexDigit(s[0]).value * 16 + HexDigit(s[1]).value) * 16 + HexDigit(s[2]).value) * 16 + HexDigit(s[3]).value)
    else None
  }

  predicate IsHigh(cp: nat) {
    0xD800 <= cp <= 0xDBFF
  }

  const WORD: nat := 0x1_0000_0000

  /** The surrogate arithmetic on 32-bit words. Nothing checks that `lo` is a low surrogate: below
      0xDC00 the subtraction underflows, which a checked build reports and an unchecked one wraps. */
  function Combine(cp: nat, lo: nat, checks: bool): Res<char>
    requires IsHigh(cp) && lo < 0x10000
  {
    if checks && lo < 0xDC00 then Fault
    else
      var c := (0x10000 + (cp - 0xD800) * 1024 + (lo - 0xDC00) % WORD) % WORD;
      match FromScalar(c)
      case Some(ch) => Ok(ch, [])
      case None => Reject
  }

  function OfScalar(cp: nat, rest: Bytes): Res<char> {
    match FromScalar(cp)
    case Some(ch) => Ok(ch, rest)
    case None => Reject
  }

  /** After `\u`. */
  function UnicodeEscape(s: Bytes, checks: bool): (r: Res<char>)
    ensures !checks ==> !r.Fault?
    ensures r.Ok? ==> |r.rest| < |s|
  {
    var cp := Hex4(s);
    if cp.None? then Reject
    else if !IsHigh(cp.value) then OfScalar(cp.value, s[4..])
    else
      var t := s[4..];
      if |t| < 2 || t[0] != '\\' as int || t[1] != 'u' as int then Reject
      else
        var lo := Hex4(t[2..]);
        if lo.None? then Reject
        else
          match Combine(cp.value, lo.value, checks)
          case Ok(ch, _) => Ok(ch, t[6..])
          case Reject => Reject
          case Fault => Fault
  }

  /** After a backslash. */
  function Escaped(s: Bytes, checks: bool): (r: Res<char>)
    ensures !checks ==> !r.Fault?
    ensures r.Ok? ==> |r.rest| < |s|
  {
    if s == [] then Reject
    else if s[0] == '"' as int then Ok('"', s[1..])
    else if s[0] == '\\' as int then Ok('\\', s[1..])
    else if s[0] == '/' as int then Ok('/', s[1..])
    else if s[0] == 'n' as int then Ok('\n', s[1..])
    else if s[0] == 't' as int then Ok('\t', s[1..])
    else if s[0] == 'r' as int then Ok('\r', s[1..])
    else if s[0] == 'b' as int then Ok(8 as char, s[1..])
    else if s[0] == 'f' as int then Ok(12 as char, s[1..])
    else if s[0] == 'u' as int then UnicodeEscape(s[1..], checks)
    else Reject
  }

  /** How many bytes follow a lead byte of 0x80 or more. */
  function Extra(b: Byte): Option<nat> {
    if 0xC0 <= b <= 0xDF then Some(1)
    else if 0xE0 <= b <= 0xEF then Some(2)
    else if 0xF0 <= b <= 0xF7 then Some(3)
    else None
  }

  function Prepend(t: string, r: Res<string>): Res<string> {
    if r.Ok? then Ok(t + r.value, r.rest) else r
  }

  /** One piece of a string's content: an escape, an ASCII character, or a multi-byte one. */
  function Piece(s: Bytes, checks: bool): (r: Res<string>)
    requires s != [] && s[0] != '"' as int
    ensures !checks ==> !r.Fault?
    ensures r.Ok? ==> |r.rest| < |s|
  {
    if s[0] == '\\' as int then
      match Escaped(s[1..], checks)
      case Ok(ch, rest) => Ok([ch], rest)
      case Reject => Reject
      case Fault => Fault
    else if s[0] < 0x80 then Ok([s[0] as char], s[1..])
    else
      var extra := Extra(s[0]);
      if extra.None? || |s| < extra.value + 1 then Reject
      else
        match Decode(s[..extra.value + 1])
        case Some(t) => Ok(t, s[extra.value + 1..])
        case None => Reject
  }

  /** A string's content up to and including the closing quote. */
  function Content(s: Bytes, checks: bool): (r: Res<string>)
    ensures !checks ==> !r.Fault?
    ensures r.Ok? ==> |r.rest| < |s|
    decreases |s|
  {
    if s == [] then Reject
    else if s[0] == '"' as int then Ok([], s[1..])
    else
      var piece := Piece(s, checks);
      if piece.Ok? then Prepend(piece.value, Content(piece.rest, checks)) else piece
  }

  // ----- Numbers -----

  predicate IsDigit(b: Byte) {
    '0' as int <= b <= '9' as int
  }

  predicate IsNumberByte(b: Byte) {
    IsDigit(b) || b == '-' as int || b == '+' as int || b == '.' as int || b == 'e' as int || b == 'E' as int
  }

  function NumberLength(s: Bytes): (n: nat)
    ensures n <= |s|
  {
    if s != [] && IsNumberByte(s[0]) then 1 + NumberLength(s[1..]) else 0
  }

  function DigitCount(s: Bytes): (n: nat)
    ensures n <= |s| && forall i :: 0 <= i < n ==> IsDigit(s[i])
  {
    if s != [] && IsDigit(s[0]) then 1 + DigitCount(s[1..]) else 0
  }

  function DigitsValue(s: Bytes): nat
    requires forall i :: 0 <= i < |s| ==> IsDigit(s[i])
  {
    if s == [] then 0
    else
      assert IsDigit(s[|s| - 1]);
      DigitsValue(s[..|s| - 1]) * 10 + (s[|s| - 1] as int - '0' as int)
  }

  function Power10(e: int): real
    decreases if e < 0 then -e else e
  {
    if e == 0 then 1.0 else if e > 0 then Power10(e - 1) * 10.0 else Power10(e + 1) / 10.0
  }

  predicate IsSign(b: Byte) {
    b == '-' as int || b == '+' as int
  }

  /** The exponent part: absent, or `e`, an optional sign and at least one digit, to the end. */
  function Exponent(s: Bytes): Option<int> {
    if s == [] then Some(0)
    else if s[0] != 'e' as int && s[0] != 'E' as int then None
    else
      var signed := |s| > 1 && IsSign(s[1]);
      var digits := if signed then s[2..] else s[1..];
      if digits == [] || DigitCount(digits) != |digits| then None
      else
        var e: int := DigitsValue(digits);
        Some(if signed && s[1] == '-' as int then -e else e)
  }

  /** What `str::parse::<f64>` accepts of these bytes, valued exactly. */
  function ParseReal(text: Bytes): Option<real> {
    var signed := text != [] && IsSign(text[0]);
    var t := if signed then text[1..] else text;
    var whole := DigitCount(t);
    var after := t[whole..];
    var dotted := after != [] && after[0] == '.' as int;
    var fraction := if dotted then after[1..][..DigitCount(after[1..])] else [];
    var tail := if dotted then after[1..][DigitCount(after[1..])..] else after;
    var exponent := Exponent(tail);
    if whole + |fraction| == 0 || exponent.None? then None
    else
      var value := DigitsValue(t[..whole] + fraction) as real * Power10(exponent.value - |fraction|);
      Some(if signed && text[0] == '-' as int then -value else value)
  }

  function Number(s: Bytes): (r: Res<Json>)
    ensures r.Ok? ==> |r.rest| < |s| && Nest(r.value) == 0
  {
    var n := NumberLength(s);
    match ParseReal(s[..n])
    case Some(x) =>
      assert n > 0;
      Ok(Num(x), s[n..])
    case None => Reject
  }

  // ----- Values -----

  const TRUE: Bytes := ['t' as int, 'r' as int, 'u' as int, 'e' as int]
  const FALSE: Bytes := ['f' as int, 'a' as int, 'l' as int, 's' as int, 'e' as int]
  const NULL: Bytes := ['n' as int, 'u' as int, 'l' as int, 'l' as int]

  function Keyword(s: Bytes): (r: Res<Json>)
    ensures r.Ok? ==> |r.rest| < |s| && Nest(r.value) == 0
  {
    if TRUE <= s then Ok(Bool(true), s[4..])
    else if FALSE <= s then Ok(Bool(false), s[5..])
    else if NULL <= s then Ok(Null, s[4..])
    else Reject
  }

  /** A value, with `depth` arrays and objects open around it. */
  function Value(s: Bytes, depth: nat, checks: bool): (r: Res<Json>)
    requires depth < MAX_JSON_DEPTH
    ensures !checks ==> !r.Fault?
    ensures r.Ok? ==> |r.rest| < |s| && depth + Nest(r.value) < MAX_JSON_DEPTH
    decreases |s|, 1
  {
    if s == [] then Reject
    else if s[0] == '{' as int then
      if depth + 1 >= MAX_JSON_DEPTH then Reject else ObjectAfterOpen(s[1..], depth + 1, checks)
    else if s[0] == '[' as int then
      if depth + 1 >= MAX_JSON_DEPTH then Reject else ArrayAfterOpen(s[1..], depth + 1, checks)
    else if s[0] == '"' as int then
      match Content(s[1..], checks)
      case Ok(str, rest) => Ok(Str(str), rest)
      case Reject => Reject
      case Fault => Fault
    else if s[0] == 't' as int || s[0] == 'f' as int || s[0] == 'n' as int then Keyword(s)
    else Number(s)
  }

  /** An array after its opening bracket, which `depth` counts. */
  function ArrayAfterOpen(s: Bytes, depth: nat, checks: bool): (r: Res<Json>)
    requires 0 < depth < MAX_JSON_DEPTH
    ensures !checks ==> !r.Fault?
    ensures r.Ok? ==> |r.rest| < |s| && depth - 1 + Nest(r.value) < MAX_JSON_DEPTH
    decreases |s|, 4
  {
    var t := SkipWs(s);
    if t != [] && t[0] == ']' as int then Ok(Arr([]), t[1..])
    else
      match Items(t, depth, checks)
      case Ok(items, rest) => Ok(Arr(items), rest)
      case Reject => Reject
      case Fault => Fault
  }

  /** An object after its opening brace, which `depth` counts. */
  function ObjectAfterOpen(s: Bytes, depth: nat, checks: bool): (r: Res<Json>)
    requires 0 < depth < MAX_JSON_DEPTH
    ensures !checks ==> !r.Fault?
    ensures r.Ok? ==> |r.rest| < |s| && depth - 1 + Nest(r.value) < MAX_JSON_DEPTH
    decreases |s|, 4
  {
    var t := SkipWs(s);
    if t != [] && t[0] == '}' as int then Ok(Obj([]), t[1..])
    else
      match Members(t, depth, checks)
      case Ok(members, rest) => Ok(Obj(members), rest)
      case Reject => Reject
      case Fault => Fault
  }

  /** One or more elements and the closing bracket. */
  function Items(s: Bytes, depth: nat, checks: bool): (r: Res<seq<Json>>)
    requires depth < MAX_JSON_DEPTH
    ensures !checks ==> !r.Fault?
    ensures r.Ok? ==> |r.rest| < |s| && depth + NestItems(r.value) < MAX_JSON_DEPTH
    decreases |s|, 2
  {
    match Value(SkipWs(s), depth, checks)
    case Reject => Reject
    case Fault => Fault
    case Ok(item, rest) =>
      var t := SkipWs(rest);
      if t == [] then Reject
      else if t[0] == ']' as int then Ok([item], t[1..])
      else if t[0] != ',' as int then Reject
      else
        match Items(t[1..], depth, checks)
        case Ok(more, end) => Ok([item] + more, end)
        case Reject => Reject
        case Fault => Fault
  }

  /** A key, a colon and a value. */
  function OneMember(s: Bytes, depth: nat, checks: bool): (r: Res<Member>)
    requires depth < MAX_JSON_DEPTH
    ensures !checks ==> !r.Fault?
    ensures r.Ok? ==> |r.rest| < |s| && depth + NestMember(r.value) < MAX_JSON_DEPTH
    decreases |s|, 2
  {
    var k := SkipWs(s);
    if k == [] || k[0] != '"' as int then Reject
    else
      match Content(k[1..], checks)
      case Reject => Reject
      case Fault => Fault
      case Ok(key, rest) =>
        var colon := SkipWs(rest);
        if colon == [] || colon[0] != ':' as int then Reject
        else
          match Value(SkipWs(colon[1..]), depth, checks)
          case Ok(val, end) => Ok(Member(key, val), end)
          case Reject => Reject
          case Fault => Fault
  }

  /** One or more members and the closing brace. */
  function Members(s: Bytes, depth: nat, checks: bool): (r: Res<seq<Member>>)
    requires depth < MAX_JSON_DEPTH
    ensures !checks ==> !r.Fault?
    ensures r.Ok? ==> |r.rest| < |s| && depth + NestMembers(r.value) < MAX_JSON_DEPTH
    decreases |s|, 3
  {
    match OneMember(s, depth, checks)
    case Reject => Reject
    case Fault => Fault
    case Ok(m, rest) =>
      var t := SkipWs(rest);
      if t == [] then Reject
      else if t[0] == '}' as int then Ok([m], t[1..])
      else if t[0] != ',' as int then Reject
      else
        match Members(t[1..], depth, checks)
        case Ok(more, end) => Ok([m] + more, end)
        case Reject => Reject
        case Fault => Fault
  }

  /** A whole document: a value with only white space around it. */
  function Document(s: Bytes, checks: bool): (r: Res<Json>)
    ensures r.Ok? ==> Nest(r.value) < MAX_JSON_DEPTH && r.rest == []
  {
    match Value(SkipWs(s), 0, checks)
    case Ok(v, rest) => if SkipWs(rest) == [] then Ok(v, []) else Reject
    case Reject => Reject
    case Fault => Fault
  }
}
