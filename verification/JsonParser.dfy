/** `Json::parse` (src/json.rs): the cursor over the bytes, against the grammar of `JsonGrammar`. */
module JsonParser {
  import opened Utf8
  import opened JsonGrammar

  /** What one parsing step returns; `Panicked` is the arithmetic overflow of a checked build. */
  datatype Outcome<T> = Got(value: T) | Nothing | Panicked

  /** The step returned what the grammar says and stands where the grammar's rest begins. */
  predicate Agrees<T(==)>(r: Outcome<T>, spec: Res<T>, here: Bytes) {
    match spec
    case Ok(v, rest) => r == Got(v) && here == rest
    case Reject => r.Nothing?
    case Fault => r.Panicked?
  }

  class ParseState {
    const bytes: Bytes
    const checks: bool
    var pos: nat
    var depth: nat

    constructor (bytes: Bytes, checks: bool)
      ensures this.bytes == bytes && this.checks == checks && pos == 0 && depth == 0
    {
      this.bytes := bytes;
      this.checks := checks;
      pos := 0;
      depth := 0;
    }

    ghost predicate Valid()
      reads this
    {
      pos <= |bytes| && depth < MAX_JSON_DEPTH
    }

    /** What is still to be read. */
    function Rest(): Bytes
      requires pos <= |bytes|
      reads this
    {
      bytes[pos..]
    }

    function Peek(): (b: Option<Byte>)
      requires pos <= |bytes|
      reads this
      ensures b == if Rest() == [] then None else Some(Rest()[0])
    {
      if pos < |bytes| then Some(bytes[pos]) else None
    }

    method Bump() returns (b: Option<Byte>)
      requires Valid()
      modifies this`pos
      ensures Valid() && old(pos) <= pos
      ensures old(Rest()) == [] ==> b.None? && pos == old(pos)
      ensures old(Rest()) != [] ==> b == Some(old(Rest())[0]) && Rest() == old(Rest())[1..] && pos == old(pos) + 1
    {
      b := Peek();
      if b.Some? {
        pos := pos + 1;
      }
    }

    method SkipSpace()
      requires Valid()
      modifies this`pos
      ensures Valid() && old(pos) <= pos && Rest() == SkipWs(old(Rest()))
    {
      while pos < |bytes| && IsWs(bytes[pos])
        invariant old(pos) <= pos <= |bytes|
        invariant SkipWs(Rest()) == SkipWs(old(Rest()))
      {
        assert bytes[pos..][1..] == bytes[pos + 1..];
        pos := pos + 1;
      }
    }

    /** `hex4`: four digits folded into a word. */
    method ReadHex4() returns (v: Option<nat>)
      requires Valid()
      modifies this`pos
      ensures Valid() && old(pos) <= pos
      ensures v == Hex4(old(Rest()))
      ensures v.Some? ==> Rest() == old(Rest())[4..]
    {
      var value: nat := 0;
      ghost var s := Rest();
      for i := 0 to 4
        invariant Valid() && pos == old(pos) + i && i <= |s| && Rest() == s[i..]
        invariant forall k :: 0 <= k < i ==> HexDigit(s[k]).Some?
        invariant value == HexPrefix(s, i)
      {
        var b := Bump();
        if b.None? {
          return None;
        }
        var d := HexDigit(b.value);
        if d.None? {
          return None;
        }
        value := value * 16 + d.value;
      }
      assert HexPrefix(s, 4) == HexPrefix(s, 3) * 16 + HexDigit(s[3]).value;
      assert HexPrefix(s, 2) == HexPrefix(s, 1) * 16 + HexDigit(s[1]).value;
      v := Some(value);
    }

    ghost function HexPrefix(s: Bytes, i: nat): nat
      requires i <= 4 && i <= |s| && forall k :: 0 <= k < i ==> HexDigit(s[k]).Some?
    {
      if i == 0 then 0 else HexPrefix(s, i - 1) * 16 + HexDigit(s[i - 1]).value
    }

    method ReadUnicodeEscape() returns (r: Outcome<char>)
      requires Valid()
      modifies this`pos
      ensures Valid() && old(pos) <= pos && Agrees(r, UnicodeEscape(old(Rest()), checks), Rest())
    {
      var cp := ReadHex4();
      if cp.None? {
        return Nothing;
      }
      if IsHigh(cp.value) {
        var slash := Bump();
        if slash != Some('\\' as int) {
          return Nothing;
        }
        var u := Bump();
        if u != Some('u' as int) {
          return Nothing;
        }
        var lo := ReadHex4();
        if lo.None? {
          return Nothing;
        }
        if checks && lo.value < 0xDC00 {
          return Panicked;
        }
        var c := FromScalar((0x10000 + (cp.value - 0xD800) * 1024 + (lo.value - 0xDC00) % WORD) % WORD);
        return if c.Some? then Got(c.value) else Nothing;
      }
      var c := FromScalar(cp.value);
      return if c.Some? then Got(c.value) else Nothing;
    }

    method ReadEscape() returns (r: Outcome<char>)
      requires Valid()
      modifies this`pos
      ensures Valid() && old(pos) <= pos && Agrees(r, Escaped(old(Rest()), checks), Rest())
    {
      var b := Bump();
      if b.None? {
        return Nothing;
      }
      var c := b.value as char;
      match c {
        case '"' => r := Got('"');
        case '\\' => r := Got('\\');
        case '/' => r := Got('/');
        case 'n' => r := Got('\n');
        case 't' => r := Got('\t');
        case 'r' => r := Got('\r');
        case 'b' => r := Got(8 as char);
        case 'f' => r := Got(12 as char);
        case 'u' => r := ReadUnicodeEscape();
        case _ => r := Nothing;
      }
    }

    /** One piece of a string's content, whose first byte `b` was just taken. */
    method ReadPiece(b: Byte) returns (r: Outcome<string>)
      requires Valid() && pos > 0 && bytes[pos - 1] == b != '"' as int
      modifies this`pos
      ensures Valid() && old(pos) <= pos && Agrees(r, Piece(old(bytes[pos - 1..]), checks), Rest())
    {
      ghost var here := bytes[pos - 1..];
      assert here[1..] == Rest();
      if b == '\\' as int {
        var e := ReadEscape();
        return match e case Got(ch) => Got([ch]) case Nothing => Nothing case Panicked => Panicked;
      }
      if b < 0x80 {
        return Got([b as char]);
      }
      var extra := Extra(b);
      if extra.None? {
        return Nothing;
      }
      if |bytes| - pos < extra.value {
        pos := |bytes|;
        return Nothing;
      }
      var start := pos - 1;
      pos := pos + extra.value;
      assert bytes[start..pos] == here[..extra.value + 1] && Rest() == here[extra.value + 1..];
      var t := Decode(bytes[start..pos]);
      r := if t.Some? then Got(t.value) else Nothing;
    }

    /** `string`, after its opening quote: pieces pushed onto `s` until the closing quote. */
    method ReadContent() returns (r: Outcome<string>)
      requires Valid()
      modifies this`pos
      ensures Valid() && old(pos) <= pos && Agrees(r, Content(old(Rest()), checks), Rest())
    {
      hide Piece;
      var s: string := [];
      PrependNothing(Content(Rest(), checks));
      while true
        invariant Valid() && old(pos) <= pos
        invariant Content(old(Rest()), checks) == Prepend(s, Content(Rest(), checks))
        decreases |bytes| - pos
      {
        ghost var here := Rest();
        var b := Bump();
        if b.None? {
          return Nothing;
        }
        if b.value == '"' as int {
          assert s + [] == s;
          return Got(s);
        }
        assert bytes[pos - 1..] == here;
        var piece := ReadPiece(b.value);
        if piece.Nothing? {
          return Nothing;
        }
        if piece.Panicked? {
          return Panicked;
        }
        PiecePrepends(s, s + piece.value, here, Rest(), checks);
        s := s + piece.value;
      }
    }

    method ReadNumber() returns (r: Outcome<Json>)
      requires Valid()
      modifies this`pos
      ensures Valid() && old(pos) <= pos && Agrees(r, Number(old(Rest())), Rest())
    {
      var start := pos;
      ghost var s := Rest();
      while pos < |bytes| && IsNumberByte(bytes[pos])
        invariant start <= pos <= |bytes|
        invariant NumberLength(s) == pos - start + NumberLength(Rest())
      {
        assert bytes[pos..][1..] == bytes[pos + 1..];
        pos := pos + 1;
      }
      assert bytes[start..pos] == s[..NumberLength(s)] && Rest() == s[NumberLength(s)..];
      var x := ParseReal(bytes[start..pos]);
      r := if x.Some? then Got(Num(x.value)) else Nothing;
    }

    method ReadKeyword() returns (r: Outcome<Json>)
      requires Valid()
      modifies this`pos
      ensures Valid() && old(pos) <= pos && Agrees(r, Keyword(old(Rest())), Rest())
    {
      if TRUE <= Rest() {
        pos := pos + 4;
        r := Got(Bool(true));
      } else if FALSE <= Rest() {
        pos := pos + 5;
        r := Got(Bool(false));
      } else if NULL <= Rest() {
        pos := pos + 4;
        r := Got(Null);
      } else {
        r := Nothing;
      }
    }

    /** `value`: the depth is restored whatever happens, short of a panic. */
    method ReadValue() returns (r: Outcome<Json>)
      requires Valid()
      modifies this
      ensures Valid() && old(pos) <= pos && depth == old(depth)
      ensures Agrees(r, Value(old(Rest()), old(depth), checks), Rest())
      decreases |bytes| - pos, 1
    {
      hide ArrayAfterOpen, ObjectAfterOpen, Content, Number, Keyword, SkipWs, Nest;
      var b := Peek();
      if b.None? {
        return Nothing;
      }
      var c := b.value as char;
      match c {
        case '{' =>
          if depth + 1 >= MAX_JSON_DEPTH {
            return Nothing;
          }
          depth := depth + 1;
          r := ReadObject();
          depth := depth - 1;
        case '[' =>
          if depth + 1 >= MAX_JSON_DEPTH {
            return Nothing;
          }
          depth := depth + 1;
          r := ReadArray();
          depth := depth - 1;
        case '"' =>
          b := Bump();
          var s := ReadContent();
          r := match s case Got(t) => Got(Str(t)) case Nothing => Nothing case Panicked => Panicked;
        case 't' => r := ReadKeyword();
        case 'f' => r := ReadKeyword();
        case 'n' => r := ReadKeyword();
        case _ => r := ReadNumber();
      }
    }

    method ReadArray() returns (r: Outcome<Json>)
      requires Valid() && Rest() != [] && depth > 0
      modifies this
      ensures Valid() && old(pos) <= pos && depth == old(depth)
      ensures Agrees(r, ArrayAfterOpen(old(Rest())[1..], old(depth), checks), Rest())
      decreases |bytes| - pos, 0
    {
      hide Value, Items, OneMember, Members, SkipWs, Nest, NestItems, NestMembers;
      var b := Bump();
      SkipSpace();
      if Peek() == Some(']' as int) {
        b := Bump();
        return Got(Arr([]));
      }
      var items: seq<Json> := [];
      ghost var whole := Items(Rest(), depth, checks);
      assert whole.Ok? ==> [] + whole.value == whole.value;
      while true
        invariant Valid() && old(pos) < pos && depth == old(depth)
        invariant whole == PrependItems(items, Items(Rest(), depth, checks))
        decreases |bytes| - pos
      {
        ItemStep(items, Rest(), depth, checks);
        SkipSpace();
        var v := ReadValue();
        if v.Nothing? {
          return Nothing;
        }
        if v.Panicked? {
          return Panicked;
        }
        items := items + [v.value];
        SkipSpace();
        b := Bump();
        if b == Some(',' as int) {
          continue;
        } else if b == Some(']' as int) {
          return Got(Arr(items));
        } else {
          return Nothing;
        }
      }
    }

    method ReadObject() returns (r: Outcome<Json>)
      requires Valid() && Rest() != [] && depth > 0
      modifies this
      ensures Valid() && old(pos) <= pos && depth == old(depth)
      ensures Agrees(r, ObjectAfterOpen(old(Rest())[1..], old(depth), checks), Rest())
      decreases |bytes| - pos, 0
    {
      hide Value, OneMember, Items, Members, SkipWs, Nest, NestItems, NestMembers;
      var b := Bump();
      SkipSpace();
      if Peek() == Some('}' as int) {
        b := Bump();
        return Got(Obj([]));
      }
      var members: seq<Member> := [];
      ghost var whole := Members(Rest(), depth, checks);
      assert whole.Ok? ==> [] + whole.value == whole.value;
      while true
        invariant Valid() && old(pos) < pos && depth == old(depth)
        invariant whole == PrependMembers(members, Members(Rest(), depth, checks))
        decreases |bytes| - pos
      {
        MemberStep(members, Rest(), depth, checks);
        var m := ReadMember();
        if m.Nothing? {
          return Nothing;
        }
        if m.Panicked? {
          return Panicked;
        }
        members := members + [m.value];
        SkipSpace();
        b := Bump();
        if b == Some(',' as int) {
          continue;
        } else if b == Some('}' as int) {
          return Got(Obj(members));
        } else {
          return Nothing;
        }
      }
    }

    /** The part of `object`'s loop that reads a key, a colon and a value. */
    method ReadMember() returns (r: Outcome<Member>)
      requires Valid()
      modifies this
      ensures Valid() && old(pos) <= pos && depth == old(depth)
      ensures Agrees(r, OneMember(old(Rest()), old(depth), checks), Rest())
      decreases |bytes| - pos, 2
    {
      hide Value, Content, SkipWs, Nest;
      SkipSpace();
      if Peek() != Some('"' as int) {
        return Nothing;
      }
      var b := Bump();
      var key := ReadContent();
      if key.Nothing? {
        return Nothing;
      }
      if key.Panicked? {
        return Panicked;
      }
      SkipSpace();
      b := Bump();
      if b != Some(':' as int) {
        return Nothing;
      }
      SkipSpace();
      var val := ReadValue();
      r := match val
        case Got(v) => Got(Member(key.value, v))
        case Nothing => Nothing
        case Panicked => Panicked;
    }
  }

  function PrependItems(items: seq<Json>, r: Res<seq<Json>>): Res<seq<Json>> {
    if r.Ok? then Ok(items + r.value, r.rest) else r
  }

  function PrependMembers(members: seq<Member>, r: Res<seq<Member>>): Res<seq<Member>> {
    if r.Ok? then Ok(members + r.value, r.rest) else r
  }

  lemma PrependNothing(r: Res<string>)
    ensures Prepend([], r) == r
  {
    if r.Ok? {
      assert [] + r.value == r.value;
    }
  }

  /** Reading one piece moves it from the content still to come to what has been collected. */
  lemma PiecePrepends(before: string, after: string, here: Bytes, rest: Bytes, checks: bool)
    requires here != [] && here[0] != '"' as int
    requires Piece(here, checks).Ok? && Piece(here, checks).rest == rest
    requires after == before + Piece(here, checks).value
    ensures Prepend(before, Content(here, checks)) == Prepend(after, Content(rest, checks))
  {
    hide Piece;
    var tail := Content(rest, checks);
    if tail.Ok? {
      assert before + (Piece(here, checks).value + tail.value) == after + tail.value;
    }
  }

  /** What follows one element decides: a comma moves it from the elements still to come to those
      collected, a bracket ends the list, anything else is an error. */
  lemma ItemStep(before: seq<Json>, here: Bytes, depth: nat, checks: bool)
    requires depth < MAX_JSON_DEPTH
    ensures var r := Value(SkipWs(here), depth, checks);
            && (r.Reject? ==> Items(here, depth, checks) == Reject)
            && (r.Fault? ==> Items(here, depth, checks) == Fault)
            && (r.Ok? ==> var t := SkipWs(r.rest);
                          if t == [] then Items(here, depth, checks) == Reject
                          else if t[0] == ']' as int then Items(here, depth, checks) == Ok([r.value], t[1..])
                          else if t[0] != ',' as int then Items(here, depth, checks) == Reject
                          else PrependItems(before, Items(here, depth, checks))
                               == PrependItems(before + [r.value], Items(t[1..], depth, checks)))
  {
    hide Value, SkipWs;
    var r := Value(SkipWs(here), depth, checks);
    if r.Ok? {
      var t := SkipWs(r.rest);
      if t != [] && t[0] == ',' as int {
        var tail := Items(t[1..], depth, checks);
        if tail.Ok? {
          assert before + ([r.value] + tail.value) == (before + [r.value]) + tail.value;
        }
      }
    }
  }

  /** The same for one member, which a brace may end. */
  lemma MemberStep(before: seq<Member>, here: Bytes, depth: nat, checks: bool)
    requires depth < MAX_JSON_DEPTH
    ensures var r := OneMember(here, depth, checks);
            && (r.Reject? ==> Members(here, depth, checks) == Reject)
            && (r.Fault? ==> Members(here, depth, checks) == Fault)
            && (r.Ok? ==> var t := SkipWs(r.rest);
                          if t == [] then Members(here, depth, checks) == Reject
                          else if t[0] == '}' as int then Members(here, depth, checks) == Ok([r.value], t[1..])
                          else if t[0] != ',' as int then Members(here, depth, checks) == Reject
                          else PrependMembers(before, Members(here, depth, checks))
                               == PrependMembers(before + [r.value], Members(t[1..], depth, checks)))
  {
    hide OneMember, SkipWs;
    var r := OneMember(here, depth, checks);
    if r.Ok? {
      var t := SkipWs(r.rest);
      if t != [] && t[0] == ',' as int {
        var tail := Members(t[1..], depth, checks);
        if tail.Ok? {
          assert before + ([r.value] + tail.value) == (before + [r.value]) + tail.value;
        }
      }
    }
  }

  /** Parses a complete document. */
  method Parse(input: string, checks: bool) returns (r: Outcome<Json>)
    ensures Agrees(r, Document(Encode(input), checks), [])
  {
    var p := new ParseState(Encode(input), checks);
    p.SkipSpace();
    var v := p.ReadValue();
    if !v.Got? {
      return v;
    }
    p.SkipSpace();
    r := if p.pos == |p.bytes| then v else Nothing;
  }
}
