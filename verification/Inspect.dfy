/** The secure value renderer (src/inspect.rs). Instances are references into a heap, so the values form
    a graph that may be cyclic. */
module Inspect {
  import opened Utf8
  import opened JsonRoundTrip

  type Name = string
  type Ref = nat

  datatype Key = KInt(n: int) | KBool(b: bool) | KStr(s: string)

  /** Floats and decimals carry the text they format to. */
  datatype Value =
    | VInt(n: int) | VNumber(text: string) | VBool(b: bool) | VStr(s: string) | VBytes(octets: Bytes)
    | VUnit | VNull
    | VList(items: seq<Value>)
    | VMap(entries: seq<Entry>)
    | VSet(keys: seq<Key>)
    | VInstance(ref: Ref)
    | VEnum(variant: Name, payload: seq<Value>)
    | VClosure | VChannel | VTask | VDb(kind: string)

  datatype Entry = Entry(key: Key, val: Value)

  /** An instance: its class, its slot names and what each slot holds. */
  datatype Object = Object(cls: Name, slots: seq<Slot>)
  datatype Slot = Slot(name: Name, val: Option<Value>)

  /** Every reference leads to an instance. */
  type Heap = Ref -> Object

  const SECRET_CLASS: Name := "Secret"
  const SECRET_REDACTED: string := "Secret(<redacted>)"

  datatype Caps = Caps(maxDepth: nat, maxElements: nat, maxScalarBytes: nat)

  const ELLIPSIS: char := 0x2026 as char

  // ----- Scalars -----

  function IntText(n: int): string {
    if n < 0 then "-" + Decimal(-n) else Decimal(n)
  }

  function BoolText(b: bool): string {
    if b then "true" else "false"
  }

  function EscapeForDump(c: char): string {
    if c == '"' then "\\\""
    else if c == '\\' then "\\\\"
    else if c == '\n' then "\\n"
    else if c == '\r' then "\\r"
    else if c == '\t' then "\\t"
    else if c as int < 0x20 then "\\u{00" + [HexChar(c as int / 16), HexChar(c as int % 16)] + "}"
    else [c]
  }

  /** The characters of `s` from a running byte count on, cut with an ellipsis once the cap is reached. */
  function Shown(s: string, written: nat, cap: nat): string {
    if s == [] then []
    else if written >= cap then [ELLIPSIS]
    else EscapeForDump(s[0]) + Shown(s[1..], written + |EncodeChar(s[0])|, cap)
  }

  function QuotedText(s: string, caps: Caps): string {
    "\"" + Shown(s, 0, caps.maxScalarBytes) + "\""
  }

  function OctetText(b: Byte): string {
    "\\x" + [HexChar(b / 16), HexChar(b % 16)]
  }

  function OctetsText(bs: Bytes): string {
    if bs == [] then [] else OctetText(bs[0]) + OctetsText(bs[1..])
  }

  function BytesText(bs: Bytes, caps: Caps): string {
    var shown := if |bs| < caps.maxScalarBytes then |bs| else caps.maxScalarBytes;
    "b[" + Decimal(|bs|) + "]" + "\"" + OctetsText(bs[..shown]) + (if |bs| > shown then [ELLIPSIS] else []) + "\""
  }

  function KeyText(k: Key, caps: Caps): string {
    match k
    case KInt(n) => IntText(n)
    case KBool(b) => BoolText(b)
    case KStr(s) => QuotedText(s, caps)
  }

  // ----- Composites -----

  /** One element of a delimited sequence, as the renderer's element callback sees it. */
  datatype Elem = Plain(val: Value) | Keyed(key: Key, val: Value) | JustKey(key: Key) | Named(name: Name, slot: Option<Value>)

  /** What a composite prints before its delimiters, and what is between them. */
  datatype Shape = Shape(prefix: string, open: char, close: char, elems: seq<Elem>) | Atom(text: string)

  function Plains(xs: seq<Value>): seq<Elem> {
    seq(|xs|, i requires 0 <= i < |xs| => Plain(xs[i]))
  }

  function ShapeOf(h: Heap, v: Value, caps: Caps): Shape {
    match v
    case VInt(n) => Atom(IntText(n))
    case VNumber(t) => Atom(t)
    case VBool(b) => Atom(BoolText(b))
    case VStr(s) => Atom(QuotedText(s, caps))
    case VBytes(bs) => Atom(BytesText(bs, caps))
    case VUnit => Atom("unit")
    case VNull => Atom("null")
    case VList(xs) => Shape("", '[', ']', Plains(xs))
    case VMap(es) => Shape("", '[', ']', seq(|es|, i requires 0 <= i < |es| => Keyed(es[i].key, es[i].val)))
    case VSet(ks) => Shape("Set", '{', '}', seq(|ks|, i requires 0 <= i < |ks| => JustKey(ks[i])))
    case VInstance(r) =>
      var o := h(r);
      if o.cls == SECRET_CLASS then Atom(SECRET_REDACTED)
      else Shape(o.cls + " ", '{', '}', seq(|o.slots|, i requires 0 <= i < |o.slots| => Named(o.slots[i].name, o.slots[i].val)))
    case VEnum(n, payload) => if payload == [] then Atom(n) else Shape(n, '(', ')', Plains(payload))
    case VClosure => Atom("<function>")
    case VChannel => Atom("<channel>")
    case VTask => Atom("<task>")
    case VDb(k) => Atom("<" + k + ">")
  }

  /** The text of `v` with `left` levels still to go. */
  function Text(h: Heap, v: Value, caps: Caps, left: nat): string
    decreases left, 2, 0
  {
    match ShapeOf(h, v, caps)
    case Atom(t) => t
    case Shape(prefix, open, close, elems) => prefix + SeqText(h, open, close, elems, caps, left)
  }

  function ShownCount(elems: seq<Elem>, caps: Caps): (n: nat)
    ensures n <= |elems| && n <= caps.maxElements
  {
    if |elems| < caps.maxElements then |elems| else caps.maxElements
  }

  function MoreText(n: nat): string {
    if n == 0 then [] else ", " + [ELLIPSIS] + " (+" + Decimal(n) + " more)"
  }

  function SeqText(h: Heap, open: char, close: char, elems: seq<Elem>, caps: Caps, left: nat): string
    decreases left, 1, 0
  {
    if left == 0 then [open, ELLIPSIS, close]
    else
      var shown := ShownCount(elems, caps);
      [open] + ElemsText(h, elems[..shown], caps, left - 1) + MoreText(|elems| - shown) + [close]
  }

  function ElemsText(h: Heap, elems: seq<Elem>, caps: Caps, left: nat): string
    decreases left, 4, |elems|
  {
    if elems == [] then []
    else
      var n := |elems| - 1;
      ElemsText(h, elems[..n], caps, left) + (if n > 0 then ", " else "") + ElemText(h, elems[n], caps, left)
  }

  function ElemText(h: Heap, e: Elem, caps: Caps, left: nat): string
    decreases left, 3, 0
  {
    match e
    case Plain(v) => Text(h, v, caps, left)
    case Keyed(k, v) => KeyText(k, caps) + " => " + Text(h, v, caps, left)
    case JustKey(k) => KeyText(k, caps)
    case Named(n, slot) => n + ": " + if slot.Some? then Text(h, slot.value, caps, left) else "<unset>"
  }

  // ----- The renderer -----

  /** Visits a tree of the given depth and width can hold: the sum of width^k for k up to the depth. */
  function MostVisits(width: nat, depth: nat): nat {
    if depth == 0 then 1 else 1 + width * MostVisits(width, depth - 1)
  }

  function Power(width: nat, k: nat): nat {
    if k == 0 then 1 else width * Power(width, k - 1)
  }

  function PowerSum(width: nat, depth: nat): nat {
    if depth == 0 then 1 else PowerSum(width, depth - 1) + Power(width, depth)
  }

  lemma {:induction false} MostVisitsIsPowerSum(width: nat, depth: nat)
    ensures MostVisits(width, depth) == PowerSum(width, depth)
  {
    if depth > 0 {
      MostVisitsIsPowerSum(width, depth - 1);
      ShiftPowers(width, depth - 1);
    }
  }

  lemma {:induction false} ShiftPowers(width: nat, depth: nat)
    ensures 1 + width * PowerSum(width, depth) == PowerSum(width, depth + 1)
  {
    if depth == 0 {
      assert Power(width, 1) == width * Power(width, 0) == width;
    } else {
      ShiftPowers(width, depth - 1);
      Distribute(width, PowerSum(width, depth - 1), Power(width, depth));
    }
  }

  lemma Distribute(w: nat, a: nat, b: nat)
    ensures w * (a + b) == w * a + w * b
  {
  }

  class Renderer {
    const h: Heap
    const caps: Caps
    var out: string
    ghost var visits: nat

    constructor (h: Heap, caps: Caps)
      ensures this.h == h && this.caps == caps && out == "" && visits == 0
    {
      this.h := h;
      this.caps := caps;
      out := "";
      visits := 0;
    }

    method Push(s: string)
      modifies this
      ensures out == old(out) + s && visits == old(visits)
    {
      out := out + s;
    }

    method PushQuotedStr(s: string)
      modifies this
      ensures out == old(out) + QuotedText(s, caps) && visits == old(visits)
    {
      hide EscapeForDump, EncodeChar;
      out := out + "\"";
      var written: nat := 0;
      ghost var start := out;
      var i := 0;
      while i < |s|
        invariant i <= |s| && visits == old(visits)
        invariant out + Shown(s[i..], written, caps.maxScalarBytes) == start + Shown(s, 0, caps.maxScalarBytes)
        decreases |s| - i
      {
        ghost var tail := Shown(s[i + 1..], written + |EncodeChar(s[i])|, caps.maxScalarBytes);
        assert s[i..][0] == s[i] && s[i..][1..] == s[i + 1..];
        if written >= caps.maxScalarBytes {
          out := out + [ELLIPSIS];
          break;
        }
        assert out + (EscapeForDump(s[i]) + tail) == (out + EscapeForDump(s[i])) + tail;
        out := out + EscapeForDump(s[i]);
        written := written + |EncodeChar(s[i])|;
        i := i + 1;
      }
      assert out == start + Shown(s, 0, caps.maxScalarBytes) by {
        if i == |s| { assert s[i..] == []; assert out + [] == out; }
      }
      out := out + "\"";
      assert start + Shown(s, 0, caps.maxScalarBytes) + "\""
          == old(out) + ("\"" + Shown(s, 0, caps.maxScalarBytes) + "\"");
    }

    method PushBytes(bs: Bytes)
      modifies this
      ensures out == old(out) + BytesText(bs, caps) && visits == old(visits)
    {
      hide Decimal, OctetText;
      out := out + ("b[" + Decimal(|bs|) + "]");
      out := out + "\"";
      var shown := if |bs| < caps.maxScalarBytes then |bs| else caps.maxScalarBytes;
      ghost var start := out;
      for i := 0 to shown
        invariant visits == old(visits)
        invariant out + OctetsText(bs[..shown][i..]) == start + OctetsText(bs[..shown])
      {
        assert bs[..shown][i..][0] == bs[i] && bs[..shown][i..][1..] == bs[..shown][i + 1..];
        ghost var tail := OctetsText(bs[..shown][i + 1..]);
        assert out + (OctetText(bs[i]) + tail) == (out + OctetText(bs[i])) + tail;
        out := out + OctetText(bs[i]);
      }
      assert out == start + OctetsText(bs[..shown]);
      if |bs| > shown {
        out := out + [ELLIPSIS];
      }
      out := out + "\"";
    }

    method PushKey(k: Key)
      modifies this
      ensures out == old(out) + KeyText(k, caps) && visits == old(visits)
    {
      match k {
        case KInt(n) => Push(IntText(n));
        case KBool(b) => Push(BoolText(b));
        case KStr(s) => PushQuotedStr(s);
      }
    }

    /** Renders a value at a depth: termination does not depend on the graph, only on the depth cap. */
    method RenderInto(v: Value, depth: nat)
      requires depth <= caps.maxDepth
      modifies this
      ensures out == old(out) + Text(h, v, caps, caps.maxDepth - depth)
      ensures visits <= old(visits) + MostVisits(caps.maxElements, caps.maxDepth - depth)
      decreases caps.maxDepth - depth, 2
    {
      hide SeqText, QuotedText, BytesText, IntText, KeyText, MostVisits;
      visits := visits + 1;
      AtLeastOne(caps.maxElements, caps.maxDepth - depth);
      match v {
        case VInt(n) => Push(IntText(n));
        case VNumber(t) => Push(t);
        case VBool(b) => Push(BoolText(b));
        case VStr(s) => PushQuotedStr(s);
        case VBytes(bs) => PushBytes(bs);
        case VUnit => Push("unit");
        case VNull => Push("null");
        case VClosure => Push("<function>");
        case VChannel => Push("<channel>");
        case VTask => Push("<task>");
        case VDb(k) => Push("<" + k + ">");
        case VInstance(r) =>
          if h(r).cls == SECRET_CLASS {
            Push(SECRET_REDACTED);
            return;
          }
          RenderShape(ShapeOf(h, v, caps), depth);
        case VEnum(n, payload) =>
          if payload == [] {
            Push(n);
          } else {
            RenderShape(ShapeOf(h, v, caps), depth);
          }
        case _ => RenderShape(ShapeOf(h, v, caps), depth);
      }
    }

    /** A composite: its prefix, then its delimited elements. */
    method RenderShape(s: Shape, depth: nat)
      requires depth <= caps.maxDepth && s.Shape?
      modifies this
      ensures out == old(out) + (s.prefix + SeqText(h, s.open, s.close, s.elems, caps, caps.maxDepth - depth))
      ensures visits <= old(visits) + MostVisits(caps.maxElements, caps.maxDepth - depth) - 1
      decreases caps.maxDepth - depth, 1
    {
      hide SeqText, MostVisits;
      out := out + s.prefix;
      PushSeq(s.open, s.close, s.elems, depth);
      assert old(out) + s.prefix + SeqText(h, s.open, s.close, s.elems, caps, caps.maxDepth - depth)
          == old(out) + (s.prefix + SeqText(h, s.open, s.close, s.elems, caps, caps.maxDepth - depth));
    }

    method PushSeq(open: char, close: char, elems: seq<Elem>, depth: nat)
      requires depth <= caps.maxDepth
      modifies this
      ensures out == old(out) + SeqText(h, open, close, elems, caps, caps.maxDepth - depth)
      ensures visits <= old(visits) + MostVisits(caps.maxElements, caps.maxDepth - depth) - 1
      decreases caps.maxDepth - depth, 0
    {
      hide ElemsText, MostVisits, Decimal;
      AtLeastOne(caps.maxElements, caps.maxDepth - depth);
      if depth >= caps.maxDepth {
        out := out + [open];
        out := out + [ELLIPSIS];
        out := out + [close];
        return;
      }
      out := out + [open];
      var shown := ShownCount(elems, caps);
      PushElems(elems[..shown], depth + 1);
      if |elems| > shown {
        out := out + MoreText(|elems| - shown);
      }
      out := out + [close];
      UnfoldVisits(shown, caps.maxElements, caps.maxDepth - depth);
      ghost var inner := ElemsText(h, elems[..shown], caps, caps.maxDepth - depth - 1);
      FourParts(old(out), [open], inner, MoreText(|elems| - shown), [close]);
    }

    method PushElems(elems: seq<Elem>, depth: nat)
      requires depth <= caps.maxDepth
      modifies this
      ensures out == old(out) + ElemsText(h, elems, caps, caps.maxDepth - depth)
      ensures visits <= old(visits) + |elems| * MostVisits(caps.maxElements, caps.maxDepth - depth)
      decreases caps.maxDepth - depth, 4
    {
      hide ElemText, MostVisits;
      ghost var most := MostVisits(caps.maxElements, caps.maxDepth - depth);
      for i := 0 to |elems|
        invariant out == old(out) + ElemsText(h, elems[..i], caps, caps.maxDepth - depth)
        invariant visits <= old(visits) + i * most
      {
        assert elems[..i + 1][..i] == elems[..i];
        ghost var before := ElemsText(h, elems[..i], caps, caps.maxDepth - depth);
        if i > 0 {
          out := out + ", ";
        }
        RenderElem(elems[i], depth);
        assert old(out) + before + ", " + ElemText(h, elems[i], caps, caps.maxDepth - depth)
            == old(out) + (before + ", " + ElemText(h, elems[i], caps, caps.maxDepth - depth));
        assert (i + 1) * most == i * most + most;
      }
      assert elems[..|elems|] == elems;
    }

    method RenderElem(e: Elem, depth: nat)
      requires depth <= caps.maxDepth
      modifies this
      ensures out == old(out) + ElemText(h, e, caps, caps.maxDepth - depth)
      ensures visits <= old(visits) + MostVisits(caps.maxElements, caps.maxDepth - depth)
      decreases caps.maxDepth - depth, 3
    {
      hide Text, MostVisits, KeyText;
      match e {
        case Plain(v) => RenderInto(v, depth);
        case Keyed(k, v) =>
          PushKey(k);
          out := out + " => ";
          RenderInto(v, depth);
          assert old(out) + KeyText(k, caps) + " => " + Text(h, v, caps, caps.maxDepth - depth)
              == old(out) + (KeyText(k, caps) + " => " + Text(h, v, caps, caps.maxDepth - depth));
        case JustKey(k) => PushKey(k);
        case Named(n, slot) =>
          out := out + n;
          out := out + ": ";
          if slot.Some? {
            RenderInto(slot.value, depth);
            assert old(out) + n + ": " + Text(h, slot.value, caps, caps.maxDepth - depth)
                == old(out) + (n + ": " + Text(h, slot.value, caps, caps.maxDepth - depth));
          } else {
            out := out + "<unset>";
          }
      }
    }
  }

  lemma AtLeastOne(width: nat, depth: nat)
    ensures MostVisits(width, depth) >= 1
  {
  }

  lemma UnfoldVisits(shown: nat, width: nat, depth: nat)
    requires shown <= width && depth > 0
    ensures shown * MostVisits(width, depth - 1) <= MostVisits(width, depth) - 1
  {
    assert shown * MostVisits(width, depth - 1) <= width * MostVisits(width, depth - 1);
  }

  lemma FourParts(out: string, a: string, b: string, c: string, d: string)
    ensures out + a + b + c + d == out + (a + b + c + d)
  {
  }

  /** Rendering ends on every graph, cyclic ones included, after at most the sum of maxElements^k value
      visits for k from 0 to maxDepth. */
  method RenderWith(h: Heap, v: Value, caps: Caps) returns (text: string, ghost visits: nat)
    ensures text == Text(h, v, caps, caps.maxDepth)
    ensures visits <= PowerSum(caps.maxElements, caps.maxDepth)
  {
    var r := new Renderer(h, caps);
    r.RenderInto(v, 0);
    assert "" + Text(h, v, caps, caps.maxDepth) == Text(h, v, caps, caps.maxDepth);
    MostVisitsIsPowerSum(caps.maxElements, caps.maxDepth);
    text, visits := r.out, r.visits;
  }

  // ----- Secrets -----

  /** The two values look the same to `k` levels when the inside of secret instances is not looked at.
      References themselves are never compared. */
  ghost predicate Alike(h: Heap, v: Value, g: Heap, w: Value, k: nat)
    decreases k, 1
  {
    match (v, w)
    case (VInstance(r), VInstance(q)) =>
      h(r).cls == g(q).cls && (h(r).cls != SECRET_CLASS ==>
        |h(r).slots| == |g(q).slots| && forall i :: 0 <= i < |h(r).slots| ==>
          h(r).slots[i].name == g(q).slots[i].name && AlikeSlots(h, h(r).slots[i].val, g, g(q).slots[i].val, k))
    case (VList(xs), VList(ys)) => AlikeLists(h, xs, g, ys, k)
    case (VMap(es), VMap(fs)) =>
      |es| == |fs| && forall i :: 0 <= i < |es| ==>
        es[i].key == fs[i].key && (k > 0 ==> Alike(h, es[i].val, g, fs[i].val, k - 1))
    case (VEnum(m, xs), VEnum(n, ys)) => m == n && AlikeLists(h, xs, g, ys, k)
    case _ => !v.VInstance? && !v.VList? && !v.VMap? && !v.VEnum? && v == w
  }

  ghost predicate AlikeLists(h: Heap, xs: seq<Value>, g: Heap, ys: seq<Value>, k: nat)
    decreases k, 0
  {
    |xs| == |ys| && (k > 0 ==> forall i :: 0 <= i < |xs| ==> Alike(h, xs[i], g, ys[i], k - 1))
  }

  ghost predicate AlikeSlots(h: Heap, a: Option<Value>, g: Heap, b: Option<Value>, k: nat)
    decreases k, 0
  {
    (a.Some? <==> b.Some?) && (k > 0 && a.Some? && b.Some? ==> Alike(h, a.value, g, b.value, k - 1))
  }

  ghost predicate AlikeElems(h: Heap, a: Elem, g: Heap, b: Elem, left: nat) {
    match (a, b)
    case (Plain(v), Plain(w)) => Alike(h, v, g, w, left)
    case (Keyed(k, v), Keyed(l, w)) => k == l && Alike(h, v, g, w, left)
    case (JustKey(k), JustKey(l)) => k == l
    case (Named(m, s), Named(n, t)) => m == n && (s.Some? <==> t.Some?) && (s.Some? && t.Some? ==> Alike(h, s.value, g, t.value, left))
    case _ => false
  }

  /** Values alike to `left` levels have the same shape, and their elements are alike one level less. */
  lemma AlikeShapes(h: Heap, v: Value, g: Heap, w: Value, caps: Caps, left: nat)
    requires Alike(h, v, g, w, left)
    ensures var s, t := ShapeOf(h, v, caps), ShapeOf(g, w, caps);
            match (s, t)
            case (Atom(a), Atom(b)) => a == b
            case (Shape(p, o, c, es), Shape(p', o', c', fs)) =>
              p == p' && o == o' && c == c' && |es| == |fs|
              && (left > 0 ==> forall i :: 0 <= i < |es| ==> AlikeElems(h, es[i], g, fs[i], left - 1))
            case _ => false
  {
    hide IntText, QuotedText, BytesText, BoolText;
  }

  /** Values that differ only inside secrets render to the same text. */
  lemma {:induction false} AlikeRenderAlike(h: Heap, v: Value, g: Heap, w: Value, caps: Caps, left: nat)
    requires Alike(h, v, g, w, left)
    ensures Text(h, v, caps, left) == Text(g, w, caps, left)
    decreases left, 2, 0
  {
    hide ShapeOf, Alike, AlikeElems, ElemsText;
    AlikeShapes(h, v, g, w, caps, left);
    var s, t := ShapeOf(h, v, caps), ShapeOf(g, w, caps);
    if s.Shape? && left > 0 {
      var shown := ShownCount(s.elems, caps);
      AlikeElemsRender(h, s.elems[..shown], g, t.elems[..shown], caps, left - 1);
    }
  }

  lemma {:induction false} AlikeElemsRender(h: Heap, es: seq<Elem>, g: Heap, fs: seq<Elem>, caps: Caps, left: nat)
    requires |es| == |fs| && forall i :: 0 <= i < |es| ==> AlikeElems(h, es[i], g, fs[i], left)
    ensures ElemsText(h, es, caps, left) == ElemsText(g, fs, caps, left)
    decreases left, 4, |es|
  {
    hide Alike, Text, KeyText;
    if es != [] {
      var n := |es| - 1;
      AlikeElemsRender(h, es[..n], g, fs[..n], caps, left);
      AlikeElemRenders(h, es[n], g, fs[n], caps, left);
    }
  }

  lemma {:induction false} AlikeElemRenders(h: Heap, a: Elem, g: Heap, b: Elem, caps: Caps, left: nat)
    requires AlikeElems(h, a, g, b, left)
    ensures ElemText(h, a, caps, left) == ElemText(g, b, caps, left)
    decreases left, 3, 0
  {
    hide Alike, Text, KeyText;
    match (a, b)
    case (Plain(v), Plain(w)) => AlikeRenderAlike(h, v, g, w, caps, left);
    case (Keyed(_, v), Keyed(_, w)) => AlikeRenderAlike(h, v, g, w, caps, left);
    case (JustKey(_), JustKey(_)) =>
    case (Named(_, s), Named(_, t)) =>
      if s.Some? { AlikeRenderAlike(h, s.value, g, t.value, caps, left); }
  }

  /** Two heaps that agree except on the contents of secret instances. */
  ghost predicate DifferInSecrets(h: Heap, g: Heap) {
    forall r: Ref :: h(r).cls == g(r).cls && (h(r).cls != SECRET_CLASS ==> h(r) == g(r))
  }

  lemma {:induction false} SameOutsideSecrets(h: Heap, g: Heap, v: Value, k: nat)
    requires DifferInSecrets(h, g)
    ensures Alike(h, v, g, v, k)
    decreases k, v
  {
    match v
    case VInstance(r) =>
      if k > 0 && h(r).cls != SECRET_CLASS {
        forall i | 0 <= i < |h(r).slots| && h(r).slots[i].val.Some?
          ensures Alike(h, h(r).slots[i].val.value, g, h(r).slots[i].val.value, k - 1)
        {
          SameOutsideSecrets(h, g, h(r).slots[i].val.value, k - 1);
        }
      }
    case VList(xs) =>
      if k > 0 {
        forall i | 0 <= i < |xs| ensures Alike(h, xs[i], g, xs[i], k - 1) {
          SameOutsideSecrets(h, g, xs[i], k - 1);
        }
      }
    case VMap(es) =>
      if k > 0 {
        forall i | 0 <= i < |es| ensures Alike(h, es[i].val, g, es[i].val, k - 1) {
          SameOutsideSecrets(h, g, es[i].val, k - 1);
        }
      }
    case VEnum(_, xs) =>
      if k > 0 {
        forall i | 0 <= i < |xs| ensures Alike(h, xs[i], g, xs[i], k - 1) {
          SameOutsideSecrets(h, g, xs[i], k - 1);
        }
      }
    case _ =>
  }

  /** Whatever secrets hold, in whatever graph, the rendering is the same. */
  lemma SecretsDoNotShow(h: Heap, g: Heap, v: Value, caps: Caps)
    requires DifferInSecrets(h, g)
    ensures Text(h, v, caps, caps.maxDepth) == Text(g, v, caps, caps.maxDepth)
  {
    SameOutsideSecrets(h, g, v, caps.maxDepth);
    AlikeRenderAlike(h, v, g, v, caps, caps.maxDepth);
  }

  // ----- Strings in a dump -----

  /** Exactly the controls below U+0020, the quote and the backslash are escaped. */
  lemma EscapedExactly(c: char)
    ensures EscapeForDump(c) == [c] <==> c as int >= 0x20 && c != '"' && c != '\\'
    ensures forall d :: d in EscapeForDump(c) ==> d as int >= 0x20
    ensures forall d :: d in EscapeForDump(c) && d as int >= 0x7F ==> d == c
  {
  }

  function EscapeAll(s: string): string {
    if s == [] then [] else EscapeForDump(s[0]) + EscapeAll(s[1..])
  }

  /** How many characters are shown before the cap cuts in. */
  function ShownLength(s: string, written: nat, cap: nat): (k: nat)
    ensures k <= |s|
  {
    if s == [] || written >= cap then 0 else 1 + ShownLength(s[1..], written + |EncodeChar(s[0])|, cap)
  }

  /** What is shown is a prefix of the text, escaped, and an ellipsis if and only if something is left out;
      the prefix stops at the first character boundary at or past the cap, so its encoding is at most three
      bytes longer than the cap. */
  lemma {:induction false} ShownWithinCap(s: string, written: nat, cap: nat)
    ensures var k := ShownLength(s, written, cap);
            && Shown(s, written, cap) == EscapeAll(s[..k]) + (if k < |s| then [ELLIPSIS] else [])
            && (k < |s| ==> written + |Encode(s[..k])| >= cap)
            && (written <= cap + 3 ==> written + |Encode(s[..k])| <= cap + 3)
    decreases |s|
  {
    hide EncodeChar, EscapeForDump;
    if s != [] && written < cap {
      var more := written + |EncodeChar(s[0])|;
      var k := ShownLength(s[1..], more, cap);
      ShownWithinCap(s[1..], more, cap);
      assert s[..k + 1][0] == s[0] && s[..k + 1][1..] == s[1..][..k];
    }
  }

  /** No control below U+0020 survives in a rendered string, and every character from U+007F on does: the
      delete character, the controls U+0080 to U+009F and the line separators U+2028 and U+2029 too. */
  lemma {:induction false} ShownIsPrintable(s: string, written: nat, cap: nat)
    ensures forall c :: c in Shown(s, written, cap) ==> c as int >= 0x20
    ensures forall c :: c as int >= 0x7F && c != ELLIPSIS
                        ==> (c in Shown(s, written, cap) <==> c in s[..ShownLength(s, written, cap)])
    decreases |s|
  {
    hide EncodeChar, EscapeForDump;
    assert ELLIPSIS as int == 0x2026;
    if s != [] && written < cap {
      var more := written + |EncodeChar(s[0])|;
      var k := ShownLength(s[1..], more, cap);
      ShownIsPrintable(s[1..], more, cap);
      EscapedExactly(s[0]);
      assert s[..k + 1] == [s[0]] + s[1..][..k];
      forall c | c as int >= 0x7F && c != ELLIPSIS ensures c in EscapeForDump(s[0]) <==> c == s[0] {
        if c == s[0] { assert EscapeForDump(s[0]) == [s[0]]; }
      }
    }
  }
}
