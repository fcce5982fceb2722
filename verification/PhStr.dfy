/** The string value of the language (src/phstr.rs): short strings inline, long and literal ones behind
    a shared, reference-counted cell with a cached hash. A set of variables holding such strings behaves
    like variables holding plain texts: sharing is never observable. */
module PhStr {
  import opened Utf8
  import opened Order

  const INLINE_CAP: nat := 22

  // ----- The hash -----

  const FNV_OFFSET: bv64 := 0xcbf2_9ce4_8422_2325
  const FNV_PRIME: bv64 := 0x0000_0100_0000_01b3

  function Xored(h: bv64, b: Byte): bv64 {
    h ^ (b as bv64)
  }

  function Multiplied(h: bv64): bv64 {
    h * FNV_PRIME
  }

  /** FNV-1a: xor the byte in, then multiply, modulo 2^64. */
  function Fnv(bytes: Bytes): bv64 {
    if bytes == [] then FNV_OFFSET
    else Multiplied(Xored(Fnv(bytes[..|bytes| - 1]), bytes[|bytes| - 1]))
  }

  method Fnv1a(bytes: Bytes) returns (h: bv64)
    ensures h == Fnv(bytes)
  {
    hide Xored, Multiplied;
    h := FNV_OFFSET;
    for i := 0 to |bytes|
      invariant h == Fnv(bytes[..i])
    {
      assert bytes[..i + 1][..i] == bytes[..i];
      h := Xored(h, bytes[i]);
      h := Multiplied(h);
    }
    assert bytes[..|bytes|] == bytes;
  }

  /** The hash of a text; 0 is reserved for "not computed" and becomes 1. */
  function TextHash(text: string): (h: bv64)
    ensures h != 0
  {
    var f := Fnv(Encode(text));
    if f == 0 then 1 else f
  }

  // ----- Representations -----

  class HeapStr {
    var hash: bv64
    var s: string
    var strong: nat

    constructor (s: string, hash: bv64)
      ensures this.s == s && this.hash == hash && strong == 1
    {
      this.s := s;
      this.hash := hash;
      this.strong := 1;
    }

    /** The cache is empty or true. */
    ghost predicate CacheTrue()
      reads this
    {
      hash == 0 || hash == TextHash(s)
    }
  }

  datatype PhStr = Inline(len: nat, buf: Bytes) | Heap(rc: HeapStr)

  ghost predicate WellFormed(p: PhStr) {
    p.Inline? ==> p.len <= INLINE_CAP && |p.buf| == INLINE_CAP && Decode(p.buf[..p.len]).Some?
  }

  ghost function Refs(p: PhStr): set<HeapStr> {
    if p.Heap? then {p.rc} else {}
  }

  function AsBytes(p: PhStr): Bytes
    requires p.Inline? ==> p.len <= |p.buf|
    reads Refs(p)
  {
    match p
    case Inline(len, buf) => buf[..len]
    case Heap(rc) => Encode(rc.s)
  }

  /** The text a value denotes. */
  ghost function Text(p: PhStr): (t: string)
    requires WellFormed(p)
    reads Refs(p)
    ensures Encode(t) == AsBytes(p) && Decode(AsBytes(p)) == Some(t)
  {
    match p
    case Inline(len, buf) =>
      EncodeDecoded(buf[..len]);
      Decode(buf[..len]).value
    case Heap(rc) =>
      DecodeEncoded(rc.s);
      rc.s
  }

  function Zeros(n: nat): (z: Bytes)
    ensures |z| == n
  {
    seq(n, _ => 0)
  }

  /** A short text, inline. */
  method MakeInline(bytes: Bytes, ghost text: string) returns (p: PhStr)
    requires |bytes| <= INLINE_CAP && bytes == Encode(text)
    ensures p.Inline? && WellFormed(p) && Text(p) == text
  {
    var buf := bytes + Zeros(INLINE_CAP - |bytes|);
    p := Inline(|bytes|, buf);
    assert buf[..|bytes|] == bytes;
    DecodeEncoded(text);
  }

  /** A value whose cell has this one handle and no false cache. */
  ghost predicate Sole(p: PhStr)
    reads Refs(p)
  {
    p.Heap? ==> p.rc.strong == 1 && p.rc.CacheTrue()
  }

  method New(s: string) returns (p: PhStr)
    ensures WellFormed(p) && Text(p) == s && Sole(p) && fresh(Refs(p))
  {
    var bytes := Encode(s);
    if |bytes| <= INLINE_CAP {
      p := MakeInline(bytes, s);
    } else {
      p := OnHeap(s);
    }
  }

  method OnHeap(s: string) returns (p: PhStr)
    ensures WellFormed(p) && Text(p) == s && Sole(p) && fresh(Refs(p)) && p.Heap?
  {
    var cell := new HeapStr(s, 0);
    p := Heap(cell);
  }

  /** Always on the heap, with the hash already there. */
  method Literal(s: string) returns (p: PhStr)
    ensures WellFormed(p) && Text(p) == s && Sole(p) && fresh(Refs(p)) && p.Heap?
  {
    var h := Fnv1a(Encode(s));
    var cell := new HeapStr(s, if h == 0 then 1 else h);
    p := Heap(cell);
  }

  method Concat(a: PhStr, b: PhStr) returns (p: PhStr)
    requires WellFormed(a) && WellFormed(b)
    ensures WellFormed(p) && Text(p) == Text(a) + Text(b) && Sole(p) && fresh(Refs(p))
  {
    var ab, bb := AsBytes(a), AsBytes(b);
    EncodeConcat(Text(a), Text(b));
    if |ab| + |bb| <= INLINE_CAP {
      p := MakeInline(ab + bb, Text(a) + Text(b));
    } else {
      var s, t := Decode(ab), Decode(bb);
      p := OnHeap(s.value + t.value);
    }
  }

  /** Equality looks at the cells first: the same cell is the same text. */
  method Equal(a: PhStr, b: PhStr) returns (eq: bool)
    requires WellFormed(a) && WellFormed(b)
    ensures eq <==> Text(a) == Text(b)
  {
    if a.Heap? && b.Heap? && a.rc == b.rc {
      return true;
    }
    eq := AsBytes(a) == AsBytes(b);
  }

  /** Comparing bytes orders the texts by code point. */
  lemma CompareIsTextOrder(a: PhStr, b: PhStr)
    requires WellFormed(a) && WellFormed(b)
    ensures BytesLe(AsBytes(a), AsBytes(b)) <==> StrLe(Text(a), Text(b))
  {
    ByteOrderIsCodePointOrder(Text(a), Text(b));
  }

  /** The cached hash, computed and stored on first use. */
  method CachedHash(p: PhStr) returns (h: bv64)
    requires WellFormed(p) && (p.Heap? ==> p.rc.CacheTrue())
    modifies Refs(p)
    ensures h == TextHash(Text(p)) && Text(p) == old(Text(p))
    ensures p.Heap? ==> p.rc.CacheTrue() && p.rc.strong == old(p.rc.strong) && p.rc.s == old(p.rc.s)
  {
    if p.Heap? && p.rc.hash != 0 {
      return p.rc.hash;
    }
    h := Fnv1a(AsBytes(p));
    if h == 0 {
      h := 1;
    }
    if p.Heap? {
      p.rc.hash := h;
    }
  }

  /** Mutates the cell when this is its only handle and the bytes are text. */
  method AppendInPlace(p: PhStr, bytes: Bytes) returns (done: bool)
    requires WellFormed(p) && (p.Heap? ==> p.rc.CacheTrue())
    modifies Refs(p)
    ensures done <==> p.Heap? && old(p.rc.strong) == 1 && Decode(bytes).Some?
    ensures Text(p) == if done then old(Text(p)) + Decode(bytes).value else old(Text(p))
    ensures p.Heap? ==> p.rc.CacheTrue() && p.rc.strong == old(p.rc.strong)
  {
    if p.Heap? && p.rc.strong == 1 {
      var s := Decode(bytes);
      if s.None? {
        return false;
      }
      p.rc.s := p.rc.s + s.value;
      p.rc.hash := 0;
      return true;
    }
    done := false;
  }

  // ----- Variables -----

  datatype Op =
    | MakeNew(h: nat, s: string)
    | MakeLiteral(h: nat, s: string)
    | Copy(h: nat, source: nat)
    | Drop(h: nat)
    | Join(h: nat, a: nat, b: nat)
    | Append(h: nat, bytes: Bytes)
    | Hash(h: nat)

  /** The same operations on variables that hold texts, with nothing to share. `Append` stands for the
      accumulator `s = s + x`: in place when possible, else by concatenation. */
  function Step(m: map<nat, string>, op: Op): map<nat, string> {
    match op
    case MakeNew(h, s) => m[h := s]
    case MakeLiteral(h, s) => m[h := s]
    case Copy(h, from) => if from in m then m[h := m[from]] else m
    case Drop(h) => m - {h}
    case Join(h, a, b) => if a in m && b in m then m[h := m[a] + m[b]] else m
    case Append(h, bytes) => if h in m && Decode(bytes).Some? then m[h := m[h] + Decode(bytes).value] else m
    case Hash(h) => m
  }

  function Steps(m: map<nat, string>, ops: seq<Op>): map<nat, string> {
    if ops == [] then m else Step(Steps(m, ops[..|ops| - 1]), ops[|ops| - 1])
  }

  ghost function CellsOf(m: map<nat, PhStr>): set<HeapStr> {
    set h | h in m && m[h].Heap? :: m[h].rc
  }

  ghost function HoldersOf(m: map<nat, PhStr>, r: HeapStr): set<nat> {
    set h | h in m && m[h] == Heap(r)
  }

  lemma BindingAddsCell(m: map<nat, PhStr>, h: nat, p: PhStr)
    requires h !in m
    ensures CellsOf(m[h := p]) == CellsOf(m) + Refs(p)
  {
    var n := m[h := p];
    assert h in n && n[h] == p;
    forall r | r in CellsOf(m) ensures r in CellsOf(n) {
      var k :| k in m && m[k] == Heap(r);
      assert k in n && n[k] == m[k];
    }
  }

  /** Binding an unused variable adds one holder, to the cell of its value alone. */
  lemma BindingAddsHolder(m: map<nat, PhStr>, h: nat, p: PhStr, r: HeapStr)
    requires h !in m
    ensures |HoldersOf(m[h := p], r)| == |HoldersOf(m, r)| + if p == Heap(r) then 1 else 0
    ensures r !in CellsOf(m) ==> HoldersOf(m, r) == {}
  {
    var n := m[h := p];
    if p == Heap(r) {
      assert HoldersOf(n, r) == HoldersOf(m, r) + {h};
    } else {
      assert HoldersOf(n, r) == HoldersOf(m, r);
    }
  }

  twostate lemma TextKept(p: PhStr)
    requires WellFormed(p) && (p.Heap? ==> p.rc.s == old(p.rc.s))
    ensures Text(p) == old(Text(p))
  {
  }

  lemma HeapText(r: HeapStr)
    ensures Text(Heap(r)) == r.s
  {
  }

  class Variables {
    var handles: map<nat, PhStr>

    constructor ()
      ensures Valid() && Contents() == map[] && Cells() == {}
    {
      handles := map[];
    }

    ghost function Cells(): set<HeapStr>
      reads this
    {
      CellsOf(handles)
    }

    ghost function Holders(r: HeapStr): set<nat>
      reads this
    {
      HoldersOf(handles, r)
    }

    /** Every value is well formed; every cell counts its handles and caches the truth. */
    ghost predicate Valid()
      reads this, Cells()
    {
      && (forall h :: h in handles ==> WellFormed(handles[h]))
      && (forall r :: r in Cells() ==> r.strong == |Holders(r)| && r.CacheTrue())
    }

    /** What each variable denotes. */
    ghost function Contents(): map<nat, string>
      requires Valid()
      reads this, Cells()
    {
      map h | h in handles :: Text(handles[h])
    }

    lemma SoleHolder(h: nat)
      requires Valid() && h in handles && handles[h].Heap? && handles[h].rc.strong == 1
      ensures forall k :: k in handles && k != h ==> handles[k] != handles[h]
    {
      var s := Holders(handles[h].rc);
      assert h in s;
      forall k | k in handles && k != h ensures handles[k] != handles[h] {
        if handles[k] == handles[h] {
          assert {h, k} <= s;
          SubsetCard({h, k}, s);
        }
      }
    }

    /** Forgets a variable, dropping its reference. */
    method Release(h: nat)
      requires Valid()
      modifies this, Cells()
      ensures Valid() && Contents() == old(Contents()) - {h}
      ensures Cells() <= old(Cells())
    {
      hide Fnv, Encode, Decode, TextHash, AsBytes;
      if h !in handles {
        return;
      }
      var p := handles[h];
      if p.Heap? {
        ghost var held := Holders(p.rc);
        assert p.rc in Cells() && h in held;
        handles := handles - {h};
        p.rc.strong := p.rc.strong - 1;
        assert Holders(p.rc) == held - {h};
      } else {
        handles := handles - {h};
      }
      forall r | r in Cells() && (p.Heap? ==> r != p.rc) ensures Holders(r) == old(Holders(r)) {
      }
    }

    /** Gives an unused variable a value of its own. */
    method Put(h: nat, p: PhStr)
      requires Valid() && h !in handles && WellFormed(p)
      requires Sole(p) && Refs(p) !! Cells()
      modifies this
      ensures Valid() && Contents() == old(Contents())[h := Text(p)]
      ensures Cells() == old(Cells()) + Refs(p)
    {
      hide Fnv, Encode, Decode, TextHash, AsBytes, HeapStr.CacheTrue, CellsOf, HoldersOf;
      BindingAddsCell(handles, h, p);
      forall r | r in Cells() + Refs(p) {
        BindingAddsHolder(handles, h, p, r);
      }
      handles := handles[h := p];
    }

    /** Assigns a value of its own to a variable, dropping what it held. */
    method Store(h: nat, p: PhStr)
      requires Valid() && WellFormed(p) && Sole(p) && Refs(p) !! Cells()
      modifies this, Cells()
      ensures Valid() && Contents() == old(Contents())[h := old(Text(p))]
      ensures Cells() <= old(Cells()) + Refs(p)
    {
      hide Fnv, Encode, Decode, TextHash, AsBytes;
      Release(h);
      assert Text(p) == old(Text(p));
      Put(h, p);
    }

    /** Makes an unused variable another handle on a cell. */
    method ShareCell(h: nat, r: HeapStr)
      requires Valid() && h !in handles && r in Cells()
      modifies this, Cells()
      ensures Valid() && Contents() == old(Contents())[h := old(r.s)]
      ensures Cells() == old(Cells())
    {
      hide Fnv, Encode, Decode, TextHash, AsBytes, Text, CellsOf, HoldersOf;
      ghost var before := handles;
      BindingAddsCell(before, h, Heap(r));
      forall q | q in Cells() {
        BindingAddsHolder(before, h, Heap(r), q);
      }
      r.strong := r.strong + 1;
      handles := handles[h := Heap(r)];
      HeapText(r);
      forall k | k in before ensures handles[k] == before[k] && Text(handles[k]) == old(Text(before[k])) {
        TextKept(before[k]);
      }
    }

    /** Makes an unused variable share another's value. */
    method Share(h: nat, from: nat)
      requires Valid() && h !in handles && from in handles
      modifies this, Cells()
      ensures Valid() && Contents() == old(Contents())[h := old(Contents())[from]]
      ensures Cells() == old(Cells())
    {
      hide Fnv, Encode, Decode, TextHash, AsBytes;
      match handles[from] {
        case Inline(_, _) => Put(h, handles[from]);
        case Heap(rc) => ShareCell(h, rc);
      }
    }

    method Perform(op: Op)
      requires Valid()
      modifies this, Cells()
      ensures Valid() && Contents() == Step(old(Contents()), op)
      ensures fresh(Cells() - old(Cells()))
    {
      hide Fnv, Encode, Decode, TextHash, AsBytes, Sole, WellFormed, Refs, Text;
      match op {
        case MakeNew(h, s) =>
          var p := New(s);
          Store(h, p);
        case MakeLiteral(h, s) =>
          var p := Literal(s);
          Store(h, p);
        case Copy(h, source) =>
          if source in handles && source != h {
            assert source in Contents();
            Release(h);
            assert source in Contents();
            Share(h, source);
          }
        case Drop(h) =>
          Release(h);
        case Join(h, a, b) =>
          if a in handles && b in handles {
            var p := Concat(handles[a], handles[b]);
            Store(h, p);
          }
        case Append(h, bytes) =>
          if h in handles {
            AppendTo(h, bytes);
          }
        case Hash(h) =>
          if h in handles {
            var v := HashOf(h);
          }
      }
    }

    method AppendToCell(h: nat, r: HeapStr, bytes: Bytes) returns (done: bool)
      requires Valid() && h in handles && handles[h] == Heap(r)
      modifies r
      ensures Valid() && done == (old(r.strong) == 1 && Decode(bytes).Some?)
      ensures Contents() == if done then old(Contents())[h := old(Contents())[h] + Decode(bytes).value] else old(Contents())
    {
      hide Fnv, Encode, Decode, TextHash, AsBytes;
      assert r in Cells();
      if r.strong == 1 {
        SoleHolder(h);
      }
      hide CellsOf, HoldersOf, Text;
      done := AppendInPlace(Heap(r), bytes);
      HeapText(r);
      forall k | k in handles && handles[k] != Heap(r) ensures Text(handles[k]) == old(Text(handles[k])) {
        TextKept(handles[k]);
      }
    }

    /** Appends in place exactly if the variable is the only owner of its cell; else changes nothing. */
    method TryAppend(h: nat, bytes: Bytes) returns (done: bool)
      requires Valid() && h in handles
      modifies Refs(handles[h])
      ensures Valid()
      ensures done == (handles[h].Heap? && old(handles[h].rc.strong) == 1 && Decode(bytes).Some?)
      ensures Contents() == if done then old(Contents())[h := old(Contents())[h] + Decode(bytes).value] else old(Contents())
    {
      hide Fnv, Encode, Decode, TextHash, AsBytes;
      match handles[h] {
        case Inline(_, _) => done := AppendInPlace(handles[h], bytes);
        case Heap(rc) => done := AppendToCell(h, rc, bytes);
      }
    }

    /** `s = s + x`: in place when that works, else a fresh concatenation. */
    method AppendTo(h: nat, bytes: Bytes)
      requires Valid() && h in handles
      modifies this, Cells()
      ensures Valid() && Contents() == Step(old(Contents()), Append(h, bytes))
      ensures fresh(Cells() - old(Cells()))
    {
      hide Fnv, Encode, Decode, TextHash, AsBytes;
      assert Refs(handles[h]) <= Cells();
      var done := TryAppend(h, bytes);
      if !done && Decode(bytes).Some? {
        var q := New(Decode(bytes).value);
        var r := Concat(handles[h], q);
        Store(h, r);
      }
    }

    /** Asking for a hash changes no text, and equal texts have equal hashes however they are held. */
    method HashOf(h: nat) returns (v: bv64)
      requires Valid() && h in handles
      modifies Cells()
      ensures Valid() && Contents() == old(Contents()) && Cells() == old(Cells())
      ensures v == TextHash(Contents()[h])
    {
      hide Fnv, Encode, Decode, TextHash, AsBytes;
      v := CachedHash(handles[h]);
    }

    /** Over every run, the variables denote exactly what texts without sharing would be. */
    method Run(ops: seq<Op>)
      requires Valid()
      modifies this, Cells()
      ensures Valid() && Contents() == Steps(old(Contents()), ops)
    {
      for i := 0 to |ops|
        invariant Valid() && Contents() == Steps(old(Contents()), ops[..i])
        invariant fresh(Cells() - old(Cells()))
      {
        assert ops[..i + 1][..i] == ops[..i];
        Perform(ops[i]);
      }
      assert ops[..|ops|] == ops;
    }
  }

  lemma SubsetCard(a: set<nat>, b: set<nat>)
    requires a <= b
    ensures |a| <= |b|
  {
    assert b == a + (b - a);
  }
}
