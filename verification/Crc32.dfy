/** `crc32` (src/bundle/container.rs): the bitwise loop, and why it catches every single changed byte
    and every change confined to four consecutive bytes, at any length. */
module Crc32 {

  type Byte = bv8
  type Bytes = seq<Byte>

  const POLY: bv32 := 0xEDB8_8320
  const INIT: bv32 := 0xFFFF_FFFF

  function Xor(a: bv32, b: bv32): bv32 {
    a ^ b
  }

  /** The polynomial when the low bit is set, else nothing. */
  function Masked(x: bv32): bv32 {
    POLY & (0 - (x & 1))
  }

  function Half(x: bv32): bv32 {
    x >> 1
  }

  /** One round: shift right, and subtract the polynomial when the bit shifted out was set. */
  function Round(x: bv32): bv32 {
    Xor(Half(x), Masked(x))
  }

  function Rounds(x: bv32, n: nat): bv32 {
    if n == 0 then x else Round(Rounds(x, n - 1))
  }

  function Wide(b: Byte): bv32 {
    b as bv32
  }

  function Take(x: bv32, b: Byte): bv32 {
    Rounds(Xor(x, Wide(b)), 8)
  }

  /** The register after reading bytes from a given start. */
  function Register(x: bv32, bytes: Bytes): bv32 {
    if bytes == [] then x else Take(Register(x, bytes[..|bytes| - 1]), bytes[|bytes| - 1])
  }

  function Crc(bytes: Bytes): bv32 {
    !Register(INIT, bytes)
  }

  method Compute(bytes: Bytes) returns (result: bv32)
    ensures result == Crc(bytes)
  {
    hide Round, Wide, Xor;
    var crc := INIT;
    for i := 0 to |bytes|
      invariant crc == Register(INIT, bytes[..i])
    {
      assert bytes[..i + 1][..i] == bytes[..i];
      crc := Xor(crc, Wide(bytes[i]));
      ghost var start := crc;
      for k := 0 to 8
        invariant crc == Rounds(start, k)
      {
        crc := Step(crc);
      }
    }
    assert bytes[..|bytes|] == bytes;
    result := !crc;
  }

  /** The body of the inner loop. */
  method Step(crc: bv32) returns (next: bv32)
    ensures next == Round(crc)
  {
    var mask := 0 - (crc & 1);
    next := (crc >> 1) ^ (POLY & mask);
  }

  // ----- Linearity and injectivity -----

  lemma BitLinear(x: bv32, y: bv32, m: bv32, n: bv32)
    requires m == 0 - (x & 1) && n == 0 - (y & 1)
    ensures 0 - (Xor(x, y) & 1) == m ^ n
  {
  }

  lemma AndLinear(m: bv32, n: bv32)
    ensures POLY & (m ^ n) == Xor(POLY & m, POLY & n)
  {
  }

  lemma MaskedLinear(x: bv32, y: bv32)
    ensures Masked(Xor(x, y)) == Xor(Masked(x), Masked(y))
  {
    hide Xor;
    BitLinear(x, y, 0 - (x & 1), 0 - (y & 1));
    AndLinear(0 - (x & 1), 0 - (y & 1));
  }

  lemma HalfLinear(x: bv32, y: bv32)
    ensures Half(Xor(x, y)) == Xor(Half(x), Half(y))
  {
  }

  lemma XorAssociates(a: bv32, b: bv32, c: bv32)
    ensures Xor(Xor(a, b), c) == Xor(a, Xor(b, c))
  {
  }

  lemma XorCommutes(a: bv32, b: bv32)
    ensures Xor(a, b) == Xor(b, a)
  {
  }

  lemma XorSwap(a: bv32, b: bv32, c: bv32, d: bv32)
    ensures Xor(Xor(a, b), Xor(c, d)) == Xor(Xor(a, c), Xor(b, d))
  {
    hide Xor;
    XorAssociates(a, b, Xor(c, d));
    XorAssociates(b, c, d);
    XorCommutes(b, c);
    XorAssociates(c, b, d);
    XorAssociates(a, c, Xor(b, d));
  }

  lemma XorCancels(a: bv32, b: bv32, c: bv32)
    ensures Xor(a, c) == Xor(b, c) ==> a == b
    ensures Xor(c, a) == Xor(c, b) ==> a == b
  {
  }

  lemma RoundLinear(x: bv32, y: bv32)
    ensures Round(Xor(x, y)) == Xor(Round(x), Round(y))
  {
    hide Xor, Half, Masked;
    MaskedLinear(x, y);
    HalfLinear(x, y);
    XorSwap(Half(x), Half(y), Masked(x), Masked(y));
  }

  lemma RoundInjective(x: bv32, y: bv32)
    requires Round(x) == Round(y)
    ensures x == y
  {
  }

  lemma {:induction false} RoundsLinear(x: bv32, y: bv32, n: nat)
    ensures Rounds(Xor(x, y), n) == Xor(Rounds(x, n), Rounds(y, n))
  {
    hide Round, Xor;
    if n > 0 {
      RoundsLinear(x, y, n - 1);
      RoundLinear(Rounds(x, n - 1), Rounds(y, n - 1));
    }
  }

  lemma {:induction false} RoundsInjective(x: bv32, y: bv32, n: nat)
    requires Rounds(x, n) == Rounds(y, n)
    ensures x == y
  {
    hide Round;
    if n > 0 {
      RoundInjective(Rounds(x, n - 1), Rounds(y, n - 1));
      RoundsInjective(x, y, n - 1);
    }
  }

  lemma {:induction false} RoundsAdd(x: bv32, m: nat, n: nat)
    ensures Rounds(Rounds(x, m), n) == Rounds(x, m + n)
    decreases n
  {
    if n > 0 {
      RoundsAdd(x, m, n - 1);
    }
  }

  // ----- One changed byte -----

  /** Different registers stay different over the same bytes. */
  lemma {:induction false} DifferenceStays(x: bv32, y: bv32, bytes: Bytes)
    requires x != y
    ensures Register(x, bytes) != Register(y, bytes)
    decreases |bytes|
  {
    hide Round, Wide, Xor;
    if bytes != [] {
      var b := bytes[|bytes| - 1];
      var u, v := Register(x, bytes[..|bytes| - 1]), Register(y, bytes[..|bytes| - 1]);
      DifferenceStays(x, y, bytes[..|bytes| - 1]);
      if Take(u, b) == Take(v, b) {
        RoundsInjective(Xor(u, Wide(b)), Xor(v, Wide(b)), 8);
        XorCancels(u, v, Wide(b));
      }
    }
  }

  lemma {:induction false} RegisterConcat(x: bv32, a: Bytes, b: Bytes)
    ensures Register(x, a + b) == Register(Register(x, a), b)
    decreases |b|
  {
    hide Take;
    if b == [] {
      assert a + b == a;
    } else {
      RegisterConcat(x, a, b[..|b| - 1]);
      assert (a + b)[..|a + b| - 1] == a + b[..|b| - 1];
    }
  }

  // ----- Up to four changed bytes -----

  /** Four bytes as the word whose low byte is read first. */
  function Word(a: Byte, b: Byte, c: Byte, d: Byte): bv32 {
    ((Wide(a) | (Wide(b) << 8)) | (Wide(c) << 16)) | (Wide(d) << 24)
  }

  lemma WordInjective(a: Byte, b: Byte, c: Byte, d: Byte, a': Byte, b': Byte, c': Byte, d': Byte)
    requires Word(a, b, c, d) == Word(a', b', c', d')
    ensures a == a' && b == b' && c == c' && d == d'
  {
  }

  /** Eight rounds undo a shift by eight: nothing is subtracted while zeros are shifted out. */
  lemma RoundsUndoShift(y: bv32)
    requires y <= 0xFF_FFFF
    ensures Rounds(Shifted(y), 8) == y
  {
    hide Round, Shifted, Eight;
    EightRounds(Shifted(y));
    EightOf(y);
  }

  function Shifted(y: bv32): bv32 {
    y << 8
  }

  function Eight(x: bv32): bv32 {
    Round(Round(Round(Round(Round(Round(Round(Round(x))))))))
  }

  lemma EightRounds(x: bv32)
    ensures Rounds(x, 8) == Eight(x)
  {
    hide Round;
    assert Rounds(x, 1) == Round(x);
    assert Rounds(x, 3) == Round(Round(Rounds(x, 1)));
    assert Rounds(x, 5) == Round(Round(Rounds(x, 3)));
    assert Rounds(x, 7) == Round(Round(Rounds(x, 5)));
  }

  lemma EightOf(y: bv32)
    requires y <= 0xFF_FFFF
    ensures Eight(Shifted(y)) == y
  {
  }

  /** A byte below the bits of `rest`. */
  function Below(b: Byte, rest: bv32): bv32 {
    Wide(b) | (rest << 8)
  }

  lemma BelowIsXor(x: bv32, b: Byte, rest: bv32)
    ensures Xor(Xor(x, Wide(b)), Shifted(rest)) == Xor(x, Below(b, rest))
  {
  }

  /** Reading a byte then more is reading them shifted together. */
  lemma ReadTogether(x: bv32, b: Byte, rest: bv32)
    requires rest <= 0xFF_FFFF
    ensures Xor(Take(x, b), rest) == Rounds(Xor(x, Below(b, rest)), 8)
  {
    hide Round, Rounds, Xor, Shifted, Wide, Below;
    RoundsLinear(Xor(x, Wide(b)), Shifted(rest), 8);
    RoundsUndoShift(rest);
    BelowIsXor(x, b, rest);
  }

  function Three(b: Byte, c: Byte, d: Byte): bv32 {
    Below(b, Below(c, Wide(d)))
  }

  function Two(c: Byte, d: Byte): bv32 {
    Below(c, Wide(d))
  }

  lemma Nesting(a: Byte, b: Byte, c: Byte, d: Byte)
    ensures Word(a, b, c, d) == Below(a, Three(b, c, d)) && Three(b, c, d) <= 0xFF_FFFF
    ensures Three(b, c, d) == Below(b, Two(c, d)) && Two(c, d) <= 0xFF_FFFF
  {
  }

  /** Reading four bytes is thirty-two rounds on the register xor their word. */
  lemma FourBytes(x: bv32, a: Byte, b: Byte, c: Byte, d: Byte)
    ensures Register(x, [a, b, c, d]) == Rounds(Xor(x, Word(a, b, c, d)), 32)
  {
    hide Round, Rounds, Wide, Word, Three, Two, Take, Xor, Below, Register;
    Nesting(a, b, c, d);
    var r1 := Take(x, a);
    var r2 := Take(r1, b);
    var w := Xor(x, Word(a, b, c, d));
    RegisterFour(x, a, b, c, d);
    ReadTogether(x, a, Three(b, c, d));
    ReadTogether(r1, b, Two(c, d));
    TakeTwo(r2, c, d);
    assert Xor(r2, Two(c, d)) == Rounds(Rounds(w, 8), 8);
    RoundsAdd(w, 8, 8);
    RoundsAdd(w, 16, 16);
  }

  lemma RegisterFour(x: bv32, a: Byte, b: Byte, c: Byte, d: Byte)
    ensures Register(x, [a, b, c, d]) == Take(Take(Take(Take(x, a), b), c), d)
  {
    hide Take;
    assert [a, b, c, d][..3] == [a, b, c] && [a, b, c][..2] == [a, b] && [a, b][..1] == [a] && [a][..0] == [];
    assert Register(x, [a]) == Take(x, a);
    assert Register(x, [a, b]) == Take(Register(x, [a]), b);
    assert Register(x, [a, b, c]) == Take(Register(x, [a, b]), c);
  }

  lemma TakeTwo(x: bv32, c: Byte, d: Byte)
    ensures Take(Take(x, c), d) == Rounds(Xor(x, Two(c, d)), 16)
  {
    hide Round, Rounds, Wide, Xor, Below;
    WideSmall(d);
    ReadTogether(x, c, Wide(d));
    RoundsAdd(Xor(x, Two(c, d)), 8, 8);
  }

  lemma WideSmall(d: Byte)
    ensures Wide(d) <= 0xFF_FFFF
  {
  }

  /** Four bytes read from the same register leave it different exactly when they differ. */
  lemma FourBytesDiffer(x: bv32, s: Bytes, t: Bytes)
    requires |s| == |t| == 4
    ensures Register(x, s) == Register(x, t) <==> s == t
  {
    hide Round, Rounds, Wide, Word, Register, Xor;
    assert s == [s[0], s[1], s[2], s[3]] && t == [t[0], t[1], t[2], t[3]];
    FourBytes(x, s[0], s[1], s[2], s[3]);
    FourBytes(x, t[0], t[1], t[2], t[3]);
    if Register(x, s) == Register(x, t) {
      var u, v := Word(s[0], s[1], s[2], s[3]), Word(t[0], t[1], t[2], t[3]);
      RoundsInjective(Xor(x, u), Xor(x, v), 32);
      XorCancels(u, v, x);
      WordInjective(s[0], s[1], s[2], s[3], t[0], t[1], t[2], t[3]);
    }
  }

  /** The same for at most four: pad both with the same zeros. */
  lemma BurstDiffers(x: bv32, s: Bytes, t: Bytes)
    requires |s| == |t| <= 4 && s != t
    ensures Register(x, s) != Register(x, t)
  {
    hide Register;
    var z: Bytes := seq(4 - |s|, _ => 0);
    RegisterConcat(x, s, z);
    RegisterConcat(x, t, z);
    FourBytesDiffer(x, s + z, t + z);
    assert (s + z)[..|s|] == s && (t + z)[..|t|] == t;
  }

  /** Any change confined to at most four consecutive bytes changes the checksum. */
  lemma BurstDetected(before: Bytes, s: Bytes, t: Bytes, after: Bytes)
    requires |s| == |t| <= 4 && s != t
    ensures Crc(before + s + after) != Crc(before + t + after)
  {
    hide Register;
    RegisterConcat(INIT, before, s);
    RegisterConcat(INIT, before, t);
    RegisterConcat(INIT, before + s, after);
    RegisterConcat(INIT, before + t, after);
    BurstDiffers(Register(INIT, before), s, t);
    DifferenceStays(Register(INIT, before + s), Register(INIT, before + t), after);
    NotInjective(Register(INIT, before + s + after), Register(INIT, before + t + after));
  }

  lemma NotInjective(x: bv32, y: bv32)
    ensures !x == !y ==> x == y
  {
  }

  /** In particular any single changed byte, anywhere. */
  lemma ByteDetected(bytes: Bytes, i: nat, v: Byte)
    requires i < |bytes| && bytes[i] != v
    ensures Crc(bytes[i := v]) != Crc(bytes)
  {
    hide Crc;
    BurstDetected(bytes[..i], [bytes[i]], [v], bytes[i + 1..]);
    assert bytes == bytes[..i] + [bytes[i]] + bytes[i + 1..];
    assert bytes[i := v] == bytes[..i] + [v] + bytes[i + 1..];
  }
}
