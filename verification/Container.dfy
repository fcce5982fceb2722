/** The payload container of a built artifact (src/bundle/container.rs). */
module Container {
  import opened Crc32

  datatype Option<T> = None | Some(value: T)

  datatype Profile = Dev | Release {
    function FlagBit(): Byte {
      if Dev? then 1 else 0
    }
  }

  function FromFlags(flags: Byte): Profile {
    if flags & 1 == 1 then Dev else Release
  }

  const MAGIC: Bytes := [0x50, 0x48, 0x4F, 0x52, 0x4A, 0, 0, 0]
  const CONTAINER_VERSION: nat := 1
  const HEADER_LEN: nat := 32

  // ----- Little-endian numbers -----

  function Octet(n: nat): Byte
    requires n < 256
  {
    n as bv8
  }

  function ToNat(b: Byte): nat {
    b as int
  }

  function LeBytes(n: nat, k: nat): (s: Bytes)
    ensures |s| == k
  {
    if k == 0 then [] else [Octet(n % 256)] + LeBytes(n / 256, k - 1)
  }

  function FromLe(s: Bytes): nat {
    if s == [] then 0 else ToNat(s[0]) + 256 * FromLe(s[1..])
  }

  function Power256(k: nat): nat {
    if k == 0 then 1 else 256 * Power256(k - 1)
  }

  lemma NextOctet(b: Byte)
    requires b < 255
    ensures ToNat(b + 1) == ToNat(b) + 1
  {
  }

  lemma OctetOfNat(b: Byte)
    ensures Octet(ToNat(b)) == b
  {
  }

  lemma {:induction false} SomeOctet(n: nat) returns (b: Byte)
    requires n < 256
    ensures ToNat(b) == n
  {
    if n == 0 {
      b := 0;
    } else {
      b := SomeOctet(n - 1);
      assert b < 255;
      NextOctet(b);
      b := b + 1;
    }
  }

  lemma OctetBack(n: nat)
    requires n < 256
    ensures ToNat(Octet(n)) == n
  {
    hide Octet, ToNat;
    var b := SomeOctet(n);
    OctetOfNat(b);
  }

  lemma {:induction false} LeRoundTrip(n: nat, k: nat)
    requires n < Power256(k)
    ensures FromLe(LeBytes(n, k)) == n
    decreases k
  {
    hide Octet, ToNat;
    if k > 0 {
      OctetBack(n % 256);
      LeRoundTrip(n / 256, k - 1);
      assert LeBytes(n, k)[1..] == LeBytes(n / 256, k - 1);
    }
  }

  lemma EightOctets()
    ensures Power256(8) == 0x1_0000_0000_0000_0000 && Power256(2) == 0x1_0000
  {
    assert Power256(4) == 0x1_0000_0000;
  }

  function Le32(c: bv32): (s: Bytes)
    ensures |s| == 4
  {
    [(c & 0xFF) as bv8, ((c >> 8) & 0xFF) as bv8, ((c >> 16) & 0xFF) as bv8, ((c >> 24) & 0xFF) as bv8]
  }

  function From32(s: Bytes): bv32
    requires |s| == 4
  {
    Word(s[0], s[1], s[2], s[3])
  }

  lemma From32Le(c: bv32)
    ensures From32(Le32(c)) == c
  {
  }

  lemma Le32Injective(s: Bytes, t: Bytes)
    requires |s| == |t| == 4 && From32(s) == From32(t)
    ensures s == t
  {
    hide Word;
    WordInjective(s[0], s[1], s[2], s[3], t[0], t[1], t[2], t[3]);
    assert s == [s[0], s[1], s[2], s[3]] && t == [t[0], t[1], t[2], t[3]];
  }

  // ----- Encoding -----

  /** Everything the header checksum covers. */
  function Head(source: Bytes, profile: Profile): (s: Bytes)
    ensures |s| == 28
  {
    MAGIC + LeBytes(CONTAINER_VERSION, 2) + LeBytes(HEADER_LEN, 2) + [0, 0, 0, profile.FlagBit()]
    + LeBytes(|source|, 8) + Le32(Crc(source))
  }

  function Encoded(source: Bytes, profile: Profile): Bytes {
    Head(source, profile) + Le32(Crc(Head(source, profile))) + source
  }

  method EncodeContainerWith(source: Bytes, profile: Profile) returns (out: Bytes)
    ensures out == Encoded(source, profile)
  {
    hide Crc, Le32, LeBytes;
    out := MAGIC;
    out := out + LeBytes(CONTAINER_VERSION, 2);
    out := out + LeBytes(HEADER_LEN, 2);
    out := out + [0];
    out := out + [0];
    out := out + [0];
    out := out + [profile.FlagBit()];
    out := out + LeBytes(|source|, 8);
    var payloadCrc := Compute(source);
    out := out + Le32(payloadCrc);
    assert out == Head(source, profile) by {
      assert [0, 0, 0, profile.FlagBit()] == ([0] + [0]) + [0] + [profile.FlagBit()];
    }
    var headerCrc := Compute(out[0..28]);
    assert out[0..28] == out;
    out := out + Le32(headerCrc);
    out := out + source;
  }

  // ----- Decoding -----

  /** `usizeMax` is the platform's largest word: a payload length that does not fit, or that overflows
      with the header's, is refused. */
  function Decode(blob: Bytes, usizeMax: nat): Option<(Bytes, Profile)> {
    if |blob| < HEADER_LEN || blob[0..8] != MAGIC then None
    else if FromLe(blob[8..10]) > CONTAINER_VERSION then None
    else
      var headerLen := FromLe(blob[10..12]);
      if headerLen < HEADER_LEN || headerLen > |blob| then None
      else if Crc(blob[0..28]) != From32(blob[28..32]) then None
      else if blob[12] != 0 then None
      else
        var payloadLen := FromLe(blob[16..24]);
        var end := headerLen + payloadLen;
        if payloadLen > usizeMax || end > usizeMax || end > |blob| then None
        else
          var payload := blob[headerLen..end];
          if Crc(payload) != From32(blob[24..28]) then None
          else Some((payload, FromFlags(blob[15])))
  }

  // ----- What the header says -----

  lemma HeadFields(source: Bytes, profile: Profile)
    ensures var h := Head(source, profile);
            h[0..8] == MAGIC && h[8..10] == LeBytes(1, 2) && h[10..12] == LeBytes(32, 2) && h[12] == 0
            && h[15] == profile.FlagBit() && h[16..24] == LeBytes(|source|, 8) && h[24..28] == Le32(Crc(source))
  {
    hide Crc, Le32, LeBytes;
    FieldsOf(MAGIC, LeBytes(1, 2), LeBytes(32, 2), [0, 0, 0, profile.FlagBit()], LeBytes(|source|, 8),
             Le32(Crc(source)));
  }

  lemma FieldsOf(m: Bytes, v: Bytes, l: Bytes, f: Bytes, n: Bytes, c: Bytes)
    requires |m| == 8 && |v| == |l| == 2 && |f| == 4 && |n| == 8 && |c| == 4
    ensures var h := m + v + l + f + n + c;
            h[0..8] == m && h[8..10] == v && h[10..12] == l && h[12] == f[0] && h[15] == f[3]
            && h[16..24] == n && h[24..28] == c
  {
    var h := m + v + l + f + n + c;
    FieldAt(m + v + l + f + n, c, h);
    FieldAt(m + v + l + f, n, h);
    FieldAt(m + v + l, f, h);
    FieldAt(m + v, l, h);
    FieldAt(m, v, h);
    FieldAt([], m, h);
    assert [] + m == m;
    assert h[12] == h[12..16][0] && h[15] == h[12..16][3];
  }

  /** A field appended to a prefix of `h` is found in `h` after that prefix. */
  lemma FieldAt(p: Bytes, f: Bytes, h: Bytes)
    requires |p + f| <= |h| && h[..|p + f|] == p + f
    ensures h[|p|..|p| + |f|] == f && h[..|p|] == p
  {
    assert h[|p|..|p| + |f|] == h[..|p + f|][|p|..];
    assert h[..|p|] == h[..|p + f|][..|p|];
  }

  /** A blob whose first 28 bytes are a header for `source` carries that header's fields. */
  lemma BlobFields(blob: Bytes, source: Bytes, profile: Profile)
    requires |blob| >= 32 && blob[..28] == Head(source, profile)
    ensures blob[0..8] == MAGIC && FromLe(blob[8..10]) == 1 && FromLe(blob[10..12]) == 32 && blob[12] == 0
    ensures FromFlags(blob[15]) == profile
    ensures |source| < Power256(8) ==> FromLe(blob[16..24]) == |source|
    ensures From32(blob[24..28]) == Crc(source)
  {
    hide Crc, Le32, LeBytes, FromLe, From32, Power256;
    var h := Head(source, profile);
    HeadFields(source, profile);
    EightOctets();
    assert blob[0..8] == h[0..8] && blob[8..10] == h[8..10] && blob[10..12] == h[10..12];
    assert blob[16..24] == h[16..24] && blob[24..28] == h[24..28];
    assert blob[12] == h[12] && blob[15] == h[15];
    LeRoundTrip(1, 2);
    LeRoundTrip(32, 2);
    From32Le(Crc(source));
    if |source| < Power256(8) {
      LeRoundTrip(|source|, 8);
    }
  }

  /** Decoding a blob with an intact header comes down to the payload checksum. */
  lemma IntactHeader(blob: Bytes, source: Bytes, profile: Profile, usizeMax: nat)
    requires |blob| >= 32 && blob[..28] == Head(source, profile) && From32(blob[28..32]) == Crc(Head(source, profile))
    requires |source| + 32 <= usizeMax < 0x1_0000_0000_0000_0000
    ensures Decode(blob, usizeMax)
         == if |blob| < 32 + |source| then None
            else if Crc(blob[32..32 + |source|]) != Crc(source) then None
            else Some((blob[32..32 + |source|], profile))
  {
    hide Crc, Le32, LeBytes, FromLe, From32, FromFlags, Power256;
    BlobFields(blob, source, profile);
    EightOctets();
    assert blob[0..28] == blob[..28];
  }

  // ----- The guarantees -----

  lemma EncodedParts(source: Bytes, profile: Profile)
    ensures var e := Encoded(source, profile);
            |e| == 32 + |source| && e[..28] == Head(source, profile) && e[32..] == source
            && e[28..32] == Le32(Crc(Head(source, profile)))
            && From32(e[28..32]) == Crc(Head(source, profile))
  {
    hide Crc, Le32, Head, From32;
    From32Le(Crc(Head(source, profile)));
  }

  /** An encoded container decodes to exactly its source and profile, whatever follows it. */
  lemma RoundTrip(source: Bytes, profile: Profile, trailing: Bytes, usizeMax: nat)
    requires |source| + 32 <= usizeMax < 0x1_0000_0000_0000_0000
    ensures Decode(Encoded(source, profile) + trailing, usizeMax) == Some((source, profile))
  {
    hide Crc, Le32, Head, From32, Encoded, Decode;
    var e := Encoded(source, profile);
    EncodedParts(source, profile);
    var blob := e + trailing;
    assert blob[..28] == e[..28] && blob[28..32] == e[28..32];
    assert blob[32..32 + |source|] == e[32..];
    IntactHeader(blob, source, profile, usizeMax);
  }

  /** Every proper prefix is rejected. */
  lemma PrefixRejected(source: Bytes, profile: Profile, n: nat, usizeMax: nat)
    requires |source| + 32 <= usizeMax < 0x1_0000_0000_0000_0000 && n < |Encoded(source, profile)|
    ensures Decode(Encoded(source, profile)[..n], usizeMax) == None
  {
    hide Crc, Le32, Head, From32, Encoded;
    var e := Encoded(source, profile);
    EncodedParts(source, profile);
    if n >= 32 {
      hide Decode;
      var blob := e[..n];
      assert blob[..28] == e[..28] && blob[28..32] == e[28..32];
      IntactHeader(blob, source, profile, usizeMax);
    }
  }

  /** A header whose checked part or whose checksum was changed, but not both, is rejected. */
  lemma ChangedHeaderRejected(blob: Bytes, usizeMax: nat)
    requires |blob| >= 32 && Crc(blob[..28]) != From32(blob[28..32])
    ensures Decode(blob, usizeMax) == None
  {
    hide Crc, From32, FromLe, FromFlags;
    assert blob[0..28] == blob[..28];
  }

  /** Changing at most four consecutive payload bytes, to anything else, is rejected. */
  lemma PayloadBurstRejected(source: Bytes, profile: Profile, i: nat, patch: Bytes, usizeMax: nat)
    requires |source| + 32 <= usizeMax < 0x1_0000_0000_0000_0000
    requires |patch| <= 4 && i + |patch| <= |source| && source[i..i + |patch|] != patch
    ensures var e := Encoded(source, profile);
            |e| == 32 + |source| && Decode(e[..32 + i] + patch + e[32 + i + |patch|..], usizeMax) == None
  {
    hide Crc, Le32, Head, From32, Encoded, Decode;
    var e := Encoded(source, profile);
    var j := i + |patch|;
    EncodedParts(source, profile);
    var blob := e[..32 + i] + patch + e[32 + j..];
    var payload := source[..i] + patch + source[j..];
    assert blob[..28] == e[..28] && blob[28..32] == e[28..32];
    SplitPayload(e, source, i, patch);
    IntactHeader(blob, source, profile, usizeMax);
    assert source == source[..i] + source[i..j] + source[j..];
    BurstDetected(source[..i], source[i..j], patch, source[j..]);
  }

  lemma SplitPayload(e: Bytes, source: Bytes, i: nat, patch: Bytes)
    requires |e| == 32 + |source| && e[32..] == source && i + |patch| <= |source|
    ensures var blob := e[..32 + i] + patch + e[32 + i + |patch|..];
            |blob| == |e| && blob[32..32 + |source|] == source[..i] + patch + source[i + |patch|..]
  {
    assert e[32..32 + i] == source[..i] && e[32 + i + |patch|..] == source[i + |patch|..];
  }

  /** Changing any single byte, anywhere in the container, is rejected. */
  lemma ByteChangeRejected(source: Bytes, profile: Profile, i: nat, v: Byte, usizeMax: nat)
    requires |source| + 32 <= usizeMax < 0x1_0000_0000_0000_0000
    requires i < |Encoded(source, profile)| && Encoded(source, profile)[i] != v
    ensures Decode(Encoded(source, profile)[i := v], usizeMax) == None
  {
    hide Crc, Le32, Head, From32, Encoded, Decode;
    var e := Encoded(source, profile);
    EncodedParts(source, profile);
    var blob := e[i := v];
    if i < 28 {
      assert blob[..28] == e[..28][i := v] && blob[28..32] == e[28..32];
      ByteDetected(e[..28], i, v);
      ChangedHeaderRejected(blob, usizeMax);
    } else if i < 32 {
      assert blob[..28] == e[..28];
      assert blob[28..32][i - 28] != e[28..32][i - 28];
      if From32(blob[28..32]) == From32(e[28..32]) {
        Le32Injective(blob[28..32], e[28..32]);
      }
      ChangedHeaderRejected(blob, usizeMax);
    } else {
      var k := i - 32;
      assert source[k..k + 1] == [e[i]];
      PayloadBurstRejected(source, profile, k, [v], usizeMax);
      assert blob == e[..32 + k] + [v] + e[32 + k + 1..];
    }
  }
}
