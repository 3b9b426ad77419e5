/**
  The formats of Ed25519 certificates (section 2.1 of Tor's cert-spec) and of EXTEND2 cells
  (section 5.1.2 of Tor's tor-spec): objects, encodings, parsers, and their laws.
*/
module CertFormats {
  import opened Bytes
  import opened CodecLaws

  const CERTEXT_SIGNED_WITH_KEY := 4
  const LS_IPV4 := 0
  const LS_IPV6 := 1
  const LS_LEGACY_ID := 2
  const LS_ED25519_ID := 3

  type Bytes16 = s: seq<Byte> | |s| == 16 witness Zeros(16)
  type Bytes20 = s: seq<Byte> | |s| == 20 witness Zeros(20)
  type Bytes32 = s: seq<Byte> | |s| == 32 witness Zeros(32)
  type Bytes64 = s: seq<Byte> | |s| == 64 witness Zeros(64)

  // ---- certificate extensions ----

  /** Both members of the union are fields; `extType` says which one counts. */
  datatype Extension = Extension(extLength: U16, extType: Byte, extFlags: Byte, signingKey: Bytes32,
      unparsed: seq<Byte>)

  function ExtensionUnion(x: Extension): seq<Byte> {
    if x.extType == CERTEXT_SIGNED_WITH_KEY then x.signingKey else x.unparsed
  }

  predicate ExtensionFits(x: Extension) {
    |ExtensionUnion(x)| < 0x1_0000
  }

  function EncodeExtension(x: Extension): (r: seq<Byte>)
    ensures |r| == 4 + |ExtensionUnion(x)|
  {
    ToBe(|ExtensionUnion(x)|, 2) + [x.extType, x.extFlags] + ExtensionUnion(x)
  }

  /** The length field filled in, and the union member that does not count blank. */
  function NormalExtension(x: Extension): Extension {
    MakeExtension(|ExtensionUnion(x)| % 0x1_0000, x.extType, x.extFlags, ExtensionUnion(x))
  }

  function MakeExtension(n: U16, t: Byte, flags: Byte, union: seq<Byte>): Extension {
    if t != CERTEXT_SIGNED_WITH_KEY then Extension(n, t, flags, Zeros(32), union)
    else Extension(n, t, flags, if |union| == 32 then union else Zeros(32), [])
  }

  function ParseExtension(s: seq<Byte>): Parse<Extension> {
    if |s| < 4 then Fail(TRUNCATED) else
    var n := U16At(s[..2]);
    if |s| < 4 + n then Fail(TRUNCATED)
    else if s[2] == CERTEXT_SIGNED_WITH_KEY && n != 32 then Fail(INVALID)
    else Parsed(MakeExtension(n, s[2], s[3], s[4..4 + n]), 4 + n)
  }

  function ExtensionCodec(): Codec<Extension> {
    Codec(EncodeExtension, ParseExtension, ExtensionFits, NormalExtension)
  }

  /** The parser reads the encoding's fields back, from as much of it as is there. */
  lemma ExtensionFields(x: Extension, s: seq<Byte>)
    requires ExtensionFits(x) && |s| >= 4 && s[..4] == EncodeExtension(x)[..4]
    ensures U16At(s[..2]) == |ExtensionUnion(x)| && s[2] == x.extType && s[3] == x.extFlags
  {
    var e := EncodeExtension(x);
    U16RoundTrip(|ExtensionUnion(x)|);
    assert s[..2] == s[..4][..2] == e[..2] == ToBe(|ExtensionUnion(x)|, 2);
    assert s[2] == s[..4][2] == e[2] && s[3] == s[..4][3] == e[3];
  }

  lemma ExtensionLawful()
    ensures Lawful(ExtensionCodec())
  {
    var c := ExtensionCodec();
    forall x: Extension | c.ok(x) ensures RoundTrips(c, x) && Truncates(c, x) {
      forall rest: seq<Byte>
        ensures c.parse(c.enc(x) + rest) == Parsed(c.norm(x), |c.enc(x)|)
      {
        ExtensionRoundTrips(x, rest);
      }
      forall k: nat | k < |c.enc(x)| ensures c.parse(c.enc(x)[..k]) == Fail(TRUNCATED) { ExtensionTruncates(x, k); }
    }
    forall s ensures Canonical(c, s) { ExtensionCanonical(s); }
  }

  lemma ExtensionRoundTrips(x: Extension, rest: seq<Byte>)
    requires ExtensionFits(x)
    ensures ParseExtension(EncodeExtension(x) + rest) == Parsed(NormalExtension(x), |EncodeExtension(x)|)
  {
    var e, n := EncodeExtension(x), |ExtensionUnion(x)|;
    assert (e + rest)[..4] == e[..4];
    ExtensionFields(x, e + rest);
    assert (e + rest)[4..4 + n] == ExtensionUnion(x);
  }

  lemma ExtensionTruncates(x: Extension, k: nat)
    requires ExtensionFits(x) && k < |EncodeExtension(x)|
    ensures ParseExtension(EncodeExtension(x)[..k]) == Fail(TRUNCATED)
  {
    if k >= 4 {
      assert EncodeExtension(x)[..k][..4] == EncodeExtension(x)[..4];
      ExtensionFields(x, EncodeExtension(x)[..k]);
    }
  }

  lemma ExtensionCanonical(s: seq<Byte>)
    ensures Canonical(ExtensionCodec(), s)
  {
    if ParseExtension(s).Parsed? {
      var n := U16At(s[..2]);
      var x := ParseExtension(s).obj;
      U16Canonical(s[..2]);
      assert ExtensionUnion(x) == s[4..4 + n];
      assert s[..2] + [s[2], s[3]] + s[4..4 + n] == s[..4 + n];
    }
  }

  // ---- link specifiers ----

  datatype Specifier = Specifier(
    lsType: Byte,
    lsLen: Byte,
    ipv4Addr: U32,
    ipv4Port: U16,
    ipv6Addr: Bytes16,
    ipv6Port: U16,
    legacyId: Bytes20,
    ed25519Id: Bytes32,
    unrecognized: seq<Byte>)

  function SpecifierUnion(x: Specifier): seq<Byte> {
    if x.lsType == LS_IPV4 then ToBe(x.ipv4Addr, 4) + ToBe(x.ipv4Port, 2)
    else if x.lsType == LS_IPV6 then x.ipv6Addr + ToBe(x.ipv6Port, 2)
    else if x.lsType == LS_LEGACY_ID then x.legacyId
    else if x.lsType == LS_ED25519_ID then x.ed25519Id
    else x.unrecognized
  }

  predicate SpecifierFits(x: Specifier) {
    |SpecifierUnion(x)| < 0x100
  }

  function EncodeSpecifier(x: Specifier): (r: seq<Byte>)
    ensures |r| == 2 + |SpecifierUnion(x)|
  {
    [x.lsType, |SpecifierUnion(x)| % 0x100] + SpecifierUnion(x)
  }

  /** A union of this type has this many bytes, unless it may have any number. */
  predicate UnionSizeOk(t: Byte, n: nat) {
    && (t == LS_IPV4 ==> n == 6) && (t == LS_IPV6 ==> n == 18)
    && (t == LS_LEGACY_ID ==> n == 20) && (t == LS_ED25519_ID ==> n == 32)
  }

  function BlankSpecifier(t: Byte, n: Byte): Specifier {
    Specifier(t, n, 0, 0, Zeros(16), 0, Zeros(20), Zeros(32), [])
  }

  function MakeSpecifier(t: Byte, n: Byte, union: seq<Byte>): Specifier {
    var x := BlankSpecifier(t, n);
    if !UnionSizeOk(t, |union|) then x
    else if t == LS_IPV4 then x.(ipv4Addr := U32At(union[..4]), ipv4Port := U16At(union[4..]))
    else if t == LS_IPV6 then x.(ipv6Addr := union[..16], ipv6Port := U16At(union[16..]))
    else if t == LS_LEGACY_ID then x.(legacyId := union)
    else if t == LS_ED25519_ID then x.(ed25519Id := union)
    else x.(unrecognized := union)
  }

  /** The length field filled in, and the union members that do not count blank. */
  function NormalSpecifier(x: Specifier): Specifier {
    var x' := BlankSpecifier(x.lsType, |SpecifierUnion(x)| % 0x100);
    if x.lsType == LS_IPV4 then x'.(ipv4Addr := x.ipv4Addr, ipv4Port := x.ipv4Port)
    else if x.lsType == LS_IPV6 then x'.(ipv6Addr := x.ipv6Addr, ipv6Port := x.ipv6Port)
    else if x.lsType == LS_LEGACY_ID then x'.(legacyId := x.legacyId)
    else if x.lsType == LS_ED25519_ID then x'.(ed25519Id := x.ed25519Id)
    else x'.(unrecognized := x.unrecognized)
  }

  function ParseSpecifier(s: seq<Byte>): Parse<Specifier> {
    if |s| < 2 then Fail(TRUNCATED) else
    var n: nat := s[1];
    if |s| < 2 + n then Fail(TRUNCATED)
    else if !UnionSizeOk(s[0], n) then Fail(INVALID)
    else Parsed(MakeSpecifier(s[0], s[1], s[2..2 + n]), 2 + n)
  }

  function SpecifierCodec(): Codec<Specifier> {
    Codec(EncodeSpecifier, ParseSpecifier, SpecifierFits, NormalSpecifier)
  }

  /** Reading a union's members back. */
  lemma UnionRoundTrips(x: Specifier)
    requires SpecifierFits(x)
    ensures UnionSizeOk(x.lsType, |SpecifierUnion(x)|)
    ensures MakeSpecifier(x.lsType, |SpecifierUnion(x)|, SpecifierUnion(x)) == NormalSpecifier(x)
  {
    var u := SpecifierUnion(x);
    if x.lsType == LS_IPV4 {
      U32RoundTrip(x.ipv4Addr);
      U16RoundTrip(x.ipv4Port);
      assert u[..4] == ToBe(x.ipv4Addr, 4) && u[4..] == ToBe(x.ipv4Port, 2);
    } else if x.lsType == LS_IPV6 {
      U16RoundTrip(x.ipv6Port);
      assert u[..16] == x.ipv6Addr && u[16..] == ToBe(x.ipv6Port, 2);
    }
  }

  lemma UnionCanonical(t: Byte, n: Byte, u: seq<Byte>)
    requires UnionSizeOk(t, n) && |u| == n
    ensures SpecifierUnion(MakeSpecifier(t, n, u)) == u
    ensures NormalSpecifier(MakeSpecifier(t, n, u)) == MakeSpecifier(t, n, u)
  {
    if t == LS_IPV4 {
      U32Canonical(u[..4]);
      U16Canonical(u[4..]);
    } else if t == LS_IPV6 {
      U16Canonical(u[16..]);
    }
  }

  lemma SpecifierRoundTrips(x: Specifier, rest: seq<Byte>)
    requires SpecifierFits(x)
    ensures ParseSpecifier(EncodeSpecifier(x) + rest) == Parsed(NormalSpecifier(x), |EncodeSpecifier(x)|)
  {
    var u := SpecifierUnion(x);
    UnionRoundTrips(x);
    assert (EncodeSpecifier(x) + rest)[2..2 + |u|] == u;
  }

  lemma SpecifierCanonical(s: seq<Byte>)
    ensures Canonical(SpecifierCodec(), s)
  {
    if ParseSpecifier(s).Parsed? {
      var n: nat := s[1];
      UnionCanonical(s[0], s[1], s[2..2 + n]);
      assert [s[0], s[1]] + s[2..2 + n] == s[..2 + n];
    }
  }

  lemma SpecifierLawful()
    ensures Lawful(SpecifierCodec())
  {
    var c := SpecifierCodec();
    forall x: Specifier | c.ok(x) ensures RoundTrips(c, x) && Truncates(c, x) {
      forall rest: seq<Byte>
        ensures c.parse(c.enc(x) + rest) == Parsed(c.norm(x), |c.enc(x)|)
      {
        SpecifierRoundTrips(x, rest);
      }
    }
    forall s ensures Canonical(c, s) { SpecifierCanonical(s); }
  }

  // ---- CREATE2 bodies ----

  datatype Create2 = Create2(handshakeType: U16, handshakeLen: U16, handshakeData: seq<Byte>)

  predicate Create2Check(x: Create2) {
    |x.handshakeData| == x.handshakeLen
  }

  function EncodeCreate2(x: Create2): (r: seq<Byte>)
    ensures |r| == 4 + |x.handshakeData|
  {
    ToBe(x.handshakeType, 2) + ToBe(x.handshakeLen, 2) + x.handshakeData
  }

  function ParseCreate2(s: seq<Byte>): Parse<Create2> {
    if |s| < 4 then Fail(TRUNCATED) else
    var n := U16At(s[2..4]);
    if |s| < 4 + n then Fail(TRUNCATED) else Parsed(Create2(U16At(s[..2]), n, s[4..4 + n]), 4 + n)
  }

  function Create2Codec(): Codec<Create2> {
    Codec(EncodeCreate2, ParseCreate2, Create2Check, (x: Create2) => x)
  }

  lemma Create2Fields(x: Create2, s: seq<Byte>)
    requires |s| >= 4 && s[..4] == EncodeCreate2(x)[..4]
    ensures U16At(s[..2]) == x.handshakeType && U16At(s[2..4]) == x.handshakeLen
  {
    U16RoundTrip(x.handshakeType);
    U16RoundTrip(x.handshakeLen);
    var e := EncodeCreate2(x);
    assert s[..2] == s[..4][..2] == e[..4][..2] == ToBe(x.handshakeType, 2);
    assert s[2..4] == s[..4][2..] == e[..4][2..] == ToBe(x.handshakeLen, 2);
  }

  lemma Create2RoundTrips(x: Create2, rest: seq<Byte>)
    requires Create2Check(x)
    ensures ParseCreate2(EncodeCreate2(x) + rest) == Parsed(x, |EncodeCreate2(x)|)
  {
    var e := EncodeCreate2(x);
    assert (e + rest)[..4] == e[..4];
    Create2Fields(x, e + rest);
    assert (e + rest)[4..4 + x.handshakeLen] == x.handshakeData;
  }

  lemma Create2Truncates(x: Create2, k: nat)
    requires Create2Check(x) && k < |EncodeCreate2(x)|
    ensures ParseCreate2(EncodeCreate2(x)[..k]) == Fail(TRUNCATED)
  {
    if k >= 4 {
      assert EncodeCreate2(x)[..k][..4] == EncodeCreate2(x)[..4];
      Create2Fields(x, EncodeCreate2(x)[..k]);
    }
  }

  lemma Create2Canonical(s: seq<Byte>)
    ensures Canonical(Create2Codec(), s)
  {
    if ParseCreate2(s).Parsed? {
      var n := U16At(s[2..4]);
      U16Canonical(s[..2]);
      U16Canonical(s[2..4]);
      assert s[..2] + s[2..4] + s[4..4 + n] == s[..4 + n];
    }
  }

  lemma Create2Lawful()
    ensures Lawful(Create2Codec())
  {
    var c := Create2Codec();
    forall x: Create2 | c.ok(x) ensures RoundTrips(c, x) && Truncates(c, x) {
      forall rest: seq<Byte>
        ensures c.parse(c.enc(x) + rest) == Parsed(c.norm(x), |c.enc(x)|)
      {
        Create2RoundTrips(x, rest);
      }
      forall k: nat | k < |c.enc(x)| ensures c.parse(c.enc(x)[..k]) == Fail(TRUNCATED) { Create2Truncates(x, k); }
    }
    forall s ensures Canonical(c, s) { Create2Canonical(s); }
  }

  // ---- certificates ----

  /** The fields of a certificate before its extensions. */
  datatype CertHead = CertHead(
    version: Byte,
    certType: Byte,
    expField: U32,
    certKeyType: Byte,
    certifiedKey: Bytes32,
    nExtensions: Byte)

  function EncodeHead(h: CertHead): (r: seq<Byte>)
    ensures |r| == 40
  {
    [h.version, h.certType] + ToBe(h.expField, 4) + [h.certKeyType] + h.certifiedKey + [h.nExtensions]
  }

  /** A wrong version is an error even where the rest is missing. */
  function ParseHead(s: seq<Byte>): Parse<CertHead> {
    if s == [] then Fail(TRUNCATED)
    else if s[0] != 1 then Fail(INVALID)
    else if |s| < 40 then Fail(TRUNCATED)
    else Parsed(CertHead(s[0], s[1], U32At(s[2..6]), s[6], s[7..39], s[39]), 40)
  }

  function HeadCodec(): Codec<CertHead> {
    Codec(EncodeHead, ParseHead, (h: CertHead) => h.version == 1, (h: CertHead) => h)
  }

  lemma HeadRoundTrips(h: CertHead, rest: seq<Byte>)
    requires h.version == 1
    ensures ParseHead(EncodeHead(h) + rest) == Parsed(h, 40)
  {
    var s := EncodeHead(h) + rest;
    U32RoundTrip(h.expField);
    assert s[2..6] == ToBe(h.expField, 4);
    assert s[7..39] == h.certifiedKey;
  }

  lemma HeadCanonical(s: seq<Byte>)
    ensures Canonical(HeadCodec(), s)
  {
    if ParseHead(s).Parsed? {
      U32Canonical(s[2..6]);
      assert [s[0], s[1]] + s[2..6] + [s[6]] + s[7..39] + [s[39]] == s[..40];
    }
  }

  lemma HeadLawful()
    ensures Lawful(HeadCodec())
  {
    var c := HeadCodec();
    forall h: CertHead | c.ok(h) ensures RoundTrips(c, h) && Truncates(c, h) {
      forall rest: seq<Byte>
        ensures c.parse(c.enc(h) + rest) == Parsed(c.norm(h), |c.enc(h)|)
      {
        HeadRoundTrips(h, rest);
      }
    }
    forall s ensures Canonical(c, s) { HeadCanonical(s); }
  }

  function ExtensionsAfter(h: CertHead): Codec<seq<Extension>> {
    Repeat(ExtensionCodec(), h.nExtensions)
  }

  function SignatureAfter(x: (CertHead, seq<Extension>)): Codec<seq<Byte>> {
    Fixed(64)
  }

  function HeadAndExtensions(): Codec<(CertHead, seq<Extension>)> {
    Then(HeadCodec(), ExtensionsAfter)
  }

  /** A certificate: head, as many extensions as the head says, signature. */
  function CertCodec(): Codec<((CertHead, seq<Extension>), seq<Byte>)> {
    Then(HeadAndExtensions(), SignatureAfter)
  }

  lemma CertLawful()
    ensures Lawful(HeadAndExtensions()) && Lawful(CertCodec())
  {
    HeadLawful();
    ExtensionLawful();
    forall h: CertHead ensures Lawful(ExtensionsAfter(h)) { RepeatLawful(ExtensionCodec(), h.nExtensions); }
    ThenLawful(HeadCodec(), ExtensionsAfter);
    FixedLawful(64);
    ThenLawful(HeadAndExtensions(), SignatureAfter);
  }

  // ---- lists of link specifiers, and EXTEND2 bodies ----

  function ParseByte(s: seq<Byte>): Parse<Byte> {
    if s == [] then Fail(TRUNCATED) else Parsed(s[0], 1)
  }

  function ByteCodec(): Codec<Byte> {
    Codec((b: Byte) => [b], ParseByte, (b: Byte) => true, (b: Byte) => b)
  }

  function SpecifiersAfter(n: Byte): Codec<seq<Specifier>> {
    Repeat(SpecifierCodec(), n)
  }

  function Create2After(x: (Byte, seq<Specifier>)): Codec<Create2> {
    Create2Codec()
  }

  /** A list of link specifiers: their number, then each of them. */
  function ListCodec(): Codec<(Byte, seq<Specifier>)> {
    Then(ByteCodec(), SpecifiersAfter)
  }

  /** An EXTEND2 body: a list of link specifiers, then a CREATE2 body. */
  function Extend2Codec(): Codec<((Byte, seq<Specifier>), Create2)> {
    Then(ListCodec(), Create2After)
  }

  lemma ListLawful()
    ensures Lawful(ListCodec())
  {
    SpecifierLawful();
    forall n: Byte ensures Lawful(SpecifiersAfter(n)) { RepeatLawful(SpecifierCodec(), n); }
    ThenLawful(ByteCodec(), SpecifiersAfter);
  }

  lemma Extend2Lawful()
    ensures Lawful(Extend2Codec())
  {
    ListLawful();
    Create2Lawful();
    ThenLawful(ListCodec(), Create2After);
  }
}
