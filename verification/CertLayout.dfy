/** Where each field of an Ed25519 certificate and of an EXTEND2 cell stands, byte by byte. */
module CertLayout {
  import opened Bytes
  import opened CodecLaws
  import opened CertFormats

  /** A length of two bytes, the type, the flags; then the key for type 4, else whatever was given. */
  lemma ExtensionLayout(x: Extension)
    requires ExtensionFits(x)
    ensures var s := EncodeExtension(x);
            && |s| == 4 + (if x.extType == 4 then 32 else |x.unparsed|)
            && Holds16(s, 0, |s| - 4) && s[2] == x.extType && s[3] == x.extFlags
            && s[4..] == if x.extType == 4 then x.signingKey else x.unparsed
  {
    var s := EncodeExtension(x);
    assert s[0..2] == ToBe(|ExtensionUnion(x)|, 2);
    Placed16(s, 0, |s| - 4);
  }

  /**
    The type, a length of one byte, then by type: 0, an address of four bytes and a port; 1, an
    address of sixteen and a port; 2, an identity of twenty; 3, one of thirty-two; else what was given.
  */
  lemma SpecifierLayout(x: Specifier)
    requires SpecifierFits(x)
    ensures var s := EncodeSpecifier(x);
            && |s| >= 2 && s[0] == x.lsType && s[1] == |s| - 2
            && (x.lsType == 0 ==> |s| == 8 && Holds32(s, 2, x.ipv4Addr) && Holds16(s, 6, x.ipv4Port))
            && (x.lsType == 1 ==> |s| == 20 && s[2..18] == x.ipv6Addr && Holds16(s, 18, x.ipv6Port))
            && (x.lsType == 2 ==> s[2..] == x.legacyId) && (x.lsType == 3 ==> s[2..] == x.ed25519Id)
            && (x.lsType > 3 ==> s[2..] == x.unrecognized)
  {
    var s := EncodeSpecifier(x);
    if x.lsType == 0 {
      assert s[2..6] == ToBe(x.ipv4Addr, 4) && s[6..8] == ToBe(x.ipv4Port, 2);
      Placed32(s, 2, x.ipv4Addr);
      Placed16(s, 6, x.ipv4Port);
    } else if x.lsType == 1 {
      assert s[2..18] == x.ipv6Addr && s[18..20] == ToBe(x.ipv6Port, 2);
      Placed16(s, 18, x.ipv6Port);
    }
  }

  /** The handshake's type and length, two bytes each, and its data. */
  lemma Create2Layout(x: Create2)
    ensures var s := EncodeCreate2(x);
            Holds16(s, 0, x.handshakeType) && Holds16(s, 2, x.handshakeLen) && s[4..] == x.handshakeData
  {
    var s := EncodeCreate2(x);
    assert s[0..2] == ToBe(x.handshakeType, 2) && s[2..4] == ToBe(x.handshakeLen, 2);
    Placed16(s, 0, x.handshakeType);
    Placed16(s, 2, x.handshakeLen);
  }

  /** Version, certificate type, expiration in hours, key type, key, number of extensions: forty bytes. */
  lemma HeadLayout(h: CertHead)
    ensures var s := EncodeHead(h);
            && |s| == 40 && s[0] == h.version && s[1] == h.certType && Holds32(s, 2, h.expField)
            && s[6] == h.certKeyType && s[7..39] == h.certifiedKey && s[39] == h.nExtensions
  {
    var s := EncodeHead(h);
    assert s[2..6] == ToBe(h.expField, 4);
    Placed32(s, 2, h.expField);
  }

  /** In a list, each element stands right behind those before it. */
  lemma ElementAt<T>(c: Codec<T>, xs: seq<T>, k: nat)
    requires k < |xs|
    ensures var s, at := EncodeAll(c, xs), |EncodeAll(c, xs[..k])|;
            at + |c.enc(xs[k])| <= |s| && s[at..at + |c.enc(xs[k])|] == c.enc(xs[k])
    ensures |EncodeAll(c, xs[..k])| + |c.enc(xs[k])| == |EncodeAll(c, xs[..k + 1])|
  {
    EncodeAllNext(c, xs, k);
    EncodeAllStarts(c, xs, k + 1);
  }

  lemma {:induction false} EncodeAllStarts<T>(c: Codec<T>, xs: seq<T>, k: nat)
    requires k <= |xs|
    ensures EncodeAll(c, xs[..k]) <= EncodeAll(c, xs)
    decreases |xs| - k
  {
    if k == |xs| {
      assert xs[..k] == xs;
    } else {
      EncodeAllNext(c, xs, k);
      EncodeAllStarts(c, xs, k + 1);
    }
  }

  /** A certificate: its forty bytes, its extensions in order, and in the last 64 bytes the signature. */
  lemma CertLayout(p: ((CertHead, seq<Extension>), seq<Byte>))
    requires CertCodec().ok(p)
    ensures var s, exts := CertCodec().enc(p), EncodeAll(ExtensionCodec(), p.0.1);
            && |s| == 40 + |exts| + 64 && |p.0.1| == p.0.0.nExtensions && p.0.0.version == 1
            && s[..40] == EncodeHead(p.0.0) && s[40..40 + |exts|] == exts && s[40 + |exts|..] == p.1
  {
  }

  /** An EXTEND2 body: the number of specifiers, each of them in order, then the CREATE2 body. */
  lemma Extend2Layout(p: ((Byte, seq<Specifier>), Create2))
    requires Extend2Codec().ok(p)
    ensures var s, specs := Extend2Codec().enc(p), EncodeAll(SpecifierCodec(), p.0.1);
            && |s| == 1 + |specs| + |EncodeCreate2(p.1)| && |p.0.1| == p.0.0
            && s[0] == p.0.0 && s[1..1 + |specs|] == specs && s[1 + |specs|..] == EncodeCreate2(p.1)
  {
  }

  // ---- what the parsers refuse ----

  /** -2 for want of bytes, else -1 for a key of type 4 that has not 32 bytes; anything else is accepted. */
  lemma ExtensionRefusals(s: seq<Byte>)
    ensures ParseExtension(s) == Fail(-2) <==> |s| < 4 || |s| < 4 + Number16(s, 0)
    ensures ParseExtension(s) == Fail(-1) <==>
              |s| >= 4 && |s| >= 4 + Number16(s, 0) && s[2] == 4 && !Holds16(s, 0, 32)
    ensures ParseExtension(s).Fail? ==> ParseExtension(s).code == -2 || ParseExtension(s).code == -1
  {
    if |s| >= 4 { U16Weights(s[..2]); }
  }

  /** -2 for want of bytes, else -1 for a length that the type does not have. */
  lemma SpecifierRefusals(s: seq<Byte>)
    ensures ParseSpecifier(s) == Fail(-2) <==> |s| < 2 || |s| < 2 + (s[1] as int)
    ensures ParseSpecifier(s) == Fail(-1) <==>
              |s| >= 2 && |s| >= 2 + (s[1] as int) && match s[0] case 0 => s[1] != 6 case 1 => s[1] != 18
                                               case 2 => s[1] != 20 case 3 => s[1] != 32 case _ => false
    ensures ParseSpecifier(s).Fail? ==> ParseSpecifier(s).code == -2 || ParseSpecifier(s).code == -1
  {
  }

  lemma Create2Refusals(s: seq<Byte>)
    ensures ParseCreate2(s) == Fail(-2) <==> |s| < 4 || |s| < 4 + Number16(s, 2)
    ensures ParseCreate2(s).Fail? ==> ParseCreate2(s).code == -2
  {
    if |s| >= 4 { U16Weights(s[2..4]); }
  }

  /** -1 for a version other than 1, even where the rest is missing; else -2 for want of bytes. */
  lemma HeadRefusals(s: seq<Byte>)
    ensures ParseHead(s) == Fail(-1) <==> s != [] && s[0] != 1
    ensures ParseHead(s) == Fail(-2) <==> s == [] || (s[0] == 1 && |s| < 40)
    ensures ParseHead(s).Fail? ==> ParseHead(s).code == -2 || ParseHead(s).code == -1
  {
  }

  // ---- what the parsers leave blank ----

  /** Of the two members of an extension's union, the one that does not count is all zeros, or empty. */
  lemma ExtensionBlanks(s: seq<Byte>)
    requires ParseExtension(s).Parsed?
    ensures var x := ParseExtension(s).obj; if x.extType == 4 then x.unparsed == [] else x.signingKey == Zeros(32)
  {
  }

  /** So are the members of a link specifier's union that its type does not call for. */
  lemma SpecifierBlanks(s: seq<Byte>)
    requires ParseSpecifier(s).Parsed?
    ensures var x := ParseSpecifier(s).obj;
            && (x.lsType != 0 ==> x.ipv4Addr == 0 && x.ipv4Port == 0)
            && (x.lsType != 1 ==> x.ipv6Addr == Zeros(16) && x.ipv6Port == 0)
            && (x.lsType != 2 ==> x.legacyId == Zeros(20)) && (x.lsType != 3 ==> x.ed25519Id == Zeros(32))
            && (x.lsType <= 3 ==> x.unrecognized == [])
  {
  }
}
