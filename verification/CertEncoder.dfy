/**
  The encoders: each writes into a buffer from `at` on, with `avail` bytes of room, and returns the
  number of bytes written or an error code. Length fields are written provisionally and patched.
*/
module CertEncoder {
  import opened Bytes
  import opened CodecLaws
  import opened CertFormats

  datatype Cert = Cert(head: CertHead, ext: seq<Extension>, signature: Bytes64)

  datatype SpecifierList = SpecifierList(nSpec: Byte, spec: seq<Specifier>)

  datatype Extend2 = Extend2(list: SpecifierList, create2: Create2)

  function CertParts(x: Cert): ((CertHead, seq<Extension>), seq<Byte>) {
    ((x.head, x.ext), x.signature)
  }

  function ListParts(x: SpecifierList): (Byte, seq<Specifier>) {
    (x.nSpec, x.spec)
  }

  function Extend2Parts(x: Extend2): ((Byte, seq<Specifier>), Create2) {
    (ListParts(x.list), x.create2)
  }

  predicate CertCheck(x: Cert) {
    x.head.version == 1 && |x.ext| == x.head.nExtensions
  }

  predicate ListCheck(x: SpecifierList) {
    |x.spec| == x.nSpec
  }

  predicate Extend2Check(x: Extend2) {
    ListCheck(x.list) && Create2Check(x.create2)
  }

  // ---- writing into a buffer ----

  /** From one content of the buffer to another by writing exactly these bytes from `at` on. */
  ghost predicate Wrote(before: seq<Byte>, after: seq<Byte>, at: nat, bytes: seq<Byte>) {
    && |after| == |before| && at + |bytes| <= |before|
    && after[..at] == before[..at] && after[at..at + |bytes|] == bytes
        && after[at + |bytes|..] == before[at + |bytes|..]
  }

  lemma WroteNothing(buf: seq<Byte>, at: nat)
    requires at <= |buf|
    ensures Wrote(buf, buf, at, [])
  {
  }

  lemma WroteThen(s0: seq<Byte>, s1: seq<Byte>, s2: seq<Byte>, at: nat, a: seq<Byte>, b: seq<Byte>)
    requires Wrote(s0, s1, at, a) && Wrote(s1, s2, at + |a|, b)
    ensures Wrote(s0, s2, at, a + b)
  {
    assert s2[at..at + |a + b|] == s2[..at + |a|][at..] + s2[at + |a|..at + |a| + |b|];
    assert s2[..at] == s2[..at + |a|][..at] == s1[..at];
    assert s2[at + |a + b|..] == s1[at + |a|..][|b|..] == s0[at + |a|..][|b|..];
  }

  /** What was written, in two parts. */
  lemma WroteSplit(s0: seq<Byte>, s1: seq<Byte>, at: nat, a: seq<Byte>, b: seq<Byte>)
    requires Wrote(s0, s1, at, a + b)
    ensures s1[..at + |a|] == s0[..at] + a
    ensures s1[at + |a|..] == b + s0[at + |a + b|..]
  {
    var end := at + |a + b|;
    assert s1 == s1[..at] + s1[at..end] + s1[end..];
    CutIn(s0[..at], a, b, s0[end..]);
  }

  lemma CutIn(front: seq<Byte>, a: seq<Byte>, b: seq<Byte>, back: seq<Byte>)
    ensures (front + (a + b) + back)[..|front| + |a|] == front + a
    ensures (front + (a + b) + back)[|front| + |a|..] == b + back
  {
  }

  lemma WroteJoin(s0: seq<Byte>, s2: seq<Byte>, at: nat, bytes: seq<Byte>)
    requires at + |bytes| <= |s0| && s2 == s0[..at] + bytes + s0[at + |bytes|..]
    ensures Wrote(s0, s2, at, bytes)
  {
  }

  /** Writing again over a part of what was written. */
  lemma WrotePatch(s0: seq<Byte>, s1: seq<Byte>, s2: seq<Byte>, at: nat, p: seq<Byte>, a: seq<Byte>, a': seq<Byte>,
      b: seq<Byte>)
    requires Wrote(s0, s1, at, p + a + b) && Wrote(s1, s2, at + |p|, a') && |a'| == |a|
    ensures Wrote(s0, s2, at, p + a' + b)
  {
    var to := at + |p| + |a|;
    WroteSplit(s0, s1, at, p + a, b);
    assert s1[..at + |p|] == s1[..to][..at + |p|] == s0[..at] + p;
    assert s2 == s2[..at + |p|] + s2[at + |p|..to] + s2[to..];
    assert s2 == s0[..at] + p + a' + (b + s0[at + |p + a + b|..]);
    Pieces(s0[..at], p, a', b, s0[at + |p + a + b|..]);
    WroteJoin(s0, s2, at, p + a' + b);
  }

  lemma Pieces(front: seq<Byte>, p: seq<Byte>, a: seq<Byte>, b: seq<Byte>, back: seq<Byte>)
    ensures front + p + a + (b + back) == front + (p + a + b) + back
  {
  }

  method Put(out: array<Byte>, at: nat, bytes: seq<Byte>)
    requires at + |bytes| <= out.Length
    modifies out
    ensures Wrote(old(out[..]), out[..], at, bytes)
  {
    for i := 0 to |bytes|
      invariant out[..at] == old(out[..at])
      invariant out[at..at + i] == bytes[..i]
      invariant out[at + i..] == old(out[at + i..])
    {
      out[at + i] := bytes[i];
      assert out[at..at + i + 1] == out[at..at + i] + [bytes[i]] == bytes[..i + 1];
    }
    assert bytes[..|bytes|] == bytes;
    ghost var s, s0 := out[..], old(out[..]);
    assert s[..at] == out[..at] && s0[..at] == old(out[..at]);
    assert s[at + |bytes|..] == out[at + |bytes|..] && s0[at + |bytes|..] == old(out[at + |bytes|..]);
    assert s[at..at + |bytes|] == out[at..at + |bytes|];
  }

  /** One more field after those written, if there is room for it. */
  method Field(out: array<Byte>, at: nat, avail: nat, written: nat, bytes: seq<Byte>, ghost before: seq<Byte>,
      ghost done: seq<Byte>)
    returns (ok: bool, written': nat, ghost done': seq<Byte>)
    requires at + avail <= out.Length && written == |done| <= avail
    requires Wrote(before, out[..], at, done)
    modifies out
    ensures ok <==> written + |bytes| <= avail
    ensures done' == (if ok then done + bytes else done) && written' == |done'|
    ensures Wrote(before, out[..], at, done')
  {
    if avail - written < |bytes| { return false, written, done; }
    ghost var middle := out[..];
    Put(out, at + written, bytes);
    WroteThen(before, middle, out[..], at, done, bytes);
    ok, written', done' := true, written + |bytes|, done + bytes;
  }

  // ---- records ----

  /** The result of encoding a record whose derived length field `fits` or not. */
  function Outcome(len: nat, avail: nat, fits: bool): int {
    if avail < len then TRUNCATED else if !fits then INVALID else len
  }

  /** The fields of an extension, the length as the object has it. */
  method ExtensionFieldsTo(out: array<Byte>, at: nat, avail: nat, x: Extension)
    returns (ok: bool, start: nat, written: nat, ghost done: seq<Byte>)
    requires at + avail <= out.Length
    modifies out
    ensures Wrote(old(out[..]), out[..], at, done) && |done| <= avail
    ensures ok <==> avail >= |EncodeExtension(x)|
    ensures ok ==>
              && start == 4
              && written == |done|
              && done == ToBe(x.extLength, 2) + [x.extType] + [x.extFlags] + ExtensionUnion(x)
  {
    ghost var before := out[..];
    WroteNothing(before, at);
    start, done := 0, [];
    ok, written, done := Field(out, at, avail, 0, ToBe(x.extLength, 2), before, done);
    if !ok { return; }
    assert done == ToBe(x.extLength, 2);
    ok, written, done := Field(out, at, avail, written, [x.extType], before, done);
    if !ok { return; }
    ok, written, done := Field(out, at, avail, written, [x.extFlags], before, done);
    if !ok { return; }
    start := written;
    if x.extType == CERTEXT_SIGNED_WITH_KEY {
      ok, written, done := Field(out, at, avail, written, x.signingKey, before, done);
    } else {
      ok, written, done := Field(out, at, avail, written, x.unparsed, before, done);
    }
  }

  lemma JoinFields(a: seq<Byte>, t: Byte, f: Byte, u: seq<Byte>)
    ensures [] + a + ([t, f] + u) == a + [t] + [f] + u == a + [t, f] + u
  {
  }

  method EncodeExtensionTo(out: array<Byte>, at: nat, avail: nat, x: Extension) returns (r: int, ghost done: seq<Byte>)
    requires at + avail <= out.Length
    modifies out
    ensures Wrote(old(out[..]), out[..], at, done) && |done| <= avail
    ensures r == Outcome(|EncodeExtension(x)|, avail, ExtensionFits(x))
    ensures r >= 0 ==> done == EncodeExtension(x)
  {
    var ok, start, written;
    ok, start, written, done := ExtensionFieldsTo(out, at, avail, x);
    if !ok { return TRUNCATED, done; }
    if written - start > 0xFFFF { return INVALID, done; }
    ghost var middle := out[..];
    var length := ToBe(written - start, 2);
    Put(out, at, length);
    ghost var rest := [x.extType, x.extFlags] + ExtensionUnion(x);
    JoinFields(ToBe(x.extLength, 2), x.extType, x.extFlags, ExtensionUnion(x));
    JoinFields(length, x.extType, x.extFlags, ExtensionUnion(x));
    WrotePatch(old(out[..]), middle, out[..], at, [], ToBe(x.extLength, 2), length, rest);
    done := [] + length + rest;
    r := written;
  }

  /** The union of a link specifier, the fields of the member that its type selects. */
  method SpecifierUnionTo(out: array<Byte>, at: nat, avail: nat, x: Specifier)
    returns (ok: bool, written: nat, ghost done: seq<Byte>)
    requires at + avail <= out.Length
    modifies out
    ensures Wrote(old(out[..]), out[..], at, done) && |done| <= avail
    ensures ok <==> avail >= |SpecifierUnion(x)|
    ensures ok ==> written == |done| && done == SpecifierUnion(x)
  {
    ghost var before := out[..];
    WroteNothing(before, at);
    done := [];
    if x.lsType == LS_IPV4 {
      ok, written, done := Field(out, at, avail, 0, ToBe(x.ipv4Addr, 4), before, done);
      if !ok { return; }
      ok, written, done := Field(out, at, avail, written, ToBe(x.ipv4Port, 2), before, done);
    } else if x.lsType == LS_IPV6 {
      ok, written, done := Field(out, at, avail, 0, x.ipv6Addr, before, done);
      if !ok { return; }
      ok, written, done := Field(out, at, avail, written, ToBe(x.ipv6Port, 2), before, done);
    } else if x.lsType == LS_LEGACY_ID {
      ok, written, done := Field(out, at, avail, 0, x.legacyId, before, done);
    } else if x.lsType == LS_ED25519_ID {
      ok, written, done := Field(out, at, avail, 0, x.ed25519Id, before, done);
    } else {
      ok, written, done := Field(out, at, avail, 0, x.unrecognized, before, done);
    }
  }

  method SpecifierFieldsTo(out: array<Byte>, at: nat, avail: nat, x: Specifier)
    returns (ok: bool, start: nat, written: nat, ghost done: seq<Byte>)
    requires at + avail <= out.Length
    modifies out
    ensures Wrote(old(out[..]), out[..], at, done) && |done| <= avail
    ensures ok <==> avail >= |EncodeSpecifier(x)|
    ensures ok ==> start == 2 && written == |done| && done == [x.lsType] + [x.lsLen] + SpecifierUnion(x)
  {
    ghost var before := out[..];
    WroteNothing(before, at);
    start, done := 0, [];
    ok, written, done := Field(out, at, avail, 0, [x.lsType], before, done);
    if !ok { return; }
    assert done == [x.lsType];
    ok, written, done := Field(out, at, avail, written, [x.lsLen], before, done);
    if !ok { return; }
    start := written;
    ghost var head, middle := done, out[..];
    ghost var union;
    var length;
    ok, length, union := SpecifierUnionTo(out, at + written, avail - written, x);
    WroteThen(before, middle, out[..], at, head, union);
    written, done := written + length, head + union;
  }

  lemma Join(t: Byte, n: Byte, u: seq<Byte>)
    ensures [t] + [n] + u == [t, n] + u
  {
  }

  method EncodeSpecifierTo(out: array<Byte>, at: nat, avail: nat, x: Specifier) returns (r: int, ghost done: seq<Byte>)
    requires at + avail <= out.Length
    modifies out
    ensures Wrote(old(out[..]), out[..], at, done) && |done| <= avail
    ensures r == Outcome(|EncodeSpecifier(x)|, avail, SpecifierFits(x))
    ensures r >= 0 ==> done == EncodeSpecifier(x)
  {
    var ok, start, written;
    ok, start, written, done := SpecifierFieldsTo(out, at, avail, x);
    if !ok { return TRUNCATED, done; }
    if written - start > 0xFF { return INVALID, done; }
    ghost var middle := out[..];
    var length: Byte := written - start;
    Put(out, at + 1, [length]);
    WrotePatch(old(out[..]), middle, out[..], at, [x.lsType], [x.lsLen], [length], SpecifierUnion(x));
    done := [x.lsType] + [length] + SpecifierUnion(x);
    Join(x.lsType, length, SpecifierUnion(x));
    assert length == |SpecifierUnion(x)| % 0x100;
    assert done == EncodeSpecifier(x);
    r := written;
  }

  method EncodeCreate2To(out: array<Byte>, at: nat, avail: nat, x: Create2) returns (r: int, ghost done: seq<Byte>)
    requires at + avail <= out.Length
    modifies out
    ensures Wrote(old(out[..]), out[..], at, done) && |done| <= avail
    ensures r == if !Create2Check(x) then INVALID else Outcome(|EncodeCreate2(x)|, avail, true)
    ensures r >= 0 ==> done == EncodeCreate2(x)
  {
    ghost var before := out[..];
    WroteNothing(before, at);
    done := [];
    if !Create2Check(x) { return INVALID, done; }
    var ok, written;
    ok, written, done := Field(out, at, avail, 0, ToBe(x.handshakeType, 2), before, done);
    if !ok { return TRUNCATED, done; }
    assert done == ToBe(x.handshakeType, 2);
    ok, written, done := Field(out, at, avail, written, ToBe(x.handshakeLen, 2), before, done);
    if !ok { return TRUNCATED, done; }
    ok, written, done := Field(out, at, avail, written, x.handshakeData, before, done);
    r := if ok then written else TRUNCATED;
  }

  // ---- counted lists ----

  /** The first `i` elements are encoded, and none of them failed to fit. */
  ghost predicate ListAt<T>(c: Codec<T>, xs: seq<T>, i: nat, done: seq<Byte>)
    requires i <= |xs|
  {
    && done == EncodeAll(c, xs[..i]) && AllOk(c, xs[..i])
    && ThroughMisfit(c, xs) == |done| + ThroughMisfit(c, xs[i..])
  }

  lemma ListStarts<T>(c: Codec<T>, xs: seq<T>)
    ensures ListAt(c, xs, 0, [])
  {
    assert xs[0..] == xs;
  }

  /** The next element stops the encoding, or is encoded. */
  lemma ListGoes<T>(c: Codec<T>, xs: seq<T>, i: nat, written: nat, avail: nat, r: int)
    requires i < |xs| && ListAt(c, xs, i, EncodeAll(c, xs[..i])) && written == |EncodeAll(c, xs[..i])| <= avail
    requires r == Outcome(|c.enc(xs[i])|, avail - written, c.ok(xs[i]))
    ensures r < 0 ==> r == Outcome(ThroughMisfit(c, xs), avail, AllOk(c, xs))
    ensures r >= 0 ==> ListAt(c, xs, i + 1, EncodeAll(c, xs[..i]) + c.enc(xs[i]))
  {
    AllOkNext(c, xs, i);
    EncodeAllNext(c, xs, i);
    MisfitAt(c, xs, i);
  }

  lemma ListEnds<T>(c: Codec<T>, xs: seq<T>, done: seq<Byte>)
    requires ListAt(c, xs, |xs|, done)
    ensures done == EncodeAll(c, xs) && AllOk(c, xs) && ThroughMisfit(c, xs) == |done|
  {
    assert xs[..|xs|] == xs;
  }

  /** One more extension after what was written. */
  method AppendExtension(out: array<Byte>, at: nat, avail: nat, written: nat, x: Extension, ghost before: seq<Byte>,
      ghost done: seq<Byte>)
    returns (r: int, ghost done': seq<Byte>)
    requires at + avail <= out.Length && written == |done| <= avail && Wrote(before, out[..], at, done)
    modifies out
    ensures Wrote(before, out[..], at, done') && |done'| <= avail
    ensures r == Outcome(|EncodeExtension(x)|, avail - written, ExtensionFits(x))
    ensures r >= 0 ==> done' == done + EncodeExtension(x)
  {
    ghost var middle := out[..];
    ghost var more;
    r, more := EncodeExtensionTo(out, at + written, avail - written, x);
    WroteThen(before, middle, out[..], at, done, more);
    done' := done + more;
  }

  method EncodeExtensionsTo(out: array<Byte>, at: nat, avail: nat, xs: seq<Extension>)
    returns (r: int, ghost done: seq<Byte>)
    requires at + avail <= out.Length
    modifies out
    ensures Wrote(old(out[..]), out[..], at, done) && |done| <= avail
    ensures r == Outcome(ThroughMisfit(ExtensionCodec(), xs), avail, AllOk(ExtensionCodec(), xs))
    ensures r >= 0 ==> r == |done| && done == EncodeAll(ExtensionCodec(), xs)
  {
    ghost var before := out[..];
    WroteNothing(before, at);
    done := [];
    var i, written := 0, 0;
    ListStarts(ExtensionCodec(), xs);
    while i < |xs|
      invariant i <= |xs| && written == |done| <= avail && Wrote(before, out[..], at, done)
      invariant ListAt(ExtensionCodec(), xs, i, done)
    {
      r, done := AppendExtension(out, at, avail, written, xs[i], before, done);
      ListGoes(ExtensionCodec(), xs, i, written, avail, r);
      if r < 0 { return; }
      written, i := written + r, i + 1;
    }
    ListEnds(ExtensionCodec(), xs, done);
    r := written;
  }

  /** One more link specifier after what was written. */
  method AppendSpecifier(out: array<Byte>, at: nat, avail: nat, written: nat, x: Specifier, ghost before: seq<Byte>,
      ghost done: seq<Byte>)
    returns (r: int, ghost done': seq<Byte>)
    requires at + avail <= out.Length && written == |done| <= avail && Wrote(before, out[..], at, done)
    modifies out
    ensures Wrote(before, out[..], at, done') && |done'| <= avail
    ensures r == Outcome(|EncodeSpecifier(x)|, avail - written, SpecifierFits(x))
    ensures r >= 0 ==> done' == done + EncodeSpecifier(x)
  {
    ghost var middle := out[..];
    ghost var more;
    r, more := EncodeSpecifierTo(out, at + written, avail - written, x);
    WroteThen(before, middle, out[..], at, done, more);
    done' := done + more;
  }

  method EncodeSpecifiersTo(out: array<Byte>, at: nat, avail: nat, xs: seq<Specifier>)
    returns (r: int, ghost done: seq<Byte>)
    requires at + avail <= out.Length
    modifies out
    ensures Wrote(old(out[..]), out[..], at, done) && |done| <= avail
    ensures r == Outcome(ThroughMisfit(SpecifierCodec(), xs), avail, AllOk(SpecifierCodec(), xs))
    ensures r >= 0 ==> r == |done| && done == EncodeAll(SpecifierCodec(), xs)
  {
    ghost var before := out[..];
    WroteNothing(before, at);
    done := [];
    var i, written := 0, 0;
    ListStarts(SpecifierCodec(), xs);
    while i < |xs|
      invariant i <= |xs| && written == |done| <= avail && Wrote(before, out[..], at, done)
      invariant ListAt(SpecifierCodec(), xs, i, done)
    {
      r, done := AppendSpecifier(out, at, avail, written, xs[i], before, done);
      ListGoes(SpecifierCodec(), xs, i, written, avail, r);
      if r < 0 { return; }
      written, i := written + r, i + 1;
    }
    ListEnds(SpecifierCodec(), xs, done);
    r := written;
  }

  // ---- encoded lengths ----

  function ExtensionEncodedLen(x: Extension): (n: nat)
    ensures n == |EncodeExtension(x)|
  {
    2 + 1 + 1 + if x.extType == CERTEXT_SIGNED_WITH_KEY then 32 else |x.unparsed|
  }

  function SpecifierEncodedLen(x: Specifier): (n: nat)
    ensures n == |EncodeSpecifier(x)|
  {
    1 + 1 + if x.lsType == LS_IPV4 then 4 + 2
            else if x.lsType == LS_IPV6 then 16 + 2
            else if x.lsType == LS_LEGACY_ID then 20
            else if x.lsType == LS_ED25519_ID then 32
            else |x.unrecognized|
  }

  method ExtensionsEncodedLen(xs: seq<Extension>) returns (n: nat)
    ensures n == |EncodeAll(ExtensionCodec(), xs)|
  {
    n := 0;
    for i := 0 to |xs|
      invariant n == |EncodeAll(ExtensionCodec(), xs[..i])|
    {
      EncodeAllNext(ExtensionCodec(), xs, i);
      n := n + ExtensionEncodedLen(xs[i]);
    }
    assert xs[..|xs|] == xs;
  }

  method SpecifiersEncodedLen(xs: seq<Specifier>) returns (n: nat)
    ensures n == |EncodeAll(SpecifierCodec(), xs)|
  {
    n := 0;
    for i := 0 to |xs|
      invariant n == |EncodeAll(SpecifierCodec(), xs[..i])|
    {
      EncodeAllNext(SpecifierCodec(), xs, i);
      n := n + SpecifierEncodedLen(xs[i]);
    }
    assert xs[..|xs|] == xs;
  }

  method CertEncodedLen(x: Cert) returns (n: int)
    ensures n == if CertCheck(x) then |CertCodec().enc(CertParts(x))| else INVALID
  {
    if !CertCheck(x) { return INVALID; }
    var exts := ExtensionsEncodedLen(x.ext);
    n := 1 + 1 + 4 + 1 + 32 + 1 + exts + 64;
  }

  method ListEncodedLen(x: SpecifierList) returns (n: int)
    ensures n == if ListCheck(x) then |ListCodec().enc(ListParts(x))| else INVALID
  {
    if !ListCheck(x) { return INVALID; }
    var specs := SpecifiersEncodedLen(x.spec);
    n := 1 + specs;
  }

  method Extend2EncodedLen(x: Extend2) returns (n: int)
    ensures n == if Extend2Check(x) then |Extend2Codec().enc(Extend2Parts(x))| else INVALID
  {
    if !Extend2Check(x) { return INVALID; }
    var specs := SpecifiersEncodedLen(x.list.spec);
    n := 1 + specs + (2 + 2 + |x.create2.handshakeData|);
  }

  // ---- whole objects ----

  method HeadFieldsTo(out: array<Byte>, at: nat, avail: nat, h: CertHead)
    returns (ok: bool, written: nat, ghost done: seq<Byte>)
    requires at + avail <= out.Length
    modifies out
    ensures Wrote(old(out[..]), out[..], at, done) && |done| <= avail
    ensures ok <==> avail >= 40
    ensures ok ==> written == |done| && done == EncodeHead(h)
  {
    ghost var before := out[..];
    WroteNothing(before, at);
    done := [];
    ok, written, done := Field(out, at, avail, 0, [h.version], before, done);
    if !ok { return; }
    ok, written, done := Field(out, at, avail, written, [h.certType], before, done);
    if !ok { return; }
    assert done == [h.version, h.certType];
    ok, written, done := Field(out, at, avail, written, ToBe(h.expField, 4), before, done);
    if !ok { return; }
    ok, written, done := Field(out, at, avail, written, [h.certKeyType], before, done);
    if !ok { return; }
    ok, written, done := Field(out, at, avail, written, h.certifiedKey, before, done);
    if !ok { return; }
    ok, written, done := Field(out, at, avail, written, [h.nExtensions], before, done);
  }

  /**
    What encoding a whole object comes to: refused by the check; else short of room for what comes
    up to the first part that does not fit; else refused for that part; else encoded.
  */
  ghost predicate Encoded(r: int, done: seq<Byte>, check: bool, fits: bool, need: nat, bytes: seq<Byte>, avail: nat) {
    && r == (if check then Outcome(need, avail, fits) else INVALID)
    && (r >= 0 ==> r == |bytes| && done == bytes)
    && (fits ==> need == |bytes|)
  }

  /** Bytes of a certificate up to the end of the first extension that does not fit, or of all of it. */
  ghost function CertNeed(x: Cert): nat {
    40 + ThroughMisfit(ExtensionCodec(), x.ext) + if AllOk(ExtensionCodec(), x.ext) then 64 else 0
  }

  ghost function ListNeed(x: SpecifierList): nat {
    1 + ThroughMisfit(SpecifierCodec(), x.spec)
  }

  ghost function Extend2Need(x: Extend2): nat {
    ListNeed(x.list) + if AllOk(SpecifierCodec(), x.list.spec) then |EncodeCreate2(x.create2)| else 0
  }

  lemma {:induction false} NothingMisfits<T>(c: Codec<T>, xs: seq<T>)
    requires AllOk(c, xs)
    ensures ThroughMisfit(c, xs) == |EncodeAll(c, xs)|
  {
    if xs != [] {
      assert forall i | 0 <= i < |xs| - 1 :: xs[1..][i] == xs[i + 1];
      NothingMisfits(c, xs[1..]);
    }
  }

  method EncodeCertTo(out: array<Byte>, at: nat, avail: nat, x: Cert) returns (r: int, ghost done: seq<Byte>)
    requires at + avail <= out.Length
    modifies out
    ensures Wrote(old(out[..]), out[..], at, done) && |done| <= avail
    ensures Encoded(r, done, CertCheck(x), AllOk(ExtensionCodec(), x.ext), CertNeed(x),
                    CertCodec().enc(CertParts(x)), avail)
  {
    ghost var before := out[..];
    WroteNothing(before, at);
    if AllOk(ExtensionCodec(), x.ext) { NothingMisfits(ExtensionCodec(), x.ext); }
    if !CertCheck(x) { return INVALID, []; }
    var ok, written;
    ok, written, done := HeadFieldsTo(out, at, avail, x.head);
    if !ok { return TRUNCATED, done; }
    ghost var middle, more := out[..], [];
    r, more := EncodeExtensionsTo(out, at + written, avail - written, x.ext);
    WroteThen(before, middle, out[..], at, done, more);
    done := done + more;
    if r < 0 { return; }
    written := written + r;
    ok, written, done := Field(out, at, avail, written, x.signature, before, done);
    r := if ok then written else TRUNCATED;
  }

  method EncodeListTo(out: array<Byte>, at: nat, avail: nat, x: SpecifierList) returns (r: int, ghost done: seq<Byte>)
    requires at + avail <= out.Length
    modifies out
    ensures Wrote(old(out[..]), out[..], at, done) && |done| <= avail
    ensures Encoded(r, done, ListCheck(x), AllOk(SpecifierCodec(), x.spec), ListNeed(x),
                    ListCodec().enc(ListParts(x)), avail)
  {
    ghost var before := out[..];
    WroteNothing(before, at);
    if AllOk(SpecifierCodec(), x.spec) { NothingMisfits(SpecifierCodec(), x.spec); }
    if !ListCheck(x) { return INVALID, []; }
    var ok, written;
    ok, written, done := Field(out, at, avail, 0, [x.nSpec], before, []);
    if !ok { return TRUNCATED, done; }
    ghost var middle, more := out[..], [];
    r, more := EncodeSpecifiersTo(out, at + written, avail - written, x.spec);
    WroteThen(before, middle, out[..], at, done, more);
    assert done == [x.nSpec];
    done := done + more;
    if r >= 0 { r := written + r; }
  }

  /** A CREATE2 body after what was written. */
  method AppendCreate2(out: array<Byte>, at: nat, avail: nat, written: nat, x: Create2, ghost before: seq<Byte>,
      ghost done: seq<Byte>)
    returns (r: int, ghost done': seq<Byte>)
    requires at + avail <= out.Length && written == |done| <= avail && Wrote(before, out[..], at, done)
             && Create2Check(x)
    modifies out
    ensures Wrote(before, out[..], at, done') && |done'| <= avail
    ensures r == Outcome(|EncodeCreate2(x)|, avail - written, true)
    ensures r >= 0 ==> done' == done + EncodeCreate2(x)
  {
    ghost var middle := out[..];
    ghost var more;
    r, more := EncodeCreate2To(out, at + written, avail - written, x);
    WroteThen(before, middle, out[..], at, done, more);
    done' := done + more;
  }

  method EncodeExtend2To(out: array<Byte>, at: nat, avail: nat, x: Extend2) returns (r: int, ghost done: seq<Byte>)
    requires at + avail <= out.Length
    modifies out
    ensures Wrote(old(out[..]), out[..], at, done) && |done| <= avail
    ensures Encoded(r, done, Extend2Check(x), AllOk(SpecifierCodec(), x.list.spec), Extend2Need(x),
            Extend2Codec().enc(Extend2Parts(x)), avail)
  {
    ghost var before := out[..];
    WroteNothing(before, at);
    if AllOk(SpecifierCodec(), x.list.spec) { NothingMisfits(SpecifierCodec(), x.list.spec); }
    if !Extend2Check(x) { return INVALID, []; }
    r, done := EncodeListTo(out, at, avail, x.list);
    if r < 0 { return; }
    var written := r;
    r, done := AppendCreate2(out, at, avail, written, x.create2, before, done);
    if r >= 0 { r := written + r; }
  }
}
