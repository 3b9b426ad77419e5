/**
  The parsers: each walks over its input with a position and a count of remaining bytes, and agrees
  with the format it reads. Encoding an object and parsing the bytes gives the object back.
*/
module CertParser {
  import opened Bytes
  import opened CodecLaws
  import opened CertFormats
  import opened CertEncoder

  /** A result code and an object, against what the format says. */
  predicate Agrees<T(==)>(r: int, x: T, p: Parse<T>) {
    match p case Fail(code) => r == code && code < 0 case Parsed(y, n) => r == n && x == y
  }

  method ParseExtensionInto(input: seq<Byte>) returns (r: int, x: Extension)
    ensures Agrees(r, x, ParseExtension(input))
  {
    x := Extension(0, 0, 0, Zeros(32), []);
    var ptr, remaining := 0, |input|;
    if remaining < 2 { return TRUNCATED, x; }
    x := x.(extLength := U16At(input[ptr..ptr + 2]));
    remaining, ptr := remaining - 2, ptr + 2;
    if remaining < 1 { return TRUNCATED, x; }
    x := x.(extType := input[ptr]);
    remaining, ptr := remaining - 1, ptr + 1;
    if remaining < 1 { return TRUNCATED, x; }
    x := x.(extFlags := input[ptr]);
    remaining, ptr := remaining - 1, ptr + 1;
    if remaining < x.extLength { return TRUNCATED, x; }
    var after := remaining - x.extLength;
    remaining := x.extLength;
    if x.extType == CERTEXT_SIGNED_WITH_KEY {
      if remaining < 32 { return INVALID, x; }
      x := x.(signingKey := input[ptr..ptr + 32]);
      remaining, ptr := remaining - 32, ptr + 32;
    } else {
      x := x.(unparsed := input[ptr..ptr + remaining]);
      ptr, remaining := ptr + remaining, 0;
    }
    if remaining != 0 { return INVALID, x; }
    remaining := after;
    r := |input| - remaining;
  }

  /** The union of a link specifier, from exactly the bytes its length field gives it. */
  method ParseSpecifierUnion(x: Specifier, union: seq<Byte>) returns (ok: bool, x': Specifier)
    requires x == BlankSpecifier(x.lsType, x.lsLen)
    ensures ok <==> UnionSizeOk(x.lsType, |union|)
    ensures ok ==> x' == MakeSpecifier(x.lsType, x.lsLen, union)
  {
    x' := x;
    var ptr, remaining := 0, |union|;
    if x.lsType == LS_IPV4 {
      if remaining < 4 { return false, x'; }
      x' := x'.(ipv4Addr := U32At(union[ptr..ptr + 4]));
      remaining, ptr := remaining - 4, ptr + 4;
      if remaining < 2 { return false, x'; }
      x' := x'.(ipv4Port := U16At(union[ptr..ptr + 2]));
      remaining, ptr := remaining - 2, ptr + 2;
    } else if x.lsType == LS_IPV6 {
      if remaining < 16 { return false, x'; }
      x' := x'.(ipv6Addr := union[ptr..ptr + 16]);
      remaining, ptr := remaining - 16, ptr + 16;
      if remaining < 2 { return false, x'; }
      x' := x'.(ipv6Port := U16At(union[ptr..ptr + 2]));
      remaining, ptr := remaining - 2, ptr + 2;
    } else if x.lsType == LS_LEGACY_ID {
      if remaining < 20 { return false, x'; }
      x' := x'.(legacyId := union[ptr..ptr + 20]);
      remaining, ptr := remaining - 20, ptr + 20;
    } else if x.lsType == LS_ED25519_ID {
      if remaining < 32 { return false, x'; }
      x' := x'.(ed25519Id := union[ptr..ptr + 32]);
      remaining, ptr := remaining - 32, ptr + 32;
    } else {
      x' := x'.(unrecognized := union[ptr..ptr + remaining]);
      ptr, remaining := ptr + remaining, 0;
    }
    ok := remaining == 0;
    if ok {
      assert union[..|union|] == union;
      assert |union| >= 4 ==> union[4..|union|] == union[4..];
      assert |union| >= 16 ==> union[16..|union|] == union[16..];
    }
  }

  method ParseSpecifierInto(input: seq<Byte>) returns (r: int, x: Specifier)
    ensures Agrees(r, x, ParseSpecifier(input))
  {
    x := BlankSpecifier(0, 0);
    var ptr, remaining := 0, |input|;
    if remaining < 1 { return TRUNCATED, x; }
    x := x.(lsType := input[ptr]);
    remaining, ptr := remaining - 1, ptr + 1;
    if remaining < 1 { return TRUNCATED, x; }
    x := x.(lsLen := input[ptr]);
    remaining, ptr := remaining - 1, ptr + 1;
    if remaining < x.lsLen { return TRUNCATED, x; }
    var n: nat := x.lsLen;
    var ok;
    ok, x := ParseSpecifierUnion(x, input[ptr..ptr + n]);
    r := if ok then 2 + n else INVALID;
  }

  method ParseCreate2Into(input: seq<Byte>) returns (r: int, x: Create2)
    ensures Agrees(r, x, ParseCreate2(input))
  {
    x := Create2(0, 0, []);
    var ptr, remaining := 0, |input|;
    if remaining < 2 { return TRUNCATED, x; }
    x := x.(handshakeType := U16At(input[ptr..ptr + 2]));
    remaining, ptr := remaining - 2, ptr + 2;
    if remaining < 2 { return TRUNCATED, x; }
    x := x.(handshakeLen := U16At(input[ptr..ptr + 2]));
    remaining, ptr := remaining - 2, ptr + 2;
    if remaining < x.handshakeLen { return TRUNCATED, x; }
    x := x.(handshakeData := input[ptr..ptr + x.handshakeLen]);
    ptr, remaining := ptr + x.handshakeLen, remaining - x.handshakeLen;
    r := |input| - remaining;
  }

  method ParseHeadInto(input: seq<Byte>) returns (r: int, h: CertHead)
    ensures Agrees(r, h, ParseHead(input))
  {
    h := CertHead(0, 0, 0, 0, Zeros(32), 0);
    var ptr, remaining := 0, |input|;
    if remaining < 1 { return TRUNCATED, h; }
    h := h.(version := input[ptr]);
    remaining, ptr := remaining - 1, ptr + 1;
    if h.version != 1 { return INVALID, h; }
    if remaining < 1 { return TRUNCATED, h; }
    h := h.(certType := input[ptr]);
    remaining, ptr := remaining - 1, ptr + 1;
    if remaining < 4 { return TRUNCATED, h; }
    h := h.(expField := U32At(input[ptr..ptr + 4]));
    remaining, ptr := remaining - 4, ptr + 4;
    if remaining < 1 { return TRUNCATED, h; }
    h := h.(certKeyType := input[ptr]);
    remaining, ptr := remaining - 1, ptr + 1;
    if remaining < 32 { return TRUNCATED, h; }
    h := h.(certifiedKey := input[ptr..ptr + 32]);
    remaining, ptr := remaining - 32, ptr + 32;
    if remaining < 1 { return TRUNCATED, h; }
    h := h.(nExtensions := input[ptr]);
    remaining, ptr := remaining - 1, ptr + 1;
    r := |input| - remaining;
  }

  // ---- counted lists ----

  /** Parsing goes on after `xs`, which used `ptr` bytes. */
  function Resume<T>(xs: seq<T>, ptr: nat, p: Parse<seq<T>>): Parse<seq<T>> {
    match p case Fail(code) => Fail(code) case Parsed(ys, m) => Parsed(xs + ys, ptr + m)
  }

  /** Of a list of `n`, the first `|xs|` are parsed and used the first `ptr` bytes. */
  ghost predicate Midway<T>(c: Codec<T>, n: nat, input: seq<Byte>, xs: seq<T>, ptr: nat) {
    && |xs| <= n && ptr <= |input|
    && ParseAll(c, n, input) == Resume(xs, ptr, ParseAll(c, n - |xs|, input[ptr..]))
  }

  lemma MidwayStep<T>(c: Codec<T>, n: nat, input: seq<Byte>, xs: seq<T>, ptr: nat, x: T, k: nat)
    requires Midway(c, n, input, xs, ptr) && |xs| < n && ptr + k <= |input| && c.parse(input[ptr..]) == Parsed(x, k)
    ensures Midway(c, n, input, xs + [x], ptr + k)
  {
    assert input[ptr..][k..] == input[ptr + k..];
    FirstOfAll(c, n - |xs|, input[ptr..], x, k);
    ResumeOnce(xs, ptr, x, k, ParseAll(c, n - |xs| - 1, input[ptr + k..]));
  }

  lemma FirstOfAll<T>(c: Codec<T>, n: nat, s: seq<Byte>, x: T, k: nat)
    requires n > 0 && k <= |s| && c.parse(s) == Parsed(x, k)
    ensures ParseAll(c, n, s) == Resume([x], k, ParseAll(c, n - 1, s[k..]))
  {
  }

  lemma ResumeOnce<T>(xs: seq<T>, ptr: nat, x: T, k: nat, p: Parse<seq<T>>)
    ensures Resume(xs, ptr, Resume([x], k, p)) == Resume(xs + [x], ptr + k, p)
  {
    if p.Parsed? { assert xs + ([x] + p.obj) == xs + [x] + p.obj; }
  }

  lemma MidwayFails<T>(c: Codec<T>, n: nat, input: seq<Byte>, xs: seq<T>, ptr: nat, code: int)
    requires Midway(c, n, input, xs, ptr) && |xs| < n && c.parse(input[ptr..]) == Fail(code)
    ensures ParseAll(c, n, input) == Fail(code)
  {
  }

  lemma MidwayEnds<T>(c: Codec<T>, n: nat, input: seq<Byte>, xs: seq<T>, ptr: nat)
    requires Midway(c, n, input, xs, ptr) && |xs| == n
    ensures Agrees(ptr, xs, ParseAll(c, n, input)) && ptr <= |input|
  {
    assert xs + [] == xs;
  }

  lemma MidwayStarts<T>(c: Codec<T>, n: nat, input: seq<Byte>)
    ensures Midway(c, n, input, [], 0)
  {
    assert input[0..] == input;
    var p := ParseAll(c, n, input);
    if p.Parsed? { assert [] + p.obj == p.obj; }
  }

  /** One more extension, from the rest of the input. */
  method NextExtension(ghost n: nat, input: seq<Byte>, ghost xs: seq<Extension>, ptr: nat)
    returns (r: int, x: Extension)
    requires Midway(ExtensionCodec(), n, input, xs, ptr) && |xs| < n
    ensures r < 0 ==> forall ys :: Agrees(r, ys, ParseAll(ExtensionCodec(), n, input))
    ensures r >= 0 ==> ptr + r <= |input| && Midway(ExtensionCodec(), n, input, xs + [x], ptr + r)
  {
    r, x := ParseExtensionInto(input[ptr..]);
    if r < 0 {
      MidwayFails(ExtensionCodec(), n, input, xs, ptr, r);
    } else {
      MidwayStep(ExtensionCodec(), n, input, xs, ptr, x, r);
    }
  }

  method ParseExtensionsInto(input: seq<Byte>, n: nat) returns (r: int, xs: seq<Extension>)
    ensures Agrees(r, xs, ParseAll(ExtensionCodec(), n, input)) && r <= |input|
  {
    hide *;
    xs := [];
    var ptr: nat, remaining, idx := 0, |input|, 0;
    MidwayStarts(ExtensionCodec(), n, input);
    while idx < n
      invariant idx == |xs| <= n && ptr + remaining == |input| && Midway(ExtensionCodec(), n, input, xs, ptr)
    {
      var x;
      r, x := NextExtension(n, input, xs, ptr);
      if r < 0 { return; }
      remaining, ptr, xs, idx := remaining - r, ptr + r, xs + [x], idx + 1;
    }
    MidwayEnds(ExtensionCodec(), n, input, xs, ptr);
    r := ptr;
  }

  /** One more link specifier, from the rest of the input. */
  method NextSpecifier(ghost n: nat, input: seq<Byte>, ghost xs: seq<Specifier>, ptr: nat)
    returns (r: int, x: Specifier)
    requires Midway(SpecifierCodec(), n, input, xs, ptr) && |xs| < n
    ensures r < 0 ==> forall ys :: Agrees(r, ys, ParseAll(SpecifierCodec(), n, input))
    ensures r >= 0 ==> ptr + r <= |input| && Midway(SpecifierCodec(), n, input, xs + [x], ptr + r)
  {
    r, x := ParseSpecifierInto(input[ptr..]);
    if r < 0 {
      MidwayFails(SpecifierCodec(), n, input, xs, ptr, r);
    } else {
      MidwayStep(SpecifierCodec(), n, input, xs, ptr, x, r);
    }
  }

  method ParseSpecifiersInto(input: seq<Byte>, n: nat) returns (r: int, xs: seq<Specifier>)
    ensures Agrees(r, xs, ParseAll(SpecifierCodec(), n, input)) && r <= |input|
  {
    hide *;
    xs := [];
    var ptr: nat, remaining, idx := 0, |input|, 0;
    MidwayStarts(SpecifierCodec(), n, input);
    while idx < n
      invariant idx == |xs| <= n && ptr + remaining == |input| && Midway(SpecifierCodec(), n, input, xs, ptr)
    {
      var x;
      r, x := NextSpecifier(n, input, xs, ptr);
      if r < 0 { return; }
      remaining, ptr, xs, idx := remaining - r, ptr + r, xs + [x], idx + 1;
    }
    MidwayEnds(SpecifierCodec(), n, input, xs, ptr);
    r := ptr;
  }

  // ---- whole objects ----

  method ParseCertInto(input: seq<Byte>) returns (r: int, x: Cert)
    ensures Agrees(r, CertParts(x), CertCodec().parse(input))
  {
    x := Cert(CertHead(0, 0, 0, 0, Zeros(32), 0), [], Zeros(64));
    var h, exts;
    r, h := ParseHeadInto(input);
    x := x.(head := h);
    if r < 0 { return; }
    var ptr := r;
    r, exts := ParseExtensionsInto(input[ptr..], h.nExtensions);
    x := x.(ext := exts);
    if r < 0 { return; }
    assert input[ptr..][r..] == input[ptr + r..];
    ptr := ptr + r;
    if |input| - ptr < 64 { return TRUNCATED, x; }
    x := x.(signature := input[ptr..ptr + 64]);
    assert input[ptr..][..64] == x.signature;
    r := ptr + 64;
  }

  method ParseListInto(input: seq<Byte>) returns (r: int, x: SpecifierList)
    ensures Agrees(r, ListParts(x), ListCodec().parse(input)) && r <= |input|
  {
    x := SpecifierList(0, []);
    if |input| < 1 { return TRUNCATED, x; }
    x := x.(nSpec := input[0]);
    var specs;
    r, specs := ParseSpecifiersInto(input[1..], x.nSpec);
    x := x.(spec := specs);
    if r >= 0 { r := 1 + r; }
  }

  method ParseExtend2Into(input: seq<Byte>) returns (r: int, x: Extend2)
    ensures Agrees(r, Extend2Parts(x), Extend2Codec().parse(input))
  {
    x := Extend2(SpecifierList(0, []), Create2(0, 0, []));
    var list, body;
    r, list := ParseListInto(input);
    x := x.(list := list);
    if r < 0 { return; }
    var ptr := r;
    r, body := ParseCreate2Into(input[ptr..]);
    x := x.(create2 := body);
    if r >= 0 { r := ptr + r; }
  }

  // ---- there and back ----

  lemma WroteAtFront(before: seq<Byte>, after: seq<Byte>, bytes: seq<Byte>)
    requires Wrote(before, after, 0, bytes)
    ensures after == bytes + after[|bytes|..]
  {
    assert after == after[0..|bytes|] + after[|bytes|..];
  }

  lemma ParsesBack<T(!new)>(c: Codec<T>, x: T, s: seq<Byte>)
    requires Lawful(c) && c.ok(x) && |c.enc(x)| <= |s| && s == c.enc(x) + s[|c.enc(x)|..]
    ensures c.parse(s) == Parsed(c.norm(x), |c.enc(x)|)
  {
    assert RoundTrips(c, x);
    assert c.parse(c.enc(x) + s[|c.enc(x)|..]) == Parsed(c.norm(x), |c.enc(x)|);
  }

  function NormalCert(x: Cert): Cert {
    x.(ext := NormAll(ExtensionCodec(), x.ext))
  }

  function NormalList(x: SpecifierList): SpecifierList {
    x.(spec := NormAll(SpecifierCodec(), x.spec))
  }

  function NormalExtend2(x: Extend2): Extend2 {
    x.(list := NormalList(x.list))
  }

  lemma CertParsesBack(x: Cert, before: seq<Byte>, after: seq<Byte>)
    requires CertCheck(x) && AllOk(ExtensionCodec(), x.ext) && Wrote(before, after, 0, CertCodec().enc(CertParts(x)))
    ensures CertCodec().parse(after) == Parsed(CertParts(NormalCert(x)), |CertCodec().enc(CertParts(x))|)
  {
    CertLawful();
    var c, p := CertCodec(), CertParts(x);
    WroteAtFront(before, after, c.enc(p));
    assert c.ok(p);
    ParsesBack(c, p, after);
  }

  /**
    A certificate that passes the check and whose extensions fit, encoded into any buffer of at
    least its encoded length, parses back with its length fields filled in, whatever else the
    buffer holds.
  */
  method CertThereAndBack(out: array<Byte>, x: Cert) returns (len: int, written: int, used: int, y: Cert)
    requires CertCheck(x) && AllOk(ExtensionCodec(), x.ext) && out.Length >= |CertCodec().enc(CertParts(x))|
    modifies out
    ensures len == written == used == |CertCodec().enc(CertParts(x))|
    ensures y == NormalCert(x)
  {
    len := CertEncodedLen(x);
    ghost var before := out[..];
    ghost var done;
    written, done := EncodeCertTo(out, 0, out.Length, x);
    CertParsesBack(x, before, out[..]);
    used, y := ParseCertInto(out[..]);
  }

  lemma ListParsesBack(x: SpecifierList, before: seq<Byte>, after: seq<Byte>)
    requires ListCheck(x) && AllOk(SpecifierCodec(), x.spec) && Wrote(before, after, 0, ListCodec().enc(ListParts(x)))
    ensures ListCodec().parse(after) == Parsed(ListParts(NormalList(x)), |ListCodec().enc(ListParts(x))|)
  {
    ListLawful();
    var c, p := ListCodec(), ListParts(x);
    WroteAtFront(before, after, c.enc(p));
    assert c.ok(p);
    ParsesBack(c, p, after);
  }

  /** The same for a list of link specifiers. */
  method ListThereAndBack(out: array<Byte>, x: SpecifierList)
    returns (len: int, written: int, used: int, y: SpecifierList)
    requires ListCheck(x) && AllOk(SpecifierCodec(), x.spec) && out.Length >= |ListCodec().enc(ListParts(x))|
    modifies out
    ensures len == written == used == |ListCodec().enc(ListParts(x))|
    ensures y == NormalList(x)
  {
    len := ListEncodedLen(x);
    ghost var before := out[..];
    ghost var done;
    written, done := EncodeListTo(out, 0, out.Length, x);
    ListParsesBack(x, before, out[..]);
    used, y := ParseListInto(out[..]);
  }

  lemma Extend2ParsesBack(x: Extend2, before: seq<Byte>, after: seq<Byte>)
    requires Extend2Check(x) && AllOk(SpecifierCodec(), x.list.spec)
             && Wrote(before, after, 0, Extend2Codec().enc(Extend2Parts(x)))
    ensures Extend2Codec().parse(after) == Parsed(Extend2Parts(NormalExtend2(x)), |Extend2Codec().enc(Extend2Parts(x))|)
  {
    Extend2Lawful();
    var c, p := Extend2Codec(), Extend2Parts(x);
    WroteAtFront(before, after, c.enc(p));
    assert c.ok(p);
    ParsesBack(c, p, after);
  }

  /** The same for an EXTEND2 body. */
  method Extend2ThereAndBack(out: array<Byte>, x: Extend2) returns (len: int, written: int, used: int, y: Extend2)
    requires Extend2Check(x) && AllOk(SpecifierCodec(), x.list.spec)
    requires out.Length >= |Extend2Codec().enc(Extend2Parts(x))|
    modifies out
    ensures len == written == used == |Extend2Codec().enc(Extend2Parts(x))|
    ensures y == NormalExtend2(x)
  {
    len := Extend2EncodedLen(x);
    ghost var before := out[..];
    ghost var done;
    written, done := EncodeExtend2To(out, 0, out.Length, x);
    Extend2ParsesBack(x, before, out[..]);
    used, y := ParseExtend2Into(out[..]);
  }
}
