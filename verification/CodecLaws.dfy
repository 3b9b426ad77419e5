/**
  Binary formats in general: what it means for an encoder and a parser to fit, and the proof that
  pairs and counted lists of such formats are such formats again.
*/
module CodecLaws {
  import opened Bytes
  import opened Sequences

  const TRUNCATED := -2
  const INVALID := -1

  /** A parser's answer: an object and the number of bytes used, or an error code. */
  datatype Parse<+T> = Parsed(obj: T, used: nat) | Fail(code: int)

  /** `ok` objects can be encoded; `norm` is the object as it is parsed back, its derived fields filled in. */
  datatype Codec<!T> = Codec(enc: T -> seq<Byte>, parse: seq<Byte> -> Parse<T>, ok: T -> bool, norm: T -> T)

  // ---- laws ----

  /** An encoding parses to its object and uses exactly the encoding, whatever follows. */
  ghost predicate RoundTrips<T>(c: Codec<T>, x: T) {
    forall rest: seq<Byte> :: c.parse(c.enc(x) + rest) == Parsed(c.norm(x), |c.enc(x)|)
  }

  /** A strict prefix of an encoding is truncated, never accepted and never invalid. */
  ghost predicate Truncates<T>(c: Codec<T>, x: T) {
    forall k: nat | k < |c.enc(x)| :: c.parse(c.enc(x)[..k]) == Fail(TRUNCATED)
  }

  /** Accepted bytes are the encoding of the object they give. */
  ghost predicate Canonical<T>(c: Codec<T>, s: seq<Byte>) {
    match c.parse(s)
    case Fail(code) => code == TRUNCATED || code == INVALID
    case Parsed(x, n) => n <= |s| && c.ok(x) && c.norm(x) == x && c.enc(x) == s[..n]
  }

  ghost predicate Lawful<T(!new)>(c: Codec<T>) {
    && (forall x | c.ok(x) :: RoundTrips(c, x) && Truncates(c, x))
    && (forall s :: Canonical(c, s))
  }

  /** What follows the bytes used does not matter. */
  lemma SelfDelimiting<T(!new)>(c: Codec<T>, s: seq<Byte>, suffix: seq<Byte>)
    requires Lawful(c) && c.parse(s).Parsed?
    ensures c.parse(s).used <= |s| && c.parse(s[..c.parse(s).used] + suffix) == c.parse(s)
    ensures c.parse(s + suffix) == c.parse(s)
  {
    assert Canonical(c, s);
    var x, n := c.parse(s).obj, c.parse(s).used;
    assert RoundTrips(c, x);
    assert c.parse(c.enc(x) + suffix) == Parsed(x, n);
    assert s + suffix == c.enc(x) + (s[n..] + suffix);
  }

  // ---- a fixed number of bytes ----

  function ParseFixed(n: nat, s: seq<Byte>): Parse<seq<Byte>> {
    if |s| < n then Fail(TRUNCATED) else Parsed(s[..n], n)
  }

  function Fixed(n: nat): Codec<seq<Byte>> {
    Codec((x: seq<Byte>) => x, (s: seq<Byte>) => ParseFixed(n, s), (x: seq<Byte>) => |x| == n, (x: seq<Byte>) => x)
  }

  lemma FixedLawful(n: nat)
    ensures Lawful(Fixed(n))
  {
    var c := Fixed(n);
    forall x | c.ok(x)
      ensures RoundTrips(c, x) && Truncates(c, x)
    {
      forall rest: seq<Byte> ensures c.parse(c.enc(x) + rest) == Parsed(c.norm(x), |c.enc(x)|) {
        assert (x + rest)[..n] == x;
      }
    }
  }

  // ---- one format after another ----

  function Drop(s: seq<Byte>, n: nat): seq<Byte> {
    if n <= |s| then s[n..] else []
  }

  function ParseThen<A, B>(a: Codec<A>, b: A -> Codec<B>, s: seq<Byte>): Parse<(A, B)> {
    match a.parse(s)
    case Fail(code) => Fail(code)
    case Parsed(x, n) =>
      match b(x).parse(Drop(s, n))
      case Fail(code) => Fail(code)
      case Parsed(y, m) => Parsed((x, y), n + m)
  }

  /** A first part, then a second part whose format may depend on the first. */
  function Then<A, B>(a: Codec<A>, b: A -> Codec<B>): Codec<(A, B)> {
    Codec((p: (A, B)) => a.enc(p.0) + b(p.0).enc(p.1),
          (s: seq<Byte>) => ParseThen(a, b, s),
          (p: (A, B)) => a.ok(p.0) && b(p.0).ok(p.1),
          (p: (A, B)) => (a.norm(p.0), b(p.0).norm(p.1)))
  }

  ghost predicate Composable<A(!new), B(!new)>(a: Codec<A>, b: A -> Codec<B>) {
    && Lawful(a) && (forall x :: Lawful(b(x)))
    && (forall x | a.ok(x) :: b(a.norm(x)) == b(x))
  }

  /** The second parser starts where the first one's encoding ends. */
  lemma ThenSteps<A(!new), B(!new)>(a: Codec<A>, b: A -> Codec<B>, x: A, rest: seq<Byte>)
    requires Composable(a, b) && a.ok(x)
    ensures ParseThen(a, b, a.enc(x) + rest) ==
              match b(x).parse(rest)
              case Fail(code) => Fail(code)
              case Parsed(y, m) => Parsed((a.norm(x), y), |a.enc(x)| + m)
  {
    assert RoundTrips(a, x);
    assert Drop(a.enc(x) + rest, |a.enc(x)|) == rest;
  }

  lemma ThenRoundTrips<A(!new), B(!new)>(a: Codec<A>, b: A -> Codec<B>, x: A, y: B)
    requires Composable(a, b) && a.ok(x) && b(x).ok(y)
    ensures RoundTrips(Then(a, b), (x, y))
  {
    var u, v := a.enc(x), b(x).enc(y);
    forall rest: seq<Byte>
      ensures Then(a, b).parse(Then(a, b).enc((x, y)) + rest) == Parsed((a.norm(x), b(x).norm(y)), |u| + |v|)
    {
      ThenSteps(a, b, x, v + rest);
      assert RoundTrips(b(x), y);
      assert u + v + rest == u + (v + rest);
    }
  }

  lemma ThenTruncates<A(!new), B(!new)>(a: Codec<A>, b: A -> Codec<B>, x: A, y: B)
    requires Composable(a, b) && a.ok(x) && b(x).ok(y)
    ensures Truncates(Then(a, b), (x, y))
  {
    var u, v := a.enc(x), b(x).enc(y);
    forall k: nat | k < |u + v|
      ensures ParseThen(a, b, (u + v)[..k]) == Fail(TRUNCATED)
    {
      if k < |u| {
        assert Truncates(a, x);
        assert (u + v)[..k] == u[..k];
      } else {
        ThenSteps(a, b, x, v[..k - |u|]);
        assert Truncates(b(x), y);
        assert (u + v)[..k] == u + v[..k - |u|];
      }
    }
  }

  lemma ThenCanonical<A(!new), B(!new)>(a: Codec<A>, b: A -> Codec<B>, s: seq<Byte>)
    requires Composable(a, b)
    ensures Canonical(Then(a, b), s)
  {
    assert Canonical(a, s);
    if a.parse(s).Parsed? {
      var x, n := a.parse(s).obj, a.parse(s).used;
      assert Canonical(b(x), s[n..]);
      if b(x).parse(s[n..]).Parsed? {
        var m := b(x).parse(s[n..]).used;
        assert s[..n] + s[n..][..m] == s[..n + m];
      }
    }
  }

  lemma ThenLawful<A(!new), B(!new)>(a: Codec<A>, b: A -> Codec<B>)
    requires Composable(a, b)
    ensures Lawful(Then(a, b))
  {
    var c := Then(a, b);
    forall p | c.ok(p) ensures RoundTrips(c, p) && Truncates(c, p) {
      ThenRoundTrips(a, b, p.0, p.1);
      ThenTruncates(a, b, p.0, p.1);
    }
    forall s ensures Canonical(c, s) { ThenCanonical(a, b, s); }
  }

  // ---- lists of a known length ----

  function EncodeAll<T>(c: Codec<T>, xs: seq<T>): seq<Byte> {
    if xs == [] then [] else c.enc(xs[0]) + EncodeAll(c, xs[1..])
  }

  lemma {:induction false} EncodeAllSnoc<T>(c: Codec<T>, xs: seq<T>, x: T)
    ensures EncodeAll(c, xs + [x]) == EncodeAll(c, xs) + c.enc(x)
  {
    if xs == [] {
      assert EncodeAll(c, [x]) == c.enc(x) + EncodeAll(c, []);
      assert [] + [x] == [x];
    } else {
      EncodeAllSnoc(c, xs[1..], x);
      assert (xs + [x])[0] == xs[0] && (xs + [x])[1..] == xs[1..] + [x];
    }
  }

  lemma {:induction false} EncodeAllFront<T>(c: Codec<T>, xs: seq<T>, i: nat)
    requires i <= |xs|
    ensures |EncodeAll(c, xs[..i])| <= |EncodeAll(c, xs)|
    decreases |xs| - i
  {
    if i == |xs| {
      assert xs[..i] == xs;
    } else {
      EncodeAllNext(c, xs, i);
      EncodeAllFront(c, xs, i + 1);
    }
  }

  lemma EncodeAllNext<T>(c: Codec<T>, xs: seq<T>, i: nat)
    requires i < |xs|
    ensures EncodeAll(c, xs[..i + 1]) == EncodeAll(c, xs[..i]) + c.enc(xs[i])
  {
    assert xs[..i + 1] == xs[..i] + [xs[i]];
    EncodeAllSnoc(c, xs[..i], xs[i]);
  }

  function ParseAll<T>(c: Codec<T>, n: nat, s: seq<Byte>): Parse<seq<T>> {
    if n == 0 then Parsed([], 0)
    else
      match c.parse(s)
      case Fail(code) => Fail(code)
      case Parsed(x, k) =>
        match ParseAll(c, n - 1, Drop(s, k))
        case Fail(code) => Fail(code)
        case Parsed(xs, m) => Parsed([x] + xs, k + m)
  }

  predicate AllOk<T>(c: Codec<T>, xs: seq<T>) {
    forall i | 0 <= i < |xs| :: c.ok(xs[i])
  }

  lemma AllOkNext<T>(c: Codec<T>, xs: seq<T>, i: nat)
    requires i < |xs| && AllOk(c, xs[..i])
    ensures AllOk(c, xs[..i + 1]) <==> c.ok(xs[i])
  {
    var front, more := xs[..i], xs[..i + 1];
    assert more == front + [xs[i]];
    assert more[i] == xs[i];
    if c.ok(xs[i]) {
      forall j | 0 <= j < |more| ensures c.ok(more[j]) { if j < i { assert more[j] == front[j]; } }
    }
  }

  /** The bytes of the elements up to and including the first that cannot be encoded; of all if there is none. */
  ghost function ThroughMisfit<T>(c: Codec<T>, xs: seq<T>): nat {
    if xs == [] then 0
    else |c.enc(xs[0])| + if c.ok(xs[0]) then ThroughMisfit(c, xs[1..]) else 0
  }

  lemma MisfitAt<T>(c: Codec<T>, xs: seq<T>, i: nat)
    requires i < |xs|
    ensures ThroughMisfit(c, xs[i..]) == |c.enc(xs[i])| + if c.ok(xs[i]) then ThroughMisfit(c, xs[i + 1..]) else 0
  {
    assert xs[i..][0] == xs[i] && xs[i..][1..] == xs[i + 1..];
  }

  function NormAll<T>(c: Codec<T>, xs: seq<T>): seq<T> {
    seq(|xs|, i requires 0 <= i < |xs| => c.norm(xs[i]))
  }

  function Repeat<T>(c: Codec<T>, n: nat): Codec<seq<T>> {
    Codec((xs: seq<T>) => EncodeAll(c, xs),
          (s: seq<Byte>) => ParseAll(c, n, s),
          (xs: seq<T>) => |xs| == n && AllOk(c, xs),
          (xs: seq<T>) => NormAll(c, xs))
  }

  /** The list parser's first step, on bytes that begin with an encoded element. */
  lemma RepeatSteps<T(!new)>(c: Codec<T>, n: nat, x: T, rest: seq<Byte>)
    requires Lawful(c) && c.ok(x) && n > 0
    ensures ParseAll(c, n, c.enc(x) + rest) ==
              match ParseAll(c, n - 1, rest)
              case Fail(code) => Fail(code)
              case Parsed(xs, m) => Parsed([c.norm(x)] + xs, |c.enc(x)| + m)
  {
    assert RoundTrips(c, x);
    assert Drop(c.enc(x) + rest, |c.enc(x)|) == rest;
  }

  lemma {:induction false} RepeatRoundTrips<T(!new)>(c: Codec<T>, xs: seq<T>, rest: seq<Byte>)
    requires Lawful(c) && AllOk(c, xs)
    ensures ParseAll(c, |xs|, EncodeAll(c, xs) + rest) == Parsed(NormAll(c, xs), |EncodeAll(c, xs)|)
  {
    if xs == [] {
      assert NormAll(c, xs) == [];
    } else {
      var u, v := c.enc(xs[0]), EncodeAll(c, xs[1..]);
      RepeatRoundTrips(c, xs[1..], rest);
      RepeatSteps(c, |xs|, xs[0], v + rest);
      Regroup(u, v, rest);
      NormCons(c, xs);
    }
  }

  lemma NormCons<T>(c: Codec<T>, xs: seq<T>)
    requires xs != []
    ensures NormAll(c, xs) == [c.norm(xs[0])] + NormAll(c, xs[1..])
  {
  }

  lemma {:induction false} RepeatTruncates<T(!new)>(c: Codec<T>, xs: seq<T>, k: nat)
    requires Lawful(c) && AllOk(c, xs) && k < |EncodeAll(c, xs)|
    ensures ParseAll(c, |xs|, EncodeAll(c, xs)[..k]) == Fail(TRUNCATED)
  {
    var u, v := c.enc(xs[0]), EncodeAll(c, xs[1..]);
    if k < |u| {
      assert Truncates(c, xs[0]);
      assert (u + v)[..k] == u[..k];
    } else {
      RepeatTruncates(c, xs[1..], k - |u|);
      RepeatSteps(c, |xs|, xs[0], v[..k - |u|]);
      assert (u + v)[..k] == u + v[..k - |u|];
    }
  }

  lemma {:induction false} RepeatCanonical<T(!new)>(c: Codec<T>, n: nat, s: seq<Byte>)
    requires Lawful(c)
    ensures Canonical(Repeat(c, n), s)
  {
    if n == 0 {
      assert NormAll(c, []) == [];
    } else {
      assert Canonical(c, s);
      match c.parse(s)
      case Fail(code) =>
      case Parsed(x, k) =>
        RepeatCanonical(c, n - 1, s[k..]);
        match ParseAll(c, n - 1, s[k..])
        case Fail(code) =>
        case Parsed(xs, m) => RepeatCanonicalCons(c, n, s, x, k, xs, m);
    }
  }

  lemma RepeatCanonicalCons<T(!new)>(c: Codec<T>, n: nat, s: seq<Byte>, x: T, k: nat, xs: seq<T>, m: nat)
    requires n > 0 && k <= |s| && c.parse(s) == Parsed(x, k) && ParseAll(c, n - 1, s[k..]) == Parsed(xs, m)
    requires Canonical(c, s) && Canonical(Repeat(c, n - 1), s[k..])
    ensures Canonical(Repeat(c, n), s)
  {
    RepeatCons(c, x, xs);
    ParseAllCons(c, n, s, x, k, xs, m);
    Slices(s, k, m);
  }

  lemma ParseAllCons<T>(c: Codec<T>, n: nat, s: seq<Byte>, x: T, k: nat, xs: seq<T>, m: nat)
    requires n > 0 && k <= |s| && c.parse(s) == Parsed(x, k) && ParseAll(c, n - 1, s[k..]) == Parsed(xs, m)
    ensures ParseAll(c, n, s) == Parsed([x] + xs, k + m)
  {
  }

  lemma Slices(s: seq<Byte>, k: nat, m: nat)
    requires k + m <= |s|
    ensures s[..k] + s[k..][..m] == s[..k + m]
  {
  }

  lemma RepeatCons<T>(c: Codec<T>, x: T, xs: seq<T>)
    requires c.ok(x) && AllOk(c, xs) && c.norm(x) == x && NormAll(c, xs) == xs
    ensures AllOk(c, [x] + xs) && NormAll(c, [x] + xs) == [x] + xs
    ensures EncodeAll(c, [x] + xs) == c.enc(x) + EncodeAll(c, xs)
  {
    assert ([x] + xs)[1..] == xs;
    forall i | 0 <= i < |xs| + 1
      ensures NormAll(c, [x] + xs)[i] == ([x] + xs)[i]
    {
      if i > 0 { assert NormAll(c, xs)[i - 1] == xs[i - 1]; }
    }
  }

  lemma RepeatLawful<T(!new)>(c: Codec<T>, n: nat)
    requires Lawful(c)
    ensures Lawful(Repeat(c, n))
  {
    var r := Repeat(c, n);
    forall xs | r.ok(xs) ensures RoundTrips(r, xs) && Truncates(r, xs) {
      forall rest: seq<Byte> ensures r.parse(r.enc(xs) + rest) == Parsed(r.norm(xs), |r.enc(xs)|) {
        RepeatRoundTrips(c, xs, rest);
      }
      forall k: nat | k < |r.enc(xs)| ensures r.parse(r.enc(xs)[..k]) == Fail(TRUNCATED) { RepeatTruncates(c, xs, k); }
    }
    forall s ensures Canonical(r, s) { RepeatCanonical(c, n, s); }
  }
}
