/** Bytes and big-endian numbers, shared by the message format and the certificate codec. */
module Bytes {

  type Byte = x: int | 0 <= x < 256
  type U16 = x: int | 0 <= x < 0x1_0000
  type U32 = x: int | 0 <= x < 0x1_0000_0000

  function Zeros(n: nat): (r: seq<Byte>)
    ensures |r| == n && forall i | 0 <= i < n :: r[i] == 0
  {
    seq(n, _ => 0)
  }

  function Limit(width: nat): (r: nat)
    ensures r > 0
  {
    if width == 0 then 1 else 256 * Limit(width - 1)
  }

  /** The `width` low-order bytes of a number, most significant first. */
  function ToBe(n: nat, width: nat): (r: seq<Byte>)
    ensures |r| == width
  {
    if width == 0 then [] else ToBe(n / 256, width - 1) + [n % 256]
  }

  function FromBe(s: seq<Byte>): (n: nat)
    ensures n < Limit(|s|)
  {
    if s == [] then 0 else FromBe(s[..|s| - 1]) * 256 + s[|s| - 1]
  }

  lemma {:induction false} BeRoundTrip(n: nat, width: nat)
    requires n < Limit(width)
    ensures FromBe(ToBe(n, width)) == n
  {
    if width > 0 {
      BeRoundTrip(n / 256, width - 1);
      assert ToBe(n, width)[..width - 1] == ToBe(n / 256, width - 1);
    }
  }

  lemma {:induction false} BeCanonical(s: seq<Byte>)
    ensures ToBe(FromBe(s), |s|) == s
  {
    if s != [] {
      var init, last := s[..|s| - 1], s[|s| - 1];
      BeCanonical(init);
      assert FromBe(s) / 256 == FromBe(init) && FromBe(s) % 256 == last;
    }
  }

  lemma Limits()
    ensures Limit(1) == 0x100 && Limit(2) == 0x1_0000 && Limit(4) == 0x1_0000_0000
  {
    assert Limit(1) == 256 * Limit(0);
    assert Limit(2) == 256 * Limit(1);
    assert Limit(3) == 256 * Limit(2);
  }

  /** The number a field of four bytes holds. */
  function U32At(s: seq<Byte>): U32
    requires |s| == 4
  {
    Limits();
    FromBe(s)
  }

  function U16At(s: seq<Byte>): U16
    requires |s| == 2
  {
    Limits();
    FromBe(s)
  }

  lemma U32RoundTrip(n: U32)
    ensures U32At(ToBe(n, 4)) == n
  {
    Limits();
    BeRoundTrip(n, 4);
  }

  lemma U16RoundTrip(n: U16)
    ensures U16At(ToBe(n, 2)) == n
  {
    Limits();
    BeRoundTrip(n, 2);
  }

  lemma U32Canonical(s: seq<Byte>)
    requires |s| == 4
    ensures ToBe(U32At(s), 4) == s
  {
    BeCanonical(s);
  }

  lemma U16Canonical(s: seq<Byte>)
    requires |s| == 2
    ensures ToBe(U16At(s), 2) == s
  {
    BeCanonical(s);
  }

  // ---- digit by digit ----

  /** Byte `i` of `width` is the digit that counts for 256 to the power of the number of bytes behind it. */
  lemma {:induction false} ToBeDigit(n: nat, width: nat, i: nat)
    requires i < width
    ensures ToBe(n, width)[i] == n / Limit(width - 1 - i) % 256
  {
    if i < width - 1 {
      ToBeDigit(n / 256, width - 1, i);
      DivideTwice(n, 256, Limit(width - 2 - i));
    }
  }

  lemma DivideTwice(n: nat, a: nat, b: nat)
    requires a > 0 && b > 0
    ensures a * b > 0 && n / a / b == n / (a * b)
  {
    var q, r := n / a, n % a;
    var q', r' := q / b, q % b;
    Combine(n, a, b, q, r, q', r');
    Remainder(a, b, r', r);
    QuotientIs(n, a * b, q', a * r' + r);
  }

  lemma Combine(n: int, a: int, b: int, q: int, r: int, q': int, r': int)
    requires n == a * q + r && q == b * q' + r'
    ensures n == (a * b) * q' + (a * r' + r)
  {
    assert a * (b * q' + r') == a * (b * q') + a * r';
    assert a * (b * q') == (a * b) * q';
  }

  lemma NotNegative(a: int, b: int)
    requires a >= 0 && b >= 0
    ensures a * b >= 0
  {
  }

  lemma Remainder(a: int, b: int, r': int, r: int)
    requires 0 <= r' < b && 0 <= r < a
    ensures 0 <= a * r' + r < a * b
  {
    NotNegative(a, r');
    NotNegative(a, b - r' - 1);
    assert a * (b - r' - 1) == a * b - a * r' - a;
  }

  lemma QuotientIs(n: int, d: int, q: int, r: int)
    requires d > 0 && n == d * q + r && 0 <= r < d
    ensures n / d == q
  {
    var e := n / d - q;
    assert d * e == d * (n / d) - d * q;
    if e != 0 { MultipleIsFar(d, e); }
  }

  lemma MultipleIsFar(d: int, e: int)
    requires d > 0 && e != 0
    ensures d * e >= d || d * e <= -d
  {
    if e > 0 {
      NotNegative(d, e - 1);
      assert d * (e - 1) == d * e - d;
    } else {
      NotNegative(d, -e - 1);
      assert d * (-e - 1) == -(d * e) - d;
    }
  }

  /** The first byte counts for as much as all that follow can hold, and one more. */
  lemma {:induction false} FromBeFirst(s: seq<Byte>)
    requires s != []
    ensures FromBe(s) == s[0] * Limit(|s| - 1) + FromBe(s[1..])
  {
    if |s| > 1 {
      var init, rest, width := s[..|s| - 1], s[1..], |s| - 1;
      FromBeFirst(init);
      assert init[1..] == rest[..|rest| - 1] && rest[|rest| - 1] == s[|s| - 1];
      OneMoreDigit(s[0], Limit(width - 1), FromBe(init[1..]), s[width]);
      assert FromBe(rest) == FromBe(init[1..]) * 256 + s[width] && Limit(width) == 256 * Limit(width - 1);
    }
  }

  lemma OneMoreDigit(first: int, above: int, low: int, last: int)
    ensures (first * above + low) * 256 + last == first * (256 * above) + (low * 256 + last)
  {
  }

  /** The number that two bytes make, the more significant one first. */
  function Number16(s: seq<Byte>, i: nat): nat
    requires i + 2 <= |s|
  {
    0x100 * (s[i] as int) + (s[i + 1] as int)
  }

  /** The number that four bytes make, the most significant one first. */
  function Number32(s: seq<Byte>, i: nat): nat
    requires i + 4 <= |s|
  {
    0x100_0000 * (s[i] as int) + 0x1_0000 * (s[i + 1] as int) + 0x100 * (s[i + 2] as int) + (s[i + 3] as int)
  }

  predicate Holds16(s: seq<Byte>, i: nat, n: int) {
    i + 2 <= |s| && n == Number16(s, i)
  }

  predicate Holds32(s: seq<Byte>, i: nat, n: int) {
    i + 4 <= |s| && n == Number32(s, i)
  }

  lemma U16Weights(s: seq<Byte>)
    requires |s| == 2
    ensures U16At(s) == Number16(s, 0)
  {
    Limits();
    FromBeFirst(s);
    FromBeFirst(s[1..]);
    assert s[1..][1..] == [] && FromBe([]) == 0;
  }

  lemma U32Weights(s: seq<Byte>)
    requires |s| == 4
    ensures U32At(s) == Number32(s, 0)
  {
    Limits();
    FromBeFirst(s);
    FromBeFirst(s[1..]);
    U16Weights(s[2..]);
    FromBeFirst(s[2..]);
    assert s[1..][1..] == s[2..];
    assert Limit(3) == 256 * Limit(2);
  }

  /** A field of two bytes, wherever it stands. */
  lemma Placed16(s: seq<Byte>, i: nat, n: U16)
    requires i + 2 <= |s| && s[i..i + 2] == ToBe(n, 2)
    ensures Holds16(s, i, n)
  {
    U16RoundTrip(n);
    U16Weights(s[i..i + 2]);
  }

  lemma Placed32(s: seq<Byte>, i: nat, n: U32)
    requires i + 4 <= |s| && s[i..i + 4] == ToBe(n, 4)
    ensures Holds32(s, i, n)
  {
    U32RoundTrip(n);
    U32Weights(s[i..i + 4]);
  }
}
