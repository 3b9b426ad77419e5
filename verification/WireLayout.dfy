/**
  Where each field of a message stands on the wire, which bytes are UTF-8, and what the parser makes
  of bytes that are no message.
*/
module WireLayout {
  import opened Bytes
  import opened Wire

  // ---- UTF-8, by code points ----

  /** A code point that is no surrogate. */
  predicate Scalar(cp: nat) {
    cp < 0x11_0000 && !(0xD800 <= cp < 0xE000)
  }

  /** The bytes of a code point (section 3 of RFC 3629): six bits to each byte after the first. */
  function Utf8(cp: nat): (s: seq<Byte>)
    requires Scalar(cp)
    ensures s != []
  {
    if cp < 0x80 then [cp]
    else if cp < 0x800 then [0xC0 + cp / 64, 0x80 + cp % 64]
    else if cp < 0x1_0000 then [0xE0 + cp / 64 / 64, 0x80 + cp / 64 % 64, 0x80 + cp % 64]
    else [0xF0 + cp / 64 / 64 / 64, 0x80 + cp / 64 / 64 % 64, 0x80 + cp / 64 % 64, 0x80 + cp % 64]
  }

  /** The code point that the bytes at the front stand for. */
  function CodePoint(s: seq<Byte>): int
    requires s != [] && CharLen(s) > 0
  {
    var n, first: int := CharLen(s), s[0];
    if n == 1 then first
    else if n == 2 then More(first - 0xC0, s[1])
    else if n == 3 then More(More(first - 0xE0, s[1]), s[2])
    else More(More(More(first - 0xF0, s[1]), s[2]), s[3])
  }

  /** Six more bits. */
  function More(high: int, b: Byte): int {
    high * 64 + (b as int - 0x80)
  }

  /** What is taken for a character is one. */
  lemma CharIsUtf8(s: seq<Byte>)
    requires s != [] && CharLen(s) > 0
    ensures var cp := CodePoint(s); cp >= 0 && Scalar(cp) && Utf8(cp) == s[..CharLen(s)]
  {
    var n := CharLen(s);
    if n == 2 { TwoBytes(s); } else if n == 3 { ThreeBytes(s); } else if n == 4 { FourBytes(s); }
  }

  lemma TwoBytes(s: seq<Byte>)
    requires s != [] && CharLen(s) == 2
    ensures var cp := CodePoint(s); 0x80 <= cp < 0x800 && [0xC0 + cp / 64, 0x80 + cp % 64] == s[..2]
  {
  }

  lemma ThreeBytes(s: seq<Byte>)
    requires s != [] && CharLen(s) == 3
    ensures var cp := CodePoint(s);
            && 0x800 <= cp < 0x1_0000 && Scalar(cp)
            && [0xE0 + cp / 64 / 64, 0x80 + cp / 64 % 64, 0x80 + cp % 64] == s[..3]
  {
  }

  lemma FourBytes(s: seq<Byte>)
    requires s != [] && CharLen(s) == 4
    ensures var cp := CodePoint(s);
            && 0x1_0000 <= cp < 0x11_0000
            && [0xF0 + cp / 64 / 64 / 64, 0x80 + cp / 64 / 64 % 64, 0x80 + cp / 64 % 64, 0x80 + cp % 64] == s[..4]
  {
  }

  /** Every character is taken for one, whatever follows. */
  lemma Utf8IsChar(cp: nat, rest: seq<Byte>)
    requires Scalar(cp)
    ensures CharLen(Utf8(cp) + rest) == |Utf8(cp)|
  {
  }

  function Utf8All(cps: seq<nat>): seq<Byte>
    requires forall cp <- cps :: Scalar(cp)
  {
    if cps == [] then [] else Utf8(cps[0]) + Utf8All(cps[1..])
  }

  lemma {:induction false} EncodedIsUtf8(cps: seq<nat>)
    requires forall cp <- cps :: Scalar(cp)
    ensures IsUtf8(Utf8All(cps))
  {
    if cps != [] {
      var rest := Utf8All(cps[1..]);
      EncodedIsUtf8(cps[1..]);
      Utf8IsChar(cps[0], rest);
      assert (Utf8(cps[0]) + rest)[|Utf8(cps[0])|..] == rest;
    }
  }

  lemma {:induction false} Decode(s: seq<Byte>) returns (cps: seq<nat>)
    requires IsUtf8(s)
    ensures (forall cp <- cps :: Scalar(cp)) && Utf8All(cps) == s
  {
    cps := [];
    if s != [] {
      var n := CharLen(s);
      CharIsUtf8(s);
      var more := Decode(s[n..]);
      cps := [CodePoint(s)] + more;
      assert cps[1..] == more && s == s[..n] + s[n..];
    }
  }

  /** The bytes accepted as strings are exactly the encodings of sequences of code points. */
  lemma Utf8Iff(s: seq<Byte>)
    ensures IsUtf8(s) <==> exists cps: seq<nat> | (forall cp <- cps :: Scalar(cp)) :: Utf8All(cps) == s
  {
    if IsUtf8(s) { var cps := Decode(s); }
    forall cps: seq<nat> | (forall cp <- cps :: Scalar(cp)) && Utf8All(cps) == s
      ensures IsUtf8(s)
    {
      EncodedIsUtf8(cps);
    }
  }

  // ---- a message, field by field ----

  /** A string of `n` bytes stands at `i`, behind its length. */
  predicate StringAt(buf: seq<Byte>, i: nat, n: nat) {
    i + 4 + n <= |buf| && Holds32(buf, i, n)
  }

  lemma NumberPlaced(buf: seq<Byte>, i: nat, n: U32, rest: seq<Byte>)
    requires i <= |buf| && buf[i..] == ToBe(n, 4) + rest
    ensures Holds32(buf, i, n) && buf[i + 4..] == rest
  {
    assert buf[i..i + 4] == buf[i..][..4] == ToBe(n, 4);
    Placed32(buf, i, n);
    assert buf[i + 4..] == buf[i..][4..];
  }

  lemma StringPlaced(buf: seq<Byte>, i: nat, s: Str, rest: seq<Byte>)
    requires |s| < 0x1_0000_0000 && i <= |buf| && buf[i..] == SerializeStr(s) + rest
    ensures StringAt(buf, i, |s|) && buf[i + 4..i + 4 + |s|] == s && buf[i + 4 + |s|..] == rest
  {
    assert SerializeStr(s) + rest == ToBe(|s|, 4) + (s + rest);
    NumberPlaced(buf, i, |s|, s + rest);
    assert buf[i + 4..i + 4 + |s|] == buf[i + 4..][..|s|];
    assert buf[i + 4 + |s|..] == buf[i + 4..][|s|..];
  }

  /**
    The length of the whole header, the sender and the group each behind its length, the number, and
    the size of the body or 0 for a receipt; all numbers four bytes, most significant first.
  */
  lemma HeaderLayout(h: Message)
    ensures var s, n, m := Serialize(h), |h.sender|, |h.group|;
            && |s| == 20 + n + m && Holds32(s, 0, |s|)
            && Holds32(s, 4, n) && s[8..8 + n] == h.sender
            && Holds32(s, 8 + n, m) && s[12 + n..12 + n + m] == h.group
            && Holds32(s, 12 + n + m, h.id)
            && Holds32(s, 16 + n + m, match h.body case Receipt => 0 case Size(size) => size)
  {
    hide IsUtf8, CharLen, ToBe, Number32;
    var s, n, m := Serialize(h), |h.sender|, |h.group|;
    var body := ToBe(BodyType(h.body), 4);
    assert s[0..] == ToBe(|s|, 4) + Fields(h);
    NumberPlaced(s, 0, |s|, Fields(h));
    StringPlaced(s, 4, h.sender, SerializeStr(h.group) + IdAndBody(h));
    StringPlaced(s, 8 + n, h.group, IdAndBody(h));
    NumberPlaced(s, 12 + n + m, h.id, body);
    assert body == body + [];
    NumberPlaced(s, 16 + n + m, BodyType(h.body), []);
  }

  /** Behind the header, zeros: 160 for a receipt, else as many as the body has, 2240 at most but among peers. */
  lemma FrameLayout(h: Message, p2p: bool)
    ensures var s := Frame(h, p2p);
            && |s| >= HeaderLen(h) && s[..HeaderLen(h)] == Serialize(h)
            && (forall i | HeaderLen(h) <= i < |s| :: s[i] == 0)
            && |s| - HeaderLen(h) == match h.body
                                     case Receipt => 160
                                     case Size(n) => if !p2p && n > 2240 then 2240 else n
  {
  }

  // ---- bytes that are no message ----

  /** There is a string at `i`, all of it, that is not UTF-8. */
  ghost predicate BadStringAt(buf: seq<Byte>, i: nat) {
    exists n: nat :: StringAt(buf, i, n) && !IsUtf8(buf[i + 4..i + 4 + n])
  }

  lemma NumberOutcome(buf: seq<Byte>, i: nat)
    requires i <= |buf|
    ensures match DeserializeU32(buf[i..])
            case Ok(n, rest) => Holds32(buf, i, n) && rest == buf[i + 4..]
            case Err(e) => e.Malformed? && |buf| < i + 4
  {
    if |buf[i..]| >= 4 {
      U32Weights(buf[i..][..4]);
      assert buf[i..][..4] == buf[i..i + 4] && buf[i..][4..] == buf[i + 4..];
    }
  }

  lemma StringOutcome(buf: seq<Byte>, i: nat)
    requires i <= |buf|
    ensures match DeserializeStr(buf[i..])
            case Ok(s, rest) =>
              && StringAt(buf, i, |s|) && s == buf[i + 4..i + 4 + |s|] && rest == buf[i + 4 + |s|..]
              && !BadStringAt(buf, i)
            case Err(e) =>
              if e.Utf8? then BadStringAt(buf, i)
              else e.Malformed? && !BadStringAt(buf, i) && forall n :: !StringAt(buf, i, n)
  {
    NumberOutcome(buf, i);
    if DeserializeU32(buf[i..]).Ok? {
      var n: nat := DeserializeU32(buf[i..]).value;
      if i + 4 + n <= |buf| {
        assert StringAt(buf, i, n);
        assert buf[i + 4..][..n] == buf[i + 4..i + 4 + n] && buf[i + 4..][n..] == buf[i + 4 + n..];
      }
    }
  }

  /**
    What the parser accepts is two strings, each behind its length, a number, and a size that is 0
    for a receipt; what is behind them is ignored.
  */
  lemma AcceptedLayout(buf: seq<Byte>)
    requires Deserialize(buf).Ok?
    ensures var h := Deserialize(buf).value;
            var n, m := |h.sender|, |h.group|;
            && 16 + n + m <= |buf| && StringAt(buf, 0, n) && buf[4..4 + n] == h.sender
            && StringAt(buf, 4 + n, m) && buf[8 + n..8 + n + m] == h.group
            && Holds32(buf, 8 + n + m, h.id)
            && Holds32(buf, 12 + n + m, match h.body case Receipt => 0 case Size(size) => size)
            && Deserialize(buf).rest == buf[16 + n + m..]
  {
    hide IsUtf8, CharLen, Number32, BadStringAt, DeserializeStr, DeserializeU32;
    var h := Deserialize(buf).value;
    var n, m := |h.sender|, |h.group|;
    assert buf[0..] == buf;
    StringOutcome(buf, 0);
    assert DeserializeStr(buf) == Ok(h.sender, buf[4 + n..]);
    StringOutcome(buf, 4 + n);
    assert DeserializeStr(buf[4 + n..]) == Ok(h.group, buf[8 + n + m..]);
    NumberOutcome(buf, 8 + n + m);
    assert DeserializeU32(buf[8 + n + m..]) == Ok(h.id, buf[12 + n + m..]);
    NumberOutcome(buf, 12 + n + m);
  }

  /**
    What it refuses is for UTF-8 if the first string is all there and not UTF-8, or the first is
    fine and the second is so; otherwise for want of bytes.
  */
  lemma Refusals(buf: seq<Byte>)
    requires Deserialize(buf).Err?
    ensures Deserialize(buf).error.Utf8? || Deserialize(buf).error.Malformed?
    ensures Deserialize(buf).error.Utf8? <==>
              BadStringAt(buf, 0) || exists n: nat :: StringAt(buf, 0, n) && BadStringAt(buf, 4 + n)
  {
    hide IsUtf8, CharLen, BadStringAt, DeserializeStr, DeserializeU32;
    assert buf[0..] == buf;
    StringOutcome(buf, 0);
    if DeserializeStr(buf).Ok? {
      var n := |DeserializeStr(buf).value|;
      assert forall k: nat :: StringAt(buf, 0, k) ==> k == n;
      StringOutcome(buf, 4 + n);
      if DeserializeStr(buf[4 + n..]).Ok? {
        var m := |DeserializeStr(buf[4 + n..]).value|;
        NumberOutcome(buf, 8 + n + m);
        if |buf| >= 12 + n + m { NumberOutcome(buf, 12 + n + m); }
      }
    }
  }

  /** A stream yields its first message's header as it stands, by the length it gives, and goes on behind the body. */
  lemma StreamOutcome(stream: seq<Byte>, p2p: bool)
    ensures match GetMessageBytes(stream, p2p)
            case Ok(buf, rest) =>
              && |buf| >= 4 && Holds32(stream, 0, |buf|) && buf == stream[..|buf|] && Deserialize(buf[4..]).Ok?
              && var end := |buf| + match Deserialize(buf[4..]).value.body
                                    case Receipt => 160
                                    case Size(n) => if !p2p && n > 2240 then 2240 else n;
                 rest == stream[if end <= |stream| then end else |stream|..]
            case Err(e) =>
              match e
              case Io => |stream| < 4 || Number32(stream, 0) > |stream|
              case SlicePanic => |stream| >= 4 && Number32(stream, 0) < 4
              case _ => |stream| >= 4 && 4 <= Number32(stream, 0) <= |stream|
                        && Deserialize(stream[4..Number32(stream, 0)]) == Err(e)
  {
    if |stream| >= 4 {
      U32Weights(stream[..4]);
      assert Number32(stream[..4], 0) == Number32(stream, 0);
      var n := U32At(stream[..4]);
      if 4 <= n <= |stream| {
        assert stream[..n][4..] == stream[4..n];
        if Deserialize(stream[4..n]).Err? { Refusals(stream[4..n]); }
      }
    }
  }
}
