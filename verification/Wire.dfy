/**
  The length-prefixed message format of the simulator: serialization, parsing from a stream, and
  streams of messages cut anywhere.
*/
module Wire {

  import opened Bytes

  // ---- strings ----

  predicate Continues(s: seq<Byte>, i: nat) {
    i < |s| && 0x80 <= s[i] <= 0xBF
  }

  /** The length of the character at the front, or 0 if the bytes there are not UTF-8 (section 4 of RFC 3629). */
  function CharLen(s: seq<Byte>): (n: nat)
    requires s != []
    ensures n <= |s|
  {
    var b := s[0];
    if b <= 0x7F then 1
    else if 0xC2 <= b <= 0xDF && Continues(s, 1) then 2
    else if 0xE0 <= b <= 0xEF && Continues(s, 1) && Continues(s, 2)
            && (b == 0xE0 ==> s[1] >= 0xA0) && (b == 0xED ==> s[1] <= 0x9F) then 3
    else if 0xF0 <= b <= 0xF4 && Continues(s, 1) && Continues(s, 2) && Continues(s, 3)
            && (b == 0xF0 ==> s[1] >= 0x90) && (b == 0xF4 ==> s[1] <= 0x8F) then 4
    else 0
  }

  predicate IsUtf8(s: seq<Byte>) {
    s == [] || (CharLen(s) > 0 && IsUtf8(s[CharLen(s)..]))
  }

  /** A string, as its bytes. */
  type Str = s: seq<Byte> | IsUtf8(s)

  // ---- messages ----

  const PADDING_BLOCK_SIZE := 160
  const INLINE_MAX_SIZE := 14 * PADDING_BLOCK_SIZE

  datatype Body = Receipt | Size(n: U32)

  /** A size of zero is what a receipt is written as, so a body never has it. */
  datatype RawHeader = Header(sender: Str, group: Str, id: U32, body: Body)

  type Header = h: RawHeader | h.body.Size? ==> h.body.n > 0 witness Header([], [], 0, Receipt)

  /** Bytes of body on the wire; larger bodies are fetched over HTTP unless in peer-to-peer mode. */
  function InlineSize(body: Body, p2p: bool): nat {
    match body
    case Receipt => PADDING_BLOCK_SIZE
    case Size(n) => if p2p || n <= INLINE_MAX_SIZE then n else INLINE_MAX_SIZE
  }

  function HeaderLen(h: Header): nat {
    20 + |h.sender| + |h.group|
  }

  /** A longer header does not fit its own length field, and serializing it panics. */
  predicate Fits(h: Header) {
    HeaderLen(h) < 0x1_0000_0000
  }

  type Message = h: Header | Fits(h) witness Header([], [], 0, Receipt)

  function BodyType(body: Body): U32 {
    match body case Receipt => 0 case Size(n) => n
  }

  function SerializeStr(s: Str): seq<Byte>
    requires |s| < 0x1_0000_0000
  {
    ToBe(|s|, 4) + s
  }

  function IdAndBody(h: Header): (r: seq<Byte>)
    ensures |r| == 8
  {
    ToBe(h.id, 4) + ToBe(BodyType(h.body), 4)
  }

  function Fields(h: Message): (r: seq<Byte>)
    ensures |r| == HeaderLen(h) - 4
  {
    SerializeStr(h.sender) + (SerializeStr(h.group) + IdAndBody(h))
  }

  function Serialize(h: Message): (r: seq<Byte>)
    ensures |r| == HeaderLen(h) && r[..4] == ToBe(HeaderLen(h), 4) && r[4..] == Fields(h)
  {
    ToBe(HeaderLen(h), 4) + Fields(h)
  }

  /** A message on the wire: header, then a body of zeros. */
  function Frame(h: Message, p2p: bool): seq<Byte>
  {
    Serialize(h) + Zeros(InlineSize(h.body, p2p))
  }

  // ---- parsing ----

  datatype Error = Io | Utf8 | Malformed | SlicePanic

  datatype Parsed<+T> = Ok(value: T, rest: seq<Byte>) | Err(error: Error)

  function DeserializeU32(buf: seq<Byte>): (r: Parsed<U32>)
    ensures r.Ok? ==> |buf| >= 4 && r.rest == buf[4..]
  {
    if |buf| < 4 then Err(Malformed) else Ok(U32At(buf[..4]), buf[4..])
  }

  function DeserializeStr(buf: seq<Byte>): Parsed<Str> {
    match DeserializeU32(buf)
    case Err(e) => Err(e)
    case Ok(n, rest) =>
      if |rest| < n then Err(Malformed)
      else if !IsUtf8(rest[..n]) then Err(Utf8)
      else Ok(rest[..n], rest[n..])
  }

  /** Parses a header whose length field has been read already; trailing bytes are ignored. */
  function Deserialize(buf: seq<Byte>): Parsed<Header> {
    match DeserializeStr(buf)
    case Err(e) => Err(e)
    case Ok(sender, buf1) =>
      match DeserializeStr(buf1)
      case Err(e) => Err(e)
      case Ok(group, buf2) =>
        match DeserializeU32(buf2)
        case Err(e) => Err(e)
        case Ok(id, buf3) =>
          match DeserializeU32(buf3)
          case Err(e) => Err(e)
          case Ok(body, buf4) => Ok(Header(sender, group, id, if body == 0 then Receipt else Size(body)), buf4)
  }

  function Skip(s: seq<Byte>, n: nat): seq<Byte> {
    if n <= |s| then s[n..] else []
  }

  /** Reads one message; a body that is cut short is not an error. */
  function GetMessageBytes(stream: seq<Byte>, p2p: bool): (r: Parsed<seq<Byte>>)
    ensures r.Ok? ==> |r.rest| < |stream| && 4 <= |r.value| <= |stream| && r.value == stream[..|r.value|]
  {
    if |stream| < 4 then Err(Io) else
    var n := U32At(stream[..4]);
    if n < 4 then Err(SlicePanic)
    else if |stream| < n then Err(Io)
    else match Deserialize(stream[4..n])
      case Err(e) => Err(e)
      case Ok(h, _) =>
        var skip := InlineSize(h.body, p2p);
        Ok(stream[..n], Skip(stream, n + skip))
  }

  function GetMessage(stream: seq<Byte>, p2p: bool): (r: Parsed<Header>)
    ensures r.Ok? ==> |r.rest| < |stream|
  {
    match GetMessageBytes(stream, p2p)
    case Err(e) => Err(e)
    case Ok(buf, rest) =>
      match Deserialize(buf[4..])
      case Err(e) => Err(e)
      case Ok(h, _) => Ok(h, rest)
  }

  // ---- round trips ----

  lemma StrRoundTrip(s: Str, rest: seq<Byte>)
    requires |s| < 0x1_0000_0000
    ensures DeserializeStr(SerializeStr(s) + rest) == Ok(s, rest)
  {
    var buf := SerializeStr(s) + rest;
    U32RoundTrip(|s|);
    assert buf[..4] == ToBe(|s|, 4) && buf[4..] == s + rest;
    assert (s + rest)[..|s|] == s && (s + rest)[|s|..] == rest;
  }

  lemma FieldRoundTrip(n: U32, rest: seq<Byte>)
    ensures DeserializeU32(ToBe(n, 4) + rest) == Ok(n, rest)
  {
    U32RoundTrip(n);
    assert (ToBe(n, 4) + rest)[..4] == ToBe(n, 4) && (ToBe(n, 4) + rest)[4..] == rest;
  }

  lemma IdAndBodyRoundTrip(h: Header)
    ensures DeserializeU32(IdAndBody(h)) == Ok(h.id, ToBe(BodyType(h.body), 4))
    ensures DeserializeU32(ToBe(BodyType(h.body), 4)) == Ok(BodyType(h.body), [])
  {
    FieldRoundTrip(h.id, ToBe(BodyType(h.body), 4));
    FieldRoundTrip(BodyType(h.body), []);
    assert ToBe(BodyType(h.body), 4) + [] == ToBe(BodyType(h.body), 4);
  }

  lemma DeserializeSerialize(h: Message)
    ensures Deserialize(Fields(h)) == Ok(h, [])
  {
    StrRoundTrip(h.sender, SerializeStr(h.group) + IdAndBody(h));
    StrRoundTrip(h.group, IdAndBody(h));
    IdAndBodyRoundTrip(h);
  }

  lemma SkipJoined(a: seq<Byte>, b: seq<Byte>, n: nat)
    ensures (a + b)[..|a|] == a
    ensures Skip(a + b, |a| + n) == Skip(b, n)
  {
    if n <= |b| { assert (a + b)[|a| + n..] == b[n..]; }
  }

  lemma SliceJoined(a: seq<Byte>, b: seq<Byte>, i: nat)
    requires i <= |a|
    ensures (a + b)[..i] == a[..i] && (a + b)[i..|a|] == a[i..]
  {
  }

  /** A stream that holds a message's whole header, and as much of its body as there is, yields the message. */
  lemma GetSerialized(h: Message, p2p: bool, tail: seq<Byte>)
    ensures var rest := Skip(tail, InlineSize(h.body, p2p));
            && GetMessageBytes(Serialize(h) + tail, p2p) == Ok(Serialize(h), rest)
            && GetMessage(Serialize(h) + tail, p2p) == Ok(h, rest)
  {
    U32RoundTrip(HeaderLen(h));
    DeserializeSerialize(h);
    GetWritten(Serialize(h), h, p2p, tail);
  }

  lemma GetWritten(head: seq<Byte>, h: Header, p2p: bool, tail: seq<Byte>)
    requires 4 <= |head| && U32At(head[..4]) == |head| && Deserialize(head[4..]) == Ok(h, [])
    ensures GetMessageBytes(head + tail, p2p) == Ok(head, Skip(tail, InlineSize(h.body, p2p)))
    ensures GetMessage(head + tail, p2p) == Ok(h, Skip(tail, InlineSize(h.body, p2p)))
  {
    SliceJoined(head, tail, 4);
    SkipJoined(head, tail, InlineSize(h.body, p2p));
    GetHeader(head + tail, |head|, h, p2p);
  }

  lemma GetHeader(stream: seq<Byte>, n: nat, h: Header, p2p: bool)
    requires 4 <= n <= |stream| && U32At(stream[..4]) == n && Deserialize(stream[4..n]) == Ok(h, [])
    ensures GetMessageBytes(stream, p2p) == Ok(stream[..n], Skip(stream, n + InlineSize(h.body, p2p)))
    ensures GetMessage(stream, p2p) == Ok(h, Skip(stream, n + InlineSize(h.body, p2p)))
  {
    assert stream[..n][4..] == stream[4..n];
  }

  /** A stream cut inside a header is an error of the stream, not of the format. */
  lemma GetCut(h: Message, p2p: bool, c: nat)
    requires c < HeaderLen(h)
    ensures GetMessage(Serialize(h)[..c], p2p) == Err(Io)
  {
    var stream, n := Serialize(h)[..c], HeaderLen(h);
    if c >= 4 {
      U32RoundTrip(n);
      assert stream[..4] == ToBe(n, 4);
    }
  }

  // ---- streams of messages, cut anywhere ----

  function Stream(hs: seq<Message>, p2p: bool): seq<Byte>
  {
    if hs == [] then [] else Frame(hs[0], p2p) + Stream(hs[1..], p2p)
  }

  /** Reads messages until one cannot be read. */
  function ReadAll(stream: seq<Byte>, p2p: bool): (seq<Header>, Error)
    decreases |stream|
  {
    match GetMessage(stream, p2p)
    case Err(e) => ([], e)
    case Ok(h, rest) =>
      var (hs, e) := ReadAll(rest, p2p);
      ([h] + hs, e)
  }

  /** Where the header of message `i` ends in the stream. */
  ghost function HeaderEnd(hs: seq<Message>, i: nat, p2p: bool): nat
    requires i < |hs|
  {
    if i == 0 then HeaderLen(hs[0]) else |Frame(hs[0], p2p)| + HeaderEnd(hs[1..], i - 1, p2p)
  }

  ghost predicate HeadersBefore(hs: seq<Message>, k: nat, c: nat, p2p: bool)
  {
    && k <= |hs|
    && (forall i | 0 <= i < k :: HeaderEnd(hs, i, p2p) <= c)
    && (k < |hs| ==> HeaderEnd(hs, k, p2p) > c)
  }

  lemma ReadNone(stream: seq<Byte>, p2p: bool)
    requires GetMessage(stream, p2p) == Err(Io)
    ensures ReadAll(stream, p2p) == ([], Io)
  {
  }

  lemma ReadOne(stream: seq<Byte>, p2p: bool, h: Header, more: seq<Byte>, tail: seq<Header>)
    requires GetMessage(stream, p2p) == Ok(h, more) && ReadAll(more, p2p) == (tail, Io)
    ensures ReadAll(stream, p2p) == ([h] + tail, Io)
  {
  }

  lemma CutNothing(stream: seq<Byte>, p2p: bool)
    requires stream == []
    ensures ReadAll(stream, p2p) == ([], Io)
  {
  }

  /** Cut inside the first header, or of no messages at all. */
  lemma CutFirst(hs: seq<Message>, p2p: bool, c: nat)
    requires (hs == [] || c < HeaderLen(hs[0])) && c <= |Stream(hs, p2p)|
    ensures ReadAll(Stream(hs, p2p)[..c], p2p) == (hs[..0], Io)
  {
    assert hs[..0] == [];
    if hs == [] {
      CutNothing(Stream(hs, p2p)[..c], p2p);
    } else {
      CutHead(hs, p2p, c);
      GetCut(hs[0], p2p, c);
      ReadNone(Stream(hs, p2p)[..c], p2p);
    }
  }

  /** Where a stream cut past its first header is cut after the first message. */
  function Beyond(len: nat, c: nat): nat {
    if c < len then 0 else c - len
  }

  lemma CutLater(hs: seq<Message>, p2p: bool, c: nat, k: nat)
    requires hs != [] && HeaderLen(hs[0]) <= c <= |Stream(hs, p2p)| && k < |hs|
    requires var c' := Beyond(|Frame(hs[0], p2p)|, c);
             c' <= |Stream(hs[1..], p2p)| && ReadAll(Stream(hs[1..], p2p)[..c'], p2p) == (hs[1..][..k], Io)
    ensures ReadAll(Stream(hs, p2p)[..c], p2p) == (hs[..k + 1], Io)
  {
    var more := CutBody(hs, p2p, c);
    ReadOne(Stream(hs, p2p)[..c], p2p, hs[0], more, hs[1..][..k]);
    FirstOfPrefix(hs, k);
  }

  /** How many messages have their whole header before the cut. */
  ghost function WholeHeaders(hs: seq<Message>, p2p: bool, c: nat): (k: nat)
    ensures k <= |hs|
  {
    if hs == [] || c < HeaderLen(hs[0]) then 0 else 1 + WholeHeaders(hs[1..], p2p, Beyond(|Frame(hs[0], p2p)|, c))
  }

  lemma {:induction false} HeadersCounted(hs: seq<Message>, p2p: bool, c: nat)
    ensures HeadersBefore(hs, WholeHeaders(hs, p2p, c), c, p2p)
  {
    if hs != [] && c >= HeaderLen(hs[0]) {
      var c' := Beyond(|Frame(hs[0], p2p)|, c);
      HeadersCounted(hs[1..], p2p, c');
      HeadersShift(hs, WholeHeaders(hs[1..], p2p, c'), c, p2p);
    }
  }

  lemma {:induction false} CutReads(hs: seq<Message>, p2p: bool, c: nat)
    requires c <= |Stream(hs, p2p)|
    ensures ReadAll(Stream(hs, p2p)[..c], p2p) == (hs[..WholeHeaders(hs, p2p, c)], Io)
  {
    var k := WholeHeaders(hs, p2p, c);
    if hs == [] || c < HeaderLen(hs[0]) {
      CutFirst(hs, p2p, c);
      assert k == 0;
    } else {
      var c' := Beyond(|Frame(hs[0], p2p)|, c);
      assert |Stream(hs, p2p)| == |Frame(hs[0], p2p)| + |Stream(hs[1..], p2p)|;
      assert k == 1 + WholeHeaders(hs[1..], p2p, c');
      CutReads(hs[1..], p2p, c');
      CutLater(hs, p2p, c, k - 1);
    }
  }

  /**
    A stream of messages cut at any byte is read back as exactly the messages whose whole header
    lies before the cut, and then an input error.
  */
  lemma CutStream(hs: seq<Message>, p2p: bool, c: nat) returns (k: nat)
    requires c <= |Stream(hs, p2p)|
    ensures HeadersBefore(hs, k, c, p2p)
    ensures ReadAll(Stream(hs, p2p)[..c], p2p) == (hs[..k], Io)
  {
    k := WholeHeaders(hs, p2p, c);
    HeadersCounted(hs, p2p, c);
    CutReads(hs, p2p, c);
  }

  lemma CutHead(hs: seq<Message>, p2p: bool, c: nat)
    requires hs != [] && c < HeaderLen(hs[0])
    ensures c <= |Stream(hs, p2p)| && Stream(hs, p2p)[..c] == Serialize(hs[0])[..c]
  {
  }

  lemma CutJoined(a: seq<Byte>, b: seq<Byte>, rest: seq<Byte>, c: nat)
    requires |a| <= c <= |a + b + rest|
    ensures (a + b + rest)[..c] == a + (b + rest)[..c - |a|]
    ensures Skip((b + rest)[..c - |a|], |b|) == rest[..Beyond(|a + b|, c)]
  {
    if c >= |a + b| {
      assert (b + rest)[..c - |a|] == b + rest[..c - |a + b|];
      SkipJoined(b, rest[..c - |a + b|], 0);
    }
  }

  lemma FirstOfPrefix<T>(s: seq<T>, k: nat)
    requires k < |s|
    ensures s[..k + 1] == [s[0]] + s[1..][..k]
  {
  }

  /** Past the first header: that message is read, and what follows is the rest of the stream, cut. */
  lemma CutFrame(h: Message, p2p: bool, rest: seq<Byte>, c: nat)
    requires HeaderLen(h) <= c <= |Frame(h, p2p) + rest|
    ensures GetMessage((Frame(h, p2p) + rest)[..c], p2p) == Ok(h, rest[..Beyond(|Frame(h, p2p)|, c)])
  {
    var head, body := Serialize(h), Zeros(InlineSize(h.body, p2p));
    CutJoined(head, body, rest, c);
    GetSerialized(h, p2p, (body + rest)[..c - |head|]);
  }

  lemma CutBody(hs: seq<Message>, p2p: bool, c: nat) returns (more: seq<Byte>)
    requires hs != [] && HeaderLen(hs[0]) <= c <= |Stream(hs, p2p)|
    ensures var c' := Beyond(|Frame(hs[0], p2p)|, c);
            c' <= |Stream(hs[1..], p2p)| && more == Stream(hs[1..], p2p)[..c']
    ensures GetMessage(Stream(hs, p2p)[..c], p2p) == Ok(hs[0], more)
  {
    var h, rest, all := hs[0], Stream(hs[1..], p2p), Stream(hs, p2p);
    assert all == Frame(h, p2p) + rest;
    more := CutWhole(h, p2p, rest, all, c);
  }

  lemma CutWhole(h: Message, p2p: bool, rest: seq<Byte>, all: seq<Byte>, c: nat) returns (more: seq<Byte>)
    requires all == Frame(h, p2p) + rest && HeaderLen(h) <= c <= |all|
    ensures var c' := Beyond(|Frame(h, p2p)|, c); c' <= |rest| && more == rest[..c']
    ensures GetMessage(all[..c], p2p) == Ok(h, more)
  {
    CutFrame(h, p2p, rest, c);
    more := rest[..Beyond(|Frame(h, p2p)|, c)];
  }

  lemma HeadersShift(hs: seq<Message>, k: nat, c: nat, p2p: bool)
    requires hs != [] && HeaderLen(hs[0]) <= c
    requires HeadersBefore(hs[1..], k, Beyond(|Frame(hs[0], p2p)|, c), p2p)
    ensures HeadersBefore(hs, k + 1, c, p2p)
  {
    forall i | 0 <= i < k + 1
      ensures HeaderEnd(hs, i, p2p) <= c
    {
      if i > 0 { assert HeaderEnd(hs[1..], i - 1, p2p) <= Beyond(|Frame(hs[0], p2p)|, c); }
    }
  }
}
