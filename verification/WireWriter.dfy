/** The loop that puts a message on a socket which accepts only part of what it is offered. */
module WireWriter {
  import opened Bytes
  import opened Wire

  /** What the operating system answers to one write; `Accepts(n)` takes at most `n` bytes. */
  datatype Answer = Accepts(n: nat) | Interrupted | Broken

  datatype Outcome = Done | Failed | Pending

  predicate Prefix(a: seq<Byte>, b: seq<Byte>) {
    |a| <= |b| && a == b[..|a|]
  }

  /** A byte sink; `script` holds the answers it will give, and a write waits once they are used up. */
  class Socket {
    var sink: seq<Byte>
    var script: seq<Answer>

    constructor (answers: seq<Answer>)
      ensures sink == [] && script == answers
    {
      sink, script := [], answers;
    }

    /** One write of `buf`: `n` bytes of it are accepted, or none and `answer` says why. */
    method Write(buf: seq<Byte>) returns (answer: Answer, n: nat)
      requires script != []
      modifies this
      ensures answer == old(script[0]) && script == old(script[1..])
      ensures n == if answer.Accepts? then (if answer.n < |buf| then answer.n else |buf|) else 0
      ensures n <= |buf| && sink == old(sink) + buf[..n]
    {
      answer, script := script[0], script[1..];
      n := if answer.Accepts? then (if answer.n < |buf| then answer.n else |buf|) else 0;
      sink := sink + buf[..n];
    }
  }

  /** The answers that make a write give up: an interruption does so only in the second phase. */
  predicate GivesUp(answer: Answer, inBody: bool) {
    answer.Broken? || answer == Accepts(0) || (inBody && answer.Interrupted?)
  }

  // ---- what a schedule of answers comes to ----

  datatype Fed = Fed(sent: nat, outcome: Outcome, rest: seq<Answer>)

  function More(sent: nat, f: Fed): Fed {
    f.(sent := sent + f.sent)
  }

  /**
    Offering `len` bytes, the first `head` of them header, for as long as the answers and the
    rules for giving up allow.
  */
  ghost function Feed(script: seq<Answer>, len: nat, head: nat): (f: Fed)
    ensures f.sent <= len && (f.outcome.Done? <==> f.sent == len)
    ensures |f.rest| <= |script| && (f.outcome.Pending? ==> f.rest == [])
  {
    if len == 0 then Fed(0, Done, script)
    else if script == [] then Fed(0, Pending, [])
    else
      match script[0]
      case Broken => Fed(0, Failed, script[1..])
      case Interrupted => if head > 0 then Feed(script[1..], len, head) else Fed(0, Failed, script[1..])
      case Accepts(n) =>
        if n == 0 then Fed(0, Failed, script[1..])
        else
          var m := if n < len then n else len;
          More(m, Feed(script[1..], len - m, if m < head then head - m else 0))
  }

  /** A write uses up a front part of the answers, the last of them one that gives up if it fails. */
  lemma {:induction false} FeedLeaves(script: seq<Answer>, len: nat, head: nat) returns (k: nat)
    ensures var f := Feed(script, len, head);
            && k <= |script| && f.rest == script[k..]
            && (f.outcome.Failed? ==> k > 0 && GivesUp(script[k - 1], f.sent >= head))
    decreases |script|
  {
    k := 0;
    if len > 0 && script != [] {
      var a := script[0];
      if a.Interrupted? && head > 0 {
        k := FeedLeaves(script[1..], len, head);
      } else if a.Accepts? && a.n > 0 {
        var m := if a.n < len then a.n else len;
        k := FeedLeaves(script[1..], len - m, if m < head then head - m else 0);
      }
      k := k + 1;
    }
  }

  /** Bytes that the first `k` answers would take of an endless buffer. */
  ghost function Taken(script: seq<Answer>, k: nat): nat
    requires k <= |script|
  {
    if k == 0 then 0 else (if script[0].Accepts? then script[0].n else 0) + Taken(script[1..], k - 1)
  }

  /** Answer `i` is an error, or takes nothing, or is an interruption after the header is out. */
  ghost predicate Quits(script: seq<Answer>, i: nat, head: nat) {
    i < |script| && match script[i]
                    case Broken => true
                    case Interrupted => Taken(script, i) >= head
                    case Accepts(n) => n == 0
  }

  ghost predicate Through(script: seq<Answer>, k: nat, head: nat) {
    k <= |script| && forall i | 0 <= i < k :: !Quits(script, i, head)
  }

  /**
    A write is done with the answer that takes the last byte, if none before quits; it fails on the
    first that quits, having sent what those before took; and it waits if there is neither.
  */
  ghost predicate Comes(f: Fed, script: seq<Answer>, len: nat, head: nat, k: nat) {
    && Through(script, k, head)
    && match f.outcome
       case Done =>
         Taken(script, k) >= len && (k > 0 ==> Taken(script, k - 1) < len) && f == Fed(len, Done, script[k..])
       case Failed =>
         Quits(script, k, head) && Taken(script, k) < len && f == Fed(Taken(script, k), Failed, script[k + 1..])
       case Pending => k == |script| && Taken(script, k) < len && f == Fed(Taken(script, k), Pending, [])
  }

  lemma QuitsLater(script: seq<Answer>, i: nat, head: nat, head': nat)
    requires script != []
    requires head' == if script[0].Accepts? then (if script[0].n < head then head - script[0].n else 0) else head
    ensures Quits(script, i + 1, head) <==> Quits(script[1..], i, head')
  {
  }

  lemma ThroughLater(script: seq<Answer>, k: nat, head: nat, head': nat)
    requires script != [] && !Quits(script, 0, head) && Through(script[1..], k, head')
    requires head' == if script[0].Accepts? then (if script[0].n < head then head - script[0].n else 0) else head
    ensures Through(script, k + 1, head)
  {
    forall i | 0 <= i < k + 1
      ensures !Quits(script, i, head)
    {
      if i > 0 { QuitsLater(script, i - 1, head, head'); }
    }
  }

  lemma LastAnswer(script: seq<Answer>, len: nat, head: nat)
    requires script != [] && script[0].Accepts? && 0 < len <= script[0].n && head <= len
    ensures Comes(Feed(script, len, head), script, len, head, 1)
  {
    assert Feed(script[1..], 0, 0) == Fed(0, Done, script[1..]);
    assert Taken(script[1..], 0) == 0 && Taken(script, 0) == 0;
  }

  lemma {:induction false} FeedComes(script: seq<Answer>, len: nat, head: nat) returns (k: nat)
    requires head <= len
    ensures Comes(Feed(script, len, head), script, len, head, k)
    decreases |script|
  {
    k := 0;
    if len > 0 && script != [] && !Quits(script, 0, head) {
      var a := script[0];
      if a.Accepts? && a.n >= len {
        k := 1;
        LastAnswer(script, len, head);
      } else {
        var n := if a.Accepts? then a.n else 0;
        var head' := if n < head then head - n else 0;
        var j := FeedComes(script[1..], len - n, head');
        k := j + 1;
        ThroughLater(script, j, head, head');
        QuitsLater(script, j, head, head');
        assert Taken(script, k) == n + Taken(script[1..], j);
        assert j > 0 ==> Taken(script, j) == n + Taken(script[1..], j - 1);
        assert script[1..][j..] == script[k..] && (j < |script[1..]| ==> script[1..][j + 1..] == script[k + 1..]);
      }
    }
  }

  /** One more answer. */
  lemma FeedStep(whole: Fed, script: seq<Answer>, sent: nat, len: nat, head: nat, n: nat)
    requires script != [] && 0 < len && whole == More(sent, Feed(script, len, head))
    requires n == if script[0].Accepts? then (if script[0].n < len then script[0].n else len) else 0
    ensures n == 0 && !(script[0].Interrupted? && head > 0) ==> whole == Fed(sent, Failed, script[1..])
    ensures script[0].Interrupted? && head > 0 ==> whole == More(sent, Feed(script[1..], len, head))
    ensures n == len ==> whole == Fed(sent + n, Done, script[1..])
    ensures n > 0 ==> whole == More(sent + n, Feed(script[1..], len - n, if n < head then head - n else 0))
  {
  }

  /** Of `buf`, exactly the first `sent` bytes were added to the sink, using up a front part of the script. */
  predicate Sent(sink0: seq<Byte>, script0: seq<Answer>, sink: seq<Byte>, script: seq<Answer>, buf: seq<Byte>,
      sent: nat) {
    && sent <= |buf| && sink == sink0 + buf[..sent]
    && |script| <= |script0| && script == script0[|script0| - |script|..]
  }

  /** How a write ends: `Done` exactly when all bytes were accepted, and `Failed` only on an answer that ends it. */
  predicate Ends(script0: seq<Answer>, script: seq<Answer>, len: nat, headLen: nat, outcome: Outcome, sent: nat) {
    && (outcome.Done? ==> sent == len)
    && (sent == len > 0 ==> outcome.Done?)
    && (outcome.Pending? ==> script == [])
    && (outcome.Failed? ==>
          && |script| < |script0|
          && GivesUp(script0[|script0| - |script| - 1], sent >= headLen))
  }

  /** How far the writing of a plain buffer has come, and what the rest of the answers will make of it. */
  ghost predicate Writing(sink0: seq<Byte>, script0: seq<Answer>, sink: seq<Byte>, script: seq<Answer>,
                          buf: seq<Byte>, sent: nat, whole: Fed)
  {
    Sent(sink0, script0, sink, script, buf, sent) && whole == More(sent, Feed(script, |buf| - sent, 0))
  }

  /** One write of what is left of a plain buffer. */
  method PutSome(sock: Socket, left: seq<Byte>, buf: seq<Byte>, ghost sent: nat, ghost whole: Fed,
                 ghost sink0: seq<Byte>, ghost script0: seq<Answer>)
    returns (ok: bool, n: nat)
    requires sock.script != [] && Writing(sink0, script0, sock.sink, sock.script, buf, sent, whole)
    requires left == buf[sent..] != []
    modifies sock
    ensures |sock.script| < old(|sock.script|) && n <= |left| && sent + n <= |buf|
    ensures ok ==> n > 0 && Writing(sink0, script0, sock.sink, sock.script, buf, sent + n, whole)
    ensures !ok ==> n == 0 && Sent(sink0, script0, sock.sink, sock.script, buf, sent)
    ensures !ok ==> Ends(script0, sock.script, |buf|, 0, Failed, sent) && whole == Fed(sent, Failed, sock.script)
  {
    ghost var sink, script := sock.sink, sock.script;
    var answer;
    answer, n := sock.Write(left);
    ok := answer.Accepts? && n > 0;
    FeedStep(whole, script, sent, |left|, 0, n);
    AdvanceBody(sink0, script0, sink, script, buf, sent, n);
  }

  lemma AdvanceBody(sink0: seq<Byte>, script0: seq<Answer>, sink: seq<Byte>, script: seq<Answer>,
                    buf: seq<Byte>, sent: nat, n: nat)
    requires Sent(sink0, script0, sink, script, buf, sent) && script != [] && n <= |buf| - sent
    ensures Sent(sink0, script0, sink + buf[sent..][..n], script[1..], buf, sent + n)
    ensures script[0] == script0[|script0| - |script|]
  {
    assert buf[..sent] + buf[sent..][..n] == buf[..sent + n];
  }

  /** Writes a plain buffer; an interruption is not retried. */
  method WriteAll(sock: Socket, buf: seq<Byte>) returns (outcome: Outcome, ghost sent: nat)
    modifies sock
    ensures Sent(old(sock.sink), old(sock.script), sock.sink, sock.script, buf, sent)
    ensures Ends(old(sock.script), sock.script, |buf|, 0, outcome, sent)
    ensures Feed(old(sock.script), |buf|, 0) == Fed(sent, outcome, sock.script)
  {
    var left := buf;
    sent := 0;
    ghost var whole := Feed(sock.script, |buf|, 0);
    while left != []
      invariant Writing(old(sock.sink), old(sock.script), sock.sink, sock.script, buf, sent, whole)
      invariant left == buf[sent..]
      decreases |sock.script|
    {
      if sock.script == [] {
        NoAnswer(whole, sent, |left|, 0);
        return Pending, sent;
      }
      var ok, n := PutSome(sock, left, buf, sent, whole, old(sock.sink), old(sock.script));
      if !ok { return Failed, sent; }
      left, sent := left[n..], sent + n;
    }
    outcome := Done;
  }

  /** How far a write has come, and what the rest of the answers will make of it. */
  ghost predicate Underway(sink0: seq<Byte>, script0: seq<Answer>, sink: seq<Byte>, script: seq<Answer>,
                           header: seq<Byte>, body: seq<Byte>, sent: nat, whole: Fed)
  {
    && Sent(sink0, script0, sink, script, header + body, sent)
    && sent <= |header| && (sent == |header| ==> header == [])
    && (header != [] ==> whole == More(sent, Feed(script, |header + body| - sent, |header| - sent)))
  }

  /** What one write led to: the loop goes on, the call is over, or only body is left. */
  datatype Verdict = GoOn | Over(outcome: Outcome) | BodyLeft

  /** The case distinction after a write of which `n` bytes were accepted, with so much header and body left. */
  function Judge(answer: Answer, n: nat, head: nat, body: nat): Verdict {
    if answer.Interrupted? then GoOn
    else if answer.Broken? then Over(Failed)
    else if n == head + body then Over(Done)
    else if n >= head then BodyLeft
    else if n == 0 then Over(Failed)
    else GoOn
  }

  predicate Took(answer: Answer, n: nat, len: nat) {
    n == if answer.Accepts? then (if answer.n < len then answer.n else len) else 0
  }

  lemma JudgeFeeds(whole: Fed, script: seq<Answer>, sent: nat, head: nat, body: nat, n: nat)
    requires script != [] && head > 0 && whole == More(sent, Feed(script, head + body, head))
             && Took(script[0], n, head + body)
    ensures match Judge(script[0], n, head, body)
            case GoOn => n < head && whole == More(sent + n, Feed(script[1..], head + body - n, head - n))
            case Over(outcome) => whole == Fed(sent + n, outcome, script[1..])
            case BodyLeft => whole == More(sent + n, Feed(script[1..], head + body - n, 0))
  {
    FeedStep(whole, script, sent, head + body, head, n);
  }

  lemma JudgeEnds(script0: seq<Answer>, script: seq<Answer>, sent: nat, head: nat, body: nat, headLen: nat, n: nat)
    requires script != [] && |script| <= |script0| && script == script0[|script0| - |script|..]
    requires Took(script[0], n, head + body) && sent + head == headLen && (head == 0 ==> headLen == 0)
    ensures var verdict := Judge(script[0], n, head, body);
            && (verdict.Over? ==> Ends(script0, script[1..], headLen + body, headLen, verdict.outcome, sent + n))
            && (verdict.GoOn? ==> n <= head && (n == head ==> headLen == 0))
            && (verdict.BodyLeft? ==> head <= n < head + body)
  {
    assert script[0] == script0[|script0| - |script|];
  }

  /** The call is over. */
  ghost predicate Ended(sink0: seq<Byte>, script0: seq<Answer>, sink: seq<Byte>, script: seq<Answer>,
                        header: seq<Byte>, body: seq<Byte>, sent: nat, whole: Fed, outcome: Outcome)
  {
    && Sent(sink0, script0, sink, script, header + body, sent)
    && Ends(script0, script, |header + body|, |header|, outcome, sent)
    && (header != [] ==> whole == Fed(sent, outcome, script))
  }

  /** The header is out, and `rest` of the body is left. */
  ghost predicate BodyOnly(sink0: seq<Byte>, script0: seq<Answer>, sink: seq<Byte>, script: seq<Answer>,
                           header: seq<Byte>, body: seq<Byte>, sent: nat, whole: Fed, rest: seq<Byte>)
  {
    && Sent(sink0, script0, sink, script, header + body, sent)
    && |header| <= sent < |header + body| && rest == (header + body)[sent..]
    && (header != [] ==> whole == More(sent, Feed(script, |header + body| - sent, 0)))
  }

  /** One write of what is left of header and body. */
  method Offer(sock: Socket, head: seq<Byte>, header: seq<Byte>, body: seq<Byte>, ghost sent: nat, ghost whole: Fed,
               ghost sink0: seq<Byte>, ghost script0: seq<Answer>)
    returns (verdict: Verdict, head': seq<Byte>, rest: seq<Byte>, ghost sent': nat)
    requires sock.script != [] && Underway(sink0, script0, sock.sink, sock.script, header, body, sent, whole)
    requires head == header[sent..]
    modifies sock
    ensures |sock.script| < old(|sock.script|)
    ensures verdict.GoOn? ==>
              Underway(sink0, script0, sock.sink, sock.script, header, body, sent', whole) && head' == header[sent'..]
    ensures verdict.Over? ==>
              Ended(sink0, script0, sock.sink, sock.script, header, body, sent', whole, verdict.outcome)
    ensures verdict.BodyLeft? ==> BodyOnly(sink0, script0, sock.sink, sock.script, header, body, sent', whole, rest)
  {
    ghost var sink, script := sock.sink, sock.script;
    var answer, n := sock.Write(head + body);
    Advance(sink0, script0, sink, script, header, body, sent, n);
    JudgeEnds(script0, script, sent, |head|, |body|, |header|, n);
    if header != [] { JudgeFeeds(whole, script, sent, |head|, |body|, n); }
    verdict := Judge(answer, n, |head|, |body|);
    head', rest, sent' := head, body, sent + n;
    if verdict.GoOn? {
      head' := head[n..];
    } else if verdict.BodyLeft? {
      rest := body[n - |head|..];
    }
  }

  /** Offers header and body together until the header is out, retrying interruptions; `rest` is what is left. */
  method WriteHeader(sock: Socket, header: seq<Byte>, body: seq<Byte>, ghost whole: Fed)
    returns (verdict: Verdict, rest: seq<Byte>, ghost sent: nat)
    requires Underway(sock.sink, sock.script, sock.sink, sock.script, header, body, 0, whole)
    modifies sock
    ensures !verdict.GoOn?
    ensures verdict.Over? ==>
            Ended(old(sock.sink), old(sock.script), sock.sink, sock.script, header, body, sent, whole, verdict.outcome)
    ensures verdict.BodyLeft? ==>
            BodyOnly(old(sock.sink), old(sock.script), sock.sink, sock.script, header, body, sent, whole, rest)
  {
    var head := header;
    sent, rest := 0, body;
    while true
      invariant Underway(old(sock.sink), old(sock.script), sock.sink, sock.script, header, body, sent, whole)
      invariant head == header[sent..]
      decreases |sock.script|
    {
      if sock.script == [] {
        NoAnswerYet(old(sock.sink), old(sock.script), sock.sink, header, body, sent, whole);
        return Over(Pending), rest, sent;
      }
      verdict, head, rest, sent := Offer(sock, head, header, body, sent, whole, old(sock.sink), old(sock.script));
      if !verdict.GoOn? { return; }
    }
  }

  lemma NoAnswerYet(sink0: seq<Byte>, script0: seq<Answer>, sink: seq<Byte>, header: seq<Byte>, body: seq<Byte>,
                    sent: nat, whole: Fed)
    requires Underway(sink0, script0, sink, [], header, body, sent, whole)
    ensures Ended(sink0, script0, sink, [], header, body, sent, whole, Pending)
  {
  }

  lemma NoAnswer(whole: Fed, sent: nat, len: nat, head: nat)
    ensures len > 0 && whole == More(sent, Feed([], len, head)) ==> whole == Fed(sent, Pending, [])
  {
  }

  /**
    Writes a message. However the socket cuts up or interrupts the writes, it accepts a front part
    of header and body, all of it exactly when the call succeeds; and it is offered as much, and
    for as long, as its answers allow.
  */
  method WriteAllTo(sock: Socket, header: seq<Byte>, body: seq<Byte>) returns (outcome: Outcome, ghost sent: nat)
    modifies sock
    ensures Sent(old(sock.sink), old(sock.script), sock.sink, sock.script, header + body, sent)
    ensures Ends(old(sock.script), sock.script, |header + body|, |header|, outcome, sent)
    ensures header != [] ==> Feed(old(sock.script), |header + body|, |header|) == Fed(sent, outcome, sock.script)
  {
    ghost var whole := Feed(sock.script, |header + body|, |header|);
    StartsOut(sock.sink, sock.script, header, body, whole);
    var verdict, rest;
    verdict, rest, sent := WriteHeader(sock, header, body, whole);
    if verdict.Over? { return verdict.outcome, sent; }
    ghost var sink1, script1 := sock.sink, sock.script;
    ghost var last;
    outcome, last := WriteAll(sock, rest);
    Resume(old(sock.sink), old(sock.script), sink1, script1, sock.sink, sock.script, header + body, sent, last);
    sent := sent + last;
  }

  lemma StartsOut(sink: seq<Byte>, script: seq<Answer>, header: seq<Byte>, body: seq<Byte>, whole: Fed)
    requires whole == Feed(script, |header + body|, |header|)
    ensures Underway(sink, script, sink, script, header, body, 0, whole)
  {
  }

  /** Writing the rest of a buffer after a first part. */
  lemma Resume(sink0: seq<Byte>, script0: seq<Answer>, sink1: seq<Byte>, script1: seq<Answer>,
               sink: seq<Byte>, script: seq<Answer>, buf: seq<Byte>, first: nat, last: nat)
    requires Sent(sink0, script0, sink1, script1, buf, first)
    requires Sent(sink1, script1, sink, script, buf[first..], last)
    ensures Sent(sink0, script0, sink, script, buf, first + last)
    ensures |script| < |script1| ==> script1[|script1| - |script| - 1] == script0[|script0| - |script| - 1]
  {
    assert buf[..first] + buf[first..][..last] == buf[..first + last];
  }

  lemma Advance(sink0: seq<Byte>, script0: seq<Answer>, sink: seq<Byte>, script: seq<Answer>,
                header: seq<Byte>, body: seq<Byte>, sent: nat, n: nat)
    requires Sent(sink0, script0, sink, script, header + body, sent)
    requires script != [] && sent <= |header| && n <= |header| - sent + |body|
    ensures Sent(sink0, script0, sink + (header[sent..] + body)[..n], script[1..], header + body, sent + n)
    ensures script[0] == script0[|script0| - |script|]
    ensures sent + n >= |header| ==> body[sent + n - |header|..] == (header + body)[sent + n..]
  {
    assert header[sent..] + body == (header + body)[sent..];
  }

  // ---- whole conversations ----

  lemma PrefixTrans(a: seq<Byte>, b: seq<Byte>, c: seq<Byte>)
    requires Prefix(a, b) && Prefix(b, c)
    ensures Prefix(a, c)
  {
  }

  lemma {:induction false} StreamSnoc(hs: seq<Message>, h: Message, p2p: bool)
    ensures Stream(hs + [h], p2p) == Stream(hs, p2p) + Frame(h, p2p)
  {
    if hs == [] {
      assert Stream([h], p2p) == Frame(h, p2p) + Stream([], p2p);
      assert [] + [h] == [h];
    } else {
      StreamSnoc(hs[1..], h, p2p);
      assert (hs + [h])[1..] == hs[1..] + [h] && (hs + [h])[0] == hs[0];
      var a, b, c := Frame(hs[0], p2p), Stream(hs[1..], p2p), Frame(h, p2p);
      assert a + (b + c) == a + b + c;
    }
  }

  lemma {:induction false} StreamFront(hs: seq<Message>, i: nat, p2p: bool)
    requires i <= |hs|
    ensures Prefix(Stream(hs[..i], p2p), Stream(hs, p2p))
    decreases |hs| - i
  {
    if i == |hs| {
      assert hs[..i] == hs;
    } else {
      StreamFront(hs, i + 1, p2p);
      StreamSnoc(hs[..i], hs[i], p2p);
      assert hs[..i + 1] == hs[..i] + [hs[i]];
      var a, b := Stream(hs[..i], p2p), Stream(hs[..i + 1], p2p);
      assert Prefix(a, b);
      PrefixTrans(a, b, Stream(hs, p2p));
    }
  }

  /** Part of one more frame after the frames so far. */
  lemma NextFrame(hs: seq<Message>, i: nat, p2p: bool, sent: nat)
    requires i < |hs| && sent <= |Frame(hs[i], p2p)|
    ensures var sink := Stream(hs[..i], p2p) + Frame(hs[i], p2p)[..sent];
            && Prefix(sink, Stream(hs, p2p))
            && (sent < |Frame(hs[i], p2p)| ==> |sink| < |Stream(hs, p2p)|)
            && (sent == |Frame(hs[i], p2p)| ==> sink == Stream(hs[..i + 1], p2p))
  {
    hide Stream, Frame;
    var done, next := Stream(hs[..i], p2p), Frame(hs[i], p2p);
    assert hs[..i + 1] == hs[..i] + [hs[i]];
    StreamSnoc(hs[..i], hs[i], p2p);
    StreamFront(hs, i + 1, p2p);
    assert Prefix(done + next[..sent], done + next);
    PrefixTrans(done + next[..sent], done + next, Stream(hs, p2p));
    if sent == |next| { assert next[..sent] == next; }
  }

  /** Messages offered in turn, up to the first that is not accepted whole. */
  ghost function FeedAll(script: seq<Answer>, hs: seq<Message>, p2p: bool): (f: Fed)
    ensures f.outcome.Pending? ==> f.rest == []
    decreases |hs|
  {
    if hs == [] then Fed(0, Done, script)
    else
      var first := Feed(script, |Frame(hs[0], p2p)|, HeaderLen(hs[0]));
      if first.outcome.Done? then More(first.sent, FeedAll(first.rest, hs[1..], p2p)) else first
  }

  /** Writing stops early only where an answer gives a message up, or no answer is left. */
  lemma {:induction false} FeedAllEnds(script: seq<Answer>, hs: seq<Message>, p2p: bool)
    ensures var f := FeedAll(script, hs, p2p);
            && f.sent <= |Stream(hs, p2p)| && (f.outcome.Done? <==> f.sent == |Stream(hs, p2p)|)
            && |f.rest| <= |script|
    decreases |hs|
  {
    if hs != [] {
      var first := Feed(script, |Frame(hs[0], p2p)|, HeaderLen(hs[0]));
      if first.outcome.Done? { FeedAllEnds(first.rest, hs[1..], p2p); }
    }
  }

  lemma FeedAllStep(whole: Fed, script: seq<Answer>, hs: seq<Message>, i: nat, p2p: bool, sent: nat, f: Fed)
    requires i < |hs| && f == Feed(script, |Frame(hs[i], p2p)|, HeaderLen(hs[i]))
    requires whole == More(sent, FeedAll(script, hs[i..], p2p))
    ensures whole == More(sent + f.sent, if f.outcome.Done? then FeedAll(f.rest, hs[i + 1..], p2p) else f.(sent := 0))
  {
    assert hs[i..][0] == hs[i] && hs[i..][1..] == hs[i + 1..];
  }

  /** Between two messages: whole frames are out, and `whole` is what the answers will have made of it all. */
  ghost predicate Between(sink: seq<Byte>, script: seq<Answer>, hs: seq<Message>, i: nat, p2p: bool, whole: Fed) {
    i <= |hs| && sink == Stream(hs[..i], p2p) && whole == More(|sink|, FeedAll(script, hs[i..], p2p))
  }

  method WriteNext(sock: Socket, hs: seq<Message>, i: nat, p2p: bool, ghost whole: Fed) returns (outcome: Outcome)
    requires i < |hs| && Between(sock.sink, sock.script, hs, i, p2p, whole)
    modifies sock
    ensures outcome.Done? ==> Between(sock.sink, sock.script, hs, i + 1, p2p, whole)
    ensures !outcome.Done? ==> Prefix(sock.sink, Stream(hs, p2p)) && |sock.sink| < |Stream(hs, p2p)|
    ensures !outcome.Done? ==> whole == Fed(|sock.sink|, outcome, sock.script)
  {
    var h := hs[i];
    ghost var before, script := sock.sink, sock.script;
    ghost var sent;
    outcome, sent := WriteAllTo(sock, Serialize(h), Zeros(InlineSize(h.body, p2p)));
    NextFrame(hs, i, p2p, sent);
    FeedAllStep(whole, script, hs, i, p2p, |before|, Fed(sent, outcome, sock.script));
  }

  /** Writing message after message, up to the first write that does not succeed. */
  method WriteList(sock: Socket, hs: seq<Message>, p2p: bool) returns (outcome: Outcome)
    requires sock.sink == []
    modifies sock
    ensures Prefix(sock.sink, Stream(hs, p2p))
    ensures outcome.Done? <==> sock.sink == Stream(hs, p2p)
    ensures FeedAll(old(sock.script), hs, p2p) == Fed(|sock.sink|, outcome, sock.script)
  {
    var i := 0;
    ghost var whole := FeedAll(sock.script, hs, p2p);
    assert hs[..0] == [] && hs[0..] == hs;
    while i < |hs|
      invariant Between(sock.sink, sock.script, hs, i, p2p, whole)
    {
      outcome := WriteNext(sock, hs, i, p2p, whole);
      if !outcome.Done? { return; }
      i := i + 1;
    }
    assert hs[..i] == hs;
    outcome := Done;
  }

  /** Reads messages from a stream until one cannot be read. */
  method ReadLoop(stream: seq<Byte>, p2p: bool) returns (hs: seq<Header>, error: Error)
    ensures (hs, error) == ReadAll(stream, p2p)
  {
    hs := [];
    var rest := stream;
    assert hs + ReadAll(rest, p2p).0 == ReadAll(rest, p2p).0;
    while true
      invariant var (tail, e) := ReadAll(rest, p2p); ReadAll(stream, p2p) == (hs + tail, e)
      decreases |rest|
    {
      match GetMessage(rest, p2p) {
        case Err(e) =>
          assert hs + [] == hs;
          return hs, e;
        case Ok(h, more) =>
          assert forall tail: seq<Header> :: hs + ([h] + tail) == (hs + [h]) + tail;
          hs, rest := hs + [h], more;
      }
    }
  }

  /**
    Messages written to a socket under any schedule of partial, interrupted and failing writes, of
    whose bytes the first `cut` arrive, are read back as exactly those whose whole header lies
    before the cut, and then an input error. What the socket accepts is what its answers allow, and
    everything if the writing ends well.
  */
  method WriteThenRead(hs: seq<Message>, p2p: bool, answers: seq<Answer>, cut: nat)
    returns (outcome: Outcome, accepted: nat, arrived: nat, got: seq<Header>, error: Error)
    ensures var f := FeedAll(answers, hs, p2p); accepted == f.sent && outcome == f.outcome
    ensures accepted <= |Stream(hs, p2p)| && (outcome.Done? <==> accepted == |Stream(hs, p2p)|)
    ensures arrived == if cut < accepted then cut else accepted
    ensures HeadersBefore(hs, |got|, arrived, p2p) && got == hs[..|got|] && error == Io
  {
    var sock := new Socket(answers);
    outcome := WriteList(sock, hs, p2p);
    accepted := |sock.sink|;
    FeedAllEnds(answers, hs, p2p);
    arrived := if cut < accepted then cut else accepted;
    assert sock.sink[..arrived] == Stream(hs, p2p)[..arrived];
    got, error := ReadLoop(sock.sink[..arrived], p2p);
    var k := CutStream(hs, p2p, arrived);
  }
}
