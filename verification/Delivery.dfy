/**
  The server task that sends one recipient its messages: it takes them from a channel, writes each
  to the current socket, and after a failure retries the same message on the next socket.
*/
module Delivery {
  import opened Options
  import opened Bytes
  import opened Wire
  import opened WireWriter

  /** How one socket will behave: the answers to its writes, and whether each flush succeeds. */
  datatype Behaviour = Behaviour(answers: seq<Answer>, flushes: seq<bool>)

  /** What the task is waiting for. */
  datatype Wait = ForSocket | ForMessage | ForWrite

  /**
    The state of the task: messages completed, message held for a retry, messages still in the
    channel; the bytes each socket so far has accepted, and the number of messages that were
    complete when it took over.
  */
  datatype Report = Report(
    sent: seq<Message>,
    cache: Option<Message>,
    queue: seq<Message>,
    accepted: seq<seq<Byte>>,
    starts: seq<nat>,
    wait: Wait)

  function Held(cache: Option<Message>): seq<Message> {
    match cache case None => [] case Some(m) => [m]
  }

  /** A socket accepted the messages from `from` up to `upto`, and possibly some or all of one more. */
  ghost predicate Span(hs: seq<Message>, bytes: seq<Byte>, from: nat, upto: nat) {
    && from <= upto <= |hs|
    && Prefix(Stream(hs[from..upto], false), bytes)
    && Prefix(bytes, Stream(hs[from..if upto < |hs| then upto + 1 else upto], false))
  }

  function End(starts: seq<nat>, i: nat, sent: nat): nat {
    if i + 1 < |starts| then starts[i + 1] else sent
  }

  /** Each socket carries on where the one before it stopped. */
  ghost predicate Spans(hs: seq<Message>, accepted: seq<seq<Byte>>, starts: seq<nat>, sent: nat) {
    && |accepted| == |starts|
    && (starts != [] ==> starts[0] == 0)
    && forall i: nat {:trigger accepted[i]} | i < |starts| :: Span(hs, accepted[i], starts[i], End(starts, i, sent))
  }

  ghost predicate Conserved(hs: seq<Message>, r: Report) {
    r.sent + Held(r.cache) + r.queue == hs
  }

  // ---- sequences ----

  lemma TakeFirst<T>(a: seq<T>, q: seq<T>)
    requires q != []
    ensures a + [] + q == a + [q[0]] + q[1..]
  {
  }

  lemma Middle<T>(a: seq<T>, m: T, q: seq<T>)
    ensures (a + [m] + q)[|a|] == m && a + [m] + q == (a + [m]) + [] + q
  {
  }

  lemma Whole<T>(s: seq<T>)
    ensures s[..|s|] == s
  {
  }

  lemma EmptySlice<T>(s: seq<T>, a: nat)
    requires a <= |s|
    ensures s[a..a] == []
  {
  }

  lemma FrontOfSlice<T>(s: seq<T>, a: nat, b: nat, k: nat)
    requires a <= b <= |s| && k <= b - a
    ensures s[a..b][..k] == s[a..a + k]
  {
  }

  lemma SliceOfSlice<T>(s: seq<T>, a: nat, b: nat, c: nat)
    requires a <= c <= b <= |s|
    ensures s[a..b][..c - a] == s[a..c] && (c < b ==> s[a..b][c - a] == s[c])
  {
  }

  // ---- one socket ----

  /** After complete messages, part of the next one. */
  lemma SpanOfPart(hs: seq<Message>, from: nat, upto: nat, n: nat)
    requires from <= upto < |hs| && n <= |Frame(hs[upto], false)|
    ensures Span(hs, Stream(hs[from..upto], false) + Frame(hs[upto], false)[..n], from, upto)
    ensures n == |Frame(hs[upto], false)| ==>
              Stream(hs[from..upto], false) + Frame(hs[upto], false)[..n] == Stream(hs[from..upto + 1], false)
  {
    var window := hs[from..upto + 1];
    SliceOfSlice(hs, from, upto + 1, upto);
    PartOfLast(window, hs[from..upto], hs[upto], n);
  }

  /** The same, for a list of messages and its last. */
  lemma PartOfLast(window: seq<Message>, front: seq<Message>, m: Message, n: nat)
    requires window != [] && front == window[..|window| - 1] && m == window[|window| - 1] && n <= |Frame(m, false)|
    ensures Prefix(Stream(front, false), Stream(front, false) + Frame(m, false)[..n])
    ensures Prefix(Stream(front, false) + Frame(m, false)[..n], Stream(window, false))
    ensures n == |Frame(m, false)| ==> Stream(front, false) + Frame(m, false)[..n] == Stream(window, false)
  {
    Whole(window);
    NextFrame(window, |window| - 1, false, n);
  }

  lemma SpanOfWhole(hs: seq<Message>, from: nat, upto: nat)
    requires from <= upto <= |hs|
    ensures Span(hs, Stream(hs[from..upto], false), from, upto)
  {
    if upto < |hs| {
      SpanOfPart(hs, from, upto, 0);
      assert Stream(hs[from..upto], false) + Frame(hs[upto], false)[..0] == Stream(hs[from..upto], false);
    }
  }

  /** The current socket goes from complete messages to a further, possibly partial one. */
  lemma SpansExtend(hs: seq<Message>, old': seq<seq<Byte>>, bytes: seq<Byte>, bytes': seq<Byte>, starts: seq<nat>,
      sent: nat, sent': nat)
    requires starts != [] && Spans(hs, old' + [bytes], starts, sent)
    requires Span(hs, bytes', starts[|starts| - 1], sent')
    ensures Spans(hs, old' + [bytes'], starts, sent')
  {
    forall i: nat | i < |starts|
      ensures Span(hs, (old' + [bytes'])[i], starts[i], End(starts, i, sent'))
    {
      assert Span(hs, (old' + [bytes])[i], starts[i], End(starts, i, sent));
    }
  }

  /** A new socket takes over. */
  lemma SpansSwitch(hs: seq<Message>, accepted: seq<seq<Byte>>, starts: seq<nat>, sent: nat)
    requires Spans(hs, accepted, starts, sent) && sent <= |hs| && (starts == [] ==> sent == 0)
    ensures Spans(hs, accepted + [[]], starts + [sent], sent)
  {
    assert hs[sent..sent] == [];
    SpanOfWhole(hs, sent, sent);
    forall i: nat | i < |starts| + 1
      ensures Span(hs, (accepted + [[]])[i], (starts + [sent])[i], End(starts + [sent], i, sent))
    {
      if i < |starts| { assert Span(hs, accepted[i], starts[i], End(starts, i, sent)); }
    }
  }

  // ---- what a socket's behaviour comes to ----

  /** How a socket's service ends: it is given up, or not heard from, or there is nothing left to send on it. */
  datatype Ending = Broke | Waiting | Idle

  /** Messages completed on a socket, bytes accepted of one more, and how it ended. */
  datatype Served = Served(done: nat, part: nat, ending: Ending)

  function Plus(k: nat, s: Served): Served {
    s.(done := k + s.done)
  }

  /** Messages sent in turn on one socket: each as far as its answers allow, and completed by a flush that succeeds. */
  ghost function Serve(hs: seq<Message>, answers: seq<Answer>, flushes: seq<bool>): Served
    decreases |hs|
  {
    if hs == [] then Served(0, 0, Idle)
    else
      var f := Feed(answers, |Frame(hs[0], false)|, HeaderLen(hs[0]));
      if f.outcome.Failed? then Served(0, f.sent, Broke)
      else if f.outcome.Pending? || flushes == [] then Served(0, f.sent, Waiting)
      else if !flushes[0] then Served(0, f.sent, Broke)
      else Plus(1, Serve(hs[1..], f.rest, flushes[1..]))
  }

  /** A socket is given up only for an answer that ends a write, or a flush that fails. */
  lemma {:induction false} BrokeMeans(hs: seq<Message>, answers: seq<Answer>, flushes: seq<bool>)
    requires Serve(hs, answers, flushes).ending.Broke?
    ensures (exists i :: 0 <= i < |answers| && GivesUp(answers[i], true)) || false in flushes
    decreases |hs|
  {
    var f := Feed(answers, |Frame(hs[0], false)|, HeaderLen(hs[0]));
    var k := FeedLeaves(answers, |Frame(hs[0], false)|, HeaderLen(hs[0]));
    if f.outcome.Failed? {
      assert GivesUp(answers[k - 1], true);
    } else if flushes[0] {
      BrokeMeans(hs[1..], f.rest, flushes[1..]);
      LaterToo(answers, k);
    }
  }

  /**
    A message counts as completed only by a flush that succeeds, and all before it do. The service
    ends idle exactly with all messages completed; broken after the whole of one only by a flush that
    failed, and waiting after the whole of one only for a flush.
  */
  lemma {:induction false} CompletedByFlush(hs: seq<Message>, answers: seq<Answer>, flushes: seq<bool>)
    ensures var s := Serve(hs, answers, flushes);
            && s.done <= |hs| && s.done <= |flushes| && (forall i | 0 <= i < s.done :: flushes[i])
            && (s.ending.Idle? <==> s.done == |hs|)
            && (s.done < |hs| ==>
                  && s.part <= |Frame(hs[s.done], false)|
                  && (s.part == |Frame(hs[s.done], false)| ==>
                        if s.ending.Broke? then s.done < |flushes| && !flushes[s.done] else s.done == |flushes|))
    decreases |hs|
  {
    if hs != [] {
      var f := Feed(answers, |Frame(hs[0], false)|, HeaderLen(hs[0]));
      if f.outcome.Done? && flushes != [] && flushes[0] {
        CompletedByFlush(hs[1..], f.rest, flushes[1..]);
        var s := Serve(hs[1..], f.rest, flushes[1..]);
        assert s.done < |hs[1..]| ==> hs[1..][s.done] == hs[s.done + 1];
        assert forall i | 0 <= i < s.done :: flushes[1..][i] == flushes[i + 1];
      }
    }
  }

  lemma LaterToo(answers: seq<Answer>, k: nat)
    requires k <= |answers|
    ensures (exists i :: 0 <= i < |answers[k..]| && GivesUp(answers[k..][i], true)) ==>
              exists i :: 0 <= i < |answers| && GivesUp(answers[i], true)
  {
    if i :| 0 <= i < |answers[k..]| && GivesUp(answers[k..][i], true) {
      assert GivesUp(answers[k + i], true);
    }
  }

  /** A socket with this behaviour, put to work at message `from`, ends like this. */
  ghost predicate ServedAs(hs: seq<Message>, b: Behaviour, from: nat, upto: nat, bytes: seq<Byte>, ending: Ending) {
    && from <= upto <= |hs| && |Stream(hs[from..upto], false)| <= |bytes|
    && Serve(hs[from..], b.answers, b.flushes) == Served(upto - from, |bytes| - |Stream(hs[from..upto], false)|, ending)
  }

  function EndingOf(wait: Wait): Ending {
    match wait case ForSocket => Broke case ForMessage => Idle case ForWrite => Waiting
  }

  /** Every socket was used for all it was good for: all but the last were given up. */
  ghost predicate Used(hs: seq<Message>, sockets: seq<Behaviour>, accepted: seq<seq<Byte>>, starts: seq<nat>,
      sent: nat, ending: Ending) {
    && |accepted| == |starts| <= |sockets|
    && forall i: nat {:trigger accepted[i]} | i < |accepted| ::
         ServedAs(hs, sockets[i], starts[i], End(starts, i, sent), accepted[i],
             if i + 1 < |accepted| then Broke else ending)
  }

  /** The current socket so far. */
  ghost predicate Serving(hs: seq<Message>, b: Behaviour, from: nat, k: nat, answers: seq<Answer>, flushes: seq<bool>) {
    from <= k <= |hs| && Serve(hs[from..], b.answers, b.flushes) == Plus(k - from, Serve(hs[k..], answers, flushes))
  }

  lemma ServeTurn(hs: seq<Message>, k: nat, answers: seq<Answer>, flushes: seq<bool>, f: Fed)
    requires k < |hs| && f == Feed(answers, |Frame(hs[k], false)|, HeaderLen(hs[k]))
    ensures Serve(hs[k..], answers, flushes) ==
              if f.outcome.Failed? then Served(0, f.sent, Broke)
              else if f.outcome.Pending? || flushes == [] then Served(0, f.sent, Waiting)
              else if !flushes[0] then Served(0, f.sent, Broke)
              else Plus(1, Serve(hs[k + 1..], f.rest, flushes[1..]))
  {
    assert hs[k..][0] == hs[k] && hs[k..][1..] == hs[k + 1..];
  }

  /** A socket that ends joins those before it, which were all given up. */
  lemma UsedEnds(hs: seq<Message>, sockets: seq<Behaviour>, accepted: seq<seq<Byte>>, bytes: seq<Byte>,
      starts: seq<nat>, sent: nat, ending: Ending)
    requires |starts| == |accepted| + 1 <= |sockets|
    requires Used(hs, sockets, accepted, starts[..|accepted|], starts[|accepted|], Broke)
    requires ServedAs(hs, sockets[|accepted|], starts[|accepted|], sent, bytes, ending)
    ensures Used(hs, sockets, accepted + [bytes], starts, sent, ending)
  {
    var all, front := accepted + [bytes], starts[..|accepted|];
    forall i: nat | i < |all|
      ensures ServedAs(hs, sockets[i], starts[i], End(starts, i, sent), all[i], if i + 1 < |all| then Broke else ending)
    {
      if i < |accepted| {
        assert ServedAs(hs, sockets[i], front[i], End(front, i, starts[|accepted|]), accepted[i], Broke);
      }
    }
  }

  // ---- the task ----

  /** Writes and flushes one message; `ok` when both succeeded, and `pending` when the socket has not answered. */
  method Transmit(sock: Socket, flushes: seq<bool>, m: Message)
    returns (ok: bool, pending: bool, flushes': seq<bool>, ghost f: Fed)
    modifies sock
    ensures f == Feed(old(sock.script), |Frame(m, false)|, HeaderLen(m)) && sock.script == f.rest
    ensures sock.sink == old(sock.sink) + Frame(m, false)[..f.sent]
    ensures ok <==> f.outcome.Done? && flushes != [] && flushes[0]
    ensures pending <==> f.outcome.Pending? || (f.outcome.Done? && flushes == [])
    ensures ok ==> sock.sink == old(sock.sink) + Frame(m, false) && flushes' == flushes[1..]
  {
    var outcome;
    ghost var n;
    outcome, n := WriteAllTo(sock, Serialize(m), Zeros(InlineSize(m.body, false)));
    f := Fed(n, outcome, sock.script);
    ok, pending, flushes' := false, outcome.Pending?, flushes;
    if outcome.Done? {
      Whole(Frame(m, false));
      if flushes == [] {
        pending := true;
      } else {
        ok, flushes' := flushes[0], flushes[1..];
      }
    }
  }

  /** Between two messages: `bytes` is what the current, last socket has accepted, and it holds whole messages only. */
  ghost predicate Live(hs: seq<Message>, r: Report, bytes: seq<Byte>) {
    && Conserved(hs, r) && |r.starts| == |r.accepted| + 1
    && Spans(hs, r.accepted + [bytes], r.starts, |r.sent|)
    && Span(hs, bytes, r.starts[|r.accepted|], |r.sent|)
    && bytes == Stream(hs[r.starts[|r.accepted|]..|r.sent|], false)
  }

  lemma AllSent(hs: seq<Message>, r: Report)
    requires Conserved(hs, r) && r.cache.None? && r.queue == []
    ensures r.sent == hs
  {
  }

  /** Takes the next message from the channel. */
  method Take(ghost hs: seq<Message>, r: Report, ghost bytes: seq<Byte>) returns (r': Report)
    requires Live(hs, r, bytes) && r.cache.None? && r.queue != []
    ensures r' == r.(cache := Some(r.queue[0]), queue := r.queue[1..]) && Live(hs, r', bytes)
  {
    TakeFirst(r.sent, r.queue);
    r' := r.(cache := Some(r.queue[0]), queue := r.queue[1..]);
  }

  /** The held message was written whole. */
  lemma Complete(hs: seq<Message>, r: Report, bytes: seq<Byte>, m: Message)
    requires Live(hs, r, bytes) && r.cache == Some(m)
    ensures Live(hs, r.(sent := r.sent + [m], cache := None), bytes + Frame(m, false))
  {
    var from := r.starts[|r.accepted|];
    Middle(r.sent, m, r.queue);
    SpanOfPart(hs, from, |r.sent|, |Frame(m, false)|);
    Whole(Frame(m, false));
    SpanOfWhole(hs, from, |r.sent| + 1);
    SpansExtend(hs, r.accepted, bytes, bytes + Frame(m, false), r.starts, |r.sent|, |r.sent| + 1);
  }

  /** The held message was written in part, or whole without the task learning of it. */
  lemma Abandon(hs: seq<Message>, r: Report, bytes: seq<Byte>, m: Message, n: nat)
    requires Live(hs, r, bytes) && r.cache == Some(m) && n <= |Frame(m, false)|
    ensures Spans(hs, r.accepted + [bytes + Frame(m, false)[..n]], r.starts, |r.sent|)
  {
    Middle(r.sent, m, r.queue);
    SpanOfPart(hs, r.starts[|r.accepted|], |r.sent|, n);
    SpansExtend(hs, r.accepted, bytes, bytes + Frame(m, false)[..n], r.starts, |r.sent|, |r.sent|);
  }

  /** The sockets before the current one were given up, and the current one has come this far. */
  ghost predicate Working(hs: seq<Message>, sockets: seq<Behaviour>, r: Report, answers: seq<Answer>,
      flushes: seq<bool>) {
    && |r.starts| == |r.accepted| + 1 <= |sockets|
    && Used(hs, sockets, r.accepted, r.starts[..|r.accepted|], r.starts[|r.accepted|], Broke)
    && Serving(hs, sockets[|r.accepted|], r.starts[|r.accepted|], |r.sent|, answers, flushes)
  }

  /** The current socket has nothing left to send. */
  lemma WorkingIdles(hs: seq<Message>, sockets: seq<Behaviour>, r: Report, bytes: seq<Byte>, answers: seq<Answer>,
      flushes: seq<bool>)
    requires Working(hs, sockets, r, answers, flushes) && |r.sent| == |hs|
    requires bytes == Stream(hs[r.starts[|r.accepted|]..|r.sent|], false)
    ensures Used(hs, sockets, r.accepted + [bytes], r.starts, |r.sent|, Idle)
  {
    assert hs[|r.sent|..] == [];
    UsedEnds(hs, sockets, r.accepted, bytes, r.starts, |r.sent|, Idle);
  }

  /** It completes one more message. */
  lemma WorkingGoesOn(hs: seq<Message>, sockets: seq<Behaviour>, r: Report, answers: seq<Answer>, flushes: seq<bool>,
      f: Fed)
    requires Working(hs, sockets, r, answers, flushes) && |r.sent| < |hs|
    requires f == Feed(answers, |Frame(hs[|r.sent|], false)|, HeaderLen(hs[|r.sent|]))
    requires f.outcome.Done? && flushes != [] && flushes[0]
    ensures Serving(hs, sockets[|r.accepted|], r.starts[|r.accepted|], |r.sent| + 1, f.rest, flushes[1..])
  {
    ServeTurn(hs, |r.sent|, answers, flushes, f);
  }

  /** It is given up, or not heard from. */
  lemma WorkingStops(hs: seq<Message>, sockets: seq<Behaviour>, r: Report, bytes: seq<Byte>, bytes': seq<Byte>,
                     answers: seq<Answer>, flushes: seq<bool>, f: Fed)
    requires Working(hs, sockets, r, answers, flushes) && |r.sent| < |hs|
    requires f == Feed(answers, |Frame(hs[|r.sent|], false)|, HeaderLen(hs[|r.sent|]))
    requires !(f.outcome.Done? && flushes != [] && flushes[0])
    requires bytes == Stream(hs[r.starts[|r.accepted|]..|r.sent|], false) && |bytes'| == |bytes| + f.sent
    ensures var pending := f.outcome.Pending? || (f.outcome.Done? && flushes == []);
            Used(hs, sockets, r.accepted + [bytes'], r.starts, |r.sent|, if pending then Waiting else Broke)
  {
    var pending := f.outcome.Pending? || (f.outcome.Done? && flushes == []);
    ServeTurn(hs, |r.sent|, answers, flushes, f);
    UsedEnds(hs, sockets, r.accepted, bytes', r.starts, |r.sent|, if pending then Waiting else Broke);
  }

  /** Goes on with the next socket. */
  method TakeOver(ghost hs: seq<Message>, r: Report, sockets: seq<Behaviour>)
    returns (r': Report, sock: Socket, flushes: seq<bool>)
    requires Conserved(hs, r) && Spans(hs, r.accepted, r.starts, |r.sent|)
    requires |r.accepted| < |sockets| && (r.accepted == [] ==> r.sent == [])
    requires Used(hs, sockets, r.accepted, r.starts, |r.sent|, Broke)
    ensures r' == r.(starts := r.starts + [|r.sent|]) && Live(hs, r', sock.sink) && fresh(sock)
    ensures Working(hs, sockets, r', sock.script, flushes)
  {
    SpansSwitch(hs, r.accepted, r.starts, |r.sent|);
    SpanOfWhole(hs, |r.sent|, |r.sent|);
    EmptySlice(hs, |r.sent|);
    sock := new Socket(sockets[|r.accepted|].answers);
    flushes := sockets[|r.accepted|].flushes;
    r' := r.(starts := r.starts + [|r.sent|]);
    WorkingStarts(hs, sockets, r, r');
  }

  lemma WorkingStarts(hs: seq<Message>, sockets: seq<Behaviour>, r: Report, r': Report)
    requires |r.accepted| == |r.starts| < |sockets| && |r.sent| <= |hs| && r' == r.(starts := r.starts + [|r.sent|])
    requires Used(hs, sockets, r.accepted, r.starts, |r.sent|, Broke)
    ensures Working(hs, sockets, r', sockets[|r.accepted|].answers, sockets[|r.accepted|].flushes)
  {
    assert r'.starts[..|r.accepted|] == r.starts;
  }

  /** Tries to send the held message on the current socket, and on failure gives up that socket. */
  method Attempt(ghost hs: seq<Message>, ghost sockets: seq<Behaviour>, r: Report, sock: Socket, flushes: seq<bool>)
    returns (r': Report, ok: bool, pending: bool, flushes': seq<bool>)
    requires Live(hs, r, sock.sink) && r.cache.Some? && Working(hs, sockets, r, sock.script, flushes)
    modifies sock
    ensures ok ==> r' == r.(sent := r.sent + [r.cache.value], cache := None) && Live(hs, r', sock.sink)
    ensures ok ==> Working(hs, sockets, r', sock.script, flushes')
    ensures !ok ==> r' == r.(accepted := r.accepted + [sock.sink]) && Spans(hs, r'.accepted, r'.starts, |r'.sent|)
    ensures !ok ==> Used(hs, sockets, r'.accepted, r'.starts, |r'.sent|, if pending then Waiting else Broke)
  {
    var m := r.cache.value;
    Middle(r.sent, m, r.queue);
    ghost var f;
    ok, pending, flushes', f := Transmit(sock, flushes, m);
    if ok {
      Complete(hs, r, old(sock.sink), m);
      WorkingGoesOn(hs, sockets, r, old(sock.script), flushes, f);
      r' := r.(sent := r.sent + [m], cache := None);
    } else {
      Abandon(hs, r, old(sock.sink), m, f.sent);
      WorkingStops(hs, sockets, r, old(sock.sink), sock.sink, old(sock.script), flushes, f);
      r' := r.(accepted := r.accepted + [sock.sink]);
    }
  }

  /**
    The sending loop, run until it waits for something that has not happened. Whatever the sockets
    do: messages completed, held and queued are those enqueued, in order; the sockets accept no
    message out of turn; each socket is used for all that its behaviour allows and given up only
    for a write or flush that failed; and the task waits for a message only when all are complete.
  */
  method SendMessages(hs: seq<Message>, sockets: seq<Behaviour>) returns (r: Report)
    ensures Conserved(hs, r)
    ensures Spans(hs, r.accepted, r.starts, |r.sent|)
    ensures Used(hs, sockets, r.accepted, r.starts, |r.sent|, EndingOf(r.wait))
    ensures r.wait.ForMessage? ==> r.sent == hs
    ensures r.wait.ForSocket? ==> |r.accepted| == |sockets|
    ensures !r.wait.ForSocket? ==> 0 < |r.accepted| <= |sockets|
    ensures r.wait.ForWrite? ==> r.cache.Some?
    ensures r.accepted == [] ==> r.sent == []
  {
    r := Report([], None, hs, [], [], ForSocket);
    if sockets == [] { return; }
    var sock, flushes;
    r, sock, flushes := TakeOver(hs, r, sockets);
    while true
      invariant Live(hs, r, sock.sink) && |r.accepted| < |sockets| && fresh(sock)
      invariant Working(hs, sockets, r, sock.script, flushes)
      decreases |sockets| - |r.accepted|, |r.queue|, if r.cache.Some? then 1 else 0
    {
      if r.cache.None? {
        if r.queue == [] {
          AllSent(hs, r);
          WorkingIdles(hs, sockets, r, sock.sink, sock.script, flushes);
          return r.(accepted := r.accepted + [sock.sink], wait := ForMessage);
        }
        r := Take(hs, r, sock.sink);
      }
      var ok, pending;
      r, ok, pending, flushes := Attempt(hs, sockets, r, sock, flushes);
      if ok { continue; }
      if pending { return r.(wait := ForWrite); }
      if |r.accepted| == |sockets| { return r.(wait := ForSocket); }
      r, sock, flushes := TakeOver(hs, r, sockets);
    }
  }

  // ---- what the recipient sees ----

  lemma {:induction false} HeaderEndBound(hs: seq<Message>, i: nat, m: nat)
    requires i < m <= |hs|
    ensures HeaderEnd(hs, i, false) <= |Stream(hs[..m], false)|
  {
    assert hs[..m][0] == hs[0] && hs[..m][1..] == hs[1..][..m - 1];
    if i > 0 { HeaderEndBound(hs[1..], i - 1, m - 1); }
  }

  /**
    Reading what arrives on one socket, cut anywhere, gives consecutive messages from where the
    socket took over, at most one of them not complete on this socket; uncut, all complete ones.
  */
  lemma RecipientSees(hs: seq<Message>, bytes: seq<Byte>, from: nat, upto: nat, cut: nat) returns (k: nat)
    requires Span(hs, bytes, from, upto) && cut <= |bytes|
    ensures k <= upto - from + 1 && from + k <= |hs|
    ensures ReadAll(bytes[..cut], false) == (hs[from..from + k], Io)
    ensures cut == |bytes| ==> k >= upto - from
  {
    var end := if upto < |hs| then upto + 1 else upto;
    SliceOfSlice(hs, from, end, upto);
    k := WindowReads(hs[from..end], bytes, upto - from, cut);
    FrontOfSlice(hs, from, end, k);
  }

  lemma RecipientSeesAll(hs: seq<Message>, bytes: seq<Byte>, from: nat, upto: nat) returns (k: nat)
    requires Span(hs, bytes, from, upto)
    ensures upto - from <= k <= upto - from + 1 && from + k <= |hs|
    ensures ReadAll(bytes, false) == (hs[from..from + k], Io)
  {
    Whole(bytes);
    k := RecipientSees(hs, bytes, from, upto, |bytes|);
  }

  lemma WindowReads(window: seq<Message>, bytes: seq<Byte>, m: nat, cut: nat) returns (k: nat)
    requires m <= |window| && cut <= |bytes|
    requires Prefix(Stream(window[..m], false), bytes) && Prefix(bytes, Stream(window, false))
    ensures k <= |window| && ReadAll(bytes[..cut], false) == (window[..k], Io)
    ensures cut == |bytes| ==> k >= m
  {
    k := CutStream(window, false, cut);
    PrefixCut(bytes, Stream(window, false), cut);
    if cut == |bytes| { EnoughRead(window, k, cut, m); }
  }

  lemma EnoughRead(hs: seq<Message>, k: nat, c: nat, m: nat)
    requires HeadersBefore(hs, k, c, false) && m <= |hs| && |Stream(hs[..m], false)| <= c
    ensures k >= m
  {
    if k < m { HeaderEndBound(hs, k, m); }
  }

  lemma PrefixCut(a: seq<Byte>, b: seq<Byte>, cut: nat)
    requires Prefix(a, b) && cut <= |a|
    ensures a[..cut] == b[..cut]
  {
  }

  /** Messages read from the first `n` sockets, when all that they accepted arrives. */
  ghost function Received(accepted: seq<seq<Byte>>, n: nat): nat
    requires n <= |accepted|
  {
    if n == 0 then 0 else Received(accepted, n - 1) + |ReadAll(accepted[n - 1], false).0|
  }

  lemma {:induction false} ReceivedBounds(hs: seq<Message>, accepted: seq<seq<Byte>>, starts: seq<nat>, sent: nat,
      n: nat)
    requires Spans(hs, accepted, starts, sent) && 0 < n <= |starts|
    ensures End(starts, n - 1, sent) <= Received(accepted, n) <= End(starts, n - 1, sent) + n
  {
    if n > 1 { ReceivedBounds(hs, accepted, starts, sent, n - 1); }
    var bytes := accepted[n - 1];
    assert Span(hs, bytes, starts[n - 1], End(starts, n - 1, sent));
    var k := RecipientSeesAll(hs, bytes, starts[n - 1], End(starts, n - 1, sent));
  }

  /** The recipient reads every completed message, and no more than one message too many per socket. */
  lemma AtMostOneRepeatPerSocket(hs: seq<Message>, r: Report)
    requires Spans(hs, r.accepted, r.starts, |r.sent|) && r.accepted != []
    ensures |r.sent| <= Received(r.accepted, |r.accepted|) <= |r.sent| + |r.accepted|
  {
    ReceivedBounds(hs, r.accepted, r.starts, |r.sent|, |r.accepted|);
  }

  /** Every completed message was accepted whole by a socket, on which the recipient reads it in its turn. */
  lemma CompletedIsReadable(hs: seq<Message>, accepted: seq<seq<Byte>>, starts: seq<nat>, sent: nat, j: nat)
    returns (i: nat, bytes: seq<Byte>, from: nat, k: nat)
    requires Spans(hs, accepted, starts, sent) && accepted != [] && j < sent <= |hs|
    ensures i < |accepted| && accepted[i] == bytes && starts[i] == from
    ensures from <= j < from + k <= |hs| && ReadAll(bytes, false) == (hs[from..from + k], Io)
  {
    i := Carrier(starts, sent, j, |starts|);
    bytes, from := accepted[i], starts[i];
    k := RecipientSeesAll(hs, bytes, from, End(starts, i, sent));
  }

  lemma {:induction false} Carrier(starts: seq<nat>, sent: nat, j: nat, n: nat) returns (i: nat)
    requires 0 < n <= |starts| && starts[0] == 0 && j < End(starts, n - 1, sent)
    ensures i < n && starts[i] <= j < End(starts, i, sent)
  {
    i := n - 1;
    if j < starts[i] {
      i := Carrier(starts, sent, j, n - 1);
    }
  }
}
