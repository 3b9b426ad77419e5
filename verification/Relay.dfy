/**
  The relay from end to end: what the members of a group write on their connections, against what
  one recipient reads over all its sockets.
*/
module Relay {
  import opened Bytes
  import opened Sequences
  import opened Wire
  import opened WireWriter
  import opened Routing
  import opened Delivery

  // ---- one sequence within another ----

  /** The elements of `b` at the places `at` are `a`. */
  ghost predicate Picks(a: seq<Header>, b: seq<Header>, at: seq<nat>) {
    |at| == |a| && Increasing(at) && forall k | 0 <= k < |at| :: at[k] < |b| && b[at[k]] == a[k]
  }

  /** `a` is in `b`, in order, possibly with others before, between and behind. */
  ghost predicate Within(a: seq<Header>, b: seq<Header>) {
    exists at :: Picks(a, b, at)
  }

  lemma FrontWithin(a: seq<Header>, b: seq<Header>)
    requires a <= b
    ensures Within(a, b)
  {
    assert Picks(a, b, seq(|a|, k => k));
  }

  function Shifted(at: seq<nat>, n: nat): (r: seq<nat>)
    ensures |r| == |at| && forall k | 0 <= k < |at| :: r[k] == n + at[k]
  {
    seq(|at|, k requires 0 <= k < |at| => n + at[k])
  }

  lemma PicksJoined(a: seq<Header>, b: seq<Header>, at: seq<nat>, a': seq<Header>, b': seq<Header>, at': seq<nat>)
    requires Picks(a, b, at) && Picks(a', b', at')
    ensures Picks(a + a', b + b', at + Shifted(at', |b|))
  {
    var further := Shifted(at', |b|);
    forall k | 0 <= k < |at'|
      ensures further[k] < |b + b'| && (b + b')[further[k]] == a'[k]
    {
      assert b'[at'[k]] == a'[k];
    }
    assert Increasing(further);
    assert Increasing(at + further);
  }

  lemma WithinJoined(a: seq<Header>, b: seq<Header>, a': seq<Header>, b': seq<Header>)
    requires Within(a, b) && Within(a', b')
    ensures Within(a + a', b + b')
  {
    var at: seq<nat> :| Picks(a, b, at);
    var at': seq<nat> :| Picks(a', b', at');
    PicksJoined(a, b, at, a', b', at');
  }

  lemma WithinThrough(a: seq<Header>, b: seq<Header>, c: seq<Header>)
    requires Within(a, b) && Within(b, c)
    ensures Within(a, c)
  {
    var at: seq<nat> :| Picks(a, b, at);
    var at': seq<nat> :| Picks(b, c, at');
    var both: seq<nat> := seq(|at|, k requires 0 <= k < |at| => at'[at[k]]);
    assert Picks(a, c, both);
  }

  // ---- what a recipient reads over its sockets ----

  /** The messages read from each socket in turn, one after the other. */
  function Joined(seen: seq<seq<Header>>): seq<Header> {
    if seen == [] then [] else Joined(seen[..|seen| - 1]) + seen[|seen| - 1]
  }

  /** The messages read from each socket, when all that it accepted arrives. */
  function ReadFrom(accepted: seq<seq<Byte>>): seq<seq<Header>> {
    seq(|accepted|, i requires 0 <= i < |accepted| => ReadAll(accepted[i], false).0)
  }

  /** Messages completed when the first `n` sockets were done with. */
  function Upto(starts: seq<nat>, sent: nat, n: nat): nat {
    if n == 0 then 0 else End(starts, n - 1, sent)
  }

  /** At least the messages from `from` up to `upto`. */
  ghost predicate Window(hs: seq<Message>, seen: seq<Header>, from: nat, upto: nat) {
    from <= upto <= |hs| && hs[from..upto] <= seen <= hs[from..]
  }

  ghost predicate Windows(hs: seq<Message>, seen: seq<seq<Header>>, starts: seq<nat>, sent: nat) {
    forall i: nat | i < |seen| :: Window(hs, seen[i], Upto(starts, sent, i), Upto(starts, sent, i + 1))
  }

  lemma SpansGiveWindows(hs: seq<Message>, accepted: seq<seq<Byte>>, starts: seq<nat>, sent: nat)
    requires Spans(hs, accepted, starts, sent)
    ensures Windows(hs, ReadFrom(accepted), starts, sent)
  {
    var seen := ReadFrom(accepted);
    forall i: nat | i < |seen|
      ensures Window(hs, seen[i], Upto(starts, sent, i), Upto(starts, sent, i + 1))
    {
      assert Span(hs, accepted[i], starts[i], End(starts, i, sent));
      SpanGivesWindow(hs, accepted[i], starts[i], End(starts, i, sent));
    }
  }

  lemma SpanGivesWindow(hs: seq<Message>, bytes: seq<Byte>, from: nat, upto: nat)
    requires Span(hs, bytes, from, upto)
    ensures Window(hs, ReadAll(bytes, false).0, from, upto)
  {
    var k := RecipientSeesAll(hs, bytes, from, upto);
  }

  /** Over all sockets together: the completed messages in order, possibly with repeats, and no others. */
  lemma {:induction false} CompletedAreRead(hs: seq<Message>, seen: seq<seq<Header>>, starts: seq<nat>, sent: nat)
    requires Windows(hs, seen, starts, sent)
    ensures Upto(starts, sent, |seen|) <= |hs| && Within(hs[..Upto(starts, sent, |seen|)], Joined(seen))
    ensures forall m <- Joined(seen) :: m in hs
    decreases |seen|
  {
    if seen == [] {
      FrontWithin(hs[..0], []);
    } else {
      var n := |seen| - 1;
      var from, upto := Upto(starts, sent, n), Upto(starts, sent, n + 1);
      CompletedAreRead(hs, seen[..n], starts, sent);
      assert Window(hs, seen[n], from, upto);
      OneMoreSocket(hs, Joined(seen[..n]), seen[n], from, upto);
    }
  }

  lemma OneMoreSocket(hs: seq<Message>, before: seq<Header>, last: seq<Header>, from: nat, upto: nat)
    requires Window(hs, last, from, upto) && Within(hs[..from], before)
    ensures Within(hs[..upto], before + last) && forall m <- last :: m in hs
  {
    FrontWithin(hs[from..upto], last);
    WithinJoined(hs[..from], before, hs[from..upto], last);
    assert hs[..upto] == hs[..from] + hs[from..upto];
    assert forall i | 0 <= i < |last| :: last[i] == hs[from..][i] == hs[from + i];
  }

  // ---- the messages in a channel ----

  predicate Carries(e: Entry, m: Message) {
    e.header == Serialize(m) && e.body == m.body
  }

  /** The entries of `q` are, in turn, the messages `ms`. */
  predicate Carried(q: seq<Entry>, ms: seq<Message>) {
    |q| == |ms| && forall k | 0 <= k < |q| :: Carries(q[k], ms[k])
  }

  lemma CarriedOnce(q: seq<Entry>, ms: seq<Message>, ms': seq<Message>)
    requires Carried(q, ms) && Carried(q, ms')
    ensures ms == ms'
  {
    forall k | 0 <= k < |q|
      ensures ms[k] == ms'[k]
    {
      DeserializeSerialize(ms[k]);
      DeserializeSerialize(ms'[k]);
      assert Carries(q[k], ms[k]) && Carries(q[k], ms'[k]);
    }
  }

  function AddMessage(ms: seq<Message>, wanted: bool, m: Message): seq<Message> {
    if wanted then ms + [m] else ms
  }

  /** Those of the messages in a channel that connection `i` put there. */
  function Part(i: nat, q: seq<Entry>, ms: seq<Message>): seq<Message>
    requires |q| == |ms|
  {
    if q == [] then []
    else
      var n := |q| - 1;
      AddMessage(Part(i, q[..n], ms[..n]), q[n].conn == i, ms[n])
  }

  lemma PartSnoc(i: nat, q: seq<Entry>, ms: seq<Message>)
    requires |q| == |ms| > 0
    ensures var n := |q| - 1;
            Part(i, q, ms) == Part(i, q[..n], ms[..n]) + (if q[n].conn == i then [ms[n]] else [])
  {
  }

  lemma {:induction false} PartCarried(i: nat, q: seq<Entry>, ms: seq<Message>)
    requires Carried(q, ms)
    ensures Carried(From(i, q), Part(i, q, ms))
  {
    if q != [] {
      var n := |q| - 1;
      PartCarried(i, q[..n], ms[..n]);
      PartSnoc(i, q, ms);
      assert Carries(q[n], ms[n]);
    }
  }

  lemma {:induction false} PartWithin(i: nat, q: seq<Entry>, ms: seq<Message>)
    requires |q| == |ms|
    ensures Within(Part(i, q, ms), ms)
  {
    if q == [] {
      FrontWithin([], ms);
    } else {
      var n := |q| - 1;
      var last: seq<Message> := if q[n].conn == i then [ms[n]] else [];
      PartWithin(i, q[..n], ms[..n]);
      FrontWithin(last, [ms[n]]);
      WithinJoined(Part(i, q[..n], ms[..n]), ms[..n], last, [ms[n]]);
      PartSnoc(i, q, ms);
      assert ms == ms[..n] + [ms[n]];
    }
  }

  lemma {:induction false} FromFront(i: nat, q: seq<Entry>, n: nat)
    requires n <= |q|
    ensures From(i, q[..n]) <= From(i, q)
    decreases |q|
  {
    if n < |q| {
      var init := q[..|q| - 1];
      FromFront(i, init, n);
      assert init[..n] == q[..n];
    } else {
      assert q[..n] == q;
    }
  }

  // ---- what was written for a recipient ----

  /** Those of the messages written on a connection that go to a channel. */
  function Wanted(c: Conn, hs: seq<Message>, ch: Channel): seq<Message> {
    if hs == [] then []
    else
      var last := hs[|hs| - 1];
      AddMessage(Wanted(c, hs[..|hs| - 1], ch), ch.group == c.group && ch.member in Targets(c, last), last)
  }

  lemma {:induction false} OwedIsWanted(i: nat, c: Conn, log: seq<Read>, hs: seq<Message>, ch: Channel)
    requires ReadExactly(log, hs)
    ensures Carried(Owed(i, c, log, ch), Wanted(c, hs[..|log|], ch))
    decreases |log|
  {
    if log != [] {
      var n := |log| - 1;
      OwedIsWanted(i, c, log[..n], hs, ch);
      assert log[n] == Read(Serialize(hs[n]), hs[n]);
      assert hs[..|log|][..n] == hs[..n] && hs[..|log|][n] == hs[n];
    }
  }

  /** On every connection acceptable messages were written, and some front part of their bytes arrives. */
  ghost predicate Written(s: State, hss: seq<seq<Message>>) {
    && |hss| == |s.conns|
    && forall i | 0 <= i < |hss| :: WrittenOn(s.conns[i], hss[i])
  }

  ghost predicate WrittenOn(c: Conn, hs: seq<Message>) {
    c.status.Running? && Prefix(c.stream, Stream(hs, false)) && forall h <- hs :: Acceptable(c, h)
  }

  lemma RunReads(s: State, steps: seq<nat>, s': State, i: nat, hs: seq<Message>)
    requires Initial(s) && Runs(s, steps, s') && i < |s.conns| && WrittenOn(s.conns[i], hs)
    ensures i < |s'.conns| && ReadExactly(s'.conns[i].log, hs)
    ensures s'.conns[i].status.Stopped? ==> HeadersBefore(hs, |s'.conns[i].log|, |s.conns[i].stream|, false)
  {
    var arriving := s.conns[i].stream;
    FollowsAtFirst(s.conns[i], hs);
    RunFollows(s, steps, s', i, hs, arriving);
    if s'.conns[i].status.Stopped? { FollowsToTheEnd(s'.conns[i], hs, arriving); }
  }

  // ---- who put an entry in a channel ----

  ghost predicate Owned(s: State) {
    forall ch, e | ch in s.channels && e in s.channels[ch] :: e.conn < |s.conns|
  }

  lemma {:induction false} RunOwned(s: State, steps: seq<nat>, s': State)
    requires Owned(s) && Runs(s, steps, s')
    ensures Owned(s') && |s'.conns| == |s.conns|
    decreases |steps|
  {
    if steps != [] { RunOwned(Next(s, steps[0]), steps[1..], s'); }
  }

  // ---- end to end ----

  /** What connection `i` has put in the channel is a front part of what was written on it for the recipient. */
  lemma PartIsWanted(s: State, i: nat, hs: seq<Message>, ch: Channel, ms: seq<Message>, n: nat)
    requires Inv(s) && i < |s.conns| && ch in s.channels && ReadExactly(s.conns[i].log, hs)
    requires Carried(s.channels[ch], ms) && n <= |ms|
    ensures var q, wanted := s.channels[ch], Wanted(s.conns[i], hs[..|s.conns[i].log|], ch);
            && Part(i, q[..n], ms[..n]) <= wanted
            && (n == |ms| && s.conns[i].todo == [] ==> Part(i, q[..n], ms[..n]) == wanted)
  {
    var q, c := s.channels[ch], s.conns[i];
    var wanted, part := Wanted(c, hs[..|c.log|], ch), Part(i, q[..n], ms[..n]);
    assert Fair(s, i, ch);
    FromFront(i, q, n);
    OwedIsWanted(i, c, c.log, hs, ch);
    PartCarried(i, q[..n], ms[..n]);
    CarriedOnce(From(i, q[..n]), part, wanted[..|part|]);
    if n == |ms| { assert q[..n] == q; }
  }

  lemma {:induction false} InFrom(q: seq<Entry>, k: nat)
    requires k < |q|
    ensures q[k] in From(q[k].conn, q)
  {
    if k < |q| - 1 { InFrom(q[..|q| - 1], k); }
  }

  lemma EntryIsMessage(s: State, i: nat, hs: seq<Message>, ch: Channel, k: nat) returns (m: Message)
    requires Inv(s) && i < |s.conns| && ch in s.channels && ReadExactly(s.conns[i].log, hs)
    requires k < |s.channels[ch]| && s.channels[ch][k].conn == i
    ensures Carries(s.channels[ch][k], m)
  {
    var c := s.conns[i];
    InFrom(s.channels[ch], k);
    FromIsOwed(s, i, ch, s.channels[ch][k]);
    OwedIsWanted(i, c, c.log, hs, ch);
    m := CarriedAs(Owed(i, c, c.log, ch), Wanted(c, hs[..|c.log|], ch), s.channels[ch][k]);
  }

  lemma FromIsOwed(s: State, i: nat, ch: Channel, e: Entry)
    requires Inv(s) && i < |s.conns| && ch in s.channels && e in From(i, s.channels[ch])
    ensures e in Owed(i, s.conns[i], s.conns[i].log, ch)
  {
    assert Fair(s, i, ch);
  }

  lemma CarriedAs(q: seq<Entry>, ms: seq<Message>, e: Entry) returns (m: Message)
    requires Carried(q, ms) && e in q
    ensures Carries(e, m)
  {
    var x :| 0 <= x < |q| && q[x] == e;
    m := ms[x];
  }

  /** Entries of a channel are messages that were written, so the task that serves it sends their frames. */
  lemma ChannelCarries(s: State, steps: seq<nat>, s': State, hss: seq<seq<Message>>, ch: Channel, n: nat)
    returns (ms: seq<Message>)
    requires Initial(s) && Runs(s, steps, s') && Written(s, hss) && ch in s'.channels && n <= |s'.channels[ch]|
    ensures Carried(s'.channels[ch][..n], ms)
  {
    ms := [];
    if n > 0 {
      ms := ChannelCarries(s, steps, s', hss, ch, n - 1);
      var i := Putter(s, steps, s', ch, n - 1);
      RunKeeps(s, steps, s');
      assert WrittenOn(s.conns[i], hss[i]);
      RunReads(s, steps, s', i, hss[i]);
      var m := EntryIsMessage(s', i, hss[i], ch, n - 1);
      CarriedSnoc(s'.channels[ch], ms, m, n - 1);
      ms := ms + [m];
    }
  }

  lemma CarriedSnoc(q: seq<Entry>, ms: seq<Message>, m: Message, n: nat)
    requires n < |q| && Carried(q[..n], ms) && Carries(q[n], m)
    ensures Carried(q[..n + 1], ms + [m])
  {
    forall k | 0 <= k < n
      ensures Carries(q[k], ms[k])
    {
      assert q[..n][k] == q[k];
    }
  }

  /** What `SendMessages` promises of its report. */
  ghost predicate Reported(ms: seq<Message>, r: Report) {
    Conserved(ms, r) && Spans(ms, r.accepted, r.starts, |r.sent|) && (r.accepted == [] ==> r.sent == [])
  }

  /**
    Of the messages that have arrived from connection `i` for this recipient, those completed, the
    first `n`, are read over its sockets in order. They are all if nothing is left to send.
  */
  ghost predicate ReadInOrder(s: State, i: nat, hs: seq<Message>, ch: Channel, r: Report)
    requires i < |s.conns| && |s.conns[i].log| <= |hs| && ch in s.channels && |r.sent| <= |s.channels[ch]|
  {
    var wanted := Wanted(s.conns[i], hs[..|s.conns[i].log|], ch);
    var n := |From(i, s.channels[ch][..|r.sent|])|;
    && n <= |wanted| && Within(wanted[..n], Joined(ReadFrom(r.accepted)))
    && (|r.sent| == |s.channels[ch]| && s.conns[i].todo == [] ==> n == |wanted|)
  }

  lemma PartIsRead(s: State, i: nat, hs: seq<Message>, ch: Channel, ms: seq<Message>, r: Report)
    requires Inv(s) && i < |s.conns| && ch in s.channels && ReadExactly(s.conns[i].log, hs)
    requires Carried(s.channels[ch], ms) && Reported(ms, r)
    ensures ReadInOrder(s, i, hs, ch, r)
  {
    var q, d := s.channels[ch], |r.sent|;
    var part, wanted := Part(i, q[..d], ms[..d]), Wanted(s.conns[i], hs[..|s.conns[i].log|], ch);
    PartIsWanted(s, i, hs, ch, ms, d);
    PartCarried(i, q[..d], ms[..d]);
    PartWithin(i, q[..d], ms[..d]);
    assert part == wanted[..|part|];
    SpansGiveWindows(ms, r.accepted, r.starts, d);
    CompletedAreRead(ms, ReadFrom(r.accepted), r.starts, d);
    WithinThrough(part, ms[..d], Joined(ReadFrom(r.accepted)));
  }

  /**
    Whatever the interleaving and whatever becomes of the sockets: of the messages written on a
    connection for this recipient, those completed are read over its sockets in the order written,
    each at least once. A connection that has stopped has read every message whose header arrived.
  */
  lemma WrittenIsRead(s: State, steps: seq<nat>, s': State, hss: seq<seq<Message>>, ch: Channel, ms: seq<Message>,
      r: Report, i: nat)
    requires Initial(s) && Runs(s, steps, s') && Written(s, hss) && ch in s'.channels && i < |hss|
    requires Carried(s'.channels[ch], ms) && Reported(ms, r)
    ensures i < |s'.conns| && |s'.conns[i].log| <= |hss[i]| && ReadInOrder(s', i, hss[i], ch, r)
    ensures s'.conns[i].status.Stopped? ==>
              HeadersBefore(hss[i], |s'.conns[i].log|, |s.conns[i].stream|, false)
  {
    RunKeeps(s, steps, s');
    assert WrittenOn(s.conns[i], hss[i]);
    RunReads(s, steps, s', i, hss[i]);
    PartIsRead(s', i, hss[i], ch, ms, r);
  }

  lemma SentAs(ms: seq<Message>, r: Report, m: Header) returns (k: nat)
    requires Reported(ms, r) && m in Joined(ReadFrom(r.accepted))
    ensures k < |ms| && ms[k] == m
  {
    SpansGiveWindows(ms, r.accepted, r.starts, |r.sent|);
    CompletedAreRead(ms, ReadFrom(r.accepted), r.starts, |r.sent|);
    k :| 0 <= k < |ms| && ms[k] == m;
  }

  /** And nothing else is read: every message read was written for this recipient on some connection. */
  lemma ReadWasWritten(s: State, steps: seq<nat>, s': State, hss: seq<seq<Message>>, ch: Channel, ms: seq<Message>,
      r: Report, m: Header) returns (i: nat)
    requires Initial(s) && Runs(s, steps, s') && Written(s, hss) && ch in s'.channels
    requires Carried(s'.channels[ch], ms) && Reported(ms, r) && m in Joined(ReadFrom(r.accepted))
    ensures i < |hss| && i < |s'.conns| && |s'.conns[i].log| <= |hss[i]|
    ensures m in Wanted(s'.conns[i], hss[i][..|s'.conns[i].log|], ch)
  {
    var k := SentAs(ms, r, m);
    i := Putter(s, steps, s', ch, k);
    RunKeeps(s, steps, s');
    assert WrittenOn(s.conns[i], hss[i]);
    RunReads(s, steps, s', i, hss[i]);
    PutIsWanted(s', i, hss[i], ch, ms, k);
  }

  lemma Putter(s: State, steps: seq<nat>, s': State, ch: Channel, k: nat) returns (i: nat)
    requires Initial(s) && Runs(s, steps, s') && ch in s'.channels && k < |s'.channels[ch]|
    ensures i == s'.channels[ch][k].conn < |s.conns|
  {
    RunOwned(s, steps, s');
    assert s'.channels[ch][k] in s'.channels[ch];
    i := s'.channels[ch][k].conn;
  }

  lemma PutIsWanted(s: State, i: nat, hs: seq<Message>, ch: Channel, ms: seq<Message>, k: nat)
    requires Inv(s) && i < |s.conns| && ch in s.channels && ReadExactly(s.conns[i].log, hs)
    requires Carried(s.channels[ch], ms) && k < |ms| && s.channels[ch][k].conn == i
    ensures ms[k] in Wanted(s.conns[i], hs[..|s.conns[i].log|], ch)
  {
    var q := s.channels[ch];
    PartIsWanted(s, i, hs, ch, ms, |ms|);
    InPart(q, ms, k);
    assert q[..|ms|] == q && ms[..|ms|] == ms;
  }

  /** The task that serves the recipient, on all that the run has put in its channel. */
  method SendChannel(ghost s: State, ghost steps: seq<nat>, ghost s': State, ghost hss: seq<seq<Message>>,
      ghost ch: Channel, ms: seq<Message>, sockets: seq<Behaviour>)
    returns (r: Report)
    requires Initial(s) && Runs(s, steps, s') && Written(s, hss) && ch in s'.channels && Carried(s'.channels[ch], ms)
    ensures Reported(ms, r) && (r.wait.ForMessage? ==> r.sent == ms)
    ensures |s'.conns| == |hss|
    ensures forall i: nat | i < |hss| :: |s'.conns[i].log| <= |hss[i]| && ReadInOrder(s', i, hss[i], ch, r)
  {
    r := SendMessages(ms, sockets);
    RunOwned(s, steps, s');
    forall i: nat | i < |hss|
      ensures |s'.conns[i].log| <= |hss[i]| && ReadInOrder(s', i, hss[i], ch, r)
    {
      WrittenIsRead(s, steps, s', hss, ch, ms, r, i);
    }
  }

  lemma {:induction false} InPart(q: seq<Entry>, ms: seq<Message>, k: nat)
    requires |q| == |ms| && k < |q|
    ensures ms[k] in Part(q[k].conn, q, ms)
  {
    var n := |q| - 1;
    if k < n { InPart(q[..n], ms[..n], k); }
  }
}
