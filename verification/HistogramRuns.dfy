/**
  The histogram builder as a loop over a conversation's messages, its output file's layout, and
  the checks made by the program that reads the file back.
*/
module HistogramRuns {
  import opened Options
  import opened Bytes
  import opened Histogram

  // ---- what a user's runs are ----

  /** Minutes of zeros after a user's last message: an hour, or up to the end of the conversation. */
  function Fill(last: int, end: int): (n: nat)
    requires last <= end
    ensures if end - last >= 3_600_000 then n == 60 else 60_000 * n <= end - last < 60_000 * (n + 1)
    ensures n <= 60
  {
    (if last + HOUR < end then HOUR else end - last) / MINUTE
  }

  function Finish(p: Progress, end: int): seq<Run>
    requires p.runs != [] && p.last <= end
  {
    p.runs[..|p.runs| - 1] + [Pad(Last(p), Fill(p.last, end))]
  }

  /** Run `k` is identified by the message it starts with: the one before which the earlier runs' messages lie. */
  ghost predicate Named(c: Conversation, u: UserId, runs: seq<Run>, k: nat)
    requires k < |runs|
  {
    var run := runs[k];
    && run.conversationId == c.hash && run.firstMessage < |c.messages|
    && c.messages[run.firstMessage].user == u && c.messages[run.firstMessage].date == run.start + HOUR
    && UserDates(c, u, run.firstMessage) == AllDates(runs[..k])
  }

  ghost predicate AllNamed(c: Conversation, u: UserId, runs: seq<Run>) {
    forall k | 0 <= k < |runs| :: Named(c, u, runs, k)
  }

  lemma {:induction false} FoldNames(c: Conversation, u: UserId, n: nat)
    requires Ordered(c) && n <= |c.messages|
    ensures Fold(c, u, n).Some? ==> AllNamed(c, u, Fold(c, u, n).value.runs)
  {
    hide Named, Step, Begin, UserDates, AllDates;
    if n > 0 {
      FoldNames(c, u, n - 1);
      var m := c.messages[n - 1];
      if m.user == u {
        FoldDates(c, u, n - 1);
        match Fold(c, u, n - 1)
        case None => BeginNames(c, u, n - 1);
        case Some(p) => GoodIsOrdered(p); StepNames(c, u, p, n - 1);
      }
    }
  }

  lemma BeginNames(c: Conversation, u: UserId, i: nat)
    requires i < |c.messages| && c.messages[i].user == u && UserDates(c, u, i) == []
    ensures var m := c.messages[i]; AllNamed(c, u, Step(Begin(c.hash, i, m.date), c.hash, i, m.date).runs)
  {
    var m := c.messages[i];
    BeginGood(c.hash, i, m.date);
    var runs := [Count1(NewRun(c.hash, i, m.date), m.date)];
    assert runs[..0] == [];
    assert Named(c, u, runs, 0);
  }

  lemma StepNames(c: Conversation, u: UserId, p: Progress, i: nat)
    requires i < |c.messages| && c.messages[i].user == u && p.runs != []
             && Last(p).start == p.start <= c.messages[i].date
    requires UserDates(c, u, i) == AllDates(p.runs) && AllNamed(c, u, p.runs)
    ensures AllNamed(c, u, Step(p, c.hash, i, c.messages[i].date).runs)
  {
    var runs, n := Step(p, c.hash, i, c.messages[i].date).runs, |p.runs|;
    forall k | 0 <= k < |runs|
      ensures Named(c, u, runs, k)
    {
      if k < n {
        assert Named(c, u, p.runs, k);
        assert runs[..k] == p.runs[..k];
      } else {
        assert runs[..k] == p.runs[..n - 1] + [Pad(Last(p), 60)];
        assert p.runs == p.runs[..n - 1] + [Last(p)];
        AllDatesSnoc(p.runs[..n - 1], Pad(Last(p), 60));
        AllDatesSnoc(p.runs[..n - 1], Last(p));
      }
    }
  }

  ghost predicate Sends(c: Conversation, u: UserId) {
    exists i | 0 <= i < |c.messages| :: c.messages[i].user == u
  }

  lemma {:induction false} FoldSome(c: Conversation, u: UserId, n: nat)
    requires Ordered(c) && n <= |c.messages|
    ensures Fold(c, u, n).Some? <==> exists i | 0 <= i < n :: c.messages[i].user == u
  {
    if n > 0 { FoldSome(c, u, n - 1); }
  }

  /** The runs of a user, with exact counters. */
  ghost function UserRuns(c: Conversation, u: UserId): seq<Run>
    requires Ordered(c) && Sends(c, u)
  {
    FoldSome(c, u, |c.messages|);
    Finish(Fold(c, u, |c.messages|).value, c.dateLastMessage)
  }

  /**
    Every message of the user is counted once, in its own minute, in runs that start with an hour
    of zeros and then a message, end exactly where at least 121 whole minutes are empty, and are
    followed by an hour of zeros, the last one by no more than an hour.
  */
  lemma RunsAreExact(c: Conversation, u: UserId)
    requires Ordered(c) && Sends(c, u)
    ensures var runs := UserRuns(c, u);
            && runs != [] && AllDates(runs) == UserDates(c, u, |c.messages|)
            && AllNamed(c, u, runs) && WellSplit(runs)
            && (forall k | 0 <= k < |runs| - 1 :: Padded(runs[k], 60))
            && var last := runs[|runs| - 1];
               last.dates != [] && last.dates[|last.dates| - 1] <= c.dateLastMessage
               && Padded(last, Fill(last.dates[|last.dates| - 1], c.dateLastMessage))
  {
    var n := |c.messages|;
    FoldSome(c, u, n);
    FoldDates(c, u, n);
    FoldNames(c, u, n);
    FoldSplits(c, u, n);
    var p := Fold(c, u, n).value;
    var t := Fill(p.last, c.dateLastMessage);
    PadKeeps(Last(p), t);
    AllDatesSnoc(p.runs[..|p.runs| - 1], Pad(Last(p), t));
    FinishNames(c, u, p, t);
    FinishSplits(p, t);
  }

  lemma FinishNames(c: Conversation, u: UserId, p: Progress, t: nat)
    requires p.runs != [] && AllNamed(c, u, p.runs)
    ensures AllNamed(c, u, p.runs[..|p.runs| - 1] + [Pad(Last(p), t)])
  {
    var runs := p.runs[..|p.runs| - 1] + [Pad(Last(p), t)];
    forall k | 0 <= k < |runs|
      ensures Named(c, u, runs, k)
    {
      assert Named(c, u, p.runs, k) && runs[..k] == p.runs[..k];
    }
  }

  lemma FinishSplits(p: Progress, t: nat)
    requires p.runs != [] && WellSplit(p.runs)
    ensures WellSplit(p.runs[..|p.runs| - 1] + [Pad(Last(p), t)])
  {
    var runs := p.runs[..|p.runs| - 1] + [Pad(Last(p), t)];
    forall k | 0 <= k < |runs|
      ensures Joined(runs[k])
    {
      assert Joined(p.runs[k]);
    }
    forall k | 0 <= k < |runs| - 1
      ensures SetApart(runs[k], runs[k + 1])
    {
      assert SetApart(p.runs[k], p.runs[k + 1]);
    }
  }

  // ---- sixteen-bit counters ----

  function WrapCounters(s: seq<nat>): (r: seq<U16>)
    ensures |r| == |s| && forall i | 0 <= i < |s| :: r[i] == s[i] % 0x1_0000
  {
    seq(|s|, i requires 0 <= i < |s| => s[i] % 0x1_0000)
  }

  function Wrap(run: Run): DataRun {
    DataRun(run.conversationId, run.firstMessage, WrapCounters(run.counters))
  }

  function WrapAll(runs: seq<Run>): (r: seq<DataRun>)
    ensures |r| == |runs| && forall i | 0 <= i < |runs| :: r[i] == Wrap(runs[i])
  {
    seq(|runs|, i requires 0 <= i < |runs| => Wrap(runs[i]))
  }

  /** The counters hold the numbers of messages exactly when none of those is 65536 or more. */
  lemma CountersExactIff(run: Run, n: nat)
    requires Padded(run, n)
    ensures (forall m | 0 <= m < |run.counters| :: Wrap(run).minuteCounters[m] == Count(run.dates, run.start, m))
       <==> (forall m | 0 <= m < |run.counters| :: Count(run.dates, run.start, m) < 0x1_0000)
  {
    forall m | 0 <= m < |run.counters|
      ensures run.counters[m] == Count(run.dates, run.start, m)
    {
      PaddedCounts(run, n, m);
    }
  }

  lemma PaddedCounts(run: Run, n: nat, m: nat)
    requires Padded(run, n) && m < |run.counters|
    ensures run.counters[m] == Count(run.dates, run.start, m)
  {
    var k := |run.counters| - n;
    if m < k {
      assert run.counters[..k][m] == run.counters[m];
    } else {
      assert run.counters[k..][m - k] == run.counters[m];
      CountOutside(run.dates, run.start, m);
    }
  }

  lemma {:induction false} CountSame(n: nat, date: int, start: int)
    ensures Count(seq(n, _ => date), start, MinuteOf(start, date)) == n
  {
    if n > 0 {
      CountSame(n - 1, date, start);
      assert seq(n, _ => date)[..n - 1] == seq(n - 1, _ => date);
    }
  }

  // ---- the builder ----

  datatype ProcStats = ProcStats(start: int, last: int, dataRuns: seq<DataRun>)

  ghost predicate Matches(s: ProcStats, p: Progress) {
    s.start == p.start && s.last == p.last && s.dataRuns == WrapAll(p.runs)
  }

  lemma WrapAllSnoc(runs: seq<Run>, run: Run)
    ensures WrapAll(runs + [run]) == WrapAll(runs) + [Wrap(run)]
  {
  }

  lemma WrapPad(run: Run, n: nat)
    ensures Wrap(Pad(run, n)) == Wrap(run).(minuteCounters := Wrap(run).minuteCounters + Zeros(n))
  {
    assert WrapCounters(run.counters + Zeros(n)) == WrapCounters(run.counters) + Zeros(n);
  }

  /** Raises the counter of a minute, filling up with zeros before it; the counter wraps at 65536. */
  method Raise(counters: seq<U16>, minute: nat, ghost exact: seq<nat>) returns (r: seq<U16>)
    requires counters == WrapCounters(exact)
    ensures r == WrapCounters(Tally(exact, minute))
  {
    r := counters;
    if minute >= |r| {
      var toFill := 1 + minute - |r|;
      r := r + Zeros(toFill);
    }
    var raised: int := r[minute];
    r := r[minute := (raised + 1) % 0x1_0000];
  }

  /** One message of a user. */
  method CountMessage(stats: ProcStats, hash: int, i: nat, date: int, ghost p: Progress) returns (stats': ProcStats)
    requires Matches(stats, p) && p.runs != [] && Last(p).start == p.start <= date
    ensures Matches(stats', Step(p, hash, i, date))
  {
    ghost var init, run := p.runs[..|p.runs| - 1], Last(p);
    assert p.runs == init + [run];
    WrapAllSnoc(init, run);
    var n := |stats.dataRuns| - 1;
    var others, last := stats.dataRuns[..n], stats.dataRuns[n];
    assert others == WrapAll(init) && last == Wrap(run);
    var minute := MinuteOf(stats.start, date);
    if |last.minuteCounters| + 120 < minute {
      last := last.(minuteCounters := last.minuteCounters + Zeros(60));
      WrapPad(run, 60);
      WrapAllSnoc(init, Pad(run, 60));
      var started := DataRun(hash, i, Zeros(60));
      ghost var blank := NewRun(hash, i, date);
      assert started == Wrap(blank);
      var counters := Raise(started.minuteCounters, 60, blank.counters);
      assert MinuteOf(blank.start, date) == 60;
      WrapAllSnoc(init + [Pad(run, 60)], Count1(blank, date));
      assert init + [Pad(run, 60), Count1(blank, date)] == init + [Pad(run, 60)] + [Count1(blank, date)];
      stats' := ProcStats(date - HOUR, date, others + [last] + [started.(minuteCounters := counters)]);
    } else {
      var counters := Raise(last.minuteCounters, minute, run.counters);
      WrapAllSnoc(init, Count1(run, date));
      stats' := ProcStats(stats.start, date, others + [last.(minuteCounters := counters)]);
    }
  }

  function FinishStats(stats: ProcStats, end: int): seq<DataRun>
    requires stats.dataRuns != [] && stats.last <= end
  {
    var n := |stats.dataRuns| - 1;
    var last := stats.dataRuns[n];
    stats.dataRuns[..n] + [last.(minuteCounters := last.minuteCounters + Zeros(Fill(stats.last, end)))]
  }

  lemma FinishMatches(stats: ProcStats, p: Progress, end: int)
    requires Matches(stats, p) && p.runs != [] && p.last <= end
    ensures FinishStats(stats, end) == WrapAll(Finish(p, end))
  {
    var init, run := p.runs[..|p.runs| - 1], Last(p);
    WrapPad(run, Fill(p.last, end));
    WrapAllSnoc(init, Pad(run, Fill(p.last, end)));
    assert stats.dataRuns[..|stats.dataRuns| - 1] == WrapAll(init);
  }

  /** After the first `n` messages. */
  ghost predicate Tracks(users: map<UserId, ProcStats>, c: Conversation, n: nat)
    requires Ordered(c) && n <= |c.messages|
  {
    && (forall u | u in users :: Fold(c, u, n).Some? && Matches(users[u], Fold(c, u, n).value))
    && (forall u | u !in users :: Fold(c, u, n).None?)
  }

  /** The user's entry, made if there is none, with one more message. */
  method UpdateEntry(users: map<UserId, ProcStats>, c: Conversation, i: nat) returns (stats: ProcStats)
    requires Ordered(c) && i < |c.messages| && Tracks(users, c, i)
    ensures Fold(c, c.messages[i].user, i + 1).Some? && Matches(stats, Fold(c, c.messages[i].user, i + 1).value)
  {
    var m := c.messages[i];
    ghost var prev := Fold(c, m.user, i);
    if m.user in users {
      GoodIsOrdered(prev.value);
      stats := CountMessage(users[m.user], c.hash, i, m.date, prev.value);
    } else {
      var started := DataRun(c.hash, i, Zeros(60));
      stats := ProcStats(m.date - HOUR, m.date, [started]);
      ghost var p := Begin(c.hash, i, m.date);
      WrapAllSnoc([], NewRun(c.hash, i, m.date));
      assert started == Wrap(NewRun(c.hash, i, m.date));
      stats := CountMessage(stats, c.hash, i, m.date, p);
    }
  }

  /** The runs of every user of a conversation, and of nobody else. */
  method ProcessConversation(c: Conversation) returns (result: map<UserId, seq<DataRun>>)
    requires Ordered(c)
    ensures forall u :: u in result <==> Sends(c, u)
    ensures forall u | u in result :: result[u] == WrapAll(UserRuns(c, u))
  {
    var users: map<UserId, ProcStats> := map[];
    for i := 0 to |c.messages|
      invariant Tracks(users, c, i)
    {
      var stats := UpdateEntry(users, c, i);
      users := users[c.messages[i].user := stats];
    }
    ghost var n := |c.messages|;
    forall u | u in users
      ensures users[u].dataRuns != [] && users[u].last <= c.dateLastMessage
      ensures Sends(c, u) && FinishStats(users[u], c.dateLastMessage) == WrapAll(UserRuns(c, u))
    {
      FoldSome(c, u, n);
      FinishMatches(users[u], Fold(c, u, n).value, c.dateLastMessage);
    }
    forall u | Sends(c, u) ensures u in users { FoldSome(c, u, n); }
    result := map u | u in users :: FinishStats(users[u], c.dateLastMessage);
  }

  // ---- the file's layout ----

  datatype Layout = Layout(counters: seq<U16>, lens: seq<nat>, convos: seq<int>, firsts: seq<nat>)

  /** A user's file: all counters in one list, then the runs' lengths, conversations and first messages. */
  function Flatten(runs: seq<DataRun>): Layout {
    if runs == [] then Layout([], [], [], [])
    else InFront(runs[0], Flatten(runs[1..]))
  }

  function InFront(run: DataRun, rest: Layout): Layout {
    Layout(run.minuteCounters + rest.counters, [|run.minuteCounters|] + rest.lens,
           [run.conversationId] + rest.convos, [run.firstMessage] + rest.firsts)
  }

  /** Cuts the list of counters up again; `None` stands for a panic on a file with too little in it. */
  method ParseStats(file: Layout) returns (r: Option<seq<DataRun>>)
    ensures r == Split(file)
  {
    var runs: seq<DataRun>, index: nat := [], 0;
    ghost var whole := Split(file);
    assert Rest(file, 0, 0) == file;
    assert whole.Some? ==> [] + whole.value == whole.value;
    for k := 0 to |file.lens|
      invariant index <= |file.counters| && k <= |file.convos| && k <= |file.firsts|
      invariant whole == After(runs, Split(Rest(file, index, k)))
    {
      ghost var rest := Rest(file, index, k);
      assert rest.lens[0] == file.lens[k] && rest.lens[1..] == file.lens[k + 1..];
      if index + file.lens[k] > |file.counters| || k >= |file.convos| || k >= |file.firsts| { return None; }
      var run := DataRun(file.convos[k], file.firsts[k], file.counters[index..index + file.lens[k]]);
      SplitStep(file, index, k, runs, run);
      runs, index := runs + [run], index + file.lens[k];
    }
    assert runs + [] == runs;
    r := Some(runs);
  }

  function Split(file: Layout): Option<seq<DataRun>>
    decreases |file.lens|
  {
    if file.lens == [] then Some([])
    else if |file.counters| < file.lens[0] || file.convos == [] || file.firsts == [] then None
    else
      var run := DataRun(file.convos[0], file.firsts[0], file.counters[..file.lens[0]]);
      After([run], Split(Layout(file.counters[file.lens[0]..], file.lens[1..], file.convos[1..], file.firsts[1..])))
  }

  function After(runs: seq<DataRun>, more: Option<seq<DataRun>>): Option<seq<DataRun>> {
    match more case None => None case Some(rs) => Some(runs + rs)
  }

  ghost function Rest(file: Layout, index: nat, k: nat): Layout
    requires index <= |file.counters| && k <= |file.lens| && k <= |file.convos| && k <= |file.firsts|
  {
    Layout(file.counters[index..], file.lens[k..], file.convos[k..], file.firsts[k..])
  }

  lemma SplitStep(file: Layout, index: nat, k: nat, runs: seq<DataRun>, run: DataRun)
    requires k < |file.lens| && k < |file.convos| && k < |file.firsts| && index + file.lens[k] <= |file.counters|
    requires run == DataRun(file.convos[k], file.firsts[k], file.counters[index..index + file.lens[k]])
    ensures After(runs, Split(Rest(file, index, k)))
            == After(runs + [run], Split(Rest(file, index + file.lens[k], k + 1)))
  {
    var a, b, n := Rest(file, index, k), Rest(file, index + file.lens[k], k + 1), file.lens[k];
    assert a.lens[0] == n && a.convos[0] == run.conversationId && a.firsts[0] == run.firstMessage;
    assert a.counters[..n] == run.minuteCounters;
    assert b == Layout(a.counters[n..], a.lens[1..], a.convos[1..], a.firsts[1..]);
    var more := Split(b);
    if more.Some? { assert runs + ([run] + more.value) == runs + [run] + more.value; }
  }

  /** What is written is read back. */
  lemma {:induction false} SplitFlatten(runs: seq<DataRun>)
    ensures Split(Flatten(runs)) == Some(runs)
  {
    if runs != [] {
      SplitFlatten(runs[1..]);
      SplitInFront(runs[0], Flatten(runs[1..]));
      assert [runs[0]] + runs[1..] == runs;
    }
  }

  lemma SplitInFront(run: DataRun, rest: Layout)
    ensures Split(InFront(run, rest)) == After([run], Split(rest))
  {
    var file, n := InFront(run, rest), |run.minuteCounters|;
    assert file.counters[..n] == run.minuteCounters && file.counters[n..] == rest.counters;
    assert file.lens[1..] == rest.lens && file.convos[1..] == rest.convos && file.firsts[1..] == rest.firsts;
  }

  /** Where the counters of run `k` start in the file. */
  ghost function Offset(lens: seq<nat>, k: nat): nat
    requires k <= |lens|
  {
    if k == 0 then 0 else lens[0] + Offset(lens[1..], k - 1)
  }

  lemma {:induction false} OffsetGrows(lens: seq<nat>, k: nat)
    requires k < |lens|
    ensures Offset(lens, k) + lens[k] == Offset(lens, k + 1) <= Offset(lens, |lens|)
    decreases |lens|, |lens| - k
  {
    if k > 0 { OffsetGrows(lens[1..], k - 1); }
    if k + 1 < |lens| { OffsetGrows(lens, k + 1); }
  }

  /** Run `k` as it stands in the file. */
  ghost predicate StandsAt(file: Layout, k: nat, run: DataRun) {
    && k < |file.lens| && k < |file.convos| && k < |file.firsts| && Offset(file.lens, k + 1) <= |file.counters|
    && Offset(file.lens, k) <= Offset(file.lens, k + 1)
    && run == DataRun(file.convos[k], file.firsts[k], file.counters[Offset(file.lens, k)..Offset(file.lens, k + 1)])
  }

  /** The file holds the runs one behind the other, and nothing else. */
  lemma {:induction false} FlattenLayout(runs: seq<DataRun>)
    ensures var file := Flatten(runs);
            && |file.lens| == |file.convos| == |file.firsts| == |runs|
            && |file.counters| == Offset(file.lens, |runs|)
            && forall k | 0 <= k < |runs| :: StandsAt(file, k, runs[k])
  {
    if runs != [] {
      var rest := Flatten(runs[1..]);
      FlattenLayout(runs[1..]);
      assert Flatten(runs).lens[1..] == rest.lens;
      AllStand(runs[0], rest, runs[1..]);
      assert runs == [runs[0]] + runs[1..];
    }
  }

  lemma AllStand(run: DataRun, rest: Layout, runs: seq<DataRun>)
    requires forall k | 0 <= k < |runs| :: StandsAt(rest, k, runs[k])
    ensures forall k | 0 <= k <= |runs| :: StandsAt(InFront(run, rest), k, ([run] + runs)[k])
  {
    var file := InFront(run, rest);
    OffsetGrows(file.lens, 0);
    assert file.counters[..file.lens[0]] == run.minuteCounters;
    forall k | 0 < k <= |runs|
      ensures StandsAt(file, k, ([run] + runs)[k])
    {
      assert StandsAt(rest, k - 1, runs[k - 1]);
      InFrontStands(run, rest, k - 1, runs[k - 1]);
    }
  }

  lemma InFrontStands(run: DataRun, rest: Layout, k: nat, r: DataRun)
    requires StandsAt(rest, k, r)
    ensures StandsAt(InFront(run, rest), k + 1, r)
  {
    var file, n := InFront(run, rest), |run.minuteCounters|;
    assert file.lens[1..] == rest.lens;
    var a, b := Offset(rest.lens, k), Offset(rest.lens, k + 1);
    assert file.counters[n + a..n + b] == rest.counters[a..b];
  }

  /** The reader gets through exactly if no list is too short, and then has each run from its place. */
  lemma {:induction false} SplitIff(file: Layout)
    ensures Split(file).Some? <==>
              && Offset(file.lens, |file.lens|) <= |file.counters|
              && |file.lens| <= |file.convos| && |file.lens| <= |file.firsts|
    ensures Split(file).Some? ==>
              && |Split(file).value| == |file.lens|
              && forall k | 0 <= k < |file.lens| :: StandsAt(file, k, Split(file).value[k])
    decreases |file.lens|
  {
    if file.lens != [] && file.lens[0] <= |file.counters| && file.convos != [] && file.firsts != [] {
      var n := file.lens[0];
      var run := DataRun(file.convos[0], file.firsts[0], file.counters[..n]);
      var rest := Layout(file.counters[n..], file.lens[1..], file.convos[1..], file.firsts[1..]);
      SplitIff(rest);
      assert file == InFront(run, rest);
      SplitInFront(run, rest);
      if Split(rest).Some? { AllStand(run, rest, Split(rest).value); }
    }
  }

  // ---- the reader's checks ----

  function TrailingZeros(s: seq<U16>): (n: nat)
    ensures n <= |s| && (forall i | |s| - n <= i < |s| :: s[i] == 0) && (n < |s| ==> s[|s| - n - 1] > 0)
  {
    if s == [] || s[|s| - 1] > 0 then 0 else 1 + TrailingZeros(s[..|s| - 1])
  }

  /** Cuts off the zeros at both ends; `None` stands for a failed assertion or a panic. */
  function Trim(counters: seq<U16>): Option<seq<U16>> {
    if |counters| < 60 || counters[..60] != Zeros(60) then None
    else
      var minutes := counters[60..];
      var n := TrailingZeros(minutes);
      if n == |minutes| || n > 60 then None else Some(minutes[..|minutes| - n])
  }

  /** What the reader's checks come to: an hour of zeros, and a counter that is not zero within the last 61. */
  lemma TrimIff(w: seq<U16>)
    ensures Trim(w).Some? <==>
              |w| >= 60 && w[..60] == Zeros(60) && exists m | 60 <= m < |w| && m >= |w| - 61 :: w[m] > 0
    ensures Trim(w).Some? ==>
              var minutes := Trim(w).value;
              && minutes != [] && minutes[|minutes| - 1] > 0 && 60 + |minutes| <= |w|
              && w == Zeros(60) + minutes + Zeros(|w| - 60 - |minutes|)
  {
    if |w| >= 60 && w[..60] == Zeros(60) {
      var minutes := w[60..];
      var n := TrailingZeros(minutes);
      assert n < |minutes| ==> w[|w| - n - 1] > 0;
      forall m | |w| - n <= m < |w| ensures w[m] == 0 { assert minutes[m - 60] == 0; }
    }
  }

  /** Some minute among the last 61 of a run has a number of messages that is not a multiple of 65536. */
  ghost predicate SomeLateCount(run: Run) {
    exists m | 60 <= m < |run.counters| && m >= |run.counters| - 61 :: Count(run.dates, run.start, m) % 0x1_0000 != 0
  }

  lemma LeadingZeros(run: Run, n: nat)
    requires Padded(run, n)
    ensures |run.counters| - n >= 61 && Wrap(run).minuteCounters[..60] == Zeros(60)
  {
    var open := run.(counters := run.counters[..|run.counters| - n]);
    OpenEnds(open);
    forall m | 0 <= m < 60 ensures run.counters[m] == 0 { assert open.counters[..60][m] == 0; }
  }

  /**
    Exactly when a run passes the reader's checks; and without a wrapped counter it does, leaving
    the minutes from its first to its last message.
  */
  lemma ReaderAccepts(run: Run, n: nat)
    requires Padded(run, n) && n <= 60
    ensures Trim(Wrap(run).minuteCounters).Some? <==> SomeLateCount(run)
    ensures |run.counters| - n >= 61
    ensures (forall m | 0 <= m < |run.counters| :: Count(run.dates, run.start, m) < 0x1_0000) ==>
              Trim(Wrap(run).minuteCounters) == Some(WrapCounters(run.counters[60..|run.counters| - n]))
  {
    var w := Wrap(run).minuteCounters;
    LeadingZeros(run, n);
    TrimIff(w);
    forall m | 0 <= m < |w| ensures w[m] == Count(run.dates, run.start, m) % 0x1_0000 { PaddedCounts(run, n, m); }
    if forall m | 0 <= m < |run.counters| :: Count(run.dates, run.start, m) < 0x1_0000 {
      ReaderLeaves(run, n);
    }
  }

  lemma ReaderLeaves(run: Run, n: nat)
    requires Padded(run, n) && n <= 60
    requires forall m | 0 <= m < |run.counters| :: Count(run.dates, run.start, m) < 0x1_0000
    ensures |run.counters| - n >= 61
    ensures Trim(Wrap(run).minuteCounters) == Some(WrapCounters(run.counters[60..|run.counters| - n]))
  {
    var k := |run.counters| - n;
    OpenEnds(run.(counters := run.counters[..k]));
    WrapEnds(run, n);
    var w := Wrap(run).minuteCounters;
    TrailingIs(w[60..], n);
    assert w[60..][..k - 60] == WrapCounters(run.counters[60..k]);
  }

  lemma WrapEnds(run: Run, n: nat)
    requires Padded(run, n) && |run.counters| - n >= 61
    requires forall m | 0 <= m < |run.counters| :: Count(run.dates, run.start, m) < 0x1_0000
    ensures var w := Wrap(run).minuteCounters;
            && w[..60] == Zeros(60) && w[|w| - n - 1] > 0 && forall m | |w| - n <= m < |w| :: w[m] == 0
  {
    var w, k := Wrap(run).minuteCounters, |run.counters| - n;
    var open := run.(counters := run.counters[..k]);
    OpenEnds(open);
    PaddedCounts(run, n, k - 1);
    assert open.counters[k - 1] == run.counters[k - 1];
    forall m | 0 <= m < 60 ensures w[m] == 0 { assert open.counters[..60][m] == 0; }
    forall m | k <= m < |w| ensures w[m] == 0 { assert run.counters[k..][m - k] == 0; }
  }

  lemma TrailingIs(s: seq<U16>, n: nat)
    requires n < |s| && s[|s| - n - 1] > 0 && forall i | |s| - n <= i < |s| :: s[i] == 0
    ensures TrailingZeros(s) == n
  {
  }

  /** Exactly which of the builder's runs pass the reader's checks; among them all without a wrapped counter. */
  lemma RunPassesIff(c: Conversation, u: UserId, k: nat)
    requires Ordered(c) && Sends(c, u) && k < |UserRuns(c, u)|
    ensures Trim(Wrap(UserRuns(c, u)[k]).minuteCounters).Some? <==> SomeLateCount(UserRuns(c, u)[k])
    ensures var run := UserRuns(c, u)[k];
            (forall m | 0 <= m < |run.counters| :: Count(run.dates, run.start, m) < 0x1_0000) ==> SomeLateCount(run)
  {
    RunsAreExact(c, u);
    var runs := UserRuns(c, u);
    if k < |runs| - 1 {
      ReaderAccepts(runs[k], 60);
    } else {
      var dates := runs[k].dates;
      ReaderAccepts(runs[k], Fill(dates[|dates| - 1], c.dateLastMessage));
    }
  }

  // ---- a minute of 65536 messages ----

  /** One user's messages, `n` of them at the same moment. */
  function Burst(n: nat, hash: int, date: int, u: UserId): Conversation {
    Conversation(hash, date, seq(n, _ => Message(date, u)))
  }

  lemma {:induction false} BurstFold(n: nat, k: nat, hash: int, date: int, u: UserId)
    requires Ordered(Burst(n, hash, date, u)) && 0 < k <= n
    ensures var r := Fold(Burst(n, hash, date, u), u, k);
            && r.Some? && r.value.start == date - HOUR && r.value.last == date && |r.value.runs| == 1
            && r.value.runs[0].start == date - HOUR && r.value.runs[0].dates == seq(k, _ => date)
  {
    var c := Burst(n, hash, date, u);
    assert c.messages[k - 1] == Message(date, u);
    if k == 1 {
      BeginGood(hash, 0, date);
      assert seq(1, _ => date) == [date];
    } else {
      BurstFold(n, k - 1, hash, date, u);
      var p := Fold(c, u, k - 1).value;
      assert !Parted(Last(p), date);
      assert seq(k - 1, _ => date) + [date] == seq(k, _ => date);
    }
  }

  /**
    65536 messages of one user at one moment, or any multiple of that, leave no trace: all the
    counters stored for that user are zero, and the reader fails on them.
  */
  lemma Overflow(n: nat, hash: int, date: int, u: UserId)
    requires n > 0 && n % 0x1_0000 == 0
    ensures var c := Burst(n, hash, date, u);
            && Ordered(c) && Sends(c, u) && |UserRuns(c, u)| == 1
            && var stored := WrapAll(UserRuns(c, u))[0].minuteCounters;
               (forall m | 0 <= m < |stored| :: stored[m] == 0) && Trim(stored).None?
  {
    var c := Burst(n, hash, date, u);
    assert c.messages[0].user == u;
    BurstFold(n, n, hash, date, u);
    RunsAreExact(c, u);
    BurstCounts(UserRuns(c, u)[0], n, date, Fill(date, date));
  }

  lemma BurstCounts(run: Run, n: nat, date: int, t: nat)
    requires Padded(run, t) && t <= 60 && n % 0x1_0000 == 0
    requires run.start == date - HOUR && run.dates == seq(n, _ => date)
    ensures forall m | 0 <= m < |run.counters| :: Wrap(run).minuteCounters[m] == 0
    ensures Trim(Wrap(run).minuteCounters).None?
  {
    forall m | 0 <= m < |run.counters|
      ensures Count(run.dates, run.start, m) % 0x1_0000 == 0 && Wrap(run).minuteCounters[m] == 0
    {
      PaddedCounts(run, t, m);
      if m == MinuteOf(run.start, date) {
        CountSame(n, date, run.start);
      } else {
        CountOutside(run.dates, run.start, m);
      }
    }
    ReaderAccepts(run, t);
  }

  function Sum(s: seq<nat>): nat {
    if s == [] then 0 else Sum(s[..|s| - 1]) + s[|s| - 1]
  }

  /** Taken together, the counters of a run count each of its messages once. */
  lemma CountersTotal(run: Run, n: nat)
    requires Padded(run, n)
    ensures Sum(run.counters) == |run.dates|
  {
    var end := |run.counters|;
    forall m | 0 <= m < end ensures run.counters[m] == Count(run.dates, run.start, m) { PaddedCounts(run, n, m); }
    forall i | 0 <= i < |run.dates|
      ensures 0 <= MinuteOf(run.start, run.dates[i]) < end
    {
      var open := run.(counters := run.counters[..end - n]);
      assert open.dates[0] <= open.dates[i] <= open.dates[|open.dates| - 1];
    }
    SumOfCounts(run.counters, run.dates, run.start);
  }

  /** Splitting off the last date splits one off a counter. */
  lemma {:induction false} SumOfCounts(s: seq<nat>, dates: seq<int>, start: int)
    requires forall i | 0 <= i < |dates| :: 0 <= MinuteOf(start, dates[i]) < |s|
    requires forall m | 0 <= m < |s| :: s[m] == Count(dates, start, m)
    ensures Sum(s) == |dates|
    decreases |dates|
  {
    if dates == [] {
      SumZero(s);
    } else {
      var minute := MinuteOf(start, dates[|dates| - 1]);
      CountHit(dates, start, |dates| - 1);
      var s' := s[minute := s[minute] - 1];
      SumOfCounts(s', dates[..|dates| - 1], start);
      SumUpdate(s, minute);
    }
  }

  lemma {:induction false} SumZero(s: seq<nat>)
    requires forall m | 0 <= m < |s| :: s[m] == 0
    ensures Sum(s) == 0
  {
    if s != [] { SumZero(s[..|s| - 1]); }
  }

  lemma {:induction false} SumUpdate(s: seq<nat>, m: nat)
    requires m < |s| && s[m] > 0
    ensures Sum(s) == Sum(s[m := s[m] - 1]) + 1
  {
    var s' := s[m := s[m] - 1];
    if m < |s| - 1 {
      SumUpdate(s[..|s| - 1], m);
      assert s'[..|s| - 1] == s[..|s| - 1][m := s[m] - 1];
    } else {
      assert s'[..|s| - 1] == s[..|s| - 1];
    }
  }
}
