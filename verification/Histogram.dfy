/**
  The histogram builder: it splits each user's messages of a conversation into runs of per-minute
  counters, padded with zeros. Times are in milliseconds.
*/
module Histogram {
  import opened Options
  import opened Bytes

  type UserId = int

  const MINUTE := 60_000
  const HOUR := 60 * MINUTE

  datatype Message = Message(date: int, user: UserId)

  datatype Conversation = Conversation(hash: int, dateLastMessage: int, messages: seq<Message>)

  datatype DataRun = DataRun(conversationId: int, firstMessage: nat, minuteCounters: seq<U16>)

  /** Messages in order of time, none after the conversation's last date. */
  ghost predicate Ordered(c: Conversation) {
    && (forall i, j | 0 <= i <= j < |c.messages| :: c.messages[i].date <= c.messages[j].date)
    && (forall i | 0 <= i < |c.messages| :: c.messages[i].date <= c.dateLastMessage)
  }

  // ---- runs with exact counters, and the dates they count ----

  datatype Run = Run(conversationId: int, firstMessage: nat, start: int, dates: seq<int>, counters: seq<nat>)

  datatype Progress = Progress(start: int, last: int, runs: seq<Run>)

  /** Whole minutes between two times, in milliseconds. */
  function MinuteOf(start: int, date: int): (m: int)
    ensures 60_000 * m <= date - start < 60_000 * (m + 1)
  {
    (date - start) / MINUTE
  }

  function NewRun(hash: int, i: nat, date: int): Run {
    Run(hash, i, date - HOUR, [], Zeros(60))
  }

  /** A counter is raised, after zeros up to it if it is not there yet. */
  function Tally(counters: seq<nat>, minute: nat): (r: seq<nat>)
    ensures |r| == if minute < |counters| then |counters| else minute + 1
    ensures forall m | 0 <= m < |r| ::
              r[m] == (if m < |counters| then counters[m] else 0) + (if m == minute then 1 else 0)
  {
    var filled := if minute < |counters| then counters else counters + Zeros(1 + minute - |counters|);
    filled[minute := filled[minute] + 1]
  }

  function Last(p: Progress): Run
    requires p.runs != []
  {
    p.runs[|p.runs| - 1]
  }

  function Count1(run: Run, date: int): Run
    requires run.start <= date
  {
    run.(dates := run.dates + [date], counters := Tally(run.counters, MinuteOf(run.start, date)))
  }

  function Pad(run: Run, n: nat): Run {
    run.(counters := run.counters + Zeros(n))
  }

  /** More than two hours without a message since the last minute counted. */
  predicate Parted(run: Run, date: int) {
    |run.counters| + 120 < MinuteOf(run.start, date)
  }

  /** At least 121 whole minutes, counted from a run's start, lie between the minutes of two dates. */
  predicate Silence(start: int, date: int, next: int) {
    MinuteOf(start, next) > MinuteOf(start, date) + 121
  }

  /** No such silence inside a run. */
  ghost predicate Joined(run: Run) {
    forall i | 0 <= i < |run.dates| - 1 :: !Silence(run.start, run.dates[i], run.dates[i + 1])
  }

  /** There is one between a run and the next. */
  ghost predicate SetApart(run: Run, next: Run) {
    run.dates != [] && next.dates != [] && Silence(run.start, run.dates[|run.dates| - 1], next.dates[0])
  }

  /** Runs end exactly at the silences. */
  ghost predicate WellSplit(runs: seq<Run>) {
    && (forall k | 0 <= k < |runs| :: Joined(runs[k]))
    && (forall k | 0 <= k < |runs| - 1 :: SetApart(runs[k], runs[k + 1]))
  }

  /** A user's next message. */
  function Step(p: Progress, hash: int, i: nat, date: int): Progress
    requires p.runs != [] && Last(p).start == p.start <= date
  {
    var init, run := p.runs[..|p.runs| - 1], Last(p);
    if Parted(run, date)
    then Progress(date - HOUR, date, init + [Pad(run, 60), Count1(NewRun(hash, i, date), date)])
    else Progress(p.start, date, init + [Count1(run, date)])
  }

  function Begin(hash: int, i: nat, date: int): Progress {
    Progress(date - HOUR, date, [NewRun(hash, i, date)])
  }

  // ---- what a run means ----

  /** How many of these dates fall into minute `m` after `start`. */
  function Count(dates: seq<int>, start: int, m: int): nat {
    if dates == [] then 0
    else Count(dates[..|dates| - 1], start, m) + if MinuteOf(start, dates[|dates| - 1]) == m then 1 else 0
  }

  ghost predicate Sorted(dates: seq<int>) {
    forall i, j | 0 <= i <= j < |dates| :: dates[i] <= dates[j]
  }

  /** Among the minutes after the leading hour, no 121 in a row are zero. */
  ghost predicate NoGap(counters: seq<nat>) {
    forall a | 60 <= a <= |counters| - 121 :: Busy(counters, a)
  }

  ghost predicate Busy(counters: seq<nat>, a: nat)
    requires a + 121 <= |counters|
  {
    exists k | a <= k < a + 121 :: counters[k] > 0
  }

  /** A run that ends with its latest message: exact counters for its dates, the first of them at minute 60. */
  ghost predicate Open(run: Run) {
    && run.dates != [] && Sorted(run.dates) && run.dates[0] == run.start + HOUR
    && |run.counters| == MinuteOf(run.start, run.dates[|run.dates| - 1]) + 1
    && (forall m | 0 <= m < |run.counters| :: run.counters[m] == Count(run.dates, run.start, m))
    && NoGap(run.counters)
  }

  /** A run followed by `n` minutes of zeros. */
  ghost predicate Padded(run: Run, n: nat) {
    && n <= |run.counters| && run.counters[|run.counters| - n..] == Zeros(n)
    && Open(run.(counters := run.counters[..|run.counters| - n]))
  }

  lemma CountSnoc(dates: seq<int>, date: int, start: int, m: int)
    ensures Count(dates + [date], start, m) == Count(dates, start, m) + if MinuteOf(start, date) == m then 1 else 0
  {
    assert (dates + [date])[..|dates|] == dates;
  }

  /** Nothing is counted outside the minutes between the first and the last date. */
  lemma {:induction false} CountOutside(dates: seq<int>, start: int, m: int)
    requires Sorted(dates) && dates != []
    requires m < MinuteOf(start, dates[0]) || m > MinuteOf(start, dates[|dates| - 1])
    ensures Count(dates, start, m) == 0
  {
    var init := dates[..|dates| - 1];
    if init != [] { CountOutside(init, start, m); }
  }

  /** The minute of any of the dates is not zero. */
  lemma {:induction false} CountHit(dates: seq<int>, start: int, i: nat)
    requires i < |dates|
    ensures Count(dates, start, MinuteOf(start, dates[i])) > 0
  {
    if i < |dates| - 1 { CountHit(dates[..|dates| - 1], start, i); }
  }

  lemma OpenEnds(run: Run)
    requires Open(run)
    ensures |run.counters| >= 61 && run.counters[..60] == Zeros(60) && run.counters[60] > 0
    ensures run.counters[|run.counters| - 1] > 0
  {
    var n := |run.dates|;
    assert run.dates[0] <= run.dates[n - 1];
    CountHit(run.dates, run.start, 0);
    CountHit(run.dates, run.start, n - 1);
    forall m | 0 <= m < 60 ensures run.counters[m] == 0 { CountOutside(run.dates, run.start, m); }
  }

  // ---- what every message keeps ----

  lemma OpenNew(hash: int, i: nat, date: int)
    ensures Open(Count1(NewRun(hash, i, date), date))
  {
    var run := NewRun(hash, i, date);
    var run' := Count1(run, date);
    assert MinuteOf(run.start, date) == 60;
    assert run'.dates == [date];
    forall m | 0 <= m < |run'.counters|
      ensures run'.counters[m] == Count(run'.dates, run'.start, m)
    {
      CountSnoc(run.dates, date, run.start, m);
    }
  }

  lemma TallyNoGap(counters: seq<nat>, minute: nat)
    requires counters != [] && NoGap(counters) && counters[|counters| - 1] > 0
    requires |counters| - 1 <= minute <= |counters| + 120
    ensures NoGap(Tally(counters, minute))
  {
    var r := Tally(counters, minute);
    forall a | 60 <= a <= |r| - 121
      ensures Busy(r, a)
    {
      if a + 121 <= |counters| {
        assert Busy(counters, a);
        var k :| a <= k < a + 121 && counters[k] > 0;
        assert r[k] > 0;
      } else if a < |counters| {
        assert r[|counters| - 1] > 0;
      } else {
        assert r[minute] > 0;
      }
    }
  }

  lemma TallyCounts(run: Run, date: int)
    requires Open(run) && run.dates[|run.dates| - 1] <= date
    ensures var run' := Count1(run, date);
            forall m | 0 <= m < |run'.counters| :: run'.counters[m] == Count(run'.dates, run.start, m)
  {
    var run' := Count1(run, date);
    forall m | 0 <= m < |run'.counters|
      ensures run'.counters[m] == Count(run'.dates, run.start, m)
    {
      CountSnoc(run.dates, date, run.start, m);
      if m >= |run.counters| { CountOutside(run.dates, run.start, m); }
    }
  }

  lemma OpenStep(run: Run, date: int)
    requires Open(run) && run.dates[|run.dates| - 1] <= date && !Parted(run, date)
    ensures Open(Count1(run, date))
  {
    OpenEnds(run);
    TallyNoGap(run.counters, MinuteOf(run.start, date));
    TallyCounts(run, date);
  }

  lemma PadKeeps(run: Run, n: nat)
    requires Open(run)
    ensures Padded(Pad(run, n), n)
  {
    var c := run.counters + Zeros(n);
    assert c[..|c| - n] == run.counters && c[|c| - n..] == Zeros(n);
  }

  /** All runs but the last are followed by an hour of zeros; the last one is still open. */
  ghost predicate Good(p: Progress) {
    && p.runs != [] && Open(Last(p)) && Last(p).start == p.start
    && p.last == Last(p).dates[|Last(p).dates| - 1]
    && (forall k | 0 <= k < |p.runs| - 1 :: Padded(p.runs[k], 60))
  }

  lemma GoodIsOrdered(p: Progress)
    requires Good(p)
    ensures p.start + HOUR <= p.last
  {
    assert Last(p).dates[0] <= p.last;
  }

  lemma StepGood(p: Progress, hash: int, i: nat, date: int)
    requires Good(p) && p.last <= date
    ensures p.start <= date && Good(Step(p, hash, i, date))
  {
    GoodIsOrdered(p);
    if Parted(Last(p), date) {
      PadKeeps(Last(p), 60);
      OpenNew(hash, i, date);
    } else {
      OpenStep(Last(p), date);
    }
  }

  lemma BeginGood(hash: int, i: nat, date: int)
    ensures Step(Begin(hash, i, date), hash, i, date).runs == [Count1(NewRun(hash, i, date), date)]
    ensures Good(Step(Begin(hash, i, date), hash, i, date))
  {
    OpenNew(hash, i, date);
  }

  lemma PartedIsSilence(run: Run, date: int)
    requires Open(run)
    ensures Parted(run, date) <==> Silence(run.start, run.dates[|run.dates| - 1], date)
  {
  }

  lemma JoinedSnoc(run: Run, date: int)
    requires Open(run) && Joined(run) && !Parted(run, date) && run.start <= date
    ensures Joined(Count1(run, date))
  {
    PartedIsSilence(run, date);
  }

  lemma StepSplits(p: Progress, hash: int, i: nat, date: int)
    requires Good(p) && p.start <= date && WellSplit(p.runs)
    ensures WellSplit(Step(p, hash, i, date).runs)
  {
    var init, run, runs := p.runs[..|p.runs| - 1], Last(p), Step(p, hash, i, date).runs;
    PartedIsSilence(run, date);
    if !Parted(run, date) { JoinedSnoc(run, date); }
    forall k | 0 <= k < |runs|
      ensures Joined(runs[k])
    {
      assert k < |p.runs| ==> Joined(p.runs[k]);
    }
    forall k | 0 <= k < |runs| - 1
      ensures SetApart(runs[k], runs[k + 1])
    {
      assert k < |p.runs| - 1 ==> SetApart(p.runs[k], p.runs[k + 1]);
      assert k == |p.runs| - 2 ==> runs[k + 1].dates[0] == p.runs[k + 1].dates[0];
    }
  }

  // ---- a whole conversation ----

  /** A user's progress after the first `n` messages. */
  ghost function Fold(c: Conversation, u: UserId, n: nat): (r: Option<Progress>)
    requires Ordered(c) && n <= |c.messages|
    ensures r.Some? ==> Good(r.value) && n > 0 && r.value.last <= c.messages[n - 1].date
  {
    if n == 0 then None
    else
      var prev, m := Fold(c, u, n - 1), c.messages[n - 1];
      if m.user != u then prev
      else if prev.None? then
        BeginGood(c.hash, n - 1, m.date);
        Some(Step(Begin(c.hash, n - 1, m.date), c.hash, n - 1, m.date))
      else StepGood(prev.value, c.hash, n - 1, m.date); Some(Step(prev.value, c.hash, n - 1, m.date))
  }

  /** The user's dates among the first `n` messages. */
  function UserDates(c: Conversation, u: UserId, n: nat): seq<int>
    requires n <= |c.messages|
  {
    if n == 0 then []
    else UserDates(c, u, n - 1) + if c.messages[n - 1].user == u then [c.messages[n - 1].date] else []
  }

  function AllDates(runs: seq<Run>): seq<int> {
    if runs == [] then [] else AllDates(runs[..|runs| - 1]) + runs[|runs| - 1].dates
  }

  lemma AllDatesSnoc(runs: seq<Run>, run: Run)
    ensures AllDates(runs + [run]) == AllDates(runs) + run.dates
  {
    assert (runs + [run])[..|runs|] == runs;
  }

  lemma StepDates(p: Progress, hash: int, i: nat, date: int)
    requires p.runs != [] && Last(p).start == p.start <= date
    ensures AllDates(Step(p, hash, i, date).runs) == AllDates(p.runs) + [date]
  {
    var init, run := p.runs[..|p.runs| - 1], Last(p);
    if Parted(run, date) {
      var started := Count1(NewRun(hash, i, date), date);
      AllDatesSnoc(init + [Pad(run, 60)], started);
      AllDatesSnoc(init, Pad(run, 60));
      assert init + [Pad(run, 60), started] == init + [Pad(run, 60)] + [started];
    } else {
      AllDatesSnoc(init, Count1(run, date));
    }
  }

  /** The runs hold the user's messages, each once and in order. */
  lemma {:induction false} FoldDates(c: Conversation, u: UserId, n: nat)
    requires Ordered(c) && n <= |c.messages|
    ensures UserDates(c, u, n) == match Fold(c, u, n) case None => [] case Some(p) => AllDates(p.runs)
  {
    if n > 0 {
      FoldDates(c, u, n - 1);
      var prev, m := Fold(c, u, n - 1), c.messages[n - 1];
      if m.user == u {
        if prev.None? {
          BeginGood(c.hash, n - 1, m.date);
          AllDatesSnoc([], Count1(NewRun(c.hash, n - 1, m.date), m.date));
        } else {
          GoodIsOrdered(prev.value);
          StepDates(prev.value, c.hash, n - 1, m.date);
        }
      }
    }
  }

  /** A user's runs end exactly where at least 121 whole minutes are empty. */
  lemma {:induction false} FoldSplits(c: Conversation, u: UserId, n: nat)
    requires Ordered(c) && n <= |c.messages|
    ensures Fold(c, u, n).Some? ==> WellSplit(Fold(c, u, n).value.runs)
  {
    if n > 0 {
      FoldSplits(c, u, n - 1);
      var prev, m := Fold(c, u, n - 1), c.messages[n - 1];
      if m.user == u {
        if prev.None? {
          BeginGood(c.hash, n - 1, m.date);
        } else {
          GoodIsOrdered(prev.value);
          StepSplits(prev.value, c.hash, n - 1, m.date);
        }
      }
    }
  }
}
