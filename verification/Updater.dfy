/**
  The "latest value only" channel: a mutex-guarded slot and a notification, shared by any number
  of clones. Values are named by the order in which they were sent.
*/
module Updater {
  import opened Options
  import opened Sequences

  /**
    `locked`: a sender holds the mutex between storing its value and notifying. A receiver is in
    `waiters` while parked, in `notified` once a notification is its own but it has not run again,
    and in `running` between its wait and its look at the slot.
  */
  datatype State = State(
    slot: Option<nat>,
    locked: bool,
    permit: bool,
    waiters: seq<nat>,
    notified: set<nat>,
    running: set<nat>,
    sent: nat,
    received: seq<nat>)

  datatype Action =
    | Store
    | Notify
    | Wait(r: nat)
    | Resume(r: nat)
    | Look(r: nat)
    | Cancel(r: nat)
    | MaybeRecv

  const Initial := State(None, false, false, [], {}, {}, 0, [])

  predicate Enabled(s: State, a: Action) {
    match a
    case Store => !s.locked
    case Notify => s.locked
    case Wait(r) => r !in s.waiters && r !in s.notified && r !in s.running
    case Resume(r) => r in s.notified
    case Look(r) => r in s.running && !s.locked
    case Cancel(r) => r in s.waiters || r in s.notified
    case MaybeRecv => !s.locked
  }

  /** The first parked receiver gets the notification; with nobody parked it is stored as a permit. */
  function NotifyOne(s: State): State {
    if s.waiters == [] then s.(permit := true)
    else s.(waiters := s.waiters[1..], notified := s.notified + {s.waiters[0]})
  }

  /** Takes the value in the slot, if there is one. */
  function Take(s: State): State {
    match s.slot
    case None => s
    case Some(v) => s.(slot := None, received := s.received + [v])
  }

  function Next(s: State, a: Action): State
    requires Enabled(s, a)
  {
    match a
    case Store => s.(slot := Some(s.sent), sent := s.sent + 1, locked := true)
    case Notify => NotifyOne(s.(locked := false))
    case Wait(r) => if s.permit then s.(permit := false, running := s.running + {r}) else s.(waiters := s.waiters + [r])
    case Resume(r) => s.(notified := s.notified - {r}, running := s.running + {r})
    // a receiver that finds the slot empty goes round its loop and waits again
    case Look(r) => Take(s.(running := s.running - {r}))
    // a notification that a cancelled receiver had not used is passed on
    case Cancel(r) =>
      if r in s.notified then NotifyOne(s.(notified := s.notified - {r})) else s.(waiters := Without(s.waiters, r))
    case MaybeRecv => Take(s)
  }

  ghost predicate Runs(s: State, actions: seq<Action>, s': State)
    decreases |actions|
  {
    if actions == [] then s == s'
    else Enabled(s, actions[0]) && Runs(Next(s, actions[0]), actions[1..], s')
  }

  // ---- what every step keeps ----

  /**
    A pending value has a notification stored, in flight, or about to be made; none is stored
    past a parked receiver.
  */
  ghost predicate NoLostWakeup(s: State) {
    && (s.slot.Some? ==> s.permit || s.notified != {} || s.running != {} || s.locked)
    && (s.permit ==> s.waiters == [])
  }

  /**
    Values were received at most once and in the order sent; a pending value is the latest sent, and
    new, and none is pending only if the latest has been received.
  */
  ghost predicate LatestOnly(s: State) {
    && (s.slot.None? ==> s.sent == 0 || s.sent - 1 in s.received)
    && Increasing(s.received) && (forall i | 0 <= i < |s.received| :: s.received[i] < s.sent)
    && (s.slot.Some? ==> s.slot.value == s.sent - 1 && forall i | 0 <= i < |s.received| :: s.received[i] < s.slot.value)
  }

  ghost predicate Inv(s: State) {
    NoLostWakeup(s) && LatestOnly(s)
  }

  lemma NotifyKeeps(s: State)
    requires LatestOnly(s) && (s.permit ==> s.waiters == [])
    ensures Inv(NotifyOne(s))
  {
    assert s.waiters != [] ==> s.waiters[0] in NotifyOne(s).notified;
  }

  lemma TakeKeeps(s: State)
    requires LatestOnly(s)
    ensures LatestOnly(Take(s)) && Take(s).slot.None?
  {
    if s.slot.Some? { assert Take(s).received[|s.received|] == s.sent - 1; }
  }

  lemma NextKeeps(s: State, a: Action)
    requires Inv(s) && Enabled(s, a)
    ensures Inv(Next(s, a))
  {
    match a
    case Store =>
    case Notify => NotifyKeeps(s.(locked := false));
    case Wait(r) => assert s.permit ==> r in Next(s, a).running;
    case Resume(r) => assert r in Next(s, a).running;
    case Look(r) => TakeKeeps(s.(running := s.running - {r}));
    case Cancel(r) => if r in s.notified { NotifyKeeps(s.(notified := s.notified - {r})); }
    case MaybeRecv => TakeKeeps(s);
  }

  lemma {:induction false} RunKeeps(s: State, actions: seq<Action>, s': State)
    requires Inv(s) && Runs(s, actions, s')
    ensures Inv(s')
    decreases |actions|
  {
    if actions != [] {
      NextKeeps(s, actions[0]);
      RunKeeps(Next(s, actions[0]), actions[1..], s');
    }
  }

  /** Over every interleaving, on any number of clones and with cancelled receivers: no wakeup is lost. */
  lemma ReachableKeeps(actions: seq<Action>, s: State)
    requires Runs(Initial, actions, s)
    ensures Inv(s)
    ensures s.slot.Some? && s.waiters != [] ==> s.notified != {} || s.running != {} || s.locked
  {
    RunKeeps(Initial, actions, s);
  }

  /** A receive gets the value most recently sent, and nobody has had it before. */
  lemma ReceivesLatest(actions: seq<Action>, s: State, a: Action)
    requires Runs(Initial, actions, s) && Enabled(s, a)
    ensures var s' := Next(s, a);
            s'.received != s.received ==>
              (a.Look? || a.MaybeRecv?) && s.sent > 0 && s'.received == s.received + [s.sent - 1]
                  && s.sent - 1 !in s.received
  {
    RunKeeps(Initial, actions, s);
  }

  /**
    A look or a `maybe_recv` receives exactly if the latest value sent has not been received yet: it
    gets that value, and leaves none behind. Otherwise it changes nothing but the one who looked.
  */
  lemma TakesIff(actions: seq<Action>, s: State, a: Action)
    requires Runs(Initial, actions, s) && Enabled(s, a) && (a.Look? || a.MaybeRecv?)
    ensures var s' := Next(s, a);
            var pending := s.sent > 0 && s.sent - 1 !in s.received;
            && s'.slot == None && s'.received == (if pending then s.received + [s.sent - 1] else s.received)
            && (pending <==> s.slot.Some?)
            && var left := if a.Look? then s.running - {a.r} else s.running;
               s' == s.(slot := None, received := s'.received, running := left)
  {
    RunKeeps(Initial, actions, s);
  }

  // ---- notifications ----

  function Times(actions: seq<Action>, wanted: Action -> bool): nat {
    if actions == [] then 0 else (if wanted(actions[0]) then 1 else 0) + Times(actions[1..], wanted)
  }

  predicate IsLook(a: Action) {
    a.Look?
  }

  predicate IsNotify(a: Action) {
    a.Notify?
  }

  predicate IsStore(a: Action) {
    a.Store?
  }

  /** Notifications that have been made and not been used up by a look. */
  function Unused(s: State): nat {
    (if s.permit then 1 else 0) + |s.notified| + |s.running|
  }

  lemma NotifyAdds(s: State)
    ensures Unused(NotifyOne(s)) <= Unused(s) + 1
  {
  }

  lemma NextUses(s: State, a: Action)
    requires Enabled(s, a)
    ensures (if a.Look? then 1 else 0) + Unused(Next(s, a)) <= Unused(s) + if a.Notify? then 1 else 0
  {
    match a
    case Notify => NotifyAdds(s.(locked := false));
    case Cancel(r) => if r in s.notified { NotifyAdds(s.(notified := s.notified - {r})); }
    case _ =>
  }

  lemma {:induction false} RunUses(s: State, actions: seq<Action>, s': State)
    requires Runs(s, actions, s')
    ensures Times(actions, IsLook) + Unused(s') <= Unused(s) + Times(actions, IsNotify)
    ensures Times(actions, IsStore) + (if s.locked then 1 else 0)
            == Times(actions, IsNotify) + if s'.locked then 1 else 0
    ensures s'.sent == s.sent + Times(actions, IsStore)
    decreases |actions|
  {
    if actions != [] {
      NextUses(s, actions[0]);
      RunUses(Next(s, actions[0]), actions[1..], s');
    }
  }

  /** A waiting receiver does not spin: it looks at the slot at most once for every value sent. */
  lemma LooksPerSend(actions: seq<Action>, s: State)
    requires Runs(Initial, actions, s)
    ensures Times(actions, IsLook) <= s.sent
  {
    RunUses(Initial, actions, s);
  }

  /**
    From any reachable state with a pending value and a receiver that waits or is on its way, the
    value can be delivered without a further send.
  */
  lemma CanDeliver(actions: seq<Action>, s: State) returns (more: seq<Action>, s': State)
    requires Runs(Initial, actions, s) && s.slot.Some?
    requires s.waiters != [] || s.notified != {} || s.running != {}
    ensures Runs(s, more, s') && |more| <= 3 && Store !in more && s'.received == s.received + [s.slot.value]
  {
    RunKeeps(Initial, actions, s);
    var first: seq<Action> := [];
    var t := s;
    if s.locked {
      t := Next(s, Notify);
      first := [Notify];
      NextKeeps(s, Notify);
      assert s.waiters != [] ==> s.waiters[0] in t.notified;
      assert s.notified <= t.notified;
    }
    assert t.notified != {} || t.running != {};
    var r: nat;
    if t.running != {} {
      r :| r in t.running;
      more := first + [Look(r)];
      s' := Next(t, Look(r));
      Steps(s, t, first, [Look(r)], s');
    } else {
      r :| r in t.notified;
      var u := Next(t, Resume(r));
      more := first + [Resume(r), Look(r)];
      s' := Next(u, Look(r));
      assert [Resume(r), Look(r)][1..] == [Look(r)] && [Look(r)][1..] == [];
      assert Runs(u, [Look(r)], s');
      Steps(s, t, first, [Resume(r), Look(r)], s');
    }
  }

  lemma Steps(s: State, t: State, first: seq<Action>, rest: seq<Action>, s': State)
    requires (first == [] && t == s) || (first == [Notify] && Enabled(s, Notify) && t == Next(s, Notify))
    requires Runs(t, rest, s')
    ensures Runs(s, first + rest, s')
  {
    if first == [] { assert first + rest == rest; } else { assert (first + rest)[1..] == rest; }
  }

  /** Between storing a value and notifying, a sender keeps everyone else from the slot, and only then. */
  lemma MutexHolds(s: State)
    ensures Enabled(s, Store) == Enabled(s, MaybeRecv) == !s.locked == !Enabled(s, Notify)
    ensures forall r: nat :: Enabled(s, Look(r)) <==> r in s.running && !s.locked
  {
  }

  lemma {:induction false} RunsThen(s: State, actions: seq<Action>, s': State, a: Action)
    requires Runs(s, actions, s') && Enabled(s', a)
    ensures Runs(s, actions + [a], Next(s', a))
    decreases |actions|
  {
    if actions == [] {
      assert [] + [a] == [a] && Runs(Next(s, a), [a][1..], Next(s', a));
    } else {
      RunsThen(Next(s, actions[0]), actions[1..], s', a);
      assert (actions + [a])[1..] == actions[1..] + [a];
    }
  }

  lemma Then(actions: seq<Action>, s: State, a: Action) returns (more: seq<Action>, s': State)
    requires Runs(Initial, actions, s) && Enabled(s, a)
    ensures more == actions + [a] && s' == Next(s, a) && Runs(Initial, more, s')
  {
    RunsThen(Initial, actions, s, a);
    more, s' := actions + [a], Next(s, a);
  }

  /** Two receivers wait; the first is woken, and cancelled before it has run; the second gets the value. */
  lemma CancelledPassesOn() returns (s: State)
    ensures Runs(Initial, [Wait(0), Wait(1), Store, Notify, Cancel(0), Resume(1), Look(1)], s)
    ensures s == State(None, false, false, [], {}, {}, 1, [0])
  {
    hide Runs;
    var run;
    run, s := WaitTwice();
    run, s := Then(run, s, Store);
    run, s := Then(run, s, Notify);
    assert s == State(Some(0), false, false, [1], {0}, {}, 1, []);
    run, s := Then(run, s, Cancel(0));
    assert s == State(Some(0), false, false, [], {1}, {}, 1, []);
    run, s := Then(run, s, Resume(1));
    run, s := Then(run, s, Look(1));
    assert run == [Wait(0), Wait(1), Store, Notify, Cancel(0), Resume(1), Look(1)];
  }

  lemma WaitTwice() returns (run: seq<Action>, s: State)
    ensures run == [Wait(0), Wait(1)] && Runs(Initial, run, s) && s == Initial.(waiters := [0, 1])
  {
    run, s := [], Initial;
    run, s := Then(run, s, Wait(0));
    run, s := Then(run, s, Wait(1));
  }

  // ---- fair behaviours ----

  /** An infinite behaviour: the state before each tick, and what the tick does, if anything. */
  ghost predicate IsBehaviour(state: nat -> State, tick: nat -> Option<Action>) {
    && state(0) == Initial
    && forall i: nat :: OneTick(state(i), tick(i), state(i + 1))
  }

  ghost predicate OneTick(s: State, t: Option<Action>, s': State) {
    match t
    case None => s' == s
    case Some(a) => Enabled(s, a) && s' == Next(s, a)
  }

  /** From tick `i` on, the action is at some point taken, or not possible. */
  ghost predicate NotForgotten(state: nat -> State, tick: nat -> Option<Action>, a: Action, i: nat) {
    exists j: nat :: i <= j && (tick(j) == Some(a) || !Enabled(state(j), a))
  }

  /** Senders and receivers that can go on do: no further send and no new receiver is asked for. */
  ghost predicate IsFair(state: nat -> State, tick: nat -> Option<Action>) {
    forall a: Action, i: nat | a.Notify? || a.Resume? || a.Look? :: NotForgotten(state, tick, a, i)
  }

  lemma {:induction false} BehaviourKeeps(state: nat -> State, tick: nat -> Option<Action>, i: nat)
    requires IsBehaviour(state, tick)
    ensures Inv(state(i))
  {
    if i > 0 {
      var k: nat := i - 1;
      BehaviourKeeps(state, tick, k);
      assert OneTick(state(k), tick(k), state(k + 1));
      if tick(k).Some? { NextKeeps(state(k), tick(k).value); }
    }
  }

  /** Receiver `r` is not cancelled from tick `i` on. */
  ghost predicate Kept(tick: nat -> Option<Action>, r: nat, i: nat) {
    forall j: nat | i <= j :: tick(j) != Some(Cancel(r))
  }

  /** Value `v` has been received, or another value sent after it. */
  predicate Settled(s: State, v: nat) {
    v in s.received || s.sent > v + 1
  }

  predicate Pending(s: State, v: nat) {
    s.slot == Some(v) && s.sent == v + 1
  }

  /** Value `v` is the one to be received, and `r` waits, is woken or is running. */
  predicate Awaits(s: State, v: nat, r: nat) {
    Pending(s, v) && (r in s.waiters || r in s.notified || r in s.running)
  }

  /** How many receivers, `r` included, are to be woken before `r` has been. */
  function Rank(s: State, r: nat): nat {
    if r in s.notified || r in s.running then 0 else 1 + Position(s.waiters, r)
  }

  function Position(q: seq<nat>, r: nat): nat {
    if q == [] || q[0] == r then 0 else 1 + Position(q[1..], r)
  }

  lemma {:induction false} PositionAfter(q: seq<nat>, r: nat, u: nat)
    requires r in q
    ensures r in q + [u] && Position(q + [u], r) == Position(q, r)
    ensures u != r ==> r in Without(q, u) && Position(Without(q, u), r) <= Position(q, r)
  {
    assert q == [q[0]] + q[1..] && (q + [u])[1..] == q[1..] + [u];
    if q[0] != r { PositionAfter(q[1..], r, u); }
  }

  lemma NotifyAwaits(s: State, v: nat, r: nat)
    requires Awaits(s, v, r)
    ensures Awaits(NotifyOne(s), v, r) && Rank(NotifyOne(s), r) <= Rank(s, r)
    ensures Rank(s, r) > 0 ==> Rank(NotifyOne(s), r) < Rank(s, r)
  {
    if s.waiters != [] { assert s.waiters == [s.waiters[0]] + s.waiters[1..]; }
  }

  /** A receiver that is not cancelled keeps its place, whoever else is; a notification passed on brings it forward. */
  lemma NextAwaits(s: State, a: Action, v: nat, r: nat)
    requires Enabled(s, a) && Awaits(s, v, r) && a != Cancel(r)
    ensures Settled(Next(s, a), v) || (Awaits(Next(s, a), v, r) && Rank(Next(s, a), r) <= Rank(s, r))
    ensures a.Cancel? && a.r in s.notified && Rank(s, r) > 0 ==> Rank(Next(s, a), r) < Rank(s, r)
  {
    match a
    case Store =>
    case Notify => NotifyAwaits(s.(locked := false), v, r);
    case Wait(q) => if r in s.waiters { PositionAfter(s.waiters, r, q); }
    case Resume(q) =>
    case Look(q) => assert Next(s, a).received[|s.received|] == v;
    case Cancel(q) =>
      if q in s.notified { NotifyAwaits(s.(notified := s.notified - {q}), v, r); }
      else if r in s.waiters { PositionAfter(s.waiters, r, q); }
    case MaybeRecv => assert Next(s, a).received[|s.received|] == v;
  }

  /** Nobody keeps the receivers from the slot. */
  predicate Open(s: State, v: nat) {
    Pending(s, v) && !s.locked
  }

  lemma NextOpen(s: State, a: Action, v: nat, q: nat)
    requires Enabled(s, a) && Open(s, v)
    ensures Settled(Next(s, a), v) || Open(Next(s, a), v)
    ensures q in s.notified && a != Cancel(q) && !Settled(Next(s, a), v) ==>
              q in if a == Resume(q) then Next(s, a).running else Next(s, a).notified
    ensures q in s.running && !Settled(Next(s, a), v) ==> q in Next(s, a).running && a != Look(q)
  {
    if a.Look? || a.MaybeRecv? { assert Next(s, a).received[|s.received|] == v; }
  }

  /** A running receiver is past cancellation, and looks. */
  lemma {:induction false} StaysRunning(state: nat -> State, tick: nat -> Option<Action>, i: nat, j: nat, v: nat,
      q: nat)
    requires IsBehaviour(state, tick) && i <= j
    requires Settled(state(i), v) || (Open(state(i), v) && q in state(i).running)
    ensures Settled(state(j), v) || (Open(state(j), v) && q in state(j).running)
    decreases j - i
  {
    if i < j {
      assert OneTick(state(i), tick(i), state(i + 1));
      if Settled(state(i), v) {
        NextSettled(state, tick, i, v);
      } else if tick(i).Some? {
        NextOpen(state(i), tick(i).value, v, q);
      }
      StaysRunning(state, tick, i + 1, j, v, q);
    }
  }

  lemma NextSettled(state: nat -> State, tick: nat -> Option<Action>, i: nat, v: nat)
    requires IsBehaviour(state, tick) && Settled(state(i), v)
    ensures Settled(state(i + 1), v)
  {
    assert OneTick(state(i), tick(i), state(i + 1));
  }

  lemma LookerSees(state: nat -> State, tick: nat -> Option<Action>, i: nat, v: nat, q: nat) returns (k: nat)
    requires IsBehaviour(state, tick) && IsFair(state, tick) && Open(state(i), v) && q in state(i).running
    ensures k >= i && Settled(state(k), v)
  {
    assert NotForgotten(state, tick, Look(q), i);
    k :| i <= k && (tick(k) == Some(Look(q)) || !Enabled(state(k), Look(q)));
    StaysRunning(state, tick, i, k, v, q);
    if !Settled(state(k), v) {
      assert OneTick(state(k), tick(k), state(k + 1));
      NextOpen(state(k), Look(q), v, q);
      k := k + 1;
    }
  }

  /** What becomes of a woken receiver: it runs, or is cancelled and `r` comes forward. */
  lemma {:induction false} WokenMoves(state: nat -> State, tick: nat -> Option<Action>, i: nat, k: nat, v: nat,
      r: nat, q: nat) returns (j: nat)
    requires IsBehaviour(state, tick) && Kept(tick, r, i) && Awaits(state(i), v, r) && !state(i).locked
    requires q in state(i).notified && (r in state(i).notified ==> q == r) && r !in state(i).running
    requires i <= k && (tick(k) == Some(Resume(q)) || q !in state(k).notified)
    ensures j >= i
    ensures || Settled(state(j), v)
            || (Open(state(j), v) && q in state(j).running)
            || (Open(state(j), v) && Awaits(state(j), v, r) && Rank(state(j), r) < Rank(state(i), r))
    decreases k - i
  {
    j := i + 1;
    assert OneTick(state(i), tick(i), state(i + 1));
    if tick(i).Some? {
      NextAwaits(state(i), tick(i).value, v, r);
      NextOpen(state(i), tick(i).value, v, q);
    }
    if !Settled(state(j), v) && q !in state(j).running && !(Rank(state(j), r) < Rank(state(i), r)) {
      j := WokenMoves(state, tick, i + 1, k, v, r, q);
    }
  }

  lemma {:induction false} OpenIsSettled(state: nat -> State, tick: nat -> Option<Action>, i: nat, v: nat, r: nat)
    returns (j: nat)
    requires IsBehaviour(state, tick) && IsFair(state, tick) && Kept(tick, r, i)
    requires Awaits(state(i), v, r) && !state(i).locked
    ensures j >= i && Settled(state(j), v)
    decreases Rank(state(i), r)
  {
    BehaviourKeeps(state, tick, i);
    var s, q := state(i), r;
    if s.running != {} {
      if r !in s.running { q :| q in s.running; }
      j := LookerSees(state, tick, i, v, q);
    } else {
      if r !in s.notified { q :| q in s.notified; }
      assert NotForgotten(state, tick, Resume(q), i);
      var k: nat :| i <= k && (tick(k) == Some(Resume(q)) || !Enabled(state(k), Resume(q)));
      j := WokenMoves(state, tick, i, k, v, r, q);
      if Settled(state(j), v) {
      } else if q in state(j).running {
        j := LookerSees(state, tick, j, v, q);
      } else {
        j := OpenIsSettled(state, tick, j, v, r);
      }
    }
  }

  lemma {:induction false} AwaitsAlong(state: nat -> State, tick: nat -> Option<Action>, i: nat, j: nat, v: nat, r: nat)
    requires IsBehaviour(state, tick) && Kept(tick, r, i) && i <= j
    requires Settled(state(i), v) || Awaits(state(i), v, r)
    ensures Settled(state(j), v) || Awaits(state(j), v, r)
    decreases j - i
  {
    if i < j {
      assert OneTick(state(i), tick(i), state(i + 1));
      if Settled(state(i), v) {
        NextSettled(state, tick, i, v);
      } else if tick(i).Some? {
        NextAwaits(state(i), tick(i).value, v, r);
      }
      AwaitsAlong(state, tick, i + 1, j, v, r);
    }
  }

  /**
    In a fair behaviour, a pending value is received, or replaced by a later one, if one receiver
    that waits or is on its way is not cancelled, whatever happens to the others.
  */
  lemma PendingIsSettled(state: nat -> State, tick: nat -> Option<Action>, i: nat, v: nat, r: nat)
    requires IsBehaviour(state, tick) && IsFair(state, tick) && Kept(tick, r, i)
    requires state(i).slot == Some(v) && (r in state(i).waiters || r in state(i).notified || r in state(i).running)
    ensures exists j: nat :: i <= j && Settled(state(j), v)
  {
    BehaviourKeeps(state, tick, i);
    assert NotForgotten(state, tick, Notify, i);
    var k: nat :| i <= k && (tick(k) == Some(Notify) || !Enabled(state(k), Notify));
    AwaitsAlong(state, tick, i, k, v, r);
    assert OneTick(state(k), tick(k), state(k + 1));
    if state(k).locked {
      AwaitsAlong(state, tick, k, k + 1, v, r);
      k := k + 1;
    }
    if !Settled(state(k), v) { k := OpenIsSettled(state, tick, k, v, r); }
  }
}
