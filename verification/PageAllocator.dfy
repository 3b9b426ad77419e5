/**
  The page level of the allocator: first-fit allocation of page runs, recovery of a run from the
  marks in the page directory, and the partition of the mapped pages into live and free runs.
  Addresses and sizes are in pages.
*/
module PageAllocator {
  import opened Options
  import opened FreeList
  import opened Sequences

  /** What the page directory says of a page; `Chunks` stands for a pointer to a page of chunks. */
  datatype Status = NotMine | FreePage | First | Follow | Chunks

  function Look(d: map<nat, Status>, x: nat): Status {
    if x in d then d[x] else NotMine
  }

  predicate InUse(st: Status) {
    st.First? || st.Follow? || st.Chunks?
  }

  /** The page is part of the run that starts at `s`, or is its guard page. */
  ghost predicate InExtent(live: map<nat, nat>, guard: nat, s: nat, x: nat) {
    s in live && s <= x < s + live[s] + guard
  }

  /** The marks of one live run. */
  ghost predicate Marked(d: map<nat, Status>, s: nat, n: nat, guard: nat) {
    && n > 0
    && (Look(d, s).First? || Look(d, s).Chunks?)
    && (forall x: nat | s < x < s + n :: Look(d, x).Follow?)
    && (guard > 0 ==> Look(d, s + n).First?)
  }

  /** Every page the directory knows is in exactly one live run or exactly one entry of the free list. */
  ghost predicate Partition(d: map<nat, Status>, free: seq<Run>, live: map<nat, nat>, guard: nat) {
    && (forall x: nat :: Look(d, x).FreePage? <==> Covers(free, x))
    && (forall s {:trigger Marked(d, s, live[s], guard)} | s in live :: Marked(d, s, live[s], guard))
    && (forall s, t | s in live && t in live && s < t :: s + live[s] + guard <= t)
    && (forall x: nat | InUse(Look(d, x)) :: exists s :: InExtent(live, guard, s, x))
  }

  // ---- taking pages ----

  /** `d'` marks the run of `n` pages at `p`, and its guard page, and is otherwise `d`. */
  ghost predicate MarksRun(d: map<nat, Status>, d': map<nat, Status>, p: nat, n: nat, guard: nat) {
    forall x: nat :: Look(d', x) ==
      if x == p then First
      else if p < x < p + n then Follow
      else if p + n <= x < p + n + guard then First
      else Look(d, x)
  }

  lemma AllocKeeps(d: map<nat, Status>, free: seq<Run>, live: map<nat, nat>, guard: nat, p: nat, n: nat,
      d': map<nat, Status>, free': seq<Run>)
    requires guard <= 1 && n > 0 && Partition(d, free, live, guard) && MarksRun(d, d', p, n, guard)
    requires forall x: nat | p <= x < p + n + guard :: !InUse(Look(d, x))
    requires forall x: nat :: Covers(free', x) <==> Covers(free, x) && !(p <= x < p + n + guard)
    ensures p !in live && Partition(d', free', live[p := n], guard)
  {
    var live' := live[p := n];
    RunsApart(d, free, live, guard, p, n);
    RunsMarked(d, d', live, guard, p, n, live');
    RunsStayApart(live, guard, p, n);
    forall x: nat
      ensures Look(d', x).FreePage? <==> Covers(free', x)
      ensures InUse(Look(d', x)) ==> exists s :: InExtent(live', guard, s, x)
    {
      PageAfterAlloc(d, free, live, guard, p, n, d', free', live', x);
    }
  }

  lemma RunsMarked(d: map<nat, Status>, d': map<nat, Status>, live: map<nat, nat>, guard: nat, p: nat, n: nat,
      live': map<nat, nat>)
    requires guard <= 1 && n > 0 && MarksRun(d, d', p, n, guard) && live' == live[p := n]
    requires forall s <- live :: s + live[s] + guard <= p || p + n + guard <= s
    requires forall s {:trigger Marked(d, s, live[s], guard)} | s in live :: Marked(d, s, live[s], guard)
    ensures forall s {:trigger Marked(d', s, live'[s], guard)} | s in live' :: Marked(d', s, live'[s], guard)
  {
    forall s | s in live'
      ensures Marked(d', s, live'[s], guard)
    {
      if s != p { RunKept(d, d', live, guard, p, n, s); }
    }
  }

  lemma RunsStayApart(live: map<nat, nat>, guard: nat, p: nat, n: nat)
    requires p !in live && forall s <- live :: s + live[s] + guard <= p || p + n + guard <= s
    requires forall s, t | s in live && t in live && s < t :: s + live[s] + guard <= t
    ensures var live' := live[p := n];
            forall s, t | s in live' && t in live' && s < t :: s + live'[s] + guard <= t
  {
  }

  lemma PageAfterAlloc(d: map<nat, Status>, free: seq<Run>, live: map<nat, nat>, guard: nat, p: nat, n: nat,
      d': map<nat, Status>, free': seq<Run>, live': map<nat, nat>, x: nat)
    requires guard <= 1 && n > 0 && MarksRun(d, d', p, n, guard) && p !in live && live' == live[p := n]
    requires Look(d, x).FreePage? <==> Covers(free, x)
    requires InUse(Look(d, x)) ==> exists s :: InExtent(live, guard, s, x)
    requires Covers(free', x) <==> Covers(free, x) && !(p <= x < p + n + guard)
    ensures Look(d', x).FreePage? <==> Covers(free', x)
    ensures InUse(Look(d', x)) ==> exists s :: InExtent(live', guard, s, x)
  {
    if p <= x < p + n + guard {
      assert InExtent(live', guard, p, x);
    } else if InUse(Look(d, x)) {
      var s :| InExtent(live, guard, s, x);
      assert InExtent(live', guard, s, x);
    }
  }

  lemma RunKept(d: map<nat, Status>, d': map<nat, Status>, live: map<nat, nat>, guard: nat, p: nat, n: nat, s: nat)
    requires MarksRun(d, d', p, n, guard) && s in live && Marked(d, s, live[s], guard) && guard <= 1
    requires s + live[s] + guard <= p || p + n + guard <= s
    ensures Marked(d', s, live[s], guard)
  {
  }

  /** A region with no page in use meets no live run. */
  lemma RunsApart(d: map<nat, Status>, free: seq<Run>, live: map<nat, nat>, guard: nat, p: nat, n: nat)
    requires guard <= 1 && n > 0 && Partition(d, free, live, guard)
    requires forall x: nat | p <= x < p + n + guard :: !InUse(Look(d, x))
    ensures p !in live && forall s <- live :: s + live[s] + guard <= p || p + n + guard <= s
  {
    forall s | s in live
      ensures s != p && (s + live[s] + guard <= p || p + n + guard <= s)
    {
      assert Marked(d, s, live[s], guard);
      var x := if p <= s then s else p;
      assert s <= x < s + live[s] + guard ==> InUse(Look(d, x));
    }
  }

  /** The first `size` pages of entry `k`, taken off the list. */
  function Taken(free: seq<Run>, k: nat, size: nat): seq<Run>
    requires k < |free| && size <= free[k].size
  {
    if free[k].size == size then free[..k] + free[k + 1..] else free[k := Run(free[k].page + size, free[k].size - size)]
  }

  lemma TakenTotal(free: seq<Run>, k: nat, size: nat)
    requires k < |free| && 0 < size <= free[k].size
    ensures Total(Taken(free, k, size)) == Total(free) - size
  {
    var t := Taken(free, k, size);
    TotalSplit(free, k);
    TotalSplit(t, k);
    assert t[..k] == free[..k] && free[k..][1..] == free[k + 1..];
    if free[k].size == size { assert t[k..] == free[k + 1..]; } else { assert t[k..][1..] == free[k + 1..]; }
  }

  lemma TakenSorted(free: seq<Run>, k: nat, size: nat)
    requires Sorted(free) && k < |free| && 0 < size <= free[k].size
    ensures Sorted(Taken(free, k, size))
  {
    var t := Taken(free, k, size);
    forall i, j | 0 <= i < j < |t|
      ensures t[i].End() < t[j].page
    {
      if free[k].size == size { assert t[i] == free[if i < k then i else i + 1]
          && t[j] == free[if j < k then j else j + 1]; }
    }
  }

  lemma TakenCovers(free: seq<Run>, k: nat, size: nat, x: nat)
    requires Sorted(free) && k < |free| && 0 < size <= free[k].size
    ensures Covers(Taken(free, k, size), x) <==> Covers(free, x) && !(free[k].page <= x < free[k].page + size)
  {
    var t := Taken(free, k, size);
    if i :| 0 <= i < |t| && t[i].Has(x) {
      var j := if free[k].size == size && i >= k then i + 1 else i;
      assert free[j].Has(x);
      assert j < k ==> free[j].End() < free[k].page;
      assert k < j ==> free[k].End() < free[j].page;
    }
    if i :| 0 <= i < |free| && free[i].Has(x) && !(free[k].page <= x < free[k].page + size) {
      assert t[if free[k].size == size && i > k then i - 1 else i].Has(x);
    }
  }

  /** First fit: the first entry that is large enough. */
  method FindFit(free: seq<Run>, size: nat) returns (k: nat)
    ensures k <= |free| && (k < |free| ==> size <= free[k].size)
    ensures forall i | 0 <= i < k :: free[i].size < size
  {
    k := 0;
    while k < |free| && free[k].size < size
      invariant k <= |free| && forall i | 0 <= i < k :: free[i].size < size
    {
      k := k + 1;
    }
  }

  /** The marking loop of an allocation. */
  method MarkRun(d: map<nat, Status>, p: nat, n: nat, guard: nat) returns (d': map<nat, Status>)
    requires n > 0 && guard <= 1
    ensures MarksRun(d, d', p, n, guard)
  {
    d' := d[p := First];
    for i := 1 to n
      invariant forall x: nat :: Look(d', x) == if x == p then First else if p < x < p + i then Follow else Look(d, x)
    {
      ghost var prev := d';
      d' := d'[p + i := Follow];
      assert forall x: nat :: Look(d', x) == if x == p + i then Follow else Look(prev, x);
    }
    if guard > 0 {
      ghost var prev := d';
      d' := d'[p + n := First];
      assert forall x: nat :: Look(d', x) == if x == p + n then First else Look(prev, x);
    }
  }

  // ---- giving pages back ----

  /** `d'` marks `len` pages from `p` on with `st`, and is otherwise `d`. */
  ghost predicate Fills(d: map<nat, Status>, d': map<nat, Status>, p: nat, len: nat, st: Status) {
    forall x: nat :: Look(d', x) == if p <= x < p + len then st else Look(d, x)
  }

  /** The `len` pages from `p` on are no longer in use; whatever else was in use is marked as before. */
  ghost predicate Releases(d: map<nat, Status>, d': map<nat, Status>, p: nat, len: nat) {
    forall x: nat ::
      && (InUse(Look(d', x)) <==> InUse(Look(d, x)) && !(p <= x < p + len))
      && (InUse(Look(d', x)) ==> Look(d', x) == Look(d, x))
  }

  /** The free list has taken in the run that starts at `index`, with its guard page. */
  ghost predicate Reclaims(free: seq<Run>, live: map<nat, nat>, index: nat, guard: nat, cache: nat, free': seq<Run>)
    requires index in live
  {
    AfterRelease(free, Run(index, live[index] + guard), cache, free')
  }

  /** A page marked as continuing a run is neither its first page nor its guard page. */
  lemma FollowIsInside(d: map<nat, Status>, free: seq<Run>, live: map<nat, nat>, guard: nat, t: nat, x: nat)
    requires guard <= 1 && Partition(d, free, live, guard) && InExtent(live, guard, t, x) && Look(d, x).Follow?
    ensures t < x < t + live[t]
  {
    assert Marked(d, t, live[t], guard);
  }

  /** The page behind a run's own pages is never marked as continuing it. */
  lemma RunEnds(d: map<nat, Status>, free: seq<Run>, live: map<nat, nat>, guard: nat, s: nat)
    requires guard <= 1 && Partition(d, free, live, guard) && s in live
    ensures !Look(d, s + live[s]).Follow?
  {
    if Look(d, s + live[s]).Follow? {
      var t :| InExtent(live, guard, t, s + live[s]);
      FollowIsInside(d, free, live, guard, t, s + live[s]);
    }
  }

  /** Counts a run by its marks, and marks it free at the same time. */
  method Recover(d: map<nat, Status>, index: nat, ghost n: nat) returns (i: nat, d': map<nat, Status>)
    requires Look(d, index).First? && n > 0 && (forall x: nat | index < x < index + n :: Look(d, x).Follow?)
             && !Look(d, index + n).Follow?
    ensures i == n && Fills(d, d', index, n, FreePage)
  {
    d' := d[index := FreePage];
    i := 1;
    while Look(d', index + i).Follow?
      invariant 1 <= i <= n && Fills(d, d', index, i, FreePage)
      decreases n - i
    {
      ghost var prev := d';
      d' := d'[index + i := FreePage];
      assert forall x: nat :: Look(d', x) == if x == index + i then FreePage else Look(prev, x);
      i := i + 1;
    }
  }

  lemma FreeKeeps(d: map<nat, Status>, free: seq<Run>, live: map<nat, nat>, guard: nat, s: nat, d': map<nat, Status>,
      d'': map<nat, Status>, free': seq<Run>, gone: Run)
    requires guard <= 1 && Partition(d, free, live, guard) && s in live
    requires Fills(d, d', s, live[s] + guard, FreePage) && Fills(d', d'', gone.page, gone.size, NotMine)
    requires forall x: nat :: Covers(free', x) <==> (Covers(free, x) || Run(s, live[s] + guard).Has(x)) && !gone.Has(x)
    requires forall x: nat :: gone.Has(x) ==> Covers(free, x) || Run(s, live[s] + guard).Has(x)
    ensures Partition(d'', free', live - {s}, guard)
  {
    var live' := live - {s};
    forall t | t in live'
      ensures Marked(d'', t, live'[t], guard)
    {
      OtherRunKept(d, free, live, guard, s, t, d', d'', gone);
    }
    forall x: nat | InUse(Look(d'', x))
      ensures exists t :: InExtent(live', guard, t, x)
    {
      var t :| InExtent(live, guard, t, x);
      assert InExtent(live', guard, t, x);
    }
  }

  lemma OtherRunKept(d: map<nat, Status>, free: seq<Run>, live: map<nat, nat>, guard: nat, s: nat, t: nat,
      d': map<nat, Status>, d'': map<nat, Status>, gone: Run)
    requires guard <= 1 && Partition(d, free, live, guard) && s in live && t in live && t != s
    requires Fills(d, d', s, live[s] + guard, FreePage) && Fills(d', d'', gone.page, gone.size, NotMine)
    requires forall x: nat :: gone.Has(x) ==> Covers(free, x) || Run(s, live[s] + guard).Has(x)
    ensures Marked(d'', t, live[t], guard)
  {
    assert Marked(d, t, live[t], guard);
    forall x: nat | t <= x < t + live[t] + guard
      ensures Look(d'', x) == Look(d, x)
    {
      assert InUse(Look(d, x));
      assert !gone.Has(x);
    }
  }

  lemma MarkedStill(d: map<nat, Status>, d': map<nat, Status>, live: map<nat, nat>, guard: nat, p: nat, s: nat)
    requires s in live && p in live && guard <= 1 && (Look(d', p).First? || Look(d', p).Chunks?)
    requires Marked(d, s, live[s], guard) && forall x: nat :: x != p ==> Look(d', x) == Look(d, x)
    requires (s < p ==> s + live[s] + guard <= p) && (p < s ==> p + live[p] + guard <= s)
    ensures Marked(d', s, live[s], guard)
  {
    assert Look(d, s + live[s]) == Look(d', s + live[s]) || s + live[s] == p;
  }

  // ---- counting ----

  function Size(n: nat): nat {
    n
  }

  ghost function SumOf(live: map<nat, nat>): nat {
    Sum(live, Size)
  }

  lemma SumAdd(live: map<nat, nat>, k: nat, n: nat)
    requires k !in live
    ensures SumOf(live[k := n]) == SumOf(live) + n && |live[k := n]| == |live| + 1
  {
    SumExtract(live[k := n], Size, k);
    assert live[k := n] - {k} == live;
  }

  // ---- the allocator ----

  class Pages {
    const guard: nat
    const cache: nat
    var dir: map<nat, Status>
    var free: seq<Run>
    var used: nat
    var guarded: nat
    ghost var live: map<nat, nat>

    ghost predicate Valid()
      reads this
    {
      && guard <= 1 && cache > 0
      && Sorted(free) && Total(free) <= cache
      && Partition(dir, free, live, guard)
      && used == SumOf(live) && guarded == if guard == 0 then 0 else |live|
    }

    /** `cache` pages may stay on the free list; a cache of none is raised to one. */
    constructor (guarding: bool, cache: nat)
      ensures Valid() && live == map[] && free == [] && used == 0
      ensures this.guard == (if guarding then 1 else 0) && this.cache == if cache == 0 then 1 else cache
    {
      this.guard := if guarding then 1 else 0;
      this.cache := if cache == 0 then 1 else cache;
      dir, free, used, guarded, live := map[], [], 0, 0, map[];
    }

    /**
      Takes `n` pages from the first free run that has room for them and a guard page, or from a
      fresh mapping `os` of the operating system; None if neither is to be had.
    */
    method MallocPages(n: nat, os: Option<nat>) returns (p: Option<nat>)
      requires Valid() && n > 0
      requires os.Some? ==> forall x: nat | os.value <= x < os.value + n + guard :: Look(dir, x).NotMine?
      modifies this
      ensures Valid()
      ensures p.None? ==> unchanged(this)
      ensures p.None? <==> os.None? && forall i | 0 <= i < |old(free)| :: old(free)[i].size < n + guard
      ensures p.Some? ==> p.value !in old(live) && live == old(live)[p.value := n] && used == old(used) + n
      ensures p.Some? ==> MarksRun(old(dir), dir, p.value, n, guard)
      ensures p.Some? ==> forall x: nat | p.value <= x < p.value + n + guard :: !InUse(old(Look(dir, x)))
      ensures forall k | 0 <= k < |old(free)| && old(free)[k].size >= n + guard ::
                (forall i | 0 <= i < k :: old(free)[i].size < n + guard) ==> p == Some(old(free)[k].page)
    {
      var size := n + guard;
      var k := FindFit(free, size);
      if k < |free| {
        p := Some(free[k].page);
        ClaimFrom(k, n);
      } else if os.Some? {
        p := os;
        ClaimFresh(os.value, n);
      } else {
        p := None;
      }
    }

    /** Takes `n` pages and a guard page that the directory does not know yet. */
    method ClaimFresh(p: nat, n: nat)
      requires Valid() && n > 0 && forall x: nat | p <= x < p + n + guard :: Look(dir, x).NotMine?
      modifies this
      ensures Valid() && p !in old(live) && live == old(live)[p := n] && used == old(used) + n
      ensures MarksRun(old(dir), dir, p, n, guard)
    {
      assert forall x: nat :: Covers(free, x) ==> Look(dir, x).FreePage?;
      Claim(p, n, free);
    }

    /** Takes `n` pages and a guard page from the front of entry `k`. */
    method ClaimFrom(k: nat, n: nat)
      requires Valid() && n > 0 && k < |free| && n + guard <= free[k].size
      modifies this
      ensures Valid() && free == Taken(old(free), k, n + guard)
      ensures var p := old(free)[k].page;
              && p !in old(live) && live == old(live)[p := n] && used == old(used) + n
              && MarksRun(old(dir), dir, p, n, guard)
              && forall x: nat | p <= x < p + n + guard :: !InUse(old(Look(dir, x)))
    {
      var page, rest := free[k].page, Taken(free, k, n + guard);
      TakenRegion(k, n + guard);
      assert forall x: nat | page <= x < page + n + guard :: !InUse(Look(dir, x));
      Claim(page, n, rest);
    }

    lemma TakenRegion(k: nat, size: nat)
      requires Valid() && k < |free| && 0 < size <= free[k].size
      ensures Sorted(Taken(free, k, size)) && Total(Taken(free, k, size)) <= cache
      ensures forall x: nat | free[k].page <= x < free[k].page + size :: Look(dir, x).FreePage?
      ensures forall x: nat :: Covers(Taken(free, k, size), x) <==>
                Covers(free, x) && !(free[k].page <= x < free[k].page + size)
    {
      TakenTotal(free, k, size);
      TakenSorted(free, k, size);
      forall x: nat
        ensures Covers(Taken(free, k, size), x) <==> Covers(free, x) && !(free[k].page <= x < free[k].page + size)
        ensures free[k].page <= x < free[k].page + size ==> Look(dir, x).FreePage?
      {
        TakenCovers(free, k, size, x);
        if free[k].page <= x < free[k].page + size { assert free[k].Has(x); }
      }
    }

    method Set(d: map<nat, Status>, rest: seq<Run>, u: nat, g: nat, ghost l: map<nat, nat>)
      requires guard <= 1 && cache > 0 && Sorted(rest) && Total(rest) <= cache && Partition(d, rest, l, guard)
      requires u == SumOf(l) && g == if guard == 0 then 0 else |l|
      modifies this
      ensures Valid() && dir == d && free == rest && used == u && guarded == g && live == l
    {
      dir, free, used, guarded, live := d, rest, u, g, l;
    }

    /** Marks the run and accounts for it. */
    method Claim(p: nat, n: nat, rest: seq<Run>)
      requires Valid() && n > 0 && Sorted(rest) && Total(rest) <= cache
      requires forall x: nat | p <= x < p + n + guard :: !InUse(Look(dir, x))
      requires forall x: nat :: Covers(rest, x) <==> Covers(free, x) && !(p <= x < p + n + guard)
      modifies this
      ensures Valid() && p !in old(live) && live == old(live)[p := n] && used == old(used) + n && free == rest
      ensures MarksRun(old(dir), dir, p, n, guard)
    {
      var d := MarkRun(dir, p, n, guard);
      AllocKeeps(dir, free, live, guard, p, n, d, rest);
      SumAdd(live, p, n);
      Set(d, rest, used + n, guarded + guard, live[p := n]);
    }

    /**
      Frees the run that starts at page `index`. A page that is free or inside a run only draws a
      warning. The run is recovered from the marks alone.
    */
    method FreePages(index: nat) returns (warned: bool)
      requires Valid() && (Look(dir, index).First? ==> index in live)
      modifies this
      ensures Valid()
      ensures warned <==> !old(Look(dir, index)).First?
      ensures warned ==> unchanged(this)
      ensures !warned ==> live == old(live) - {index} && used == old(used) - old(live)[index]
      ensures !warned ==> Releases(old(dir), dir, index, old(live)[index] + guard)
      ensures !warned ==> Reclaims(old(free), old(live), index, guard, cache, free)
    {
      if !Look(dir, index).First? { return true; }
      warned := false;
      RunEnds(dir, free, live, guard, index);
      assert Marked(dir, index, live[index], guard);
      var i, d := Recover(dir, index, live[index]);
      GiveBack(index, i, d);
    }

    method GiveBack(index: nat, i: nat, d: map<nat, Status>)
      requires Valid() && index in live && i == live[index] && Fills(dir, d, index, i, FreePage)
      modifies this
      ensures Valid() && live == old(live) - {index} && used == old(used) - i
      ensures Releases(old(dir), dir, index, old(live)[index] + guard)
      ensures Reclaims(old(free), old(live), index, guard, cache, free)
    {
      var d1 := FreeGuard(d, index, i);
      FreedIsApart(index);
      var rest, gone := TakeBack(free, live, index, i, guard, cache);
      var d2 := Unmap(d1, gone);
      Commit(index, i, d1, d2, rest, gone);
    }

    method Commit(index: nat, i: nat, ghost d1: map<nat, Status>, d2: map<nat, Status>, rest: seq<Run>, gone: Run)
      requires Valid() && index in live && i == live[index] && Sorted(rest) && Total(rest) <= cache
      requires Fills(dir, d1, index, live[index] + guard, FreePage) && Fills(d1, d2, gone.page, gone.size, NotMine)
      requires forall x: nat :: Covers(rest, x) <==>
                (Covers(free, x) || Run(index, live[index] + guard).Has(x)) && !gone.Has(x)
      requires forall x: nat :: gone.Has(x) ==> Covers(free, x) || Run(index, live[index] + guard).Has(x)
      modifies this
      ensures Valid() && live == old(live) - {index} && used == old(used) - i && free == rest
      ensures Releases(old(dir), dir, index, i + guard)
    {
      FreeKeeps(dir, free, live, guard, index, d1, d2, rest, gone);
      NothingElse(index, d1, d2, gone);
      SumExtract(live, Size, index);
      Set(d2, rest, used - i, guarded - guard, live - {index});
    }

    /** A run's first page starts or stops being a page of chunks; to the page level it is the same run. */
    method SetChunks(p: nat, chunks: bool)
      requires Valid() && p in live
      modifies this
      ensures Valid() && live == old(live) && free == old(free) && used == old(used)
      ensures forall x: nat :: Look(dir, x) == if x == p then (if chunks then Chunks else First) else old(Look(dir, x))
    {
      var d := dir[p := if chunks then Chunks else First];
      assert forall x: nat :: Look(d, x) == if x == p then (if chunks then Chunks else First) else Look(dir, x);
      ReMarked(d, p);
      Set(d, free, used, guarded, live);
    }

    lemma ReMarked(d: map<nat, Status>, p: nat)
      requires Valid() && p in live && p in d && (d[p].Chunks? || d[p].First?)
      requires forall x: nat :: x != p ==> Look(d, x) == Look(dir, x)
      ensures Partition(d, free, live, guard)
    {
      assert Marked(dir, p, live[p], guard);
      forall s | s in live
        ensures Marked(d, s, live[s], guard)
      {
        MarkedStill(dir, d, live, guard, p, s);
      }
      forall x: nat
        ensures Look(d, x).FreePage? <==> Covers(free, x)
        ensures InUse(Look(d, x)) ==> exists s :: InExtent(live, guard, s, x)
      {
        if x != p { assert Look(d, x) == Look(dir, x); } else { assert InExtent(live, guard, p, x); }
      }
    }

    /** The guard page becomes free with its run. */
    method FreeGuard(d: map<nat, Status>, index: nat, i: nat) returns (d1: map<nat, Status>)
      requires guard <= 1 && Fills(dir, d, index, i, FreePage)
      ensures Fills(dir, d1, index, i + guard, FreePage)
    {
      d1 := if guard > 0 then d[index + i := FreePage] else d;
      assert forall x: nat :: Look(d1, x) == if guard > 0 && x == index + i then FreePage else Look(d, x);
    }

    lemma NothingElse(index: nat, d1: map<nat, Status>, d2: map<nat, Status>, gone: Run)
      requires Valid() && index in live
      requires Fills(dir, d1, index, live[index] + guard, FreePage) && Fills(d1, d2, gone.page, gone.size, NotMine)
      requires forall x: nat :: gone.Has(x) ==> Covers(free, x) || Run(index, live[index] + guard).Has(x)
      ensures Releases(dir, d2, index, live[index] + guard)
    {
      forall x: nat
        ensures InUse(Look(d2, x)) <==> InUse(Look(dir, x)) && !(index <= x < index + live[index] + guard)
        ensures InUse(Look(d2, x)) ==> Look(d2, x) == Look(dir, x)
      {
        assert Look(d1, x) == if index <= x < index + (live[index] + guard) then FreePage else Look(dir, x);
      }
    }

    /** A page marked as first is the first page of a live run, or a guard page. */
    lemma FirstIsLiveOrGuard(x: nat)
      requires Valid() && Look(dir, x).First?
      ensures x in live || (guard == 1 && exists s :: s in live && x == s + live[s])
    {
      var s :| InExtent(live, guard, s, x);
      assert Marked(dir, s, live[s], guard);
    }

    /** A live run, with its guard page, overlaps no entry of the free list. */
    lemma FreedIsApart(index: nat)
      requires Valid() && index in live
      ensures live[index] > 0 && Apart(free, Run(index, live[index] + guard))
    {
      var r := Run(index, live[index] + guard);
      assert Marked(dir, index, live[index], guard);
      forall i | 0 <= i < |free|
        ensures free[i].End() <= r.page || r.End() <= free[i].page
      {
        var x := if free[i].page <= r.page then r.page else free[i].page;
        assert free[i].Has(x) && r.Has(x) ==> InUse(Look(dir, x)) && Covers(free, x);
      }
    }
  }

  /** The page behind a guard page is never marked as continuing a run. */
  lemma GuardIsAlone(d: map<nat, Status>, free: seq<Run>, live: map<nat, nat>, s: nat)
    requires Partition(d, free, live, 1) && s in live
    ensures !Look(d, s + live[s] + 1).Follow?
  {
    var x := s + live[s];
    if Look(d, x + 1).Follow? {
      var t :| InExtent(live, 1, t, x + 1);
      FollowIsInside(d, free, live, 1, t, x + 1);
    }
  }

  /** The pages that the marks count to a page marked as first: its run, or a guard page alone. */
  ghost function Counted(live: map<nat, nat>, x: nat): nat {
    if x in live then live[x] else 1
  }

  lemma CountedByMarks(d: map<nat, Status>, free: seq<Run>, live: map<nat, nat>, guard: nat, x: nat)
    requires guard <= 1 && Partition(d, free, live, guard) && Look(d, x).First?
    ensures var n := Counted(live, x);
            && n > 0 && (forall y: nat | x < y < x + n :: Look(d, y).Follow?) && !Look(d, x + n).Follow?
  {
    if x in live {
      assert Marked(d, x, live[x], guard);
      RunEnds(d, free, live, guard, x);
    } else {
      var s := GuardOf(d, free, live, guard, x);
      GuardIsAlone(d, free, live, s);
    }
  }

  lemma GuardOf(d: map<nat, Status>, free: seq<Run>, live: map<nat, nat>, guard: nat, x: nat) returns (s: nat)
    requires guard <= 1 && Partition(d, free, live, guard) && Look(d, x).First? && x !in live
    ensures guard == 1 && s in live && x == s + live[s]
  {
    s :| InExtent(live, guard, s, x);
    assert Marked(d, s, live[s], guard);
  }

  lemma OthersMarkedIff(d: map<nat, Status>, free: seq<Run>, live: map<nat, nat>, guard: nat, x: nat,
      d1: map<nat, Status>)
    requires guard <= 1 && Partition(d, free, live, guard) && Look(d, x).First?
    requires Fills(d, d1, x, Counted(live, x) + guard, FreePage)
    ensures (forall s | s in live && s != x :: Marked(d1, s, live[s], guard)) <==> x in live
  {
    if x in live {
      forall t | t in live && t != x
        ensures Marked(d1, t, live[t], guard)
      {
        assert Marked(d, t, live[t], guard);
      }
    } else {
      var s := GuardOf(d, free, live, guard, x);
      assert s != x && Look(d1, s + live[s]).FreePage?;
      assert !Marked(d1, s, live[s], guard);
    }
  }

  /**
    What freeing any page marked as first does to the marks, whether it starts a run or is a guard
    page: the runs that are not freed keep their marks exactly if it starts a run. Freeing a guard
    page frees it and the page behind it, and its run is left without one.
  */
  method FreeMarks(d: map<nat, Status>, x: nat, guard: nat, ghost free: seq<Run>, ghost live: map<nat, nat>)
    returns (i: nat, d1: map<nat, Status>)
    requires guard <= 1 && Partition(d, free, live, guard) && Look(d, x).First?
    ensures i == Counted(live, x) && Fills(d, d1, x, i + guard, FreePage)
    ensures (forall s | s in live && s != x :: Marked(d1, s, live[s], guard)) <==> x in live
  {
    CountedByMarks(d, free, live, guard, x);
    var d0;
    i, d0 := Recover(d, x, Counted(live, x));
    d1 := if guard > 0 then d0[x + i := FreePage] else d0;
    assert forall y: nat :: Look(d1, y) == if guard > 0 && y == x + i then FreePage else Look(d0, y);
    OthersMarkedIff(d, free, live, guard, x, d1);
  }

  /** Puts the run of `i` pages at `index`, and its guard page, on the free list. */
  method TakeBack(free: seq<Run>, ghost live: map<nat, nat>, index: nat, i: nat, guard: nat, cache: nat)
    returns (rest: seq<Run>, gone: Run)
    requires index in live && i == live[index] > 0
    requires Sorted(free) && Apart(free, Run(index, live[index] + guard)) && Total(free) <= cache
    ensures Reclaims(free, live, index, guard, cache, rest) && Sorted(rest) && Total(rest) <= cache
    ensures forall x: nat :: Covers(rest, x) <==>
              (Covers(free, x) || Run(index, live[index] + guard).Has(x)) && !gone.Has(x)
    ensures forall x: nat :: gone.Has(x) ==> Covers(free, x) || Run(index, live[index] + guard).Has(x)
  {
    rest, gone := Release(free, Run(index, i + guard), cache);
  }

  /** The unmapping loop: the pages leave the directory. */
  method Unmap(d: map<nat, Status>, gone: Run) returns (d': map<nat, Status>)
    ensures Fills(d, d', gone.page, gone.size, NotMine)
  {
    d' := d;
    for i := 0 to gone.size
      invariant Fills(d, d', gone.page, i, NotMine)
    {
      ghost var prev := d';
      d' := d'[gone.page + i := NotMine];
      assert forall x: nat :: Look(d', x) == if x == gone.page + i then NotMine else Look(prev, x);
    }
  }
}
