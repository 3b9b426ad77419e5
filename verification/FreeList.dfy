/**
  The allocator's list of free page runs: sorted by address, coalescing, and bounded by a cache
  size past which pages go back to the operating system. Addresses and sizes are in pages.
*/
module FreeList {

  /** A run of free pages. */
  datatype Run = Run(page: nat, size: nat) {
    function End(): nat { page + size }
    predicate Has(x: nat) { page <= x < page + size }
  }

  ghost predicate Covers(free: seq<Run>, x: nat) {
    exists i :: 0 <= i < |free| && free[i].Has(x)
  }

  /** Sorted, disjoint, no empty run, and no two runs that touch. */
  ghost predicate Sorted(free: seq<Run>) {
    && (forall i | 0 <= i < |free| :: free[i].size > 0)
    && (forall i, j | 0 <= i < j < |free| :: free[i].End() < free[j].page)
  }

  ghost predicate Apart(free: seq<Run>, r: Run) {
    forall i | 0 <= i < |free| :: free[i].End() <= r.page || r.End() <= free[i].page
  }

  ghost function Total(free: seq<Run>): nat {
    if free == [] then 0 else free[0].size + Total(free[1..])
  }

  // ---- the coalescing insert, as a recursive function ----

  ghost function Merge(f: Run, rest: seq<Run>): seq<Run> {
    if rest != [] && f.End() == rest[0].page then [Run(f.page, f.size + rest[0].size)] + rest[1..] else [f] + rest
  }

  ghost function Insert(free: seq<Run>, r: Run): seq<Run> {
    if free == [] then [r]
    else if r.End() < free[0].page then [r] + free
    else if free[0].End() == r.page then Merge(Run(free[0].page, free[0].size + r.size), free[1..])
    else if r.End() == free[0].page then [Run(r.page, r.size + free[0].size)] + free[1..]
    else [free[0]] + Insert(free[1..], r)
  }

  lemma SortedTail(free: seq<Run>)
    requires Sorted(free) && free != []
    ensures Sorted(free[1..]) && forall i | 0 <= i < |free| - 1 :: free[0].End() < free[1..][i].page
  {
  }

  lemma SortedCons(f: Run, rest: seq<Run>)
    requires f.size > 0 && Sorted(rest) && (rest != [] ==> f.End() < rest[0].page)
    ensures Sorted([f] + rest)
  {
    var free := [f] + rest;
    forall i, j | 0 <= i < j < |free|
      ensures free[i].End() < free[j].page
    {
      if i == 0 && j > 1 { assert rest[0].End() < rest[j - 1].page; }
    }
  }

  lemma TotalCons(f: Run, rest: seq<Run>)
    ensures Total([f] + rest) == f.size + Total(rest)
  {
    assert ([f] + rest)[1..] == rest;
  }

  lemma CoversCons(f: Run, rest: seq<Run>, x: nat)
    ensures Covers([f] + rest, x) <==> f.Has(x) || Covers(rest, x)
  {
    var free := [f] + rest;
    if f.Has(x) { assert free[0].Has(x); }
    if i :| 0 <= i < |rest| && rest[i].Has(x) { assert free[i + 1].Has(x); }
    if i :| 0 <= i < |free| && free[i].Has(x) && i > 0 { assert rest[i - 1].Has(x); }
  }

  lemma MergeKeeps(f: Run, rest: seq<Run>)
    requires f.size > 0 && Sorted(rest) && (rest != [] ==> f.End() <= rest[0].page)
    ensures Sorted(Merge(f, rest)) && Merge(f, rest) != [] && Merge(f, rest)[0].page == f.page
  {
    if rest != [] && f.End() == rest[0].page {
      SortedTail(rest);
      SortedCons(Run(f.page, f.size + rest[0].size), rest[1..]);
    } else {
      SortedCons(f, rest);
    }
  }

  lemma MergeCovers(f: Run, rest: seq<Run>, x: nat)
    ensures Covers(Merge(f, rest), x) <==> f.Has(x) || Covers(rest, x)
  {
    if rest != [] && f.End() == rest[0].page {
      assert rest == [rest[0]] + rest[1..];
      CoversCons(Run(f.page, f.size + rest[0].size), rest[1..], x);
      CoversCons(rest[0], rest[1..], x);
    } else {
      CoversCons(f, rest, x);
    }
  }

  /** Inserting a run adds exactly its pages. */
  lemma {:induction false} InsertCovers(free: seq<Run>, r: Run, x: nat)
    ensures Covers(Insert(free, r), x) <==> Covers(free, x) || r.Has(x)
  {
    if free == [] {
      CoversCons(r, [], x);
    } else {
      var f, rest := free[0], free[1..];
      assert free == [f] + rest;
      CoversCons(f, rest, x);
      if r.End() < f.page {
        CoversCons(r, free, x);
      } else if f.End() == r.page {
        MergeCovers(Run(f.page, f.size + r.size), rest, x);
      } else if r.End() == f.page {
        CoversCons(Run(r.page, r.size + f.size), rest, x);
      } else {
        InsertCovers(rest, r, x);
        CoversCons(f, Insert(rest, r), x);
      }
    }
  }

  lemma {:induction false} InsertTotal(free: seq<Run>, r: Run)
    ensures Total(Insert(free, r)) == Total(free) + r.size
  {
    if free == [] {
      TotalCons(r, []);
    } else {
      var f, rest := free[0], free[1..];
      TotalCons(r, free);
      TotalCons(Run(f.page, f.size + r.size), rest);
      TotalCons(Run(r.page, r.size + f.size), rest);
      InsertTotal(rest, r);
      TotalCons(f, Insert(rest, r));
      if rest != [] { TotalCons(Run(f.page, f.size + r.size + rest[0].size), rest[1..]); }
    }
  }

  /** Inserting a run that overlaps nothing keeps the list sorted, disjoint and coalesced. */
  lemma {:induction false} InsertSorted(free: seq<Run>, r: Run)
    requires Sorted(free) && Apart(free, r) && r.size > 0
    ensures Sorted(Insert(free, r)) && Insert(free, r) != []
    ensures Insert(free, r)[0].page == r.page || (free != [] && Insert(free, r)[0].page == free[0].page)
  {
    if free != [] {
      var f, rest := free[0], free[1..];
      SortedTail(free);
      if r.End() < f.page {
        SortedCons(r, free);
        assert Insert(free, r) == [r] + free;
      } else if f.End() == r.page {
        JoinFits(free, r);
        MergeKeeps(Run(f.page, f.size + r.size), rest);
        assert Insert(free, r) == Merge(Run(f.page, f.size + r.size), rest);
      } else if r.End() == f.page {
        SortedCons(Run(r.page, r.size + f.size), rest);
        assert Insert(free, r) == [Run(r.page, r.size + f.size)] + rest;
      } else {
        InsertBehind(free, r);
        InsertSorted(rest, r);
        SortedCons(f, Insert(rest, r));
        assert Insert(free, r) == [f] + Insert(rest, r);
      }
    }
  }

  lemma InsertBehind(free: seq<Run>, r: Run)
    requires free != [] && Sorted(free) && Apart(free, r) && free[0].End() != r.page && r.End() >= free[0].page
             && r.End() != free[0].page
    ensures Apart(free[1..], r) && free[0].End() < r.page
  {
  }

  lemma JoinFits(free: seq<Run>, r: Run)
    requires free != [] && Sorted(free) && Apart(free, r) && free[0].End() == r.page && r.size > 0
    ensures |free| > 1 ==> r.End() <= free[1..][0].page
  {
  }

  /** The size of the entry behind a run that closes the gap between two entries; 0 for any other run. */
  ghost function Joined(free: seq<Run>, r: Run): nat {
    if |free| < 2 then 0
    else if free[0].End() == r.page && free[1].page == r.End() then free[1].size
    else Joined(free[1..], r)
  }

  ghost function JoinedHere(free: seq<Run>, r: Run, k: nat): nat
    requires k < |free|
  {
    if k + 1 < |free| && free[k].End() == r.page && free[k + 1].page == r.End() then free[k + 1].size else 0
  }

  lemma {:induction false} JoinedAt(free: seq<Run>, r: Run, k: nat)
    requires Sorted(free) && k < |free| && (forall i | 0 <= i < k :: free[i].End() < r.page)
    requires k < |free| - 1 ==> r.page <= free[k].End()
    ensures Joined(free, r) == JoinedHere(free, r, k)
  {
    if k > 0 {
      SortedTail(free);
      JoinedAt(free[1..], r, k - 1);
    } else if |free| >= 2 {
      SortedTail(free);
      JoinedNone(free[1..], r);
    }
  }

  lemma {:induction false} JoinedNone(free: seq<Run>, r: Run)
    requires Sorted(free) && (free != [] ==> r.page < free[0].page)
    ensures Joined(free, r) == 0
  {
    if |free| >= 2 {
      SortedTail(free);
      JoinedNone(free[1..], r);
    }
  }

  /** The entry that a freed run ends up in. */
  ghost function EntryOf(free: seq<Run>, r: Run): Run {
    if free == [] || r.End() < free[0].page then r
    else if free[0].End() == r.page then Merge(Run(free[0].page, free[0].size + r.size), free[1..])[0]
    else if r.End() == free[0].page then Run(r.page, r.size + free[0].size)
    else EntryOf(free[1..], r)
  }

  ghost predicate Touches(free: seq<Run>, r: Run) {
    exists i :: 0 <= i < |free| && (free[i].End() == r.page || r.End() == free[i].page)
  }

  /**
    It holds the whole run, and is larger than the run and an entry joined on from behind just
    if the run touches an entry.
  */
  lemma {:induction false} EntrySize(free: seq<Run>, r: Run)
    requires Sorted(free) && Apart(free, r) && r.size > 0
    ensures var e := EntryOf(free, r);
            && e.page <= r.page && r.End() <= e.End()
            && (if Touches(free, r) then e.size > r.size + Joined(free, r)
                else e.size == r.size && Joined(free, r) == 0)
  {
    if free != [] {
      var f, rest := free[0], free[1..];
      SortedTail(free);
      if r.End() < f.page {
        JoinedNone(free, r);
        assert !Touches(free, r);
      } else if f.End() == r.page {
        assert Touches(free, r);
        JoinedAt(free, r, 0);
      } else if r.End() == f.page {
        assert Touches(free, r);
        JoinedNone(free, r);
      } else {
        InsertBehind(free, r);
        EntrySize(rest, r);
        TouchesBehind(free, r);
      }
    }
  }

  lemma TouchesBehind(free: seq<Run>, r: Run)
    requires free != [] && free[0].End() != r.page && r.End() != free[0].page
    ensures Touches(free, r) <==> Touches(free[1..], r)
  {
    if i :| 0 <= i < |free| && (free[i].End() == r.page || r.End() == free[i].page) {
      assert free[1..][i - 1] == free[i];
    }
    if i :| 0 <= i < |free[1..]| && (free[1..][i].End() == r.page || r.End() == free[1..][i].page) {
      assert free[i + 1] == free[1..][i];
    }
  }

  lemma {:induction false} EntrySkips(free: seq<Run>, r: Run, k: nat)
    requires k <= |free| && forall i | 0 <= i < k :: free[i].size > 0 && free[i].End() < r.page
    ensures EntryOf(free, r) == EntryOf(free[k..], r)
  {
    if k == 0 {
      assert free[0..] == free;
    } else {
      EntrySkips(free[1..], r, k - 1);
      assert free[1..][k - 1..] == free[k..];
    }
  }

  // ---- the list as the allocator works on it ----

  /** The entries that end before `page`, then the rest: the insert happens in the rest. */
  lemma {:induction false} InsertSkips(free: seq<Run>, r: Run, k: nat)
    requires k <= |free| && forall i | 0 <= i < k :: free[i].size > 0 && free[i].End() < r.page
    ensures Insert(free, r) == free[..k] + Insert(free[k..], r)
  {
    if k == 0 {
      assert free[..0] + Insert(free[0..], r) == Insert(free, r) by { assert free[0..] == free; }
    } else {
      assert Insert(free, r) == [free[0]] + Insert(free[1..], r);
      InsertSkips(free[1..], r, k - 1);
      assert free[1..][k - 1..] == free[k..];
      assert free[..k] == [free[0]] + free[1..][..k - 1];
    }
  }

  lemma {:induction false} TotalSplit(free: seq<Run>, k: nat)
    requires k <= |free|
    ensures Total(free) == Total(free[..k]) + Total(free[k..])
  {
    if k == 0 {
      assert free[0..] == free;
    } else {
      TotalSplit(free[1..], k - 1);
      assert free[1..][k - 1..] == free[k..] && free[..k][1..] == free[1..][..k - 1];
    }
  }

  /** What a free does to the list, and how much of the cache the rest of the list takes. */
  datatype Placed = Placed(free: seq<Run>, at: nat, others: nat) | Destroyed

  /** Where the race-ahead loop stops: the first entry that does not end before `page`, or the last. */
  method RaceAhead(free: seq<Run>, page: nat) returns (k: nat, size: nat)
    requires free != []
    ensures k < |free| && size == Total(free[..k])
    ensures forall i | 0 <= i < k :: free[i].End() < page
    ensures k < |free| - 1 ==> page <= free[k].End()
  {
    k, size := 0, 0;
    while free[k].End() < page && k + 1 < |free|
      invariant k < |free| && size == Total(free[..k])
      invariant forall i | 0 <= i < k :: free[i].End() < page
      decreases |free| - k
    {
      TotalNext(free, k);
      size := size + free[k].size;
      k := k + 1;
    }
  }

  lemma TotalNext(free: seq<Run>, k: nat)
    requires k < |free|
    ensures Total(free[..k + 1]) == Total(free[..k]) + free[k].size
  {
    TotalSplit(free[..k + 1], k);
    assert free[..k + 1][..k] == free[..k] && free[..k + 1][k..] == [free[k]];
  }

  /** The rest of the cache size. */
  method SumFrom(free: seq<Run>, k: nat) returns (size: nat)
    requires k <= |free|
    ensures size == Total(free[k..])
  {
    size := 0;
    var i := k;
    while i < |free|
      invariant k <= i <= |free| && size + Total(free[i..]) == Total(free[k..])
    {
      assert free[i..][1..] == free[i + 1..];
      size := size + free[i].size;
      i := i + 1;
    }
  }

  /** Where the loop stopped, the insert has one of the code's shapes. */
  lemma InsertAt(free: seq<Run>, r: Run, k: nat)
    requires Sorted(free) && Apart(free, r) && r.size > 0 && k < |free|
    requires forall i | 0 <= i < k :: free[i].End() < r.page
    requires k < |free| - 1 ==> r.page <= free[k].End()
    ensures Insert(free, r) == free[..k] + Insert(free[k..], r)
    ensures free[k].End() < r.page ==> k + 1 == |free|
    ensures r.End() <= free[k].page || free[k].End() <= r.page
  {
    InsertSkips(free, r, k);
  }

  /**
    Puts a freed run on the list: before an entry, joined to its neighbours, or at the end. `others`
    is the code's cache size, which still counts an entry that has just been joined on from behind.
    The branch that reports a corrupt list is never taken.
  */
  method Place(free: seq<Run>, r: Run) returns (p: Placed)
    requires Sorted(free) && Apart(free, r) && r.size > 0
    ensures p.Placed? && p.free == Insert(free, r) && p.at < |p.free|
    ensures p.others <= Total(free) && p.others == Total(free) + r.size + Joined(free, r) - p.free[p.at].size
    ensures p.free[p.at] == EntryOf(free, r)
  {
    if free == [] {
      return Placed([r], 0, 0);
    }
    var k, before := RaceAhead(free, r.page);
    var from := SumFrom(free, k);
    TotalSplit(free, k);
    InsertAt(free, r, k);
    OneOfTotal(free, k);
    JoinedAt(free, r, k);
    EntrySkips(free, r, k);
    p := PlaceAt(free, r, k, before + from);
  }

  /** The branches that follow the loop. */
  method PlaceAt(free: seq<Run>, r: Run, k: nat, cache: nat) returns (p: Placed)
    requires k < |free| && free[k].size <= cache && Insert(free, r) == free[..k] + Insert(free[k..], r)
    requires free[k].End() < r.page ==> k + 1 == |free|
    requires r.End() <= free[k].page || free[k].End() <= r.page
    ensures p.Placed? && p.free == Insert(free, r) && p.at < |p.free|
    ensures p.others <= cache && p.others == cache + r.size + JoinedHere(free, r, k) - p.free[p.at].size
    ensures p.free[p.at] == EntryOf(free[k..], r)
  {
    var pf := free[k];
    assert free[k..][0] == pf && free[k..][1..] == free[k + 1..];
    if pf.page > r.End() {
      p := Placed(free[..k] + [r] + free[k..], k, cache);
    } else if pf.End() == r.page {
      p := JoinBehind(free, r, k, cache);
    } else if pf.page == r.End() {
      p := Placed(free[..k] + [Run(r.page, pf.size + r.size)] + free[k + 1..], k, cache - pf.size);
    } else if k + 1 == |free| {
      p := Placed(free + [r], k + 1, cache);
      assert Insert(free[k..], r) == [pf] + [r] && free == free[..k] + [pf];
    } else {
      p := Destroyed;
    }
  }

  /** Append to the previous entry, and collapse the next too if they now touch. */
  method JoinBehind(free: seq<Run>, r: Run, k: nat, cache: nat) returns (p: Placed)
    requires k < |free| && free[k].size <= cache && free[k].End() == r.page && r.End() >= free[k].page
    requires Insert(free, r) == free[..k] + Insert(free[k..], r)
    ensures p.Placed? && p.free == Insert(free, r) && p.at < |p.free|
    ensures p.others <= cache && p.others == cache + r.size + JoinedHere(free, r, k) - p.free[p.at].size
    ensures p.free[p.at] == EntryOf(free[k..], r)
  {
    var pf := free[k];
    var grown := Run(pf.page, pf.size + r.size);
    assert free[k..][0] == pf && free[k..][1..] == free[k + 1..];
    assert Insert(free[k..], r) == Merge(grown, free[k + 1..]);
    if k + 1 < |free| && free[k + 1].page == grown.End() {
      p := Placed(free[..k] + [Run(grown.page, grown.size + free[k + 1].size)] + free[k + 2..], k, cache - pf.size);
      assert free[k + 1..][1..] == free[k + 2..];
    } else {
      p := Placed(free[..k] + [grown] + free[k + 1..], k, cache - pf.size);
    }
  }

  lemma OneOfTotal(free: seq<Run>, k: nat)
    requires k < |free|
    ensures free[k].size <= Total(free)
  {
    TotalNext(free, k);
    TotalSplit(free, k + 1);
  }

  // ---- returning pages to the operating system ----

  /** Entry `k` cut down to its first `keep` pages, and dropped if none are left. */
  ghost function Cut(free: seq<Run>, k: nat, keep: nat): seq<Run>
    requires k < |free|
  {
    if keep == 0 then free[..k] + free[k + 1..] else free[k := Run(free[k].page, keep)]
  }

  lemma CutSorted(free: seq<Run>, k: nat, keep: nat)
    requires Sorted(free) && k < |free| && keep < free[k].size
    ensures Sorted(Cut(free, k, keep))
  {
    var cut := Cut(free, k, keep);
    forall i, j | 0 <= i < j < |cut|
      ensures cut[i].End() < cut[j].page
    {
      if keep == 0 {
        assert cut[i] == free[if i < k then i else i + 1] && cut[j] == free[if j < k then j else j + 1];
      }
    }
  }

  lemma CutTotal(free: seq<Run>, k: nat, keep: nat)
    requires k < |free| && keep < free[k].size
    ensures Total(Cut(free, k, keep)) == Total(free) - free[k].size + keep
  {
    var cut := Cut(free, k, keep);
    TotalSplit(free, k);
    TotalSplit(cut, k);
    assert cut[..k] == free[..k] && free[k..][1..] == free[k + 1..];
    if keep == 0 { assert cut[k..] == free[k + 1..]; } else { assert cut[k..][1..] == free[k + 1..]; }
  }

  /** Cutting uncovers exactly the pages past the cut. */
  lemma CutCovers(free: seq<Run>, k: nat, keep: nat, x: nat)
    requires Sorted(free) && k < |free| && keep < free[k].size
    ensures Covers(Cut(free, k, keep), x) <==> Covers(free, x) && !(free[k].page + keep <= x < free[k].End())
  {
    var cut := Cut(free, k, keep);
    if i :| 0 <= i < |cut| && cut[i].Has(x) {
      var j := if keep == 0 && i >= k then i + 1 else i;
      assert free[j].Has(x);
      assert j < k ==> free[j].End() < free[k].page;
      assert k < j ==> free[k].End() < free[j].page;
    }
    if i :| 0 <= i < |free| && free[i].Has(x) && !(free[k].page + keep <= x < free[k].End()) {
      assert cut[if keep == 0 && i > k then i - 1 else i].Has(x);
    }
  }

  /** Keeps the cache within its bound: what is over is unmapped from the end of the entry just changed. */
  method Trim(p: Placed, cache: nat) returns (free: seq<Run>, gone: Run)
    requires p.Placed? && p.at < |p.free| && Sorted(p.free) && p.others <= cache
    requires Total(p.free) - p.free[p.at].size <= p.others
    ensures Sorted(free) && Total(free) <= cache
    ensures gone.size == 0 ==> free == p.free
    ensures gone.size > 0 ==> gone.size <= p.free[p.at].size && gone.End() == p.free[p.at].End()
    ensures forall x :: Covers(free, x) <==> Covers(p.free, x) && !gone.Has(x)
    ensures Total(free) + gone.size == Total(p.free)
    ensures gone.size == if p.free[p.at].size + p.others > cache then p.free[p.at].size + p.others - cache else 0
  {
    var pf, keep := p.free[p.at], cache - p.others;
    if pf.size > keep {
      gone := Run(pf.page + keep, pf.size - keep);
      free := if keep == 0 then p.free[..p.at] + p.free[p.at + 1..] else p.free[p.at := Run(pf.page, keep)];
      CutSorted(p.free, p.at, keep);
      CutTotal(p.free, p.at, keep);
      forall x
        ensures Covers(free, x) <==> Covers(p.free, x) && !gone.Has(x)
      {
        CutCovers(p.free, p.at, keep, x);
      }
    } else {
      free, gone := p.free, Run(0, 0);
    }
  }

  /** The entry trimmed keeps a page unless it was trimmed to nothing. */
  lemma EntryLost(p: Placed, free: seq<Run>, gone: Run)
    requires p.Placed? && p.at < |p.free| && Sorted(p.free)
    requires forall x :: Covers(free, x) <==> Covers(p.free, x) && !gone.Has(x)
    requires 0 < gone.size <= p.free[p.at].size && gone.End() == p.free[p.at].End()
    ensures (forall x | p.free[p.at].Has(x) :: !Covers(free, x)) <==> gone.size == p.free[p.at].size
  {
    var e := p.free[p.at];
    assert e.Has(e.page) && Covers(p.free, e.page);
  }

  /** How many pages a free sends back to the operating system. */
  ghost function Lost(free: seq<Run>, r: Run, cache: nat): nat {
    var want := Total(free) + r.size + Joined(free, r);
    if want > cache then want - cache else 0
  }

  /** The list after a free: the old pages and the run, less the last `Lost` pages of the entry the run is in. */
  ghost predicate AfterRelease(free0: seq<Run>, r: Run, cache: nat, free: seq<Run>) {
    var e, lost := EntryOf(free0, r), Lost(free0, r, cache);
    && Sorted(free) && Total(free) == Total(free0) + r.size - lost && lost <= e.size
    && forall x: nat :: Covers(free, x) <==> (Covers(free0, x) || r.Has(x)) && !(e.End() - lost <= x < e.End())
  }

  /**
    A whole free, on the list: for every run that overlaps nothing, the list stays sorted, disjoint
    and coalesced, covers what it did plus the run minus what is unmapped, and stays in its cache.
  */
  method Release(free0: seq<Run>, r: Run, cache: nat) returns (free: seq<Run>, gone: Run)
    requires Sorted(free0) && Apart(free0, r) && r.size > 0 && Total(free0) <= cache
    ensures AfterRelease(free0, r, cache, free) && Total(free) <= cache
    ensures forall x :: Covers(free, x) <==> (Covers(free0, x) || r.Has(x)) && !gone.Has(x)
    ensures forall x :: gone.Has(x) ==> Covers(free0, x) || r.Has(x)
    ensures gone.size == Lost(free0, r, cache) && (gone.size > 0 ==> gone.End() == EntryOf(free0, r).End())
    ensures gone.size > 0 ==>
              ((forall x | EntryOf(free0, r).Has(x) :: !Covers(free, x)) <==>
                Total(free0) == cache && !Touches(free0, r))
  {
    var p := Place(free0, r);
    InsertSorted(free0, r);
    InsertTotal(free0, r);
    EntrySize(free0, r);
    free, gone := Trim(p, cache);
    if gone.size > 0 { EntryLost(p, free, gone); }
    TrimmedCovers(free0, r, p, free, gone);
    ReleasedAs(free0, r, cache, free, gone);
  }

  lemma TrimmedCovers(free0: seq<Run>, r: Run, p: Placed, free: seq<Run>, gone: Run)
    requires p.Placed? && p.free == Insert(free0, r) && p.at < |p.free|
    requires gone.size > 0 ==> gone.size <= p.free[p.at].size && gone.End() == p.free[p.at].End()
    requires forall x :: Covers(free, x) <==> Covers(p.free, x) && !gone.Has(x)
    ensures forall x :: Covers(free, x) <==> (Covers(free0, x) || r.Has(x)) && !gone.Has(x)
    ensures forall x :: gone.Has(x) ==> Covers(free0, x) || r.Has(x)
  {
    forall x
      ensures Covers(p.free, x) <==> Covers(free0, x) || r.Has(x)
      ensures gone.Has(x) ==> Covers(p.free, x)
    {
      InsertCovers(free0, r, x);
      if gone.Has(x) { assert p.free[p.at].Has(x); }
    }
  }

  lemma ReleasedAs(free0: seq<Run>, r: Run, cache: nat, free: seq<Run>, gone: Run)
    requires Sorted(free) && Total(free) + gone.size == Total(free0) + r.size && gone.size == Lost(free0, r, cache)
    requires gone.size > 0 ==> gone.size <= EntryOf(free0, r).size && gone.End() == EntryOf(free0, r).End()
    requires forall x :: Covers(free, x) <==> (Covers(free0, x) || r.Has(x)) && !gone.Has(x)
    ensures AfterRelease(free0, r, cache, free)
  {
  }

  /** With one page of cache, taken by another entry, nothing is left of a freed page that touches no entry. */
  method FreedPageIsLost() returns (free: seq<Run>, gone: Run)
    ensures gone == Run(5, 1) && !Covers(free, 5) && Covers(free, 0)
  {
    var free0, r := [Run(0, 1)], Run(5, 1);
    assert Total(free0) == 1 && EntryOf(free0, r) == r && !Touches(free0, r);
    assert free0[0].Has(0);
    free, gone := Release(free0, r, 1);
  }
}
