/**
  The two levels of the allocator together: pages of chunks are runs of one page from the page
  level, marked as such, and go back to it once no chunk on them is in use.
*/
module SmallObjects {
  import opened Options
  import FreeList
  import opened PageAllocator
  import opened ChunkAllocator

  /** The pages marked as pages of chunks are exactly those of the chunk level, each a live run of its own. */
  ghost predicate Agree(dir: map<nat, Status>, live: map<nat, nat>, pages: set<nat>) {
    && (forall x: nat :: Look(dir, x).Chunks? <==> x in pages)
    && (forall g | g in pages :: g in live && live[g] == 1)
  }

  class Heap {
    const pages: Pages
    const chunks: ChunkAllocator.Chunks

    ghost predicate Valid()
      reads this, pages, chunks
    {
      pages.Valid() && chunks.Valid() && Agree(pages.dir, pages.live, chunks.pages.Keys)
    }

    constructor (guarding: bool, cache: nat)
      ensures Valid() && chunks.pages == map[] && pages.live == map[] && fresh(pages) && fresh(chunks)
    {
      pages := new Pages(guarding, cache);
      chunks := new ChunkAllocator.Chunks();
      new;
      NothingInUse(pages.dir, pages.free, pages.guard);
    }

    /** No free run has room for one page and its guard page. */
    ghost predicate NoPage()
      reads this, pages
    {
      forall i | 0 <= i < |pages.free| :: pages.free[i].size < 1 + pages.guard
    }

    /** A new page for chunks, from the page level. */
    method TakePage(os: Option<nat>) returns (p: Option<nat>)
      requires Valid()
      requires os.Some? ==> forall x: nat | os.value <= x < os.value + 1 + pages.guard :: Look(pages.dir, x).NotMine?
      modifies pages
      ensures pages.Valid() && (p.None? ==> Valid() && pages.live == old(pages.live))
      ensures p.None? <==> os.None? && old(NoPage())
      ensures p.Some? ==> p.value !in chunks.pages && Agree(pages.dir, pages.live, chunks.pages.Keys + {p.value})
      ensures p.Some? ==> p.value !in old(pages.live) && pages.live == old(pages.live)[p.value := 1]
    {
      p := pages.MallocPages(1, os);
      if p.Some? {
        TakenIsNew(old(pages.dir), old(pages.live), chunks.pages.Keys, pages.dir, p.value, pages.guard);
        MarkTaken(p.value);
      }
    }

    method MarkTaken(p: nat)
      requires pages.Valid() && p in pages.live && pages.live[p] == 1
      requires Agree(pages.dir, pages.live, chunks.pages.Keys)
      modifies pages
      ensures pages.Valid() && pages.live == old(pages.live)
      ensures Agree(pages.dir, pages.live, chunks.pages.Keys + {p})
    {
      ghost var dir := pages.dir;
      pages.SetChunks(p, true);
      MarkedAsChunks(dir, pages.live, chunks.pages.Keys, pages.dir, p);
    }

    /** Hands out a chunk, on a new page only if no page has a free one of its size. */
    method Malloc(size: nat, os: Option<nat>, garbage: nat -> bool, random: Option<nat>) returns (c: Option<Chunk>)
      requires Valid() && size <= MAXSIZE
      requires os.Some? ==> forall x: nat | os.value <= x < os.value + 1 + pages.guard :: Look(pages.dir, x).NotMine?
      modifies pages, chunks
      ensures Valid()
      ensures c.None? <==> old(chunks.Drained(size)) && os.None? && old(NoPage())
      ensures c.None? ==> chunks.pages == old(chunks.pages) && pages.live == old(pages.live)
      ensures c.Some? ==> Out(chunks.pages, c.value) && !Out(old(chunks.pages), c.value)
      ensures c.Some? ==> SizeFits(size, chunks.pages[c.value.page].bucket) && Chosen(chunks.pages, c.value, random)
      ensures c.Some? ==>
                var j := chunks.pages[c.value.page].bucket;
                Served(old(chunks.queues), chunks.queues, j, c.value.page, old(chunks.Drained(size)),
                    chunks.pages[c.value.page].free == 0)
      ensures c.Some? ==> forall d :: d != c.value ==> (Out(chunks.pages, d) <==> Out(old(chunks.pages), d))
      ensures c.Some? && !old(chunks.Drained(size)) ==> pages.live == old(pages.live)
      ensures c.Some? && old(chunks.Drained(size)) ==>
                c.value.page !in old(pages.live) && pages.live == old(pages.live)[c.value.page := 1]
    {
      var fresh' := None;
      if chunks.Drained(size) {
        var p := TakePage(os);
        if p.None? { return None; }
        fresh' := Some(FreshPage(p.value, garbage));
      }
      c := chunks.MallocBytes(size, fresh', random);
    }

    /** Takes a chunk back; a page that is left without one returns to the page level. */
    method Free(ptr: nat) returns (r: FreeResult)
      requires Valid() && ptr / PAGE in chunks.pages
      requires Stolen(chunks.pages[ptr / PAGE].bucket) <= SlotOf(ptr, chunks.pages[ptr / PAGE].bucket)
      modifies pages, chunks
      ensures Valid()
      ensures !r.Freed? ==> chunks.pages == old(chunks.pages) && pages.live == old(pages.live)
      ensures r.Freed? ==> var c := Chunk(ptr / PAGE, SlotOf(ptr, old(chunks.pages)[ptr / PAGE].bucket));
                Out(old(chunks.pages), c) && forall d :: Out(chunks.pages, d) <==> Out(old(chunks.pages), d) && d != c
      ensures r.BadPointer? <==> ptr % ChunkSize(old(chunks.pages)[ptr / PAGE].bucket) != 0
      ensures r.AlreadyFree? ==>
                !Out(old(chunks.pages), Chunk(ptr / PAGE, SlotOf(ptr, old(chunks.pages)[ptr / PAGE].bucket)))
      ensures r.Freed? ==>
                (r.released <==>
                  LastOut(old(chunks.pages), Chunk(ptr / PAGE, SlotOf(ptr, old(chunks.pages)[ptr / PAGE].bucket))))
      ensures r.Freed? ==>
                var j, full := old(chunks.pages)[ptr / PAGE].bucket, old(chunks.pages)[ptr / PAGE].free == 0;
                && j in chunks.queues && j in old(chunks.queues)
                && chunks.queues == old(chunks.queues)[j := chunks.queues[j]]
                && Requeued(old(chunks.queues)[j], chunks.queues[j], ptr / PAGE, full, r.released)
      ensures r.Freed? ==> pages.live == if r.released then old(pages.live) - {ptr / PAGE} else old(pages.live)
      ensures if r.Freed? && r.released
              then ptr / PAGE in old(pages.live) && old(pages.live)[ptr / PAGE] == 1
                && Reclaims(old(pages.free), old(pages.live), ptr / PAGE, pages.guard, pages.cache, pages.free)
              else pages.free == old(pages.free)
    {
      r := chunks.FreeBytes(ptr);
      if r.Freed? && r.released { ReturnPage(ptr / PAGE, old(chunks.pages.Keys)); }
    }

    /** A page with no chunk in use is an ordinary run again, and is freed as one. */
    method ReturnPage(g: nat, ghost keys: set<nat>)
      requires pages.Valid() && chunks.Valid() && g in keys && chunks.pages.Keys == keys - {g}
      requires Agree(pages.dir, pages.live, keys)
      modifies pages
      ensures Valid() && pages.live == old(pages.live) - {g}
      ensures g in old(pages.live) && old(pages.live)[g] == 1
      ensures Reclaims(old(pages.free), old(pages.live), g, pages.guard, pages.cache, pages.free)
    {
      pages.SetChunks(g, false);
      ghost var dir, live, guard := pages.dir, pages.live, pages.guard;
      GuardIsFirst(dir, pages.free, live, guard, g);
      var warned := pages.FreePages(g);
      GivenBack(old(pages.dir), live, keys, dir, pages.dir, g, guard);
    }
  }

  lemma GuardIsFirst(dir: map<nat, Status>, free: seq<FreeList.Run>, live: map<nat, nat>, guard: nat, g: nat)
    requires Partition(dir, free, live, guard) && g in live && live[g] == 1
    ensures guard > 0 ==> Look(dir, g + 1).First?
  {
    assert Marked(dir, g, live[g], guard);
  }

  lemma NothingInUse(dir: map<nat, Status>, free: seq<FreeList.Run>, guard: nat)
    requires Partition(dir, free, map[], guard)
    ensures forall x: nat :: !InUse(Look(dir, x))
  {
  }

  /** A run just taken has none of the pages of chunks, and marks none as such. */
  lemma TakenIsNew(dir: map<nat, Status>, live: map<nat, nat>, pages: set<nat>, dir': map<nat, Status>, p: nat,
      guard: nat)
    requires Agree(dir, live, pages) && MarksRun(dir, dir', p, 1, guard) && p !in live
    requires forall x: nat | p <= x < p + 1 + guard :: !InUse(Look(dir, x))
    ensures p !in pages && Agree(dir', live[p := 1], pages)
  {
    forall x: nat
      ensures Look(dir', x).Chunks? <==> x in pages
    {
      assert Look(dir, x).Chunks? <==> x in pages;
    }
    assert !Look(dir, p).Chunks?;
  }

  lemma MarkedAsChunks(dir: map<nat, Status>, live: map<nat, nat>, pages: set<nat>, dir': map<nat, Status>, p: nat)
    requires Agree(dir, live, pages)
    requires p in live && live[p] == 1 && forall x: nat :: Look(dir', x) == if x == p then Chunks else Look(dir, x)
    ensures Agree(dir', live, pages + {p})
  {
  }

  /** Unmarked and freed, the page is no longer one of chunks, and all others are. */
  lemma GivenBack(dir0: map<nat, Status>, live: map<nat, nat>, keys: set<nat>, dir1: map<nat, Status>,
      dir2: map<nat, Status>, g: nat, guard: nat)
    requires Agree(dir0, live, keys) && g in keys && guard <= 1
    requires forall x: nat :: Look(dir1, x) == if x == g then First else Look(dir0, x)
    requires Releases(dir1, dir2, g, 1 + guard) && (guard > 0 ==> Look(dir1, g + 1).First?)
    ensures Agree(dir2, live - {g}, keys - {g})
  {
    forall x: nat
      ensures Look(dir2, x).Chunks? <==> x in keys - {g}
    {
      assert Look(dir0, x).Chunks? <==> x in keys;
      assert Look(dir1, x) == if x == g then First else Look(dir0, x);
      assert InUse(Look(dir2, x)) <==> InUse(Look(dir1, x)) && !(g <= x < g + (1 + guard));
    }
  }
}
