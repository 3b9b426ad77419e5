/**
  The small-object level of the allocator: pages divided into chunks of a power of two, with a
  bitmap of free chunks whose unused high bits are never initialised.
*/
module ChunkAllocator {
  import opened Options
  import opened Sequences

  const PAGE := 4096
  const BITS := 64
  const MINSIZE := 16
  const MAXSIZE := 2048

  // ---- geometry of a chunk page ----

  function Pow2(n: nat): nat {
    if n == 0 then 1 else 2 * Pow2(n - 1)
  }

  /** Bucket 0 serves requests for nothing; buckets 4 to 11 chunks of 16 to 2048 bytes. */
  predicate IsBucket(j: nat) {
    j == 0 || 4 <= j <= 11
  }

  /** The shift of a bucket's chunk size; bucket 0 hands out chunks of the smallest size. */
  function Shift(j: nat): nat {
    if j == 0 then 4 else j
  }

  function ChunkSize(j: nat): nat {
    match j
    case 5 => 32
    case 6 => 64
    case 7 => 128
    case 8 => 256
    case 9 => 512
    case 10 => 1024
    case 11 => 2048
    case _ => MINSIZE
  }

  /** How many chunks a page of this bucket is divided into. */
  function Slots(j: nat): nat {
    match j
    case 5 => 128
    case 6 => 64
    case 7 => 32
    case 8 => 16
    case 9 => 8
    case 10 => 4
    case 11 => 2
    case _ => 256
  }

  /** The words of the bitmap; for bucket 0 the code reserves far more than it uses. */
  function Words(j: nat): nat {
    ((if j == 0 then PAGE else Slots(j)) + BITS - 1) / BITS
  }

  function HeaderLen(j: nat): nat {
    24 + 8 * Words(j)
  }

  /** The header lives in the page itself when it takes at most two chunks' worth of bytes. */
  predicate InPage(j: nat) {
    j != 0 && ChunkSize(j) <= 2 * HeaderLen(j)
  }

  /** The chunks the header takes for itself. */
  function Stolen(j: nat): nat {
    if !InPage(j) then 0 else if j == 4 then 4 else if j == 5 then 2 else 1
  }

  /** Chunks of a power of two tile the page, the header just fits in what it takes, and two chunks are left. */
  lemma Geometry(j: nat)
    requires IsBucket(j)
    ensures ChunkSize(j) == Pow2(Shift(j)) && Slots(j) * ChunkSize(j) == PAGE
    ensures Stolen(j) + 2 <= Slots(j) <= BITS * Words(j)
    ensures InPage(j) ==> HeaderLen(j) <= Stolen(j) * ChunkSize(j) < HeaderLen(j) + ChunkSize(j)
    ensures ChunkSize(j) == if j == 0 then 16 else Pow2(j)
    ensures HeaderLen(j) == match j case 0 => 536 case 4 => 56 case 5 => 40 case _ => 32
    ensures Words(j) == match j case 0 => 64 case 4 => 4 case 5 => 2 case _ => 1
    ensures Stolen(j) == match j case 4 => 4 case 5 => 2 case 6 => 1 case _ => 0
    ensures InPage(j) <==> 4 <= j <= 6
  {
    Sizes();
  }

  lemma Sizes()
    ensures Pow2(4) == 16 && Pow2(5) == 32 && Pow2(6) == 64 && Pow2(7) == 128
    ensures Pow2(8) == 256 && Pow2(9) == 512 && Pow2(10) == 1024 && Pow2(11) == 2048
  {
    assert Pow2(2) == 4;
    assert Pow2(4) == 16;
    assert Pow2(6) == 64;
    assert Pow2(8) == 256;
    assert Pow2(10) == 1024;
  }

  // ---- choosing the bucket ----

  /** The bucket of the smallest chunks that are large enough. */
  function Bucket(size: nat): (j: nat)
    ensures IsBucket(j)
  {
    if size == 0 then 0
    else if size <= 16 then 4
    else if size <= 32 then 5
    else if size <= 64 then 6
    else if size <= 128 then 7
    else if size <= 256 then 8
    else if size <= 512 then 9
    else if size <= 1024 then 10
    else 11
  }

  /** The shift loop that finds the bucket of a request: the smallest chunks that are large enough. */
  method BucketOf(size: nat) returns (j: nat)
    requires size <= MAXSIZE
    ensures IsBucket(j)
    ensures SizeFits(size, j) && j == Bucket(size)
  {
    if size == 0 { return 0; }
    var need := if size < MINSIZE then MINSIZE else size;
    j := 1;
    var ii: nat := (need - 1) / 2;
    assert Pow2(1) == 2;
    while ii != 0
      invariant j >= 1 && ii * Pow2(j) <= need - 1 < ii * Pow2(j) + Pow2(j)
      invariant j > 1 ==> Pow2(j - 1) <= need - 1
      decreases ii
    {
      HalveBound(ii, Pow2(j), need - 1);
      ii := ii / 2;
      j := j + 1;
    }
    BucketBound(need, j);
    Geometry(j);
    OnlyBucket(size, j);
  }

  lemma OnlyBucket(size: nat, j: nat)
    requires 0 < size <= MAXSIZE && 4 <= j <= 11 && size <= ChunkSize(j)
    requires if size <= MINSIZE then j == 4 else ChunkSize(j) < 2 * size
    ensures j == Bucket(size)
  {
  }

  lemma HalveBound(ii: nat, p: nat, m: nat)
    requires ii > 0 && ii * p <= m < ii * p + p
    ensures p <= m && (ii / 2) * (2 * p) <= m < (ii / 2) * (2 * p) + 2 * p
  {
    var h := ii / 2;
    assert h * (2 * p) == (2 * h) * p;
    if ii == 2 * h {
      assert ii * p == p + (ii - 1) * p;
    } else {
      assert ii * p == (2 * h) * p + p;
    }
  }

  /** The bucket of a request between the smallest and the largest chunk. */
  lemma BucketBound(need: nat, j: nat)
    requires MINSIZE <= need <= MAXSIZE && j >= 1 && need <= Pow2(j) && (j > 1 ==> Pow2(j - 1) < need)
    ensures 4 <= j <= 11 && Pow2(j) < 2 * need
  {
    Sizes();
    if j < 4 { Pow2Grows(j, 3); }
    if j > 11 { Pow2Grows(11, j - 1); }
  }

  lemma {:induction false} Pow2Grows(i: nat, j: nat)
    requires i <= j
    ensures Pow2(i) <= Pow2(j)
  {
    if i < j { Pow2Grows(i, j - 1); }
  }

  // ---- the bitmap ----

  ghost function Count(bits: seq<bool>, lo: nat, hi: nat): nat
    requires lo <= hi <= |bits|
    decreases hi - lo
  {
    if lo == hi then 0 else (if bits[lo] then 1 else 0) + Count(bits, lo + 1, hi)
  }

  lemma {:induction false} CountSplit(bits: seq<bool>, lo: nat, mid: nat, hi: nat)
    requires lo <= mid <= hi <= |bits|
    ensures Count(bits, lo, hi) == Count(bits, lo, mid) + Count(bits, mid, hi)
    decreases mid - lo
  {
    if lo < mid { CountSplit(bits, lo + 1, mid, hi); }
  }

  lemma {:induction false} CountSame(bits: seq<bool>, bits': seq<bool>, lo: nat, hi: nat)
    requires lo <= hi <= |bits| == |bits'| && forall k | lo <= k < hi :: bits[k] == bits'[k]
    ensures Count(bits, lo, hi) == Count(bits', lo, hi)
    decreases hi - lo
  {
    if lo < hi { CountSame(bits, bits', lo + 1, hi); }
  }

  lemma CountFlip(bits: seq<bool>, k: nat, hi: nat)
    requires k < hi <= |bits|
    ensures Count(bits[k := !bits[k]], 0, hi) == Count(bits, 0, hi) + if bits[k] then -1 else 1
  {
    var bits' := bits[k := !bits[k]];
    CountSplit(bits, 0, k, hi);
    CountSplit(bits', 0, k, hi);
    CountSame(bits, bits', 0, k);
    CountSame(bits, bits', k + 1, hi);
  }

  lemma {:induction false} CountAll(bits: seq<bool>, lo: nat, hi: nat, b: bool)
    requires lo <= hi <= |bits| && forall k | lo <= k < hi :: bits[k] == b
    ensures Count(bits, lo, hi) == if b then hi - lo else 0
    decreases hi - lo
  {
    if lo < hi { CountAll(bits, lo + 1, hi, b); }
  }

  /** A page of chunks. `bits` is the whole bitmap, initialised or not; a set bit means free. */
  datatype PgInfo = PgInfo(bucket: nat, free: nat, total: nat, bits: seq<bool>)

  /** The bitmap and the counters agree, and the header's own chunks are never free. */
  ghost predicate InfoOk(info: PgInfo) {
    var j := info.bucket;
    && IsBucket(j) && |info.bits| == BITS * Words(j) && Slots(j) <= |info.bits|
    && info.total == Slots(j) - Stolen(j)
    && info.free == Count(info.bits, 0, Slots(j))
    && forall k | 0 <= k < Stolen(j) && k < |info.bits| :: !info.bits[k]
  }

  /** The loops that set all valid bits: a word at a time, then the rest bit by bit. */
  method SetValid(garbage: seq<bool>, n: nat) returns (bits: seq<bool>)
    requires n <= |garbage|
    ensures |bits| == |garbage| && (forall k | 0 <= k < n :: bits[k])
            && (forall k | n <= k < |bits| :: bits[k] == garbage[k])
  {
    bits := garbage;
    var i := 0;
    while n - i >= BITS
      invariant i <= n && |bits| == |garbage|
      invariant (forall k | 0 <= k < i :: bits[k]) && (forall k | i <= k < |bits| :: bits[k] == garbage[k])
    {
      bits := bits[..i] + seq(BITS, _ => true) + bits[i + BITS..];
      i := i + BITS;
    }
    while i < n
      invariant i <= n && |bits| == |garbage|
      invariant (forall k | 0 <= k < i :: bits[k]) && (forall k | i <= k < |bits| :: bits[k] == garbage[k])
    {
      bits := bits[i := true];
      i := i + 1;
    }
  }

  /** Sets up a page of chunks, over whatever `garbage` the bitmap's memory held. */
  method MakeChunks(j: nat, garbage: seq<bool>) returns (info: PgInfo)
    requires IsBucket(j) && |garbage| == BITS * Words(j)
    ensures InfoOk(info) && info.bucket == j && info.free == info.total
    ensures forall k | Stolen(j) <= k < Slots(j) && k < |info.bits| :: info.bits[k]
  {
    hide Pow2, Words;
    Geometry(j);
    var bits := SetValid(garbage, Slots(j));
    CountAll(bits, 0, Slots(j), true);
    var free, total := Slots(j), Slots(j);
    if InPage(j) {
      var i, k := 0, HeaderLen(j);
      while k > 0
        invariant i <= Stolen(j) && k == HeaderLen(j) - i * ChunkSize(j) && (i == Stolen(j) ==> k <= 0)
        invariant |bits| == |garbage| && free == total == Slots(j) - i && free == Count(bits, 0, Slots(j))
        invariant (forall n | 0 <= n < i :: !bits[n]) && (forall n | i <= n < Slots(j) :: bits[n])
        decreases k
      {
        CountFlip(bits, i, Slots(j));
        bits := bits[i := false];
        free, total := free - 1, total - 1;
        StealNext(j, i);
        k := k - ChunkSize(j);
        i := i + 1;
      }
      StealEnd(j, i);
    }
    info := PgInfo(j, free, total, bits);
  }

  lemma StealNext(j: nat, i: nat)
    requires IsBucket(j) && InPage(j) && i <= Stolen(j) && HeaderLen(j) - i * ChunkSize(j) > 0
    ensures i < Stolen(j) && (i + 1) * ChunkSize(j) == i * ChunkSize(j) + ChunkSize(j)
    ensures i + 1 == Stolen(j) ==> HeaderLen(j) - (i + 1) * ChunkSize(j) <= 0
  {
    if j == 4 {} else if j == 5 {} else {}
  }

  lemma StealEnd(j: nat, i: nat)
    requires IsBucket(j) && InPage(j) && i <= Stolen(j) && HeaderLen(j) - i * ChunkSize(j) <= 0
    ensures i == Stolen(j)
  {
    if j == 4 {} else if j == 5 {} else {}
  }

  // ---- finding a free chunk ----

  lemma {:induction false} SomeSet(bits: seq<bool>, lo: nat, hi: nat) returns (k: nat)
    requires lo <= hi <= |bits| && Count(bits, lo, hi) > 0
    ensures lo <= k < hi && bits[k]
    decreases hi - lo
  {
    if bits[lo] { k := lo; } else { k := SomeSet(bits, lo + 1, hi); }
  }

  predicate WordEmpty(bits: seq<bool>, w: nat)
    requires BITS * w + BITS <= |bits|
  {
    forall k | BITS * w <= k < BITS * w + BITS :: !bits[k]
  }

  /** The first word that is not empty, then its lowest bit: among the valid bits if one of them is set. */
  method LowestBit(bits: seq<bool>, ghost n: nat) returns (k: nat)
    requires |bits| % BITS == 0 && n <= |bits| && Count(bits, 0, n) > 0
    ensures k < n && bits[k] && forall i | 0 <= i < k :: !bits[i]
  {
    ghost var some := SomeSet(bits, 0, n);
    var w := 0;
    while WordEmpty(bits, w)
      invariant BITS * w <= some && BITS * w + BITS <= |bits| && forall i | 0 <= i < BITS * w :: !bits[i]
      decreases |bits| - w
    {
      w := w + 1;
    }
    k := BITS * w;
    while !bits[k]
      invariant k <= some && forall i | 0 <= i < k :: !bits[i]
      decreases some - k
    {
      k := k + 1;
    }
  }

  /** The guarded mode's walk over `steps` further set bits; it stays among the valid ones. */
  method Walk(bits: seq<bool>, k0: nat, steps: nat, ghost n: nat) returns (k: nat)
    requires k0 < n <= |bits| && bits[k0] && steps <= Count(bits, k0 + 1, n)
    ensures k0 <= k < n && bits[k] && Count(bits, k0 + 1, k + 1) == steps
  {
    k := k0;
    var i := steps;
    while i > 0
      invariant k0 <= k < n && 0 <= i <= steps && i <= Count(bits, k + 1, n)
      invariant Count(bits, k0 + 1, k + 1) + i == steps
      invariant i == 0 ==> bits[k]
      decreases n - k
    {
      CountSplit(bits, k0 + 1, k + 1, k + 2);
      k := k + 1;
      if bits[k] { i := i - 1; }
    }
  }

  /** The bit that an allocation takes: the lowest, or in guarded mode one chosen by `random`. */
  method PickBit(info: PgInfo, random: Option<nat>) returns (k: nat)
    requires InfoOk(info) && info.free > 0
    ensures Stolen(info.bucket) <= k < Slots(info.bucket) && info.bits[k]
    ensures random.None? ==> forall i | 0 <= i < k :: !info.bits[i]
    ensures random.Some? ==> Count(info.bits, 0, k) == random.value % info.free
  {
    WholeWords(info.bits, Words(info.bucket));
    k := PickAmong(info.bits, random, info.free, Slots(info.bucket));
  }

  lemma WholeWords(bits: seq<bool>, words: nat)
    requires |bits| == BITS * words
    ensures |bits| % BITS == 0
  {
  }

  method PickAmong(bits: seq<bool>, random: Option<nat>, free: nat, ghost n: nat) returns (k: nat)
    requires |bits| % BITS == 0 && n <= |bits| && 0 < free == Count(bits, 0, n)
    ensures k < n && bits[k]
    ensures random.None? ==> forall i | 0 <= i < k :: !bits[i]
    ensures random.Some? ==> Count(bits, 0, k) == random.value % free
  {
    k := LowestBit(bits, n);
    CountAll(bits, 0, k, false);
    CountSplit(bits, 0, k, n);
    if random.Some? {
      var k0 := k;
      k := Walk(bits, k0, random.value % free, n);
      CountSplit(bits, 0, k0, k);
      CountSplit(bits, 0, k, k + 1);
      CountSplit(bits, 0, k0, k + 1);
    }
  }

  // ---- the allocator ----

  /** A chunk, by its page and its number on the page. */
  datatype Chunk = Chunk(page: nat, slot: nat)

  ghost predicate OnPage(pages: map<nat, PgInfo>, c: Chunk) {
    c.page in pages && Stolen(pages[c.page].bucket) <= c.slot < Slots(pages[c.page].bucket)
  }

  /** The chunk is handed out. */
  ghost predicate Out(pages: map<nat, PgInfo>, c: Chunk) {
    OnPage(pages, c) && c.slot < |pages[c.page].bits| && !pages[c.page].bits[c.slot]
  }

  /** The chunks of a page with a number below `n` that are not handed out. */
  ghost function FreeBelow(pages: map<nat, PgInfo>, g: nat, n: nat): set<nat>
    requires g in pages
  {
    set k | Stolen(pages[g].bucket) <= k < n && !Out(pages, Chunk(g, k))
  }

  /**
    The chunk is the one to take from its page: the lowest of those free before, or in guarded mode
    the one that a random number of them precede. It is itself out by now.
  */
  ghost predicate Chosen(pages: map<nat, PgInfo>, c: Chunk, random: Option<nat>)
    requires c.page in pages
  {
    |FreeBelow(pages, c.page, c.slot)| ==
      if random.None? then 0
      else random.value % (|FreeBelow(pages, c.page, Slots(pages[c.page].bucket))| + 1)
  }

  /** Chunks as small as possible for the request, and a bucket of their own for requests for nothing. */
  ghost predicate SizeFits(size: nat, j: nat) {
    && (j == 0 <==> size == 0) && size <= ChunkSize(j)
    && ChunkSize(j) < 2 * if size < MINSIZE then MINSIZE else size
  }

  ghost predicate PagesOk(pages: map<nat, PgInfo>) {
    forall g <- pages :: InfoOk(pages[g])
  }

  lemma {:induction false} FreeBelowCount(pages: map<nat, PgInfo>, g: nat, n: nat)
    requires g in pages && InfoOk(pages[g]) && Stolen(pages[g].bucket) <= n <= Slots(pages[g].bucket)
    ensures |FreeBelow(pages, g, n)| == Count(pages[g].bits, 0, n)
    decreases n
  {
    var bits, lo := pages[g].bits, Stolen(pages[g].bucket);
    if n == lo {
      CountAll(bits, 0, n, false);
      assert FreeBelow(pages, g, n) == {};
    } else {
      FreeBelowCount(pages, g, n - 1);
      CountSplit(bits, 0, n - 1, n);
      FreeBelowNext(pages, g, n - 1);
    }
  }

  lemma FreeBelowNext(pages: map<nat, PgInfo>, g: nat, k: nat)
    requires g in pages && Stolen(pages[g].bucket) <= k < Slots(pages[g].bucket) && k < |pages[g].bits|
    ensures |FreeBelow(pages, g, k + 1)| == |FreeBelow(pages, g, k)| + if pages[g].bits[k] then 1 else 0
  {
    var more := if pages[g].bits[k] then {k} else {};
    assert FreeBelow(pages, g, k + 1) == FreeBelow(pages, g, k) + more && k !in FreeBelow(pages, g, k);
  }

  /** What `PickBit` promises of the page before, said of the page after. */
  lemma PickedIsChosen(pages: map<nat, PgInfo>, g: nat, k: nat, info: PgInfo, random: Option<nat>)
    requires g in pages && InfoOk(pages[g]) && InfoOk(info) && info.free > 0
    requires Stolen(info.bucket) <= k < Slots(info.bucket) && k < |info.bits| && info.bits[k]
    requires pages[g] == info.(bits := info.bits[k := false], free := info.free - 1)
    requires random.None? ==> forall i | 0 <= i < k :: !info.bits[i]
    requires random.Some? ==> Count(info.bits, 0, k) == random.value % info.free
    ensures Chosen(pages, Chunk(g, k), random)
  {
    FreeBelowCount(pages, g, k);
    FreeBelowCount(pages, g, Slots(info.bucket));
    CountSame(info.bits, pages[g].bits, 0, k);
    if random.None? { CountAll(info.bits, 0, k, false); }
  }

  function Address(c: Chunk, j: nat): nat {
    PAGE * c.page + c.slot * ChunkSize(j)
  }

  lemma SlotInPage(j: nat, slot: nat)
    requires IsBucket(j) && Stolen(j) <= slot < Slots(j)
    ensures slot * ChunkSize(j) + ChunkSize(j) <= PAGE
    ensures InPage(j) ==> HeaderLen(j) <= slot * ChunkSize(j)
  {
    if j == 0 || j == 4 {} else if j == 5 {} else if j == 6 {} else if j == 7 {}
    else if j == 8 {} else if j == 9 {} else if j == 10 {} else {}
  }

  lemma SlotsApart(j: nat, a: nat, b: nat)
    requires IsBucket(j) && a < b
    ensures a * ChunkSize(j) + ChunkSize(j) <= b * ChunkSize(j)
  {
    if j == 0 || j == 4 {} else if j == 5 {} else if j == 6 {} else if j == 7 {}
    else if j == 8 {} else if j == 9 {} else if j == 10 {} else {}
  }

  lemma MultipleDivides(a: nat, q: nat)
    requires a > 0
    ensures (a * q) % a == 0
  {
    var d, r := (a * q) / a, (a * q) % a;
    RemainderOfMultiple(a, q, d, r);
  }

  lemma RemainderOfMultiple(a: int, q: int, d: int, r: int)
    requires a * q == a * d + r && 0 <= r < a
    ensures r == 0
  {
    var k := q - d;
    assert r == a * k;
  }

  lemma SlotAligned(j: nat, page: nat, slot: nat)
    requires IsBucket(j)
    ensures Address(Chunk(page, slot), j) % ChunkSize(j) == 0
  {
    var q := Slots(j) * page + slot;
    assert Address(Chunk(page, slot), j) == ChunkSize(j) * q by {
      if j == 0 || j == 4 {} else if j == 5 {} else if j == 6 {} else if j == 7 {}
      else if j == 8 {} else if j == 9 {} else if j == 10 {} else {}
    }
    MultipleDivides(ChunkSize(j), q);
  }

  /**
    Outstanding chunks are disjoint, aligned to their size, inside their page, and never over the
    header that may live at the start of it.
  */
  lemma OutstandingAreSafe(pages: map<nat, PgInfo>, c: Chunk, d: Chunk)
    requires PagesOk(pages) && Out(pages, c) && Out(pages, d)
    ensures var j, k := pages[c.page].bucket, pages[d.page].bucket;
            && PAGE * c.page <= Address(c, j) && Address(c, j) + ChunkSize(j) <= PAGE * c.page + PAGE
            && Address(c, j) % ChunkSize(j) == 0
            && (InPage(j) ==> PAGE * c.page + HeaderLen(j) <= Address(c, j))
            && (c != d ==>
                    Address(c, j) + ChunkSize(j) <= Address(d, k) || Address(d, k) + ChunkSize(k) <= Address(c, j))
  {
    var j, k := pages[c.page].bucket, pages[d.page].bucket;
    SlotInPage(j, c.slot);
    SlotInPage(k, d.slot);
    SlotAligned(j, c.page, c.slot);
    if c.page == d.page {
      if c.slot < d.slot { SlotsApart(j, c.slot, d.slot); } else if d.slot < c.slot { SlotsApart(j, d.slot, c.slot); }
    }
  }

  ghost predicate QueueOk(pages: map<nat, PgInfo>, q: seq<nat>, j: nat) {
    NoRepeats(q) && forall g :: g in q <==> g in pages && pages[g].bucket == j && pages[g].free > 0
  }

  ghost predicate QueuesOk(pages: map<nat, PgInfo>, queues: map<nat, seq<nat>>) {
    forall j | IsBucket(j) :: j in queues && QueueOk(pages, queues[j], j)
  }

  lemma TakeOk(info: PgInfo, k: nat)
    requires InfoOk(info) && Stolen(info.bucket) <= k < Slots(info.bucket) && k < |info.bits| && info.bits[k]
    ensures info.free > 0 && InfoOk(info.(bits := info.bits[k := false], free := info.free - 1))
  {
    CountFlip(info.bits, k, Slots(info.bucket));
  }

  lemma GiveOk(info: PgInfo, k: nat)
    requires InfoOk(info) && Stolen(info.bucket) <= k < Slots(info.bucket) && k < |info.bits| && !info.bits[k]
    ensures InfoOk(info.(bits := info.bits[k := true], free := info.free + 1)) && info.free < info.total
  {
    var n := Slots(info.bucket);
    CountFlip(info.bits, k, n);
    CountSplit(info.bits, 0, Stolen(info.bucket), n);
    CountAll(info.bits, 0, Stolen(info.bucket), false);
    CountBound(info.bits, Stolen(info.bucket), n, k);
  }

  /** Taking back a clear bit keeps the page consistent exactly if it is not one of the header's own. */
  lemma HeaderBitIff(info: PgInfo, k: nat)
    requires InfoOk(info) && k < Slots(info.bucket) && k < |info.bits| && !info.bits[k]
    ensures InfoOk(info.(bits := info.bits[k := true], free := info.free + 1)) <==> Stolen(info.bucket) <= k
  {
    if Stolen(info.bucket) <= k { GiveOk(info, k); }
    assert info.bits[k := true][k];
  }

  lemma {:induction false} CountBound(bits: seq<bool>, lo: nat, hi: nat, k: nat)
    requires lo <= hi <= |bits|
    ensures Count(bits, lo, hi) <= hi - lo && (lo <= k < hi && !bits[k] ==> Count(bits, lo, hi) < hi - lo)
    decreases hi - lo
  {
    if lo < hi { CountBound(bits, lo + 1, hi, k); }
  }

  /** Where a page that regains a free chunk goes in its queue: the scan looks one page too far ahead. */
  ghost function InsertIndex(q: seq<nat>, page: nat): nat {
    if |q| > 1 && q[1] < page then 1 + InsertIndex(q[1..], page) else 0
  }

  /** All pages up to index `m` but the first, which is never looked at, lie below `page`, and the next does not. */
  ghost predicate ScanStops(q: seq<nat>, page: nat, m: nat) {
    && (if q == [] then m == 0 else m < |q|)
    && (forall i | 1 <= i <= m :: q[i] < page)
    && (m + 1 < |q| ==> q[m + 1] >= page)
  }

  method InsertAt(q: seq<nat>, page: nat) returns (m: nat)
    ensures m == InsertIndex(q, page) && ScanStops(q, page, m)
  {
    m := 0;
    assert q[0..] == q;
    while m + 1 < |q| && q[m + 1] < page
      invariant m <= |q| && m + InsertIndex(q[m..], page) == InsertIndex(q, page)
      invariant (if q == [] then m == 0 else m < |q|) && forall i | 1 <= i <= m :: q[i] < page
    {
      assert q[m..][1..] == q[m + 1..];
      m := m + 1;
    }
  }

  /** The scan keeps its queue in address order exactly when the page goes in front of all others. */
  lemma AddressOrderIff(q: seq<nat>, page: nat)
    requires Increasing(q) && page !in q
    ensures var m := InsertIndex(q, page);
            m <= |q| && (Increasing(q[..m] + [page] + q[m..]) <==> q == [] || page < q[0])
  {
    InsertIndexBound(q, page);
    var m := InsertIndex(q, page);
    var q' := q[..m] + [page] + q[m..];
    if q != [] && q[0] < page {
      assert q'[m] == page && q'[m + 1] == q[m] && q[m] < page;
    } else {
      assert q' == [page] + q;
    }
  }

  /** With page 1 in the queue, page 2 is put in front of it. */
  lemma SecondPageGoesFirst()
    ensures InsertIndex([1], 2) == 0 && Increasing([1]) && !Increasing([2] + [1])
  {
    var q: seq<nat> := [2] + [1];
    assert q[0] > q[1];
  }

  lemma {:induction false} InsertIndexBound(q: seq<nat>, page: nat)
    requires Increasing(q)
    ensures var m := InsertIndex(q, page);
            if q == [] then m == 0
            else m < |q| && (q[0] < page ==> q[m] < page) && (page <= q[0] ==> m == 0)
  {
    if |q| > 1 && q[1] < page { InsertIndexBound(q[1..], page); }
  }

  /** A fresh page from the page level, with whatever the memory of its bitmap holds. */
  datatype FreshPage = FreshPage(page: nat, garbage: nat -> bool)

  datatype FreeResult = BadPointer | AlreadyFree | Freed(released: bool)

  /** A chunk of bucket `j` comes from page `g`, the front of its queue, which leaves the queue if that was its last. */
  ghost predicate Served(qs: map<nat, seq<nat>>, qs': map<nat, seq<nat>>, j: nat, g: nat, drained: bool, last: bool) {
    && j in qs
    && var q := if drained then [g] else qs[j];
       q != [] && q[0] == g && qs' == qs[j := if last then q[1..] else q]
  }

  /** The queue of a page that got a chunk back: the page joins it, leaves it, or stays where it is. */
  ghost predicate Requeued(q: seq<nat>, q': seq<nat>, g: nat, wasFull: bool, released: bool) {
    if wasFull then exists m: nat | m <= |q| && ScanStops(q, g, m) :: q' == q[..m] + [g] + q[m..]
    else if released then exists m: nat | m < |q| && q[m] == g :: q' == q[..m] + q[m + 1..]
    else q' == q
  }

  class Chunks {
    var pages: map<nat, PgInfo>
    var queues: map<nat, seq<nat>>

    ghost predicate Valid()
      reads this
    {
      PagesOk(pages) && QueuesOk(pages, queues)
    }

    /** No page with a free chunk of this size is left. */
    predicate Drained(size: nat)
      reads this
    {
      Bucket(size) in queues && queues[Bucket(size)] == []
    }

    constructor ()
      ensures Valid() && pages == map[]
    {
      pages := map[];
      queues := map[0 := [], 4 := [], 5 := [], 6 := [], 7 := [], 8 := [], 9 := [], 10 := [], 11 := []];
    }

    /**
      Hands out a chunk of at least `size` bytes, from the first page of its queue or from a fresh
      page; `random` is the random number of the guarded mode.
    */
    method MallocBytes(size: nat, fresh': Option<FreshPage>, random: Option<nat>) returns (c: Option<Chunk>)
      requires Valid() && size <= MAXSIZE
      requires fresh'.Some? ==> fresh'.value.page !in pages
      modifies this
      ensures Valid() && (c.None? ==> unchanged(this))
      ensures c.None? <==> fresh'.None? && old(Drained(size))
      ensures pages.Keys == old(pages).Keys + if old(Drained(size)) && fresh'.Some? then {fresh'.value.page} else {}
      ensures c.Some? ==> Out(pages, c.value) && !Out(old(pages), c.value)
      ensures c.Some? ==> forall d :: d != c.value ==> (Out(pages, d) <==> Out(old(pages), d))
      ensures c.Some? ==> SizeFits(size, pages[c.value.page].bucket) && Chosen(pages, c.value, random)
      ensures c.Some? ==>
                var j := pages[c.value.page].bucket;
                && (old(Drained(size)) ==> fresh'.Some? && c.value.page == fresh'.value.page)
                && Served(old(queues), queues, j, c.value.page, old(Drained(size)), pages[c.value.page].free == 0)
    {
      hide SizeFits, ChunkSize, Out, Chosen, InfoOk, QueueOk;
      var j := BucketOf(size);
      if queues[j] == [] {
        if fresh'.None? { return None; }
        AddPage(j, fresh'.value);
      }
      var chunk := TakeFront(j, random);
      c := Some(chunk);
    }

    /** Hands out a chunk of the first page of a queue. */
    method TakeFront(j: nat, random: Option<nat>) returns (c: Chunk)
      requires Valid() && IsBucket(j) && queues[j] != []
      modifies this
      ensures Valid() && pages.Keys == old(pages).Keys
      ensures Out(pages, c) && !Out(old(pages), c) && pages[c.page].bucket == j && Chosen(pages, c, random)
      ensures forall d :: d != c ==> (Out(pages, d) <==> Out(old(pages), d))
      ensures Served(old(queues), queues, j, c.page, false, pages[c.page].free == 0)
    {
      var g := queues[j][0];
      assert QueueOk(pages, queues[j], j);
      assert g in queues[j];
      var k := PickBit(pages[g], random);
      ghost var info := pages[g];
      Take(j, g, k);
      PickedIsChosen(pages, g, k, info, random);
      c := Chunk(g, k);
    }

    /** A fresh page joins its bucket, with no chunk handed out. */
    method AddPage(j: nat, f: FreshPage)
      requires Valid() && IsBucket(j) && queues[j] == [] && f.page !in pages
      modifies this
      ensures Valid() && queues == old(queues)[j := [f.page]] && pages.Keys == old(pages).Keys + {f.page}
      ensures pages[f.page].bucket == j && pages[f.page].free > 0
      ensures forall d :: Out(pages, d) <==> Out(old(pages), d)
    {
      var info := MakeChunks(j, seq(BITS * Words(j), f.garbage));
      AddOk(pages, queues, j, f.page, info);
      pages, queues := pages[f.page := info], queues[j := [f.page]];
    }

    method Take(j: nat, g: nat, k: nat)
      requires Valid() && IsBucket(j) && queues[j] != [] && queues[j][0] == g && g in pages && pages[g].bucket == j
      requires Stolen(j) <= k < Slots(j) && k < |pages[g].bits| && pages[g].bits[k]
      modifies this
      ensures Valid() && pages.Keys == old(pages).Keys
      ensures pages[g] == old(pages)[g].(bits := old(pages)[g].bits[k := false], free := old(pages)[g].free - 1)
      ensures queues == if pages[g].free == 0 then old(queues)[j := old(queues)[j][1..]] else old(queues)
      ensures Out(pages, Chunk(g, k)) && !Out(old(pages), Chunk(g, k))
      ensures forall d :: d != Chunk(g, k) ==> (Out(pages, d) <==> Out(old(pages), d))
    {
      TakeOk(pages[g], k);
      var info := pages[g].(bits := pages[g].bits[k := false], free := pages[g].free - 1);
      OutAfter(pages, g, info, k);
      QueuesAfterTake(pages, queues, j, g, info);
      if info.free == 0 {
        queues := queues[j := queues[j][1..]];
      }
      pages := pages[g := info];
    }

    /**
      Takes back the chunk at address `ptr`, which lies on a chunk page and not in its header. A
      pointer into the middle of a chunk or to a free chunk only draws a warning. A page whose
      chunks are all free is released to the page level.
    */
    method FreeBytes(ptr: nat) returns (r: FreeResult)
      requires Valid() && ptr / PAGE in pages
      requires Stolen(pages[ptr / PAGE].bucket) <= SlotOf(ptr, pages[ptr / PAGE].bucket)
      modifies this
      ensures Valid()
      ensures r.BadPointer? <==> ptr % ChunkSize(old(pages)[ptr / PAGE].bucket) != 0
      ensures r.BadPointer? || r.AlreadyFree? ==> unchanged(this)
      ensures var c := Chunk(ptr / PAGE, SlotOf(ptr, old(pages)[ptr / PAGE].bucket));
              && (r.AlreadyFree? ==> !Out(old(pages), c))
              && (r.Freed? ==> Out(old(pages), c) && forall d :: Out(pages, d) <==> Out(old(pages), d) && d != c)
      ensures r.Freed? ==>
                (r.released <==> LastOut(old(pages), Chunk(ptr / PAGE, SlotOf(ptr, old(pages)[ptr / PAGE].bucket))))
      ensures r.Freed? ==>
                var j, full := old(pages)[ptr / PAGE].bucket, old(pages)[ptr / PAGE].free == 0;
                && j in queues && j in old(queues) && queues == old(queues)[j := queues[j]]
                && Requeued(old(queues)[j], queues[j], ptr / PAGE, full, r.released)
      ensures r.Freed? && r.released ==> pages.Keys == old(pages).Keys - {ptr / PAGE}
      ensures r.Freed? && !r.released ==> pages.Keys == old(pages).Keys
    {
      var g := ptr / PAGE;
      var info := pages[g];
      var j := info.bucket;
      var k := SlotOf(ptr, j);
      SlotInRange(ptr, j);
      if ptr % ChunkSize(j) != 0 { return BadPointer; }
      if info.bits[k] { return AlreadyFree; }
      GiveOk(info, k);
      info := info.(bits := info.bits[k := true], free := info.free + 1);
      OutAfter(pages, g, info, k);
      LastOutIff(pages, g, info, k);
      r := Return(g, info);
    }

    /** Puts the updated page back: into its queue, off it, or neither. */
    method Return(g: nat, info: PgInfo) returns (r: FreeResult)
      requires Valid() && g in pages && InfoOk(info) && info.bucket == pages[g].bucket && info.free == pages[g].free + 1
      modifies this
      ensures Valid() && r.Freed? && (r.released <==> info.free == info.total)
      ensures info.bucket in queues && info.bucket in old(queues)
              && queues == old(queues)[info.bucket := queues[info.bucket]]
      ensures Requeued(old(queues)[info.bucket], queues[info.bucket], g, old(pages)[g].free == 0, r.released)
      ensures forall d :: Out(pages, d) <==> Out(old(pages)[g := info], d)
      ensures pages.Keys == if r.released then old(pages).Keys - {g} else old(pages).Keys
    {
      var j := info.bucket;
      Geometry(j);
      assert QueueOk(pages, queues[j], j);
      if info.free == 1 {
        var m := InsertAt(queues[j], g);
        InsertOk(pages, queues, j, g, info, m);
        pages, queues := pages[g := info], queues[j := queues[j][..m] + [g] + queues[j][m..]];
        r := Freed(false);
      } else if info.free != info.total {
        KeepOk(pages, queues, g, info);
        pages := pages[g := info];
        r := Freed(false);
      } else {
        var m := FindPage(queues[j], g);
        ReleaseOk(pages, queues, j, g, info, m);
        pages, queues := pages - {g}, queues[j := queues[j][..m] + queues[j][m + 1..]];
        r := Freed(true);
      }
    }
  }

  /** Chunk number of an address on its page. */
  function SlotOf(ptr: nat, j: nat): nat {
    (ptr % PAGE) / ChunkSize(j)
  }

  lemma SlotInRange(ptr: nat, j: nat)
    requires IsBucket(j)
    ensures SlotOf(ptr, j) < Slots(j) <= BITS * Words(j)
  {
    if j == 0 || j == 4 {} else if j == 5 {} else if j == 6 {} else if j == 7 {}
    else if j == 8 {} else if j == 9 {} else if j == 10 {} else {}
  }

  /** The address handed out for a chunk leads back to that chunk. */
  lemma AddressRoundTrip(c: Chunk, j: nat)
    requires IsBucket(j) && c.slot < Slots(j)
    ensures Address(c, j) / PAGE == c.page && SlotOf(Address(c, j), j) == c.slot && Address(c, j) % ChunkSize(j) == 0
  {
    SlotAligned(j, c.page, c.slot);
    if j == 0 || j == 4 {} else if j == 5 {} else if j == 6 {} else if j == 7 {}
    else if j == 8 {} else if j == 9 {} else if j == 10 {} else {}
  }

  /** The page is looked for in its queue, where it must be. */
  method FindPage(q: seq<nat>, g: nat) returns (m: nat)
    requires g in q
    ensures m < |q| && q[m] == g
  {
    m := 0;
    while q[m] != g
      invariant m < |q| && forall i | 0 <= i < m :: q[i] != g
      decreases |q| - m
    {
      m := m + 1;
    }
  }

  lemma QueueWith(q: seq<nat>, g: nat, m: nat)
    requires NoRepeats(q) && g !in q && m <= |q|
    ensures NoRepeats(q[..m] + [g] + q[m..]) && forall h :: h in q[..m] + [g] + q[m..] <==> h == g || h in q
  {
    var q' := q[..m] + [g] + q[m..];
    assert q == q[..m] + q[m..];
    forall a, b | 0 <= a < b < |q'|
      ensures q'[a] != q'[b]
    {
      assert a != m ==> q'[a] == q[if a < m then a else a - 1];
      assert b != m ==> q'[b] == q[if b < m then b else b - 1];
    }
  }

  lemma InsertOk(pages: map<nat, PgInfo>, queues: map<nat, seq<nat>>, j: nat, g: nat, info: PgInfo, m: nat)
    requires PagesOk(pages) && QueuesOk(pages, queues) && IsBucket(j) && g in pages
             && pages[g].bucket == j == info.bucket
    requires pages[g].free == 0 && info.free > 0 && InfoOk(info) && j in queues && m <= |queues[j]|
    ensures PagesOk(pages[g := info]) && QueuesOk(pages[g := info], queues[j := queues[j][..m] + [g] + queues[j][m..]])
  {
    assert QueueOk(pages, queues[j], j);
    QueueWith(queues[j], g, m);
    forall i | IsBucket(i) && i != j
      ensures QueueOk(pages[g := info], queues[i], i)
    {
      assert QueueOk(pages, queues[i], i);
    }
  }

  lemma KeepOk(pages: map<nat, PgInfo>, queues: map<nat, seq<nat>>, g: nat, info: PgInfo)
    requires PagesOk(pages) && QueuesOk(pages, queues) && g in pages && pages[g].bucket == info.bucket
    requires pages[g].free > 0 && info.free > 0 && InfoOk(info)
    ensures PagesOk(pages[g := info]) && QueuesOk(pages[g := info], queues)
  {
    forall i | IsBucket(i)
      ensures i in queues && QueueOk(pages[g := info], queues[i], i)
    {
      assert QueueOk(pages, queues[i], i);
    }
  }

  lemma ReleaseOk(pages: map<nat, PgInfo>, queues: map<nat, seq<nat>>, j: nat, g: nat, info: PgInfo, m: nat)
    requires PagesOk(pages) && QueuesOk(pages, queues) && IsBucket(j) && g in pages
             && pages[g].bucket == j == info.bucket
    requires InfoOk(info) && info.free == info.total && j in queues && m < |queues[j]| && queues[j][m] == g
    ensures PagesOk(pages - {g}) && QueuesOk(pages - {g}, queues[j := queues[j][..m] + queues[j][m + 1..]])
    ensures forall d :: Out(pages - {g}, d) <==> Out(pages[g := info], d)
  {
    assert QueueOk(pages, queues[j], j);
    QueueWithout(queues[j], m);
    forall i | IsBucket(i) && i != j
      ensures QueueOk(pages - {g}, queues[i], i)
    {
      assert QueueOk(pages, queues[i], i);
    }
    AllFree(info);
  }

  lemma QueueWithout(q: seq<nat>, m: nat)
    requires NoRepeats(q) && m < |q|
    ensures NoRepeats(q[..m] + q[m + 1..]) && forall h :: h in q[..m] + q[m + 1..] <==> h in q && h != q[m]
  {
    var q' := q[..m] + q[m + 1..];
    forall a, b | 0 <= a < b < |q'|
      ensures q'[a] != q'[b]
    {
      assert q'[a] == q[if a < m then a else a + 1] && q'[b] == q[if b < m then b else b + 1];
    }
    forall h
      ensures h in q[..m] + q[m + 1..] <==> h in q && h != q[m]
    {
      assert q == q[..m] + [q[m]] + q[m + 1..];
    }
  }

  /** A page with all its chunks free has none handed out. */
  lemma AllFree(info: PgInfo)
    requires InfoOk(info) && info.free == info.total
    ensures forall k | Stolen(info.bucket) <= k < Slots(info.bucket) && k < |info.bits| :: info.bits[k]
  {
    var lo, n := Stolen(info.bucket), Slots(info.bucket);
    Geometry(info.bucket);
    CountSplit(info.bits, 0, lo, n);
    CountAll(info.bits, 0, lo, false);
    forall k | lo <= k < n
      ensures info.bits[k]
    {
      CountBound(info.bits, lo, n, k);
    }
  }

  /** No other chunk of its page is in use. */
  ghost predicate LastOut(pages: map<nat, PgInfo>, c: Chunk) {
    forall d: Chunk | d.page == c.page && Out(pages, d) :: d == c
  }

  /** A page's counter is back at its total exactly when no chunk of the page is in use. */
  lemma NoneOutIff(pages: map<nat, PgInfo>, g: nat)
    requires g in pages && InfoOk(pages[g])
    ensures pages[g].free == pages[g].total <==> forall d: Chunk | d.page == g :: !Out(pages, d)
  {
    var info := pages[g];
    var lo, n := Stolen(info.bucket), Slots(info.bucket);
    if info.free == info.total {
      AllFree(info);
    } else if forall d: Chunk | d.page == g :: !Out(pages, d) {
      Geometry(info.bucket);
      forall k | lo <= k < n
        ensures info.bits[k]
      {
        assert !Out(pages, Chunk(g, k));
      }
      CountSplit(info.bits, 0, lo, n);
      CountAll(info.bits, 0, lo, false);
      CountAll(info.bits, lo, n, true);
      assert false;
    }
  }

  /** With one chunk taken back, the counter is at its total exactly when that was the last in use. */
  lemma LastOutIff(pages: map<nat, PgInfo>, g: nat, info: PgInfo, k: nat)
    requires g in pages && InfoOk(info) && Out(pages, Chunk(g, k))
    requires !Out(pages[g := info], Chunk(g, k))
    requires forall d: Chunk | d != Chunk(g, k) :: Out(pages[g := info], d) <==> Out(pages, d)
    ensures info.free == info.total <==> LastOut(pages, Chunk(g, k))
  {
    NoneOutIff(pages[g := info], g);
    assert LastOut(pages, Chunk(g, k)) <==> forall d: Chunk | d.page == g :: !Out(pages[g := info], d);
  }

  /** Changing one page's bit `k` changes nothing but the chunk it stands for. */
  lemma OutAfter(pages: map<nat, PgInfo>, g: nat, info: PgInfo, k: nat)
    requires PagesOk(pages) && g in pages && InfoOk(info) && info.bucket == pages[g].bucket
    requires Stolen(info.bucket) <= k < Slots(info.bucket) && k < |pages[g].bits|
             && info.bits == pages[g].bits[k := !pages[g].bits[k]]
    ensures PagesOk(pages[g := info])
    ensures Out(pages[g := info], Chunk(g, k)) <==> !Out(pages, Chunk(g, k))
    ensures forall d :: d != Chunk(g, k) ==> (Out(pages[g := info], d) <==> Out(pages, d))
  {
  }

  lemma AddOk(pages: map<nat, PgInfo>, queues: map<nat, seq<nat>>, j: nat, g: nat, info: PgInfo)
    requires PagesOk(pages) && QueuesOk(pages, queues) && IsBucket(j) && j in queues && queues[j] == [] && g !in pages
    requires InfoOk(info) && info.bucket == j && info.free == info.total
    requires forall k | Stolen(j) <= k < Slots(j) && k < |info.bits| :: info.bits[k]
    ensures info.free > 0 && PagesOk(pages[g := info]) && QueuesOk(pages[g := info], queues[j := [g]])
    ensures forall d :: Out(pages[g := info], d) <==> Out(pages, d)
  {
    hide Count, ChunkSize, HeaderLen;
    Geometry(j);
    assert QueueOk(pages, queues[j], j);
    forall i | IsBucket(i)
      ensures i in queues[j := [g]] && QueueOk(pages[g := info], queues[j := [g]][i], i)
    {
      assert i in queues && QueueOk(pages, queues[i], i);
    }
  }

  /** Taking the last free chunk of the front page takes the page off its queue, and touches no other queue. */
  lemma QueuesAfterTake(pages: map<nat, PgInfo>, queues: map<nat, seq<nat>>, j: nat, g: nat, info: PgInfo)
    requires IsBucket(j) && j in queues && queues[j] != [] && queues[j][0] == g && g in pages
             && pages[g].bucket == j == info.bucket
    requires QueuesOk(pages, queues)
    ensures QueuesOk(pages[g := info], if info.free == 0 then queues[j := queues[j][1..]] else queues)
  {
    var queues' := if info.free == 0 then queues[j := queues[j][1..]] else queues;
    assert QueueOk(pages, queues[j], j);
    assert queues[j] == [g] + queues[j][1..];
    assert g !in queues[j][1..];
    forall i | IsBucket(i)
      ensures i in queues' && QueueOk(pages[g := info], queues'[i], i)
    {
      assert i in queues && QueueOk(pages, queues[i], i);
    }
  }
}
