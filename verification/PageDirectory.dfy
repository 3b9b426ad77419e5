/**
  Looking up a page's directory in the linked list of directories, starting from either of two
  cached directories or from the head.
*/
module PageDirectory {

  /** A directory page: `idx` is the directory number that its `dirnum` stands for. */
  class Dir {
    const idx: nat
    var prev: Dir?
    var next: Dir?

    constructor (idx: nat)
      ensures this.idx == idx && prev == null && next == null
    {
      this.idx := idx;
      prev, next := null, null;
    }
  }

  datatype Cache = Empty | Holds(dir: Dir)

  /** The links spell out `dirs`, in increasing order of directory number. */
  ghost predicate Linked(dirs: seq<Dir>)
    reads dirs
  {
    && dirs != []
    && (forall i, j | 0 <= i < j < |dirs| :: dirs[i].idx < dirs[j].idx)
    && (forall i {:trigger dirs[i].next} {:trigger dirs[i].prev} | 0 <= i < |dirs| ::
          && dirs[i].next == (if i + 1 < |dirs| then dirs[i + 1] else null)
          && dirs[i].prev == if i > 0 then dirs[i - 1] else null)
  }

  /** Position `k` is that of the last directory up to `pidx`, or the first if all lie beyond. */
  ghost predicate IsTarget(dirs: seq<Dir>, pidx: nat, k: nat) {
    && k < |dirs|
    && (dirs[k].idx <= pidx || k == 0)
    && (forall i | k < i < |dirs| :: dirs[i].idx > pidx)
  }

  /** A plain search from the head: step on while the next directory is not beyond `pidx`. */
  ghost function PlainSearch(dirs: seq<Dir>, pidx: nat): nat {
    if |dirs| > 1 && dirs[1].idx <= pidx then 1 + PlainSearch(dirs[1..], pidx) else 0
  }

  lemma {:induction false} PlainSearchFinds(dirs: seq<Dir>, pidx: nat, k: nat)
    requires forall i, j | 0 <= i < j < |dirs| :: dirs[i].idx < dirs[j].idx
    requires IsTarget(dirs, pidx, k)
    ensures PlainSearch(dirs, pidx) == k
  {
    if |dirs| > 1 && dirs[1].idx <= pidx {
      assert k > 0;
      assert dirs[1..][k - 1] == dirs[k];
      PlainSearchFinds(dirs[1..], pidx, k - 1);
    }
  }

  const WORD := 0x1_0000_0000_0000_0000

  /** Subtraction of unsigned 64-bit numbers. */
  function USub(a: nat, b: nat): int {
    (a - b) % WORD
  }

  /**
    The test that chooses between the two caches, as the compiler reads it: the comparison binds
    tighter than the conditionals around it.
  */
  predicate PicksLast(last: nat, prev: nat, pidx: nat) {
    var answer :=
      if last > pidx then USub(last, pidx)
      else if USub(pidx, last) < (if prev > pidx then 1 else 0) then USub(prev, pidx)
      else USub(pidx, prev);
    answer != 0
  }

  /** Once neither cache is a hit, the test picks the last directory, however far away it is. */
  lemma AlwaysPicksLast(last: nat, prev: nat, pidx: nat)
    requires last != pidx && prev != pidx
    requires last < WORD && prev < WORD && pidx < WORD
    ensures PicksLast(last, prev, pidx)
  {
  }

  /** Looking for directory 10 with directories 100 and 11 cached, the search starts from 100. */
  lemma FartherIsPicked()
    ensures PicksLast(100, 11, 10) && 100 - 10 > 11 - 10
  {
    AlwaysPicksLast(100, 11, 10);
  }

  /** From a directory beyond `pidx`, back to the target. */
  method SearchBack(start: Dir, ghost dirs: seq<Dir>, ghost s: nat, pidx: nat) returns (pi: Dir, ghost k: nat)
    requires Linked(dirs) && s < |dirs| && dirs[s] == start && start.idx > pidx
    ensures IsTarget(dirs, pidx, k) && pi == dirs[k]
  {
    pi, k := start, s;
    var spi := start.prev;
    while spi != null && spi.idx > pidx
      invariant k < |dirs| && pi == dirs[k] && pi.idx > pidx
      invariant spi == if k > 0 then dirs[k - 1] else null
      decreases k
    {
      pi, k := spi, k - 1;
      spi := spi.prev;
    }
    if spi != null { pi, k := spi, k - 1; }
  }

  /** From a directory not beyond `pidx`, or the head, forward to the target. */
  method SearchForward(start: Dir, first: Dir?, ghost dirs: seq<Dir>, ghost s: nat, pidx: nat)
    returns (pi: Dir, ghost k: nat)
    requires Linked(dirs) && s < |dirs| && dirs[s] == start && (start.idx <= pidx || s == 0)
    requires (first == start && s == 0) || (start.idx <= pidx && first == start.next)
    ensures IsTarget(dirs, pidx, k) && pi == dirs[k]
  {
    pi, k := start, s;
    var spi := first;
    ghost var n := if first == start then s else s + 1;
    while spi != null && spi.idx <= pidx
      invariant k < |dirs| && pi == dirs[k] && (pi.idx <= pidx || k == 0)
      invariant spi == if n < |dirs| then dirs[n] else null
      invariant n == k + 1 || (n == k == 0)
      decreases |dirs| - n
    {
      pi, k := spi, n;
      n := n + 1;
      spi := spi.next;
    }
    assert forall i | k < i < |dirs| :: n <= i && (i == n || dirs[n].idx < dirs[i].idx);
  }

  /**
    The directory of `pidx`, or its nearest neighbour: the same one a plain search from the head
    would find, whichever cached directory the search starts from, and 0, 1 or -1 as the directory
    found is the one wanted, lies beyond it, or lies before it. `from` is where the search starts:
    with two cached directories, always the last one.
  */
  method Lookup(head: Dir, last: Cache, prev: Cache, ghost dirs: seq<Dir>, pidx: nat)
    returns (pi: Dir, code: int, ghost from: Dir)
    requires Linked(dirs) && dirs[0] == head
    requires last.Holds? ==> last.dir in dirs
    requires prev.Holds? ==> prev.dir in dirs
    ensures PlainSearch(dirs, pidx) < |dirs| && pi == dirs[PlainSearch(dirs, pidx)]
    ensures code == 0 <==> exists i :: 0 <= i < |dirs| && dirs[i].idx == pidx
    ensures code == 1 <==> forall i | 0 <= i < |dirs| :: dirs[i].idx > pidx
    ensures code == 0 || code == 1 || code == -1
    ensures last.Holds? && prev.Holds? && last.dir.idx != pidx && prev.dir.idx != pidx ==>
              last.dir.idx < WORD && prev.dir.idx < WORD && pidx < WORD ==> from == last.dir
    ensures (last.Empty? || prev.Empty?) && pi.idx != pidx ==> from == head
  {
    hide PicksLast;
    ghost var k;
    from := head;
    if last.Holds? && last.dir.idx == pidx {
      pi := last.dir;
      k :| 0 <= k < |dirs| && dirs[k] == pi;
    } else if prev.Holds? && prev.dir.idx == pidx {
      pi := prev.dir;
      k :| 0 <= k < |dirs| && dirs[k] == pi;
    } else if last.Holds? && prev.Holds? {
      var start := if PicksLast(last.dir.idx, prev.dir.idx, pidx) then last.dir else prev.dir;
      from := start;
      if last.dir.idx < WORD && prev.dir.idx < WORD && pidx < WORD {
        AlwaysPicksLast(last.dir.idx, prev.dir.idx, pidx);
      }
      ghost var s :| 0 <= s < |dirs| && dirs[s] == start;
      if start.idx > pidx {
        pi, k := SearchBack(start, dirs, s, pidx);
      } else {
        pi, k := SearchForward(start, start.next, dirs, s, pidx);
      }
    } else {
      pi, k := SearchForward(head, head, dirs, 0, pidx);
    }
    PlainSearchFinds(dirs, pidx, k);
    code := if pi.idx == pidx then 0 else if pi.idx > pidx then 1 else -1;
    CodeMeans(dirs, pidx, k);
  }

  lemma CodeMeans(dirs: seq<Dir>, pidx: nat, k: nat)
    requires IsTarget(dirs, pidx, k) && forall i, j | 0 <= i < j < |dirs| :: dirs[i].idx < dirs[j].idx
    ensures dirs[k].idx == pidx <==> exists i :: 0 <= i < |dirs| && dirs[i].idx == pidx
    ensures dirs[k].idx > pidx <==> forall i | 0 <= i < |dirs| :: dirs[i].idx > pidx
  {
  }
}
