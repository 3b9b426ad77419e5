/**
  The chaining hash table: find, insert, replace, remove and grow, refining a finite map from keys
  to elements, and the representation checker.
*/
module HashTable {
  import opened Options
  import opened HashChains
  import opened HashRehash
  import opened Sequences

  // ---- sizes ----

  /** Primes that are not too far from powers of two. */
  function Prime(i: nat): nat
    requires i < N_PRIMES
  {
    match i
    case 0 => 53
    case 1 => 97
    case 2 => 193
    case 3 => 389
    case 4 => 769
    case 5 => 1543
    case 6 => 3079
    case 7 => 6151
    case 8 => 12289
    case 9 => 24593
    case 10 => 49157
    case 11 => 98317
    case 12 => 196613
    case 13 => 393241
    case 14 => 786433
    case 15 => 1572869
    case 16 => 3145739
    case 17 => 6291469
    case 18 => 12582917
    case 19 => 25165843
    case 20 => 50331653
    case 21 => 100663319
    case 22 => 201326611
    case _ => 402653189
  }

  const N_PRIMES := 24

  /** The load factor 0.6 of the tables in this code base, truncated to an unsigned. */
  function LoadLimit(len: nat): nat {
    3 * len / 5
  }

  lemma PrimesGrow()
    ensures forall i | 0 <= i < N_PRIMES :: 53 <= Prime(i)
    ensures forall i | 0 <= i < N_PRIMES - 1 :: Prime(i) < Prime(i + 1)
    ensures forall i | 0 <= i < N_PRIMES - 1 :: LoadLimit(Prime(i)) + 1 < LoadLimit(Prime(i + 1))
    ensures LoadLimit(Prime(N_PRIMES - 1)) == 241591913
  {
  }

  /** 48, doubled `i` times. */
  ghost function Doubled(i: nat): nat {
    if i == 0 then 48 else 2 * Doubled(i - 1)
  }

  /** The lengths double, but for at most 25 more each time, and have no small factor. */
  lemma PrimesDouble(i: nat)
    requires i < N_PRIMES
    ensures Doubled(i) < Prime(i) <= Doubled(i) + 25
    ensures Prime(i) % 2 != 0 && Prime(i) % 3 != 0 && Prime(i) % 5 != 0 && Prime(i) % 7 != 0
  {
    DoubledIs(i);
  }

  lemma {:induction false} DoubledIs(i: nat)
    requires i < N_PRIMES
    ensures Doubled(i) == match i
                          case 0 => 48 case 1 => 96 case 2 => 192 case 3 => 384 case 4 => 768 case 5 => 1536
                          case 6 => 3072 case 7 => 6144 case 8 => 12288 case 9 => 24576 case 10 => 49152
                          case 11 => 98304 case 12 => 196608 case 13 => 393216 case 14 => 786432
                          case 15 => 1572864 case 16 => 3145728 case 17 => 6291456 case 18 => 12582912
                          case 19 => 25165824 case 20 => 50331648 case 21 => 100663296 case 22 => 201326592
                          case _ => 402653184
  {
    if i > 0 { DoubledIs(i - 1); }
  }

  /** Where the growth loop stops: the first later prime whose limit exceeds `size`, or past the table. */
  ghost function NextPrime(idx: int, size: nat): (r: nat)
    requires -1 <= idx < N_PRIMES
    ensures idx < r <= N_PRIMES
    decreases N_PRIMES - idx
  {
    if idx + 1 == N_PRIMES then N_PRIMES
    else if LoadLimit(Prime(idx + 1)) > size then idx + 1
    else NextPrime(idx + 1, size)
  }

  /** The loop guard lets the index run past the primes exactly when the largest limit is too small. */
  lemma {:induction false} PrimeIndexInRangeIff(idx: int, size: nat)
    requires -1 <= idx < N_PRIMES - 1
    ensures NextPrime(idx, size) < N_PRIMES <==> size < 241591913
    decreases N_PRIMES - idx
  {
    PrimesGrow();
    if idx + 1 < N_PRIMES - 1 {
      PrimeIndexInRangeIff(idx + 1, size);
      LimitsGrow(idx + 1, N_PRIMES - 1);
    }
  }

  lemma {:induction false} LimitsGrow(i: nat, j: nat)
    requires i <= j < N_PRIMES
    ensures LoadLimit(Prime(i)) <= LoadLimit(Prime(j))
    decreases j - i
  {
    PrimesGrow();
    if i < j { LimitsGrow(i + 1, j); }
  }

  /** `i` is the first prime after `idx` whose load limit exceeds `size`. */
  ghost predicate LeastSufficient(idx: int, i: int, size: nat) {
    && -1 <= idx < i < N_PRIMES && LoadLimit(Prime(i)) > size
    && forall j | idx < j < i :: LoadLimit(Prime(j)) <= size
  }

  /** The size loop of a growth; a size it cannot serve would read past the primes. */
  method PickPrime(idx: int, size: nat) returns (i: nat)
    requires -1 <= idx < N_PRIMES - 1 && size < 241591913
    ensures LeastSufficient(idx, i, size)
  {
    PrimesGrow();
    PrimeIndexInRangeIff(idx, size);
    i := idx + 1;
    while LoadLimit(Prime(i)) <= size
      invariant idx < i < N_PRIMES && NextPrime(i - 1, size) == NextPrime(idx, size)
      invariant forall j | idx < j < i :: LoadLimit(Prime(j)) <= size
      decreases N_PRIMES - i
    {
      i := i + 1;
    }
  }

  // ---- counting ----

  ghost function Total<K(!new)>(cs: Chains<K>): nat {
    if cs == [] then 0 else |cs[0]| + Total(cs[1..])
  }

  ghost function HeadElems<K(!new)>(cs: Chains<K>): set<Elem<K>>
    requires cs != []
  {
    set i | 0 <= i < |cs[0]| :: cs[0][i]
  }

  lemma TailDistinct<K(!new)>(cs: Chains<K>)
    requires KeysDistinct(cs) && cs != []
    ensures KeysDistinct(cs[1..])
  {
    var tl: Chains<K> := cs[1..];
    forall b, i, c, j | At(tl, b, i) && At(tl, c, j) && tl[b][i].key == tl[c][j].key
      ensures b == c && i == j
    {
      assert At(cs, b + 1, i) && At(cs, c + 1, j) && cs[b + 1][i] == tl[b][i] && cs[c + 1][j] == tl[c][j];
    }
  }

  lemma SplitElems<K(!new)>(cs: Chains<K>)
    requires cs != []
    ensures Elems(cs) == HeadElems(cs) + Elems(cs[1..])
  {
    var tl: Chains<K> := cs[1..];
    forall e | e in Elems(cs)
      ensures e in HeadElems(cs) + Elems(tl)
    {
      var c, j :| 0 <= c < |cs| && 0 <= j < |cs[c]| && cs[c][j] == e;
      if c > 0 { assert tl[c - 1][j] == e; }
    }
    forall e | e in Elems(tl)
      ensures e in Elems(cs)
    {
      var c, j :| 0 <= c < |tl| && 0 <= j < |tl[c]| && tl[c][j] == e;
      assert cs[c + 1][j] == e;
    }
  }

  lemma HeadApart<K(!new)>(cs: Chains<K>)
    requires cs != [] && KeysDistinct(cs)
    ensures HeadElems(cs) !! Elems(cs[1..])
  {
    var tl: Chains<K> := cs[1..];
    forall e, x | e in HeadElems(cs) && x in Elems(tl)
      ensures e.key != x.key
    {
      var i :| 0 <= i < |cs[0]| && e == cs[0][i];
      var c, j :| 0 <= c < |tl| && 0 <= j < |tl[c]| && tl[c][j] == x;
      assert At(cs, 0, i) && At(cs, c + 1, j) && cs[c + 1][j] == x;
    }
  }

  lemma ChainDistinct<K(!new)>(cs: Chains<K>, b: nat)
    requires KeysDistinct(cs) && b < |cs|
    ensures NoRepeats(cs[b])
  {
    forall i, j | 0 <= i < j < |cs[b]|
      ensures cs[b][i] != cs[b][j]
    {
      assert At(cs, b, i) && At(cs, b, j);
    }
  }

  /** With distinct keys, the chains hold as many elements as their lengths add up to. */
  lemma {:induction false} TotalIsCount<K(!new)>(cs: Chains<K>)
    requires KeysDistinct(cs)
    ensures Total(cs) == |Elems(cs)|
  {
    if cs != [] {
      TailDistinct(cs);
      TotalIsCount(cs[1..]);
      ChainDistinct(cs, 0);
      CountDistinct(cs[0]);
      SplitElems(cs);
      HeadApart(cs);
    }
  }

  lemma {:induction false} CountDistinct<T>(s: seq<T>)
    requires NoRepeats(s)
    ensures |set i | 0 <= i < |s| :: s[i]| == |s|
  {
    if s != [] {
      var n := |s| - 1;
      CountDistinct(s[..n]);
      assert (set i | 0 <= i < |s| :: s[i]) == (set i | 0 <= i < n :: s[..n][i]) + {s[n]};
    }
  }

  // ---- the table ----

  /** How the allocator answers a growth: a fresh array, only an enlarged old one, or nothing. */
  datatype Allocation = Fresh | Enlarged | NoMemory

  ghost predicate OneEach<K(!new)>(es: set<Elem<K>>) {
    forall e, x | e in es && x in es && e.key == x.key :: e == x
  }

  /** The element with a key. */
  ghost function WithKey<K(!new)>(es: set<Elem<K>>, k: K): (e: Elem<K>)
    requires exists e :: e in es && e.key == k
    ensures e in es && e.key == k
  {
    var e :| e in es && e.key == k; e
  }

  /** Elements with distinct keys, as a map. */
  ghost function ByKey<K(!new)>(es: set<Elem<K>>): (m: map<K, Elem<K>>)
    requires OneEach(es)
    ensures forall e <- es :: e.key in m && m[e.key] == e
    ensures forall k <- m :: m[k] in es && m[k].key == k
  {
    map k | k in (set e | e in es :: e.key) :: WithKey(es, k)
  }

  /** The search loop: the first link in the bucket that leads to `key` or to the end. */
  method SearchBucket<K(==, !new)>(t: array<Elem?<K>>, ghost cs: Chains<K>, b: nat, key: K)
    returns (p: Link<K>, ghost i: nat)
    requires Spells(t, cs) && b < |cs|
    ensures IsLink(cs, p, b, i) && (i < |cs[b]| ==> cs[b][i].key == key)
    ensures forall j | 0 <= j < i :: cs[b][j].key != key
  {
    p := AtBucket(b);
    i := 0;
    LoadIs(t, cs, p, b, i);
    var e := Load(t, p);
    while e != null && e.key != key
      invariant Spells(t, cs) && IsLink(cs, p, b, i) && e == NextAt(cs, b, i)
      invariant forall j | 0 <= j < i :: cs[b][j].key != key
      decreases |cs[b]| - i
    {
      p := AtNext(e);
      i := i + 1;
      LoadIs(t, cs, p, b, i);
      e := Load(t, p);
    }
  }

  class Table<K(==, !new)> {
    const hashfn: K -> nat
    var table: array?<Elem?<K>>
    var tableLength: nat
    var nEntries: nat
    var loadLimit: nat
    var primeIdx: int
    ghost var chains: Chains<K>

    /** Each element's cached hash is that of its key. */
    ghost predicate Hashed()
      reads this, Elems(chains)`hash
    {
      forall e <- Elems(chains) :: e.hash == hashfn(e.key)
    }

    ghost predicate Sized()
      reads this
    {
      if table == null then
        tableLength == 0 && nEntries == 0 && loadLimit == 0 && primeIdx == -1 && chains == []
      else
        && 0 <= primeIdx < N_PRIMES && tableLength == Prime(primeIdx) == table.Length == |chains|
        && loadLimit == LoadLimit(tableLength)
    }

    /** Below the largest prime, no more elements than the load limit; so it is unless memory has run out. */
    ghost predicate WithinLoad()
      reads this
    {
      primeIdx < N_PRIMES - 1 ==> nEntries <= loadLimit
    }

    /** One more element makes no growth look for a prime past the last. */
    predicate GrowthInRange()
      reads this
    {
      nEntries < loadLimit || primeIdx == N_PRIMES - 1 || nEntries + 1 < 241591913
    }

    ghost predicate Valid()
      reads this, table, Elems(chains)
    {
      && Sized()
      && (table != null ==> Spells(table, chains))
      && KeysDistinct(chains) && Homed(chains) && Hashed()
      && nEntries == |Elems(chains)|
    }

    /** The finite map that the table stands for. */
    ghost function Contents(): map<K, Elem<K>>
      requires KeysDistinct(chains)
      reads this
    {
      OneKeyEach(chains);
      ByKey(Elems(chains))
    }

    constructor (hashfn: K -> nat)
      ensures Valid() && WithinLoad() && Contents() == map[] && this.hashfn == hashfn
    {
      this.hashfn := hashfn;
      table := null;
      tableLength, nEntries, loadLimit, primeIdx := 0, 0, 0, -1;
      chains := [];
    }

    ghost predicate Lacks(key: K)
      reads this
    {
      forall e <- Elems(chains) :: e.key != key
    }

    /**
      The link to the element with `elm`'s key, or to the end of the chain where it would go; None
      if there is no table yet. (b, i) is the position of the link.
    */
    method FindP(elm: Elem<K>) returns (p: Option<Link<K>>, ghost b: nat, ghost i: nat)
      requires Valid() && elm.hash == hashfn(elm.key)
      ensures p.None? <==> table == null
      ensures p.None? ==> Lacks(elm.key)
      ensures p.Some? ==> IsLink(chains, p.value, b, i) && b == elm.hash % |chains|
      ensures p.Some? && i < |chains[b]| ==>
                At(chains, b, i) && chains[b][i] in Elems(chains) && chains[b][i].key == elm.key
      ensures p.Some? && i == |chains[b]| ==> Lacks(elm.key)
    {
      if table == null { return None, 0, 0; }
      HasBuckets();
      var n := elm.hash % tableLength;
      b := n;
      var link;
      link, i := SearchBucket(table, chains, n, elm.key);
      if i == |chains[b]| { AbsentEverywhere(chains, b, elm.key); } else { assert At(chains, b, i); }
      p := Some(link);
    }

    /** A key that is not in its own bucket is nowhere. */
    lemma AbsentEverywhere(cs: Chains<K>, b: nat, key: K)
      requires cs == chains && Homed(cs) && Hashed() && b < |cs| && b == hashfn(key) % |cs|
      requires forall j | 0 <= j < |cs[b]| :: cs[b][j].key != key
      ensures forall e <- Elems(cs) :: e.key != key
    {
      forall e | e in Elems(cs)
        ensures e.key != key
      {
        var c, j :| 0 <= c < |cs| && 0 <= j < |cs[c]| && cs[c][j] == e;
        assert HomedBucket(cs, c);
      }
    }

    lemma ContentsOf(key: K)
      requires KeysDistinct(chains)
      ensures Lacks(key) <==> key !in Contents()
      ensures forall e <- Elems(chains) :: e.key == key ==> key in Contents() && Contents()[key] == e
    {
    }

    /** Caching the hash of any element, in the table or not, disturbs nothing. */
    method SetHash(elm: Elem<K>)
      requires Valid()
      modifies elm`hash
      ensures Valid() && elm.hash == hashfn(elm.key)
    {
      elm.hash := hashfn(elm.key);
      assert forall e <- Elems(chains) :: e.hash == old(e.hash);
      assert forall b | 0 <= b < |chains| :: old(HomedBucket(chains, b)) ==> HomedBucket(chains, b);
    }

    method Find(elm: Elem<K>) returns (e: Elem?<K>)
      requires Valid()
      modifies elm`hash
      ensures Valid() && Contents() == old(Contents())
      ensures e == if elm.key in Contents() then Contents()[elm.key] else null
    {
      SetHash(elm);
      var p, b, i := FindP(elm);
      ContentsOf(elm.key);
      if p.None? { return null; }
      LoadIs(table, chains, p.value, b, i);
      e := Load(table, p.value);
    }

    /** The chains in an array of `len` buckets, rehashed by whichever way the allocator allows. */
    method Rehash(len: nat, alloc: Allocation) returns (t: array<Elem?<K>>, ghost cs: Chains<K>)
      requires Valid() && tableLength < len && !alloc.NoMemory?
      modifies Elems(chains)`next
      ensures fresh(t) && t.Length == |cs| == len && Elems(cs) == Elems(chains) && KeysDistinct(cs)
      ensures Spells(t, cs) && Homed(cs)
    {
      t := new Elem?<K>[len](_ => null);
      if table == null {
        cs := seq(len, _ => []);
        assert Elems(cs) == {};
      } else if alloc.Fresh? {
        cs := RehashFresh(table, chains, t);
      } else {
        forall b | 0 <= b < table.Length { t[b] := table[b]; }
        cs := chains + seq(len - table.Length, _ => []);
        Enlarge(chains, cs);
        cs := RehashInPlace(t, cs, table.Length);
      }
    }

    method Install(t: array<Elem?<K>>, ghost cs: Chains<K>, idx: nat)
      requires Sized() && Hashed() && nEntries == |Elems(chains)|
      requires Elems(cs) == Elems(chains) && KeysDistinct(cs) && Spells(t, cs) && Homed(cs)
      requires primeIdx < idx < N_PRIMES && t.Length == |cs| == Prime(idx)
      modifies this
      ensures Valid() && chains == cs && table == t && primeIdx == idx && loadLimit == LoadLimit(Prime(idx))
    {
      PrimesGrow();
      table, chains := t, cs;
      tableLength, primeIdx, loadLimit := Prime(idx), idx, LoadLimit(Prime(idx));
    }

    /** Returns 0 on success and -1 if memory is short; a size past the largest limit is not supported. */
    method Grow(size: nat, alloc: Allocation) returns (r: int)
      requires Valid()
      requires size < 241591913 || primeIdx == N_PRIMES - 1 || loadLimit > size
      modifies this, Elems(chains)`next
      ensures Valid() && Elems(chains) == old(Elems(chains)) && nEntries == old(nEntries)
      ensures old(WithinLoad()) ==> WithinLoad()
      ensures r == 0 || r == -1
      ensures r == -1 <==> alloc.NoMemory? && old(primeIdx < N_PRIMES - 1 && loadLimit <= size)
      ensures r == -1 ==> unchanged(this)
      ensures old(primeIdx == N_PRIMES - 1 || loadLimit > size) ==> unchanged(this)
      ensures r == 0 && old(primeIdx < N_PRIMES - 1 && loadLimit <= size) ==>
                fresh(table) && LeastSufficient(old(primeIdx), primeIdx, size)
    {
      if primeIdx == N_PRIMES - 1 { return 0; }
      if loadLimit > size { return 0; }
      var idx := PickPrime(primeIdx, size);
      if alloc.NoMemory? { return -1; }
      PrimesOrdered(primeIdx, idx);
      var t, cs := Rehash(Prime(idx), alloc);
      Install(t, cs, idx);
      return 0;
    }

    /** There is no table yet, or one below the largest prime has reached its load limit. */
    predicate MustGrow()
      reads this
    {
      table == null || (nEntries >= loadLimit && primeIdx < N_PRIMES - 1)
    }

    /** Without memory an existing table is left as it is, and takes the element all the same. */
    method EnsureRoom(alloc: Allocation)
      requires Valid() && GrowthInRange() && (table == null ==> !alloc.NoMemory?)
      modifies this, Elems(chains)`next
      ensures Valid() && Elems(chains) == old(Elems(chains)) && table != null
      ensures !alloc.NoMemory? && primeIdx < N_PRIMES - 1 ==> nEntries < loadLimit
      ensures if old(MustGrow()) && !alloc.NoMemory?
              then fresh(table) && LeastSufficient(old(primeIdx), primeIdx, nEntries + 1)
              else unchanged(this)
    {
      PrimesGrow();
      if table == null || nEntries >= loadLimit {
        var _ := Grow(nEntries + 1, alloc);
      }
    }

    /** A table within its load limit never looks past the last prime. */
    lemma LoadKeepsRange()
      requires Valid() && WithinLoad()
      ensures GrowthInRange()
    {
      RoomInSight(primeIdx, nEntries);
    }

    /** One bucket's chain is replaced by one that belongs there, and the elements change accordingly. */
    lemma ValidUpdate(cs: Chains<K>, b: nat, c: seq<Elem<K>>, es: set<Elem<K>>)
      requires cs == chains && Homed(cs) && Hashed() && b < |cs| && Elems(cs[b := c]) == es
      requires forall e <- es :: e.hash == hashfn(e.key)
      requires forall i | 0 <= i < |c| :: c[i] in es && c[i].hash % |cs| == b
      ensures Homed(cs[b := c])
    {
      var ds := cs[b := c];
      forall d | 0 <= d < |ds|
        ensures HomedBucket(ds, d)
      {
        assert HomedBucket(cs, d);
        forall i | 0 <= i < |ds[d]|
          ensures ds[d][i] in Elems(ds) && ds[d][i].hash % |ds| == d
        {
          assert At(ds, d, i);
        }
      }
    }

    /** `cs`, once spelled out, makes a table of `n` elements. */
    ghost predicate Fits(cs: Chains<K>, n: nat)
      reads this, Elems(cs)`hash
    {
      && Sized() && |cs| == |chains| && KeysDistinct(cs) && Homed(cs)
      && n == |Elems(cs)|
      && forall e <- Elems(cs) :: e.hash == hashfn(e.key)
    }

    /** Record the chains that the links now spell out. */
    method Adopt(ghost cs: Chains<K>, n: nat)
      requires table != null && Fits(cs, n) && Spells(table, cs)
      modifies this`chains, this`nEntries
      ensures Valid() && chains == cs && nEntries == n
    {
      chains, nEntries := cs, n;
    }

    lemma HasBuckets()
      requires Sized() && table != null
      ensures tableLength == table.Length == |chains| > 0
    {
      PrimesGrow();
    }

    lemma PushKeeps(b: nat, elm: Elem<K>)
      requires Valid() && b < |chains| && elm.hash == hashfn(elm.key) && b == elm.hash % |chains| && Lacks(elm.key)
      ensures Fits(Pushed(chains, b, elm), nEntries + 1) && Elems(Pushed(chains, b, elm)) == Elems(chains) + {elm}
    {
      PushedElems(chains, b, elm);
      assert HomedBucket(chains, b);
      ValidUpdate(chains, b, [elm] + chains[b], Elems(chains) + {elm});
    }

    /** Push onto bucket `b`, given that the result is a table. */
    method PushAt(b: nat, elm: Elem<K>, n: nat)
      requires table != null && b < |chains| && Spells(table, chains) && KeysDistinct(chains) && Lacks(elm.key)
      requires Fits(Pushed(chains, b, elm), n)
      modifies this`chains, this`nEntries, table, elm`next
      ensures Valid() && chains == Pushed(old(chains), b, elm) && nEntries == n
    {
      Push(table, chains, b, elm);
      Adopt(Pushed(chains, b, elm), n);
    }

    method Add(elm: Elem<K>)
      requires Valid() && table != null && elm.hash == hashfn(elm.key) && Lacks(elm.key)
      modifies this`chains, this`nEntries, table, elm`next
      ensures Valid() && Elems(chains) == old(Elems(chains)) + {elm} && nEntries == old(nEntries) + 1
      ensures 0 < |old(chains)| && chains == Pushed(old(chains), elm.hash % |old(chains)|, elm)
    {
      HasBuckets();
      var b := elm.hash % tableLength;
      PushKeeps(b, elm);
      PushAt(b, elm, nEntries + 1);
    }

    /**
      The caller promises that no matching element is in the table. Memory is needed only for the
      first table; later on the load limit is exceeded when there is none.
    */
    method Insert(elm: Elem<K>, alloc: Allocation)
      requires Valid() && GrowthInRange() && (table == null ==> !alloc.NoMemory?) && elm.key !in Contents()
      modifies this, table, Elems(chains)`next, elm
      ensures Valid() && Contents() == old(Contents())[elm.key := elm]
      ensures nEntries == old(nEntries) + 1
      ensures !alloc.NoMemory? ==> WithinLoad()
      ensures if old(MustGrow()) && !alloc.NoMemory?
              then fresh(table) && LeastSufficient(old(primeIdx), primeIdx, nEntries)
              else table == old(table) && 0 < |old(chains)|
                   && chains == Pushed(old(chains), hashfn(elm.key) % |old(chains)|, elm)
    {
      ghost var es := Elems(chains);
      OneKeyEach(chains);
      EnsureRoom(alloc);
      SetHash(elm);
      ContentsOf(elm.key);
      Add(elm);
      ByKeyAdd(es, elm);
    }

    lemma SwapKeeps(b: nat, i: nat, elm: Elem<K>)
      requires Valid() && At(chains, b, i) && elm !in Elems(chains) && elm.key == chains[b][i].key
               && elm.hash == hashfn(elm.key)
      ensures var cs := Swapped(chains, b, i, elm);
              Fits(cs, nEntries) && Elems(cs) == Elems(chains) - {chains[b][i]} + {elm}
    {
      SwappedElems(chains, b, i, elm);
      assert HomedBucket(chains, b);
      ValidUpdate(chains, b, chains[b][i := elm], Elems(chains) - {chains[b][i]} + {elm});
    }

    lemma AppendKeeps(b: nat, elm: Elem<K>)
      requires Valid() && b < |chains| && elm.hash == hashfn(elm.key) && b == elm.hash % |chains| && Lacks(elm.key)
      ensures Fits(Appended(chains, b, elm), nEntries + 1) && Elems(Appended(chains, b, elm)) == Elems(chains) + {elm}
    {
      AppendedElems(chains, b, elm);
      assert HomedBucket(chains, b);
      ValidUpdate(chains, b, chains[b] + [elm], Elems(chains) + {elm});
    }

    lemma UnlinkKeeps(b: nat, i: nat)
      requires Valid() && At(chains, b, i)
      ensures nEntries > 0 && Fits(Unlinked(chains, b, i), nEntries - 1)
      ensures Elems(Unlinked(chains, b, i)) == Elems(chains) - {chains[b][i]}
    {
      UnlinkedElems(chains, b, i);
      assert HomedBucket(chains, b);
      forall j | 0 <= j < |chains[b]| - 1
        ensures Remove1(chains[b], i)[j] in Elems(chains) - {chains[b][i]}
                && Remove1(chains[b], i)[j].hash % |chains| == b
      {
        assert At(Unlinked(chains, b, i), b, j);
      }
      ValidUpdate(chains, b, Remove1(chains[b], i), Elems(chains) - {chains[b][i]});
    }

    method SwapAt(p: Link<K>, ghost b: nat, ghost i: nat, r: Elem<K>, elm: Elem<K>, ghost n: nat)
      requires table != null && Spells(table, chains) && KeysDistinct(chains)
      requires IsLink(chains, p, b, i) && At(chains, b, i) && chains[b][i] == r && n == nEntries
      requires elm !in Elems(chains) && elm.key == r.key && Fits(Swapped(chains, b, i, elm), n)
      modifies this`chains, this`nEntries, table, Elems(chains)`next, elm`next
      ensures Valid() && chains == Swapped(old(chains), b, i, elm) && nEntries == n && r.next == null
    {
      Swap(table, chains, p, r, elm, b, i);
      Adopt(Swapped(chains, b, i, elm), nEntries);
    }

    method AppendAt(p: Link<K>, ghost b: nat, elm: Elem<K>)
      requires table != null && Spells(table, chains) && KeysDistinct(chains)
      requires b < |chains| && IsLink(chains, p, b, |chains[b]|) && elm.next == null && Lacks(elm.key)
      requires Fits(Appended(chains, b, elm), nEntries + 1)
      modifies this`chains, this`nEntries, table, Elems(chains)`next
      ensures Valid() && chains == Appended(old(chains), b, elm) && nEntries == old(nEntries) + 1
    {
      Append(table, chains, p, elm, b);
      Adopt(Appended(chains, b, elm), nEntries + 1);
    }

    method UnlinkAt(p: Link<K>, ghost b: nat, ghost i: nat, r: Elem<K>)
      requires table != null && Spells(table, chains) && KeysDistinct(chains)
      requires IsLink(chains, p, b, i) && At(chains, b, i) && chains[b][i] == r
      requires nEntries > 0 && Fits(Unlinked(chains, b, i), nEntries - 1)
      modifies this`chains, this`nEntries, table, Elems(chains)`next
      ensures Valid() && chains == Unlinked(old(chains), b, i) && nEntries == old(nEntries) - 1 && r.next == old(r.next)
    {
      Unlink(table, chains, p, r, b, i);
      Adopt(Unlinked(chains, b, i), nEntries - 1);
    }

    /** Puts `elm` in the place of `r`, the element behind the link. */
    method PutOver(p: Link<K>, ghost b: nat, ghost i: nat, r: Elem<K>, elm: Elem<K>)
      requires Valid() && table != null && IsLink(chains, p, b, i) && At(chains, b, i) && chains[b][i] == r
      requires elm !in Elems(chains) && elm.key == r.key && elm.hash == hashfn(elm.key)
      modifies this`chains, this`nEntries, table, Elems(chains)`next, elm`next
      ensures Valid() && nEntries == old(nEntries) && r.next == null
      ensures Elems(chains) == old(Elems(chains)) - {r} + {elm} && chains == Swapped(old(chains), b, i, elm)
    {
      SwapKeeps(b, i, elm);
      SwapAt(p, b, i, r, elm, nEntries);
    }

    /** Puts `elm` behind the last link of its bucket. */
    method PutLast(p: Link<K>, ghost b: nat, elm: Elem<K>)
      requires Valid() && table != null && b < |chains| && IsLink(chains, p, b, |chains[b]|) && b == elm.hash % |chains|
      requires Lacks(elm.key) && elm.hash == hashfn(elm.key) && elm.next == null
      modifies this`chains, this`nEntries, table, Elems(chains)`next
      ensures Valid() && nEntries == old(nEntries) + 1
      ensures Elems(chains) == old(Elems(chains)) + {elm} && chains == Appended(old(chains), b, elm)
    {
      AppendKeeps(b, elm);
      AppendAt(p, b, elm);
    }

    /** The chains are as before, but for `elm` in the place of `r`. */
    ghost predicate IsSwap(cs: Chains<K>, cs': Chains<K>, r: Elem<K>, elm: Elem<K>) {
      exists b, i | At(cs, b, i) :: cs[b][i] == r && cs' == Swapped(cs, b, i, elm)
    }

    /** Replace, once there is room and the hash is cached. */
    method ReplaceInPlace(elm: Elem<K>) returns (r: Elem?<K>)
      requires Valid() && table != null && elm !in Elems(chains) && elm.hash == hashfn(elm.key) && elm.next == null
      modifies this`chains, this`nEntries, table, Elems(chains)`next, elm`next
      ensures Valid() && nEntries == old(nEntries) + if r == null then 1 else 0
      ensures r == null ==> old(Lacks(elm.key)) && Elems(chains) == old(Elems(chains)) + {elm}
      ensures r != null ==> r in old(Elems(chains)) && r.key == elm.key && r.next == null
      ensures r != null ==> Elems(chains) == old(Elems(chains)) - {r} + {elm}
      ensures r == null ==> 0 < |old(chains)| && chains == Appended(old(chains), elm.hash % |old(chains)|, elm)
      ensures r != null ==> IsSwap(old(chains), chains, r, elm)
    {
      var p, b, i := FindP(elm);
      LoadIs(table, chains, p.value, b, i);
      r := Load(table, p.value);
      if r != null {
        PutOver(p.value, b, i, r, elm);
      } else {
        PutLast(p.value, b, elm);
      }
    }

    /** Replace, once there is room. */
    method ReplaceIn(elm: Elem<K>) returns (r: Elem?<K>)
      requires Valid() && table != null && elm !in Elems(chains) && elm.next == null
      modifies this`chains, this`nEntries, table, Elems(chains)`next, elm
      ensures r == if elm.key in old(Contents()) then old(Contents())[elm.key] else null
      ensures r != null ==> r.next == null
      ensures Valid() && Contents() == old(Contents())[elm.key := elm]
      ensures nEntries == old(nEntries) + if r == null then 1 else 0
      ensures if r == null
              then 0 < |old(chains)| && chains == Appended(old(chains), hashfn(elm.key) % |old(chains)|, elm)
              else IsSwap(old(chains), chains, r, elm)
    {
      ghost var es := Elems(chains);
      OneKeyEach(chains);
      SetHash(elm);
      r := ReplaceInPlace(elm);
      if r != null { ByKeySwap(es, r, elm); } else { ByKeyAdd(es, elm); }
    }

    /** Puts `elm`, which is in no table, in the place of the matching element, which it returns, or adds it. */
    method Replace(elm: Elem<K>, alloc: Allocation) returns (r: Elem?<K>)
      requires Valid() && GrowthInRange() && (table == null ==> !alloc.NoMemory?)
      requires elm !in Elems(chains) && elm.next == null
      modifies this, table, Elems(chains)`next, elm
      ensures r == if elm.key in old(Contents()) then old(Contents())[elm.key] else null
      ensures r != null ==> r.next == null
      ensures Valid() && Contents() == old(Contents())[elm.key := elm]
      ensures nEntries == old(nEntries) + if r == null then 1 else 0
      ensures !alloc.NoMemory? ==> WithinLoad()
      ensures if old(MustGrow()) && !alloc.NoMemory?
              then fresh(table) && LeastSufficient(old(primeIdx), primeIdx, old(nEntries) + 1)
              else table == old(table)
                   && if r == null
                      then 0 < |old(chains)|
                           && chains == Appended(old(chains), hashfn(elm.key) % |old(chains)|, elm)
                      else IsSwap(old(chains), chains, r, elm)
    {
      hide LeastSufficient, IsSwap, ByKey, OneEach, KeysDistinct, Homed, Spells;
      EnsureRoom(alloc);
      r := ReplaceIn(elm);
    }

    /** Unlinks the element behind a link, and cuts its own link. */
    method DetachAt(p: Link<K>, ghost b: nat, ghost i: nat, r: Elem<K>)
      requires table != null && Spells(table, chains) && KeysDistinct(chains)
      requires IsLink(chains, p, b, i) && At(chains, b, i) && chains[b][i] == r
      requires nEntries > 0 && Fits(Unlinked(chains, b, i), nEntries - 1) && r !in Elems(Unlinked(chains, b, i))
      modifies this`chains, this`nEntries, table, Elems(chains)`next
      ensures Valid() && chains == Unlinked(old(chains), b, i) && nEntries == old(nEntries) - 1 && r.next == null
    {
      Unlink(table, chains, p, r, b, i);
      r.next := null;
      Adopt(Unlinked(chains, b, i), nEntries - 1);
    }

    /** The chains are as before, but without `r`. */
    ghost predicate IsUnlink(cs: Chains<K>, cs': Chains<K>, r: Elem<K>) {
      exists b, i | At(cs, b, i) :: cs[b][i] == r && cs' == Unlinked(cs, b, i)
    }

    /** Remove, once the hash is cached. */
    method RemoveHashed(elm: Elem<K>) returns (r: Elem?<K>)
      requires Valid() && elm.hash == hashfn(elm.key)
      modifies this`chains, this`nEntries, table, Elems(chains)`next
      ensures Valid() && nEntries == old(nEntries) - if r == null then 0 else 1
      ensures r == null ==> old(Lacks(elm.key)) && Elems(chains) == old(Elems(chains))
      ensures r != null ==> r in old(Elems(chains)) && r.key == elm.key && r.next == null
      ensures r != null ==> Elems(chains) == old(Elems(chains)) - {r}
      ensures if r == null then chains == old(chains) else IsUnlink(old(chains), chains, r)
    {
      var p, b, i := FindP(elm);
      if p.None? { return null; }
      LoadIs(table, chains, p.value, b, i);
      r := Load(table, p.value);
      if r != null {
        UnlinkKeeps(b, i);
        DetachAt(p.value, b, i, r);
      }
    }

    /** Unlinks and returns the matching element, if there is one. */
    method Remove(elm: Elem<K>) returns (r: Elem?<K>)
      requires Valid()
      modifies this`chains, this`nEntries, table, Elems(chains)`next, elm`hash
      ensures Valid() && Contents() == old(Contents()) - {elm.key}
      ensures r == if elm.key in old(Contents()) then old(Contents())[elm.key] else null
      ensures r != null ==> r.next == null
      ensures nEntries == old(nEntries) - if r == null then 0 else 1
      ensures if r == null then chains == old(chains) else IsUnlink(old(chains), chains, r)
      ensures old(WithinLoad()) ==> WithinLoad()
    {
      ghost var es := Elems(chains);
      OneKeyEach(chains);
      SetHash(elm);
      r := RemoveHashed(elm);
      if r != null { ByKeyRemove(es, r); } else { ByKeyLacks(es, elm.key); }
    }

    /** Forgets all elements. */
    method Clear()
      modifies this
      ensures Valid() && WithinLoad() && Contents() == map[] && table == null
    {
      table := null;
      tableLength, nEntries, loadLimit, primeIdx := 0, 0, 0, -1;
      chains := [];
      assert Elems(chains) == {};
    }

    // ---- the representation checker ----

    ghost predicate GoodElem(e: Elem<K>, b: nat)
      reads this, e`hash
    {
      e.hash == hashfn(e.key) && tableLength > 0 && e.hash % tableLength == b
    }

    /** What the checker stands for, said of the chains. */
    ghost predicate RepOk()
      requires primeIdx < N_PRIMES
      reads this, Elems(chains)`hash
    {
      if tableLength == 0 then
        table == null && nEntries == 0 && loadLimit == 0 && primeIdx == -1
      else
        && table != null && 0 <= primeIdx && loadLimit != 0 && nEntries <= loadLimit
        && tableLength == Prime(primeIdx) && loadLimit == LoadLimit(tableLength)
        && (forall b, i | At(chains, b, i) :: chains[b][i] in Elems(chains) && GoodElem(chains[b][i], b))
        && Total(chains) == nEntries
    }

    /** Element `i` of bucket `b` is the first bad one of the bucket, and `code` says what is wrong with it. */
    ghost predicate IsFault(b: nat, i: nat, code: int)
      reads this, Elems(chains)`hash
    {
      && At(chains, b, i) && chains[b][i] in Elems(chains) && !GoodElem(chains[b][i], b)
      && (forall j | 0 <= j < i :: chains[b][j] in Elems(chains) && GoodElem(chains[b][j], b))
      && code == (if chains[b][i].hash != hashfn(chains[b][i].key) then 1000 else 10000) + b
    }

    /** One bucket of the checker's scan: its number of elements, or the code of the first bad one. */
    method CheckBucket(b: nat) returns (code: int, n: nat)
      requires table != null && tableLength == |chains| && b < |chains| && Spells(table, chains)
      ensures code == 0 ==> n == |chains[b]| && forall i | 0 <= i < |chains[b]| :: GoodElem(chains[b][i], b)
      ensures code != 0 ==> exists i :: IsFault(b, i, code)
    {
      n := 0;
      var e := table[b];
      while e != null
        invariant Spells(table, chains)
        invariant n <= |chains[b]| && e == NextAt(chains, b, n)
        invariant forall i | 0 <= i < n :: GoodElem(chains[b][i], b)
        decreases |chains[b]| - n
      {
        assert At(chains, b, n);
        if e.hash != hashfn(e.key) {
          code := 1000 + b;
          assert IsFault(b, n, code);
          return;
        }
        if e.hash % tableLength != b {
          code := 10000 + b;
          assert IsFault(b, n, code);
          return;
        }
        e := e.next;
        n := n + 1;
      }
      code := 0;
    }

    /** All elements before bucket `b` are good. */
    ghost predicate GoodBefore(b: nat)
      reads this, Elems(chains)`hash
    {
      forall c, i | At(chains, c, i) && c < b :: chains[c][i] in Elems(chains) && GoodElem(chains[c][i], c)
    }

    /** Returns 0 exactly when the representation is consistent, else the code of the first thing wrong with it. */
    method RepIsBad() returns (code: int)
      requires primeIdx < N_PRIMES
      requires tableLength > 0 && table != null ==> tableLength == |chains| && Spells(table, chains)
      ensures code == 0 <==> RepOk()
      ensures code == 1 <==> tableLength == 0 && !RepOk()
      ensures code == 2 <==> tableLength > 0 && (table == null || primeIdx < 0 || loadLimit == 0)
      ensures code == 3 ==> nEntries > loadLimit > 0
      ensures code == 4 ==> nEntries <= loadLimit && tableLength != Prime(primeIdx)
      ensures code == 5 ==>
        nEntries <= loadLimit && tableLength == Prime(primeIdx) && loadLimit != LoadLimit(tableLength)
      ensures code < 0 || code > 5 ==>
        nEntries <= loadLimit && tableLength == Prime(primeIdx) && loadLimit == LoadLimit(tableLength)
      ensures code == 6 ==> GoodBefore(|chains|) && Total(chains) != nEntries
      ensures code < 0 || code > 6 ==> exists b, i :: IsFault(b, i, code) && GoodBefore(b)
    {
      if tableLength == 0 {
        if table == null && nEntries == 0 && loadLimit == 0 && primeIdx == -1 { return 0; } else { return 1; }
      }
      if table == null || primeIdx < 0 || loadLimit == 0 { return 2; }
      if nEntries > loadLimit { return 3; }
      if tableLength != Prime(primeIdx) { return 4; }
      if loadLimit != LoadLimit(tableLength) { return 5; }
      var n := 0;
      for i := 0 to tableLength
        invariant Spells(table, chains)
        invariant n == Total(chains[..i])
        invariant forall b, j | At(chains, b, j) && b < i :: GoodElem(chains[b][j], b)
      {
        var c, m := CheckBucket(i);
        if c != 0 { return c; }
        n := n + m;
        TotalPrefix(chains, i);
      }
      assert chains[..tableLength] == chains;
      assert forall b, j | At(chains, b, j) :: chains[b][j] in Elems(chains);
      if n != nEntries { return 6; }
      return 0;
    }

    /** The checker accepts every table, except one past its limit at the largest prime. */
    lemma CheckerAccepts()
      requires Valid()
      ensures RepOk() <==> nEntries <= loadLimit
    {
      PrimesGrow();
      TotalIsCount(chains);
      forall b, i | At(chains, b, i)
        ensures chains[b][i] in Elems(chains) && (table != null ==> GoodElem(chains[b][i], b))
      {
        assert HomedBucket(chains, b);
      }
    }

    /** Links that spell out distinct keys and satisfy the checker make a table. */
    lemma CheckerSuffices()
      requires primeIdx < N_PRIMES && RepOk() && KeysDistinct(chains) && |chains| == tableLength
      requires table != null ==> Spells(table, chains)
      ensures Valid() && WithinLoad()
    {
      TotalIsCount(chains);
      forall b | 0 <= b < |chains|
        ensures HomedBucket(chains, b)
      {
        assert forall i | 0 <= i < |chains[b]| :: At(chains, b, i);
      }
      forall e | e in Elems(chains)
        ensures e.hash == hashfn(e.key)
      {
        var b, i :| 0 <= b < |chains| && 0 <= i < |chains[b]| && chains[b][i] == e;
        assert At(chains, b, i);
      }
    }
  }

  lemma {:induction false} TotalPrefix<K(!new)>(cs: Chains<K>, i: nat)
    requires i < |cs|
    ensures Total(cs[..i + 1]) == Total(cs[..i]) + |cs[i]|
  {
    if i == 0 {
      assert cs[..1][1..] == [] && cs[..0] == [];
    } else {
      TotalPrefix(cs[1..], i - 1);
      assert cs[..i + 1][1..] == cs[1..][..i] && cs[..i][1..] == cs[1..][..i - 1];
    }
  }

  lemma ByKeySwap<K(!new)>(es: set<Elem<K>>, r: Elem<K>, e: Elem<K>)
    requires OneEach(es) && r in es && e.key == r.key
    ensures OneEach(es - {r} + {e}) && ByKey(es - {r} + {e}) == ByKey(es)[e.key := e]
  {
  }

  lemma ByKeyLacks<K(!new)>(es: set<Elem<K>>, key: K)
    requires OneEach(es) && forall e <- es :: e.key != key
    ensures key !in ByKey(es) && ByKey(es) - {key} == ByKey(es)
  {
  }

  lemma ByKeyRemove<K(!new)>(es: set<Elem<K>>, r: Elem<K>)
    requires OneEach(es) && r in es
    ensures OneEach(es - {r}) && ByKey(es - {r}) == ByKey(es) - {r.key}
  {
  }

  lemma ByKeyAdd<K(!new)>(es: set<Elem<K>>, e: Elem<K>)
    requires OneEach(es) && forall x <- es :: x.key != e.key
    ensures OneEach(es + {e}) && ByKey(es + {e}) == ByKey(es)[e.key := e]
  {
  }

  /** Below the largest prime, a full table's next size is still within the primes. */
  lemma RoomInSight(idx: int, n: nat)
    requires -1 <= idx < N_PRIMES
    requires idx == -1 ==> n == 0
    requires 0 <= idx < N_PRIMES - 1 ==> n <= LoadLimit(Prime(idx))
    ensures idx < N_PRIMES - 1 ==> n + 1 < 241591913
  {
    PrimesGrow();
    if 0 <= idx < N_PRIMES - 1 { LimitsGrow(idx + 1, N_PRIMES - 1); }
  }

  lemma {:induction false} PrimesOrdered(i: int, j: nat)
    requires -1 <= i < j < N_PRIMES
    ensures (if i == -1 then 0 else Prime(i)) < Prime(j)
    ensures (if i == -1 then 0 else LoadLimit(Prime(i))) <= LoadLimit(Prime(j))
    decreases j - i
  {
    PrimesGrow();
    if i + 1 < j { PrimesOrdered(i + 1, j); }
  }

  /** Appending empty buckets adds no element. */
  lemma Enlarge<K(!new)>(cs: Chains<K>, ds: Chains<K>)
    requires KeysDistinct(cs) && |cs| <= |ds| && ds[..|cs|] == cs && forall b | |cs| <= b < |ds| :: ds[b] == []
    ensures Elems(ds) == Elems(cs) && KeysDistinct(ds)
  {
    forall b, i | At(ds, b, i)
      ensures At(cs, b, i) && ds[b][i] == cs[b][i] && ds[b][i] in Elems(cs)
    {
      assert ds[..|cs|][b] == ds[b];
    }
    forall e | e in Elems(cs)
      ensures e in Elems(ds)
    {
      var b, i :| 0 <= b < |cs| && 0 <= i < |cs[b]| && cs[b][i] == e;
      assert ds[..|cs|][b] == ds[b] && At(ds, b, i);
    }
  }

  lemma OneKeyEach<K(!new)>(cs: Chains<K>)
    requires KeysDistinct(cs)
    ensures OneEach(Elems(cs))
  {
    forall e, x | e in Elems(cs) && x in Elems(cs) && e.key == x.key
      ensures e == x
    {
      var b, i :| 0 <= b < |cs| && 0 <= i < |cs[b]| && cs[b][i] == e;
      var c, j :| 0 <= c < |cs| && 0 <= j < |cs[c]| && cs[c][j] == x;
      assert At(cs, b, i) && At(cs, c, j);
    }
  }
}
