/**
  The two ways a hash table is rehashed when it grows: into a fresh array, and, when that cannot
  be allocated, inside the enlarged array that is being scanned.
*/
module HashRehash {
  import opened HashChains
  import opened Sequences

  /** Bucket `b` holds only elements whose cached hash belongs there. */
  ghost predicate HomedBucket<K(!new)>(cs: Chains<K>, b: nat)
    requires b < |cs|
    reads Elems(cs)`hash
  {
    forall i | 0 <= i < |cs[b]| :: cs[b][i] in Elems(cs) && cs[b][i].hash % |cs| == b
  }

  ghost predicate Homed<K(!new)>(cs: Chains<K>)
    reads Elems(cs)`hash
  {
    forall b | 0 <= b < |cs| :: HomedBucket(cs, b)
  }

  ghost function Bucket<K(!new)>(c: seq<Elem<K>>): set<Elem<K>> {
    set e | e in c
  }

  /** Homed chains are determined, bucket by bucket, by their elements. */
  lemma HomedBuckets<K(!new)>(cs: Chains<K>, b: nat)
    requires Homed(cs) && b < |cs|
    ensures Bucket(cs[b]) == set e | e in Elems(cs) && e.hash % |cs| == b
  {
    forall e | e in Elems(cs) && e.hash % |cs| == b
      ensures e in cs[b]
    {
      var c, i :| 0 <= c < |cs| && 0 <= i < |cs[c]| && cs[c][i] == e;
      assert HomedBucket(cs, c);
    }
    assert HomedBucket(cs, b);
  }

  /** Two homed tables over the same elements agree bucket by bucket, each element once. */
  lemma RehashesAgree<K(!new)>(cs: Chains<K>, ds: Chains<K>, b: nat)
    requires Homed(cs) && Homed(ds) && |cs| == |ds| && Elems(cs) == Elems(ds) && b < |cs|
    requires KeysDistinct(cs) && KeysDistinct(ds)
    ensures Bucket(cs[b]) == Bucket(ds[b]) && multiset(cs[b]) == multiset(ds[b])
  {
    HomedBuckets(cs, b);
    HomedBuckets(ds, b);
    assert forall i, j | 0 <= i < j < |cs[b]| :: At(cs, b, i) && At(cs, b, j) && cs[b][i] != cs[b][j];
    assert forall i, j | 0 <= i < j < |ds[b]| :: At(ds, b, i) && At(ds, b, j) && ds[b][i] != ds[b][j];
    OnceEach(cs[b]);
    OnceEach(ds[b]);
    assert forall e :: e in cs[b] <==> e in Bucket(cs[b]);
    assert forall e :: e in ds[b] <==> e in Bucket(ds[b]);
  }

  lemma {:induction false} OnceEach<T>(s: seq<T>)
    requires NoRepeats(s)
    ensures forall x <- s :: multiset(s)[x] == 1
  {
    if s != [] {
      var n := |s| - 1;
      OnceEach(s[..n]);
      assert s == s[..n] + [s[n]];
    }
  }

  /**
    Rehash inside the array: `t` is the old array enlarged with empty buckets. Elements are
    unlinked from the bucket being scanned and pushed onto others, scanned or not.
  */
  method RehashInPlace<K(!new)>(t: array<Elem?<K>>, ghost cs0: Chains<K>, oldLen: nat) returns (ghost cs: Chains<K>)
    requires Spells(t, cs0) && KeysDistinct(cs0) && oldLen < t.Length
    requires forall b | oldLen <= b < |cs0| :: cs0[b] == []
    modifies t, Elems(cs0)`next
    ensures |cs| == |cs0| && Elems(cs) == Elems(cs0) && KeysDistinct(cs)
    ensures Spells(t, cs) && Homed(cs)
  {
    cs := cs0;
    for b := 0 to oldLen
      invariant |cs| == |cs0| && Elems(cs) == Elems(cs0) && KeysDistinct(cs) && Spells(t, cs)
      invariant forall c | 0 <= c < |cs| && (c < b || oldLen <= c) :: HomedBucket(cs, c)
    {
      assert IsLink(cs, AtBucket(b), b, 0);
      cs := ScanBucket(t, cs, b, oldLen);
    }
  }

  /** In the middle of bucket `b`: `p` is the link in front of (b, i), and everything behind is in its bucket. */
  ghost predicate Scanning<K(!new)>(t: array<Elem?<K>>, cs: Chains<K>, p: Link<K>, b: nat, i: nat, oldLen: nat)
    reads t, Elems(cs)
  {
    && KeysDistinct(cs) && Spells(t, cs) && IsLink(cs, p, b, i)
    && (forall j | 0 <= j < i :: cs[b][j] in Elems(cs) && cs[b][j].hash % |cs| == b)
    && (forall c | 0 <= c < |cs| && c != b && (c < b || oldLen <= c) :: HomedBucket(cs, c))
  }

  /** The inner loop of the in-place rehash, for one bucket. */
  method ScanBucket<K(!new)>(t: array<Elem?<K>>, ghost cs0: Chains<K>, b: nat,
      ghost oldLen: nat) returns (ghost cs: Chains<K>)
    requires b < oldLen < t.Length && b < |cs0| && Scanning(t, cs0, AtBucket(b), b, 0, oldLen)
    modifies t, Elems(cs0)`next
    ensures |cs| == |cs0| && Elems(cs) == Elems(cs0) && KeysDistinct(cs)
    ensures Spells(t, cs)
    ensures forall c | 0 <= c < |cs| && (c <= b || oldLen <= c) :: HomedBucket(cs, c)
  {
    cs := cs0;
    var p := AtBucket(b);
    ghost var i := 0;
    LoadIs(t, cs, p, b, i);
    var e := Load(t, p);
    while e != null
      invariant |cs| == |cs0| && Elems(cs) == Elems(cs0)
      invariant Scanning(t, cs, p, b, i, oldLen) && e == NextAt(cs, b, i)
      decreases |cs[b]| - i
    {
      p, cs, i := ScanElem(t, cs, p, e, b, i, oldLen);
      LoadIs(t, cs, p, b, i);
      e := Load(t, p);
    }
    assert i == |cs[b]|;
  }

  /** One round of the inner loop: step over an element that is at home, or move it home. */
  method ScanElem<K(!new)>(t: array<Elem?<K>>, ghost cs: Chains<K>, p: Link<K>, e: Elem<K>, b: nat, ghost i: nat,
      ghost oldLen: nat)
    returns (p': Link<K>, ghost cs': Chains<K>, ghost i': nat)
    requires b < oldLen < t.Length && Scanning(t, cs, p, b, i, oldLen) && At(cs, b, i) && e == cs[b][i]
    modifies t, Elems(cs)`next
    ensures |cs'| == |cs| && Elems(cs') == Elems(cs) && Scanning(t, cs', p', b, i', oldLen)
    ensures |cs'[b]| - i' == |cs[b]| - i - 1
  {
    assert e in Elems(cs);
    var b2 := e.hash % t.Length;
    if b2 == b {
      p', cs', i' := AtNext(e), cs, i + 1;
    } else {
      MovedHome(cs, b, i, b2, oldLen);
      cs' := MoveElem(t, cs, p, e, b, i, b2);
      p', i' := p, i;
      assert forall j | 0 <= j < i :: cs'[b][j] == cs[b][j];
    }
  }

  ghost function Moved<K(!new)>(cs: Chains<K>, b: nat, i: nat, b2: nat): Chains<K>
    requires At(cs, b, i) && b2 < |cs|
  {
    Pushed(Unlinked(cs, b, i), b2, cs[b][i])
  }

  /** `*p = e->next; e->next = t[b2]; t[b2] = e`. */
  method MoveElem<K(!new)>(t: array<Elem?<K>>, ghost cs: Chains<K>, p: Link<K>, e: Elem<K>, ghost b: nat, ghost i: nat,
      b2: nat)
    returns (ghost es: Chains<K>)
    requires Spells(t, cs) && KeysDistinct(cs) && IsLink(cs, p, b, i) && At(cs, b, i) && cs[b][i] == e && b2 < |cs|
    modifies t, Elems(cs)`next
    ensures es == Moved(cs, b, i, b2) && Elems(es) == Elems(cs) && KeysDistinct(es) && Spells(t, es)
  {
    ghost var ds := Unlinked(cs, b, i);
    UnlinkedElems(cs, b, i);
    assert At(cs, b, i) && e in Elems(cs);
    assert forall x <- Elems(ds) :: x.key != e.key;
    Unlink(t, cs, p, e, b, i);
    PushedElems(ds, b2, e);
    Push(t, ds, b2, e);
    es := Pushed(ds, b2, e);
  }

  /** Moving an element to its own bucket keeps the buckets that were right. */
  lemma MovedHome<K(!new)>(cs: Chains<K>, b: nat, i: nat, b2: nat, oldLen: nat)
    requires At(cs, b, i) && b2 < |cs| && b2 != b && cs[b][i].hash % |cs| == b2
    requires forall c | 0 <= c < |cs| && c != b && (c < b || oldLen <= c) :: HomedBucket(cs, c)
    ensures forall c | 0 <= c < |cs| && c != b && (c < b || oldLen <= c) :: HomedBucket(Moved(cs, b, i, b2), c)
    ensures Moved(cs, b, i, b2)[b] == Remove1(cs[b], i)
  {
    var es := Moved(cs, b, i, b2);
    forall c | 0 <= c < |es| && c != b && (c < b || oldLen <= c)
      ensures HomedBucket(es, c)
    {
      assert HomedBucket(cs, c);
      forall j | 0 <= j < |es[c]|
        ensures es[c][j] in Elems(es) && es[c][j].hash % |es| == c
      {
        assert c == b2 && j > 0 ==> es[c][j] == cs[c][j - 1];
        assert c != b2 ==> es[c][j] == cs[c][j];
        assert At(es, c, j);
      }
    }
  }

  /** The elements of `cs` in front of (b, i), in scanning order. */
  ghost function Before<K(!new)>(cs: Chains<K>, b: nat, i: nat): set<Elem<K>> {
    set c, j | 0 <= c < |cs| && 0 <= j < |cs[c]| && (c < b || (c == b && j < i)) :: cs[c][j]
  }

  /** The old chains from (b, i) on, still intact. */
  ghost predicate SpellsFrom<K(!new)>(t: array<Elem?<K>>, cs: Chains<K>, b: nat, i: nat)
    reads t, Elems(cs)`next
  {
    && t.Length == |cs|
    && (forall c | b < c < |cs| :: t[c] == NextAt(cs, c, 0))
    && (forall c, j {:trigger cs[c][j].next} {:trigger At(cs, c, j)} | At(cs, c, j) && (b < c || (b == c && i <= j)) ::
          cs[c][j] in Elems(cs) && cs[c][j].next == NextAt(cs, c, j + 1))
  }

  /** The new chains hold what has been taken from the old ones so far, each element at home. */
  ghost predicate Filling<K(!new)>(t: array<Elem?<K>>, cs0: Chains<K>, b: nat, i: nat, fresh': array<Elem?<K>>,
      cs: Chains<K>)
    reads t, fresh', Elems(cs0), Elems(cs)
  {
    && |cs| == fresh'.Length > 0 && Elems(cs) == Before(cs0, b, i) && KeysDistinct(cs) && Homed(cs)
    && Spells(fresh', cs) && SpellsFrom(t, cs0, b, i)
  }

  /** Rehash into a fresh array of empty buckets. */
  method RehashFresh<K(!new)>(t: array<Elem?<K>>, ghost cs0: Chains<K>,
      fresh': array<Elem?<K>>) returns (ghost cs: Chains<K>)
    requires Spells(t, cs0) && KeysDistinct(cs0) && fresh' != t && fresh'.Length > 0
    requires forall b | 0 <= b < fresh'.Length :: fresh'[b] == null
    modifies fresh', Elems(cs0)`next
    ensures |cs| == fresh'.Length && Elems(cs) == Elems(cs0) && KeysDistinct(cs)
    ensures Spells(fresh', cs) && Homed(cs)
  {
    cs := seq(fresh'.Length, _ => []);
    for b := 0 to t.Length
      invariant Filling(t, cs0, b, 0, fresh', cs) && (b < t.Length ==> t[b] == NextAt(cs0, b, 0))
    {
      cs := DrainBucket(t, cs0, b, fresh', cs);
      assert Before(cs0, b, |cs0[b]|) == Before(cs0, b + 1, 0);
    }
    assert Before(cs0, |cs0|, 0) == Elems(cs0);
  }

  /** The inner loop: every element of one old bucket is pushed onto its new one. */
  method DrainBucket<K(!new)>(t: array<Elem?<K>>, ghost cs0: Chains<K>, b: nat, fresh': array<Elem?<K>>,
      ghost ds: Chains<K>)
    returns (ghost cs: Chains<K>)
    requires KeysDistinct(cs0) && fresh' != t && b < t.Length && Filling(t, cs0, b, 0, fresh', ds)
             && t[b] == NextAt(cs0, b, 0)
    modifies fresh', Elems(cs0)`next
    ensures Filling(t, cs0, b, |cs0[b]|, fresh', cs)
  {
    cs := ds;
    var e := t[b];
    ghost var i := 0;
    while e != null
      invariant i <= |cs0[b]| && e == NextAt(cs0, b, i) && Filling(t, cs0, b, i, fresh', cs)
      decreases |cs0[b]| - i
    {
      var next := e.next;
      cs := DrainElem(t, cs0, b, i, e, fresh', cs);
      e := next;
      i := i + 1;
    }
  }

  method DrainElem<K(!new)>(t: array<Elem?<K>>, ghost cs0: Chains<K>, ghost b: nat, ghost i: nat, e: Elem<K>,
      fresh': array<Elem?<K>>, ghost ds: Chains<K>)
    returns (ghost cs: Chains<K>)
    requires KeysDistinct(cs0) && fresh' != t && At(cs0, b, i) && e == cs0[b][i] && Filling(t, cs0, b, i, fresh', ds)
    modifies fresh', e`next
    ensures Filling(t, cs0, b, i + 1, fresh', cs)
  {
    var b2 := e.hash % fresh'.Length;
    BeforeNext(cs0, b, i);
    PushedElems(ds, b2, e);
    PushedHome(ds, b2, e);
    Push(fresh', ds, b2, e);
    cs := Pushed(ds, b2, e);
  }

  lemma BeforeNext<K(!new)>(cs: Chains<K>, b: nat, i: nat)
    requires At(cs, b, i) && KeysDistinct(cs)
    ensures Before(cs, b, i + 1) == Before(cs, b, i) + {cs[b][i]}
    ensures forall x <- Before(cs, b, i) :: x.key != cs[b][i].key
  {
    forall x | x in Before(cs, b, i)
      ensures x.key != cs[b][i].key && x in Before(cs, b, i + 1)
    {
      var c, j :| 0 <= c < |cs| && 0 <= j < |cs[c]| && (c < b || (c == b && j < i)) && x == cs[c][j];
      assert At(cs, c, j);
    }
  }

  lemma PushedHome<K(!new)>(cs: Chains<K>, b: nat, e: Elem<K>)
    requires b < |cs| && e.hash % |cs| == b && Homed(cs)
    ensures Homed(Pushed(cs, b, e))
  {
    var es := Pushed(cs, b, e);
    forall c | 0 <= c < |es|
      ensures HomedBucket(es, c)
    {
      assert HomedBucket(cs, c);
      forall j | 0 <= j < |es[c]|
        ensures es[c][j] in Elems(es) && es[c][j].hash % |es| == c
      {
        assert c == b && j > 0 ==> es[c][j] == cs[c][j - 1];
        assert c != b ==> es[c][j] == cs[c][j];
        assert At(es, c, j);
      }
    }
  }
}
