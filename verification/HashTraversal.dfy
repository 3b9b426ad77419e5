/**
  Iterating over a hash table through link pointers, with or without removal.
*/
module HashTraversal {
  import opened HashChains
  import opened HashRehash
  import opened HashTable
  import opened Options
  import opened Sequences

  /** The elements in iteration order. */
  ghost function Flat<K(!new)>(cs: Chains<K>): seq<Elem<K>> {
    if cs == [] then [] else cs[0] + Flat(cs[1..])
  }

  /** The elements from position (b, i) on, in iteration order. */
  ghost function Rest<K(!new)>(cs: Chains<K>, b: nat, i: nat): seq<Elem<K>>
    requires b < |cs| && i <= |cs[b]|
  {
    cs[b][i..] + Flat(cs[b + 1..])
  }

  ghost function Passed<K(!new)>(cs: Chains<K>, b: nat, i: nat): seq<Elem<K>>
    requires b < |cs| && i <= |cs[b]|
  {
    Flat(cs[..b]) + cs[b][..i]
  }

  lemma {:induction false} FlatConcat<K(!new)>(cs: Chains<K>, ds: Chains<K>)
    ensures Flat(cs + ds) == Flat(cs) + Flat(ds)
  {
    if cs == [] {
      assert cs + ds == ds;
    } else {
      FlatConcat(cs[1..], ds);
      assert (cs + ds)[1..] == cs[1..] + ds && (cs + ds)[0] == cs[0];
      Regroup(cs[0], Flat(cs[1..]), Flat(ds));
    }
  }

  lemma FlatSplit<K(!new)>(cs: Chains<K>, b: nat, i: nat)
    requires b < |cs| && i <= |cs[b]|
    ensures Flat(cs) == Passed(cs, b, i) + Rest(cs, b, i)
  {
    assert cs == cs[..b] + cs[b..];
    FlatConcat(cs[..b], cs[b..]);
    FlatFrom(cs, b);
    Weave(Flat(cs[..b]), cs[b], i, Flat(cs[b + 1..]));
  }

  lemma Weave<T>(a: seq<T>, s: seq<T>, i: nat, c: seq<T>)
    requires i <= |s|
    ensures a + (s + c) == a + s[..i] + (s[i..] + c)
  {
  }

  lemma FlatFrom<K(!new)>(cs: Chains<K>, b: nat)
    requires b < |cs|
    ensures Flat(cs[b..]) == cs[b] + Flat(cs[b + 1..])
  {
    assert cs[b..][1..] == cs[b + 1..];
  }

  /** Removing the element at (b, i) removes it from the order and keeps everything else in place. */
  lemma FlatUnlinked<K(!new)>(cs: Chains<K>, b: nat, i: nat)
    requires At(cs, b, i)
    ensures var ds := Unlinked(cs, b, i);
            && i <= |ds[b]| && ds[b + 1..] == cs[b + 1..]
            && Rest(ds, b, i) == Rest(cs, b, i)[1..] && Passed(ds, b, i) == Passed(cs, b, i)
  {
    var ds := Unlinked(cs, b, i);
    assert ds[b][i..] == cs[b][i + 1..] && ds[b][..i] == cs[b][..i];
    assert ds[..b] == cs[..b] && ds[b + 1..] == cs[b + 1..];
  }

  lemma RestNext<K(!new)>(cs: Chains<K>, b: nat, i: nat)
    requires At(cs, b, i)
    ensures Rest(cs, b, i) != [] && Rest(cs, b, i)[0] == cs[b][i]
    ensures Rest(cs, b, i)[1..] == if i + 1 < |cs[b]| then Rest(cs, b, i + 1) else Flat(cs[b + 1..])
  {
    assert cs[b][i..] == [cs[b][i]] + cs[b][i + 1..];
  }

  lemma OnceConcat<T>(s: seq<T>, t: seq<T>)
    requires NoRepeats(s) && NoRepeats(t) && forall x <- s :: x !in t
    ensures NoRepeats(s + t)
  {
    forall i, j | 0 <= i < j < |s + t|
      ensures (s + t)[i] != (s + t)[j]
    {
      if i < |s| <= j { assert s[i] in s && t[j - |s|] in t; }
    }
  }

  /** The order lists every element exactly once. */
  lemma {:induction false} FlatOnce<K(!new)>(cs: Chains<K>)
    requires KeysDistinct(cs)
    ensures forall e :: e in Flat(cs) <==> e in Elems(cs)
    ensures NoRepeats(Flat(cs))
  {
    if cs != [] {
      TailDistinct(cs);
      FlatOnce(cs[1..]);
      SplitElems(cs);
      HeadApart(cs);
      ChainDistinct(cs, 0);
      forall e
        ensures e in cs[0] <==> e in HeadElems(cs)
      {
      }
      OnceConcat(cs[0], Flat(cs[1..]));
    }
  }

  /** `q` leads to the element that is first in `rest`, or there is none. */
  ghost predicate Leads<K(!new)>(cs: Chains<K>, q: Option<Link<K>>, c: nat, j: nat, rest: seq<Elem<K>>) {
    match q
    case None => rest == []
    case Some(link) => IsLink(cs, link, c, j) && At(cs, c, j) && Rest(cs, c, j) == rest
  }

  /** `while (b < length) { if (table[b]) return &table[b]; ++b; } return NULL`. */
  method FirstFrom<K(==, !new)>(ht: Table<K>, b0: nat) returns (p: Option<Link<K>>, ghost b: nat)
    requires ht.Valid() && b0 <= ht.tableLength
    ensures b0 <= |ht.chains|
    ensures p.None? ==> Flat(ht.chains[b0..]) == []
    ensures p.Some? ==>
              IsLink(ht.chains, p.value, b, 0) && At(ht.chains, b, 0) && Rest(ht.chains, b, 0) == Flat(ht.chains[b0..])
  {
    hide KeysDistinct, Homed, Prime;
    var n := b0;
    while n < ht.tableLength
      invariant ht.Valid() && b0 <= n <= ht.tableLength == |ht.chains|
      invariant Flat(ht.chains[n..]) == Flat(ht.chains[b0..])
    {
      FlatFrom(ht.chains, n);
      if ht.table[n] != null {
        return Some(AtBucket(n)), n;
      }
      n := n + 1;
    }
    return None, 0;
  }

  method Start<K(==, !new)>(ht: Table<K>) returns (p: Option<Link<K>>, ghost b: nat, ghost i: nat)
    requires ht.Valid()
    ensures Leads(ht.chains, p, b, i, Flat(ht.chains))
  {
    p, b := FirstFrom(ht, 0);
    i := 0;
    assert ht.chains[0..] == ht.chains;
  }

  /** The next position in order, or None at the end. */
  method Next<K(==, !new)>(ht: Table<K>, p: Link<K>, ghost b: nat, ghost i: nat)
    returns (q: Option<Link<K>>, ghost c: nat, ghost j: nat)
    requires ht.Valid() && ht.table != null && IsLink(ht.chains, p, b, i) && At(ht.chains, b, i)
    ensures Leads(ht.chains, q, c, j, Rest(ht.chains, b, i)[1..])
  {
    LoadIs(ht.table, ht.chains, p, b, i);
    var e := Load(ht.table, p);
    HomeOf(ht, b, i);
    RestNext(ht.chains, b, i);
    if e.next != null {
      q, c, j := Some(AtNext(e)), b, i + 1;
    } else {
      q, c := FirstFrom(ht, e.hash % ht.tableLength + 1);
      j := 0;
    }
  }

  lemma HomeOf<K(!new)>(ht: Table<K>, b: nat, i: nat)
    requires ht.Valid() && ht.table != null && At(ht.chains, b, i)
    ensures ht.tableLength == |ht.chains| > 0 && ht.chains[b][i].hash % ht.tableLength == b
    ensures ht.chains[b][i].next == NextAt(ht.chains, b, i + 1)
  {
    ht.HasBuckets();
    assert HomedBucket(ht.chains, b);
  }

  /** Removes the current element and returns the position of the next one, or None at the end. */
  method NextRmv<K(==, !new)>(ht: Table<K>, p: Link<K>, ghost b: nat, ghost i: nat)
    returns (q: Option<Link<K>>, ghost c: nat, ghost j: nat)
    requires ht.Valid() && ht.table != null && IsLink(ht.chains, p, b, i) && At(ht.chains, b, i)
    modifies ht`chains, ht`nEntries, ht.table, Elems(ht.chains)`next
    ensures ht.Valid() && ht.chains == Unlinked(old(ht.chains), b, i) && ht.nEntries == old(ht.nEntries) - 1
    ensures Leads(ht.chains, q, c, j, old(Rest(ht.chains, b, i))[1..])
  {
    LoadIs(ht.table, ht.chains, p, b, i);
    var e := Load(ht.table, p);
    HomeOf(ht, b, i);
    var h := e.hash;
    FlatUnlinked(ht.chains, b, i);
    TakeOut(ht, p, b, i, e);
    q, c, j := AfterRmv(ht, p, b, i, h);
  }

  method TakeOut<K(==, !new)>(ht: Table<K>, p: Link<K>, ghost b: nat, ghost i: nat, e: Elem<K>)
    requires ht.Valid() && ht.table != null && IsLink(ht.chains, p, b, i) && At(ht.chains, b, i) && e == ht.chains[b][i]
    modifies ht`chains, ht`nEntries, ht.table, Elems(ht.chains)`next
    ensures ht.Valid() && ht.chains == Unlinked(old(ht.chains), b, i) && ht.nEntries == old(ht.nEntries) - 1
    ensures IsLink(ht.chains, p, b, i)
  {
    ht.UnlinkKeeps(b, i);
    ht.UnlinkAt(p, b, i, e);
  }

  /** The rest of the removing step: stay on the same link if it still leads somewhere, else go on. */
  method AfterRmv<K(==, !new)>(ht: Table<K>, p: Link<K>, ghost b: nat, ghost i: nat, h: nat)
    returns (q: Option<Link<K>>, ghost c: nat, ghost j: nat)
    requires ht.Valid() && ht.table != null && IsLink(ht.chains, p, b, i) && ht.tableLength > 0
             && h % ht.tableLength == b
    ensures Leads(ht.chains, q, c, j, Rest(ht.chains, b, i))
  {
    LoadIs(ht.table, ht.chains, p, b, i);
    if Load(ht.table, p) != null {
      q, c, j := Some(p), b, i;
    } else {
      q, c := FirstFrom(ht, h % ht.tableLength + 1);
      j := 0;
      assert Rest(ht.chains, b, i) == Flat(ht.chains[b + 1..]);
    }
  }

  /** The elements of `s` whose visit did not choose removal. */
  ghost function Kept<T>(s: seq<T>, choose: nat -> bool): seq<T> {
    if s == [] then [] else
    var n := |s| - 1;
    Kept(s[..n], choose) + if choose(n) then [] else [s[n]]
  }

  lemma KeptNext<T>(s: seq<T>, choose: nat -> bool, x: T)
    ensures Kept(s + [x], choose) == Kept(s, choose) + if choose(|s|) then [] else [x]
  {
    assert (s + [x])[..|s|] == s;
  }

  /** After some visits: `rest` is still ahead, and what was visited and not chosen is still in the table. */
  ghost predicate Visited<K(!new)>(cs: Chains<K>, order: seq<Elem<K>>, visited: seq<Elem<K>>, choose: nat -> bool,
      rest: seq<Elem<K>>) {
    order == visited + rest && Flat(cs) == Kept(visited, choose) + rest
  }

  lemma VisitKeeping<K(!new)>(cs: Chains<K>, order: seq<Elem<K>>, visited: seq<Elem<K>>, choose: nat -> bool, b: nat,
      i: nat)
    requires At(cs, b, i) && Visited(cs, order, visited, choose, Rest(cs, b, i)) && !choose(|visited|)
    ensures Visited(cs, order, visited + [cs[b][i]], choose, Rest(cs, b, i)[1..])
  {
    RestNext(cs, b, i);
    KeptNext(visited, choose, cs[b][i]);
    assert Rest(cs, b, i) == [cs[b][i]] + Rest(cs, b, i)[1..];
  }

  lemma VisitRemoving<K(!new)>(cs: Chains<K>, order: seq<Elem<K>>, visited: seq<Elem<K>>, choose: nat -> bool, b: nat,
      i: nat)
    requires At(cs, b, i) && Visited(cs, order, visited, choose, Rest(cs, b, i)) && choose(|visited|)
    ensures Visited(Unlinked(cs, b, i), order, visited + [cs[b][i]], choose, Rest(cs, b, i)[1..])
  {
    RestNext(cs, b, i);
    KeptNext(visited, choose, cs[b][i]);
    RemovedOrder(cs, b, i, Kept(visited, choose));
    assert Rest(cs, b, i) == [cs[b][i]] + Rest(cs, b, i)[1..];
  }

  lemma RemovedOrder<K(!new)>(cs: Chains<K>, b: nat, i: nat, kept: seq<Elem<K>>)
    requires At(cs, b, i) && Flat(cs) == kept + Rest(cs, b, i)
    ensures Flat(Unlinked(cs, b, i)) == kept + Rest(cs, b, i)[1..]
  {
    FlatSplit(cs, b, i);
    FlatUnlinked(cs, b, i);
    FlatSplit(Unlinked(cs, b, i), b, i);
    assert |kept| == |Passed(cs, b, i)|;
    assert kept == Flat(cs)[..|kept|] == Passed(cs, b, i);
  }

  /** One visit: NEXT, or NEXT_RMV if removal is chosen. */
  method Visit<K(==, !new)>(ht: Table<K>, p: Link<K>, ghost b: nat, ghost i: nat, choose: nat -> bool,
      visited: seq<Elem<K>>, ghost order: seq<Elem<K>>)
    returns (q: Option<Link<K>>, ghost c: nat, ghost j: nat, visited': seq<Elem<K>>, ghost rest: seq<Elem<K>>)
    requires ht.Valid() && ht.table != null && IsLink(ht.chains, p, b, i) && At(ht.chains, b, i)
    requires Visited(ht.chains, order, visited, choose, Rest(ht.chains, b, i))
    modifies ht`chains, ht`nEntries, ht.table, Elems(ht.chains)`next
    ensures ht.Valid() && Elems(ht.chains) <= old(Elems(ht.chains)) && |visited'| == |visited| + 1
    ensures Leads(ht.chains, q, c, j, rest) && Visited(ht.chains, order, visited', choose, rest)
  {
    LoadIs(ht.table, ht.chains, p, b, i);
    var e := Load(ht.table, p);
    visited' := visited + [e];
    rest := Rest(ht.chains, b, i)[1..];
    if choose(|visited|) {
      VisitRemoving(ht.chains, order, visited, choose, b, i);
      UnlinkedElems(ht.chains, b, i);
      q, c, j := NextRmv(ht, p, b, i);
    } else {
      VisitKeeping(ht.chains, order, visited, choose, b, i);
      q, c, j := Next(ht, p, b, i);
    }
  }

  /**
    START, then any mix of NEXT and NEXT_RMV, chosen visit by visit: every element is visited
    exactly once, in order, and exactly the chosen ones are removed.
  */
  method Traverse<K(==, !new)>(ht: Table<K>, choose: nat -> bool) returns (visited: seq<Elem<K>>)
    requires ht.Valid()
    modifies ht`chains, ht`nEntries, ht.table, Elems(ht.chains)`next
    ensures ht.Valid() && visited == Flat(old(ht.chains)) && Flat(ht.chains) == Kept(visited, choose)
  {
    visited := [];
    ghost var order, rest := Flat(ht.chains), Flat(ht.chains);
    var p, b, i := Start(ht);
    while p.Some?
      invariant ht.Valid() && ht.table == old(ht.table) && Elems(ht.chains) <= old(Elems(ht.chains))
      invariant Leads(ht.chains, p, b, i, rest) && Visited(ht.chains, order, visited, choose, rest)
      decreases |order| - |visited|
    {
      StillLeads(ht, p.value, b, i, rest);
      p, b, i, visited, rest := Visit(ht, p.value, b, i, choose, visited, order);
    }
  }

  lemma StillLeads<K(!new)>(ht: Table<K>, p: Link<K>, b: nat, i: nat, rest: seq<Elem<K>>)
    requires ht.Valid() && Leads(ht.chains, Some(p), b, i, rest)
    ensures ht.table != null && rest != []
  {
  }

  lemma RestAtEnd<K(!new)>(cs: Chains<K>, b: nat)
    requires b < |cs|
    ensures Rest(cs, b, |cs[b]|) == Flat(cs[b + 1..])
  {
  }

  /** One call of FOREACH_FN's callback, at link `p`: unlink the element or step over it. */
  method ForeachCall<K(==, !new)>(ht: Table<K>, p: Link<K>, ghost b: nat, ghost i: nat, fn: nat -> bool,
      calls: seq<Elem<K>>, ghost order: seq<Elem<K>>)
    returns (q: Link<K>, ghost j: nat, calls': seq<Elem<K>>)
    requires ht.Valid() && ht.table != null && IsLink(ht.chains, p, b, i) && At(ht.chains, b, i)
    requires Visited(ht.chains, order, calls, fn, Rest(ht.chains, b, i))
    modifies ht`chains, ht`nEntries, ht.table, Elems(ht.chains)`next
    ensures ht.Valid() && Elems(ht.chains) <= old(Elems(ht.chains)) && |ht.chains| == old(|ht.chains|)
    ensures |calls'| == |calls| + 1 && IsLink(ht.chains, q, b, j)
    ensures Visited(ht.chains, order, calls', fn, Rest(ht.chains, b, j))
  {
    LoadIs(ht.table, ht.chains, p, b, i);
    var e := Load(ht.table, p);
    calls' := calls + [e];
    if fn(|calls|) {
      ForeachRemove(ht, p, b, i, e, fn, calls, order);
      q, j := p, i;
    } else {
      ForeachKeep(ht.chains, order, calls, fn, b, i);
      q, j := AtNext(e), i + 1;
    }
  }

  lemma ForeachKeep<K(!new)>(cs: Chains<K>, order: seq<Elem<K>>, calls: seq<Elem<K>>, fn: nat -> bool, b: nat, i: nat)
    requires At(cs, b, i) && Visited(cs, order, calls, fn, Rest(cs, b, i)) && !fn(|calls|)
    ensures Visited(cs, order, calls + [cs[b][i]], fn, Rest(cs, b, i + 1))
  {
    RestNext(cs, b, i);
    VisitKeeping(cs, order, calls, fn, b, i);
    RestAtEnd(cs, b);
  }

  /** The callback asked for removal: the link now leads to the element after `e`. */
  method ForeachRemove<K(==, !new)>(ht: Table<K>, p: Link<K>, ghost b: nat, ghost i: nat, e: Elem<K>, fn: nat -> bool,
      ghost calls: seq<Elem<K>>, ghost order: seq<Elem<K>>)
    requires ht.Valid() && ht.table != null && IsLink(ht.chains, p, b, i) && At(ht.chains, b, i) && ht.chains[b][i] == e
    requires Visited(ht.chains, order, calls, fn, Rest(ht.chains, b, i)) && fn(|calls|)
    modifies ht`chains, ht`nEntries, ht.table, Elems(ht.chains)`next
    ensures ht.Valid() && Elems(ht.chains) <= old(Elems(ht.chains)) && |ht.chains| == old(|ht.chains|)
    ensures IsLink(ht.chains, p, b, i) && Visited(ht.chains, order, calls + [e], fn, Rest(ht.chains, b, i))
  {
    RestNext(ht.chains, b, i);
    VisitRemoving(ht.chains, order, calls, fn, b, i);
    FlatUnlinked(ht.chains, b, i);
    UnlinkedElems(ht.chains, b, i);
    TakeOut(ht, p, b, i, e);
  }

  /** FOREACH_FN's inner loop, over one bucket. */
  method ForeachBucket<K(==, !new)>(ht: Table<K>, b: nat, fn: nat -> bool, calls0: seq<Elem<K>>,
      ghost order: seq<Elem<K>>)
    returns (calls: seq<Elem<K>>)
    requires ht.Valid() && ht.table != null && b < |ht.chains|
    requires Visited(ht.chains, order, calls0, fn, Rest(ht.chains, b, 0))
    modifies ht`chains, ht`nEntries, ht.table, Elems(ht.chains)`next
    ensures ht.Valid() && Elems(ht.chains) <= old(Elems(ht.chains)) && |ht.chains| == old(|ht.chains|)
    ensures Visited(ht.chains, order, calls, fn, Flat(ht.chains[b + 1..]))
  {
    calls := calls0;
    var p := AtBucket(b);
    ghost var i := 0;
    while Load(ht.table, p) != null
      invariant ht.Valid() && Elems(ht.chains) <= old(Elems(ht.chains)) && |ht.chains| == old(|ht.chains|)
      invariant IsLink(ht.chains, p, b, i) && Visited(ht.chains, order, calls, fn, Rest(ht.chains, b, i))
      decreases |order| - |calls|
    {
      LoadIs(ht.table, ht.chains, p, b, i);
      p, i, calls := ForeachCall(ht, p, b, i, fn, calls, order);
    }
    LoadIs(ht.table, ht.chains, p, b, i);
    RestAtEnd(ht.chains, b);
  }

  /** Calls `fn` once for each element, in order, and removes exactly those for which it answers true. */
  method ForeachFn<K(==, !new)>(ht: Table<K>, fn: nat -> bool) returns (calls: seq<Elem<K>>)
    requires ht.Valid()
    modifies ht`chains, ht`nEntries, ht.table, Elems(ht.chains)`next
    ensures ht.Valid() && calls == Flat(old(ht.chains)) && Flat(ht.chains) == Kept(calls, fn)
  {
    calls := [];
    if ht.table == null { return; }
    ghost var order := Flat(ht.chains);
    assert ht.chains[0..] == ht.chains;
    for b := 0 to ht.tableLength
      invariant ht.Valid() && Elems(ht.chains) <= old(Elems(ht.chains)) && |ht.chains| == old(|ht.chains|)
      invariant Visited(ht.chains, order, calls, fn, Flat(ht.chains[b..]))
    {
      FlatFrom(ht.chains, b);
      calls := ForeachBucket(ht, b, fn, calls, order);
    }
  }
}
