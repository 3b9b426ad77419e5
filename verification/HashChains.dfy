/**
  The chains of a chaining hash table, as the sequences of elements that the link fields spell out.
*/
module HashChains {

  /** An element of the table: the user's key, and the two fields the table adds to it. */
  class Elem<K> {
    const key: K
    var next: Elem?<K>
    var hash: nat

    constructor (key: K)
      ensures this.key == key && next == null && hash == 0
    {
      this.key := key;
      next := null;
      hash := 0;
    }
  }

  type Chains<K(!new)> = seq<seq<Elem<K>>>

  ghost predicate At<K(!new)>(cs: Chains<K>, b: int, i: int) {
    0 <= b < |cs| && 0 <= i < |cs[b]|
  }

  ghost function Elems<K(!new)>(cs: Chains<K>): set<Elem<K>> {
    set b, i | 0 <= b < |cs| && 0 <= i < |cs[b]| :: cs[b][i]
  }

  /** What the link field of the element at (b, i) must hold. */
  ghost function NextAt<K(!new)>(cs: Chains<K>, b: nat, i: nat): Elem?<K>
    requires b < |cs|
  {
    if i < |cs[b]| then cs[b][i] else null
  }

  /** No key occurs twice; in particular no element does. */
  ghost predicate KeysDistinct<K(!new)>(cs: Chains<K>) {
    forall b, i, c, j | At(cs, b, i) && At(cs, c, j) && cs[b][i].key == cs[c][j].key :: b == c && i == j
  }

  /** The bucket heads and link fields in memory spell out `cs`. */
  ghost predicate Spells<K(!new)>(t: array<Elem?<K>>, cs: Chains<K>)
    reads t, Elems(cs)`next
  {
    && t.Length == |cs|
    && (forall b | 0 <= b < |cs| :: t[b] == NextAt(cs, b, 0))
    && (forall b, i {:trigger cs[b][i].next} {:trigger At(cs, b, i)} | At(cs, b, i) ::
            cs[b][i] in Elems(cs) && cs[b][i].next == NextAt(cs, b, i + 1))
  }

  /** A pointer to a link: a bucket head, or the link field of an element. */
  datatype Link<K> = AtBucket(b: nat) | AtNext(e: Elem<K>)

  /** The link in front of position (b, i). */
  ghost predicate IsLink<K(!new)>(cs: Chains<K>, p: Link<K>, b: nat, i: nat) {
    && b < |cs| && i <= |cs[b]|
    && p == if i == 0 then AtBucket(b) else AtNext(cs[b][i - 1])
  }

  /** `*p`. */
  function Load<K(!new)>(t: array<Elem?<K>>, p: Link<K>): Elem?<K>
    requires p.AtBucket? ==> p.b < t.Length
    reads t, if p.AtNext? then {p.e} else {}
  {
    match p
    case AtBucket(b) => t[b]
    case AtNext(e) => e.next
  }

  lemma LoadIs<K(!new)>(t: array<Elem?<K>>, cs: Chains<K>, p: Link<K>, b: nat, i: nat)
    requires Spells(t, cs) && IsLink(cs, p, b, i)
    ensures Load(t, p) == NextAt(cs, b, i)
  {
    if i > 0 { assert At(cs, b, i - 1) && cs[b][i - 1].next == NextAt(cs, b, i); }
  }

  ghost function Remove1<T>(s: seq<T>, i: nat): seq<T>
    requires i < |s|
  {
    s[..i] + s[i + 1..]
  }

  /** The chains after unlinking (b, i). */
  ghost function Unlinked<K(!new)>(cs: Chains<K>, b: nat, i: nat): Chains<K>
    requires At(cs, b, i)
  {
    cs[b := Remove1(cs[b], i)]
  }

  ghost function Pushed<K(!new)>(cs: Chains<K>, b: nat, e: Elem<K>): Chains<K>
    requires b < |cs|
  {
    cs[b := [e] + cs[b]]
  }

  lemma UnlinkedElems<K(!new)>(cs: Chains<K>, b: nat, i: nat)
    requires At(cs, b, i) && KeysDistinct(cs)
    ensures KeysDistinct(Unlinked(cs, b, i))
    ensures Elems(Unlinked(cs, b, i)) == Elems(cs) - {cs[b][i]}
  {
    var ds := Unlinked(cs, b, i);
    forall c, j | At(ds, c, j)
      ensures At(cs, c, if c == b && j >= i then j + 1 else j)
              && ds[c][j] == cs[c][if c == b && j >= i then j + 1 else j]
    {
    }
    forall e | e in Elems(cs) && e != cs[b][i]
      ensures e in Elems(ds)
    {
      var c, j :| At(cs, c, j) && cs[c][j] == e;
      var j' := if c == b && j > i then j - 1 else j;
      assert At(ds, c, j') && ds[c][j'] == e;
    }
  }

  lemma PushedElems<K(!new)>(cs: Chains<K>, b: nat, e: Elem<K>)
    requires b < |cs| && KeysDistinct(cs) && forall x <- Elems(cs) :: x.key != e.key
    ensures KeysDistinct(Pushed(cs, b, e))
    ensures Elems(Pushed(cs, b, e)) == Elems(cs) + {e}
  {
    var ds := Pushed(cs, b, e);
    assert At(ds, b, 0) && ds[b][0] == e;
    forall c, j | At(ds, c, j) && !(c == b && j == 0)
      ensures ds[c][j] in Elems(cs) && At(cs, c, if c == b then j - 1 else j)
              && ds[c][j] == cs[c][if c == b then j - 1 else j]
    {
    }
    forall x | x in Elems(cs)
      ensures x in Elems(ds)
    {
      var c, j :| At(cs, c, j) && cs[c][j] == x;
      assert At(ds, c, if c == b then j + 1 else j);
    }
  }

  /** `*p = e->next`, for the link `p` in front of `e`. */
  method Unlink<K(!new)>(t: array<Elem?<K>>, ghost cs: Chains<K>, p: Link<K>, e: Elem<K>, ghost b: nat, ghost i: nat)
    requires Spells(t, cs) && KeysDistinct(cs) && IsLink(cs, p, b, i) && At(cs, b, i) && cs[b][i] == e
    modifies t, Elems(cs)`next
    ensures Spells(t, Unlinked(cs, b, i)) && e.next == old(e.next)
  {
    UnlinkedElems(cs, b, i);
    match p
    case AtBucket(n) => t[n] := e.next;
    case AtNext(prev) => prev.next := e.next;
  }

  /** `e->next = t[b]; t[b] = e`. */
  method Push<K(!new)>(t: array<Elem?<K>>, ghost cs: Chains<K>, b: nat, e: Elem<K>)
    requires b < |cs| && Spells(t, cs) && KeysDistinct(cs) && forall x <- Elems(cs) :: x.key != e.key
    modifies t, e`next
    ensures Spells(t, Pushed(cs, b, e))
  {
    PushedElems(cs, b, e);
    e.next := t[b];
    t[b] := e;
  }

  ghost function Swapped<K(!new)>(cs: Chains<K>, b: nat, i: nat, e: Elem<K>): Chains<K>
    requires At(cs, b, i)
  {
    cs[b := cs[b][i := e]]
  }

  ghost function Appended<K(!new)>(cs: Chains<K>, b: nat, e: Elem<K>): Chains<K>
    requires b < |cs|
  {
    cs[b := cs[b] + [e]]
  }

  lemma SwappedElems<K(!new)>(cs: Chains<K>, b: nat, i: nat, e: Elem<K>)
    requires At(cs, b, i) && KeysDistinct(cs) && e.key == cs[b][i].key
    ensures KeysDistinct(Swapped(cs, b, i, e))
    ensures Elems(Swapped(cs, b, i, e)) == Elems(cs) - {cs[b][i]} + {e}
  {
    var ds := Swapped(cs, b, i, e);
    assert At(ds, b, i) && ds[b][i] == e;
    assert forall c, j | At(ds, c, j) :: At(cs, c, j) && ds[c][j].key == cs[c][j].key;
    forall x | x in Elems(cs) - {cs[b][i]}
      ensures x in Elems(ds)
    {
      var c, j :| At(cs, c, j) && cs[c][j] == x;
      assert At(ds, c, j) && ds[c][j] == x;
    }
    forall c, j | At(ds, c, j) && (c != b || j != i)
      ensures ds[c][j] in Elems(cs) - {cs[b][i]}
    {
      assert At(cs, c, j) && ds[c][j] == cs[c][j];
    }
  }

  lemma AppendedElems<K(!new)>(cs: Chains<K>, b: nat, e: Elem<K>)
    requires b < |cs| && KeysDistinct(cs) && forall x <- Elems(cs) :: x.key != e.key
    ensures KeysDistinct(Appended(cs, b, e))
    ensures Elems(Appended(cs, b, e)) == Elems(cs) + {e}
  {
    var ds, n := Appended(cs, b, e), |cs[b]|;
    assert At(ds, b, n) && ds[b][n] == e;
    forall c, j | At(ds, c, j) && !(c == b && j == n)
      ensures At(cs, c, j) && ds[c][j] == cs[c][j] && ds[c][j] in Elems(cs)
    {
    }
    forall x | x in Elems(cs)
      ensures x in Elems(ds)
    {
      var c, j :| At(cs, c, j) && cs[c][j] == x;
      assert At(ds, c, j) && ds[c][j] == x;
    }
  }

  /** `*p = e; e->next = r->next; r->next = NULL`, for the element `r` behind the link `p`. */
  method Swap<K(!new)>(t: array<Elem?<K>>, ghost cs: Chains<K>, p: Link<K>, r: Elem<K>, e: Elem<K>, ghost b: nat,
      ghost i: nat)
    requires Spells(t, cs) && KeysDistinct(cs) && IsLink(cs, p, b, i) && At(cs, b, i) && cs[b][i] == r
    requires e !in Elems(cs) && e.key == r.key
    modifies t, Elems(cs)`next, e`next
    ensures Spells(t, Swapped(cs, b, i, e)) && r.next == null
  {
    SwappedElems(cs, b, i, e);
    match p {
      case AtBucket(n) => t[n] := e;
      case AtNext(prev) => prev.next := e;
    }
    e.next := r.next;
    r.next := null;
  }

  /** `*p = e`, for the link `p` at the end of a chain. */
  method Append<K(!new)>(t: array<Elem?<K>>, ghost cs: Chains<K>, p: Link<K>, e: Elem<K>, ghost b: nat)
    requires b < |cs| && Spells(t, cs) && KeysDistinct(cs) && IsLink(cs, p, b, |cs[b]|)
    requires e.next == null && forall x <- Elems(cs) :: x.key != e.key
    modifies t, Elems(cs)`next
    ensures Spells(t, Appended(cs, b, e))
  {
    AppendedElems(cs, b, e);
    match p
    case AtBucket(n) => t[n] := e;
    case AtNext(prev) => prev.next := e;
  }
}
