/**
 What the pixmap cache is made of: a doubly linked ring in order of use, whose
 anchor is part of the cache, and hash chains.
 */
module PixmapStore {
  import opened Basics

  // ----- The ring -----

  /** The links of an item; `None` is the anchor. */
  datatype Link = Link(prev: Option<nat>, next: Option<nat>)

  /** The two links of the anchor: to the most and the least recently used item. */
  datatype Anchor = Anchor(first: Option<nat>, last: Option<nat>)

  datatype Ring = Ring(anchor: Anchor, links: map<nat, Link>)

  const EMPTY := Anchor(None, None)

  ghost predicate Distinct(order: seq<nat>) {
    forall i, j :: 0 <= i < j < |order| ==> order[i] != order[j]
  }

  /** Position `i` of the ring, or the anchor past either end. */
  ghost function At(order: seq<nat>, i: int): Option<nat> {
    if 0 <= i < |order| then Some(order[i]) else None
  }

  /** Following the links from the anchor gives the items in the given order, both ways. */
  ghost predicate RingOk(r: Ring, order: seq<nat>) {
    && Distinct(order)
    && r.anchor.first == At(order, 0) && r.anchor.last == At(order, |order| - 1)
    && (forall i :: 0 <= i < |order| ==> NodeOk(r.links, order, i))
  }

  /** The links of the item at position `i` lead to its neighbours. */
  ghost predicate NodeOk(links: map<nat, Link>, order: seq<nat>, i: nat)
    requires i < |order|
  {
    order[i] in links && links[order[i]] == Link(At(order, i - 1), At(order, i + 1))
  }

  /** ring_add: behind the anchor. */
  function RingAdd(r: Ring, x: nat): Ring
    requires r.anchor.first.Some? ==> r.anchor.first.value in r.links
  {
    var f := r.anchor.first;
    var links := r.links[x := Link(None, f)];
    if f.Some? then Ring(Anchor(Some(x), r.anchor.last), links[f.value := r.links[f.value].(prev := Some(x))])
    else Ring(Anchor(Some(x), Some(x)), links)
  }

  /** ring_remove. */
  function RingRemove(r: Ring, x: nat): Ring
    requires x in r.links
    requires r.links[x].prev.Some? ==> r.links[x].prev.value in r.links
    requires r.links[x].next.Some? ==> r.links[x].next.value in r.links
  {
    var p, n := r.links[x].prev, r.links[x].next;
    var links1 := if p.Some? then r.links[p.value := r.links[p.value].(next := n)] else r.links;
    var links2 := if n.Some? then links1[n.value := links1[n.value].(prev := p)] else links1;
    Ring(Anchor(if p.Some? then r.anchor.first else n, if n.Some? then r.anchor.last else p), links2)
  }

  lemma AddedNode(r: Ring, order: seq<nat>, x: nat, i: nat)
    requires RingOk(r, order) && x !in order && i <= |order|
    requires r.anchor.first.Some? ==> r.anchor.first.value in r.links
    ensures NodeOk(RingAdd(r, x).links, [x] + order, i)
  {
    if i > 0 {
      assert NodeOk(r.links, order, i - 1);
    }
    if i == 1 {
      assert order[0] == r.anchor.first.value;
    } else if i > 1 {
      assert order[i - 1] != order[0];
    }
  }

  lemma AddedRing(r: Ring, order: seq<nat>, x: nat)
    requires RingOk(r, order) && x !in order
    ensures r.anchor.first.Some? ==> r.anchor.first.value in r.links
    ensures RingOk(RingAdd(r, x), [x] + order)
  {
    if order != [] {
      assert NodeOk(r.links, order, 0);
    }
    forall i | 0 <= i < |order| + 1
      ensures NodeOk(RingAdd(r, x).links, [x] + order, i)
    {
      AddedNode(r, order, x, i);
    }
  }

  /** Position `k` and its neighbours are in the table of links. */
  lemma Neighbours(r: Ring, order: seq<nat>, k: nat)
    requires RingOk(r, order) && k < |order|
    ensures order[k] in r.links
    ensures r.links[order[k]].prev.Some? ==> r.links[order[k]].prev.value in r.links
    ensures r.links[order[k]].next.Some? ==> r.links[order[k]].next.value in r.links
    ensures r.links[order[k]] == Link(At(order, k - 1), At(order, k + 1))
  {
    assert NodeOk(r.links, order, k);
    if k > 0 {
      assert NodeOk(r.links, order, k - 1);
    }
    if k + 1 < |order| {
      assert NodeOk(r.links, order, k + 1);
    }
  }

  /** The item that was at position `j` has the right links once the one at `k` is gone. */
  lemma RemovedNode(r: Ring, order: seq<nat>, k: nat, j: nat)
    requires RingOk(r, order) && k < |order| && j < |order| && j != k
    requires order[k] in r.links && r.links[order[k]] == Link(At(order, k - 1), At(order, k + 1))
    requires r.links[order[k]].prev.Some? ==> r.links[order[k]].prev.value in r.links
    requires r.links[order[k]].next.Some? ==> r.links[order[k]].next.value in r.links
    ensures NodeOk(RingRemove(r, order[k]).links, RemoveAt(order, k), if j < k then j else j - 1)
  {
    var order', i := RemoveAt(order, k), if j < k then j else j - 1;
    assert NodeOk(r.links, order, j) && order'[i] == order[j];
    if j + 1 == k {
      assert At(order', i + 1) == At(order, k + 1) && At(order', i - 1) == At(order, j - 1);
    } else if j == k + 1 {
      assert At(order', i - 1) == At(order, k - 1) && At(order', i + 1) == At(order, j + 1);
    } else {
      assert At(order', i - 1) == At(order, j - 1) && At(order', i + 1) == At(order, j + 1);
    }
  }

  lemma RemovedRing(r: Ring, order: seq<nat>, k: nat)
    requires RingOk(r, order) && k < |order|
    ensures order[k] in r.links
    ensures r.links[order[k]].prev.Some? ==> r.links[order[k]].prev.value in r.links
    ensures r.links[order[k]].next.Some? ==> r.links[order[k]].next.value in r.links
    ensures RingOk(RingRemove(r, order[k]), RemoveAt(order, k))
  {
    Neighbours(r, order, k);
    forall i | 0 <= i < |order| - 1
      ensures NodeOk(RingRemove(r, order[k]).links, RemoveAt(order, k), i)
    {
      RemovedNode(r, order, k, if i < k then i else i + 1);
    }
  }

  // ----- Hash chains -----

  const HASH_SIZE := 1024

  function Key(id: nat): (k: nat)
    ensures k < HASH_SIZE
  {
    id % HASH_SIZE
  }

  /** The chains hold exactly the given ids, each in the chain of its key. */
  ghost predicate ChainsOk(table: seq<seq<nat>>, order: seq<nat>) {
    && |table| == HASH_SIZE
    && (forall b :: 0 <= b < HASH_SIZE ==> Distinct(table[b]))
    && (forall id :: id in order ==> id in table[Key(id)])
    && (forall b, id :: 0 <= b < HASH_SIZE && id in table[b] ==> id in order && Key(id) == b)
  }

  lemma RemoveAtHas(s: seq<nat>, k: nat, x: nat)
    requires k < |s| && Distinct(s)
    ensures x in RemoveAt(s, k) <==> x in s && x != s[k]
  {
    if x in s && x != s[k] {
      var i :| 0 <= i < |s| && s[i] == x;
      assert i < k ==> RemoveAt(s, k)[i] == x;
      assert i > k ==> RemoveAt(s, k)[i - 1] == x;
    }
  }

  /** Moving an item to the front changes no chain. */
  lemma ChainsMoved(table: seq<seq<nat>>, order: seq<nat>, k: nat)
    requires ChainsOk(table, order) && Distinct(order) && k < |order|
    ensures ChainsOk(table, [order[k]] + RemoveAt(order, k))
  {
    forall x
      ensures x in [order[k]] + RemoveAt(order, k) <==> x in order
    {
      RemoveAtHas(order, k, x);
    }
  }

  lemma ChainsRemoved(table: seq<seq<nat>>, order: seq<nat>, k: nat, c: nat)
    requires ChainsOk(table, order) && Distinct(order) && k < |order|
    requires c < |table[Key(order[k])]| && table[Key(order[k])][c] == order[k]
    ensures var b := Key(order[k]); ChainsOk(table[b := RemoveAt(table[b], c)], RemoveAt(order, k))
  {
    var b := Key(order[k]);
    forall x
      ensures x in RemoveAt(order, k) <==> x in order && x != order[k]
      ensures x in RemoveAt(table[b], c) <==> x in table[b] && x != order[k]
    {
      RemoveAtHas(order, k, x);
      RemoveAtHas(table[b], c, x);
    }
  }

  lemma ChainsAdded(table: seq<seq<nat>>, order: seq<nat>, id: nat)
    requires ChainsOk(table, order) && id !in order
    ensures ChainsOk(table[Key(id) := [id] + table[Key(id)]], [id] + order)
  {
  }

  /** A walk along a chain. */
  method FindInChain(chain: seq<nat>, id: nat) returns (c: nat)
    ensures c <= |chain| && (c < |chain| <==> id in chain) && (c < |chain| ==> chain[c] == id)
  {
    c := 0;
    while c < |chain| && chain[c] != id
      invariant c <= |chain| && id !in chain[..c]
    {
      c := c + 1;
    }
  }

  // ----- Sizes -----

  function Total(sizes: map<nat, nat>, order: seq<nat>): nat {
    if order == [] then 0 else (if order[0] in sizes then sizes[order[0]] else 0) + Total(sizes, order[1..])
  }

  lemma {:induction false} TotalAppend(sizes: map<nat, nat>, a: seq<nat>, b: seq<nat>)
    ensures Total(sizes, a + b) == Total(sizes, a) + Total(sizes, b)
  {
    if a == [] {
      assert a + b == b;
    } else {
      assert (a + b)[1..] == a[1..] + b;
      TotalAppend(sizes, a[1..], b);
    }
  }

  lemma TotalRemoved(sizes: map<nat, nat>, order: seq<nat>, k: nat)
    requires k < |order| && order[k] in sizes
    ensures Total(sizes, RemoveAt(order, k)) + sizes[order[k]] == Total(sizes, order)
  {
    assert order == order[..k] + ([order[k]] + order[k + 1..]);
    TotalAppend(sizes, order[..k], order[k + 1..]);
    TotalAppend(sizes, order[..k], [order[k]] + order[k + 1..]);
    assert ([order[k]] + order[k + 1..])[1..] == order[k + 1..];
  }

  lemma {:induction false} TotalSame(sizes: map<nat, nat>, sizes': map<nat, nat>, order: seq<nat>)
    requires forall id :: id in order ==> id in sizes && id in sizes' && sizes'[id] == sizes[id]
    ensures Total(sizes', order) == Total(sizes, order)
  {
    if order != [] {
      TotalSame(sizes, sizes', order[1..]);
    }
  }
}
