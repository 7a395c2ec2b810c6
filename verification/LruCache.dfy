/**
 The cache template of cache-item.tmpl.cpp: a hash table with chains beside a ring
 in order of use, and a budget. Removing an item leaves an invalidation message.
 */
module LruCache {
  import opened Basics

  datatype Item = Item(id: nat, size: nat)

  /** CACHE_HASH_SIZE; the key of an id is its low bits. */
  const HASH_SIZE := 256

  function Key(id: nat): (k: nat)
    ensures k < HASH_SIZE
  {
    id % HASH_SIZE
  }

  ghost predicate Has(items: seq<Item>, id: nat) {
    exists i :: 0 <= i < |items| && items[i].id == id
  }

  function Total(items: seq<Item>): nat {
    if items == [] then 0 else items[0].size + Total(items[1..])
  }

  ghost predicate Unique(items: seq<Item>) {
    forall i, j :: 0 <= i < j < |items| ==> items[i].id != items[j].id
  }

  function IndexOf(items: seq<Item>, id: nat): (k: nat)
    ensures k <= |items| && (k < |items| ==> items[k].id == id)
    ensures forall i :: 0 <= i < k ==> items[i].id != id
  {
    if items == [] || items[0].id == id then 0 else 1 + IndexOf(items[1..], id)
  }

  lemma {:induction false} TotalAppend(a: seq<Item>, b: seq<Item>)
    ensures Total(a + b) == Total(a) + Total(b)
  {
    if a == [] {
      assert a + b == b;
    } else {
      assert (a + b)[1..] == a[1..] + b;
      TotalAppend(a[1..], b);
    }
  }

  lemma TotalFront(x: Item, items: seq<Item>)
    ensures Total([x] + items) == x.size + Total(items)
  {
    assert ([x] + items)[1..] == items;
  }

  lemma TotalRemoveAt(items: seq<Item>, k: nat)
    requires k < |items|
    ensures Total(RemoveAt(items, k)) + items[k].size == Total(items)
  {
    var a, x, b := items[..k], items[k], items[k + 1..];
    TotalAppend(a, b);
    TotalAppend(a, [x] + b);
    TotalFront(x, b);
    assert items == a + ([x] + b);
  }

  lemma RemoveAtHas(items: seq<Item>, k: nat, x: Item)
    requires k < |items| && Unique(items)
    ensures x in RemoveAt(items, k) <==> x in items && x.id != items[k].id
  {
    if x in items && x.id != items[k].id {
      var i :| 0 <= i < |items| && items[i] == x;
      assert i < k ==> RemoveAt(items, k)[i] == x;
      assert i > k ==> RemoveAt(items, k)[i - 1] == x;
    }
  }

  // ----- Chains -----

  /** The chains and the ring hold the same items, each in the chain of its key. */
  ghost predicate SameItems(table: seq<seq<Item>>, lru: seq<Item>) {
    && |table| == HASH_SIZE
    && (forall b :: 0 <= b < HASH_SIZE ==> Unique(table[b]))
    && (forall x :: x in lru ==> x in table[Key(x.id)])
    && (forall b, x :: 0 <= b < HASH_SIZE && x in table[b] ==> x in lru && Key(x.id) == b)
  }

  ghost predicate Consistent(table: seq<seq<Item>>, lru: seq<Item>) {
    SameItems(table, lru) && Unique(lru)
  }

  lemma MovedToFront(table: seq<seq<Item>>, lru: seq<Item>, k: nat)
    requires Consistent(table, lru) && k < |lru|
    ensures Consistent(table, [lru[k]] + RemoveAt(lru, k))
  {
    var r := [lru[k]] + RemoveAt(lru, k);
    forall x
      ensures x in r <==> x in lru
    {
      RemoveAtHas(lru, k, x);
      if x in lru && x.id == lru[k].id {
        assert x == lru[k];
      }
    }
  }

  lemma Removed(table: seq<seq<Item>>, lru: seq<Item>, k: nat, c: nat)
    requires Consistent(table, lru) && k < |lru|
    requires var b := Key(lru[k].id); c < |table[b]| && table[b][c].id == lru[k].id
    ensures var b := Key(lru[k].id); Consistent(table[b := RemoveAt(table[b], c)], RemoveAt(lru, k))
  {
    var b := Key(lru[k].id);
    var table', lru' := table[b := RemoveAt(table[b], c)], RemoveAt(lru, k);
    forall x
      ensures x in lru' <==> x in lru && x.id != lru[k].id
      ensures x in table'[b] <==> x in table[b] && x.id != lru[k].id
    {
      RemoveAtHas(lru, k, x);
      RemoveAtHas(table[b], c, x);
    }
  }

  lemma Inserted(table: seq<seq<Item>>, lru: seq<Item>, x: Item)
    requires Consistent(table, lru) && !Has(lru, x.id)
    ensures Consistent(table[Key(x.id) := [x] + table[Key(x.id)]], [x] + lru)
  {
    var b := Key(x.id);
    forall i | 0 <= i < |table[b]|
      ensures table[b][i].id != x.id
    {
      assert table[b][i] in lru;
    }
  }

  /** The items that stay when the least recently used ones go until the budget is not exceeded. */
  function Fitting(items: seq<Item>, available: int): (r: seq<Item>)
    ensures r <= items
  {
    if available >= 0 || items == [] then items
    else Fitting(items[..|items| - 1], available + items[|items| - 1].size)
  }

  /** The ids of the items that are gone, the least recently used one first. */
  ghost predicate Evicted(before: seq<Item>, kept: seq<Item>, invals: seq<nat>) {
    && kept <= before && |invals| == |before| - |kept|
    && forall i :: 0 <= i < |invals| ==> invals[i] == before[|before| - 1 - i].id
  }

  class Cache {
    var table: seq<seq<Item>>
    var lru: seq<Item>
    var available: int
    /** The size given at the last reset. */
    ghost var capacity: int

    ghost predicate Valid()
      reads this
    {
      Consistent(table, lru) && available + Total(lru) == capacity
    }

    constructor (size: nat)
      ensures Valid() && lru == [] && available == capacity == size
    {
      table := seq(HASH_SIZE, _ => []);
      lru, available, capacity := [], size, size;
    }

    /** Looks along the chain of the id. */
    method Lookup(id: nat) returns (c: nat)
      requires Consistent(table, lru)
      ensures c <= |table[Key(id)]| && (c < |table[Key(id)]| <==> Has(lru, id))
      ensures c < |table[Key(id)]| ==> table[Key(id)][c].id == id && table[Key(id)][c] in lru
    {
      var chain := table[Key(id)];
      c := 0;
      while c < |chain| && chain[c].id != id
        invariant c <= |chain| && forall j :: 0 <= j < c ==> chain[j].id != id
      {
        c := c + 1;
      }
      if c < |chain| {
        assert chain[c] in lru;
      }
      assert forall k :: 0 <= k < |lru| && lru[k].id == id ==> lru[k] in chain;
    }

    /** A hit makes the item the most recently used one. */
    method Find(id: nat) returns (found: bool)
      requires Valid()
      modifies this`lru
      ensures Valid() && found == Has(old(lru), id)
      ensures !found ==> lru == old(lru)
      ensures found ==> var k := IndexOf(old(lru), id);
                        k < |old(lru)| && lru == [old(lru)[k]] + RemoveAt(old(lru), k)
    {
      var c := Lookup(id);
      found := c < |table[Key(id)]|;
      if found {
        var k := IndexOf(lru, id);
        MovedToFront(table, lru, k);
        TotalRemoveAt(lru, k);
        TotalFront(lru[k], RemoveAt(lru, k));
        lru := [lru[k]] + RemoveAt(lru, k);
      }
    }

    /** Removes the least recently used item and says which one the client has to drop. */
    method RemoveTail() returns (inval: nat)
      requires Consistent(table, lru) && lru != []
      modifies this`table, this`lru, this`available
      ensures Consistent(table, lru) && lru == old(lru)[..|old(lru)| - 1] && inval == old(lru)[|old(lru)| - 1].id
      ensures available == old(available) + old(lru)[|old(lru)| - 1].size
      ensures available + Total(lru) == old(available + Total(lru))
    {
      var k := |lru| - 1;
      var x := lru[k];
      var c := Lookup(x.id);
      Removed(table, lru, k, c);
      TotalRemoveAt(lru, k);
      assert RemoveAt(lru, k) == lru[..k];
      table := table[Key(x.id) := RemoveAt(table[Key(x.id)], c)];
      lru := lru[..k];
      available := available + x.size;
      inval := x.id;
    }

    /** Evicts the least recently used items until the budget is not exceeded or the cache is empty. */
    method Evict() returns (invals: seq<nat>)
      requires Consistent(table, lru)
      modifies this`table, this`lru, this`available
      ensures Consistent(table, lru) && lru == Fitting(old(lru), old(available))
      ensures available + Total(lru) == old(available + Total(lru)) && (available >= 0 || lru == [])
      ensures Evicted(old(lru), lru, invals)
    {
      invals := [];
      while available < 0 && lru != []
        invariant Consistent(table, lru) && available + Total(lru) == old(available + Total(lru))
        invariant lru <= old(lru) && Evicted(old(lru), lru, invals)
        invariant Fitting(lru, available) == Fitting(old(lru), old(available))
        decreases |lru|
      {
        var gone := RemoveTail();
        invals := invals + [gone];
      }
    }

    /**
     Adds an item after making room for it. When even an empty cache is too small
     the item is not added, and what was evicted stays evicted.
     */
    method Insert(id: nat, size: nat) returns (added: bool, invals: seq<nat>, ghost kept: seq<Item>)
      requires Valid() && !Has(lru, id)
      modifies this`table, this`lru, this`available
      ensures Valid() && (added <==> size <= capacity)
      ensures kept == Fitting(old(lru), old(available) - size) && Evicted(old(lru), kept, invals)
      ensures added ==> lru == [Item(id, size)] + kept
      ensures !added ==> lru == []
    {
      available := available - size;
      invals := Evict();
      kept := lru;
      if available < 0 {
        available := available + size;
        added := false;
      } else {
        Inserted(table, lru, Item(id, size));
        table := table[Key(id) := [Item(id, size)] + table[Key(id)]];
        TotalFront(Item(id, size), lru);
        lru := [Item(id, size)] + lru;
        added := true;
      }
    }

    method Reset(size: nat)
      modifies this
      ensures Valid() && lru == [] && available == capacity == size
    {
      table := seq(HASH_SIZE, _ => []);
      lru, available, capacity := [], size, size;
    }
  }
}
