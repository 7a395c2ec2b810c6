/**
 The pixmap cache that the display channels of one client share. The cache lock is
 taken for each image and each reset, so any interleaving of the channels is a
 sequence of such steps (`Run`); other channels may come in between the images of one
 message. Messages are sent with full headers: the list of released pixmaps travels
 inside the message whose images pushed them out.
 */
module PixmapCache {
  import opened Basics
  import opened PixmapStore

  const MAX_CACHE_CLIENTS := 4

  /** NewCacheItem, other than its links and serials. */
  datatype Item = Item(size: nat, lossy: bool)

  /** The send state of a display channel: last sent serial, pixmaps to release, and what to wait for. */
  datatype Chan = Chan(last: nat, releases: seq<nat>, freeSync: seq<nat>, generation: nat, pendingSync: bool)

  /** The channel after some items have joined its free list. */
  ghost function Releasing(chan: Chan, ids: seq<nat>, now: Chan): Chan {
    chan.(releases := chan.releases + ids, freeSync := now.freeSync)
  }

  datatype Wait = Wait(chan: nat, serial: nat)

  /** How an image is sent: from the client's cache, replacing what is there, to be cached, or neither. */
  datatype Fill = FromCache | FromCacheLossless | CacheReplace | CacheMe | Plain

  /** What a message carries about the cache. */
  datatype Message = Message(serial: nat, releases: seq<nat>, waits: seq<Wait>)

  /** The message of `chan` with this serial hit or added the item. */
  datatype Use = Use(id: nat, chan: nat, serial: nat)

  function SizesOf(items: map<nat, Item>): map<nat, nat> {
    map id | id in items :: items[id].size
  }

  // ----- Structure -----

  /** The parts of PixmapCache that hold the items. */
  datatype Store = Store(ring: Ring, table: seq<seq<nat>>, items: map<nat, Item>, available: int, size: int,
                         frozen: bool, frozenEnds: Anchor)

  /**
   Chains, ring and items agree, the most recently used item first; a freeze hides
   everything but keeps the links of the ring.
   */
  ghost predicate StoreOk(s: Store, order: seq<nat>) {
    && (forall id :: id in s.items <==> id in order)
    && if s.frozen then
         s.ring.anchor == EMPTY && RingOk(Ring(s.frozenEnds, s.ring.links), order) && ChainsOk(s.table, [])
         && s.available == -1
       else
         RingOk(s.ring, order) && ChainsOk(s.table, order) && s.available + Total(SizesOf(s.items), order) == s.size
  }

  lemma EmptyStore(s: Store)
    requires s.ring.anchor == EMPTY && s.table == seq(HASH_SIZE, _ => []) && s.items == map[]
    requires !s.frozen && s.available == s.size
    ensures StoreOk(s, [])
  {
  }

  /** The budget that is left when only the `n` most recently used items stay. */
  ghost function RoomAt(s: Store, order: seq<nat>, n: nat): int
    requires n <= |order|
  {
    s.size - Total(SizesOf(s.items), order[..n])
  }

  /** Items go from the least recently used one on, as long as there is no room and the message does not use them. */
  ghost predicate MustGo(s: Store, order: seq<nat>, uses: set<Use>, me: nat, serial: nat, size: nat, n: nat) {
    forall k :: n < k <= |order| ==> RoomAt(s, order, k) < size && Use(order[k - 1], me, serial) !in uses
  }

  /** Exactly the `n` most recently used items stay when room for `size` is made. */
  ghost predicate Stay(s: Store, order: seq<nat>, uses: set<Use>, me: nat, serial: nat, size: nat, n: nat) {
    && n <= |order| && MustGo(s, order, uses, me, serial, size, n)
    && (RoomAt(s, order, n) >= size || n == 0 || Use(order[n - 1], me, serial) in uses)
  }

  ghost predicate ItemsFrom(s: Store, s0: Store) {
    && s.size == s0.size && s.frozen == s0.frozen
    && forall id :: id in s.items ==> id in s0.items && s.items[id] == s0.items[id]
  }

  lemma RoomNow(s0: Store, order0: seq<nat>, s: Store, order: seq<nat>)
    requires StoreOk(s, order) && !s.frozen && order <= order0 && ItemsFrom(s, s0)
    ensures s.available == RoomAt(s0, order0, |order|)
  {
    TotalSame(SizesOf(s.items), SizesOf(s0.items), order);
    assert order == order0[..|order|];
  }

  /** The id is in the cache as far as anyone can see. */
  ghost predicate Visible(s: Store, order: seq<nat>, id: nat) {
    !s.frozen && id in order
  }

  // ----- What each step does to the structure -----

  lemma StoreMoved(s: Store, order: seq<nat>, k: nat)
    requires StoreOk(s, order) && !s.frozen && k < |order|
    ensures order[k] in s.ring.links
    ensures s.ring.links[order[k]].prev.Some? ==> s.ring.links[order[k]].prev.value in s.ring.links
    ensures s.ring.links[order[k]].next.Some? ==> s.ring.links[order[k]].next.value in s.ring.links
    ensures var r := RingRemove(s.ring, order[k]);
            && (r.anchor.first.Some? ==> r.anchor.first.value in r.links)
            && StoreOk(s.(ring := RingAdd(r, order[k])), [order[k]] + RemoveAt(order, k))
  {
    RemovedRing(s.ring, order, k);
    RemoveAtHas(order, k, order[k]);
    AddedRing(RingRemove(s.ring, order[k]), RemoveAt(order, k), order[k]);
    ChainsMoved(s.table, order, k);
    TotalRemoved(SizesOf(s.items), order, k);
    assert ([order[k]] + RemoveAt(order, k))[1..] == RemoveAt(order, k);
    forall id
      ensures id in [order[k]] + RemoveAt(order, k) <==> id in order
    {
      RemoveAtHas(order, k, id);
    }
  }

  lemma SizesWithout(items: map<nat, Item>, order: seq<nat>, id: nat)
    requires id !in order && forall x :: x in order ==> x in items
    ensures Total(SizesOf(items - {id}), order) == Total(SizesOf(items), order)
  {
    TotalSame(SizesOf(items), SizesOf(items - {id}), order);
  }

  lemma SizesWith(items: map<nat, Item>, order: seq<nat>, id: nat, item: Item)
    requires id !in order && forall x :: x in order ==> x in items
    ensures Total(SizesOf(items[id := item]), [id] + order) == item.size + Total(SizesOf(items), order)
  {
    assert ([id] + order)[1..] == order;
    TotalSame(SizesOf(items), SizesOf(items[id := item]), order);
  }

  /** The item at position `k` can be unlinked from the ring. */
  ghost predicate Unlinkable(r: Ring, id: nat) {
    && id in r.links
    && (r.links[id].prev.Some? ==> r.links[id].prev.value in r.links)
    && (r.links[id].next.Some? ==> r.links[id].next.value in r.links)
  }

  /** The store without the item that is `c`-th in its chain. */
  function TakenOut(s: Store, id: nat, c: nat): Store
    requires Unlinkable(s.ring, id) && id in s.items && |s.table| == HASH_SIZE && c < |s.table[Key(id)]|
  {
    s.(ring := RingRemove(s.ring, id), items := s.items - {id}, available := s.available + s.items[id].size,
    table := s.table[Key(id) := RemoveAt(s.table[Key(id)], c)])
  }

  lemma StoreRemoved(s: Store, order: seq<nat>, k: nat, c: nat)
    requires StoreOk(s, order) && !s.frozen && k < |order| && Unlinkable(s.ring, order[k]) && order[k] in s.items
    requires |s.table| == HASH_SIZE && c < |s.table[Key(order[k])]| && s.table[Key(order[k])][c] == order[k]
    ensures StoreOk(TakenOut(s, order[k], c), RemoveAt(order, k))
  {
    RemovedRing(s.ring, order, k);
    ChainsRemoved(s.table, order, k, c);
    TotalRemoved(SizesOf(s.items), order, k);
    forall id
      ensures id in RemoveAt(order, k) <==> id in order && id != order[k]
    {
      RemoveAtHas(order, k, id);
    }
    SizesWithout(s.items, RemoveAt(order, k), order[k]);
  }

  lemma CanUnlink(s: Store, order: seq<nat>, k: nat)
    requires StoreOk(s, order) && !s.frozen && k < |order|
    ensures Unlinkable(s.ring, order[k]) && order[k] in s.items
  {
    Neighbours(s.ring, order, k);
  }

  lemma StoreAdded(s: Store, order: seq<nat>, id: nat, item: Item, s': Store)
    requires StoreOk(s, order) && !s.frozen && id !in order
    requires (s.ring.anchor.first.Some? ==> s.ring.anchor.first.value in s.ring.links)
    requires s' == s.(ring := RingAdd(s.ring, id), table := s.table[Key(id) := [id] + s.table[Key(id)]],
                   items := s.items[id := item], available := s.available - item.size)
    ensures StoreOk(s', [id] + order)
  {
    AddedRing(s.ring, order, id);
    ChainsAdded(s.table, order, id);
    SizesWith(s.items, order, id, item);
  }

  lemma StoreUpdated(s: Store, order: seq<nat>, id: nat, item: Item)
    requires StoreOk(s, order) && id in s.items && item.size == s.items[id].size
    ensures StoreOk(s.(items := s.items[id := item]), order)
  {
    TotalSame(SizesOf(s.items), SizesOf(s.items[id := item]), order);
  }

  lemma TailUnlinks(s: Store, order: seq<nat>)
    requires StoreOk(s, order) && !s.frozen && order != []
    ensures |s.table| == HASH_SIZE && s.ring.anchor.last == Some(order[|order| - 1])
    ensures Unlinkable(s.ring, order[|order| - 1]) && order[|order| - 1] in s.items
  {
    CanUnlink(s, order, |order| - 1);
  }

  lemma StoreFrozen(s: Store, order: seq<nat>, s': Store)
    requires StoreOk(s, order) && !s.frozen
    requires s' == s.(frozenEnds := s.ring.anchor, ring := s.ring.(anchor := EMPTY),
                   table := seq(HASH_SIZE, _ => []), available := -1, frozen := true)
    ensures StoreOk(s', order)
  {
    assert Ring(s'.frozenEnds, s'.ring.links) == s.ring;
  }

  /** The ring of all items, those that a freeze hides included. */
  function WholeRing(s: Store): Ring {
    if s.frozen then Ring(s.frozenEnds, s.ring.links) else s.ring
  }

  lemma WholeRingOk(s: Store, order: seq<nat>)
    requires StoreOk(s, order)
    ensures RingOk(WholeRing(s), order)
  {
  }

  // ----- Serials -----

  /**
   Every use since its insertion is covered by the item's serials, and those by the
   cache's; each serial of an item is that of its last use by the channel.
   */
  ghost predicate SyncOk(itemSync: map<nat, seq<nat>>, sync: seq<nat>, chans: seq<Chan>, uses: set<Use>) {
    && |sync| == MAX_CACHE_CLIENTS && |chans| == MAX_CACHE_CLIENTS
    && (forall c :: 0 <= c < MAX_CACHE_CLIENTS ==> sync[c] <= chans[c].last + 1)
    && (forall id :: id in itemSync ==> WithinSync(itemSync[id], sync) && LastUses(id, itemSync[id], uses))
    && (forall u :: u in uses ==> u.id in itemSync && Covers(itemSync[u.id], u))
  }

  ghost predicate LastUses(id: nat, a: seq<nat>, uses: set<Use>) {
    forall c :: 0 <= c < |a| && a[c] > 0 ==> Use(id, c, a[c]) in uses
  }

  /** The message that a channel is about to send uses the item, exactly if its serial says so. */
  lemma UsedNow(itemSync: map<nat, seq<nat>>, sync: seq<nat>, chans: seq<Chan>, uses: set<Use>, id: nat, c: nat)
    requires SyncOk(itemSync, sync, chans, uses) && id in itemSync && c < MAX_CACHE_CLIENTS
    ensures |itemSync[id]| == MAX_CACHE_CLIENTS
    ensures itemSync[id][c] == chans[c].last + 1 <==> Use(id, c, chans[c].last + 1) in uses
  {
    assert WithinSync(itemSync[id], sync) && LastUses(id, itemSync[id], uses);
    if Use(id, c, chans[c].last + 1) in uses {
      assert Covers(itemSync[id], Use(id, c, chans[c].last + 1));
    }
  }

  ghost predicate WithinSync(a: seq<nat>, sync: seq<nat>) {
    |a| == |sync| && forall c :: 0 <= c < |a| ==> a[c] <= sync[c]
  }

  ghost predicate Covers(sync: seq<nat>, u: Use) {
    u.chan < |sync| && 0 < u.serial <= sync[u.chan]
  }

  /**
   `due[i]` are the uses of the item that is `i`-th on the free list. The list waits
   for all of them and for nothing else; the channel's own ones are in earlier
   messages.
   */
  ghost predicate DueOk(c: nat, chan: Chan, due: seq<set<Use>>) {
    && |chan.freeSync| == MAX_CACHE_CLIENTS && |due| == |chan.releases|
    && (forall i, u :: 0 <= i < |due| && u in due[i] ==>
                         && u.id == chan.releases[i] && Covers(chan.freeSync, u)
                         && (u.chan == c ==> u.serial <= chan.last))
    && (forall k :: 0 <= k < |chan.freeSync| && chan.freeSync[k] > 0 ==> DueAt(due, k, chan.freeSync[k]))
  }

  /** The message of a channel uses one of the items on the free list. */
  ghost predicate DueAt(due: seq<set<Use>>, c: nat, serial: nat) {
    exists i :: 0 <= i < |due| && UsedBy(due[i], c, serial)
  }

  ghost predicate UsedBy(uses: set<Use>, c: nat, serial: nat) {
    exists u :: u in uses && u.chan == c && u.serial == serial
  }

  /** The message has not been sent yet. */
  ghost predicate Ahead(chans: seq<Chan>, c: nat, serial: nat) {
    c < |chans| && serial > chans[c].last
  }

  /** All messages that are waited for have been sent. */
  ghost predicate WaitsForSent(chans: seq<Chan>, waits: seq<Wait>) {
    forall k :: 0 <= k < |waits| ==> !Ahead(chans, waits[k].chan, waits[k].serial)
  }

  /** No message of another channel that is still being put together uses an item on the free list. */
  ghost predicate DueSent(chans: seq<Chan>, due: seq<set<Use>>, me: nat) {
    forall i, u :: 0 <= i < |due| && u in due[i] && u.chan != me ==> !Ahead(chans, u.chan, u.serial)
  }

  /** The wait list makes the client wait for the message of the use. */
  ghost predicate WaitsFor(waits: seq<Wait>, u: Use) {
    exists i :: 0 <= i < |waits| && waits[i].chan == u.chan && waits[i].serial >= u.serial
  }


  function Max(a: nat, b: nat): nat {
    if a < b then b else a
  }

  function MaxSync(a: seq<nat>, b: seq<nat>): (r: seq<nat>)
    requires |a| == |b|
    ensures |r| == |a| && forall i :: 0 <= i < |a| ==> r[i] == Max(a[i], b[i])
  {
    seq(|a|, i requires 0 <= i < |a| => Max(a[i], b[i]))
  }

  /** The list waits for messages that were sent, exactly if no other message uses what is released. */
  lemma WaitsForSentIff(chans: seq<Chan>, me: nat, chan: Chan, due: seq<set<Use>>, waits: seq<Wait>)
    requires DueOk(me, chan, due) && ListOf(chan.freeSync, me, waits)
    ensures WaitsForSent(chans, waits) <==> DueSent(chans, due, me)
  {
    if WaitsForSent(chans, waits) {
      forall i, u | 0 <= i < |due| && u in due[i] && u.chan != me
        ensures !Ahead(chans, u.chan, u.serial)
      {
        assert WaitsFor(waits, u);
      }
    } else {
      var k :| 0 <= k < |waits| && Ahead(chans, waits[k].chan, waits[k].serial);
      assert DueAt(due, waits[k].chan, waits[k].serial);
    }
  }

  /** The wait list has an entry for each other channel with a serial, and no other. */
  ghost predicate ListOf(sync: seq<nat>, me: nat, waits: seq<Wait>) {
    && (forall u: Use :: u.chan != me && Covers(sync, u) ==> WaitsFor(waits, u))
    && forall i :: 0 <= i < |waits| ==> && waits[i].chan < |sync| && waits[i].chan != me
                                        && waits[i].serial == sync[waits[i].chan] > 0
  }

  /** For each use of each released item the message waits, or the use is in an earlier one of the channel. */
  ghost predicate Safely(due: seq<set<Use>>, m: Message, me: nat) {
    && |due| == |m.releases|
    && forall i, u :: 0 <= i < |due| && u in due[i] ==>
                        u.id == m.releases[i] && if u.chan == me then u.serial < m.serial else WaitsFor(m.waits, u)
  }

  lemma SentSafely(chans: seq<Chan>, me: nat, chan: Chan, due: seq<set<Use>>, m: Message)
    requires DueOk(me, chan, due) && m.serial == chan.last + 1 && m.releases == chan.releases
    requires if m.releases == [] then m.waits == [] else ListOf(chan.freeSync, me, m.waits)
    ensures Safely(due, m, me) && (WaitsForSent(chans, m.waits) <==> DueSent(chans, due, me))
  {
    if m.releases != [] {
      WaitsForSentIff(chans, me, chan, due, m.waits);
    }
  }

  lemma NoneDue(me: nat, chan: Chan)
    requires chan.releases == [] && chan.freeSync == [0, 0, 0, 0]
    ensures DueOk(me, chan, [])
  {
  }

  /** One entry for every other channel that has used the cache. */
  method WaitList(sync: seq<nat>, me: nat) returns (waits: seq<Wait>)
    ensures ListOf(sync, me, waits)
  {
    waits := [];
    var i := 0;
    while i < |sync|
      invariant i <= |sync|
      invariant forall u: Use :: u.chan != me && u.chan < i && Covers(sync, u) ==> WaitsFor(waits, u)
      invariant forall k :: 0 <= k < |waits| ==>
                              && waits[k].chan < |sync| && waits[k].chan != me
                              && waits[k].serial == sync[waits[k].chan] > 0
    {
      if sync[i] != 0 && i != me {
        ghost var before := waits;
        waits := waits + [Wait(i, sync[i])];
        forall u: Use | u.chan != me && u.chan < i + 1 && Covers(sync, u)
          ensures WaitsFor(waits, u)
        {
          if u.chan < i {
            var k :| 0 <= k < |before| && before[k].chan == u.chan && before[k].serial >= u.serial;
            assert waits[k] == before[k];
          } else {
            assert waits[|before|] == Wait(u.chan, sync[i]);
          }
        }
      }
      i := i + 1;
    }
  }

  // ----- What each step does to the serials -----

  lemma SerialRaised(id: nat, a: seq<nat>, sync: seq<nat>, uses: set<Use>, c: nat, serial: nat)
    requires WithinSync(a, sync) && LastUses(id, a, uses) && c < |a| && sync[c] <= serial
    ensures WithinSync(a, sync[c := serial])
    ensures WithinSync(a[c := serial], sync[c := serial])
    ensures LastUses(id, a[c := serial], uses + {Use(id, c, serial)})
  {
  }

  /** A message of channel `c` uses an item, or adds it: its serial is recorded for the item and for the cache. */
  lemma SyncUsed(itemSync: map<nat, seq<nat>>, sync: seq<nat>, chans: seq<Chan>, uses: set<Use>, c: nat, id: nat,
                 before: seq<nat>)
    requires SyncOk(itemSync, sync, chans, uses) && c < MAX_CACHE_CLIENTS
    requires before == if id in itemSync then itemSync[id] else [0, 0, 0, 0]
    ensures |before| == MAX_CACHE_CLIENTS
    ensures var serial := chans[c].last + 1;
            SyncOk(itemSync[id := before[c := serial]], sync[c := serial], chans, Used(uses, id, c, serial, true))
  {
    var serial := chans[c].last + 1;
    var itemSync', uses' := itemSync[id := before[c := serial]], Used(uses, id, c, serial, true);
    assert WithinSync(before, sync) && LastUses(id, before, uses);
    SerialRaised(id, before, sync, uses, c, serial);
    forall x | x in itemSync'
      ensures WithinSync(itemSync'[x], sync[c := serial]) && LastUses(x, itemSync'[x], uses')
    {
      if x != id {
        SerialRaised(x, itemSync[x], sync, uses, c, serial);
      }
    }
    forall u | u in uses'
      ensures u.id in itemSync' && Covers(itemSync'[u.id], u)
    {
      if u in uses {
        assert Covers(itemSync[u.id], u) && WithinSync(itemSync[u.id], sync);
      }
    }
  }

  lemma SyncLater(itemSync: map<nat, seq<nat>>, sync: seq<nat>, chans: seq<Chan>, uses: set<Use>, c: nat, chan: Chan)
    requires SyncOk(itemSync, sync, chans, uses) && c < MAX_CACHE_CLIENTS && chans[c].last <= chan.last
    ensures SyncOk(itemSync, sync, chans[c := chan], uses)
  {
  }

  /** The uses of one item. */
  ghost function UsesOf(uses: set<Use>, id: nat): set<Use> {
    set u | u in uses && u.id == id
  }

  /** The uses that remain when some items are gone. */
  ghost function Without(uses: set<Use>, ids: seq<nat>): set<Use> {
    set u | u in uses && u.id !in ids
  }

  /** One more use, or none. */
  ghost function Used(uses: set<Use>, id: nat, me: nat, serial: nat, used: bool): set<Use> {
    if used then uses + {Use(id, me, serial)} else uses
  }

  /** The uses of each of some items. */
  ghost function UsesOfEach(uses: set<Use>, ids: seq<nat>): (r: seq<set<Use>>)
    ensures |r| == |ids| && forall i :: 0 <= i < |ids| ==> r[i] == UsesOf(uses, ids[i])
  {
    seq(|ids|, i requires 0 <= i < |ids| => UsesOf(uses, ids[i]))
  }

  lemma OneMoreGone(uses: set<Use>, ids: seq<nat>, id: nat)
    requires id !in ids
    ensures Without(uses, ids + [id]) == Without(uses, ids) - UsesOf(Without(uses, ids), id)
    ensures UsesOfEach(uses, ids + [id]) == UsesOfEach(uses, ids) + [UsesOf(Without(uses, ids), id)]
  {
    assert UsesOf(Without(uses, ids), id) == UsesOf(uses, id);
    forall i | 0 <= i < |ids| + 1
      ensures UsesOfEach(uses, ids + [id])[i] == (UsesOfEach(uses, ids) + [UsesOf(Without(uses, ids), id)])[i]
    {
      if i < |ids| {
        assert (ids + [id])[i] == ids[i];
      }
    }
  }

  /** An evicted item's uses are covered by the free list that it goes to. */
  lemma SyncEvicted(itemSync: map<nat, seq<nat>>, sync: seq<nat>, chans: seq<Chan>, uses: set<Use>, due: seq<set<Use>>,
                    c: nat, id: nat)
    requires SyncOk(itemSync, sync, chans, uses) && c < MAX_CACHE_CLIENTS && id in itemSync && DueOk(c, chans[c], due)
    requires |itemSync[id]| == MAX_CACHE_CLIENTS && itemSync[id][c] != chans[c].last + 1
    ensures var chan := chans[c].(releases := chans[c].releases
                        + [id], freeSync := MaxSync(chans[c].freeSync, itemSync[id]));
            && SyncOk(itemSync - {id}, sync[c := chans[c].last + 1], chans[c := chan], uses - UsesOf(uses, id))
            && DueOk(c, chan, due + [UsesOf(uses, id)])
  {
    hide DueOk;
    assert WithinSync(itemSync[id], sync) && LastUses(id, itemSync[id], uses);
    forall u | u in UsesOf(uses, id)
      ensures Covers(itemSync[id], u)
    {
      assert u in uses;
    }
    DueEvicted(c, chans[c], due, itemSync[id], uses, id);
  }

  lemma DueEvicted(c: nat, chan: Chan, due: seq<set<Use>>, a: seq<nat>, uses: set<Use>, id: nat)
    requires DueOk(c, chan, due) && |a| == MAX_CACHE_CLIENTS && LastUses(id, a, uses) && c < |a|
    requires (forall u :: u in UsesOf(uses, id) ==> Covers(a, u)) && a[c] <= chan.last
    ensures DueOk(c, chan.(releases := chan.releases + [id], freeSync := MaxSync(chan.freeSync, a)),
                  due + [UsesOf(uses, id)])
  {
    var chan' := chan.(releases := chan.releases + [id], freeSync := MaxSync(chan.freeSync, a));
    var all := due + [UsesOf(uses, id)];
    forall i, u: Use | 0 <= i < |all| && u in all[i]
      ensures u.id == chan'.releases[i] && Covers(chan'.freeSync, u) && (u.chan == c ==> u.serial <= chan'.last)
    {
      if i < |due| {
        assert u in due[i];
      } else {
        assert u in UsesOf(uses, id);
      }
    }
    forall k | 0 <= k < |chan'.freeSync| && chan'.freeSync[k] > 0
      ensures DueAt(all, k, chan'.freeSync[k])
    {
      EvictedAt(a, uses, chan.freeSync, due, id, k);
    }
  }

  /** The merged serial of a channel is that of a use. */
  lemma EvictedAt(a: seq<nat>, uses: set<Use>, free: seq<nat>, due: seq<set<Use>>, id: nat, k: nat)
    requires |a| == |free| && k < |a| && LastUses(id, a, uses) && (free[k] > 0 ==> DueAt(due, k, free[k]))
    ensures Max(free[k], a[k]) > 0 ==> DueAt(due + [UsesOf(uses, id)], k, Max(free[k], a[k]))
  {
    var all := due + [UsesOf(uses, id)];
    if free[k] < a[k] {
      assert Use(id, k, a[k]) in all[|due|];
      assert UsedBy(all[|due|], k, a[k]);
    } else if free[k] > 0 {
      var i :| 0 <= i < |due| && UsedBy(due[i], k, free[k]);
      assert all[i] == due[i];
    }
  }

  // ----- Making room -----

  /** The cache as one channel sees it, with the channel's free list. */
  datatype Snap = Snap(store: Store, order: seq<nat>, uses: set<Use>, chan: Chan, due: seq<set<Use>>)

  /** The least recently used item has gone to the free list. */
  ghost predicate OneGone(a: Snap, b: Snap, tail: nat) {
    && ItemsFrom(b.store, a.store) && a.order != [] && tail == a.order[|a.order| - 1]
    && b.order == RemoveAt(a.order, |a.order| - 1)
    && b.chan == Releasing(a.chan, [tail], b.chan)
    && b.due == a.due + [UsesOf(a.uses, tail)] && b.uses == a.uses - UsesOf(a.uses, tail)
  }

  /** The evicted items have gone to the free list, and had to. */
  ghost predicate Evicting(a: Snap, b: Snap, me: nat, size: nat, evicted: seq<nat>) {
    && ItemsFrom(b.store, a.store) && Dropped(a.order, b.order, evicted)
    && (a.store.frozen ==> b.order == a.order)
    && (!a.store.frozen ==> MustGo(a.store, a.order, a.uses, me, a.chan.last + 1, size, |b.order|))
    && b.chan == Releasing(a.chan, evicted, b.chan)
    && b.due == a.due + UsesOfEach(a.uses, evicted) && b.uses == Without(a.uses, evicted)
  }

  lemma EvictingStart(a: Snap, me: nat, size: nat)
    ensures Evicting(a, a, me, size, [])
  {
    assert a.chan.releases + [] == a.chan.releases && a.due + UsesOfEach(a.uses, []) == a.due;
    assert Without(a.uses, []) == a.uses;
  }

  lemma EvictingStep(a: Snap, b: Snap, c: Snap, me: nat, size: nat, evicted: seq<nat>, tail: nat)
    requires StoreOk(a.store, a.order) && StoreOk(b.store, b.order) && Evicting(a, b, me, size, evicted)
    requires !b.store.frozen && b.store.available < size && OneGone(b, c, tail)
    requires Use(tail, me, a.chan.last + 1) !in b.uses
    ensures Evicting(a, c, me, size, evicted + [tail])
  {
    hide StoreOk;
    DropOne(a.order, b.order, evicted);
    StaysOut(a.store, a.order, b.order, evicted);
    OneMoreGone(a.uses, evicted, tail);
    RoomNow(a.store, a.order, b.store, b.order);
    AppendAssociates(a.chan.releases, evicted, [tail]);
    AppendAssociates(a.due, UsesOfEach(a.uses, evicted), [UsesOf(Without(a.uses, evicted), tail)]);
    MustGoMore(a, b.order, me, size, tail);
  }

  lemma MustGoMore(a: Snap, kept: seq<nat>, me: nat, size: nat, tail: nat)
    requires kept <= a.order && kept != [] && tail == kept[|kept| - 1]
    requires MustGo(a.store, a.order, a.uses, me, a.chan.last + 1, size, |kept|)
    requires RoomAt(a.store, a.order, |kept|) < size && Use(tail, me, a.chan.last + 1) !in a.uses
    ensures MustGo(a.store, a.order, a.uses, me, a.chan.last + 1, size, |kept| - 1)
  {
    assert a.order[|kept| - 1] == tail;
  }

  /** When it ends, what stays is determined, and so is whether there is room. */
  lemma EvictingEnd(a: Snap, b: Snap, me: nat, size: nat, evicted: seq<nat>)
    requires StoreOk(b.store, b.order) && Evicting(a, b, me, size, evicted) && !b.store.frozen
    requires b.store.available >= size || b.order == []
             || Use(b.order[|b.order| - 1], me, a.chan.last + 1) in b.uses
    ensures Stay(a.store, a.order, a.uses, me, a.chan.last + 1, size, |b.order|)
    ensures b.store.available >= size <==> RoomAt(a.store, a.order, |b.order|) >= size
  {
    hide StoreOk;
    RoomNow(a.store, a.order, b.store, b.order);
    if b.order != [] {
      assert b.order[|b.order| - 1] == a.order[|b.order| - 1];
    }
  }

  /**
   What an attempt to add an image does to the free list, and whether it succeeds;
   a channel that has missed a reset is out of step.
   */
  ghost predicate Tried(a: Snap, b: Snap, me: nat, inStep: bool, size: nat, evicted: seq<nat>, ok: bool) {
    && |evicted| <= |a.order| && Dropped(a.order, a.order[..|a.order| - |evicted|], evicted)
    && b.chan == Releasing(a.chan, evicted, b.chan).(pendingSync := a.chan.pendingSync || !inStep)
    && b.due == a.due + UsesOfEach(a.uses, evicted)
    && b.store.size == a.store.size && b.store.frozen == a.store.frozen
    && if inStep && !a.store.frozen then
         && Stay(a.store, a.order, a.uses, me, a.chan.last + 1, size, |a.order| - |evicted|)
         && (ok <==> RoomAt(a.store, a.order, |a.order| - |evicted|) >= size)
       else evicted == [] && !ok
  }

  /** The evicted items have left the order, and a new one that was added stands at its front and is in use. */
  ghost predicate Entered(a: Snap, b: Snap, me: nat, id: nat, item: Item, evicted: seq<nat>, ok: bool) {
    && |evicted| <= |a.order|
    && b.order == (if ok then [id] + a.order[..|a.order| - |evicted|] else a.order[..|a.order| - |evicted|])
    && b.uses == Used(Without(a.uses, evicted), id, me, a.chan.last + 1, ok)
    && (ok ==> id in b.store.items && b.store.items[id] == item)
    && forall x :: x in b.store.items && !(ok && x == id) ==> x in a.store.items && b.store.items[x] == a.store.items[x]
  }

  /** A lookup on behalf of a message: exactly a visible item is used, and nothing leaves the cache. */
  ghost predicate Looked(a: Snap, b: Snap, me: nat, id: nat, used: bool) {
    && b.chan == a.chan && b.due == a.due && b.uses == Used(a.uses, id, me, a.chan.last + 1, used)
    && b.store.size == a.store.size && b.store.frozen == a.store.frozen && used == Visible(a.store, a.order, id)
    && if used then Visible(b.store, b.order, id) && id in b.store.items else b.store == a.store && b.order == a.order
  }

  lemma LookedHit(a: Snap, b: Snap, me: nat, id: nat)
    requires Looked(a, b, me, id, true)
    ensures Visible(b.store, b.order, id) && id in b.store.items
  {
  }

  /** Its flag may change after the lookup. */
  lemma LookedStill(a: Snap, b: Snap, c: Snap, me: nat, id: nat)
    requires Looked(a, b, me, id, true) && c == b.(store := c.store)
    requires c.store.size == b.store.size && c.store.frozen == b.store.frozen && id in c.store.items
    ensures Looked(a, c, me, id, true)
  {
  }

  // ----- A whole message -----

  /** An image of a message. */
  datatype Picture = Picture(id: nat, cacheable: bool, canLossy: bool, jpeg: bool, size: nat, isLossy: bool)

  /** What filling in an image does; a channel that has missed a reset is out of step. */
  ghost predicate FillDone(a: Snap, b: Snap, me: nat, inStep: bool, p: Picture, fill: Fill) {
    && (fill != Plain ==> Visible(b.store, b.order, p.id) && p.id in b.store.items)
    && (fill == FromCacheLossless || (fill != Plain && !p.canLossy) ==> !b.store.items[p.id].lossy)
    && (fill != Plain && fill != CacheMe <==> p.cacheable && Visible(a.store, a.order, p.id))
    && if !p.cacheable then fill == Plain && b == a
       else if Visible(a.store, a.order, p.id) then Looked(a, b, me, p.id, true)
       else AddTried(a, b, me, inStep, p, fill == CacheMe)
  }

  ghost predicate AddTried(a: Snap, b: Snap, me: nat, inStep: bool, p: Picture, ok: bool) {
    exists evicted :: AddDone(a, b, me, inStep, p, evicted, ok)
  }

  ghost predicate AddDone(a: Snap, b: Snap, me: nat, inStep: bool, p: Picture, evicted: seq<nat>, ok: bool) {
    Tried(a, b, me, inStep, p.size, evicted, ok) && Entered(a, b, me, p.id, Item(p.size, p.isLossy), evicted, ok)
  }

  /** A use is of a cached item, or of one that the free list holds. */
  ghost predicate Accounted(b: Snap, u: Use) {
    u in b.uses || InDue(b.due, u)
  }

  ghost predicate InDue(due: seq<set<Use>>, u: Use) {
    exists j :: 0 <= j < |due| && u in due[j]
  }

  /**
   From one state to a later one no use is forgotten, none but those of the message
   come up, and what the message uses stays cached.
   */
  ghost predicate NoneLost(a: Snap, b: Snap, me: nat) {
    && b.chan.last == a.chan.last
    && (forall u :: Accounted(a, u) ==> Accounted(b, u))
    && (forall u :: Accounted(b, u) ==> Accounted(a, u) || (u.chan == me && u.serial == a.chan.last + 1))
    && (forall u :: u in a.uses && u.chan == me && u.serial == a.chan.last + 1 ==> u in b.uses)
  }

  lemma NoneLostTransitive(a: Snap, b: Snap, c: Snap, me: nat)
    requires NoneLost(a, b, me) && NoneLost(b, c, me)
    ensures NoneLost(a, c, me)
  {
  }

  lemma NoneLostUsed(a: Snap, b: Snap, me: nat, id: nat, used: bool)
    requires b.chan == a.chan && b.due == a.due && b.uses == Used(a.uses, id, me, a.chan.last + 1, used)
    ensures NoneLost(a, b, me)
  {
  }

  lemma NoneLostTried(a: Snap, b: Snap, me: nat, inStep: bool, id: nat, item: Item, size: nat, evicted: seq<nat>,
                      ok: bool)
    requires Tried(a, b, me, inStep, size, evicted, ok) && Entered(a, b, me, id, item, evicted, ok)
    ensures NoneLost(a, b, me)
  {
    forall u | Accounted(a, u)
      ensures Accounted(b, u)
    {
      if u in a.uses && u.id in evicted {
        var j :| 0 <= j < |evicted| && evicted[j] == u.id;
        assert b.due[|a.due| + j] == UsesOf(a.uses, u.id);
      } else if u !in a.uses {
        var j :| 0 <= j < |a.due| && u in a.due[j];
        assert b.due[j] == a.due[j];
      }
    }
    forall u | Accounted(b, u)
      ensures Accounted(a, u) || (u.chan == me && u.serial == a.chan.last + 1)
    {
      if u !in b.uses {
        var j :| 0 <= j < |b.due| && u in b.due[j];
        if j < |a.due| {
          assert b.due[j] == a.due[j];
        } else {
          assert b.due[j] == UsesOf(a.uses, evicted[j - |a.due|]);
        }
      }
    }
    forall u | u in a.uses && u.chan == me && u.serial == a.chan.last + 1
      ensures u in b.uses
    {
      if evicted != [] {
        StayedOut(a, me, size, evicted, u);
      }
    }
  }

  /** An item that the message uses is not evicted. */
  lemma StayedOut(a: Snap, me: nat, size: nat, evicted: seq<nat>, u: Use)
    requires |evicted| <= |a.order| && Dropped(a.order, a.order[..|a.order| - |evicted|], evicted)
    requires Stay(a.store, a.order, a.uses, me, a.chan.last + 1, size, |a.order| - |evicted|)
    requires u in a.uses && u.chan == me && u.serial == a.chan.last + 1
    ensures u.id !in evicted
  {
    forall j | 0 <= j < |evicted|
      ensures evicted[j] != u.id
    {
      assert RoomAt(a.store, a.order, |a.order| - j) < size;
      assert Use(evicted[j], me, a.chan.last + 1) !in a.uses;
    }
  }

  /** The message uses the images that were filled so far from or for the cache. */
  ghost predicate AllUsed(b: Snap, me: nat, images: seq<Picture>, fills: seq<Fill>) {
    && |fills| <= |images|
    && forall i :: 0 <= i < |fills| && fills[i] != Plain ==> Use(images[i].id, me, b.chan.last + 1) in b.uses
  }

  lemma AllUsedMore(b: Snap, c: Snap, me: nat, images: seq<Picture>, fills: seq<Fill>, fill: Fill)
    requires AllUsed(b, me, images, fills) && NoneLost(b, c, me) && |fills| < |images|
    requires fill != Plain ==> Use(images[|fills|].id, me, c.chan.last + 1) in c.uses
    ensures AllUsed(c, me, images, fills + [fill])
  {
  }

  /** The client is made to wait for the use before the message releases its item. */
  ghost predicate Awaited(m: Message, me: nat, u: Use) {
    u.id in m.releases && if u.chan == me then u.serial < m.serial else WaitsFor(m.waits, u)
  }

  lemma StillSafe(a: Snap, b: Snap, m: Message, me: nat, u: Use)
    requires NoneLost(a, b, me) && Safely(b.due, m, me) && Accounted(a, u)
    ensures u in b.uses || Awaited(m, me, u)
  {
    assert Accounted(b, u);
  }

  /** No other channel is in the middle of a message that uses a pixmap, as far as channel `me` has to know. */
  ghost predicate OthersSent(chans: seq<Chan>, a: Snap, me: nat) {
    forall u :: Accounted(a, u) && u.chan != me ==> !Ahead(chans, u.chan, u.serial)
  }

  lemma StillSent(chans: seq<Chan>, chans': seq<Chan>, a: Snap, b: Snap, me: nat)
    requires NoneLost(a, b, me) && |chans'| == |chans| && me < |chans| && chans' == chans[me := chans'[me]]
    requires chans'[me].last == chans[me].last
    ensures OthersSent(chans, a, me) ==> DueSent(chans', b.due, me)
  {
    if OthersSent(chans, a, me) {
      forall i, u | 0 <= i < |b.due| && u in b.due[i] && u.chan != me
        ensures !Ahead(chans', u.chan, u.serial)
      {
        assert Accounted(b, u) && Accounted(a, u);
      }
    }
  }

  lemma SameSent(chans: seq<Chan>, chans': seq<Chan>, waits: seq<Wait>)
    requires |chans'| == |chans| && (forall c :: 0 <= c < |chans| ==> chans'[c].last == chans[c].last)
    requires WaitsForSent(chans', waits)
    ensures WaitsForSent(chans, waits)
  {
    forall k | 0 <= k < |waits|
      ensures !Ahead(chans, waits[k].chan, waits[k].serial)
    {
      assert !Ahead(chans', waits[k].chan, waits[k].serial);
    }
  }

  /** Nothing more can go: the cache is frozen or empty, or the message uses what is left. */
  ghost predicate MustStop(b: Snap, me: nat) {
    b.store.frozen || b.order == [] || Use(b.order[|b.order| - 1], me, b.chan.last + 1) in b.uses
  }

  lemma MadeEnd(a: Snap, b: Snap, me: nat, size: nat, evicted: seq<nat>, ok: bool)
    requires StoreOk(b.store, b.order) && Evicting(a, b, me, size, evicted) && size > 0
    requires (ok <==> b.store.available >= size) && (ok || MustStop(b, me))
    ensures Made(a, b, me, size, evicted, ok)
  {
    hide StoreOk;
    if b.store.frozen {
      FrozenIsFull(b.store, b.order);
    } else {
      EvictingEnd(a, b, me, size, evicted);
    }
  }

  /** Room has been made, as far as possible. */
  ghost predicate Made(a: Snap, b: Snap, me: nat, size: nat, evicted: seq<nat>, ok: bool) {
    && Evicting(a, b, me, size, evicted) && (a.store.frozen ==> !ok)
    && (!a.store.frozen ==>
          && Stay(a.store, a.order, a.uses, me, a.chan.last + 1, size, |b.order|)
          && (ok <==> RoomAt(a.store, a.order, |b.order|) >= size))
  }

  lemma TriedMade(a: Snap, b: Snap, c: Snap, me: nat, size: nat, evicted: seq<nat>, ok: bool)
    requires Made(a, b, me, size, evicted, ok)
    requires c.chan == b.chan && c.due == b.due && c.store.size == b.store.size && c.store.frozen == b.store.frozen
    ensures Tried(a, c, me, true, size, evicted, ok)
  {
    assert b.order == a.order[..|b.order|];
  }

  /** Item `id` has been put in front of what was there. */
  ghost predicate PutIn(b: Snap, c: Snap, me: nat, id: nat, item: Item) {
    && c == b.(store := c.store, order := [id] + b.order, uses := Used(b.uses, id, me, b.chan.last + 1, true))
    && c.store.size == b.store.size && c.store.frozen == b.store.frozen && c.store.items == b.store.items[id := item]
  }

  lemma EnteredMade(a: Snap, b: Snap, c: Snap, me: nat, id: nat, item: Item, size: nat, evicted: seq<nat>, ok: bool)
    requires Made(a, b, me, size, evicted, ok)
    requires if ok then PutIn(b, c, me, id, item) else c == b
    ensures Entered(a, c, me, id, item, evicted, ok)
  {
    assert b.order == a.order[..|b.order|];
  }

  lemma TriedOutOfStep(a: Snap, b: Snap, me: nat, size: nat)
    requires b == a.(chan := a.chan.(pendingSync := true))
    ensures Tried(a, b, me, false, size, [], false) && b.uses == Without(a.uses, [])
    ensures b.order == a.order[..|a.order|]
  {
    EvictingStart(a, me, size);
    assert a.order[..|a.order|] == a.order;
  }

  // ----- Runs of all channels -----

  /** What a channel does under the cache lock, and sending what it has put together. */
  datatype Step = FillIn(me: nat, picture: Picture) | Send(me: nat) | ResetBy(me: nat) | JoinReset(me: nat)
                | FreezeCache

  predicate StepOk(step: Step) {
    && (!step.FreezeCache? ==> step.me < MAX_CACHE_CLIENTS)
    && (step.FillIn? ==> step.picture.size > 0 && (step.picture.isLossy ==> step.picture.canLossy))
  }

  /** The client is made to wait for the use before it handles the release; a reset releases all items. */
  ghost predicate Lets(step: Step, m: Message, u: Use) {
    && !step.FreezeCache? && u.id in m.releases
    && if u.chan == step.me then u.serial < m.serial || (step.ResetBy? && u.serial == m.serial)
       else WaitsFor(m.waits, u)
  }

  /** The cache and all its channels. */
  datatype State = State(store: Store, order: seq<nat>, uses: set<Use>, chans: seq<Chan>, due: seq<seq<set<Use>>>,
                         generation: nat, initiator: Wait)

  ghost predicate FillStep(a: State, b: State, me: nat, p: Picture, fill: Fill) {
    && |a.chans| == |a.due| == |b.chans| == |b.due| && me < |a.chans|
    && b == a.(store := b.store, order := b.order, uses := b.uses, chans := a.chans[me := b.chans[me]],
            due := a.due[me := b.due[me]])
    && FillDone(Snap(a.store, a.order, a.uses, a.chans[me], a.due[me]),
                Snap(b.store, b.order, b.uses, b.chans[me], b.due[me]), me, a.generation == a.chans[me].generation, p,
                fill)
  }

  ghost predicate SendStep(a: State, b: State, me: nat, m: Message) {
    && me < |a.chans| && me < |a.due| && m.serial == a.chans[me].last + 1 && m.releases == a.chans[me].releases
    && b == a.(chans := a.chans[me := a.chans[me].(last := m.serial, releases := [], freeSync := [0, 0, 0, 0])],
            due := a.due[me := []])
    && Safely(a.due[me], m, me) && (WaitsForSent(a.chans, m.waits) <==> DueSent(a.chans, a.due[me], me))
  }

  ghost predicate ResetStep(a: State, b: State, me: nat, m: Message) {
    && me < |a.chans| && m.serial == a.chans[me].last + 1 && m.releases == a.order
    && b.store.items == map[] && !b.store.frozen && b.store.available == b.store.size == a.store.size
    && b == State(b.store, [], {}, a.chans[me := a.chans[me].(generation := a.generation + 1)], a.due,
                  a.generation + 1, Wait(me, m.serial))
  }

  ghost predicate JoinStep(a: State, b: State, me: nat) {
    && me < |a.chans|
    && b == a.(chans := a.chans[me := a.chans[me].(generation := a.generation, pendingSync := false)])
  }

  ghost predicate FreezeStep(a: State, b: State) {
    && b == a.(store := b.store) && b.store.frozen && b.store.items == a.store.items && b.store.size == a.store.size
    && (a.store.frozen ==> b == a)
  }

  /** What a step does, how it fills in its image, and what is sent. */
  ghost predicate StepDone(a: State, b: State, step: Step, fill: Fill, sent: Option<Message>) {
    && (!step.FillIn? ==> fill == Plain) && (sent.Some? <==> step.Send? || step.ResetBy?)
    && match step
       case FillIn(me, p) => FillStep(a, b, me, p, fill)
       case Send(me) => SendStep(a, b, me, sent.value)
       case ResetBy(me) => ResetStep(a, b, me, sent.value)
       case JoinReset(me) => JoinStep(a, b, me)
       case FreezeCache => FreezeStep(a, b)
  }

  /** The states that some steps lead through. */
  ghost predicate IsTrace(trace: seq<State>, steps: seq<Step>, fills: seq<Fill>, log: seq<Option<Message>>) {
    && |fills| == |log| <= |steps| && |trace| == |fills| + 1
    && forall i, j :: 0 <= i < |fills| && 0 <= j < |trace| && j == i + 1 ==>
                        StepDone(trace[i], trace[j], steps[i], fills[i], log[i])
  }

  lemma StartsTrace(a: State, steps: seq<Step>)
    ensures IsTrace([a], steps, [], [])
  {
  }

  lemma TraceNext(trace: seq<State>, steps: seq<Step>, fills: seq<Fill>, log: seq<Option<Message>>, b: State,
                  fill: Fill, sent: Option<Message>)
    requires IsTrace(trace, steps, fills, log) && |fills| < |steps|
    requires StepDone(trace[|fills|], b, steps[|fills|], fill, sent)
    ensures IsTrace(trace + [b], steps, fills + [fill], log + [sent])
  {
    hide StepDone;
    var trace', fills', log' := trace + [b], fills + [fill], log + [sent];
    forall i, j | 0 <= i < |fills'| && 0 <= j < |trace'| && j == i + 1
      ensures StepDone(trace'[i], trace'[j], steps[i], fills'[i], log'[i])
    {
      if i < |fills| {
        assert StepDone(trace[i], trace[j], steps[i], fills[i], log[i]);
      }
    }
  }

  /** A use is of a cached item, or of one that some channel is about to release. */
  ghost predicate Known(uses: set<Use>, due: seq<seq<set<Use>>>, u: Use) {
    u in uses || exists c :: 0 <= c < |due| && InDue(due[c], u)
  }

  /** One of the messages from the `i`-th step on releases the item and waits for the use. */
  ghost predicate LetSince(steps: seq<Step>, log: seq<Option<Message>>, i: nat, u: Use) {
    |log| <= |steps| && exists j :: i <= j < |log| && log[j].Some? && Lets(steps[j], log[j].value, u)
  }

  /** No step forgets a use: what is not known any more is released by a message that waits for it. */
  ghost predicate Follows(uses: set<Use>, due: seq<seq<set<Use>>>, uses': set<Use>, due': seq<seq<set<Use>>>,
                          step: Step, sent: Option<Message>) {
    forall u :: Known(uses, due, u) ==> Known(uses', due', u) || (sent.Some? && Lets(step, sent.value, u))
  }

  /** A step of one channel that forgets none of its uses leaves those of the others alone. */
  lemma FollowsView(a: Snap, b: Snap, due: seq<seq<set<Use>>>, due': seq<seq<set<Use>>>, me: nat, step: Step)
    requires NoneLost(a, b, me) && me < |due| && a.due == due[me] && due' == due[me := b.due]
    ensures Follows(a.uses, due, b.uses, due', step, None)
  {
    forall u | Known(a.uses, due, u)
      ensures Known(b.uses, due', u)
    {
      if Accounted(a, u) {
        assert Accounted(b, u) && due'[me] == b.due;
      } else {
        var c :| 0 <= c < |due| && InDue(due[c], u);
        assert due'[c] == due[c];
      }
    }
  }

  lemma FollowsSent(uses: set<Use>, due: seq<seq<set<Use>>>, me: nat, m: Message)
    requires me < |due| && Safely(due[me], m, me)
    ensures Follows(uses, due, uses, due[me := []], Send(me), Some(m))
  {
    forall u | Known(uses, due, u) && u !in uses
      ensures Known(uses, due[me := []], u) || Lets(Send(me), m, u)
    {
      var c :| 0 <= c < |due| && InDue(due[c], u);
      if c != me {
        assert due[me := []][c] == due[c];
      }
    }
  }

  lemma FollowsReset(uses: set<Use>, due: seq<seq<set<Use>>>, me: nat, m: Message)
    requires forall u :: u in uses ==> u.id in m.releases
    requires forall u :: u in uses ==> if u.chan == me then u.serial <= m.serial else WaitsFor(m.waits, u)
    ensures Follows(uses, due, {}, due, ResetBy(me), Some(m))
  {
  }

  lemma FollowsSame(uses: set<Use>, due: seq<seq<set<Use>>>, step: Step)
    ensures Follows(uses, due, uses, due, step, None)
  {
  }

  /** The messages that channel `c` sends in the first `i` steps. */
  ghost function SendsBy(steps: seq<Step>, c: nat, i: nat): nat
    requires i <= |steps|
  {
    if i == 0 then 0 else SendsBy(steps, c, i - 1) + (if steps[i - 1] == Send(c) then 1 else 0)
  }

  /** The serial of the message that the channel of step `i` sends next. */
  ghost function SerialAt(chans: seq<Chan>, steps: seq<Step>, i: nat): nat
    requires i < |steps| && !steps[i].FreezeCache? && steps[i].me < |chans|
  {
    chans[steps[i].me].last + SendsBy(steps, steps[i].me, i) + 1
  }

  /** What is sent, and under which serial. */
  ghost predicate LogOk(chans: seq<Chan>, steps: seq<Step>, log: seq<Option<Message>>) {
    && |log| <= |steps|
    && forall i :: 0 <= i < |log| ==> EntryOk(chans, steps, i, log[i])
  }

  ghost predicate EntryOk(chans: seq<Chan>, steps: seq<Step>, i: nat, sent: Option<Message>)
    requires i < |steps|
  {
    && (sent.Some? <==> steps[i].Send? || steps[i].ResetBy?)
    && (sent.Some? ==> steps[i].me < |chans| && sent.value.serial == SerialAt(chans, steps, i))
  }

  /** The use is known, or a message after step `i` has let it go. */
  ghost predicate SafeSince(steps: seq<Step>, log: seq<Option<Message>>, i: nat, uses: set<Use>,
                            due: seq<seq<set<Use>>>, u: Use) {
    Known(uses, due, u) || LetSince(steps, log, i, u)
  }

  lemma SafeNext(steps: seq<Step>, log: seq<Option<Message>>, i: nat, uses: set<Use>, due: seq<seq<set<Use>>>, u: Use,
                 uses': set<Use>, due': seq<seq<set<Use>>>, sent: Option<Message>)
    requires SafeSince(steps, log, i, uses, due, u) && i <= |log| < |steps|
    requires Follows(uses, due, uses', due', steps[|log|], sent)
    ensures SafeSince(steps, log + [sent], i, uses', due', u)
  {
    var more := log + [sent];
    if LetSince(steps, log, i, u) {
      var j :| i <= j < |log| && log[j].Some? && Lets(steps[j], log[j].value, u);
      assert more[j] == log[j];
    } else if !Known(uses', due', u) {
      assert more[|log|] == sent && Lets(steps[|log|], sent.value, u);
    }
  }

  /** Step `i` has used the cache, and its use is safe. */
  ghost predicate UsedSafely(chans: seq<Chan>, steps: seq<Step>, log: seq<Option<Message>>, i: nat, uses: set<Use>,
                             due: seq<seq<set<Use>>>)
    requires i < |steps|
  {
    && steps[i].FillIn? && steps[i].me < |chans|
    && SafeSince(steps, log, i + 1, uses, due, Use(steps[i].picture.id, steps[i].me, SerialAt(chans, steps, i)))
  }

  /** After some steps, every use that was known and every use made since is safe. */
  ghost predicate AllSafe(chans: seq<Chan>, uses0: set<Use>, due0: seq<seq<set<Use>>>, steps: seq<Step>,
                          fills: seq<Fill>, log: seq<Option<Message>>, uses: set<Use>, due: seq<seq<set<Use>>>) {
    && |fills| == |log| <= |steps|
    && (forall u :: Known(uses0, due0, u) ==> SafeSince(steps, log, 0, uses, due, u))
    && (forall i :: 0 <= i < |fills| && fills[i] != Plain ==> UsedSafely(chans, steps, log, i, uses, due))
  }

  lemma AllSafeNext(chans: seq<Chan>, uses0: set<Use>, due0: seq<seq<set<Use>>>, steps: seq<Step>, fills: seq<Fill>,
                    log: seq<Option<Message>>, uses: set<Use>, due: seq<seq<set<Use>>>, fill: Fill,
                    sent: Option<Message>, uses': set<Use>, due': seq<seq<set<Use>>>)
    requires AllSafe(chans, uses0, due0, steps, fills, log, uses, due) && |fills| < |steps|
    requires Follows(uses, due, uses', due', steps[|fills|], sent)
    requires fill != Plain ==>
               var i := |fills|;
               && steps[i].FillIn? && steps[i].me < |chans|
               && Use(steps[i].picture.id, steps[i].me, SerialAt(chans, steps, i)) in uses'
    ensures AllSafe(chans, uses0, due0, steps, fills + [fill], log + [sent], uses', due')
  {
    var all := fills + [fill];
    forall u | Known(uses0, due0, u)
      ensures SafeSince(steps, log + [sent], 0, uses', due', u)
    {
      SafeNext(steps, log, 0, uses, due, u, uses', due', sent);
    }
    forall i | 0 <= i < |all| && all[i] != Plain
      ensures UsedSafely(chans, steps, log + [sent], i, uses', due')
    {
      if i < |fills| {
        assert all[i] == fills[i] && UsedSafely(chans, steps, log, i, uses, due);
        var u := Use(steps[i].picture.id, steps[i].me, SerialAt(chans, steps, i));
        SafeNext(steps, log, i + 1, uses, due, u, uses', due', sent);
      }
    }
  }

  lemma NothingYet(chans: seq<Chan>, uses: set<Use>, due: seq<seq<set<Use>>>, steps: seq<Step>)
    ensures AllSafe(chans, uses, due, steps, [], [], uses, due)
  {
  }

  /** Each channel has sent what it was to send. */
  ghost predicate Serials(chans: seq<Chan>, steps: seq<Step>, i: nat, chans': seq<Chan>) {
    && i <= |steps| && |chans| == |chans'| == MAX_CACHE_CLIENTS
    && forall c :: 0 <= c < |chans| ==> chans'[c].last == chans[c].last + SendsBy(steps, c, i)
  }

  /** After step `i` each channel has sent one message more if that was its step. */
  lemma SerialsNext(chans: seq<Chan>, steps: seq<Step>, i: nat, before: seq<Chan>, after: seq<Chan>)
    requires Serials(chans, steps, i, before) && i < |steps| && |after| == MAX_CACHE_CLIENTS
    requires forall c :: 0 <= c < |after| ==> after[c].last == before[c].last + (if steps[i] == Send(c) then 1 else 0)
    ensures Serials(chans, steps, i + 1, after)
    ensures !steps[i].FreezeCache? && steps[i].me < |chans| ==>
              before[steps[i].me].last + 1 == SerialAt(chans, steps, i)
  {
  }

  class PixmapCache {
    var store: Store
    /** For each item and channel the serial of the channel's last message that used the item. */
    var itemSync: map<nat, seq<nat>>
    /** For each channel the serial of its last message that used the cache. */
    var sync: seq<nat>
    var generation: nat
    var initiator: Wait
    /** The channels of the client. */
    var chans: seq<Chan>

    /** The cached ids, most recently used first. */
    ghost var order: seq<nat>
    /** The uses of cached items since they were added, and of the items that each channel is about to release. */
    ghost var uses: set<Use>
    ghost var due: seq<seq<set<Use>>>

    ghost predicate Synced()
      reads this
    {
      && |sync| == |chans| == |due| == MAX_CACHE_CLIENTS && SyncOk(itemSync, sync, chans, uses)
      && (forall c :: 0 <= c < MAX_CACHE_CLIENTS ==> DueOk(c, chans[c], due[c]))
    }

    ghost predicate Valid()
      reads this
    {
      StoreOk(store, order) && Synced() && (forall id :: id in itemSync <==> id in store.items)
    }

    ghost function Now(): State
      reads this
    {
      State(store, order, uses, chans, due, generation, initiator)
    }

    ghost function View(me: nat): Snap
      requires me < |chans| && me < |due|
      reads this
    {
      Snap(store, order, uses, chans[me], due[me])
    }

    constructor (size: nat)
      ensures Valid() && order == [] && !store.frozen && store.size == size && uses == {} && generation == 0
      ensures chans == seq(MAX_CACHE_CLIENTS, _ => Chan(0, [], [0, 0, 0, 0], 0, false))
      ensures due == seq(MAX_CACHE_CLIENTS, _ => [])
    {
      store := Store(Ring(EMPTY, map[]), seq(HASH_SIZE, _ => []), map[], size, size, false, EMPTY);
      generation, initiator, sync, itemSync := 0, Wait(0, 0), [0, 0, 0, 0], map[];
      chans := seq(MAX_CACHE_CLIENTS, _ => Chan(0, [], [0, 0, 0, 0], 0, false));
      order, uses, due := [], {}, seq(MAX_CACHE_CLIENTS, _ => []);
      new;
      hide StoreOk;
      EmptyStore(store);
    }

    /** Looks an id up in its chain. */
    method Lookup(id: nat) returns (c: nat)
      requires StoreOk(store, order)
      ensures |store.table| == HASH_SIZE && c <= |store.table[Key(id)]|
      ensures c < |store.table[Key(id)]| <==> Visible(store, order, id)
      ensures c < |store.table[Key(id)]| ==> store.table[Key(id)][c] == id && id in store.items
    {
      c := FindInChain(store.table[Key(id)], id);
    }

    /** Makes a cached item the most recently used one. */
    method MoveToFront(id: nat) returns (ghost k: nat)
      requires StoreOk(store, order) && Visible(store, order, id)
      modifies this`store, this`order
      ensures StoreOk(store, order) && k < |old(order)| && old(order)[k] == id
      ensures order == [id] + RemoveAt(old(order), k)
      ensures store == old(store).(ring := store.ring)
    {
      k :| 0 <= k < |order| && order[k] == id;
      StoreMoved(store, order, k);
      store := store.(ring := RingAdd(RingRemove(store.ring, id), id));
      order := [id] + RemoveAt(order, k);
    }

    /** Records that the message of channel `me` uses the item, which may be new. */
    method Touch(me: nat, id: nat)
      requires Synced() && me < MAX_CACHE_CLIENTS
      modifies this`itemSync, this`sync, this`uses
      ensures Synced() && (forall x :: x in itemSync <==> x in old(itemSync) || x == id)
      ensures uses == Used(old(uses), id, me, chans[me].last + 1, true)
    {
      hide SyncOk, DueOk;
      var serial := chans[me].last + 1;
      var before := if id in itemSync then itemSync[id] else [0, 0, 0, 0];
      SyncUsed(itemSync, sync, chans, uses, me, id, before);
      itemSync := itemSync[id := before[me := serial]];
      sync := sync[me := serial];
      uses := Used(uses, id, me, serial, true);
    }

    /** A visible item is used: it becomes the most recently used one. */
    method UseVisible(me: nat, id: nat) returns (ghost k: nat)
      requires Valid() && me < MAX_CACHE_CLIENTS && Visible(store, order, id) && id in store.items
      modifies this`store, this`itemSync, this`sync, this`order, this`uses
      ensures Valid() && Looked(old(View(me)), View(me), me, id, true) && store == old(store).(ring := store.ring)
      ensures k < |old(order)| && old(order)[k] == id && order == [id] + RemoveAt(old(order), k)
    {
      hide StoreOk, SyncOk, DueOk;
      k := MoveToFront(id);
      Touch(me, id);
    }

    /** dcc_pixmap_cache_unlocked_hit. */
    method Hit(me: nat, id: nat) returns (hit: bool, lossy: bool, ghost k: nat)
      requires Valid() && me < MAX_CACHE_CLIENTS
      modifies this`store, this`itemSync, this`sync, this`order, this`uses
      ensures Valid() && Looked(old(View(me)), View(me), me, id, hit)
      ensures !hit ==> itemSync == old(itemSync) && sync == old(sync)
      ensures hit ==> lossy == store.items[id].lossy && store == old(store).(ring := store.ring)
      ensures hit ==> k < |old(order)| && old(order)[k] == id && order == [id] + RemoveAt(old(order), k)
    {
      hide StoreOk;
      lossy, k := false, 0;
      var c := Lookup(id);
      hit := c < |store.table[Key(id)]|;
      if hit {
        lossy := store.items[id].lossy;
        k := UseVisible(me, id);
      }
    }

    /** pixmap_cache_unlocked_set_lossy. */
    method SetLossy(id: nat, lossy: bool) returns (found: bool)
      requires Valid()
      modifies this`store
      ensures Valid() && found == Visible(store, order, id)
      ensures found ==>
                id in old(store).items
                && store == old(store).(items := old(store).items[id := old(store).items[id].(lossy := lossy)])
      ensures !found ==> store == old(store)
    {
      hide StoreOk;
      var c := Lookup(id);
      found := c < |store.table[Key(id)]|;
      if found {
        var item := store.items[id].(lossy := lossy);
        StoreUpdated(store, order, id, item);
        store := store.(items := store.items[id := item]);
      }
    }

    /** Unlinks the tail of the ring and takes it out of its chain. */
    method RemoveTail() returns (id: nat)
      requires StoreOk(store, order) && !store.frozen && order != []
      modifies this`store, this`order
      ensures StoreOk(store, order) && id == old(order)[|old(order)| - 1]
      ensures order == RemoveAt(old(order), |old(order)| - 1)
      ensures id in old(store).items
      ensures var items, available := old(store).items - {id}, old(store).available + old(store).items[id].size;
              store == old(store).(ring := store.ring, table := store.table, items := items, available := available)
    {
      hide StoreOk;
      TailUnlinks(store, order);
      id := store.ring.anchor.last.value;
      var c := Lookup(id);
      StoreRemoved(store, order, |order| - 1, c);
      store := TakenOut(store, id, c);
      order := RemoveAt(order, |order| - 1);
    }

    /** dcc_push_release: the item goes to the free list of channel `me`, with what the client has to wait for. */
    method PushRelease(me: nat, id: nat)
      requires Synced() && me < MAX_CACHE_CLIENTS && id in itemSync && |itemSync[id]| == MAX_CACHE_CLIENTS
      requires itemSync[id][me] != chans[me].last + 1
      modifies this`itemSync, this`sync, this`chans, this`uses, this`due
      ensures Synced() && itemSync == old(itemSync) - {id}
      ensures chans
           == old(chans)[me := old(chans)[me].(releases := old(chans)[me].releases
              + [id], freeSync := chans[me].freeSync)]
      ensures uses == old(uses) - UsesOf(old(uses), id) && due == old(due)[me := old(due)[me] + [UsesOf(old(uses), id)]]
    {
      SyncEvicted(itemSync, sync, chans, uses, due[me], me, id);
      var chan := chans[me];
      var released := chan.(releases := chan.releases + [id], freeSync := MaxSync(chan.freeSync, itemSync[id]));
      sync := sync[me := chan.last + 1];
      chans := chans[me := released];
      itemSync := itemSync - {id};
      due := due[me := due[me] + [UsesOf(uses, id)]];
      uses := uses - UsesOf(uses, id);
    }

    /** One turn of the loop of dcc_pixmap_cache_unlocked_add. */
    method EvictTail(me: nat, tail: nat)
      requires Valid() && me < MAX_CACHE_CLIENTS && !store.frozen
      requires order != [] && tail == order[|order| - 1] && tail in itemSync
      requires |itemSync[tail]| == MAX_CACHE_CLIENTS && itemSync[tail][me] != chans[me].last + 1
      modifies this`store, this`itemSync, this`sync, this`chans, this`order, this`uses, this`due
      ensures Valid() && !store.frozen && order == RemoveAt(old(order), |old(order)| - 1)
      ensures ItemsFrom(store, old(store))
      ensures chans == old(chans)[me := Releasing(old(chans)[me], [tail], chans[me])]
      ensures due == old(due)[me := old(due)[me] + [UsesOf(old(uses), tail)]]
      ensures uses == old(uses) - UsesOf(old(uses), tail)
    {
      hide StoreOk;
      var id := RemoveTail();
      PushRelease(me, id);
    }

    /** One turn of the loop of MakeRoom; `done` when nothing more can go. */
    method EvictOne(me: nat, size: nat) returns (done: bool, ghost tail: nat)
      requires Valid() && me < MAX_CACHE_CLIENTS && store.available < size
      modifies this`store, this`itemSync, this`sync, this`chans, this`order, this`uses, this`due
      ensures Valid() && chans == old(chans)[me := chans[me]] && due == old(due)[me := due[me]]
      ensures done <==> MustStop(old(View(me)), me)
      ensures done ==> View(me) == old(View(me))
      ensures !done ==> OneGone(old(View(me)), View(me), tail)
    {
      hide StoreOk;
      tail := 0;
      TailOf(store, order);
      if store.ring.anchor.last.None? {
        return true, tail;
      }
      var last := store.ring.anchor.last.value;
      UsedNow(itemSync, sync, chans, uses, last, me);
      done := itemSync[last][me] == chans[me].last + 1;
      if !done {
        EvictTail(me, last);
        tail := last;
      }
    }

    /** The loop of dcc_pixmap_cache_unlocked_add: least recently used items go, but none that this message uses. */
    method MakeRoom(me: nat, size: nat) returns (ok: bool, ghost evicted: seq<nat>)
      requires Valid() && me < MAX_CACHE_CLIENTS && size > 0
      modifies this`store, this`itemSync, this`sync, this`chans, this`order, this`uses, this`due
      ensures Valid() && chans == old(chans)[me := chans[me]] && due == old(due)[me := due[me]]
      ensures Made(old(View(me)), View(me), me, size, evicted, ok)
    {
      hide StoreOk;
      ghost var a := View(me);
      evicted, ok := [], true;
      EvictingStart(a, me, size);
      while ok && store.available < size
        invariant Valid() && chans == old(chans)[me := chans[me]] && due == old(due)[me := due[me]]
        invariant Evicting(a, View(me), me, size, evicted)
        invariant !ok ==> store.available < size && MustStop(View(me), me)
        decreases |order|, ok
      {
        ok, evicted := EvictStep(a, me, size, evicted);
      }
      MadeEnd(a, View(me), me, size, evicted, ok);
    }

    /** One turn of the loop of MakeRoom and what it means for the whole. */
    method EvictStep(ghost a: Snap, me: nat, size: nat, ghost before: seq<nat>)
      returns (ok: bool, ghost evicted: seq<nat>)
      requires Valid() && me < MAX_CACHE_CLIENTS && store.available < size
      requires StoreOk(a.store, a.order) && Evicting(a, View(me), me, size, before)
      modifies this`store, this`itemSync, this`sync, this`chans, this`order, this`uses, this`due
      ensures Valid() && chans == old(chans)[me := chans[me]] && due == old(due)[me := due[me]]
      ensures Evicting(a, View(me), me, size, evicted)
      ensures ok ==> |order| < |old(order)|
      ensures !ok ==> View(me) == old(View(me)) && MustStop(View(me), me)
    {
      hide StoreOk;
      ghost var b := View(me);
      var done;
      ghost var tail;
      evicted := before;
      done, tail := EvictOne(me, size);
      ok := !done;
      if !done {
        EvictingStep(a, b, View(me), me, size, evicted, tail);
        evicted := evicted + [tail];
      }
    }

    /** The attempt of a channel that has missed no reset. */
    method AddInStep(me: nat, id: nat, size: nat, lossy: bool) returns (ok: bool, ghost evicted: seq<nat>)
      requires Valid() && me < MAX_CACHE_CLIENTS && size > 0 && !Visible(store, order, id)
      modifies this`store, this`itemSync, this`sync, this`chans, this`order, this`uses, this`due
      ensures Valid() && chans == old(chans)[me := chans[me]] && due == old(due)[me := due[me]]
      ensures Tried(old(View(me)), View(me), me, true, size, evicted, ok)
      ensures Entered(old(View(me)), View(me), me, id, Item(size, lossy), evicted, ok)
    {
      hide StoreOk;
      ghost var a := View(me);
      ok, evicted := MakeRoom(me, size);
      ghost var b := View(me);
      if ok {
        NotVisible(old(order), order, evicted, id);
        AddItem(me, id, Item(size, lossy));
      }
      TriedMade(a, b, View(me), me, size, evicted, ok);
      EnteredMade(a, b, View(me), me, id, Item(size, lossy), size, evicted, ok);
    }

    /**
     dcc_pixmap_cache_unlocked_add, after a lookup that missed. It fails exactly when
     the cache has been reset since the channel last looked, when it is frozen, and
     when there is not enough room beside the items that the same message uses.
     */
    method Add(me: nat, id: nat, size: nat, lossy: bool) returns (ok: bool, ghost evicted: seq<nat>)
      requires Valid() && me < MAX_CACHE_CLIENTS && size > 0 && !Visible(store, order, id)
      modifies this`store, this`itemSync, this`sync, this`chans, this`order, this`uses, this`due
      ensures Valid() && chans == old(chans)[me := chans[me]] && due == old(due)[me := due[me]]
      ensures Tried(old(View(me)), View(me), me, generation == old(chans)[me].generation, size, evicted, ok)
      ensures Entered(old(View(me)), View(me), me, id, Item(size, lossy), evicted, ok)
    {
      hide StoreOk;
      if generation == chans[me].generation {
        ok, evicted := AddInStep(me, id, size, lossy);
      } else {
        ghost var a := View(me);
        chans := chans[me := chans[me].(pendingSync := true)];
        TriedOutOfStep(a, View(me), me, size);
        ok, evicted := false, [];
      }
    }

    /** The item is put into the cache and used by the message. */
    method AddItem(me: nat, id: nat, item: Item)
      requires Valid() && me < MAX_CACHE_CLIENTS && !store.frozen && id !in order
      modifies this`store, this`itemSync, this`sync, this`order, this`uses
      ensures Valid() && PutIn(old(View(me)), View(me), me, id, item)
    {
      hide StoreOk, SyncOk, DueOk;
      InsertItem(id, item);
      Touch(me, id);
    }

    /** Puts an item that fits into the ring and its chain. */
    method InsertItem(id: nat, item: Item)
      requires StoreOk(store, order) && !store.frozen && id !in order
      modifies this`store, this`order
      ensures StoreOk(store, order) && order == [id] + old(order)
      ensures store == old(store).(ring := store.ring, table := store.table, items := old(store).items[id := item],
                       available := old(store).available - item.size)
    {
      if order != [] {
        Neighbours(store.ring, order, 0);
      }
      var next := store.(ring := RingAdd(store.ring, id), table := store.table[Key(id) := [id] + store.table[Key(id)]],
      items := store.items[id := item], available := store.available - item.size);
      StoreAdded(store, order, id, item, next);
      store := next;
      order := [id] + order;
    }

    /**
     begin_send_message and reset_send_data: what the free list holds is released by
     this message, which waits for every use of it by other channels; the channel's
     own uses are in messages that come before.
     */
    method SendMessage(me: nat) returns (m: Message)
      requires Valid() && me < MAX_CACHE_CLIENTS
      modifies this`chans, this`due
      ensures Valid() && m.serial == old(chans)[me].last + 1 && m.releases == old(chans)[me].releases
      ensures chans == old(chans)[me := old(chans)[me].(last := m.serial, releases := [], freeSync := [0, 0, 0, 0])]
      ensures due == old(due)[me := []] && Safely(old(due)[me], m, me)
      ensures WaitsForSent(old(chans), m.waits) <==> DueSent(old(chans), old(due)[me], me)
    {
      hide StoreOk, SyncOk, DueOk, ListOf, Safely, WaitsForSent, DueSent;
      var waits := [];
      if chans[me].releases != [] {
        waits := WaitList(chans[me].freeSync, me);
      }
      var serial := chans[me].last + 1;
      m := Message(serial, chans[me].releases, waits);
      SentSafely(chans, me, chans[me], due[me], m);
      var chan := chans[me].(last := serial, releases := [], freeSync := [0, 0, 0, 0]);
      SyncLater(itemSync, sync, chans, uses, me, chan);
      NoneDue(me, chan);
      chans := chans[me := chan];
      due := due[me := []];
    }

    /** A cached image is used as it is, or replaced by a lossless one. */
    method FillHit(id: nat, lossy: bool, canLossy: bool, jpeg: bool) returns (fill: Fill)
      requires Valid() && Visible(store, order, id) && id in store.items && lossy == store.items[id].lossy
      modifies this`store
      ensures Valid() && fill != Plain && fill != CacheMe && Visible(store, order, id) && id in store.items
      ensures store.size == old(store).size && store.frozen == old(store).frozen
      ensures fill == FromCacheLossless || !canLossy ==> !store.items[id].lossy
    {
      hide StoreOk;
      if canLossy || !lossy {
        fill := if !jpeg || lossy then FromCache else FromCacheLossless;
      } else {
        var _ := SetLossy(id, false);
        fill := CacheReplace;
      }
    }

    /** fill_bits for an image that may be cached. */
    method FillCached(me: nat, id: nat, canLossy: bool, jpeg: bool) returns (fill: Fill)
      requires Valid() && me < MAX_CACHE_CLIENTS
      modifies this`store, this`itemSync, this`sync, this`order, this`uses
      ensures Valid() && Looked(old(View(me)), View(me), me, id, fill != Plain) && fill != CacheMe
      ensures fill == FromCacheLossless || (fill != Plain && !canLossy) ==> !store.items[id].lossy
    {
      hide StoreOk, SyncOk, DueOk, Looked;
      fill := Plain;
      ghost var a := View(me);
      var hit, lossy, _ := Hit(me, id);
      if hit {
        ghost var b := View(me);
        LookedHit(a, b, me, id);
        fill := FillHit(id, lossy, canLossy, jpeg);
        LookedStill(a, b, View(me), me, id);
      }
    }

    /**
     The cache part of fill_bits, for an image that may be cached or not. Whatever
     makes the client look at its cache is recorded as a use by this message, and a
     lossy copy is never used where a lossless one is asked for.
     */
    method FillBits(me: nat, id: nat, cacheable: bool, canLossy: bool, jpeg: bool, size: nat, isLossy: bool)
      returns (fill: Fill, ghost evicted: seq<nat>)
      requires Valid() && me < MAX_CACHE_CLIENTS && size > 0 && (isLossy ==> canLossy)
      modifies this`store, this`itemSync, this`sync, this`chans, this`order, this`uses, this`due
      ensures Valid() && (fill != Plain ==> Visible(store, order, id) && id in store.items)
      ensures chans == old(chans)[me := chans[me]] && due == old(due)[me := due[me]]
      ensures fill == FromCacheLossless || (fill != Plain && !canLossy) ==> !store.items[id].lossy
      ensures fill != Plain && fill != CacheMe <==> cacheable && Visible(old(store), old(order), id)
      ensures cacheable && !Visible(old(store), old(order), id) ==>
                && Tried(old(View(me)), View(me), me, generation == old(chans)[me].generation, size, evicted,
                         fill == CacheMe)
                && Entered(old(View(me)), View(me), me, id, Item(size, isLossy), evicted, fill == CacheMe)
      ensures cacheable && Visible(old(store), old(order), id) ==> Looked(old(View(me)), View(me), me, id, true)
      ensures !cacheable ==> fill == Plain && View(me) == old(View(me))
    {
      hide StoreOk;
      fill, evicted := Plain, [];
      if cacheable {
        fill := FillCached(me, id, canLossy, jpeg);
        if fill == Plain {
          var ok;
          ok, evicted := Add(me, id, size, isLossy);
          Shown(store, order);
          fill := if ok then CacheMe else Plain;
        }
      }
    }

    /** FillBits, as a step of a message. */
    method FillOne(me: nat, p: Picture) returns (fill: Fill)
      requires Valid() && me < MAX_CACHE_CLIENTS && p.size > 0 && (p.isLossy ==> p.canLossy)
      modifies this`store, this`itemSync, this`sync, this`chans, this`order, this`uses, this`due
      ensures Valid() && chans == old(chans)[me := chans[me]] && due == old(due)[me := due[me]]
      ensures FillDone(old(View(me)), View(me), me, generation == old(chans)[me].generation, p, fill)
      ensures NoneLost(old(View(me)), View(me), me) && chans[me].last == old(chans)[me].last
      ensures fill != Plain ==> Use(p.id, me, chans[me].last + 1) in uses
    {
      hide StoreOk, SyncOk, DueOk, Stay, Dropped, UsesOfEach, NoneLost;
      ghost var a := View(me);
      ghost var tries := p.cacheable && !Visible(store, order, p.id);
      ghost var inStep, evicted := generation == chans[me].generation, [];
      fill, evicted := FillBits(me, p.id, p.cacheable, p.canLossy, p.jpeg, p.size, p.isLossy);
      if tries {
        assert AddDone(a, View(me), me, inStep, p, evicted, fill == CacheMe);
        NoneLostTried(a, View(me), me, inStep, p.id, Item(p.size, p.isLossy), p.size, evicted, fill == CacheMe);
      } else {
        NoneLostUsed(a, View(me), me, p.id, fill != Plain);
      }
    }

    /** The images of a message, one after the other. */
    method FillAll(me: nat, images: seq<Picture>) returns (fills: seq<Fill>)
      requires Valid() && me < MAX_CACHE_CLIENTS
      requires forall i :: 0 <= i < |images| ==> images[i].size > 0 && (images[i].isLossy ==> images[i].canLossy)
      modifies this`store, this`itemSync, this`sync, this`chans, this`order, this`uses, this`due
      ensures Valid() && chans == old(chans)[me := chans[me]] && chans[me].last == old(chans)[me].last
      ensures |fills| == |images|
      ensures NoneLost(old(View(me)), View(me), me) && AllUsed(View(me), me, images, fills)
    {
      hide StoreOk, SyncOk, DueOk, FillDone, NoneLost;
      ghost var a := View(me);
      NoneLostUsed(a, a, me, 0, false);
      fills := [];
      while |fills| < |images|
        invariant |fills| <= |images| && Valid() && chans == old(chans)[me := chans[me]]
        invariant chans[me].last == old(chans)[me].last
        invariant NoneLost(a, View(me), me) && AllUsed(View(me), me, images, fills)
      {
        ghost var b := View(me);
        var fill := FillOne(me, images[|fills|]);
        NoneLostTransitive(a, b, View(me), me);
        AllUsedMore(b, View(me), me, images, fills, fill);
        fills := fills + [fill];
      }
    }

    /**
     A message with any number of images that no other channel interrupts. What it
     takes from or puts into the cache is still cached when it is sent, under the serial
     of the message. Of each earlier use either the item is still cached, or the message
     releases it and makes the client wait for the use. If no other channel is in the
     middle of a message, all messages that it waits for have been sent.
     */
    method SendImages(me: nat, images: seq<Picture>) returns (m: Message, fills: seq<Fill>)
      requires Valid() && me < MAX_CACHE_CLIENTS
      requires forall i :: 0 <= i < |images| ==> images[i].size > 0 && (images[i].isLossy ==> images[i].canLossy)
      modifies this`store, this`itemSync, this`sync, this`chans, this`order, this`uses, this`due
      ensures Valid() && m.serial == old(chans)[me].last + 1 == chans[me].last && |fills| == |images|
      ensures forall c :: 0 <= c < MAX_CACHE_CLIENTS && c != me ==> chans[c] == old(chans)[c]
      ensures forall i :: 0 <= i < |images| && fills[i] != Plain ==>
                            Use(images[i].id, me, m.serial) in uses && images[i].id in store.items
      ensures forall u :: u in old(uses) ==> u in uses || Awaited(m, me, u)
      ensures OthersSent(old(chans), old(View(me)), me) ==> WaitsForSent(old(chans), m.waits)
    {
      hide StoreOk, DueOk, Safely, NoneLost, WaitsForSent, OthersSent, DueSent;
      ghost var a := View(me);
      fills := FillAll(me, images);
      ghost var b := View(me);
      StillSent(old(chans), chans, a, b, me);
      ghost var before := chans;
      m := SendMessage(me);
      if OthersSent(old(chans), a, me) {
        SameSent(old(chans), before, m.waits);
      }
      forall u | u in old(uses)
        ensures u in uses || Awaited(m, me, u)
      {
        StillSafe(a, b, m, me, u);
      }
    }

    // ----- Freezing and clearing -----

    /** pixmap_cache_freeze. */
    method Freeze() returns (ok: bool)
      requires Valid()
      modifies this`store
      ensures Valid() && ok == !old(store).frozen && store.frozen
      ensures store.items == old(store).items && store.size == old(store).size
      ensures !ok ==> store == old(store)
    {
      hide StoreOk;
      ok := !store.frozen;
      if ok {
        var next := store.(frozenEnds := store.ring.anchor, ring := store.ring.(anchor := EMPTY),
        table := seq(HASH_SIZE, _ => []), available := -1, frozen := true);
        StoreFrozen(store, order, next);
        store := next;
      }
    }

    /** The loop of pixmap_cache_clear: items are unlinked from the front until the ring is empty. */
    method UnlinkAll(from: Ring, ghost all: seq<nat>) returns (freed: seq<nat>, r: Ring)
      requires RingOk(from, all)
      ensures freed == all && r.anchor == EMPTY
    {
      r, freed := from, [];
      ghost var rest := all;
      while r.anchor.first.Some?
        invariant RingOk(r, rest) && freed + rest == all
        decreases |rest|
      {
        var id := r.anchor.first.value;
        RemovedRing(r, rest, 0);
        assert RemoveAt(rest, 0) == rest[1..] && rest == [id] + rest[1..];
        r := RingRemove(r, id);
        freed := freed + [id];
        rest := rest[1..];
      }
    }

    /** pixmap_cache_clear: frees exactly the cached items, those hidden by a freeze included. */
    method Clear() returns (freed: seq<nat>)
      requires Valid()
      modifies this`store, this`itemSync, this`order, this`uses
      ensures Valid() && freed == old(order) && order == [] && store.items == map[] && uses == {}
      ensures !store.frozen && store.available == store.size == old(store).size
    {
      hide StoreOk;
      WholeRingOk(store, order);
      var ring;
      freed, ring := UnlinkAll(WholeRing(store), order);
      store := Store(ring, seq(HASH_SIZE, _ => []), map[], store.size, store.size, false, store.frozenEnds);
      itemSync, order, uses := map[], [], {};
      EmptyStore(store);
    }

    /**
     dcc_pixmap_cache_reset: the cache is emptied, a new generation starts, and the
     message waits for every use of any cached item by another channel.
     */
    method Reset(me: nat) returns (waits: seq<Wait>, freed: seq<nat>)
      requires Valid() && me < MAX_CACHE_CLIENTS
      modifies this`store, this`itemSync, this`sync, this`order, this`uses, this`generation, this`initiator, this`chans
      ensures Valid() && freed == old(order) && order == [] && generation == old(generation) + 1
      ensures initiator == Wait(me, old(chans)[me].last + 1) && uses == {}
      ensures store.items == map[] && !store.frozen && store.available == store.size == old(store).size
      ensures forall u :: u in old(uses) ==> u.id in freed
      ensures chans == old(chans)[me := old(chans)[me].(generation := generation)]
      ensures forall u :: u in old(uses) ==> if u.chan == me then u.serial <= chans[me].last + 1 else WaitsFor(waits, u)
    {
      hide StoreOk;
      var serial := chans[me].last + 1;
      AllCovered(itemSync, sync, chans, uses, me, sync[me := serial]);
      Shown(store, order);
      freed := Clear();
      generation := generation + 1;
      chans := chans[me := chans[me].(generation := generation)];
      initiator := Wait(me, serial);
      sync := sync[me := serial];
      waits := WaitList(sync, me);
    }

    /** display_channel_marshall_pixmap_sync: the channel joins the new generation after its initiator's message. */
    method PixmapSync(me: nat) returns (waits: seq<Wait>)
      requires Valid() && me < MAX_CACHE_CLIENTS
      modifies this`chans
      ensures Valid() && waits == [initiator]
      ensures chans == old(chans)[me := old(chans)[me].(generation := generation, pendingSync := false)]
    {
      hide StoreOk;
      waits := [initiator];
      chans := chans[me := chans[me].(generation := generation, pendingSync := false)];
    }

    // ----- Runs of all channels -----

    /** One step of one channel. */
    method Perform(step: Step) returns (fill: Fill, sent: Option<Message>)
      requires Valid() && StepOk(step)
      modifies this
      ensures Valid() && StepDone(old(Now()), Now(), step, fill, sent)
      ensures Follows(old(uses), old(due), uses, due, step, sent)
      ensures forall c :: 0 <= c < MAX_CACHE_CLIENTS ==>
                            chans[c].last == old(chans)[c].last + (if step == Send(c) then 1 else 0)
      ensures fill != Plain ==> step.FillIn? && Use(step.picture.id, step.me, old(chans)[step.me].last + 1) in uses
      ensures sent.Some? <==> step.Send? || step.ResetBy?
      ensures sent.Some? ==> sent.value.serial == old(chans)[step.me].last + 1
    {
      hide StoreOk, SyncOk, DueOk, NoneLost, Safely, FillDone, WaitsForSent, DueSent;
      fill, sent := Plain, None;
      ghost var was, before := uses, due;
      FollowsSame(uses, due, step);
      match step
      case FillIn(me, p) =>
        ghost var a := View(me);
        fill := FillOne(me, p);
        FollowsView(a, View(me), before, due, me, step);
      case Send(me) =>
        var m := SendMessage(me);
        FollowsSent(uses, before, me, m);
        sent := Some(m);
      case ResetBy(me) =>
        var waits, freed := Reset(me);
        var m := Message(chans[me].last + 1, freed, waits);
        FollowsReset(was, due, me, m);
        sent := Some(m);
      case JoinReset(me) =>
        var _ := PixmapSync(me);
      case FreezeCache =>
        var _ := Freeze();
    }

    /**
     Any number of steps of the channels of a client, in any order. Whatever a message
     takes from or puts into the cache is in the end still cached, or about to be
     released by some channel, or a later message of some channel has released it and
     waits for the message that uses it, whether that one was sent before or not.
     */
    method Run(steps: seq<Step>)
      returns (fills: seq<Fill>, log: seq<Option<Message>>, ghost trace: seq<State>)
      requires Valid() && forall i :: 0 <= i < |steps| ==> StepOk(steps[i])
      modifies this
      ensures Valid() && |fills| == |steps| && IsTrace(trace, steps, fills, log)
      ensures trace[0] == old(Now()) && trace[|steps|] == Now() && LogOk(old(chans), steps, log)
      ensures AllSafe(old(chans), old(uses), old(due), steps, fills, log, uses, due)
    {
      hide StoreOk, SyncOk, DueOk, Follows, AllSafe, StepDone, IsTrace;
      fills, log, trace := [], [], [Now()];
      StartsTrace(Now(), steps);
      NothingYet(chans, uses, due, steps);
      while |fills| < |steps|
        invariant |fills| == |log| <= |steps| && Valid() && Serials(old(chans), steps, |fills|, chans)
        invariant AllSafe(old(chans), old(uses), old(due), steps, fills, log, uses, due)
        invariant LogOk(old(chans), steps, log) && IsTrace(trace, steps, fills, log)
        invariant |trace| == |fills| + 1 && trace[0] == old(Now()) && trace[|fills|] == Now()
      {
        ghost var was, before, earlier := uses, due, chans;
        var fill, sent := Perform(steps[|fills|]);
        SerialsNext(old(chans), steps, |fills|, earlier, chans);
        AllSafeNext(old(chans), old(uses), old(due), steps, fills, log, was, before, fill, sent, uses, due);
        TraceNext(trace, steps, fills, log, Now(), fill, sent);
        fills, log, trace := fills + [fill], log + [sent], trace + [Now()];
      }
    }
  }

  /** The ids that left the order, the least recently used one first. */
  ghost predicate Dropped(order: seq<nat>, kept: seq<nat>, evicted: seq<nat>) {
    && kept <= order && |evicted| == |order| - |kept|
    && forall i :: 0 <= i < |evicted| ==> evicted[i] == order[|order| - 1 - i]
  }

  lemma DropOne(order: seq<nat>, kept: seq<nat>, evicted: seq<nat>)
    requires Dropped(order, kept, evicted) && kept != []
    ensures Dropped(order, RemoveAt(kept, |kept| - 1), evicted + [kept[|kept| - 1]])
  {
  }

  /** What is left and what is gone have nothing in common. */
  lemma StaysOut(s: Store, order: seq<nat>, kept: seq<nat>, evicted: seq<nat>)
    requires StoreOk(s, order) && Dropped(order, kept, evicted) && kept != []
    ensures kept[|kept| - 1] !in evicted
  {
    assert kept[|kept| - 1] == order[|kept| - 1];
  }

  lemma TailOf(s: Store, order: seq<nat>)
    requires StoreOk(s, order)
    ensures s.frozen ==> s.ring.anchor.last.None?
    ensures !s.frozen ==> s.ring.anchor.last == At(order, |order| - 1)
    ensures !s.frozen && order != [] ==> order[|order| - 1] in s.items
  {
  }

  lemma Shown(s: Store, order: seq<nat>)
    requires StoreOk(s, order)
    ensures forall id :: id in s.items <==> id in order
  {
  }

  lemma FrozenIsFull(s: Store, order: seq<nat>)
    requires StoreOk(s, order)
    ensures s.frozen ==> s.available == -1
  {
  }

  lemma NotVisible(order: seq<nat>, kept: seq<nat>, evicted: seq<nat>, id: nat)
    requires Dropped(order, kept, evicted) && id !in order
    ensures id !in kept
  {
  }

  /** The serials of the cache cover every use of every item. */
  lemma AllCovered(itemSync: map<nat, seq<nat>>, sync: seq<nat>, chans: seq<Chan>, uses: set<Use>, me: nat,
                   sync': seq<nat>)
    requires SyncOk(itemSync, sync, chans, uses) && me < MAX_CACHE_CLIENTS && sync' == sync[me := chans[me].last + 1]
    ensures forall u :: u in uses ==> Covers(sync', u)
  {
    forall u | u in uses
      ensures Covers(sync', u)
    {
      assert WithinSync(itemSync[u.id], sync);
    }
  }

  // ----- Messages that wait for each other -----

  /** A cache for two items of size 1, that is not frozen. */
  ghost predicate Small(a: Snap) {
    && !a.store.frozen && a.store.size == 2 && a.chan.last == 0 && |a.order| <= 2
    && forall i :: 0 <= i < |a.order| ==> a.order[i] in a.store.items && a.store.items[a.order[i]].size == 1
  }

  lemma SmallRoom(a: Snap, n: nat)
    requires Small(a) && n <= |a.order|
    ensures RoomAt(a.store, a.order, n) == 2 - n
  {
    var sizes, kept := SizesOf(a.store.items), a.order[..n];
    if n > 0 {
      assert Total(sizes, kept) == 1 + Total(sizes, kept[1..]);
      if n > 1 {
        assert Total(sizes, kept[1..]) == 1 + Total(sizes, kept[1..][1..]);
      }
    }
  }

  /** While there is room nothing goes; after that the least recently used item goes unless the message uses it. */
  lemma SmallStays(a: Snap, me: nat, n: nat)
    requires Small(a) && Stay(a.store, a.order, a.uses, me, 1, 1, n)
    requires |a.order| == 2 ==> Use(a.order[1], me, 1) !in a.uses
    ensures n == if |a.order| == 2 then 1 else |a.order|
    ensures RoomAt(a.store, a.order, n) >= 1
  {
    forall k | 0 <= k <= |a.order|
      ensures RoomAt(a.store, a.order, k) == 2 - k
    {
      SmallRoom(a, k);
    }
    assert n < |a.order| ==> RoomAt(a.store, a.order, n + 1) < 1;
  }

  /** An item of size 1 has been added for the first message of a channel, in the place of another if need be. */
  ghost predicate SmallAdded(a: Snap, b: Snap, me: nat, id: nat) {
    && Small(b) && b.chan.generation == a.chan.generation
    && if |a.order| == 2 then
         && b.order == [id, a.order[0]] && b.due == a.due + [UsesOf(a.uses, a.order[1])]
         && b.uses == Without(a.uses, [a.order[1]]) + {Use(id, me, 1)}
       else b.order == [id] + a.order && b.due == a.due && b.uses == a.uses + {Use(id, me, 1)}
  }

  lemma AddedWithRoom(a: Snap, b: Snap, me: nat, id: nat, evicted: seq<nat>, ok: bool)
    requires Small(a) && |a.order| < 2
    requires Tried(a, b, me, true, 1, evicted, ok) && Entered(a, b, me, id, Item(1, false), evicted, ok)
    requires forall x :: x in b.order ==> x in b.store.items
    ensures SmallAdded(a, b, me, id)
  {
    SmallStays(a, me, |a.order| - |evicted|);
    assert evicted == [] && a.order[..|a.order|] == a.order;
    assert Without(a.uses, []) == a.uses && a.due + UsesOfEach(a.uses, []) == a.due;
    SmallStill(a, b, id);
  }

  lemma AddedInPlace(a: Snap, b: Snap, me: nat, id: nat, evicted: seq<nat>, ok: bool)
    requires Small(a) && |a.order| == 2 && Use(a.order[1], me, 1) !in a.uses
    requires Tried(a, b, me, true, 1, evicted, ok) && Entered(a, b, me, id, Item(1, false), evicted, ok)
    requires forall x :: x in b.order ==> x in b.store.items
    ensures SmallAdded(a, b, me, id)
  {
    SmallStays(a, me, |a.order| - |evicted|);
    assert evicted == [a.order[1]] && a.order[..1] == [a.order[0]];
    assert UsesOfEach(a.uses, evicted) == [UsesOf(a.uses, a.order[1])];
    SmallStill(a, b, id);
  }

  lemma SmallStill(a: Snap, b: Snap, id: nat)
    requires Small(a) && b.store.size == 2 && !b.store.frozen && b.chan.last == 0 && |b.order| <= 2
    requires forall x :: x in b.order ==> x in b.store.items && (x == id || x in a.order)
    requires forall x :: x in b.store.items ==>
                           if x == id then b.store.items[x].size == 1
                           else x in a.store.items && b.store.items[x] == a.store.items[x]
    ensures Small(b)
  {
    forall i | 0 <= i < |b.order|
      ensures b.order[i] in b.store.items && b.store.items[b.order[i]].size == 1
    {
      var x := b.order[i];
      assert x in b.order;
      if x != id {
        var k :| 0 <= k < |a.order| && a.order[k] == x;
      }
    }
  }

  method AddSmall(cache: PixmapCache, me: nat, id: nat)
    requires cache.Valid() && me < MAX_CACHE_CLIENTS && Small(cache.View(me)) && id !in cache.order
    requires cache.generation == cache.chans[me].generation
    requires |cache.order| == 2 ==> Use(cache.order[1], me, 1) !in cache.uses
    modifies cache
    ensures cache.Valid() && SmallAdded(old(cache.View(me)), cache.View(me), me, id)
    ensures cache.chans == old(cache.chans)[me := cache.chans[me]] && cache.due == old(cache.due)[me := cache.due[me]]
    ensures cache.generation == old(cache.generation)
  {
    hide StoreOk, SyncOk, DueOk, SmallAdded, Stay, Tried, Entered;
    ghost var a := cache.View(me);
    ghost var evicted;
    var fill;
    fill, evicted := cache.FillBits(me, id, true, false, false, 1, false);
    Shown(cache.store, cache.order);
    if |a.order| == 2 {
      AddedInPlace(a, cache.View(me), me, id, evicted, fill == CacheMe);
    } else {
      AddedWithRoom(a, cache.View(me), me, id, evicted, fill == CacheMe);
    }
  }

  /** Two channels whose images have come in turns: each is about to release the item that the other uses. */
  method Crossed() returns (cache: PixmapCache)
    ensures fresh(cache) && cache.Valid() && cache.chans[0].last == cache.chans[1].last == 0
    ensures |cache.due[0]| == |cache.due[1]| == 1
    ensures Use(1, 1, 1) in cache.due[0][0] && Use(2, 0, 1) in cache.due[1][0]
  {
    hide StoreOk, SyncOk, DueOk;
    cache := new PixmapCache(2);
    AddSmall(cache, 1, 1);
    assert cache.order == [1] && cache.uses == {Use(1, 1, 1)};
    AddSmall(cache, 0, 2);
    assert cache.order == [2, 1] && cache.uses == {Use(1, 1, 1), Use(2, 0, 1)};
    AddSmall(cache, 0, 3);
    assert cache.order == [3, 2] && Use(2, 0, 1) in cache.uses && Use(2, 1, 1) !in cache.uses;
    assert cache.due[0] == [UsesOf({Use(1, 1, 1), Use(2, 0, 1)}, 1)];
    AddSmall(cache, 1, 4);
  }

  /** Their messages wait for each other. */
  method CrossedWaits() returns (cache: PixmapCache, m0: Message, m1: Message)
    ensures cache.Valid() && m0.serial == m1.serial == 1
    ensures exists i :: 0 <= i < |m0.waits| && m0.waits[i].chan == 1 && m0.waits[i].serial >= m1.serial
    ensures exists i :: 0 <= i < |m1.waits| && m1.waits[i].chan == 0 && m1.waits[i].serial >= m0.serial
  {
    hide StoreOk, SyncOk, DueOk;
    cache := Crossed();
    m0 := cache.SendMessage(0);
    assert WaitsFor(m0.waits, Use(1, 1, 1));
    m1 := cache.SendMessage(1);
    assert WaitsFor(m1.waits, Use(2, 0, 1));
  }
}
