/**
 The cursor channel of one client: the server's LRU cache of cursor shapes, the
 pipe of items to send, the messages on their way, and the client's own cache.
 */
module CursorChannel {
  import opened Basics
  import opened LruCache

  type Shape = int

  /** A cursor of the guest; `unique` is zero when it must not be cached. */
  datatype Cursor = Cursor(unique: nat, shape: Shape)

  datatype PipeItem = CursorSet(cursor: Cursor) | CursorOther | CursorInit | InvalCache | InvalOne(id: nat)

  /** What a message says about the shape: nothing, its data, or where the client has it. */
  datatype Fill = NoShape | Data(unique: nat, shape: Shape, cacheMe: bool) | FromCache(unique: nat)

  datatype Msg = SetMsg(fill: Fill) | InitMsg(fill: Fill) | InvalAllMsg | InvalOneMsg(id: nat) | OtherMsg

  const CLIENT_CURSOR_CACHE_SIZE := 256

  /** A shape the client has is named, any other is sent; only one without an id is not to be cached. */
  ghost function FillFor(c: Cursor, lru: seq<Item>): Fill {
    if c.unique == 0 then Data(0, c.shape, false)
    else if Has(lru, c.unique) then FromCache(c.unique)
    else Data(c.unique, c.shape, true)
  }

  /** The message for an item of the pipe. */
  ghost function MessageFor(item: PipeItem, current: Option<Cursor>, lru: seq<Item>): Msg {
    match item
    case CursorSet(c) => SetMsg(FillFor(c, lru))
    case CursorInit => InitMsg(if current.Some? then FillFor(current.value, []) else NoShape)
    case InvalCache => InvalAllMsg
    case InvalOne(id) => InvalOneMsg(id)
    case CursorOther => OtherMsg
  }

  // ----- The client -----

  type ClientCache = map<nat, Shape>

  function AfterFill(cache: ClientCache, fill: Fill): ClientCache {
    if fill.Data? && fill.cacheMe then cache[fill.unique := fill.shape] else cache
  }

  /** The client's cache after a message; an init message empties it first. */
  function AfterMsg(cache: ClientCache, m: Msg): ClientCache {
    match m
    case SetMsg(fill) => AfterFill(cache, fill)
    case InitMsg(fill) => AfterFill(map[], fill)
    case InvalAllMsg => map[]
    case InvalOneMsg(id) => cache - {id}
    case OtherMsg => cache
  }

  function After(cache: ClientCache, wire: seq<Msg>): ClientCache {
    if wire == [] then cache else AfterMsg(After(cache, wire[..|wire| - 1]), wire[|wire| - 1])
  }

  /** The client finds what the message tells it to take from its cache, and it is the right shape. */
  ghost predicate FillOk(cache: ClientCache, fill: Fill, shapeOf: nat -> Shape) {
    fill.FromCache? ==> fill.unique in cache && cache[fill.unique] == shapeOf(fill.unique)
  }

  ghost predicate MsgOk(cache: ClientCache, m: Msg, shapeOf: nat -> Shape) {
    match m
    case SetMsg(fill) => FillOk(cache, fill, shapeOf)
    case InitMsg(fill) => FillOk(map[], fill, shapeOf)
    case _ => true
  }

  ghost predicate WireOk(cache: ClientCache, wire: seq<Msg>, shapeOf: nat -> Shape) {
    wire != [] ==>
      && WireOk(cache, wire[..|wire| - 1], shapeOf)
      && MsgOk(After(cache, wire[..|wire| - 1]), wire[|wire| - 1], shapeOf)
  }

  /** The message that the client handles next is fine, and so is the rest after it. */
  lemma {:induction false} WireHead(cache: ClientCache, wire: seq<Msg>, shapeOf: nat -> Shape)
    requires wire != [] && WireOk(cache, wire, shapeOf)
    ensures MsgOk(cache, wire[0], shapeOf)
    ensures After(AfterMsg(cache, wire[0]), wire[1..]) == After(cache, wire)
    ensures WireOk(AfterMsg(cache, wire[0]), wire[1..], shapeOf)
    decreases |wire|
  {
    var front := wire[..|wire| - 1];
    if front != [] {
      WireHead(cache, front, shapeOf);
      assert wire[1..][..|wire| - 2] == front[1..];
    } else {
      assert After(cache, front) == cache;
    }
  }

  lemma WirePut(cache: ClientCache, wire: seq<Msg>, m: Msg, shapeOf: nat -> Shape)
    requires WireOk(cache, wire, shapeOf) && MsgOk(After(cache, wire), m, shapeOf)
    ensures WireOk(cache, wire + [m], shapeOf) && After(cache, wire + [m]) == AfterMsg(After(cache, wire), m)
  {
    assert (wire + [m])[..|wire|] == wire;
  }

  // ----- Server and client -----

  /** The client has what the server counts on, and what it is still to be told to drop. */
  ghost predicate Mirrors(cache: ClientCache, lru: seq<Item>, pending: seq<nat>, shapeOf: nat -> Shape) {
    && (forall id :: id in cache <==> Has(lru, id) || id in pending)
    && (forall i :: 0 <= i < |pending| ==> !Has(lru, pending[i]))
    && (forall i, j :: 0 <= i < j < |pending| ==> pending[i] != pending[j])
    && (forall id :: id in cache ==> cache[id] == shapeOf(id))
  }

  /** The pipe ends with the pending invalidations, which go out next. */
  ghost predicate Pending(pipe: seq<PipeItem>, pending: seq<nat>) {
    && |pending| <= |pipe|
    && (forall i :: 0 <= i < |pipe| - |pending| ==> !pipe[i].InvalOne?)
    && (forall i :: |pipe| - |pending| <= i < |pipe| ==> pipe[i] == InvalOne(pending[i - (|pipe| - |pending|)]))
  }

  lemma MirrorsAfterFind(cache: ClientCache, lru: seq<Item>, k: nat, shapeOf: nat -> Shape)
    requires Mirrors(cache, lru, [], shapeOf) && k < |lru|
    ensures Mirrors(cache, [lru[k]] + RemoveAt(lru, k), [], shapeOf)
  {
    var r := [lru[k]] + RemoveAt(lru, k);
    forall id
      ensures Has(r, id) <==> Has(lru, id)
    {
      if Has(lru, id) {
        var i :| 0 <= i < |lru| && lru[i].id == id;
        assert r[if i == k then 0 else if i < k then i + 1 else i].id == id;
      }
    }
  }

  lemma MirrorsAfterInsert(cache: ClientCache, lru: seq<Item>, kept: seq<Item>, invals: seq<nat>, x: Item,
                           shapeOf: nat -> Shape)
    requires Mirrors(cache, lru, [], shapeOf) && Unique(lru) && !Has(lru, x.id) && Evicted(lru, kept, invals)
    ensures Mirrors(cache[x.id := shapeOf(x.id)], [x] + kept, invals, shapeOf)
  {
    var r := [x] + kept;
    forall id
      ensures Has(lru, id) <==> Has(kept, id) || id in invals
      ensures Has(r, id) <==> id == x.id || Has(kept, id)
    {
      if Has(lru, id) {
        var i :| 0 <= i < |lru| && lru[i].id == id;
        if i >= |kept| {
          assert invals[|lru| - 1 - i] == id;
        }
      }
      assert r[0].id == x.id;
      if Has(kept, id) {
        var i :| 0 <= i < |kept| && kept[i].id == id;
        assert r[i + 1].id == id;
      }
    }
  }

  function Invals(ids: seq<nat>): (r: seq<PipeItem>)
    ensures |r| == |ids| && forall i :: 0 <= i < |r| ==> r[i] == InvalOne(ids[i])
  {
    seq(|ids|, i requires 0 <= i < |ids| => InvalOne(ids[i]))
  }

  lemma PendingAdded(pipe: seq<PipeItem>, ids: seq<nat>)
    requires Pending(pipe, [])
    ensures Pending(pipe + Invals(ids), ids)
  {
  }

  /** The item at the back is the last pending invalidation, or none is pending. */
  lemma PendingTaken(pipe: seq<PipeItem>, pending: seq<nat>)
    requires Pending(pipe, pending) && pipe != []
    ensures var item, rest := pipe[|pipe| - 1], pipe[..|pipe| - 1];
            if item.InvalOne? then
              pending != [] && pending[|pending| - 1] == item.id && Pending(rest, pending[..|pending| - 1])
            else
              pending == [] && Pending(rest, [])
  {
  }

  lemma MirrorsAfterInval(cache: ClientCache, lru: seq<Item>, pending: seq<nat>, shapeOf: nat -> Shape)
    requires Mirrors(cache, lru, pending, shapeOf) && pending != []
    ensures Mirrors(cache - {pending[|pending| - 1]}, lru, pending[..|pending| - 1], shapeOf)
  {
    var rest, gone := pending[..|pending| - 1], pending[|pending| - 1];
    assert pending == rest + [gone];
  }

  lemma ShapeCached(pipe: seq<PipeItem>, there: ClientCache, lru: seq<Item>, kept: seq<Item>, invals: seq<nat>,
                    c: Cursor, shapeOf: nat -> Shape, lru': seq<Item>)
    requires Pending(pipe, []) && c.shape == shapeOf(c.unique)
    requires Mirrors(there, lru, [], shapeOf) && Unique(lru) && !Has(lru, c.unique) && Evicted(lru, kept, invals)
    requires lru' == [Item(c.unique, 1)] + kept
    ensures Pending(pipe + Invals(invals), invals)
    ensures Mirrors(AfterFill(there, Data(c.unique, c.shape, true)), lru', invals, shapeOf)
  {
    MirrorsAfterInsert(there, lru, kept, invals, Item(c.unique, 1), shapeOf);
    PendingAdded(pipe, invals);
  }

  lemma InvalSent(pipe: seq<PipeItem>, pending: seq<nat>, client: ClientCache, wire: seq<Msg>, lru: seq<Item>,
                  shapeOf: nat -> Shape)
    requires Pending(pipe, pending) && pipe != [] && pipe[|pipe| - 1].InvalOne?
    requires WireOk(client, wire, shapeOf) && Mirrors(After(client, wire), lru, pending, shapeOf)
    ensures pending != [] && Pending(pipe[..|pipe| - 1], pending[..|pending| - 1])
    ensures var wire' := wire + [InvalOneMsg(pipe[|pipe| - 1].id)];
            WireOk(client, wire', shapeOf) && Mirrors(After(client, wire'), lru, pending[..|pending| - 1], shapeOf)
  {
    PendingTaken(pipe, pending);
    MirrorsAfterInval(After(client, wire), lru, pending, shapeOf);
    WirePut(client, wire, InvalOneMsg(pipe[|pipe| - 1].id), shapeOf);
  }

  class CursorChannelClient {
    const cache: Cache
    /** The front of the deque is index 0; items are taken from its back. */
    var pipe: seq<PipeItem>
    /** The cursor that the channel shows now. */
    var current: Option<Cursor>

    /** Messages sent but not yet handled by the client, and the client's cache. */
    ghost var wire: seq<Msg>
    ghost var client: ClientCache
    ghost var pending: seq<nat>
    /** Guests use a unique id for one shape only. */
    ghost const shapeOf: nat -> Shape

    ghost predicate CursorOk(c: Cursor) {
      c.unique != 0 ==> c.shape == shapeOf(c.unique)
    }

    ghost predicate Valid()
      reads this, cache
    {
      && cache.Valid() && cache.capacity == CLIENT_CURSOR_CACHE_SIZE
      && Pending(pipe, pending)
      && (forall i :: 0 <= i < |pipe| && pipe[i].CursorSet? ==> CursorOk(pipe[i].cursor))
      && (current.Some? ==> CursorOk(current.value))
      && WireOk(client, wire, shapeOf)
      && Mirrors(After(client, wire), cache.lru, pending, shapeOf)
    }

    constructor (ghost shapeOf: nat -> Shape)
      ensures Valid() && pipe == [] && wire == []
    {
      this.shapeOf := shapeOf;
      cache := new Cache(CLIENT_CURSOR_CACHE_SIZE);
      pipe, current, wire, client, pending := [], None, [], map[], [];
    }

    /** pipe_add: the item goes to the front. */
    method PipeAdd(item: PipeItem)
      requires Valid() && !item.InvalOne? && (item.CursorSet? ==> CursorOk(item.cursor))
      modifies this`pipe
      ensures Valid() && pipe == [item] + old(pipe)
    {
      pipe := [item] + pipe;
    }

    /** process_cmd for a new shape. */
    method ProcessSet(c: Cursor)
      requires Valid() && CursorOk(c)
      modifies this`pipe, this`current
      ensures Valid() && current == Some(c) && pipe == [CursorSet(c)] + old(pipe)
    {
      current := Some(c);
      PipeAdd(CursorSet(c));
    }

    /** cursor_fill after a miss: the shape goes into both caches, and what it pushed out is invalidated. */
    method CacheShape(c: Cursor, ghost there: ClientCache) returns (fill: Fill)
      requires cache.Valid() && cache.capacity == CLIENT_CURSOR_CACHE_SIZE && Pending(pipe, pending)
      requires CursorOk(c) && c.unique != 0 && pending == []
      requires Mirrors(there, cache.lru, [], shapeOf) && !Has(cache.lru, c.unique)
      modifies this`pipe, this`pending, cache
      ensures cache.Valid() && cache.capacity == CLIENT_CURSOR_CACHE_SIZE && Pending(pipe, pending)
      ensures pipe == old(pipe) + Invals(pending) && fill == Data(c.unique, c.shape, true)
      ensures Mirrors(AfterFill(there, fill), cache.lru, pending, shapeOf)
    {
      ghost var before := cache.lru;
      var added, invals, kept := cache.Insert(c.unique, 1);
      ShapeCached(pipe, there, before, kept, invals, c, shapeOf, cache.lru);
      fill := Data(c.unique, c.shape, added);
      pipe := pipe + Invals(invals);
      pending := invals;
    }

    /** cursor_fill for a client whose cache will be `there`, when no invalidation is pending. */
    method CursorFill(c: Cursor, ghost there: ClientCache) returns (fill: Fill)
      requires cache.Valid() && cache.capacity == CLIENT_CURSOR_CACHE_SIZE && Pending(pipe, pending)
      requires CursorOk(c) && pending == [] && Mirrors(there, cache.lru, [], shapeOf)
      modifies this`pipe, this`pending, cache
      ensures cache.Valid() && cache.capacity == CLIENT_CURSOR_CACHE_SIZE && Pending(pipe, pending)
      ensures pipe == old(pipe) + Invals(pending)
      ensures FillOk(there, fill, shapeOf)
      ensures Mirrors(AfterFill(there, fill), cache.lru, pending, shapeOf)
      ensures fill == FillFor(c, old(cache.lru))
    {
      fill := Data(c.unique, c.shape, false);
      assert pipe == pipe + Invals(pending);
      if c.unique != 0 {
        ghost var before := cache.lru;
        var found := cache.Find(c.unique);
        if found {
          MirrorsAfterFind(there, before, IndexOf(before, c.unique), shapeOf);
          fill := FromCache(c.unique);
        } else {
          fill := CacheShape(c, there);
        }
      }
    }

    /** reset_cursor_cache. */
    method ResetCursorCache()
      modifies cache
      ensures cache.Valid() && cache.lru == [] && cache.capacity == CLIENT_CURSOR_CACHE_SIZE
    {
      cache.Reset(CLIENT_CURSOR_CACHE_SIZE);
    }

    /** An eviction is announced. */
    method SendInval(id: nat)
      requires Valid() && pipe != [] && pipe[|pipe| - 1] == InvalOne(id)
      modifies this`pipe, this`pending, this`wire
      ensures Valid() && client == old(client) && current == old(current) && wire == old(wire) + [InvalOneMsg(id)]
      ensures pipe == old(pipe)[..|old(pipe)| - 1]
    {
      InvalSent(pipe, pending, client, wire, cache.lru, shapeOf);
      pipe, pending := pipe[..|pipe| - 1], pending[..|pending| - 1];
      wire := wire + [InvalOneMsg(id)];
    }

    /** A message that leaves the caches alone, or empties both. */
    method SendPlain(reset: bool)
      requires Valid() && pipe != [] && pipe[|pipe| - 1] == (if reset then InvalCache else CursorOther)
      modifies this, cache
      ensures Valid() && client == old(client) && current == old(current)
      ensures wire == old(wire) + [if reset then InvalAllMsg else OtherMsg]
      ensures pipe == old(pipe)[..|old(pipe)| - 1] && (reset ==> cache.lru == [])
    {
      PendingTaken(pipe, pending);
      WirePut(client, wire, if reset then InvalAllMsg else OtherMsg, shapeOf);
      pipe := pipe[..|pipe| - 1];
      if reset {
        ResetCursorCache();
      }
      wire := wire + [if reset then InvalAllMsg else OtherMsg];
    }

    /** A new shape. */
    method SendSet(c: Cursor)
      requires Valid() && pipe != [] && pipe[|pipe| - 1] == CursorSet(c)
      modifies this, cache
      ensures Valid() && client == old(client) && current == old(current)
      ensures wire == old(wire) + [SetMsg(FillFor(c, old(cache.lru)))]
      ensures pipe == old(pipe)[..|old(pipe)| - 1] + Invals(pending)
    {
      PendingTaken(pipe, pending);
      pipe := pipe[..|pipe| - 1];
      var fill := CursorFill(c, After(client, wire));
      WirePut(client, wire, SetMsg(fill), shapeOf);
      wire := wire + [SetMsg(fill)];
    }

    /** The channel's state for a new client: its cache starts from nothing. */
    method SendInit()
      requires Valid() && pipe != [] && pipe[|pipe| - 1] == CursorInit
      modifies this, cache
      ensures Valid() && client == old(client) && current == old(current)
      ensures wire == old(wire) + [MessageFor(CursorInit, current, [])]
      ensures pipe == old(pipe)[..|old(pipe)| - 1] + Invals(pending)
    {
      PendingTaken(pipe, pending);
      pipe := pipe[..|pipe| - 1];
      ResetCursorCache();
      var fill := NoShape;
      if current.Some? {
        fill := CursorFill(current.value, map[]);
      }
      WirePut(client, wire, InitMsg(fill), shapeOf);
      wire := wire + [InitMsg(fill)];
    }

    /**
     pipe_item_get and send_item: takes the item at the back of the pipe and puts
     its message on the wire; whatever it evicts is announced before anything else.
     */
    method SendNext()
      requires Valid() && pipe != []
      modifies this, cache
      ensures Valid() && client == old(client) && current == old(current)
      ensures wire == old(wire) + [MessageFor(old(pipe)[|old(pipe)| - 1], current, old(cache.lru))]
      ensures old(pipe)[..|old(pipe)| - 1] <= pipe
      ensures forall i :: |old(pipe)| - 1 <= i < |pipe| ==> pipe[i].InvalOne?
    {
      match pipe[|pipe| - 1] {
        case InvalOne(id) => SendInval(id);
        case CursorSet(c) => SendSet(c);
        case CursorInit => SendInit();
        case InvalCache => SendPlain(true);
        case CursorOther => SendPlain(false);
      }
    }

    /** The client handles its next message: what it is told to take from its cache is there. */
    ghost method ClientHandles()
      requires Valid() && wire != []
      modifies this`wire, this`client
      ensures MsgOk(old(client), old(wire)[0], shapeOf)
      ensures Valid() && wire == old(wire)[1..] && client == AfterMsg(old(client), old(wire)[0])
    {
      WireHead(client, wire, shapeOf);
      client := AfterMsg(client, wire[0]);
      wire := wire[1..];
    }
  }
}
