/**
 RedCharDevice: write buffers of clients and of the server go to a device in order,
 the tokens that pay for them come back when they are written, and what is pending
 can be carried to another host.
 */
module CharDevice {
  import opened Basics

  datatype Origin = NoOrigin | FromClient(client: nat) | FromServer | FromServerNoToken

  /** A write buffer; `data` is what its owner has put into it. */
  datatype Buf = Buf(origin: Origin, price: nat, data: seq<Byte>)

  /** RedCharDeviceClient; `sendQueue` is the length of its send queue. */
  datatype Client = Client(flow: bool, tokens: nat, free: nat, sendTokens: nat, sendQueue: nat)

  /**
   One call of the device's write function: how many bytes it takes (or none), how
   often it wakes the device up meanwhile, whether it stops it, and the messages that
   the server has ready if a server token comes back.
   */
  datatype Answer = Answer(n: int, wakeups: nat, stops: bool, refill: seq<seq<Byte>>)

  /** How many of the `len` bytes it is offered the device takes. */
  function Took(a: Answer, len: nat): (n: nat)
    ensures n <= len && (n == 0 <==> a.n <= 0 || len == 0)
  {
    if a.n <= 0 then 0 else if a.n < len then a.n else len
  }

  /** How many of the first `k` answers take something. */
  ghost function Positives(answers: seq<Answer>, k: nat): nat
    requires k <= |answers|
  {
    if k == 0 then 0 else Positives(answers, k - 1) + (if answers[k - 1].n > 0 then 1 else 0)
  }

  /** What the first `k` answers can take at most. */
  ghost function Room(answers: seq<Answer>, k: nat): nat
    requires k <= |answers|
  {
    if k == 0 then 0 else Room(answers, k - 1) + (if answers[k - 1].n > 0 then answers[k - 1].n else 0)
  }

  /** The bytes that the server has ready during the first `k` answers. */
  ghost function Ready(answers: seq<Answer>, k: nat): nat
    requires k <= |answers|
  {
    if k == 0 then 0 else Ready(answers, k - 1) + |Joined(answers[k - 1].refill)|
  }

  /** One of the first `k` answers stops the device. */
  ghost predicate Stops(answers: seq<Answer>, k: nat)
    requires k <= |answers|
  {
    k > 0 && (Stops(answers, k - 1) || answers[k - 1].stops)
  }

  /** What the first `k` answers came to: bytes taken, bytes that the server added, and whether it was stopped. */
  ghost predicate Tally(answers: seq<Answer>, k: nat, total: nat, extra: nat, stopped: bool) {
    k <= |answers| && total <= Room(answers, k) && extra <= Ready(answers, k) && stopped == Stops(answers, k)
  }

  lemma TallyNext(answers: seq<Answer>, k: nat, total: nat, extra: nat, stopped: bool, n: nat, more: nat)
    requires k < |answers| && Tally(answers, k, total, extra, stopped)
    requires n <= (if answers[k].n > 0 then answers[k].n else 0) && more <= |Joined(answers[k].refill)|
    ensures Tally(answers, k + 1, total + n, extra + more, stopped || answers[k].stops)
  {
  }

  ghost predicate NonEmpty(msgs: seq<seq<Byte>>) {
    forall i :: 0 <= i < |msgs| ==> msgs[i] != []
  }

  /** The server has no empty messages ready. */
  ghost predicate NoEmptyMessages(answers: seq<Answer>) {
    forall i :: 0 <= i < |answers| ==> NonEmpty(answers[i].refill)
  }

  /** Some messages one after the other. */
  ghost function Joined(msgs: seq<seq<Byte>>): seq<Byte> {
    if msgs == [] then [] else Joined(msgs[..|msgs| - 1]) + msgs[|msgs| - 1]
  }

  // ----- What buffers cost -----

  /** The tokens of client `c` in some buffers. */
  function Cost(bufs: seq<Buf>, c: nat): nat {
    if bufs == [] then 0
    else Cost(bufs[1..], c) + (if bufs[0].origin == FromClient(c) then bufs[0].price else 0)
  }

  /** The server tokens in some buffers. */
  function SelfCost(bufs: seq<Buf>): nat {
    if bufs == [] then 0
    else SelfCost(bufs[1..]) + (if bufs[0].origin == FromServer then 1 else 0)
  }

  lemma {:induction false} CostAppend(a: seq<Buf>, b: seq<Buf>, c: nat)
    ensures Cost(a + b, c) == Cost(a, c) + Cost(b, c) && SelfCost(a + b) == SelfCost(a) + SelfCost(b)
  {
    if a == [] {
      assert a + b == b;
    } else {
      assert (a + b)[1..] == a[1..] + b;
      CostAppend(a[1..], b, c);
    }
  }

  function CostOf(b: Buf, c: nat): nat {
    if b.origin == FromClient(c) then b.price else 0
  }

  function SelfCostOf(b: Buf): nat {
    if b.origin == FromServer then 1 else 0
  }

  lemma CostOne(b: Buf, c: nat)
    ensures Cost([b], c) == CostOf(b, c) && SelfCost([b]) == SelfCostOf(b)
  {
    assert [b][1..] == [];
  }

  lemma CostLast(bufs: seq<Buf>, c: nat)
    requires bufs != []
    ensures Cost(bufs, c) == Cost(bufs[..|bufs| - 1], c) + CostOf(bufs[|bufs| - 1], c)
    ensures SelfCost(bufs) == SelfCost(bufs[..|bufs| - 1]) + SelfCostOf(bufs[|bufs| - 1])
  {
    assert bufs == bufs[..|bufs| - 1] + [bufs[|bufs| - 1]];
    CostAppend(bufs[..|bufs| - 1], [bufs[|bufs| - 1]], c);
    CostOne(bufs[|bufs| - 1], c);
  }

  lemma CostWithout(bufs: seq<Buf>, i: nat, c: nat)
    requires i < |bufs|
    ensures Cost(bufs[..i] + bufs[i + 1..], c) + CostOf(bufs[i], c) == Cost(bufs, c)
    ensures SelfCost(bufs[..i] + bufs[i + 1..]) + SelfCostOf(bufs[i]) == SelfCost(bufs)
  {
    assert bufs == bufs[..i] + ([bufs[i]] + bufs[i + 1..]);
    CostAppend(bufs[..i], bufs[i + 1..], c);
    CostAppend(bufs[..i], [bufs[i]] + bufs[i + 1..], c);
    CostAppend([bufs[i]], bufs[i + 1..], c);
    CostOne(bufs[i], c);
  }

  // ----- The byte stream -----

  /** The bytes of the queue, oldest buffer first; new buffers are at index 0. */
  function Flow(queue: seq<Buf>): seq<Byte> {
    if queue == [] then [] else queue[|queue| - 1].data + Flow(queue[..|queue| - 1])
  }

  lemma {:induction false} FlowPush(b: Buf, queue: seq<Buf>)
    ensures Flow([b] + queue) == Flow(queue) + b.data
    decreases |queue|
  {
    var all := [b] + queue;
    if queue == [] {
      assert all[..0] == [] && all[0] == b;
      assert Flow(all) == b.data + Flow(all[..0]);
    } else {
      assert all[..|all| - 1] == [b] + queue[..|queue| - 1];
      FlowPush(b, queue[..|queue| - 1]);
    }
  }

  /** What is left to write of the current buffer. */
  function Rest(cur: Option<Buf>, pos: nat): seq<Byte> {
    if cur.Some? && pos <= |cur.value.data| then cur.value.data[pos..] else []
  }

  /** No buffer in the device is empty. */
  ghost predicate Solid(cur: Option<Buf>, pos: nat, queue: seq<Buf>) {
    (cur.Some? ==> Rest(cur, pos) != []) && forall i :: 0 <= i < |queue| ==> queue[i].data != []
  }

  /** Written bytes, the rest of the current buffer and the queue are the bytes added, in order. */
  ghost predicate StreamOk(written: seq<Byte>, cur: Option<Buf>, pos: nat, queue: seq<Buf>, added: seq<Byte>) {
    && (cur.Some? ==> pos <= |cur.value.data|)
    && written + Rest(cur, pos) + Flow(queue) == added
  }

  lemma StreamPush(written: seq<Byte>, cur: Option<Buf>, pos: nat, queue: seq<Buf>, added: seq<Byte>, b: Buf)
    requires StreamOk(written, cur, pos, queue, added)
    ensures StreamOk(written, cur, pos, [b] + queue, added + b.data)
  {
    FlowPush(b, queue);
  }

  lemma StreamNext(written: seq<Byte>, pos: nat, queue: seq<Buf>, added: seq<Byte>)
    requires StreamOk(written, None, pos, queue, added) && queue != []
    ensures StreamOk(written, Some(queue[|queue| - 1]), 0, queue[..|queue| - 1], added)
  {
  }

  lemma StreamTaken(written: seq<Byte>, cur: Option<Buf>, pos: nat, queue: seq<Buf>, added: seq<Byte>, n: nat)
    requires StreamOk(written, cur, pos, queue, added) && cur.Some? && pos + n <= |cur.value.data|
    ensures StreamOk(written + cur.value.data[pos..pos + n], cur, pos + n, queue, added)
  {
    var data := cur.value.data;
    assert data[pos..] == data[pos..pos + n] + data[pos + n..];
  }

  lemma StreamDone(written: seq<Byte>, cur: Option<Buf>, pos: nat, queue: seq<Buf>, added: seq<Byte>)
    requires StreamOk(written, cur, pos, queue, added) && cur.Some? && pos == |cur.value.data|
    ensures StreamOk(written, None, pos, queue, added)
  {
  }

  // ----- What the device takes, on lengths -----

  /** What is left of a buffer, and whether a server token comes back with it. */
  datatype Slot = Slot(len: nat, server: bool)

  /** The bytes taken so far, what is left of each buffer, oldest first, and the server tokens. */
  datatype Drain = Drain(total: nat, slots: seq<Slot>, tokens: nat)

  function Min(a: nat, b: nat): nat {
    if a < b then a else b
  }

  ghost function SlotOf(b: Buf, from: nat): Slot {
    Slot(|Rest(Some(b), from)|, b.origin == FromServer)
  }

  ghost function SlotsOf(queue: seq<Buf>): seq<Slot> {
    if queue == [] then [] else [SlotOf(queue[|queue| - 1], 0)] + SlotsOf(queue[..|queue| - 1])
  }

  ghost function Slots(cur: Option<Buf>, pos: nat, queue: seq<Buf>): seq<Slot> {
    if cur.Some? then [SlotOf(cur.value, pos)] + SlotsOf(queue) else SlotsOf(queue)
  }

  ghost function MessageSlots(msgs: seq<seq<Byte>>): seq<Slot> {
    seq(|msgs|, i requires 0 <= i < |msgs| => Slot(|msgs[i]|, true))
  }

  /** One answer: it takes from the oldest buffer; when that is through, the server adds what it has tokens for. */
  ghost function Answered(d: Drain, a: Answer): Drain {
    if d.slots == [] then d
    else
      var n, first, others := Took(a, d.slots[0].len), d.slots[0], d.slots[1..];
      if n == 0 then d
      else if n < first.len then Drain(d.total + n, [first.(len := first.len - n)] + others, d.tokens)
      else if !first.server then Drain(d.total + n, others, d.tokens)
      else var sent := Min(d.tokens + 1, |a.refill|);
           Drain(d.total + n, others + MessageSlots(a.refill[..sent]), d.tokens + 1 - sent)
  }

  /** The first `k` answers. */
  ghost function Drained(d: Drain, answers: seq<Answer>, k: nat): Drain
    requires k <= |answers|
  {
    if k == 0 then d else Answered(Drained(d, answers, k - 1), answers[k - 1])
  }

  /** An answer that takes a part of the current buffer. */
  lemma AnsweredPart(cur: Option<Buf>, pos: nat, queue: seq<Buf>, tokens: nat, a: Answer, n: nat)
    requires cur.Some? && n == Took(a, |Rest(cur, pos)|) > 0 && pos + n < |cur.value.data|
    ensures Answered(Drain(0, Slots(cur, pos, queue), tokens), a) == Drain(n, Slots(cur, pos + n, queue), tokens)
  {
    assert ([SlotOf(cur.value, pos)] + SlotsOf(queue))[1..] == SlotsOf(queue);
  }

  /** An answer that takes all that is left of it. */
  lemma AnsweredWhole(cur: Option<Buf>, pos: nat, queue: seq<Buf>, tokens: nat, a: Answer, n: nat)
    requires cur.Some? && n == Took(a, |Rest(cur, pos)|) > 0 && pos + n == |cur.value.data|
    ensures var d := Answered(Drain(0, Slots(cur, pos, queue), tokens), a);
            if cur.value.origin == FromServer then
              var sent := Min(tokens + 1, |a.refill|);
              d == Drain(n, SlotsOf(queue) + MessageSlots(a.refill[..sent]), tokens + 1 - sent)
            else d == Drain(n, SlotsOf(queue), tokens)
  {
    assert ([SlotOf(cur.value, pos)] + SlotsOf(queue))[1..] == SlotsOf(queue);
  }

  lemma {:induction false} SlotsPush(b: Buf, queue: seq<Buf>)
    ensures SlotsOf([b] + queue) == SlotsOf(queue) + [SlotOf(b, 0)]
    decreases |queue|
  {
    var all := [b] + queue;
    if queue == [] {
      assert all[..0] == [] && all[0] == b;
      assert SlotsOf(all) == [SlotOf(b, 0)] + SlotsOf(all[..0]);
    } else {
      assert all[..|all| - 1] == [b] + queue[..|queue| - 1];
      SlotsPush(b, queue[..|queue| - 1]);
    }
  }

  /** The first `i` of some messages have been added to the stream and to the slots. */
  ghost predicate Refilled(before: seq<Byte>, was: seq<Slot>, msgs: seq<seq<Byte>>, i: nat, added: seq<Byte>,
                           slots: seq<Slot>) {
    i <= |msgs| && added == before + Joined(msgs[..i]) && slots == was + MessageSlots(msgs[..i])
  }

  lemma RefilledStart(added: seq<Byte>, slots: seq<Slot>, msgs: seq<seq<Byte>>)
    ensures Refilled(added, slots, msgs, 0, added, slots)
  {
    assert added + [] == added && slots + [] == slots && MessageSlots(msgs[..0]) == [];
  }

  lemma RefilledNext(before: seq<Byte>, was: seq<Slot>, msgs: seq<seq<Byte>>, i: nat, added: seq<Byte>,
                     slots: seq<Slot>)
    requires Refilled(before, was, msgs, i, added, slots) && i < |msgs|
    ensures Refilled(before, was, msgs, i + 1, added + msgs[i], slots + [Slot(|msgs[i]|, true)])
  {
    JoinedNext(msgs, i, before);
    assert MessageSlots(msgs[..i + 1]) == MessageSlots(msgs[..i]) + [Slot(|msgs[i]|, true)];
  }

  // ----- Accounts -----

  function CurCost(cur: Option<Buf>, c: nat): nat {
    if cur.Some? then CostOf(cur.value, c) else 0
  }

  function CurSelfCost(cur: Option<Buf>): nat {
    if cur.Some? then SelfCostOf(cur.value) else 0
  }

  /** The client's tokens, wherever they are: with the client, freed, or in buffers. */
  ghost function Balance(client: Client, c: nat, held: seq<Buf>, queue: seq<Buf>, cur: Option<Buf>): nat {
    client.tokens + client.free + Cost(held, c) + Cost(queue, c) + CurCost(cur, c)
  }

  ghost function SelfBalance(selfTokens: nat, held: seq<Buf>, queue: seq<Buf>, cur: Option<Buf>): nat {
    selfTokens + SelfCost(held) + SelfCost(queue) + CurSelfCost(cur)
  }

  /** No token of a flow-controlled client is lost or made. */
  ghost predicate Balanced(clients: map<nat, Client>, windows: map<nat, nat>, held: seq<Buf>, queue: seq<Buf>,
                           cur: Option<Buf>) {
    forall c :: c in clients && clients[c].flow ==>
                  c in windows && Balance(clients[c], c, held, queue, cur) == windows[c]
  }

  /** Buffers in the device belong to clients that are there. */
  ghost predicate Owned(clients: map<nat, Client>, queue: seq<Buf>, cur: Option<Buf>) {
    && (forall i :: 0 <= i < |queue| && queue[i].origin.FromClient? ==> queue[i].origin.client in clients)
    && (cur.Some? && cur.value.origin.FromClient? ==> cur.value.origin.client in clients)
  }

  /** red_char_device_client_tokens_add. */
  function WithTokens(client: Client, n: nat, interval: nat): Client {
    if !client.flow then client
    else if client.free + n >= interval then client.(tokens := client.tokens + client.free + n, free := 0)
    else client.(free := client.free + n)
  }

  /** One token of client `c` is taken, if it is flow-controlled. */
  function Charged(clients: map<nat, Client>, c: nat): map<nat, Client> {
    if c in clients && clients[c].flow && clients[c].tokens > 0
    then clients[c := clients[c].(tokens := clients[c].tokens - 1)] else clients
  }

  /** The price of a buffer is back with its client. */
  function Refunded(clients: map<nat, Client>, b: Buf, interval: nat): map<nat, Client> {
    if b.origin.FromClient? && b.origin.client in clients
    then clients[b.origin.client := WithTokens(clients[b.origin.client], b.price, interval)] else clients
  }

  /** Nothing about the clients has changed but where tokens of the flow-controlled ones are. */
  ghost predicate SameButTokens(a: map<nat, Client>, b: map<nat, Client>) {
    && a.Keys == b.Keys
    && forall c :: c in a ==>
                     a[c] == b[c].(tokens := a[c].tokens, free := a[c].free) && (!b[c].flow ==> a[c] == b[c])
  }

  class RedCharDevice {
    var running: bool
    var active: bool
    var waitForMigrateData: bool
    /** Whether the device instance is there. */
    var attached: bool
    /** New buffers are put at index 0 and taken from the end. */
    var queue: seq<Buf>
    var cur: Option<Buf>
    var pos: nat
    var selfTokens: nat
    var clients: map<nat, Client>
    const interval: nat
    var duringWrite: nat

    /** Buffers that callers have got and neither added nor released yet. */
    ghost var held: seq<Buf>
    ghost var windows: map<nat, nat>
    ghost var selfWindow: nat
    /** The bytes that the device has taken, and those given to it to write. */
    ghost var written: seq<Byte>
    ghost var added: seq<Byte>

    ghost predicate Accounts()
      reads this
    {
      && Balanced(clients, windows, held, queue, cur)
      && SelfBalance(selfTokens, held, queue, cur) == selfWindow
      && Owned(clients, queue, cur)
    }

    ghost predicate Stream()
      reads this
    {
      StreamOk(written, cur, pos, queue, added)
    }

    ghost predicate Valid()
      reads this
    {
      Accounts() && Stream()
    }

    /** What there is to write, after `total` bytes have been taken. */
    ghost function Now(total: nat): Drain
      reads this
    {
      Drain(total, Slots(cur, pos, queue), selfTokens)
    }

    constructor (interval: nat, selfTokens: nat)
      ensures Valid() && clients == map[] && queue == [] && cur.None?
      ensures held == [] && !running && !active && !waitForMigrateData && attached && duringWrite == 0
      ensures this.interval == interval && this.selfTokens == selfWindow == selfTokens && written == added == []
    {
      running, active, waitForMigrateData, attached := false, false, false, true;
      queue, cur, pos, duringWrite := [], None, 0, 0;
      this.selfTokens, selfWindow, clients, windows, this.interval := selfTokens, selfTokens, map[], map[], interval;
      held, written, added := [], [], [];
    }

    /** red_char_device_write_buffer_get, other than for restored data. */
    method GetBuffer(origin: Origin) returns (b: Option<Buf>)
      requires Valid() && !origin.NoOrigin?
      modifies this`selfTokens, this`clients, this`held
      ensures Valid()
      ensures b.None? <==> match origin
                           case FromClient(c) => c !in old(clients) || (old(clients)[c].flow
                                                                        && old(clients)[c].tokens == 0)
                           case FromServer => old(selfTokens) == 0
                           case _ => false
      ensures b.None? ==> held == old(held) && clients == old(clients) && selfTokens == old(selfTokens)
      ensures b.Some? ==> b.value == Buf(origin, 1, []) && held == old(held) + [b.value]
      ensures b.Some? ==> selfTokens == old(selfTokens) - (if origin == FromServer then 1 else 0)
      ensures b.Some? ==> clients == if origin.FromClient? then Charged(old(clients), origin.client) else old(clients)
    {
      b := None;
      if origin == FromServer && selfTokens == 0 {
        return;
      }
      if origin.FromClient? {
        if origin.client !in clients || (clients[origin.client].flow && clients[origin.client].tokens == 0) {
          return;
        }
        if clients[origin.client].flow {
          clients := clients[origin.client := clients[origin.client].(tokens := clients[origin.client].tokens - 1)];
        }
      } else if origin == FromServer {
        selfTokens := selfTokens - 1;
      }
      b := Some(Buf(origin, 1, []));
      HeldMore(held, b.value);
      held := held + [b.value];
    }

    /** The tokens of a buffer that is done go back to where they came from. */
    method Release(b: Buf, ghost i: nat)
      requires Valid() && i < |held| && held[i].origin == b.origin && held[i].price == b.price
      requires b.origin.FromClient? ==> b.origin.client in clients
      modifies this`selfTokens, this`clients, this`held
      ensures Valid() && held == old(held)[..i] + old(held)[i + 1..]
      ensures clients == Refunded(old(clients), b, interval) && SameButTokens(clients, old(clients))
      ensures selfTokens == old(selfTokens) + SelfCostOf(b)
    {
      HeldLess(held, i);
      held := held[..i] + held[i + 1..];
      if b.origin.FromClient? {
        clients := clients[b.origin.client := WithTokens(clients[b.origin.client], b.price, interval)];
      } else if b.origin == FromServer {
        selfTokens := selfTokens + 1;
      }
    }

    /** The first part of write_buffer_add: the buffer joins the queue, unless its client is gone. */
    method Push(b: Buf, ghost i: nat) returns (ok: bool)
      requires Valid() && i < |held| && held[i].origin == b.origin && held[i].price == b.price
      modifies this`queue, this`held, this`added
      ensures Valid() && held == old(held)[..i] + old(held)[i + 1..]
      ensures ok == !(b.origin.FromClient? && b.origin.client !in clients)
      ensures !ok ==> queue == old(queue) && added == old(added)
      ensures ok ==> queue == [b] + old(queue) && added == old(added) + b.data
    {
      HeldLess(held, i);
      held := held[..i] + held[i + 1..];
      ok := !(b.origin.FromClient? && b.origin.client !in clients);
      if ok {
        QueueMore(queue, b);
        StreamPush(written, cur, pos, queue, added, b);
        queue := [b] + queue;
        added := added + b.data;
      }
    }

    /** The oldest buffer becomes the current one. */
    method TakeNext()
      requires Valid() && cur.None? && queue != []
      modifies this`queue, this`cur, this`pos
      ensures Valid() && cur == Some(old(queue)[|old(queue)| - 1])
      ensures queue == old(queue)[..|old(queue)| - 1] && pos == 0 && Now(0) == old(Now(0))
    {
      QueueLess(queue);
      var b := queue[|queue| - 1];
      StreamNext(written, pos, queue, added);
      cur, pos := Some(b), 0;
      queue := queue[..|queue| - 1];
    }

    /** The device has taken `n` bytes of the current buffer. */
    method Taken(n: nat)
      requires Stream() && cur.Some? && pos + n <= |cur.value.data|
      modifies this`pos, this`written
      ensures Stream() && pos == old(pos) + n && written == old(written) + cur.value.data[old(pos)..pos]
    {
      StreamTaken(written, cur, pos, queue, added, n);
      written := written + cur.value.data[pos..pos + n];
      pos := pos + n;
    }

    /** The current buffer is written: its tokens come back. */
    method FinishBuffer()
      requires Valid() && cur.Some? && pos == |cur.value.data|
      modifies this`cur, this`selfTokens, this`clients, this`held
      ensures Valid() && cur.None? && held == old(held)
      ensures clients == Refunded(old(clients), old(cur.value), interval) && SameButTokens(clients, old(clients))
      ensures selfTokens == old(selfTokens) + SelfCostOf(old(cur.value))
    {
      var b := cur.value;
      HeldMore(held, b);
      StreamDone(written, cur, pos, queue, added);
      held := held + [b];
      cur := None;
      Release(b, |held| - 1);
      assert held == old(held);
    }

    /** A server message that was waiting for a token is added, and the device woken up. */
    method Refill(data: seq<Byte>)
      requires Valid() && selfTokens > 0
      modifies this`queue, this`selfTokens, this`clients, this`held, this`added, this`duringWrite
      ensures Valid() && held == old(held) && clients == old(clients) && selfTokens == old(selfTokens) - 1
      ensures duringWrite == old(duringWrite) + (if running && !waitForMigrateData && attached then 1 else 0)
      ensures added == old(added) + data && queue == [Buf(FromServer, 1, data)] + old(queue)
      ensures Slots(cur, pos, queue) == old(Slots(cur, pos, queue)) + [Slot(|data|, true)]
    {
      hide Balanced, Owned, StreamOk, SelfBalance;
      SlotsPush(Buf(FromServer, 1, data), queue);
      var r := GetBuffer(FromServer);
      var _ := Push(r.value.(data := data), |held| - 1);
      assert held == old(held);
      if running && !waitForMigrateData && attached {
        duringWrite := duringWrite + 1;
      }
    }

    /** on_free_self_token: as many of the messages are added as there are server tokens. */
    method RefillAll(msgs: seq<seq<Byte>>)
      requires Valid()
      modifies this`queue, this`selfTokens, this`clients, this`held, this`added, this`duringWrite
      ensures Valid() && held == old(held) && clients == old(clients) && old(duringWrite) <= duringWrite
      ensures var sent := Min(old(selfTokens), |msgs|);
              && selfTokens == old(selfTokens) - sent && added == old(added) + Joined(msgs[..sent])
              && Slots(cur, pos, queue) == old(Slots(cur, pos, queue)) + MessageSlots(msgs[..sent])
      ensures cur.None? && NonEmpty(msgs) && Solid(cur, pos, old(queue)) ==> Solid(cur, pos, queue)
    {
      hide Balanced, Owned, StreamOk, Slots, Joined, MessageSlots;
      ghost var before, slots := added, Slots(cur, pos, queue);
      RefilledStart(before, slots, msgs);
      var i := 0;
      while i < |msgs| && selfTokens > 0
        invariant selfTokens == old(selfTokens) - i && Refilled(before, slots, msgs, i, added, Slots(cur, pos, queue))
        invariant Valid() && held == old(held) && clients == old(clients) && old(duringWrite) <= duringWrite
        invariant cur.None? && NonEmpty(msgs) && Solid(cur, pos, old(queue)) ==> Solid(cur, pos, queue)
      {
        RefilledNext(before, slots, msgs, i, added, Slots(cur, pos, queue));
        Refill(msgs[i]);
        i := i + 1;
      }
    }

    /** The device has taken `n` bytes; a buffer that is through is released. */
    method Accept(n: nat, a: Answer)
      requires Valid() && cur.Some? && duringWrite > 0 && n == Took(a, |Rest(cur, pos)|) > 0
      modifies this`queue, this`cur, this`pos, this`selfTokens, this`clients, this`duringWrite, this`held
      modifies this`written, this`added
      ensures Valid() && held == old(held) && SameButTokens(clients, old(clients)) && duringWrite > 0
      ensures old(written) <= written && |written| == |old(written)| + n
      ensures old(added) <= added && |added| <= |old(added)| + |Joined(a.refill)|
      ensures NonEmpty(a.refill) && Solid(old(cur), old(pos), old(queue)) ==> Solid(cur, pos, queue)
      ensures Now(n) == Answered(old(Now(0)), a)
    {
      hide Balanced, Owned, StreamOk, Answered, SlotsOf, MessageSlots;
      if pos + n < |cur.value.data| {
        AnsweredPart(cur, pos, queue, selfTokens, a, n);
      } else {
        AnsweredWhole(cur, pos, queue, selfTokens, a, n);
      }
      Taken(n);
      if pos == |cur.value.data| {
        var b := cur.value;
        FinishBuffer();
        if b.origin == FromServer {
          RefillAll(a.refill);
          JoinedPrefix(a.refill, Min(old(selfTokens) + 1, |a.refill|));
        }
      }
    }

    /** One call of the device's write function and what follows from its answer. */
    method WriteOnce(a: Answer) returns (n: nat, again: bool)
      requires Valid() && cur.Some? && duringWrite > 0
      modifies this`running, this`active, this`queue, this`cur, this`pos, this`selfTokens, this`clients
      modifies this`duringWrite, this`held, this`written, this`added
      ensures Valid() && held == old(held) && SameButTokens(clients, old(clients))
      ensures n == Took(a, |old(Rest(cur, pos))|) && old(written) <= written && |written| == |old(written)| + n
      ensures old(added) <= added && |added| <= |old(added)| + |Joined(a.refill)|
      ensures running == (old(running) && !a.stops) && active == (old(active) && !a.stops) && duringWrite > 0
      ensures !again <==> n == 0 && a.wakeups == 0 && old(duringWrite) == 1
      ensures n == 0 ==> cur == old(cur) && pos == old(pos) && queue == old(queue) && duringWrite == 1
      ensures NonEmpty(a.refill) && Solid(old(cur), old(pos), old(queue)) ==> Solid(cur, pos, queue)
      ensures Now(n) == Answered(old(Now(0)), a)
    {
      again := true;
      duringWrite := duringWrite + a.wakeups;
      if a.stops {
        running, active := false, false;
      }
      n := Took(a, |cur.value.data| - pos);
      if n == 0 {
        if duringWrite > 1 {
          duringWrite := 1;
        } else {
          again := false;
        }
      } else {
        Accept(n, a);
      }
    }

    /** The device has been offered the rest of its buffer and has taken none of it, undisturbed. */
    ghost predicate Refused(answers: seq<Answer>, used: nat)
      reads this
    {
      && cur.Some? && used <= |answers|
      && (used == |answers|
          || (used > 0 && answers[used - 1].wakeups == 0 && Took(answers[used - 1], |Rest(cur, pos)|) == 0))
    }

    /** Makes the oldest buffer the current one if there is none. */
    method EnsureCurrent() returns (empty: bool)
      requires Valid()
      modifies this`queue, this`cur, this`pos
      ensures Valid() && empty == (old(cur).None? && old(queue) == []) && (empty <==> cur.None?)
      ensures (empty ==> queue == []) && Now(0) == old(Now(0))
      ensures Solid(old(cur), old(pos), old(queue)) ==> Solid(cur, pos, queue)
    {
      empty := cur.None? && queue == [];
      if !empty && cur.None? {
        TakeNext();
      }
    }

    /** One turn of the loop of write_to_device. */
    method WriteStep(answers: seq<Answer>, from: nat) returns (n: nat, used: nat, stuck: bool)
      requires Valid() && duringWrite > 0 && from <= |answers|
      modifies this`running, this`active, this`queue, this`cur, this`pos, this`selfTokens, this`clients
      modifies this`duringWrite, this`held, this`written, this`added
      ensures Valid() && held == old(held) && SameButTokens(clients, old(clients)) && duringWrite > 0
      ensures old(written) <= written && |written| == |old(written)| + n && old(added) <= added
      ensures from <= used <= |answers| && used <= from + 1
      ensures used == from ==> n == 0 && |added| == |old(added)| && running == old(running) && active == old(active)
      ensures used == from ==> Now(0) == old(Now(0))
      ensures used > from ==> Now(n) == Answered(old(Now(0)), answers[from])
      ensures used > from ==>
                var a := answers[from];
                && n <= (if a.n > 0 then a.n else 0) && |added| <= |old(added)| + |Joined(a.refill)|
                && running == (old(running) && !a.stops) && active == (old(active) && !a.stops)
                && (a.n > 0 && Solid(old(cur), old(pos), old(queue)) ==> n > 0)
      ensures NoEmptyMessages(answers) && Solid(old(cur), old(pos), old(queue)) ==> Solid(cur, pos, queue)
      ensures used == from && !stuck ==> from == |answers| && old(duringWrite) > 1 && duringWrite == 1
      ensures used == from && stuck ==> duringWrite == old(duringWrite)
      ensures stuck ==> (cur.None? && queue == []) || Refused(answers, used)
    {
      hide Balanced, Owned, StreamOk;
      n, used := 0, from;
      stuck := EnsureCurrent();
      if !stuck {
        var a := Answer(0, 0, false, []);
        if used < |answers| {
          a := answers[used];
          used := used + 1;
        }
        var again;
        n, again := WriteOnce(a);
        stuck := !again;
      }
    }

    /** The loop of write_to_device. */
    method WriteLoop(answers: seq<Answer>) returns (total: nat, used: nat)
      requires Valid() && duringWrite == 1
      modifies this`running, this`active, this`queue, this`cur, this`pos, this`selfTokens, this`clients
      modifies this`duringWrite, this`held, this`written, this`added
      ensures Valid() && held == old(held) && SameButTokens(clients, old(clients)) && used <= |answers|
      ensures old(written) <= written && |written| == |old(written)| + total
      ensures old(added) <= added && Tally(answers, used, total, |added| - |old(added)|, Stops(answers, used))
      ensures Now(total) == Drained(old(Now(0)), answers, used)
      ensures running == (old(running) && !Stops(answers, used)) && active == (old(active) && !Stops(answers, used))
      ensures NoEmptyMessages(answers) && Solid(old(cur), old(pos), old(queue)) ==>
                total >= Positives(answers, used) && Solid(cur, pos, queue)
      ensures running ==> (cur.None? && queue == []) || Refused(answers, used)
    {
      hide Balanced, Owned, StreamOk, Slots, Solid, Joined, Room, Ready, SelfBalance;
      total, used := 0, 0;
      var stuck := false;
      ghost var stopped := false;
      while running && !stuck
        invariant Valid() && held == old(held) && SameButTokens(clients, old(clients))
        invariant old(written) <= written && |written| == |old(written)| + total && duringWrite > 0
        invariant old(added) <= added && Tally(answers, used, total, |added| - |old(added)|, stopped)
        invariant Now(total) == Drained(old(Now(0)), answers, used)
        invariant running == (old(running) && !stopped) && active == (old(active) && !stopped)
        invariant NoEmptyMessages(answers) && Solid(old(cur), old(pos), old(queue)) ==>
                    total >= Positives(answers, used) && Solid(cur, pos, queue)
        invariant stuck ==> (cur.None? && queue == []) || Refused(answers, used)
        decreases |answers| - used, if duringWrite > 1 then 1 else 0, if stuck then 0 else 1
      {
        ghost var from, sum, was := used, total, added;
        var n;
        n, used, stuck := WriteStep(answers, used);
        total := total + n;
        if used > from {
          TallyNext(answers, from, sum, |was| - |old(added)|, stopped, n, |added| - |was|);
          stopped := stopped || answers[from].stops;
        }
      }
    }

    ghost predicate CanWrite()
      reads this
    {
      running && !waitForMigrateData && attached && duringWrite == 0
    }

    /**
     write_to_device; `answers` are those of the device, which takes nothing after
     the last one. It goes on until the device is stopped, everything is written, or
     the device takes nothing and nothing has woken it up meanwhile.
     */
    method WriteToDevice(answers: seq<Answer>) returns (total: nat, used: nat)
      requires Valid()
      modifies this`running, this`active, this`queue, this`cur, this`pos, this`selfTokens, this`clients
      modifies this`duringWrite, this`held, this`written, this`added
      ensures Valid() && held == old(held) && SameButTokens(clients, old(clients)) && used <= |answers|
      ensures old(written) <= written && |written| == |old(written)| + total
      ensures old(added) <= added && Tally(answers, used, total, |added| - |old(added)|, Stops(answers, used))
      ensures !old(CanWrite()) ==>
                && total == used == 0 && queue == old(queue) && cur == old(cur) && pos == old(pos)
                && written == old(written) && added == old(added) && clients == old(clients)
                && selfTokens == old(selfTokens) && running == old(running) && active == old(active)
      ensures old(CanWrite()) ==> Now(total) == Drained(old(Now(0)), answers, used)
      ensures old(CanWrite()) ==> duringWrite == 0 && running == !Stops(answers, used)
      ensures old(CanWrite()) ==> active == (running && (old(active) || total > 0))
      ensures old(CanWrite()) && running ==> (cur.None? && queue == []) || Refused(answers, used)
      ensures NoEmptyMessages(answers) && Solid(old(cur), old(pos), old(queue)) ==>
                total >= Positives(answers, used) && Solid(cur, pos, queue)
    {
      hide Balanced, Owned, StreamOk, SelfBalance, Slots, Drained, Solid;
      total, used := 0, 0;
      if !running || waitForMigrateData || !attached {
        return;
      }
      duringWrite := duringWrite + 1;
      if duringWrite > 1 {
        return;
      }
      total, used := WriteLoop(answers);
      if running {
        active := active || total > 0;
      }
      duringWrite := 0;
    }

    /**
     A device that takes at least a byte of whatever it is offered, as often as there
     are bytes, gets everything.
     */
    method WriteEverything(answers: seq<Answer>) returns (total: nat, used: nat)
      requires Valid() && CanWrite() && Solid(cur, pos, queue) && NoEmptyMessages(answers)
      requires forall i :: 0 <= i < |answers| ==> answers[i].n > 0 && !answers[i].stops
      requires |answers| > |PendingBytes()| + Ready(answers, |answers|)
      modifies this`running, this`active, this`queue, this`cur, this`pos, this`selfTokens, this`clients
      modifies this`duringWrite, this`held, this`written, this`added
      ensures Valid() && held == old(held) && SameButTokens(clients, old(clients))
      ensures running && cur.None? && queue == [] && written == added && old(added) <= added
    {
      total, used := WriteToDevice(answers);
      EagerDevice(answers, used);
      assert |added| == |written| + |Rest(cur, pos)| + |Flow(queue)|;
    }

    /** write_buffer_add. */
    method Add(b: Buf, ghost i: nat, answers: seq<Answer>)
      requires Valid() && i < |held| && held[i].origin == b.origin && held[i].price == b.price
      modifies this`running, this`active, this`queue, this`cur, this`pos, this`selfTokens, this`clients
      modifies this`duringWrite, this`held, this`written, this`added
      ensures Valid() && held == old(held)[..i] + old(held)[i + 1..] && SameButTokens(clients, old(clients))
      ensures old(written) <= written
      ensures b.origin.FromClient? && b.origin.client !in old(clients) ==>
                written == old(written) && added == old(added) && queue == old(queue) && cur == old(cur)
      ensures !(b.origin.FromClient? && b.origin.client !in old(clients)) ==> old(added) + b.data <= added
      ensures !(b.origin.FromClient? && b.origin.client !in old(clients)) && !old(CanWrite()) ==>
                && written == old(written) && added == old(added) + b.data && queue == [b] + old(queue)
                && cur == old(cur) && pos == old(pos) && clients == old(clients)
    {
      var ok := Push(b, i);
      if ok {
        var _, _ := WriteToDevice(answers);
      }
    }

    // ----- Clients -----

    /** client_add, without the wakeup at its end. */
    method ClientAdd(c: nat, flow: bool, tokens: nat, sendTokens: nat, wait: bool) returns (ok: bool)
      requires Valid() && c !in clients && Cost(held, c) == 0
      modifies this`clients, this`windows, this`waitForMigrateData
      ensures Valid() && (ok <==> !(wait && (old(clients) != map[] || active)))
      ensures !ok ==> clients == old(clients) && waitForMigrateData == old(waitForMigrateData)
      ensures ok ==> clients == old(clients)[c := Client(flow, tokens, 0, sendTokens, 0)] && waitForMigrateData == wait
      ensures ok && flow ==> c in windows && windows[c] == tokens
    {
      ok := !(wait && (clients != map[] || active));
      if ok {
        NotTheirs(clients, queue, cur, c);
        waitForMigrateData := wait;
        clients := clients[c := Client(flow, tokens, 0, sendTokens, 0)];
        windows := windows[c := tokens];
      }
    }

    /** red_char_device_client_free: the client's buffers go, its current one loses its owner. */
    method ClientRemove(c: nat)
      requires Valid() && c in clients
      modifies this`clients, this`queue, this`cur, this`added
      ensures Valid() && clients == old(clients) - {c} && queue == Others(old(queue), c)
      ensures cur == if old(cur) == None || old(cur).value.origin != FromClient(c) then old(cur)
                     else Some(old(cur).value.(origin := NoOrigin))
    {
      var cur' := if cur.Some? && cur.value.origin == FromClient(c) then Some(cur.value.(origin := NoOrigin)) else cur;
      RemovedAccounts(clients, windows, held, queue, cur, c, Others(queue, c), cur');
      clients, queue, cur := clients - {c}, Others(queue, c), cur';
      added := written + Rest(cur, pos) + Flow(queue);
    }

    // ----- Reset -----

    /** The oldest buffer of the queue is released without being written. */
    method DropOldest()
      requires Valid() && queue != []
      modifies this`queue, this`selfTokens, this`clients, this`held, this`added
      ensures Valid() && queue == old(queue)[..|old(queue)| - 1]
      ensures held == old(held) && SameButTokens(clients, old(clients))
    {
      var b := queue[|queue| - 1];
      OldestToHeld(clients, windows, held, queue, cur);
      queue, held := queue[..|queue| - 1], held + [b];
      added := written + Rest(cur, pos) + Flow(queue);
      Release(b, |held| - 1);
      assert held == old(held);
    }

    /** The current buffer is released, written or not. */
    method DropCurrent()
      requires Valid()
      modifies this`cur, this`selfTokens, this`clients, this`held, this`added
      ensures Valid() && cur.None? && held == old(held) && SameButTokens(clients, old(clients))
    {
      if cur.Some? {
        var b := cur.value;
        CurrentToHeld(clients, windows, held, queue, cur);
        cur, held := None, held + [b];
        added := written + Rest(cur, pos) + Flow(queue);
        Release(b, |held| - 1);
        assert held == old(held);
      }
    }

    /** Every buffer in the device is released. */
    method DropBuffers()
      requires Valid()
      modifies this`queue, this`cur, this`selfTokens, this`clients, this`held, this`added
      ensures Valid() && queue == [] && cur.None? && held == old(held) && SameButTokens(clients, old(clients))
    {
      while queue != []
        invariant Valid() && held == old(held) && SameButTokens(clients, old(clients))
        decreases |queue|
      {
        DropOldest();
      }
      DropCurrent();
    }

    /** reset: nothing is pending any more, and every freed token is back with its client. */
    method Reset()
      requires Valid()
      modifies this`queue, this`cur, this`selfTokens, this`clients, this`held, this`added, this`waitForMigrateData
      ensures Valid() && queue == [] && cur.None? && held == old(held)
      ensures clients.Keys == old(clients.Keys) && !waitForMigrateData
      ensures forall c :: c in clients ==>
                            clients[c] == Client(old(clients)[c].flow, clients[c].tokens, 0,
                                                 old(clients)[c].sendTokens + old(clients)[c].sendQueue, 0)
      ensures forall c :: c in clients && !clients[c].flow ==>
                            clients[c].tokens == old(clients)[c].tokens + old(clients)[c].free
      ensures forall c :: c in clients && clients[c].flow && Cost(held, c) == 0 ==>
                            c in windows && clients[c].tokens == windows[c]
    {
      waitForMigrateData := false;
      DropBuffers();
      clients := map c | c in clients :: Settled(clients[c]);
    }

    // ----- Migration -----

    /** The bytes that are still to be written. */
    ghost function PendingBytes(): seq<Byte>
      reads this
    {
      Rest(cur, pos) + Flow(queue)
    }

    /** The client's tokens in the device's buffers. */
    ghost function Outstanding(c: nat): nat
      reads this
    {
      CurCost(cur, c) + Cost(queue, c)
    }

    /** The queue's part of the migration data, oldest buffer first, after what is there already. */
    method MarshallQueue(c: nat, before: seq<Byte>, paid: nat) returns (data: seq<Byte>, size: nat, tokens: nat)
      requires Owned(clients, queue, cur) && clients.Keys == {c}
      ensures data == before + Flow(queue) && size == |data| % UINT32 && tokens == (paid + Cost(queue, c)) % UINT32
    {
      data, size, tokens := before, |before| % UINT32, paid % UINT32;
      ghost var spent: nat := paid;
      var i := |queue|;
      assert queue[..i] == queue;
      while i > 0
        invariant 0 <= i <= |queue| && size == |data| % UINT32 && tokens == spent % UINT32
        invariant Marshalled(queue, i, c, before, paid, data, spent)
      {
        i := i - 1;
        var b := queue[i];
        assert b.origin.FromClient? ==> b.origin.client in clients.Keys;
        MarshallOne(queue, i, c, before, paid, data, spent);
        AddMod(|data|, |b.data|);
        data, size := data + b.data, (size + |b.data|) % UINT32;
        if b.origin.FromClient? {
          AddMod(spent, b.price);
          tokens, spent := (tokens + b.price) % UINT32, spent + b.price;
        }
      }
    }

    /** migrate_data_marshall, for the only client `c`. */
    method MigrateMarshall(c: nat) returns (m: MigrateData)
      requires Valid() && clients.Keys == {c} && clients[c].sendQueue == 0
      ensures m.data == PendingBytes() && m.writeSize == |PendingBytes()| % UINT32
      ensures m.writeTokens == Outstanding(c) % UINT32
      ensures m.clientTokens == clients[c].tokens % UINT32 && m.sendTokens == clients[c].sendTokens % UINT32
    {
      var rest, price := [], 0;
      if cur.Some? {
        rest := cur.value.data[pos..];
        if cur.value.origin.FromClient? {
          assert cur.value.origin.client in clients.Keys;
          price := cur.value.price;
        }
      }
      var data, size, tokens := MarshallQueue(c, rest, price);
      m := MigrateData(clients[c].tokens % UINT32, clients[c].sendTokens % UINT32, size, tokens, data);
    }

    /**
     restore, up to the point where writing resumes. The accounts come out right if
     and only if the saved tokens fit in the window and those spent on pending data
     come with some.
     */
    method Restore(c: nat, m: MigrateData)
      requires Valid() && clients.Keys == {c} && clients[c].flow
      requires waitForMigrateData && cur.None? && queue == [] && held == []
      requires clients[c].free == 0 && clients[c].tokens < UINT32 && clients[c].sendQueue == 0
      requires m.clientTokens < UINT32 && m.sendTokens < UINT32 && m.writeTokens < UINT32 && m.writeSize == |m.data|
      requires m.writeSize > 0 && m.writeTokens == 0 ==> selfTokens > 0
      modifies this`clients, this`cur, this`pos, this`selfTokens, this`waitForMigrateData, this`added
      ensures Stream() && PendingBytes() == m.data && !waitForMigrateData && windows == old(windows)
      ensures clients == map[c := Client(true, m.clientTokens,
                                         (old(clients)[c].tokens - m.clientTokens - m.writeTokens) % UINT32,
                                         m.sendTokens, 0)]
      ensures Outstanding(c) == (if m.writeSize > 0 then m.writeTokens else 0)
      ensures Accounts() <==> m.clientTokens + m.writeTokens <= windows[c] && (m.writeSize > 0 || m.writeTokens == 0)
    {
      assert c in clients.Keys && Balance(clients[c], c, held, queue, cur) == windows[c];
      var window := clients[c].tokens;
      clients := map[c := Client(true, m.clientTokens, (window - m.clientTokens - m.writeTokens) % UINT32,
                                 m.sendTokens, 0)];
      if m.writeSize > 0 {
        if m.writeTokens != 0 {
          cur := Some(Buf(FromClient(c), m.writeTokens, m.data));
        } else {
          cur := Some(Buf(FromServer, 1, m.data));
          selfTokens := selfTokens - 1;
        }
        pos := 0;
      }
      waitForMigrateData := false;
      added := written + m.data;
      assert m.data[0..] == m.data;
      RestoredAccounts(window, m, clients[c].free);
      assert Balance(clients[c], c, held, queue, cur)
          == m.clientTokens + clients[c].free + (if m.writeSize > 0 then m.writeTokens else 0);
    }
  }

  /** What is marshalled already and the first `i` buffers of the queue make up the whole. */
  ghost predicate Marshalled(queue: seq<Buf>, i: nat, c: nat, before: seq<Byte>, paid: nat, data: seq<Byte>, spent: nat)
    requires i <= |queue|
  {
    data + Flow(queue[..i]) == before + Flow(queue) && spent + Cost(queue[..i], c) == paid + Cost(queue, c)
  }

  lemma MarshallOne(queue: seq<Buf>, i: nat, c: nat, before: seq<Byte>, paid: nat, data: seq<Byte>, spent: nat)
    requires i < |queue| && Marshalled(queue, i + 1, c, before, paid, data, spent)
    ensures Marshalled(queue, i, c, before, paid, data + queue[i].data, spent + CostOf(queue[i], c))
  {
    FirstOf(queue, i, c);
    AppendAssociates(data, queue[i].data, Flow(queue[..i]));
  }

  lemma AddMod(x: nat, y: nat)
    ensures (x % UINT32 + y) % UINT32 == (x + y) % UINT32
  {
  }

  /** SpiceMigrateDataCharDevice; the counts are 32 bits wide. */
  datatype MigrateData = MigrateData(clientTokens: nat, sendTokens: nat, writeSize: nat, writeTokens: nat,
                                     data: seq<Byte>)

  lemma RestoredAccounts(window: nat, m: MigrateData, free: nat)
    requires window < UINT32 && m.clientTokens < UINT32 && m.writeTokens < UINT32
    requires free == (window - m.clientTokens - m.writeTokens) % UINT32
    ensures m.clientTokens + free + (if m.writeSize > 0 then m.writeTokens else 0) == window
       <==> m.clientTokens + m.writeTokens <= window && (m.writeSize > 0 || m.writeTokens == 0)
  {
    var d := window - m.clientTokens - m.writeTokens;
    if d < 0 {
      assert d + 2 * UINT32 > 0 && (d + 2 * UINT32) % UINT32 == d % UINT32;
      assert free == d + UINT32 || free == d + 2 * UINT32;
    }
  }

  /** The tokens of a client whose buffers nobody holds add up to its window, and fit in 32 bits with it. */
  lemma TokensAdd(d: RedCharDevice, c: nat)
    requires d.Valid() && c in d.clients && d.clients[c].flow && Cost(d.held, c) == 0 && c in d.windows
    requires d.windows[c] < UINT32
    ensures d.clients[c].tokens + d.clients[c].free + d.Outstanding(c) == d.windows[c]
    ensures d.clients[c].tokens % UINT32 == d.clients[c].tokens && d.Outstanding(c) % UINT32 == d.Outstanding(c)
    ensures (d.windows[c] - d.clients[c].tokens - d.Outstanding(c)) % UINT32 == d.clients[c].free
  {
    assert Balance(d.clients[c], c, d.held, d.queue, d.cur) == d.windows[c];
  }

  /** Nothing is cut off when a window fits in 32 bits. */
  method Save(src: RedCharDevice, c: nat) returns (m: MigrateData)
    requires src.Valid() && src.clients.Keys == {c} && src.clients[c].flow && src.clients[c].sendQueue == 0
    requires Cost(src.held, c) == 0 && c in src.windows && src.windows[c] < UINT32
    requires src.clients[c].sendTokens < UINT32 && |src.PendingBytes()| < UINT32
    ensures m == MigrateData(src.clients[c].tokens, src.clients[c].sendTokens, |src.PendingBytes()|,
                             src.Outstanding(c), src.PendingBytes())
    ensures m.clientTokens + src.clients[c].free + m.writeTokens == src.windows[c]
  {
    assert c in src.clients.Keys;
    TokensAdd(src, c);
    m := src.MigrateMarshall(c);
  }

  /** Saved tokens that fit in the window give back the tokens that were on their way to the client. */
  method RestoreSaved(dst: RedCharDevice, c: nat, m: MigrateData, ghost free: nat)
    requires dst.Valid() && dst.clients.Keys == {c} && dst.clients[c].flow
    requires dst.waitForMigrateData && dst.cur.None? && dst.queue == [] && dst.held == []
    requires dst.clients[c].free == 0 && dst.clients[c].sendQueue == 0
    requires m.clientTokens + free + m.writeTokens == dst.clients[c].tokens < UINT32
    requires m.sendTokens < UINT32 && m.writeSize == |m.data|
    requires m.data != [] && m.writeTokens == 0 ==> dst.selfTokens > 0
    modifies dst
    ensures dst.clients.Keys == {c} && dst.PendingBytes() == m.data && dst.Stream()
    ensures dst.clients[c] == Client(true, m.clientTokens, free, m.sendTokens, 0)
    ensures dst.Outstanding(c) == if m.data != [] then m.writeTokens else 0
    ensures dst.Accounts() <==> m.data != [] || m.writeTokens == 0
  {
    assert c in dst.clients.Keys && Balance(dst.clients[c], c, dst.held, dst.queue, dst.cur) == dst.windows[c];
    dst.Restore(c, m);
  }

  /**
   Marshalling on one host and restoring on another: the pending bytes, the tokens
   of the client and those on their way back are the same there.
   */
  method Migrate(src: RedCharDevice, dst: RedCharDevice, c: nat)
    requires src != dst && src.Valid() && dst.Valid()
    requires src.clients.Keys == {c} && src.clients[c].flow && src.clients[c].sendQueue == 0 && Cost(src.held, c) == 0
    requires dst.clients.Keys == {c} && dst.clients[c] == Client(true, src.windows[c], 0, dst.clients[c].sendTokens, 0)
    requires dst.waitForMigrateData && dst.cur.None? && dst.queue == [] && dst.held == []
    requires src.windows[c] < UINT32 && src.clients[c].sendTokens < UINT32 && |src.PendingBytes()| < UINT32
    requires src.PendingBytes() != [] && src.Outstanding(c) == 0 ==> dst.selfTokens > 0
    modifies dst
    ensures dst.clients.Keys == {c} && dst.PendingBytes() == src.PendingBytes() && dst.Stream()
    ensures dst.clients[c] == src.clients[c]
    ensures dst.Outstanding(c) == if src.PendingBytes() != [] then src.Outstanding(c) else 0
    ensures dst.Accounts() <==> src.PendingBytes() != [] || src.Outstanding(c) == 0
  {
    assert c in src.clients.Keys && c in dst.clients.Keys;
    var m := Save(src, c);
    RestoreSaved(dst, c, m, src.clients[c].free);
  }

  /** A device with one client, which has 5 tokens. */
  method WithClient(wait: bool) returns (d: RedCharDevice)
    ensures fresh(d) && d.Valid() && d.clients == map[0 := Client(true, 5, 0, 0, 0)]
    ensures 0 in d.windows && d.windows[0] == 5 && d.selfTokens == 1
    ensures d.held == [] && d.queue == [] && d.cur.None? && !d.running && d.waitForMigrateData == wait
  {
    d := new RedCharDevice(2, 1);
    var _ := d.ClientAdd(0, true, 5, 0, wait);
  }

  lemma OneEmpty(b: Buf, queue: seq<Buf>)
    requires b == Buf(FromClient(0), 1, []) && queue == [b]
    ensures Flow(queue) == [] && Cost(queue, 0) == 1
  {
    assert queue[..0] == [] && Flow(queue) == b.data + Flow(queue[..0]);
    CostOne(b, 0);
  }

  /** The client has paid for a buffer and left it empty. */
  method SpendToken(d: RedCharDevice)
    requires d.Valid() && d.clients == map[0 := Client(true, 5, 0, 0, 0)]
    requires d.held == [] && d.queue == [] && d.cur.None? && !d.running
    modifies d
    ensures d.Valid() && d.clients == map[0 := Client(true, 4, 0, 0, 0)] && d.windows == old(d.windows)
    ensures d.held == [] && d.cur.None? && d.queue == [Buf(FromClient(0), 1, [])]
  {
    var b := d.GetBuffer(FromClient(0));
    assert d.clients == map[0 := Client(true, 4, 0, 0, 0)];
    d.Add(b.value, 0, []);
  }

  /** When the device is migrated, the target never hears of the token. */
  method LostToken() returns (src: RedCharDevice, dst: RedCharDevice)
    ensures src.Valid() && src.clients.Keys == {0} && src.Outstanding(0) == 1
    ensures dst.clients.Keys == {0} && dst.Outstanding(0) == 0 && !dst.Accounts()
  {
    src := WithClient(false);
    SpendToken(src);
    OneEmpty(src.queue[0], src.queue);
    dst := WithClient(true);
    Migrate(src, dst, 0);
  }

  lemma JoinedNext(msgs: seq<seq<Byte>>, i: nat, before: seq<Byte>)
    requires i < |msgs|
    ensures before + Joined(msgs[..i + 1]) == before + Joined(msgs[..i]) + msgs[i]
  {
    assert msgs[..i + 1][..i] == msgs[..i];
  }

  lemma {:induction false} JoinedPrefix(msgs: seq<seq<Byte>>, k: nat)
    requires k <= |msgs|
    ensures |Joined(msgs[..k])| <= |Joined(msgs)|
    decreases |msgs|
  {
    if k < |msgs| {
      JoinedPrefix(msgs[..|msgs| - 1], k);
      assert msgs[..|msgs| - 1][..k] == msgs[..k];
    } else {
      assert msgs[..k] == msgs;
    }
  }

  /** Each answer of a device that takes something counts, and none stops it. */
  lemma {:induction false} EagerDevice(answers: seq<Answer>, k: nat)
    requires k <= |answers| && forall i :: 0 <= i < |answers| ==> answers[i].n > 0 && !answers[i].stops
    ensures Positives(answers, k) == k && !Stops(answers, k) && Ready(answers, k) <= Ready(answers, |answers|)
    decreases |answers| - k, k
  {
    EagerPrefix(answers, k);
    if k < |answers| {
      EagerDevice(answers, k + 1);
    }
  }

  lemma {:induction false} EagerPrefix(answers: seq<Answer>, k: nat)
    requires k <= |answers| && forall i :: 0 <= i < |answers| ==> answers[i].n > 0 && !answers[i].stops
    ensures Positives(answers, k) == k && !Stops(answers, k)
  {
    if k > 0 {
      EagerPrefix(answers, k - 1);
    }
  }

  lemma FirstOf(queue: seq<Buf>, i: nat, c: nat)
    requires i < |queue|
    ensures Cost(queue[..i + 1], c) == Cost(queue[..i], c) + CostOf(queue[i], c)
    ensures Flow(queue[..i + 1]) == queue[i].data + Flow(queue[..i])
  {
    assert queue[..i + 1][..i] == queue[..i];
    CostLast(queue[..i + 1], c);
  }

  lemma CurrentToHeld(clients: map<nat, Client>, windows: map<nat, nat>, held: seq<Buf>, queue: seq<Buf>,
                      cur: Option<Buf>)
    requires Balanced(clients, windows, held, queue, cur) && Owned(clients, queue, cur) && cur.Some?
    ensures Balanced(clients, windows, held + [cur.value], queue, None) && Owned(clients, queue, None)
    ensures SelfCost(held + [cur.value]) == SelfCost(held) + CurSelfCost(cur)
  {
    HeldMore(held, cur.value);
  }

  lemma OldestToHeld(clients: map<nat, Client>, windows: map<nat, nat>, held: seq<Buf>, queue: seq<Buf>,
                     cur: Option<Buf>)
    requires Balanced(clients, windows, held, queue, cur) && Owned(clients, queue, cur) && queue != []
    ensures var rest, held' := queue[..|queue| - 1], held + [queue[|queue| - 1]];
            && Balanced(clients, windows, held', rest, cur) && Owned(clients, rest, cur)
            && SelfCost(held') + SelfCost(rest) == SelfCost(held) + SelfCost(queue)
  {
    QueueLess(queue);
    HeldMore(held, queue[|queue| - 1]);
  }

  /** The client after a reset of the device. */
  function Settled(client: Client): Client {
    Client(client.flow, client.tokens + client.free, 0, client.sendTokens + client.sendQueue, 0)
  }

  /** The buffers that are not from client `c`. */
  function Others(queue: seq<Buf>, c: nat): seq<Buf> {
    if queue == [] then []
    else (if queue[0].origin == FromClient(c) then [] else [queue[0]]) + Others(queue[1..], c)
  }

  lemma {:induction false} OthersCost(queue: seq<Buf>, c: nat)
    ensures forall d :: d != c ==> Cost(Others(queue, c), d) == Cost(queue, d)
    ensures SelfCost(Others(queue, c)) == SelfCost(queue)
    ensures forall b :: b in Others(queue, c) ==> b in queue && b.origin != FromClient(c)
    decreases |queue|
  {
    if queue != [] {
      OthersCost(queue[1..], c);
      var rest := Others(queue[1..], c);
      if queue[0].origin != FromClient(c) {
        assert ([queue[0]] + rest)[1..] == rest;
      } else {
        assert [] + rest == rest;
      }
    }
  }

  lemma RemovedAccounts(clients: map<nat, Client>, windows: map<nat, nat>, held: seq<Buf>, queue: seq<Buf>,
                        cur: Option<Buf>, c: nat, queue': seq<Buf>, cur': Option<Buf>)
    requires Balanced(clients, windows, held, queue, cur) && Owned(clients, queue, cur) && queue' == Others(queue, c)
    requires cur' == if cur.Some?
                        && cur.value.origin == FromClient(c) then Some(cur.value.(origin := NoOrigin)) else cur
    ensures Balanced(clients - {c}, windows, held, queue', cur') && Owned(clients - {c}, queue', cur')
    ensures SelfCost(queue') == SelfCost(queue) && CurSelfCost(cur') == CurSelfCost(cur)
  {
    OthersCost(queue, c);
    forall i | 0 <= i < |queue'| && queue'[i].origin.FromClient?
      ensures queue'[i].origin.client in clients - {c}
    {
      assert queue'[i] in queue;
    }
    forall d | d in clients - {c} && clients[d].flow
      ensures d in windows && Balance(clients[d], d, held, queue', cur') == windows[d]
    {
      assert Balance(clients[d], d, held, queue, cur) == windows[d];
    }
  }

  lemma {:induction false} NotTheirs(clients: map<nat, Client>, queue: seq<Buf>, cur: Option<Buf>, c: nat)
    requires Owned(clients, queue, cur) && c !in clients
    ensures Cost(queue, c) == 0 && CurCost(cur, c) == 0
    decreases |queue|
  {
    if queue != [] {
      NotTheirs(clients, queue[1..], cur, c);
    }
  }

  lemma HeldMore(held: seq<Buf>, b: Buf)
    ensures forall c :: Cost(held + [b], c) == Cost(held, c) + CostOf(b, c)
    ensures SelfCost(held + [b]) == SelfCost(held) + SelfCostOf(b)
  {
    forall c: nat
      ensures Cost(held + [b], c) == Cost(held, c) + CostOf(b, c)
    {
      CostAppend(held, [b], c);
      CostOne(b, c);
    }
    CostAppend(held, [b], 0);
    CostOne(b, 0);
  }

  lemma HeldLess(held: seq<Buf>, i: nat)
    requires i < |held|
    ensures forall c :: Cost(held[..i] + held[i + 1..], c) + CostOf(held[i], c) == Cost(held, c)
    ensures SelfCost(held[..i] + held[i + 1..]) + SelfCostOf(held[i]) == SelfCost(held)
  {
    forall c: nat
      ensures Cost(held[..i] + held[i + 1..], c) + CostOf(held[i], c) == Cost(held, c)
    {
      CostWithout(held, i, c);
    }
    CostWithout(held, i, 0);
  }

  lemma QueueMore(queue: seq<Buf>, b: Buf)
    ensures forall c :: Cost([b] + queue, c) == Cost(queue, c) + CostOf(b, c)
    ensures SelfCost([b] + queue) == SelfCost(queue) + SelfCostOf(b)
  {
    assert ([b] + queue)[1..] == queue;
  }

  lemma QueueLess(queue: seq<Buf>)
    requires queue != []
    ensures var rest, b := queue[..|queue| - 1], queue[|queue| - 1];
            && (forall c :: Cost(queue, c) == Cost(rest, c) + CostOf(b, c))
            && SelfCost(queue) == SelfCost(rest) + SelfCostOf(b)
  {
    forall c: nat
      ensures Cost(queue, c) == Cost(queue[..|queue| - 1], c) + CostOf(queue[|queue| - 1], c)
    {
      CostLast(queue, c);
    }
    CostLast(queue, 0);
  }
}
