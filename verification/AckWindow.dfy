/**
 Flow control of a channel by acknowledgements: the server counts messages in a
 window, the client acknowledges every `window` messages of the generation it has
 last been told about, and both directions keep their order.
 */
module AckWindow {
  import opened Basics

  /** A message to the client; data messages belong to the generation of the last SET_ACK before them. */
  datatype Down = SetAck(generation: nat) | Data(generation: nat)

  /** A message to the server; acknowledgements belong to the generation the client is in. */
  datatype Up = AckSync(generation: nat) | Ack(generation: nat)

  /** Generations on the way to the client only grow, and end at `end`. */
  ghost predicate DownOk(start: int, down: seq<Down>, end: int)
    decreases |down|
  {
    if down == [] then start == end
    else match down[0]
         case SetAck(g) => start < g && DownOk(g, down[1..], end)
         case Data(g) => g == start && DownOk(start, down[1..], end)
  }

  /** And so on the way back: acknowledgements follow the ACK_SYNC of their generation. */
  ghost predicate UpOk(start: int, up: seq<Up>, end: int)
    decreases |up|
  {
    if up == [] then start == end
    else match up[0]
         case AckSync(g) => start < g && UpOk(g, up[1..], end)
         case Ack(g) => g == start && UpOk(start, up[1..], end)
  }

  /** The messages of a generation. */
  ghost function CountDown(down: seq<Down>, g: int): nat {
    if down == [] then 0 else (if down[0].generation == g then 1 else 0) + CountDown(down[1..], g)
  }

  /** The acknowledgements of a generation. */
  ghost function CountAcks(up: seq<Up>, g: int): nat {
    if up == [] then 0 else (if up[0].Ack? && up[0].generation == g then 1 else 0) + CountAcks(up[1..], g)
  }

  lemma {:induction false} DownAppend(start: int, down: seq<Down>, end: int, m: Down, g: int)
    requires DownOk(start, down, end) && (if m.SetAck? then end < m.generation else m.generation == end)
    ensures DownOk(start, down + [m], m.generation)
    ensures CountDown(down + [m], g) == CountDown(down, g) + (if m.generation == g then 1 else 0)
    decreases |down|
  {
    if down == [] {
      assert (down + [m])[1..] == [];
    } else {
      assert (down + [m])[1..] == down[1..] + [m];
      DownAppend(if down[0].SetAck? then down[0].generation else start, down[1..], end, m, g);
    }
  }

  lemma {:induction false} UpAppend(start: int, up: seq<Up>, end: int, m: Up, g: int)
    requires UpOk(start, up, end) && (if m.AckSync? then end < m.generation else m.generation == end)
    ensures UpOk(start, up + [m], m.generation)
    ensures CountAcks(up + [m], g) == CountAcks(up, g) + (if m.Ack? && m.generation == g then 1 else 0)
    decreases |up|
  {
    if up == [] {
      assert (up + [m])[1..] == [];
    } else {
      assert (up + [m])[1..] == up[1..] + [m];
      UpAppend(if up[0].AckSync? then up[0].generation else start, up[1..], end, m, g);
    }
  }

  lemma {:induction false} DownGrows(start: int, down: seq<Down>, end: int)
    requires DownOk(start, down, end)
    ensures start <= end
    decreases |down|
  {
    if down != [] {
      DownGrows(if down[0].SetAck? then down[0].generation else start, down[1..], end);
    }
  }

  /** Nothing of a later generation is under way. */
  lemma {:induction false} NoneLater(start: int, down: seq<Down>, end: int, up: seq<Up>, from: int, upEnd: int, g: int)
    requires DownOk(start, down, end) && UpOk(from, up, upEnd) && end < g && upEnd < g
    ensures CountDown(down, g) == 0 && CountAcks(up, g) == 0
    decreases |down| + |up|
  {
    if down != [] {
      DownGrows(start, down, end);
      NoneLater(if down[0].SetAck? then down[0].generation else start, down[1..], end, up, from, upEnd, g);
      DownGrows(if down[0].SetAck? then down[0].generation else start, down[1..], end);
    } else if up != [] {
      UpGrows(from, up, upEnd);
      NoneLater(start, down, end, up[1..], if up[0].AckSync? then up[0].generation else from, upEnd, g);
      UpGrows(if up[0].AckSync? then up[0].generation else from, up[1..], upEnd);
    }
  }

  lemma NoAcksLater(start: int, up: seq<Up>, end: int, g: int)
    requires UpOk(start, up, end) && end < g
    ensures CountAcks(up, g) == 0
  {
    NoneLater(end, [], end, up, start, end, g);
  }

  /** The next message to the client. */
  lemma DownHead(start: int, down: seq<Down>, end: int)
    requires DownOk(start, down, end) && down != []
    ensures var m := down[0];
            && (if m.SetAck? then start < m.generation else m.generation == start)
            && DownOk(m.generation, down[1..], end)
            && CountDown(down, end) == (if m.generation == end then 1 else 0) + CountDown(down[1..], end)
  {
  }

  lemma {:induction false} UpGrows(start: int, up: seq<Up>, end: int)
    requires UpOk(start, up, end)
    ensures start <= end
    decreases |up|
  {
    if up != [] {
      UpGrows(if up[0].AckSync? then up[0].generation else start, up[1..], end);
    }
  }

  /** The client: its generation, its acknowledgements of it, and the messages since the last one. */
  datatype Client = Client(generation: int, acks: nat, filled: nat)

  /** What the client has received of generation `g`. */
  ghost function ReceivedOf(client: Client, g: int, window: nat): nat {
    if client.generation == g then window * client.acks + client.filled else 0
  }

  ghost function AcksOf(client: Client, g: int): nat {
    if client.generation == g then client.acks else 0
  }

  lemma Monotone(w: nat, a: nat, b: nat)
    requires a <= b
    ensures w * a <= w * b && w * (a + 1) == w * a + w
  {
  }

  class RedChannelClient {
    const clientWindow: nat
    var generation: nat
    /** The generation that the client has last synced to, or -1. */
    var clientGeneration: int
    var messagesWindow: nat

    ghost var down: seq<Down>
    ghost var up: seq<Up>
    ghost var client: Client
    /** Messages sent since the last SET_ACK, itself included, and acknowledgements of its generation accepted. */
    ghost var sent: nat
    ghost var accepted: nat

    ghost predicate Valid()
      reads this
    {
      && 0 < clientWindow && 2 * clientWindow + 2 < UINT32
      && DownOk(client.generation, down, generation)
      && UpOk(clientGeneration, up, client.generation)
      && client.filled < clientWindow
      && sent == ReceivedOf(client, generation, clientWindow) + CountDown(down, generation)
      && accepted + CountAcks(up, generation) == AcksOf(client, generation)
      && messagesWindow == sent - clientWindow * accepted
      && messagesWindow <= 2 * clientWindow + 2
    }

    /** The connection after its first message, a SET_ACK. */
    constructor (clientWindow: nat)
      requires 0 < clientWindow && 2 * clientWindow + 2 < UINT32
      ensures Valid() && generation == 1 && sent == 1 && accepted == 0 && messagesWindow == 1
    {
      this.clientWindow, generation, clientGeneration, messagesWindow := clientWindow, 1, -1, 1;
      down, up, client, sent, accepted := [SetAck(1)], [], Client(-1, 0, 0), 1, 0;
      new;
      assert [SetAck(1)][1..] == [];
    }

    /** waiting_for_ack. */
    predicate WaitingForAck()
      reads this
    {
      messagesWindow > clientWindow * 2
    }

    /** begin_send_message for a data message. */
    method BeginSendMessage()
      requires Valid() && messagesWindow < 2 * clientWindow + 2
      modifies this`messagesWindow, this`down, this`sent
      ensures Valid() && messagesWindow == old(messagesWindow) + 1
      ensures sent == old(sent) + 1 && down == old(down) + [Data(generation)]
    {
      DownAppend(client.generation, down, generation, Data(generation), generation);
      down := down + [Data(generation)];
      sent := sent + 1;
      messagesWindow := (messagesWindow + 1) % UINT32;
    }

    /** An item of the pipe, sent only when the window is open; it may be preceded by an urgent message. */
    method SendItem(urgent: bool) returns (ok: bool)
      requires Valid()
      modifies this`messagesWindow, this`down, this`sent
      ensures Valid() && ok == !old(WaitingForAck())
      ensures var n := if !ok then 0 else if urgent then 2 else 1;
              && sent == old(sent) + n && messagesWindow == old(messagesWindow) + n
              && down == old(down) + [Data(generation), Data(generation)][..n]
    {
      ok := !WaitingForAck();
      if ok {
        if urgent {
          BeginSendMessage();
        }
        BeginSendMessage();
      }
    }

    /** send_set_ack, from the pipe like any other item. */
    method SendSetAck() returns (ok: bool)
      requires Valid()
      modifies this`generation, this`messagesWindow, this`down, this`sent, this`accepted
      ensures Valid() && ok == !old(WaitingForAck())
      ensures ok ==> generation == old(generation) + 1 && sent == 1 && accepted == 0 && messagesWindow == 1
      ensures ok ==> down == old(down) + [SetAck(generation)]
      ensures !ok ==> generation == old(generation) && messagesWindow == old(messagesWindow) && down == old(down)
      ensures !ok ==> sent == old(sent) && accepted == old(accepted)
    {
      ok := !WaitingForAck();
      if ok {
        DownGrows(client.generation, down, generation);
        NoneLater(client.generation, down, generation, up, clientGeneration, client.generation, generation + 1);
        DownAppend(client.generation, down, generation, SetAck(generation + 1), generation + 1);
        generation := generation + 1;
        messagesWindow := 0;
        down := down + [SetAck(generation)];
        sent, accepted := 1, 0;
        messagesWindow := (messagesWindow + 1) % UINT32;
      }
    }

    /** The client takes its next message, and acknowledges when a window is full. */
    ghost method ClientReceives()
      requires Valid() && down != []
      modifies this`down, this`up, this`client
      ensures Valid() && down == old(down)[1..]
    {
      hide DownOk, UpOk, CountDown, CountAcks;
      DownHead(client.generation, down, generation);
      var m := down[0];
      down := down[1..];
      DownGrows(if m.SetAck? then m.generation else client.generation, down, generation);
      if m.SetAck? {
        UpAppend(clientGeneration, up, client.generation, AckSync(m.generation), generation);
        NoAcksLater(clientGeneration, up, client.generation, m.generation);
        up := up + [AckSync(m.generation)];
        client := Client(m.generation, 0, 0);
      }
      client := client.(filled := client.filled + 1);
      if client.filled == clientWindow {
        UpAppend(clientGeneration, up, client.generation, Ack(m.generation), generation);
        Monotone(clientWindow, client.acks, client.acks);
        up := up + [Ack(m.generation)];
        client := client.(acks := client.acks + 1, filled := 0);
      }
    }

    /**
     handle_message for ACK_SYNC and ACK: an acknowledgement of an earlier generation
     is ignored, and one of the current generation never makes the window negative.
     */
    method HandleAck(m: Up)
      requires Valid() && up != [] && m == up[0]
      modifies this`clientGeneration, this`messagesWindow, this`up, this`accepted
      ensures Valid() && up == old(up)[1..]
      ensures m.Ack? && m.generation != generation ==>
                messagesWindow == old(messagesWindow) && accepted == old(accepted)
      ensures m.Ack? && m.generation == generation ==>
                messagesWindow == old(messagesWindow) - clientWindow && accepted == old(accepted) + 1
    {
      ghost var before := up;
      up := up[1..];
      if m.AckSync? {
        clientGeneration := m.generation;
      } else if clientGeneration == generation {
        Monotone(clientWindow, accepted + 1, client.acks);
        Monotone(clientWindow, accepted, accepted);
        messagesWindow := (messagesWindow - clientWindow) % UINT32;
        accepted := accepted + 1;
      }
    }
  }

  /** A channel with nothing under way is not waiting for an acknowledgement. */
  lemma NeverStuck(c: RedChannelClient)
    requires c.Valid() && c.down == [] && c.up == []
    ensures c.messagesWindow < c.clientWindow && !c.WaitingForAck()
  {
  }
}
