/**
 The incoming side of a channel: bytes arrive in pieces of any size, buffers may
 have to wait, and messages come out whole and in order.
 */
module Framing {
  import opened Basics

  datatype Msg = Msg(kind: nat, body: seq<Byte>)

  /** What one read from the stream gives. */
  datatype Read = Bytes(data: seq<Byte>) | Again | Interrupted | Closed

  /** What the channel answers when asked for a buffer: here, later, or never. */
  datatype Alloc = Granted | Blocked | Refused

  // ----- Headers, little endian -----

  /** SpiceMiniDataHeader is 6 bytes, SpiceDataHeader is 18. */
  function HeaderSize(mini: bool): nat {
    if mini then 6 else 18
  }

  /** The type comes first, or after the 64-bit serial. */
  function TypeAt(mini: bool): nat {
    if mini then 0 else 8
  }

  function TypeOf(mini: bool, header: seq<Byte>): nat
    requires |header| >= HeaderSize(mini)
  {
    var i := TypeAt(mini);
    (header[i] as int) + (header[i + 1] as int) * 0x100
  }

  function SizeOf(mini: bool, header: seq<Byte>): nat
    requires |header| >= HeaderSize(mini)
  {
    var i := TypeAt(mini) + 2;
    (header[i] as int) + (header[i + 1] as int) * 0x100 + (header[i + 2] as int) * 0x1_0000
    + (header[i + 3] as int) * 0x100_0000
  }

  // ----- Parsing everything at once -----

  /** The complete messages at the start of some bytes. */
  function ParseAll(mini: bool, bs: seq<Byte>): seq<Msg>
    decreases |bs|
  {
    var h := HeaderSize(mini);
    if |bs| < h || |bs| < h + SizeOf(mini, bs[..h]) then []
    else
      var n := h + SizeOf(mini, bs[..h]);
      [Msg(TypeOf(mini, bs[..h]), bs[h..n])] + ParseAll(mini, bs[n..])
  }

  /** The bytes are exactly one message. */
  predicate IsFrame(mini: bool, f: seq<Byte>) {
    var h := HeaderSize(mini);
    |f| >= h && |f| == h + SizeOf(mini, f[..h])
  }

  function MsgOf(mini: bool, f: seq<Byte>): Msg
    requires IsFrame(mini, f)
  {
    var h := HeaderSize(mini);
    Msg(TypeOf(mini, f[..h]), f[h..])
  }

  ghost predicate AllFrames(mini: bool, frames: seq<seq<Byte>>) {
    forall i :: 0 <= i < |frames| ==> IsFrame(mini, frames[i])
  }

  /** Some messages one after the other. */
  ghost function Flat(frames: seq<seq<Byte>>): seq<Byte> {
    if frames == [] then [] else Flat(frames[..|frames| - 1]) + frames[|frames| - 1]
  }

  ghost function MsgsOf(mini: bool, frames: seq<seq<Byte>>): seq<Msg>
    requires AllFrames(mini, frames)
  {
    if frames == [] then [] else MsgsOf(mini, frames[..|frames| - 1]) + [MsgOf(mini, frames[|frames| - 1])]
  }

  lemma OneFrame(mini: bool, f: seq<Byte>, rest: seq<Byte>)
    requires IsFrame(mini, f)
    ensures ParseAll(mini, f + rest) == [MsgOf(mini, f)] + ParseAll(mini, rest)
  {
    var h, n, all := HeaderSize(mini), |f|, f + rest;
    assert all[..h] == f[..h] && all[h..n] == f[h..] && all[n..] == rest;
  }

  /** Parsing some messages and then anything else gives those messages first. */
  lemma {:induction false} ParseFrames(mini: bool, frames: seq<seq<Byte>>, rest: seq<Byte>)
    requires AllFrames(mini, frames)
    ensures ParseAll(mini, Flat(frames) + rest) == MsgsOf(mini, frames) + ParseAll(mini, rest)
    decreases |frames|
  {
    if frames == [] {
      assert Flat(frames) + rest == rest;
    } else {
      var front, f := frames[..|frames| - 1], frames[|frames| - 1];
      ParseFrames(mini, front, f + rest);
      OneFrame(mini, f, rest);
      AppendAssociates(Flat(front), f, rest);
      AppendAssociates(MsgsOf(mini, front), [MsgOf(mini, f)], ParseAll(mini, rest));
    }
  }

  /** Bytes that do not reach the end of a message are none. */
  lemma ParsePartial(mini: bool, part: seq<Byte>)
    requires |part| < HeaderSize(mini) || |part| < HeaderSize(mini) + SizeOf(mini, part[..HeaderSize(mini)])
    ensures ParseAll(mini, part) == []
  {
  }

  // ----- Messages that end the connection -----

  /** The messages that are handed over: up to one that does not parse, or with one that is refused. */
  function Upto(msgs: seq<Msg>, parses: Msg -> bool, handles: Msg -> bool): seq<Msg> {
    if msgs == [] || !parses(msgs[0]) then []
    else if !handles(msgs[0]) then [msgs[0]]
    else [msgs[0]] + Upto(msgs[1..], parses, handles)
  }

  lemma {:induction false} UptoAppend(a: seq<Msg>, b: seq<Msg>, parses: Msg -> bool, handles: Msg -> bool)
    requires forall i :: 0 <= i < |a| ==> parses(a[i]) && handles(a[i])
    ensures Upto(a + b, parses, handles) == a + Upto(b, parses, handles)
  {
    if a == [] {
      assert a + b == b;
    } else {
      assert (a + b)[1..] == a[1..] + b;
      UptoAppend(a[1..], b, parses, handles);
    }
  }

  // ----- The stream -----

  /** The bytes that are still to come. */
  ghost function Left(stream: seq<Read>): seq<Byte> {
    if stream == [] then []
    else match stream[0]
         case Bytes(data) => data + Left(stream[1..])
         case Closed => []
         case _ => Left(stream[1..])
  }

  /** A read that gives bytes gives at least one. */
  ghost predicate StreamOk(stream: seq<Read>) {
    forall i :: 0 <= i < |stream| && stream[i].Bytes? ==> stream[i].data != []
  }

  /** How often the socket will say that it has nothing for now. */
  ghost function Agains(stream: seq<Read>): nat {
    if stream == [] then 0 else (if stream[0].Again? then 1 else 0) + Agains(stream[1..])
  }

  /** How often a buffer will have to wait. */
  ghost function Blocks(allocs: seq<Alloc>): nat {
    if allocs == [] then 0 else (if allocs[0].Blocked? then 1 else 0) + Blocks(allocs[1..])
  }

  ghost function Refusals(allocs: seq<Alloc>): nat {
    if allocs == [] then 0 else (if allocs[0].Refused? then 1 else 0) + Refusals(allocs[1..])
  }

  ghost predicate NeverCloses(stream: seq<Read>) {
    forall i :: 0 <= i < |stream| ==> !stream[i].Closed?
  }

  ghost predicate NeverRefuses(allocs: seq<Alloc>) {
    forall i :: 0 <= i < |allocs| ==> !allocs[i].Refused?
  }

  /** The socket has said that it has nothing for now, once, or it has given everything. */
  ghost predicate Paused(was: seq<Read>, now: seq<Read>) {
    Agains(now) + 1 == Agains(was) || (now == [] && Agains(was) == 0)
  }

  /** The reasons to stop before the connection ends: the socket has paused, or a buffer has to wait. */
  ghost predicate Waits(stream: seq<Read>, allocs: seq<Alloc>, stream': seq<Read>, allocs': seq<Alloc>) {
    || (Paused(stream, stream') && Blocks(allocs') == Blocks(allocs))
    || (Agains(stream') == Agains(stream) && Blocks(allocs') + 1 == Blocks(allocs))
  }

  /** The reasons to end the connection: the socket is closed, a buffer was refused, or a message was bad. */
  ghost predicate Ends(stream: seq<Read>, allocs: seq<Alloc>, allocs': seq<Alloc>, fine: bool) {
    (stream != [] && stream[0].Closed?) || Refusals(allocs') + 1 == Refusals(allocs) || !fine
  }

  /** Every message among the bytes parses and is handled. */
  ghost predicate AllFine(mini: bool, bs: seq<Byte>, parses: Msg -> bool, handles: Msg -> bool) {
    var msgs := ParseAll(mini, bs);
    forall i :: 0 <= i < |msgs| ==> parses(msgs[i]) && handles(msgs[i])
  }

  /** More bytes only add messages. */
  lemma {:induction false} ParsePrefix(mini: bool, bs: seq<Byte>, more: seq<Byte>)
    ensures ParseAll(mini, bs) <= ParseAll(mini, bs + more)
    decreases |bs|
  {
    hide SizeOf, TypeOf;
    var h, all := HeaderSize(mini), bs + more;
    if |bs| >= h {
      assert all[..h] == bs[..h];
      var n := h + SizeOf(mini, bs[..h]);
      if |bs| >= n {
        assert all[h..n] == bs[h..n] && all[n..] == bs[n..] + more;
        ParsePrefix(mini, bs[n..], more);
      }
    }
  }

  lemma FineBefore(mini: bool, bs: seq<Byte>, more: seq<Byte>, parses: Msg -> bool, handles: Msg -> bool)
    requires AllFine(mini, bs + more, parses, handles)
    ensures AllFine(mini, bs, parses, handles)
  {
    ParsePrefix(mini, bs, more);
    var msgs, all := ParseAll(mini, bs), ParseAll(mini, bs + more);
    assert forall i :: 0 <= i < |msgs| ==> msgs[i] == all[i];
  }

  lemma UptoAll(msgs: seq<Msg>, parses: Msg -> bool, handles: Msg -> bool)
    requires forall i :: 0 <= i < |msgs| ==> parses(msgs[i]) && handles(msgs[i])
    ensures Upto(msgs, parses, handles) == msgs
  {
    UptoAppend(msgs, [], parses, handles);
    assert msgs + [] == msgs;
  }

  /** The bytes of a message that is not complete yet. */
  ghost function Partial(header: seq<Byte>, msg: Option<seq<Byte>>): seq<Byte> {
    header + (if msg.Some? then msg.value else [])
  }

  /** The message that is coming in has not reached its end. */
  ghost predicate Incomplete(mini: bool, header: seq<Byte>, msg: Option<seq<Byte>>) {
    && |header| <= HeaderSize(mini)
    && if |header| < HeaderSize(mini) then msg.None?
       else (if msg.Some? then |msg.value| else 0) < SizeOf(mini, header)
  }

  lemma IncompleteIsPartial(mini: bool, header: seq<Byte>, msg: Option<seq<Byte>>)
    requires Incomplete(mini, header, msg)
    ensures ParseAll(mini, Partial(header, msg)) == []
  {
    var part := Partial(header, msg);
    if |header| == HeaderSize(mini) {
      assert part[..HeaderSize(mini)] == header;
    }
    ParsePartial(mini, part);
  }

  /** What has come in is whole messages, all fine, and the start of another one. */
  ghost predicate Consistent(mini: bool, received: seq<Byte>, frames: seq<seq<Byte>>, part: seq<Byte>,
                             delivered: seq<Msg>, parses: Msg -> bool, handles: Msg -> bool) {
    && AllFrames(mini, frames) && received == Flat(frames) + part && delivered == MsgsOf(mini, frames)
    && forall i :: 0 <= i < |delivered| ==> parses(delivered[i]) && handles(delivered[i])
  }

  /** So parsing everything at once gives the same messages. */
  lemma SameMessages(mini: bool, received: seq<Byte>, frames: seq<seq<Byte>>, part: seq<Byte>, delivered: seq<Msg>,
                     parses: Msg -> bool, handles: Msg -> bool)
    requires Consistent(mini, received, frames, part, delivered, parses, handles)
    ensures ParseAll(mini, received) == delivered + ParseAll(mini, part)
    ensures Upto(ParseAll(mini, received), parses, handles) == delivered + Upto(ParseAll(mini, part), parses, handles)
  {
    ParseFrames(mini, frames, part);
    UptoAppend(delivered, ParseAll(mini, part), parses, handles);
  }

  lemma FrameParsed(mini: bool, received: seq<Byte>, frames: seq<seq<Byte>>, f: seq<Byte>, delivered: seq<Msg>,
                    parses: Msg -> bool, handles: Msg -> bool)
    requires Consistent(mini, received, frames, f, delivered, parses, handles) && IsFrame(mini, f)
    ensures ParseAll(mini, received) == delivered + [MsgOf(mini, f)]
  {
    ParseFrames(mini, frames, f);
    OneFrame(mini, f, []);
    assert f + [] == f && ParseAll(mini, []) == [];
  }

  lemma FrameAdded(mini: bool, received: seq<Byte>, frames: seq<seq<Byte>>, f: seq<Byte>, delivered: seq<Msg>,
                   parses: Msg -> bool, handles: Msg -> bool)
    requires Consistent(mini, received, frames, f, delivered, parses, handles) && IsFrame(mini, f)
    requires parses(MsgOf(mini, f)) && handles(MsgOf(mini, f))
    ensures Consistent(mini, received, frames + [f], [], delivered + [MsgOf(mini, f)], parses, handles)
  {
    assert (frames + [f])[..|frames|] == frames;
    assert Flat(frames) + f + [] == Flat(frames) + f;
  }

  lemma FrameEnds(mini: bool, received: seq<Byte>, frames: seq<seq<Byte>>, f: seq<Byte>, delivered: seq<Msg>,
                  parses: Msg -> bool, handles: Msg -> bool)
    requires Consistent(mini, received, frames, f, delivered, parses, handles) && IsFrame(mini, f)
    ensures var m := MsgOf(mini, f);
            && Upto(ParseAll(mini, received), parses, handles) == delivered + (if parses(m) then [m] else [])
            && (parses(m) && handles(m) ==>
                  Consistent(mini, received, frames + [f], [], delivered + [m], parses, handles))
            && (!parses(m) || !handles(m) ==> !AllFine(mini, received, parses, handles))
  {
    var m := MsgOf(mini, f);
    FrameParsed(mini, received, frames, f, delivered, parses, handles);
    UptoAppend(delivered, [m], parses, handles);
    assert [m][1..] == [];
    if parses(m) && handles(m) {
      FrameAdded(mini, received, frames, f, delivered, parses, handles);
    } else {
      assert ParseAll(mini, received)[|delivered|] == m;
    }
  }

  class IncomingChannel {
    const mini: bool
    const parses: Msg -> bool
    const handles: Msg -> bool
    var connected: bool
    var header: seq<Byte>
    /** The message buffer as far as it is filled; `None` before it is allocated. */
    var msg: Option<seq<Byte>>
    /** The reads that the socket will give, and the channel's answers to requests for a buffer. */
    var stream: seq<Read>
    var allocs: seq<Alloc>
    /** The messages passed to handle_message. */
    var delivered: seq<Msg>

    ghost var received: seq<Byte>
    ghost var frames: seq<seq<Byte>>

    ghost predicate Open()
      reads this
    {
      && StreamOk(stream)
      && Consistent(mini, received, frames, Partial(header, msg), delivered, parses, handles)
    }

    /** Whatever the pieces were, the messages are those of parsing all received bytes at once. */
    ghost predicate Valid()
      reads this
    {
      && delivered == Upto(ParseAll(mini, received), parses, handles)
      && (connected ==> Open() && Incomplete(mini, header, msg))
    }

    constructor (mini: bool, parses: Msg -> bool, handles: Msg -> bool, stream: seq<Read>, allocs: seq<Alloc>)
      requires StreamOk(stream)
      ensures Valid() && connected && delivered == [] && received == []
      ensures this.mini == mini && this.parses == parses && this.handles == handles
      ensures this.stream == stream && this.allocs == allocs
    {
      this.mini, this.parses, this.handles, this.stream, this.allocs := mini, parses, handles, stream, allocs;
      connected, header, msg, delivered, received, frames := true, [], None, [], [], [];
    }

    /** red_stream_read when the socket has bytes: as many as fit, the rest stays. */
    method TakeBytes(size: nat) returns (now: seq<Byte>)
      requires StreamOk(stream) && stream != [] && stream[0].Bytes? && size > 0
      modifies this`stream
      ensures StreamOk(stream) && old(Left(stream)) == now + Left(stream)
      ensures 0 < |now| <= size && |stream| <= |old(stream)|
      ensures Agains(stream) == Agains(old(stream)) && (NeverCloses(old(stream)) ==> NeverCloses(stream))
    {
      var data := stream[0].data;
      if size < |data| {
        now := data[..size];
        var kept := [Bytes(data[size..])] + stream[1..];
        assert kept[1..] == stream[1..] && data == now + data[size..];
        AppendAssociates(now, data[size..], Left(stream[1..]));
        stream := kept;
      } else {
        now := data;
        stream := stream[1..];
      }
    }

    /** red_peer_receive: reads until `size` bytes are there or the socket has no more for now. */
    method PeerReceive(size: nat) returns (data: seq<Byte>, error: bool)
      requires StreamOk(stream)
      modifies this`stream
      ensures StreamOk(stream) && old(Left(stream)) == data + Left(stream) && |data| <= size
      ensures error ==> |data| < size && !NeverCloses(old(stream)) && stream != [] && stream[0].Closed?
      ensures NeverCloses(old(stream)) ==> NeverCloses(stream)
      ensures if |data| == size then Agains(stream) == Agains(old(stream)) else error || Paused(old(stream), stream)
    {
      data, error := [], false;
      while |data| < size && !error
        invariant StreamOk(stream) && old(Left(stream)) == data + Left(stream) && |data| <= size
        invariant NeverCloses(old(stream)) ==> NeverCloses(stream)
        invariant error ==> |data| < size && !NeverCloses(old(stream)) && stream != [] && stream[0].Closed?
        invariant Agains(stream) == Agains(old(stream))
        decreases |stream|, size - |data|, !error
      {
        if stream == [] {
          return;
        } else if stream[0].Bytes? {
          var now := TakeBytes(size - |data|);
          AppendAssociates(data, now, Left(stream));
          data := data + now;
        } else if stream[0].Closed? {
          error := true;
        } else {
          var again := stream[0].Again?;
          stream := stream[1..];
          if again {
            return;
          }
        }
      }
    }

    /** Bytes that have come in but do not complete a message change nothing yet. */
    lemma NothingNew()
      requires Open() && Incomplete(mini, header, msg)
      ensures delivered == Upto(ParseAll(mini, received), parses, handles)
    {
      IncompleteIsPartial(mini, header, msg);
      SameMessages(mini, received, frames, Partial(header, msg), delivered, parses, handles);
    }

    /** The header part of the loop of handle_incoming; `ready` when the header is complete. */
    method FillHeader() returns (ready: bool)
      requires Valid() && connected && |header| < HeaderSize(mini)
      modifies this`connected, this`header, this`stream, this`received
      ensures received + Left(stream) == old(received + Left(stream))
      ensures !ready ==> Valid()
      ensures ready ==>
                connected && Open() && |header| == HeaderSize(mini) && msg.None? && |Left(stream)| < |old(Left(stream))|
      ensures NeverCloses(old(stream)) ==> connected && NeverCloses(stream)
      ensures !connected ==> stream != [] && stream[0].Closed?
      ensures if ready then Agains(stream) == Agains(old(stream)) else connected ==> Paused(old(stream), stream)
    {
      var data, error := PeerReceive(HeaderSize(mini) - |header|);
      AppendAssociates(received, data, Left(stream));
      AppendAssociates(Flat(frames), Partial(header, msg), data);
      assert Partial(header, msg) + data == Partial(header + data, msg);
      received := received + data;
      header := header + data;
      ready := !error && |header| == HeaderSize(mini);
      if !ready {
        NothingNew();
        connected := !error;
      }
    }

    /** Asks the channel for a buffer; a refusal ends the connection, a block only this call. */
    method AllocBuffer()
      requires connected && Open() && Incomplete(mini, header, msg) && |header| == HeaderSize(mini) && msg.None?
      modifies this`connected, this`msg, this`allocs
      ensures Valid() && (msg.Some? ==> connected && msg.value == [])
      ensures NeverRefuses(old(allocs)) ==> connected && NeverRefuses(allocs)
      ensures connected ==> Blocks(allocs) + (if msg.Some? then 0 else 1) == Blocks(old(allocs))
      ensures Refusals(allocs) + (if connected then 0 else 1) == Refusals(old(allocs))
    {
      var answer := Granted;
      if allocs != [] {
        answer, allocs := allocs[0], allocs[1..];
      }
      NothingNew();
      if answer == Granted {
        assert Partial(header, msg) == Partial(header, Some([]));
        msg := Some([]);
      } else {
        connected := answer == Blocked;
      }
    }

    /** Fills the buffer as far as the socket allows. */
    method ReadBody() returns (ready: bool)
      requires connected && Open() && Incomplete(mini, header, msg) && |header| == HeaderSize(mini) && msg.Some?
      modifies this`connected, this`msg, this`stream, this`received
      ensures received + Left(stream) == old(received + Left(stream))
      ensures !ready ==> Valid()
      ensures ready ==>
                connected && Open() && msg.Some? && |msg.value| == SizeOf(mini, header)
                && |Left(stream)| < |old(Left(stream))|
      ensures NeverCloses(old(stream)) ==> connected && NeverCloses(stream)
      ensures !connected ==> stream != [] && stream[0].Closed?
      ensures if ready then Agains(stream) == Agains(old(stream)) else connected ==> Paused(old(stream), stream)
    {
      var data, error := PeerReceive(SizeOf(mini, header) - |msg.value|);
      AppendAssociates(received, data, Left(stream));
      AppendAssociates(Flat(frames), Partial(header, msg), data);
      assert Partial(header, msg) + data == Partial(header, Some(msg.value + data));
      received := received + data;
      msg := Some(msg.value + data);
      ready := !error && |msg.value| == SizeOf(mini, header);
      if !ready {
        NothingNew();
        connected := !error;
      }
    }

    /** The body part of the loop of handle_incoming. */
    method FillBody() returns (ready: bool)
      requires connected && Open() && |header| == HeaderSize(mini) && Incomplete(mini, header, msg)
      modifies this`connected, this`msg, this`stream, this`allocs, this`received
      ensures received + Left(stream) == old(received + Left(stream))
      ensures !ready ==> Valid()
      ensures ready ==>
                connected && Open() && msg.Some? && |msg.value| == SizeOf(mini, header)
                && |Left(stream)| < |old(Left(stream))|
      ensures NeverCloses(old(stream)) && NeverRefuses(old(allocs)) ==>
                connected && NeverCloses(stream) && NeverRefuses(allocs)
      ensures connected ==> Refusals(allocs) == Refusals(old(allocs))
      ensures !connected ==> Ends(stream, old(allocs), allocs, true)
      ensures if ready then Agains(stream) == Agains(old(stream)) && Blocks(allocs) == Blocks(old(allocs))
              else connected ==> Waits(old(stream), old(allocs), stream, allocs)
    {
      ready := false;
      if msg.None? {
        AllocBuffer();
      }
      if msg.Some? {
        ready := ReadBody();
      }
    }

    /** A complete message is parsed and handled, and the next one can start. */
    method Deliver()
      requires connected && Open() && IsFrame(mini, Partial(header, msg)) && |header| == HeaderSize(mini)
      modifies this`connected, this`header, this`msg, this`delivered, this`frames
      ensures Valid() && (AllFine(mini, received, parses, handles) ==> connected)
    {
      hide SizeOf, TypeOf;
      ghost var f := Partial(header, msg);
      assert f[..HeaderSize(mini)] == header && f[HeaderSize(mini)..] == if msg.Some? then msg.value else [];
      var m := Msg(TypeOf(mini, header), if msg.Some? then msg.value else []);
      FrameEnds(mini, received, frames, f, delivered, parses, handles);
      msg, header := None, [];
      if !parses(m) {
        assert delivered + [] == delivered;
        connected := false;
      } else {
        delivered := delivered + [m];
        frames := frames + [f];
        connected := handles(m);
      }
    }

    /** Neither end closes the connection, and nothing of what comes gives a reason to. */
    ghost predicate Smooth()
      reads this
    {
      NeverCloses(stream) && NeverRefuses(allocs) && AllFine(mini, received + Left(stream), parses, handles)
    }

    /** One turn of the loop of handle_incoming; `more` when a message has been handled. */
    method NextMessage() returns (more: bool)
      requires Valid() && connected
      modifies this`connected, this`header, this`msg, this`stream, this`allocs, this`delivered, this`received
      modifies this`frames
      ensures Valid() && received + Left(stream) == old(received + Left(stream))
      ensures old(Smooth()) ==> connected && Smooth()
      ensures !connected ==> Ends(stream, old(allocs), allocs, AllFine(mini, received, parses, handles))
      ensures if more then
                && Agains(stream) == Agains(old(stream)) && Blocks(allocs) == Blocks(old(allocs))
                && |Left(stream)| < |old(Left(stream))|
                && Refusals(allocs) == Refusals(old(allocs))
                && (connected || !AllFine(mini, received, parses, handles))
              else connected ==> Waits(old(stream), old(allocs), stream, allocs)
    {
      more := |header| == HeaderSize(mini);
      if !more {
        more := FillHeader();
      }
      if more && (if msg.Some? then |msg.value| else 0) < SizeOf(mini, header) {
        more := FillBody();
      }
      if more {
        Whole(mini, header, msg);
        Deliver();
      }
      if old(Smooth()) {
        FineBefore(mini, received, Left(stream), parses, handles);
      }
    }

    /**
     handle_incoming. It stops when the connection has ended, when the socket has
     paused, or when a buffer has to wait, and not before.
     */
    method HandleIncoming()
      requires Valid()
      modifies this`connected, this`header, this`msg, this`stream, this`allocs, this`delivered, this`received
      modifies this`frames
      ensures Valid() && received + Left(stream) == old(received + Left(stream))
      ensures connected ==> Waits(old(stream), old(allocs), stream, allocs)
      ensures old(connected) && !connected ==>
                Ends(stream, old(allocs), allocs, AllFine(mini, received, parses, handles))
      ensures old(connected && Smooth()) ==> connected && Smooth()
    {
      while connected
        invariant Valid() && received + Left(stream) == old(received + Left(stream))
        invariant Agains(stream) == Agains(old(stream)) && Blocks(allocs) == Blocks(old(allocs))
        invariant Refusals(allocs) == Refusals(old(allocs))
        invariant old(connected) && !connected ==> !AllFine(mini, received, parses, handles)
        invariant old(connected && Smooth()) ==> connected && Smooth()
        decreases |Left(stream)|, connected
      {
        var more := NextMessage();
        if !more {
          return;
        }
      }
    }

    /**
     Enough calls of handle_incoming, at most one for each pause and each wait and one
     more, hand over all messages of the stream, in whatever pieces they come.
     */
    method HandleAll() returns (calls: nat)
      requires Valid() && connected && Smooth()
      modifies this`connected, this`header, this`msg, this`stream, this`allocs, this`delivered, this`received
      modifies this`frames
      ensures Valid() && connected && stream == [] && received == old(received + Left(stream))
      ensures delivered == ParseAll(mini, old(received + Left(stream)))
      ensures calls <= Agains(old(stream)) + Blocks(old(allocs)) + 1
    {
      calls := 0;
      while stream != []
        invariant Valid() && connected && Smooth() && received + Left(stream) == old(received + Left(stream))
        invariant calls + Agains(stream) + Blocks(allocs) <= Agains(old(stream)) + Blocks(old(allocs))
                                                             + (if stream == [] then 1 else 0)
        decreases Agains(stream) + Blocks(allocs), |stream|
      {
        HandleIncoming();
        calls := calls + 1;
      }
      assert received + [] == received;
      UptoAll(ParseAll(mini, received), parses, handles);
    }
  }

  lemma Whole(mini: bool, header: seq<Byte>, msg: Option<seq<Byte>>)
    requires |header| == HeaderSize(mini) && (if msg.Some? then |msg.value| else 0) == SizeOf(mini, header)
    ensures IsFrame(mini, Partial(header, msg))
  {
    assert Partial(header, msg)[..HeaderSize(mini)] == header;
  }

  /** When all bytes of some messages have come in, all of them have been handed over. */
  lemma AllDelivered(c: IncomingChannel, sent: seq<seq<Byte>>)
    requires c.Valid() && AllFrames(c.mini, sent) && c.received == Flat(sent)
    requires forall m :: m in MsgsOf(c.mini, sent) ==> c.parses(m) && c.handles(m)
    ensures c.delivered == MsgsOf(c.mini, sent)
  {
    assert Flat(sent) + [] == Flat(sent);
    ParseFrames(c.mini, sent, []);
    UptoAppend(MsgsOf(c.mini, sent), [], c.parses, c.handles);
    assert MsgsOf(c.mini, sent) + [] == MsgsOf(c.mini, sent);
  }

  /** From the first byte on: what arrives are the messages that were sent, in their order. */
  method Receive(mini: bool, parses: Msg -> bool, handles: Msg -> bool, stream: seq<Read>, allocs: seq<Alloc>,
                 ghost sent: seq<seq<Byte>>)
    returns (delivered: seq<Msg>)
    requires StreamOk(stream) && NeverCloses(stream) && NeverRefuses(allocs)
    requires AllFrames(mini, sent) && Left(stream) == Flat(sent)
    requires forall m :: m in MsgsOf(mini, sent) ==> parses(m) && handles(m)
    ensures delivered == MsgsOf(mini, sent)
  {
    var c := new IncomingChannel(mini, parses, handles, stream, allocs);
    ParseFrames(mini, sent, []);
    assert Flat(sent) + [] == Flat(sent) && MsgsOf(mini, sent) + [] == MsgsOf(mini, sent);
    assert c.received + Left(c.stream) == Flat(sent);
    var _ := c.HandleAll();
    delivered := c.delivered;
  }
}
