/**
 The encoder object: its output buffer, the hash table it shares with other
 encoders, and the loops that compress an image segment by segment.
 */
module GlzCompress {
  import opened Basics
  import opened GlzMatch
  import opened GlzFormat
  import opened GlzWindow
  import opened GlzEncoder

  /** What is to be written: the picture, after `prefix`, as `code` says, for a decoder that holds `win`. */
  datatype Goal = Goal(code: Token -> seq<Byte>, win: Window, id: nat, pic: seq<Pixel>, prefix: seq<Byte>)

  /** The decoder holds the earlier pictures that the encoder may refer to. */
  ghost predicate DecoderHas(k: Layout, win: Window, pics: Pictures, id: nat, headDist: nat) {
    forall j :: j in pics && j < id && id - j <= headDist ==> j in win && AllSame(k, win[j], pics[j])
  }

  /** The reference as encode_match gets it, with distance and length biased. */
  function Biased(k: Layout, imageDist: nat, pixelDist: nat, len: nat): Ref
    requires len > LengthBias(k) && (imageDist == 0 ==> pixelDist > 0)
  {
    Ref(imageDist, if imageDist == 0 then pixelDist - 1 else pixelDist, len - LengthBias(k))
  }

  /** Everything up to pixel `n` is written, and no run is open. */
  ghost predicate Complete(k: Layout, maxCopy: nat, goal: Goal, out: seq<Byte>, log: Log, n: nat) {
    && LimitOk(maxCopy) && n <= |goal.pic|
    && Closed(goal.code, out, goal.prefix, log)
    && Good(k, maxCopy, goal.win, goal.id, goal.pic, log, n)
  }

  /** Everything up to pixel `n` is written, the last `copy` pixels in an open run. */
  ghost predicate Incomplete(k: Layout, maxCopy: nat, goal: Goal, out: seq<Byte>, lastCopy: nat, log: Log,
                             n: nat, copy: nat) {
    && copy <= n
    && Open(goal.code, k, maxCopy, out, lastCopy, goal.prefix, log, goal.pic, n - copy, n)
    && Good(k, maxCopy, goal.win, goal.id, goal.pic, log, n - copy)
  }

  lemma FullRun(k: Layout, maxCopy: nat, goal: Goal, out: seq<Byte>, lastCopy: nat, log: Log, n: nat, copy: nat)
    requires Codes(goal.code, k, maxCopy)
    requires Incomplete(k, maxCopy, goal, out, lastCopy, log, n, copy) && n < |goal.pic| && copy + 1 == maxCopy
    ensures Complete(k, maxCopy, goal, out
                     + PixelBytes(k, goal.pic[n]), Add(log, Literal(goal.pic[n - copy..n + 1])), n + 1)
  {
    RunFull(goal.code, k, maxCopy, out, lastCopy, goal.prefix, log, goal.pic, n - copy, n);
    GoodLiteral(k, maxCopy, goal.win, goal.id, goal.pic, log, n - copy, n + 1);
  }

  lemma LongerRun(k: Layout, maxCopy: nat, goal: Goal, out: seq<Byte>, lastCopy: nat, log: Log, n: nat, copy: nat)
    requires Incomplete(k, maxCopy, goal, out, lastCopy, log, n, copy) && n < |goal.pic| && copy + 1 != maxCopy
    ensures Incomplete(k, maxCopy, goal, out + PixelBytes(k, goal.pic[n]), lastCopy, log, n + 1, copy + 1)
  {
    LiteralFits(goal.code, k, maxCopy, out, lastCopy, goal.prefix, log, goal.pic, n - copy, n);
  }

  lemma CorrectedRun(k: Layout, maxCopy: nat, goal: Goal, out: seq<Byte>, lastCopy: nat, log: Log, n: nat, copy: nat)
    requires Codes(goal.code, k, maxCopy)
    requires Incomplete(k, maxCopy, goal, out, lastCopy, log, n, copy) && copy > 0
    ensures lastCopy < |out| && copy <= 32
    ensures Complete(k, maxCopy, goal, out[lastCopy := copy - 1], Add(log, Literal(goal.pic[n - copy..n])), n)
  {
    RunCorrected(goal.code, k, maxCopy, out, lastCopy, goal.prefix, log, goal.pic, n - copy, n);
    GoodLiteral(k, maxCopy, goal.win, goal.id, goal.pic, log, n - copy, n);
  }

  lemma EmptyRun(k: Layout, maxCopy: nat, goal: Goal, out: seq<Byte>, lastCopy: nat, log: Log, n: nat)
    requires Incomplete(k, maxCopy, goal, out, lastCopy, log, n, 0)
    ensures out != [] && lastCopy == |out| - 1
    ensures Complete(k, maxCopy, goal, out[..|out| - 1], log, n)
  {
    RunWithdrawn(goal.code, k, maxCopy, out, lastCopy, goal.prefix, log, goal.pic, n);
  }

  lemma NewRun(k: Layout, maxCopy: nat, goal: Goal, out: seq<Byte>, log: Log, n: nat)
    requires Complete(k, maxCopy, goal, out, log, n)
    ensures 3 < maxCopy <= 32
    ensures Incomplete(k, maxCopy, goal, out + [maxCopy - 1], |out|, log, n, 0)
  {
  }

  /** A reference that denotes pixels like those at `n` fits there. */
  lemma ReferenceFits(k: Layout, goal: Goal, pics: Pictures, headDist: nat, n: nat,
                      imageDist: nat, pixelDist: nat, px: seq<Pixel>)
    requires DecoderHas(k, goal.win, pics, goal.id, headDist) && goal.id in pics && pics[goal.id] == goal.pic
    requires Denotes(pics, headDist, goal.id, n, imageDist, pixelDist, px)
    requires |px| > LengthBias(k) && ShowsAt(k, px, goal.pic, n)
    ensures Fits(k, goal.win, goal.id, goal.pic, Reference(Biased(k, imageDist, pixelDist, |px|)), n)
  {
    var pic := goal.pic;
    if imageDist == 0 {
      forall i {:trigger pic[i]} | n <= i < n + |px|
        ensures Same(k, pic[i - pixelDist], pic[i])
      {
        assert px[i - n] == pic[(n - pixelDist) + (i - n)] && Same(k, px[i - n], pic[n + (i - n)]);
      }
    } else {
      var source, held := pics[goal.id - imageDist], goal.win[goal.id - imageDist];
      var there := held[pixelDist..pixelDist + |px|];
      forall j {:trigger there[j]} | 0 <= j < |there|
        ensures Same(k, there[j], pic[n + j])
      {
        assert there[j] == held[pixelDist + j] && Same(k, held[pixelDist + j], source[pixelDist + j]);
        assert px[j] == source[pixelDist + j] && Same(k, px[j], pic[n + j]);
      }
    }
  }

  lemma MatchPut(k: Layout, maxCopy: nat, goal: Goal, out: seq<Byte>, log: Log, n: nat, r: Ref)
    requires Codes(goal.code, k, maxCopy) && Complete(k, maxCopy, goal, out, log, n) && Encodable(r)
    requires Fits(k, goal.win, goal.id, goal.pic, Reference(r), n)
    ensures Complete(k, maxCopy, goal, out + RefBytes(r), Add(log, Reference(r)), n + r.len + LengthBias(k))
  {
    ReferenceCode(goal.code, k, maxCopy, r);
  }

  /** The check for a run of equal pixels at `ip`. */
  method FindRun(k: Layout, lines: seq<Pixel>, ip: nat) returns (len: nat)
    requires ip + LIMIT_OFFSET < |lines|
    ensures len > 0 ==>
              && ip > 0 && len >= 3 && ip + len <= |lines| - BOUND_OFFSET
              && ShowsAt(k, lines[ip - 1..ip - 1 + len], lines, ip)
  {
    len := 0;
    if ip > 0 && Same(k, lines[ip - 1], lines[ip]) && Same(k, lines[ip], lines[ip + 1])
       && Same(k, lines[ip + 1], lines[ip + 2]) {
      var x := lines[ip + 2];
      len := 3;
      while ip + len < |lines| - BOUND_OFFSET
        invariant 3 <= len && ip + len <= |lines| - BOUND_OFFSET
        invariant forall j :: ip - 1 <= j < ip + len ==> Same(k, lines[j], x)
      {
        if !Same(k, lines[ip + len], x) {
          break;
        }
        len := len + 1;
      }
      var px := lines[ip - 1..ip - 1 + len];
      assert forall j {:trigger px[j]} :: 0 <= j < len ==> Same(k, px[j], x) && Same(k, lines[ip + j], x);
    }
  }

  lemma ShowsInPicture(k: Layout, px: seq<Pixel>, lines: seq<Pixel>, ip: nat, pic: seq<Pixel>, base: nat)
    requires ShowsAt(k, px, lines, ip) && Part(lines, pic, base)
    ensures ShowsAt(k, px, pic, base + ip)
  {
    forall j {:trigger px[j]} | 0 <= j < |px|
      ensures Same(k, px[j], pic[base + ip + j])
    {
      assert lines[ip + j] == pic[base + (ip + j)];
    }
  }

  /** A run is a reference one pixel back. */
  lemma RunDenotes(v: View, pics: Pictures, headDist: nat, src: nat, ip: nat, len: nat)
    requires Linked(v) && Holds(v, pics, src) && 0 < ip && ip + len <= |v.segs[src].lines|
    ensures Denotes(pics, headDist, ImageOf(v, src).id, OffsetInPicture(v, src) + ip, 0, 1,
                    v.segs[src].lines[ip - 1..ip - 1 + len])
  {
    PartOfPart(pics[ImageOf(v, src).id], OffsetInPicture(v, src), v.segs[src].lines, ip - 1, len);
  }

  /** A match of the pixels at `ip` that is worth encoding and that the decoder can follow. */
  ghost predicate Found(k: Layout, v: View, src: nat, ip: nat, pics: Pictures, headDist: nat,
                        len: nat, imageDist: nat, pixelDist: nat, px: seq<Pixel>)
    requires Linked(v) && Holds(v, pics, src)
  {
    && len == |px| > LengthBias(k) && len >= 2
    && ip + len <= |v.segs[src].lines| - BOUND_OFFSET
    && ShowsAt(k, px, v.segs[src].lines, ip)
    && imageDist <= MAX_IMAGE_DIST && pixelDist < MAX_PIXEL_LONG_DISTANCE
    && Denotes(pics, headDist, ImageOf(v, src).id, OffsetInPicture(v, src) + ip, imageDist, pixelDist, px)
  }

  /** The goal is the picture of the image that `src` belongs to. */
  ghost predicate GoalOk(k: Layout, maxCopy: nat, v: View, src: nat, goal: Goal, pics: Pictures, headDist: nat)
    requires Linked(v) && Holds(v, pics, src)
  {
    && Codes(goal.code, k, maxCopy)
    && goal.id == ImageOf(v, src).id && goal.pic == pics[goal.id]
    && DecoderHas(k, goal.win, pics, goal.id, headDist)
  }

  // ----- Walking over the segments of the image -----

  /** What the encoder sees, and the picture that it has to write. */
  ghost predicate Task(k: Layout, maxCopy: nat, seen: nat -> View, mine: seq<nat>, pics: Pictures, headDist: nat,
                       goal: Goal) {
    && Watched(seen, mine, pics, headDist) && Linked(seen(0))
    && Codes(goal.code, k, maxCopy)
    && goal.id == seen(0).images[seen(0).cur].id && goal.id in pics && goal.pic == pics[goal.id]
    && DecoderHas(k, goal.win, pics, goal.id, headDist)
  }

  /** Each look shows the encoder's segments and its goal as the first one did. */
  lemma Look(k: Layout, maxCopy: nat, seen: nat -> View, mine: seq<nat>, pics: Pictures, headDist: nat, goal: Goal,
             i: nat, t: nat)
    requires Task(k, maxCopy, seen, mine, pics, headDist, goal) && i < |mine|
    ensures Mine(seen(t), mine[i], pics, headDist) && Mine(seen(0), mine[i], pics, headDist)
    ensures GoalOk(k, maxCopy, seen(t), mine[i], goal, pics, headDist)
    ensures seen(t).segs[mine[i]].lines == seen(0).segs[mine[i]].lines && |seen(0).segs| <= |seen(t).segs|
    ensures OffsetInPicture(seen(t), mine[i]) == OffsetInPicture(seen(0), mine[i])
  {
    SameEveryTime(seen, mine, pics, headDist, i, t);
  }

  ghost predicate LinkOk(v: View, seg: Option<nat>) {
    Linked(v) && (seg.Some? ==> seg.value < |v.segs| && v.segs[seg.value].image.Some?)
  }

  /** The link leads to a segment of the image whose id, cut to 32 bits, the encoder holds. */
  predicate InCurrent(v: View, seg: Option<nat>, id32: nat)
    requires LinkOk(v, seg)
  {
    seg.Some? && ImageOf(v, seg.value).id == id32
  }

  /** Where the `i`-th segment of the image starts in the picture. */
  ghost function Position(v: View, mine: seq<nat>, pics: Pictures, i: nat): int
    requires i <= |mine| && Linked(v) && v.images[v.cur].id in pics
    requires i < |mine| ==> Holds(v, pics, mine[i])
  {
    if i < |mine| then OffsetInPicture(v, mine[i]) else |pics[v.images[v.cur].id]|
  }

  ghost predicate Leaves(v: View, seg: Option<nat>) {
    Linked(v) && EndsHere(v, seg)
  }

  /** The link leads to segment `i` of the image, or out of the image at every look from `since` on. */
  ghost predicate At(seen: nat -> View, mine: seq<nat>, i: nat, seg: Option<nat>, since: nat) {
    && i <= |mine|
    && (i < |mine| ==> seg == Some(mine[i]))
    && (i == |mine| ==> forall t {:trigger Leaves(seen(t), seg)} :: since <= t ==> Leaves(seen(t), seg))
  }

  /** The test of the link tells whether the image goes on, for every id that fits 32 bits. */
  lemma LinkTest(k: Layout, maxCopy: nat, seen: nat -> View, mine: seq<nat>, pics: Pictures, headDist: nat, goal: Goal,
                 i: nat, seg: Option<nat>, since: nat, t: nat)
    requires Task(k, maxCopy, seen, mine, pics, headDist, goal) && At(seen, mine, i, seg, since) && since <= t
    ensures LinkOk(seen(t), seg)
    ensures goal.id < UINT32 ==> (InCurrent(seen(t), seg, goal.id % UINT32) <==> i < |mine|)
    ensures goal.id >= UINT32 && i < |mine| ==> !InCurrent(seen(t), seg, goal.id % UINT32)
  {
    SameEveryTime(seen, mine, pics, headDist, 0, t);
    assert i == |mine| ==> Leaves(seen(t), seg);
    if i < |mine| {
      Look(k, maxCopy, seen, mine, pics, headDist, goal, i, t);
    }
  }

  lemma StartSegments(k: Layout, maxCopy: nat, seen: nat -> View, mine: seq<nat>, pics: Pictures, headDist: nat,
                      goal: Goal, t: nat)
    requires Task(k, maxCopy, seen, mine, pics, headDist, goal)
    ensures Linked(seen(t)) && At(seen, mine, 0, Some(seen(t).images[seen(t).cur].firstSeg), t)
    ensures Holds(seen(0), pics, mine[0]) && Position(seen(0), mine, pics, 0) == 0
  {
    Look(k, maxCopy, seen, mine, pics, headDist, goal, 0, t);
    ReadyAtLook(seen, mine, pics, headDist, t);
    ReadyAtLook(seen, mine, pics, headDist, 0);
  }

  lemma NextSegment(k: Layout, maxCopy: nat, seen: nat -> View, mine: seq<nat>, pics: Pictures, headDist: nat,
                    goal: Goal, i: nat, t: nat)
    requires Task(k, maxCopy, seen, mine, pics, headDist, goal) && i < |mine|
    ensures Holds(seen(0), pics, mine[i]) && (i + 1 < |mine| ==> Holds(seen(0), pics, mine[i + 1]))
    ensures mine[i] < |seen(t).segs| && At(seen, mine, i + 1, seen(t).segs[mine[i]].next, t)
    ensures Position(seen(0), mine, pics, i + 1) == Position(seen(0), mine, pics, i) + |seen(0).segs[mine[i]].lines|
  {
    var v, v0 := seen(t), seen(0);
    ReadyAtLook(seen, mine, pics, headDist, t);
    ReadyAtLook(seen, mine, pics, headDist, 0);
    Look(k, maxCopy, seen, mine, pics, headDist, goal, i, t);
    if i + 1 < |mine| {
      assert NextTo(v, mine[i], mine[i + 1], pics) && NextTo(v0, mine[i], mine[i + 1], pics);
    } else {
      assert mine[i] == mine[|mine| - 1];
      forall u {:trigger Leaves(seen(u), v.segs[mine[i]].next)} | t <= u
        ensures Leaves(seen(u), v.segs[mine[i]].next)
      {
        FollowsAtLook(seen, mine, pics, headDist, t, u);
      }
    }
  }

  /** At segment `i`, or past the last one, as the look at time `t` shows it; the segment starts at pixel `n`. */
  ghost predicate Place(seen: nat -> View, mine: seq<nat>, pics: Pictures, headDist: nat, goal: Goal,
                        i: nat, n: nat, seg: Option<nat>, t: nat) {
    && At(seen, mine, i, seg, t) && LinkOk(seen(t), seg)
    && (i < |mine| ==> Mine(seen(0), mine[i], pics, headDist) && mine[i] < |seen(t).segs|
                       && seen(t).segs[mine[i]].lines == seen(0).segs[mine[i]].lines
                       && n == OffsetInPicture(seen(0), mine[i]))
    && (i == |mine| ==> n == |goal.pic|)
    && (InCurrent(seen(t), seg, goal.id % UINT32) <==> i < |mine| && goal.id < UINT32)
  }

  /** The encoder has found segment `i` and its pixels, or the end of what it takes for its image. */
  ghost predicate Here(v0: View, mine: seq<nat>, pics: Pictures, headDist: nat, goal: Goal,
                       i: nat, n: nat, seg: Option<nat>, lines: Option<seq<Pixel>>) {
    && i <= |mine| && (lines.Some? <==> i < |mine| && goal.id < UINT32)
    && (i == |mine| ==> n == |goal.pic|)
    && (lines.Some? ==>
          && seg == Some(mine[i]) && Mine(v0, mine[i], pics, headDist)
          && lines.value == v0.segs[mine[i]].lines && n == OffsetInPicture(v0, mine[i])
          && Part(lines.value, goal.pic, n))
  }

  lemma StartPlace(k: Layout, maxCopy: nat, seen: nat -> View, mine: seq<nat>, pics: Pictures, headDist: nat,
                   goal: Goal, t: nat)
    requires Task(k, maxCopy, seen, mine, pics, headDist, goal)
    ensures Linked(seen(t))
    ensures Place(seen, mine, pics, headDist, goal, 0, 0, Some(seen(t).images[seen(t).cur].firstSeg), t)
    ensures mine != []
  {
    StartSegments(k, maxCopy, seen, mine, pics, headDist, goal, t);
    LinkTest(k, maxCopy, seen, mine, pics, headDist, goal, 0, Some(seen(t).images[seen(t).cur].firstSeg), t, t);
    Look(k, maxCopy, seen, mine, pics, headDist, goal, 0, t);
  }

  /** The link read at time `t`, looked at again at time `u`. */
  lemma NextPlace(k: Layout, maxCopy: nat, seen: nat -> View, mine: seq<nat>, pics: Pictures, headDist: nat, goal: Goal,
                  i: nat, t: nat, u: nat)
    requires Task(k, maxCopy, seen, mine, pics, headDist, goal) && i < |mine| && t <= u && goal.id < UINT32
    ensures mine[i] < |seen(t).segs| && Mine(seen(0), mine[i], pics, headDist)
    ensures Place(seen, mine, pics, headDist, goal, i + 1,
                  OffsetInPicture(seen(0), mine[i]) + |seen(0).segs[mine[i]].lines|, seen(t).segs[mine[i]].next, u)
  {
    NextSegment(k, maxCopy, seen, mine, pics, headDist, goal, i, t);
    Look(k, maxCopy, seen, mine, pics, headDist, goal, i, t);
    LinkTest(k, maxCopy, seen, mine, pics, headDist, goal, i + 1, seen(t).segs[mine[i]].next, t, u);
    if i + 1 < |mine| {
      Look(k, maxCopy, seen, mine, pics, headDist, goal, i + 1, u);
    }
  }

  lemma WholeRun(k: Layout, maxCopy: nat, goal: Goal, done: seq<Byte>, log: Log, n: nat, run: seq<Pixel>)
    requires Codes(goal.code, k, maxCopy) && Complete(k, maxCopy, goal, done, log, n)
    requires 1 <= |run| < 4 && Part(run, goal.pic, n)
    ensures Complete(k, maxCopy, goal, done + [|run| - 1] + RunBytes(k, run), Add(log, Literal(run)), n + |run|)
  {
    assert done + [|run| - 1] + RunBytes(k, run) == done + ([|run| - 1] + RunBytes(k, run)) by {
      AppendAssociates(done, [|run| - 1], RunBytes(k, run));
    }
    LiteralCode(goal.code, k, maxCopy, run);
  }

  class Encoder {
    const maxCopy: nat
    const htab: array<HashEntry>
    var out: seq<Byte>
    var lastCopy: nat
    /** How often the encoder has looked at the window. */
    var clock: nat
    /** The finished tokens of the current image. */
    ghost var log: Log
    /** The number of segments that entries of the hash table can name. */
    ghost var known: nat

    constructor (maxCopy: nat, htab: array<HashEntry>)
      requires LimitOk(maxCopy)
      ensures this.maxCopy == maxCopy && this.htab == htab && out == [] && log == Start
    {
      this.maxCopy, this.htab, out, lastCopy, clock, log, known := maxCopy, htab, [], 0, 0, Start, 0;
    }

    ghost predicate Done(k: Layout, goal: Goal, n: nat)
      reads this
    {
      Complete(k, maxCopy, goal, out, log, n)
    }

    ghost predicate Writing(k: Layout, goal: Goal, n: nat, copy: nat)
      reads this
    {
      Incomplete(k, maxCopy, goal, out, lastCopy, log, n, copy)
    }

    // ----- The output buffer -----

    method EncodeCopyCount(count: Byte)
      modifies this`out, this`lastCopy
      ensures out == old(out) + [count] && lastCopy == |old(out)|
    {
      out := out + [count];
      lastCopy := |out| - 1;
    }

    method UpdateCopyCount(count: Byte)
      requires lastCopy < |out|
      modifies this`out
      ensures out == old(out)[lastCopy := count]
    {
      out := out[lastCopy := count];
    }

    method CompressOutputPrev()
      requires out != [] && lastCopy == |out| - 1
      modifies this`out
      ensures out == old(out)[..|old(out)| - 1]
    {
      out := out[..|out| - 1];
    }

    method EncodePixel(k: Layout, p: Pixel)
      modifies this`out
      ensures out == old(out) + PixelBytes(k, p)
    {
      out := out + PixelBytes(k, p);
    }

    /** The length bytes of a match of seven or more. */
    method EncodeLength(n: nat)
      modifies this`out
      ensures out == old(out) + LengthBytes(n)
    {
      var len := n;
      while len >= 255
        invariant len >= 0
        invariant old(out) + LengthBytes(n) == out + LengthBytes(len)
      {
        assert LengthBytes(len) == [255] + LengthBytes(len - 255);
        out := out + [255];
        len := len - 255;
      }
      out := out + [len];
    }

    /** encode_match. */
    method EncodeMatch(r: Ref)
      requires Encodable(r)
      modifies this`out
      ensures out == old(out) + RefBytes(r)
    {
      ghost var extra: seq<Byte> := if r.len < 7 then [] else LengthBytes(r.len - 7);
      out := out + [HeadByte(r)];
      if r.len >= 7 {
        EncodeLength(r.len - 7);
      } else {
        assert out == out + extra;
      }
      out := out + [r.pixelDist / 16 % 256];
      out := out + DistanceBytes(r);
      AppendFour(old(out), [HeadByte(r)], extra, [r.pixelDist / 16 % 256], DistanceBytes(r));
    }

    // ----- Runs and matches -----

    method StartRun(k: Layout, ghost goal: Goal, ghost n: nat)
      requires Done(k, goal, n)
      modifies this`out, this`lastCopy
      ensures Writing(k, goal, n, 0)
    {
      NewRun(k, maxCopy, goal, out, log, n);
      EncodeCopyCount(maxCopy - 1);
    }

    /** One literal; a run that is full is closed and the next one opened. */
    method PutLiteral(k: Layout, p: Pixel, copied: nat, ghost goal: Goal, ghost n: nat) returns (copy: nat)
      requires Codes(goal.code, k, maxCopy)
      requires Writing(k, goal, n, copied) && n < |goal.pic| && p == goal.pic[n]
      modifies this`out, this`lastCopy, this`log
      ensures Writing(k, goal, n + 1, copy)
      ensures copy == if copied + 1 == maxCopy then 0 else copied + 1
    {
      copy := copied + 1;
      if copy == maxCopy {
        FullRun(k, maxCopy, goal, out, lastCopy, log, n, copied);
        EncodePixel(k, p);
        log := Add(log, Literal(goal.pic[n - copied..n + 1]));
        copy := 0;
        StartRun(k, goal, n + 1);
      } else {
        LongerRun(k, maxCopy, goal, out, lastCopy, log, n, copied);
        EncodePixel(k, p);
      }
    }

    /** Corrects the count of the open run, or withdraws it when the run is empty. */
    method EndRun(k: Layout, copy: nat, ghost goal: Goal, ghost n: nat)
      requires Codes(goal.code, k, maxCopy)
      requires Writing(k, goal, n, copy)
      modifies this`out, this`log
      ensures Done(k, goal, n)
    {
      if copy > 0 {
        CorrectedRun(k, maxCopy, goal, out, lastCopy, log, n, copy);
        UpdateCopyCount(copy - 1);
        log := Add(log, Literal(goal.pic[n - copy..n]));
      } else {
        EmptyRun(k, maxCopy, goal, out, lastCopy, log, n);
        CompressOutputPrev();
      }
    }

    method PutMatch(k: Layout, imageDist: nat, pixelDist: nat, len: nat, ghost px: seq<Pixel>,
                    ghost goal: Goal, ghost n: nat, ghost pics: Pictures, ghost headDist: nat)
      requires Codes(goal.code, k, maxCopy)
      requires Done(k, goal, n)
      requires DecoderHas(k, goal.win, pics, goal.id, headDist) && goal.id in pics && pics[goal.id] == goal.pic
      requires len == |px| > LengthBias(k) && ShowsAt(k, px, goal.pic, n)
      requires Denotes(pics, headDist, goal.id, n, imageDist, pixelDist, px)
      requires imageDist <= MAX_IMAGE_DIST && pixelDist < MAX_PIXEL_LONG_DISTANCE
      modifies this`out, this`log
      ensures Done(k, goal, n + len)
    {
      var r := Biased(k, imageDist, pixelDist, len);
      ReferenceFits(k, goal, pics, headDist, n, imageDist, pixelDist, px);
      MatchPut(k, maxCopy, goal, out, log, n, r);
      EncodeMatch(r);
      log := Add(log, Reference(r));
    }

    // ----- Searching -----

    /** Entries may be stale or come from other encoders, but name existing segments. */
    ghost predicate TableOk(v: View)
      reads this`known, htab
    {
      htab.Length == HASH_SIZE && known <= |v.segs| && forall h :: 0 <= h < htab.Length ==> htab[h].seg < known
    }

    /** UPDATE_HASH for the three pixels at `at`. */
    method UpdateHash(k: Layout, v: View, src: nat, at: nat)
      requires TableOk(v) && src < known && at + 2 < |v.segs[src].lines|
      modifies htab
      ensures TableOk(v)
    {
      var lines := v.segs[src].lines;
      htab[HashFunc(k, lines[at], lines[at + 1], lines[at + 2])] := HashEntry(src, at);
    }

    /** Reads a table slot; another encoder may have overwritten it at any moment. */
    method Lookup(v: View, hval: nat) returns (e: HashEntry)
      requires TableOk(v) && hval < HASH_SIZE
      ensures e.seg < |v.segs|
    {
      e := htab[hval];
      if * {
        e :| e.seg < |v.segs|;
      }
    }

    /** Tries the segment and pixel that the hash table names for the pixels at `ip`. */
    method TryTable(k: Layout, v: View, src: nat, ip: nat, hval: nat, ghost pics: Pictures, ghost headDist: nat)
      returns (len: nat, imageDist: nat, pixelDist: nat, ghost px: seq<Pixel>)
      requires Searchable(v, src, pics, headDist)
      requires ip + LIMIT_OFFSET < |v.segs[src].lines| && TableOk(v) && hval < HASH_SIZE
      ensures len > 0 ==> Found(k, v, src, ip, pics, headDist, len, imageDist, pixelDist, px)
    {
      var e := Lookup(v, hval);
      len, imageDist, pixelDist, px := 0, 0, 0, [];
      if RefSegIsValid(v, e.seg, src) {
        ReferenceIsDecodable(v, pics, headDist, src, ip, e.seg, 0, 0);
        len, imageDist, pixelDist :=
          DoMatch(k, v, e.seg, e.pix, src, ip, |v.segs[src].lines| - BOUND_OFFSET, PixelsPerByte(ImageOf(v, src).kind));
        if len > 0 {
          px := v.segs[e.seg].lines[e.pix..e.pix + len];
          ReferenceIsDecodable(v, pics, headDist, src, ip, e.seg, e.pix, len);
        }
      }
    }

    /** Looks for a match of the pixels at `ip`: first a run, then what the hash table names. */
    method FindMatch(k: Layout, v: View, src: nat, ip: nat, ghost pics: Pictures, ghost headDist: nat)
      returns (len: nat, imageDist: nat, pixelDist: nat, ghost px: seq<Pixel>)
      requires Searchable(v, src, pics, headDist)
      requires ip + LIMIT_OFFSET < |v.segs[src].lines| && TableOk(v) && src < known
      modifies htab
      ensures TableOk(v)
      ensures len > 0 ==> Found(k, v, src, ip, pics, headDist, len, imageDist, pixelDist, px)
    {
      var lines := v.segs[src].lines;
      len := FindRun(k, lines, ip);
      if len > 0 {
        imageDist, pixelDist, px := 0, 1, lines[ip - 1..ip - 1 + len];
        RunDenotes(v, pics, headDist, src, ip, len);
        return;
      }
      var hval := HashFunc(k, lines[ip], lines[ip + 1], lines[ip + 2]);
      len, imageDist, pixelDist, px := TryTable(k, v, src, ip, hval, pics, headDist);
      htab[hval] := HashEntry(src, ip);
    }

    // ----- Compressing -----

    /** Emits a match that was found at `at`, and enters its last two pixels in the hash table. */
    method EmitMatch(k: Layout, v: View, src: nat, at: nat, copied: nat, len: nat, imageDist: nat, pixelDist: nat,
                     ghost px: seq<Pixel>, ghost goal: Goal, ghost pics: Pictures, ghost headDist: nat)
      requires Searchable(v, src, pics, headDist) && GoalOk(k, maxCopy, v, src, goal, pics, headDist)
      requires Found(k, v, src, at, pics, headDist, len, imageDist, pixelDist, px)
      requires Writing(k, goal, OffsetInPicture(v, src) + at, copied)
      modifies this`out, this`lastCopy, this`log
      ensures Writing(k, goal, OffsetInPicture(v, src) + at + len, 0)
    {
      ghost var n := OffsetInPicture(v, src) + at;
      EndRun(k, copied, goal, n);
      ShowsInPicture(k, px, v.segs[src].lines, at, goal.pic, OffsetInPicture(v, src));
      PutMatch(k, imageDist, pixelDist, len, px, goal, n, pics, headDist);
      StartRun(k, goal, n + len);
    }

    /** Enters the last two pixels of a match in the hash table. */
    method UpdateHashAfter(k: Layout, v: View, src: nat, anchor: nat, len: nat)
      requires TableOk(v) && src < known
      requires 2 <= len && anchor + len <= |v.segs[src].lines| - BOUND_OFFSET
      modifies htab
      ensures TableOk(v)
    {
      var ip := anchor + len - 2;
      if ip > anchor || k.Plt? || k.Alpha? {
        UpdateHash(k, v, src, ip);
      }
      ip := ip + 1;
      if ip > anchor || !(k.Rgb24? || k.Rgb32?) {
        UpdateHash(k, v, src, ip);
      }
    }

    /** One round of the main loop of compress_seg. */
    method CompressStep(k: Layout, v: View, src: nat, at: nat, copied: nat, ghost goal: Goal,
                        ghost pics: Pictures, ghost headDist: nat) returns (ip: nat, copy: nat)
      requires Searchable(v, src, pics, headDist) && GoalOk(k, maxCopy, v, src, goal, pics, headDist)
      requires TableOk(v) && src < known && at + LIMIT_OFFSET < |v.segs[src].lines|
      requires Writing(k, goal, OffsetInPicture(v, src) + at, copied)
      modifies this`out, this`lastCopy, this`log, htab
      ensures at < ip <= |v.segs[src].lines| && TableOk(v)
      ensures Writing(k, goal, OffsetInPicture(v, src) + ip, copy)
    {
      ghost var base, px := OffsetInPicture(v, src), [];
      var len, imageDist, pixelDist;
      len, imageDist, pixelDist, px := FindMatch(k, v, src, at, pics, headDist);
      if len > 0 {
        EmitMatch(k, v, src, at, copied, len, imageDist, pixelDist, px, goal, pics, headDist);
        UpdateHashAfter(k, v, src, at, len);
        ip, copy := at + len, 0;
      } else {
        copy := PutLiteral(k, v.segs[src].lines[at], copied, goal, base + at);
        ip := at + 1;
      }
    }

    /** The left-over of a segment as literals. */
    method PutRest(k: Layout, lines: seq<Pixel>, at: nat, copied: nat, ghost goal: Goal, ghost base: nat)
      returns (copy: nat)
      requires Codes(goal.code, k, maxCopy)
      requires at <= |lines| && Part(lines, goal.pic, base)
      requires Writing(k, goal, base + at, copied)
      modifies this`out, this`lastCopy, this`log
      ensures Writing(k, goal, base + |lines|, copy)
    {
      var ip := at;
      copy := copied;
      while ip < |lines|
        invariant ip <= |lines|
        invariant Writing(k, goal, base + ip, copy)
      {
        copy := PutLiteral(k, lines[ip], copy, goal, base + ip);
        ip := ip + 1;
      }
    }

    /** One step of the main loop, on the window as it is now. */
    method LookAndStep(k: Layout, seen: nat -> View, src: nat, lines: seq<Pixel>, at: nat, copied: nat, ghost i: nat,
                       ghost goal: Goal, ghost mine: seq<nat>, ghost pics: Pictures, ghost headDist: nat)
      returns (ip: nat, copy: nat)
      requires Task(k, maxCopy, seen, mine, pics, headDist, goal) && i < |mine| && src == mine[i]
      requires TableOk(seen(0)) && known == |seen(0).segs| && Mine(seen(0), src, pics, headDist)
      requires lines == seen(0).segs[src].lines && at + LIMIT_OFFSET < |lines|
      requires Writing(k, goal, OffsetInPicture(seen(0), src) + at, copied)
      modifies this`out, this`lastCopy, this`clock, this`log, htab
      ensures at < ip <= |lines| && TableOk(seen(0)) && old(clock) <= clock
      ensures Writing(k, goal, OffsetInPicture(seen(0), src) + ip, copy)
    {
      Look(k, maxCopy, seen, mine, pics, headDist, goal, i, clock);
      var v := seen(clock);
      clock := clock + 1;
      ip, copy := CompressStep(k, v, src, at, copied, goal, pics, headDist);
    }

    /** The main loop of compress_seg; every round looks at the window as it is by then. */
    method CompressLoop(k: Layout, seen: nat -> View, src: nat, lines: seq<Pixel>, from: nat, copied: nat, ghost i: nat,
                        ghost goal: Goal, ghost mine: seq<nat>, ghost pics: Pictures, ghost headDist: nat)
      returns (ip: nat, copy: nat)
      requires Task(k, maxCopy, seen, mine, pics, headDist, goal) && i < |mine| && src == mine[i]
      requires TableOk(seen(0)) && known == |seen(0).segs| && Mine(seen(0), src, pics, headDist)
      requires lines == seen(0).segs[src].lines && from <= |lines|
      requires Writing(k, goal, OffsetInPicture(seen(0), src) + from, copied)
      modifies this`out, this`lastCopy, this`clock, this`log, htab
      ensures ip <= |lines| && TableOk(seen(0)) && old(clock) <= clock
      ensures Writing(k, goal, OffsetInPicture(seen(0), src) + ip, copy)
    {
      ip, copy := from, copied;
      while ip < |lines| - LIMIT_OFFSET
        invariant ip <= |lines| && TableOk(seen(0)) && old(clock) <= clock
        invariant Writing(k, goal, OffsetInPicture(seen(0), src) + ip, copy)
      {
        ip, copy := LookAndStep(k, seen, src, lines, ip, copy, i, goal, mine, pics, headDist);
      }
    }

    /** What follows the main loop of compress_seg. */
    method FinishSeg(k: Layout, lines: seq<Pixel>, at: nat, copied: nat, ghost goal: Goal, ghost base: nat)
      requires Codes(goal.code, k, maxCopy)
      requires at <= |lines| && Part(lines, goal.pic, base)
      requires Writing(k, goal, base + at, copied)
      modifies this`out, this`lastCopy, this`log
      ensures Done(k, goal, base + |lines|)
    {
      var copy := PutRest(k, lines, at, copied, goal, base);
      EndRun(k, copy, goal, base + |lines|);
    }

    /** compress_seg for a segment of which the first `from` pixels are already in an open run. */
    method CompressFrom(k: Layout, seen: nat -> View, src: nat, lines: seq<Pixel>, from: nat, ghost i: nat,
                        ghost goal: Goal, ghost mine: seq<nat>, ghost pics: Pictures, ghost headDist: nat)
      requires Task(k, maxCopy, seen, mine, pics, headDist, goal) && i < |mine| && src == mine[i]
      requires TableOk(seen(0)) && known == |seen(0).segs| && Mine(seen(0), src, pics, headDist)
      requires lines == seen(0).segs[src].lines && from <= |lines|
      requires Writing(k, goal, OffsetInPicture(seen(0), src) + from, from)
      modifies this`out, this`lastCopy, this`clock, this`log, htab
      ensures Done(k, goal, OffsetInPicture(seen(0), src) + |lines|)
      ensures TableOk(seen(0)) && old(clock) <= clock
    {
      Look(k, maxCopy, seen, mine, pics, headDist, goal, i, 0);
      var ip, copy := CompressLoop(k, seen, src, lines, from, from, i, goal, mine, pics, headDist);
      FinishSeg(k, lines, ip, copy, goal, OffsetInPicture(seen(0), src));
    }

    /** compress_seg for a segment of which nothing is written yet. */
    method CompressSeg(k: Layout, seen: nat -> View, src: nat, ghost i: nat,
                       ghost goal: Goal, ghost mine: seq<nat>, ghost pics: Pictures, ghost headDist: nat)
      requires Task(k, maxCopy, seen, mine, pics, headDist, goal) && i < |mine| && src == mine[i]
      requires TableOk(seen(0)) && known == |seen(0).segs| && Mine(seen(0), src, pics, headDist)
      requires Done(k, goal, OffsetInPicture(seen(0), src))
      modifies this`out, this`lastCopy, this`clock, this`log, htab
      ensures Done(k, goal, OffsetInPicture(seen(0), src) + |seen(0).segs[src].lines|)
      ensures TableOk(seen(0)) && old(clock) <= clock
    {
      Look(k, maxCopy, seen, mine, pics, headDist, goal, i, clock);
      var lines := seen(clock).segs[src].lines;
      StartRun(k, goal, OffsetInPicture(seen(0), src));
      CompressFrom(k, seen, src, lines, 0, i, goal, mine, pics, headDist);
    }

    /** A segment of fewer than four pixels is written as one run with its exact count. */
    method PutSmall(k: Layout, lines: seq<Pixel>, ghost goal: Goal, ghost base: nat)
      requires Codes(goal.code, k, maxCopy)
      requires 1 <= |lines| < 4 && Part(lines, goal.pic, base)
      requires Done(k, goal, base)
      modifies this`out, this`lastCopy, this`log
      ensures Done(k, goal, base + |lines|)
    {
      ghost var done := out;
      WholeRun(k, maxCopy, goal, done, log, base, lines);
      EncodeCopyCount(|lines| - 1);
      var i := 0;
      while i < |lines|
        invariant i <= |lines| && log == old(log)
        invariant out == done + [|lines| - 1] + RunBytes(k, lines[..i])
      {
        assert lines[..i + 1] == lines[..i] + [lines[i]];
        RunAppend(k, lines[..i], lines[i]);
        AppendAssociates(done + [|lines| - 1], RunBytes(k, lines[..i]), PixelBytes(k, lines[i]));
        EncodePixel(k, lines[i]);
        i := i + 1;
      }
      assert lines[..i] == lines;
      log := Add(log, Literal(lines));
    }

    /** The first segment that is not too small: two literals before the search starts. */
    method CompressFirst(k: Layout, seen: nat -> View, src: nat, lines: seq<Pixel>, ghost i: nat,
                         ghost goal: Goal, ghost mine: seq<nat>, ghost pics: Pictures, ghost headDist: nat)
      requires Task(k, maxCopy, seen, mine, pics, headDist, goal) && i < |mine| && src == mine[i]
      requires TableOk(seen(0)) && known == |seen(0).segs| && Mine(seen(0), src, pics, headDist)
      requires lines == seen(0).segs[src].lines && |lines| >= 4
      requires Done(k, goal, OffsetInPicture(seen(0), src)) && 3 < maxCopy
      modifies this`out, this`lastCopy, this`clock, this`log, htab
      ensures Done(k, goal, OffsetInPicture(seen(0), src) + |lines|)
      ensures TableOk(seen(0)) && old(clock) <= clock
    {
      Look(k, maxCopy, seen, mine, pics, headDist, goal, i, 0);
      ghost var base := OffsetInPicture(seen(0), src);
      StartRun(k, goal, base);
      UpdateHash(k, seen(0), src, 0);
      var copy := PutLiteral(k, lines[0], 0, goal, base);
      copy := PutLiteral(k, lines[1], copy, goal, base + 1);
      CompressFrom(k, seen, src, lines, 2, i, goal, mine, pics, headDist);
    }

    /** The segment that the link leads to, as the encoder finds it now; `None` past the image. */
    method CurrentLines(k: Layout, seen: nat -> View, id32: nat, seg: Option<nat>, ghost i: nat, ghost n: nat,
                        ghost goal: Goal, ghost mine: seq<nat>, ghost pics: Pictures, ghost headDist: nat)
      returns (lines: Option<seq<Pixel>>)
      requires Task(k, maxCopy, seen, mine, pics, headDist, goal) && id32 == goal.id % UINT32
      requires Place(seen, mine, pics, headDist, goal, i, n, seg, clock)
      ensures Here(seen(0), mine, pics, headDist, goal, i, n, seg, lines)
    {
      lines := None;
      if InCurrent(seen(clock), seg, id32) {
        Look(k, maxCopy, seen, mine, pics, headDist, goal, i, 0);
        lines := Some(seen(clock).segs[seg.value].lines);
      }
    }

    /** Follows the link of a segment of the image. */
    method FollowLink(k: Layout, seen: nat -> View, src: nat, ghost i: nat,
                      ghost goal: Goal, ghost mine: seq<nat>, ghost pics: Pictures, ghost headDist: nat)
      returns (next: Option<nat>, ghost n: nat)
      requires Task(k, maxCopy, seen, mine, pics, headDist, goal) && goal.id < UINT32 && i < |mine| && src == mine[i]
      requires Mine(seen(0), src, pics, headDist)
      modifies this`clock
      ensures n == OffsetInPicture(seen(0), src) + |seen(0).segs[src].lines|
      ensures Place(seen, mine, pics, headDist, goal, i + 1, n, next, clock) && clock == old(clock) + 1
    {
      n := OffsetInPicture(seen(0), src) + |seen(0).segs[src].lines|;
      NextPlace(k, maxCopy, seen, mine, pics, headDist, goal, i, clock, clock + 1);
      next := seen(clock).segs[src].next;
      clock := clock + 1;
    }

    /** One turn of the loop over small segments. */
    method SmallStep(k: Layout, seen: nat -> View, id32: nat, src: nat, lines: seq<Pixel>, ghost i: nat, ghost n: nat,
                     ghost goal: Goal, ghost mine: seq<nat>, ghost pics: Pictures, ghost headDist: nat)
      returns (seg: Option<nat>, more: Option<seq<Pixel>>, ghost n': nat)
      requires Task(k, maxCopy, seen, mine, pics, headDist, goal) && id32 == goal.id % UINT32
      requires Here(seen(0), mine, pics, headDist, goal, i, n, Some(src), Some(lines))
      requires |lines| < 4 && Done(k, goal, n)
      modifies this`out, this`lastCopy, this`clock, this`log
      ensures Here(seen(0), mine, pics, headDist, goal, i + 1, n', seg, more) && Done(k, goal, n')
    {
      if lines != [] {
        PutSmall(k, lines, goal, n);
      }
      seg, n' := FollowLink(k, seen, src, i, goal, mine, pics, headDist);
      more := CurrentLines(k, seen, id32, seg, i + 1, n', goal, mine, pics, headDist);
    }

    /** The loop of compress over segments that are too small to search. */
    method CompressSmall(k: Layout, seen: nat -> View, id32: nat,
                         ghost goal: Goal, ghost mine: seq<nat>, ghost pics: Pictures, ghost headDist: nat)
      returns (seg: Option<nat>, lines: Option<seq<Pixel>>, ghost i: nat, ghost n: nat)
      requires Task(k, maxCopy, seen, mine, pics, headDist, goal) && Done(k, goal, 0) && id32 == goal.id % UINT32
      modifies this`out, this`lastCopy, this`clock, this`log
      ensures Here(seen(0), mine, pics, headDist, goal, i, n, seg, lines) && Done(k, goal, n)
      ensures lines.Some? ==> |lines.value| >= 4
      ensures goal.id >= UINT32 ==> out == old(out)
    {
      StartPlace(k, maxCopy, seen, mine, pics, headDist, goal, clock);
      i, n, seg := 0, 0, Some(seen(clock).images[seen(clock).cur].firstSeg);
      lines := CurrentLines(k, seen, id32, seg, i, n, goal, mine, pics, headDist);
      while lines.Some? && |lines.value| < 4
        invariant Here(seen(0), mine, pics, headDist, goal, i, n, seg, lines) && Done(k, goal, n)
        invariant goal.id >= UINT32 ==> out == old(out)
        decreases |mine| - i
      {
        seg, lines, n := SmallStep(k, seen, id32, seg.value, lines.value, i, n, goal, mine, pics, headDist);
        i := i + 1;
      }
    }

    /** One turn of the loop over the remaining segments. */
    method TailStep(k: Layout, seen: nat -> View, id32: nat, src: nat, ghost lines: seq<Pixel>, ghost i: nat,
                    ghost n: nat, ghost goal: Goal, ghost mine: seq<nat>, ghost pics: Pictures, ghost headDist: nat)
      returns (seg: Option<nat>, more: Option<seq<Pixel>>, ghost n': nat)
      requires Task(k, maxCopy, seen, mine, pics, headDist, goal) && id32 == goal.id % UINT32
      requires TableOk(seen(0)) && known == |seen(0).segs|
      requires Here(seen(0), mine, pics, headDist, goal, i, n, Some(src), Some(lines)) && Done(k, goal, n)
      modifies this`out, this`lastCopy, this`clock, this`log, htab
      ensures Here(seen(0), mine, pics, headDist, goal, i + 1, n', seg, more) && Done(k, goal, n') && TableOk(seen(0))
    {
      CompressSeg(k, seen, src, i, goal, mine, pics, headDist);
      seg, n' := FollowLink(k, seen, src, i, goal, mine, pics, headDist);
      more := CurrentLines(k, seen, id32, seg, i + 1, n', goal, mine, pics, headDist);
    }

    /** The loop of compress over the remaining segments. */
    method CompressTail(k: Layout, seen: nat -> View, id32: nat, from: Option<nat>, ghost start: nat, ghost at: nat,
                        ghost goal: Goal, ghost mine: seq<nat>, ghost pics: Pictures, ghost headDist: nat)
      requires Task(k, maxCopy, seen, mine, pics, headDist, goal) && id32 == goal.id % UINT32
      requires TableOk(seen(0)) && known == |seen(0).segs|
      requires Place(seen, mine, pics, headDist, goal, start, at, from, clock)
      requires Done(k, goal, at) && goal.id < UINT32
      modifies this`out, this`lastCopy, this`clock, this`log, htab
      ensures Done(k, goal, |goal.pic|) && TableOk(seen(0))
    {
      ghost var i, n := start, at;
      var seg := from;
      var lines := CurrentLines(k, seen, id32, seg, i, n, goal, mine, pics, headDist);
      while lines.Some?
        invariant Here(seen(0), mine, pics, headDist, goal, i, n, seg, lines) && Done(k, goal, n) && TableOk(seen(0))
        decreases |mine| - i
      {
        seg, lines, n := TailStep(k, seen, id32, seg.value, lines.value, i, n, goal, mine, pics, headDist);
        i := i + 1;
      }
    }

    /**
     compress: the whole image, segment by segment, while other encoders go on. The
     encoder recognises its image by 32 bits of its id, so an image whose id needs
     more is not written at all.
     */
    method Compress(k: Layout, seen: nat -> View, id32: nat,
                    ghost goal: Goal, ghost mine: seq<nat>, ghost pics: Pictures, ghost headDist: nat)
      requires Task(k, maxCopy, seen, mine, pics, headDist, goal) && id32 == goal.id % UINT32
      requires TableOk(seen(0)) && known == |seen(0).segs| && Done(k, goal, 0)
      modifies this`out, this`lastCopy, this`clock, this`log, htab
      ensures TableOk(seen(0))
      ensures goal.id < UINT32 ==> Done(k, goal, |goal.pic|)
      ensures goal.id >= UINT32 ==> out == old(out)
    {
      ghost var i, n;
      var seg, lines;
      seg, lines, i, n := CompressSmall(k, seen, id32, goal, mine, pics, headDist);
      if lines.Some? {
        CompressFirst(k, seen, seg.value, lines.value, i, goal, mine, pics, headDist);
        seg, n := FollowLink(k, seen, seg.value, i, goal, mine, pics, headDist);
        CompressTail(k, seen, id32, seg, i + 1, n, goal, mine, pics, headDist);
      }
    }
  }
}
