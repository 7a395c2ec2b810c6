/**
 The GLZ encoder: an LZ matcher that emits literal runs, whose counts are
 written provisionally and corrected or withdrawn later, and references into
 the shared window. What it writes is proved against the decoder of GlzFormat.
 */
module GlzEncoder {
  import opened Basics
  import opened GlzMatch
  import opened GlzFormat
  import opened GlzWindow

  const BOUND_OFFSET := 2
  const LIMIT_OFFSET := 6
  const HASH_SIZE := 0x10_0000
  const TWO64 := 0x1_0000_0000_0000_0000

  function MinRefEncodeSize(k: Layout): nat {
    match k
    case Plt => 4
    case Alpha => 4
    case _ => 2
  }

  function MaxRefEncodeSize(k: Layout): nat {
    match k
    case Plt => 7
    case Alpha => 7
    case Rgb16 => 3
    case _ => 2
  }

  /** Bytes of a reference counted in pixels. */
  function SizeInPixels(k: Layout, bytes: nat): nat {
    match k
    case Rgb16 => bytes / 2
    case Rgb24 => bytes / 3
    case Rgb32 => bytes / 3
    case _ => bytes
  }

  function Djb2(h: bv20, c: Byte): bv20 {
    ((h << 5) + h) ^ (c as bv20)
  }

  function HashPixel(k: Layout, h: bv20, p: Pixel): bv20 {
    match k
    case Plt => Djb2(h, p.c0)
    case Alpha => Djb2(h, p.c3)
    case Rgb16 => Djb2(Djb2(h, p.c0), p.c1 % 128)
    case _ => Djb2(Djb2(Djb2(h, p.c2), p.c1), p.c0)
  }

  /** HASH_FUNC; only the low twenty bits of the running hash reach the result. */
  function HashFunc(k: Layout, p: Pixel, q: Pixel, r: Pixel): nat {
    HashPixel(k, HashPixel(k, HashPixel(k, 5381, p), q), r) as nat
  }

  // ----- What the written bytes mean -----

  /** The bytes are finished tokens. */
  ghost predicate Closed(code: Token -> seq<Byte>, out: seq<Byte>, prefix: seq<Byte>, log: Log) {
    out == Written(code, prefix, log)
  }

  /** Finished bytes, a provisional count, and the pixels `from` to `n` of the picture as literals. */
  ghost function WithRun(k: Layout, maxCopy: nat, done: seq<Byte>, pic: seq<Pixel>, from: nat, n: nat): seq<Byte>
    requires LimitOk(maxCopy) && from <= n <= |pic|
    decreases n
  {
    if n == from then done + [maxCopy - 1]
    else WithRun(k, maxCopy, done, pic, from, n - 1) + PixelBytes(k, pic[n - 1])
  }

  /** The bytes are those of finished tokens and of a run that is still open. */
  ghost predicate Open(code: Token -> seq<Byte>, k: Layout, maxCopy: nat, out: seq<Byte>, lastCopy: nat,
                       prefix: seq<Byte>, log: Log, pic: seq<Pixel>, from: nat, n: nat) {
    && LimitOk(maxCopy) && from <= n <= |pic| && n - from < maxCopy
    && lastCopy == |Written(code, prefix, log)|
    && out == WithRun(k, maxCopy, Written(code, prefix, log), pic, from, n)
  }

  lemma {:induction false} RunAppend(k: Layout, ps: seq<Pixel>, p: Pixel)
    ensures RunBytes(k, ps + [p]) == RunBytes(k, ps) + PixelBytes(k, p)
    decreases |ps|
  {
    if ps == [] {
      assert ps + [p] == [p] && [p][1..] == [];
    } else {
      assert (ps + [p])[1..] == ps[1..] + [p];
      RunAppend(k, ps[1..], p);
      AppendAssociates(PixelBytes(k, ps[0]), RunBytes(k, ps[1..]), PixelBytes(k, p));
    }
  }

  lemma {:induction false} WithRunBytes(k: Layout, maxCopy: nat, done: seq<Byte>, pic: seq<Pixel>, from: nat, n: nat)
    requires LimitOk(maxCopy) && from <= n <= |pic|
    ensures WithRun(k, maxCopy, done, pic, from, n) == done + [maxCopy - 1] + RunBytes(k, pic[from..n])
    decreases n
  {
    if n == from {
      assert RunBytes(k, pic[from..n]) == [];
    } else {
      WithRunBytes(k, maxCopy, done, pic, from, n - 1);
      assert pic[from..n] == pic[from..n - 1] + [pic[n - 1]];
      RunAppend(k, pic[from..n - 1], pic[n - 1]);
      AppendAssociates(done + [maxCopy - 1], RunBytes(k, pic[from..n - 1]), PixelBytes(k, pic[n - 1]));
    }
  }

  lemma LiteralFits(code: Token -> seq<Byte>, k: Layout, maxCopy: nat, out: seq<Byte>, lastCopy: nat,
                    prefix: seq<Byte>, log: Log, pic: seq<Pixel>, from: nat, n: nat)
    requires Open(code, k, maxCopy, out, lastCopy, prefix, log, pic, from, n) && n < |pic| && n + 1 - from < maxCopy
    ensures Open(code, k, maxCopy, out + PixelBytes(k, pic[n]), lastCopy, prefix, log, pic, from, n + 1)
  {
  }

  /** A run of maxCopy literals needs no correction: its provisional count is the right one. */
  lemma RunFull(code: Token -> seq<Byte>, k: Layout, maxCopy: nat, out: seq<Byte>, lastCopy: nat, prefix: seq<Byte>,
                log: Log, pic: seq<Pixel>, from: nat, n: nat)
    requires Codes(code, k, maxCopy)
    requires Open(code, k, maxCopy, out, lastCopy, prefix, log, pic, from, n) && n < |pic| && n + 1 - from == maxCopy
    ensures Closed(code, out + PixelBytes(k, pic[n]), prefix, Add(log, Literal(pic[from..n + 1])))
  {
    var done, run := Written(code, prefix, log), pic[from..n + 1];
    WithRunBytes(k, maxCopy, done, pic, from, n + 1);
    AppendAssociates(done, [maxCopy - 1], RunBytes(k, run));
    LiteralCode(code, k, maxCopy, run);
  }

  lemma LiteralCode(code: Token -> seq<Byte>, k: Layout, maxCopy: nat, run: seq<Pixel>)
    requires Codes(code, k, maxCopy) && 1 <= |run| <= maxCopy
    ensures code(Literal(run)) == [|run| - 1] + RunBytes(k, run)
  {
    assert TokenBytes(k, maxCopy, Literal(run)) == [|run| - 1] + RunBytes(k, run);
  }

  lemma ReferenceCode(code: Token -> seq<Byte>, k: Layout, maxCopy: nat, r: Ref)
    requires Codes(code, k, maxCopy) && Encodable(r)
    ensures code(Reference(r)) == RefBytes(r)
  {
    assert TokenBytes(k, maxCopy, Reference(r)) == RefBytes(r);
  }

  lemma RunCorrected(code: Token -> seq<Byte>, k: Layout, maxCopy: nat, out: seq<Byte>, lastCopy: nat,
                     prefix: seq<Byte>, log: Log, pic: seq<Pixel>, from: nat, n: nat)
    requires Codes(code, k, maxCopy)
    requires Open(code, k, maxCopy, out, lastCopy, prefix, log, pic, from, n) && from < n
    ensures lastCopy < |out|
    ensures Closed(code, out[lastCopy := n - from - 1], prefix, Add(log, Literal(pic[from..n])))
  {
    var done, run := Written(code, prefix, log), pic[from..n];
    WithRunBytes(k, maxCopy, done, pic, from, n);
    CountChanged(done, maxCopy - 1, RunBytes(k, run), |run| - 1);
    LiteralCode(code, k, maxCopy, run);
  }

  lemma RunWithdrawn(code: Token -> seq<Byte>, k: Layout, maxCopy: nat, out: seq<Byte>, lastCopy: nat,
                     prefix: seq<Byte>, log: Log, pic: seq<Pixel>, n: nat)
    requires Open(code, k, maxCopy, out, lastCopy, prefix, log, pic, n, n)
    ensures out != [] && lastCopy == |out| - 1
    ensures Closed(code, out[..|out| - 1], prefix, log)
  {
  }

  // ----- The matcher -----

  /** PIXEL_ID. */
  function PixelId(s: Seg, pix: nat, ppb: nat): nat {
    pix * ppb + s.pixelsSoFar
  }

  /** PIXEL_DIST: the subtraction is done on 64-bit unsigned numbers. */
  function PixelDist(s: Seg, pix: nat, r: Seg, ref: nat, ppb: nat): nat
    requires ppb > 0
  {
    (PixelId(s, pix, ppb) - PixelId(r, ref, ppb)) % TWO64 / ppb
  }

  /** The distances that a match of pixel `ip` with pixel `ref` would be encoded with. */
  function ImageDistance(v: View, ref: nat, src: nat): nat
    requires Linked(v) && ref < |v.segs| && src < |v.segs| && v.segs[ref].image.Some? && v.segs[src].image.Some?
  {
    (ImageOf(v, src).id - ImageOf(v, ref).id) % TWO64
  }

  function PixelDistance(v: View, refSeg: nat, ref: nat, src: nat, ip: nat, ppb: nat): nat
    requires Linked(v) && refSeg < |v.segs| && src < |v.segs| && v.segs[refSeg].image.Some? && v.segs[src].image.Some?
    requires ImageOf(v, refSeg).firstSeg < |v.segs| && ppb > 0
  {
    if ImageDistance(v, refSeg, src) == 0 then PixelDist(v.segs[src], ip, v.segs[refSeg], ref, ppb)
    else PixelDist(v.segs[refSeg], ref, v.segs[ImageOf(v, refSeg).firstSeg], 0, ppb)
  }

  ghost predicate Matches(k: Layout, a: seq<Pixel>, i: nat, b: seq<Pixel>, j: nat, len: nat) {
    i + len <= |a| && ShowsAt(k, a[i..i + len], b, j)
  }

  lemma MatchGrows(k: Layout, a: seq<Pixel>, i: nat, b: seq<Pixel>, j: nat, len: nat)
    requires Matches(k, a, i, b, j, len) && i + len < |a| && j + len < |b| && Same(k, a[i + len], b[j + len])
    ensures Matches(k, a, i, b, j, len + 1)
  {
    assert a[i..i + len + 1] == a[i..i + len] + [a[i + len]];
  }

  /** do_match: the length of the match at `ip`, or 0. */
  method DoMatch(k: Layout, v: View, refSeg: nat, ref: nat, src: nat, ip: nat, ipLimit: nat, ppb: nat)
    returns (len: nat, imageDist: nat, pixelDist: nat)
    requires Linked(v) && refSeg < |v.segs| && src < |v.segs| && ppb > 0
    requires v.segs[refSeg].image.Some? && v.segs[src].image.Some? && ImageOf(v, refSeg).firstSeg < |v.segs|
    requires ip + 4 <= ipLimit <= |v.segs[src].lines|
    ensures len > 0 ==>
              && Matches(k, v.segs[refSeg].lines, ref, v.segs[src].lines, ip, len)
              && ip + len <= ipLimit
              && len > LengthBias(k) && len >= 2
              && imageDist == ImageDistance(v, refSeg, src) <= MAX_IMAGE_DIST
              && pixelDist == PixelDistance(v, refSeg, ref, src, ip, ppb)
              && 1 <= pixelDist < MAX_PIXEL_LONG_DISTANCE
  {
    var a, b := v.segs[refSeg].lines, v.segs[src].lines;
    len, imageDist, pixelDist := 0, 0, 0;
    if ref > |a| - MinRefEncodeSize(k) {
      return;
    }
    var n := 0;
    while n < MinRefEncodeSize(k)
      invariant n <= MinRefEncodeSize(k)
      invariant Matches(k, a, ref, b, ip, n)
    {
      if !Same(k, a[ref + n], b[ip + n]) {
        return;
      }
      MatchGrows(k, a, ref, b, ip, n);
      n := n + 1;
    }
    imageDist := ImageDistance(v, refSeg, src);
    pixelDist := PixelDistance(v, refSeg, ref, src, ip, ppb);
    if pixelDist == 0 || pixelDist >= MAX_PIXEL_LONG_DISTANCE || imageDist > MAX_IMAGE_DIST {
      return;
    }
    while ip + n < ipLimit && ref + n < |a|
      invariant MinRefEncodeSize(k) <= n && ip + n <= ipLimit
      invariant Matches(k, a, ref, b, ip, n)
    {
      if !Same(k, a[ref + n], b[ip + n]) {
        break;
      }
      MatchGrows(k, a, ref, b, ip, n);
      n := n + 1;
    }
    if n > MaxRefEncodeSize(k) {
      return n, imageDist, pixelDist;
    }
    if n < SizeInPixels(k, EncodeRefSize(imageDist, pixelDist)) + 1 {
      return;
    }
    return n, imageDist, pixelDist;
  }

  // ----- Every accepted reference can be followed -----

  /** A 64-bit distance that is small enough was not a wrapped negative one. */
  lemma SmallDistanceIsExact(d: int, ppb: nat)
    requires ppb == 1 || ppb == 2 || ppb == 8
    requires -0x2_0000_0000 < d < 0x2_0000_0000
    requires d * ppb % TWO64 / ppb < MAX_PIXEL_LONG_DISTANCE
    ensures d >= 0 && d * ppb % TWO64 / ppb == d
  {
    assert d >= 0 ==> d * ppb % TWO64 == d * ppb;
  }

  /**
   What a decoder needs of a reference from pixel `n` of image `id`: it points
   to an earlier pixel of the same picture, or into a picture at most `headDist`
   images back, and the pixels there are `px`.
   */
  ghost predicate Denotes(pics: Pictures, headDist: nat, id: nat, n: nat, imageDist: nat, pixelDist: nat,
                          px: seq<Pixel>) {
    && imageDist <= id && imageDist <= headDist
    && id - imageDist in pics
    && var pic := pics[id - imageDist];
    if imageDist == 0 then 1 <= pixelDist <= n && Part(px, pic, n - pixelDist)
    else Part(px, pic, pixelDist)
  }

  lemma SamePictureDenotes(v: View, pics: Pictures, headDist: nat, src: nat, ip: nat, refSeg: nat, ref: nat, len: nat)
    requires Linked(v) && Holds(v, pics, src) && Holds(v, pics, refSeg)
    requires v.segs[refSeg].image == v.segs[src].image
    requires ip <= |v.segs[src].lines| && ref + len <= |v.segs[refSeg].lines|
    requires 1 <= PixelDistance(v, refSeg, ref, src, ip, PixelsPerByte(ImageOf(v, src).kind)) < MAX_PIXEL_LONG_DISTANCE
    ensures Denotes(pics, headDist, ImageOf(v, src).id, OffsetInPicture(v, src) + ip, 0,
                    PixelDistance(v, refSeg, ref, src, ip, PixelsPerByte(ImageOf(v, src).kind)),
                    v.segs[refSeg].lines[ref..ref + len])
  {
    var ppb := PixelsPerByte(ImageOf(v, src).kind);
    var first := v.segs[ImageOf(v, src).firstSeg].pixelsSoFar;
    var sofs, rofs := OffsetInPicture(v, src), OffsetInPicture(v, refSeg);
    SameImageDistance(v.segs[src], ip, sofs, v.segs[refSeg], ref, rofs, first, ppb);
    SmallDistanceIsExact((sofs + ip) - (rofs + ref), ppb);
    PartOfPart(pics[ImageOf(v, src).id], rofs, v.segs[refSeg].lines, ref, len);
  }

  lemma OtherPictureDenotes(v: View, pics: Pictures, headDist: nat, src: nat, ip: nat, refSeg: nat, ref: nat, len: nat)
    requires Linked(v) && Holds(v, pics, src) && Holds(v, pics, refSeg)
    requires ImageOf(v, refSeg).id < ImageOf(v, src).id <= ImageOf(v, refSeg).id + headDist && headDist < UINT32
    requires ImageOf(v, refSeg).kind == ImageOf(v, src).kind
    requires ref + len <= |v.segs[refSeg].lines|
    requires 1 <= PixelDistance(v, refSeg, ref, src, ip, PixelsPerByte(ImageOf(v, src).kind)) < MAX_PIXEL_LONG_DISTANCE
    ensures ImageDistance(v, refSeg, src) == ImageOf(v, src).id - ImageOf(v, refSeg).id
    ensures Denotes(pics, headDist, ImageOf(v, src).id, OffsetInPicture(v, src) + ip, ImageDistance(v, refSeg, src),
                    PixelDistance(v, refSeg, ref, src, ip, PixelsPerByte(ImageOf(v, src).kind)),
                    v.segs[refSeg].lines[ref..ref + len])
  {
    var ppb := PixelsPerByte(ImageOf(v, src).kind);
    var rofs := OffsetInPicture(v, refSeg);
    OffsetDistance(v.segs[refSeg], ref, rofs, v.segs[ImageOf(v, refSeg).firstSeg], ppb);
    SmallDistanceIsExact(rofs + ref, ppb);
    PartOfPart(pics[ImageOf(v, refSeg).id], rofs, v.segs[refSeg].lines, ref, len);
  }

  /**
   Whatever segment and pixel the hash table named: if the segment passes the
   test and the distance passes the limits of do_match, the decoder can follow
   the reference, and it denotes the pixels that were compared.
   */
  lemma ReferenceIsDecodable(v: View, pics: Pictures, headDist: nat, src: nat, ip: nat, refSeg: nat, ref: nat, len: nat)
    requires Searchable(v, src, pics, headDist)
    requires refSeg < |v.segs| && RefSegIsValid(v, refSeg, src)
    requires ip <= |v.segs[src].lines| && ref + len <= |v.segs[refSeg].lines|
    ensures Holds(v, pics, refSeg)
    ensures var pixelDist := PixelDistance(v, refSeg, ref, src, ip, PixelsPerByte(ImageOf(v, src).kind));
            1 <= pixelDist < MAX_PIXEL_LONG_DISTANCE ==>
              Denotes(pics, headDist, ImageOf(v, src).id, OffsetInPicture(v, src) + ip,
                      ImageDistance(v, refSeg, src), pixelDist, v.segs[refSeg].lines[ref..ref + len])
  {
    assert refSeg != src ==> Referable(v, src, pics, headDist, refSeg);
    if 1 <= PixelDistance(v, refSeg, ref, src, ip, PixelsPerByte(ImageOf(v, src).kind)) < MAX_PIXEL_LONG_DISTANCE {
      if ImageOf(v, refSeg).id == ImageOf(v, src).id {
        SamePictureDenotes(v, pics, headDist, src, ip, refSeg, ref, len);
      } else {
        OtherPictureDenotes(v, pics, headDist, src, ip, refSeg, ref, len);
      }
    }
  }

  lemma SameImageDistance(s: Seg, ip: nat, sofs: nat, r: Seg, ref: nat, rofs: nat, first: nat, ppb: nat)
    requires ppb > 0
    requires s.pixelsSoFar == first + sofs * ppb && r.pixelsSoFar == first + rofs * ppb
    ensures PixelDist(s, ip, r, ref, ppb) == ((sofs + ip) - (rofs + ref)) * ppb % TWO64 / ppb
  {
    assert PixelId(s, ip, ppb) - PixelId(r, ref, ppb) == ((sofs + ip) - (rofs + ref)) * ppb;
  }

  lemma OffsetDistance(r: Seg, ref: nat, rofs: nat, first: Seg, ppb: nat)
    requires ppb > 0
    requires r.pixelsSoFar == first.pixelsSoFar + rofs * ppb
    ensures PixelDist(r, ref, first, 0, ppb) == (rofs + ref) * ppb % TWO64 / ppb
  {
    assert PixelId(r, ref, ppb) - PixelId(first, 0, ppb) == (rofs + ref) * ppb;
  }
}
