/**
 SharedDictionary: the window that several encoders share. Every method runs
 under the dictionary lock, so any interleaving of encoders is a sequence of them.
 */
module GlzSharedDictionary {
  import opened Basics
  import F = GlzFormat
  import opened GlzWindow
  import opened GlzDictionary
  import opened GlzListOps

  const INIT_IMAGE_SEGS_NUM := 1000
  const MAX_IMAGE_SEGS_NUM: nat := 0xffff_ffff
  // ----- The size of the segment array -----

  /** The size after __glz_dictionary_window_segs_realloc; the doubling is done in 32 bits. */
  function NewQuota(quota: nat): nat {
    var twice := quota * 2 % UINT32;
    if MAX_IMAGE_SEGS_NUM < twice then MAX_IMAGE_SEGS_NUM else twice
  }

  /** The sizes that doubling reaches from the initial one. */
  ghost predicate Doubled(quota: nat) {
    quota == INIT_IMAGE_SEGS_NUM || (quota > INIT_IMAGE_SEGS_NUM && quota % 2 == 0 && Doubled(quota / 2))
  }

  /** The largest of them that 32 bits can hold, 1000 doubled 22 times. */
  const LAST_QUOTA := 4194304000

  lemma {:induction false} DoubledGap(quota: nat, other: nat)
    requires Doubled(quota) && Doubled(other) && quota < other
    ensures quota * 2 <= other
    decreases quota
  {
    if quota != INIT_IMAGE_SEGS_NUM {
      DoubledGap(quota / 2, other / 2);
    }
  }

  lemma DoubledOnce(quota: nat)
    requires Doubled(quota)
    ensures quota > 0 && Doubled(2 * quota)
  {
  }

  lemma DoubledTwice(quota: nat)
    requires Doubled(quota)
    ensures Doubled(4 * quota)
  {
    DoubledOnce(quota);
    DoubledOnce(2 * quota);
  }

  lemma LastIsDoubled()
    ensures Doubled(LAST_QUOTA)
  {
    var quota := INIT_IMAGE_SEGS_NUM;
    while quota < LAST_QUOTA
      invariant Doubled(quota)
      invariant quota in {1000, 4000, 16000, 64000, 256000, 1024000, 4096000, 16384000, 65536000, 262144000,
                          1048576000, LAST_QUOTA}
      decreases LAST_QUOTA - quota
    {
      DoubledTwice(quota);
      quota := 4 * quota;
    }
  }

  lemma BelowLast(quota: nat)
    requires Doubled(quota) && quota < UINT32
    ensures quota <= LAST_QUOTA && (quota < LAST_QUOTA ==> quota * 2 <= LAST_QUOTA)
  {
    LastIsDoubled();
    if quota < LAST_QUOTA {
      DoubledGap(quota, LAST_QUOTA);
    } else if LAST_QUOTA < quota {
      DoubledGap(LAST_QUOTA, quota);
    }
  }

  lemma NoWrap(quota: nat)
    requires quota * 2 <= LAST_QUOTA
    ensures NewQuota(quota) == 2 * quota
  {
  }

  /**
   The array grows exactly as long as its size is below LAST_QUOTA; from there the
   doubling wraps around to fewer segments than there are.
   */
  lemma ReallocGrows(quota: nat)
    requires Doubled(quota) && quota < UINT32
    ensures quota <= LAST_QUOTA
    ensures quota < NewQuota(quota) <==> quota < LAST_QUOTA
    ensures quota < LAST_QUOTA ==>
              NewQuota(quota) == 2 * quota && Doubled(NewQuota(quota)) && NewQuota(quota) <= LAST_QUOTA
    ensures NewQuota(LAST_QUOTA) == 4093640704 < LAST_QUOTA
  {
    BelowLast(quota);
    DoubledOnce(quota);
    assert NewQuota(LAST_QUOTA) == 4093640704;
    if quota < LAST_QUOTA {
      NoWrap(quota);
    }
  }

  /** One answer of the more_lines callback: some lines and how many they are. */
  datatype Chunk = Chunk(lines: seq<F.Pixel>, count: nat)

  /** The lines of an image from its chunks. */
  ghost function Lines(chunks: seq<Chunk>): seq<F.Pixel> {
    if chunks == [] then [] else Lines(chunks[..|chunks| - 1]) + chunks[|chunks| - 1].lines
  }

  ghost function LineCount(chunks: seq<Chunk>): nat {
    if chunks == [] then 0 else LineCount(chunks[..|chunks| - 1]) + chunks[|chunks| - 1].count
  }

  /** The chunks make up an image of `height` lines of `row` pixel cells. */
  ghost predicate ChunksOk(chunks: seq<Chunk>, row: nat, height: nat) {
    && row > 0 && height > 0 && LineCount(chunks) == height
    && forall i :: 0 <= i < |chunks| ==> chunks[i].count > 0 && |chunks[i].lines| == row * chunks[i].count
  }

  /** The pixels of an image; palette cells hold several. */
  function PixelsNum(kind: ImageType, row: nat, height: nat): nat {
    height * row * PixelsPerByte(kind)
  }

  /** __get_pixels_num: the product is cut to 32 bits before it is divided. */
  function CountPixels(kind: ImageType, row: nat, height: nat): nat {
    if IsPalette(kind) then PixelsNum(kind, row, height) % UINT32
    else height * row * BytesPerPixel(kind) % UINT32 / BytesPerPixel(kind)
  }

  /** The pixels that glz_dictionary_window_add_image counts for a chunk of `count` lines. */
  function CountShare(pixels: nat, height: nat, count: nat): nat
    requires height > 0
  {
    pixels * count % UINT32 / height
  }

  /** No product of the two counts needs more than 32 bits. */
  ghost predicate Uncut(kind: ImageType, row: nat, height: nat, chunks: seq<Chunk>) {
    && Product(kind, row, height) < UINT32
    && forall i :: 0 <= i < |chunks| ==> PixelsNum(kind, row, height) * chunks[i].count < UINT32
  }

  /** So far that is needed for all chunks but the last; of the last one something must be counted. */
  ghost predicate Countable(kind: ImageType, row: nat, height: nat, chunks: seq<Chunk>) {
    && chunks != [] && height > 0 && Uncut(kind, row, height, chunks[..|chunks| - 1])
    && CountShare(PixelsNum(kind, row, height), height, chunks[|chunks| - 1].count) > 0
  }

  lemma DividesBack(a: nat, x: nat, d: nat)
    requires d > 0 && a == d * x
    ensures a % UINT32 / d <= x
    ensures a % UINT32 / d == x <==> a < UINT32
  {
    var m := a % UINT32;
    if a < UINT32 {
      Share(a, d, x);
    } else {
      Division(m, d);
      if m / d >= x {
        NotLess(d, m / d, x);
      }
    }
  }

  lemma NotLess(d: nat, q: nat, x: nat)
    requires q >= x
    ensures d * q >= d * x
  {
    assert d * q == d * x + d * (q - x);
  }

  lemma PixelsTimes(kind: ImageType, row: nat, height: nat, count: nat)
    ensures PixelsNum(kind, row, height) * count == height * (row * count * PixelsPerByte(kind))
  {
    Regrouped(height, row, PixelsPerByte(kind), count);
  }

  /** A count is never too large, and right exactly if the product is not cut. */
  lemma ShareExact(kind: ImageType, row: nat, height: nat, count: nat)
    requires height > 0
    ensures CountShare(PixelsNum(kind, row, height), height, count) <= row * count * PixelsPerByte(kind)
    ensures CountShare(PixelsNum(kind, row, height), height, count) == row * count * PixelsPerByte(kind)
       <==> PixelsNum(kind, row, height) * count < UINT32
  {
    hide PixelsNum, PixelsPerByte;
    PixelsTimes(kind, row, height, count);
    DividesBack(PixelsNum(kind, row, height) * count, row * count * PixelsPerByte(kind), height);
  }

  /** The product that __get_pixels_num computes. */
  function Product(kind: ImageType, row: nat, height: nat): nat {
    if IsPalette(kind) then PixelsNum(kind, row, height) else height * row * BytesPerPixel(kind)
  }

  lemma Commutes(x: nat, y: nat)
    ensures x * y == y * x
  {
  }

  lemma CountExact(kind: ImageType, row: nat, height: nat)
    ensures CountPixels(kind, row, height) == PixelsNum(kind, row, height) <==> Product(kind, row, height) < UINT32
  {
    if !IsPalette(kind) {
      var x, d := height * row, BytesPerPixel(kind);
      Commutes(x, d);
      DividesBack(x * d, x, d);
    }
  }

  /** The pixels of a chunk are counted right. */
  ghost predicate ShareRight(kind: ImageType, row: nat, height: nat, count: nat)
    requires height > 0
  {
    CountShare(PixelsNum(kind, row, height), height, count) == row * count * PixelsPerByte(kind)
  }

  /**
   Both counts are right exactly when no product is cut. The offset of a segment is
   the sum of the counts before it, so that is what all offsets need of the chunks
   but the last.
   */
  lemma CountsExact(kind: ImageType, row: nat, height: nat, chunks: seq<Chunk>)
    requires height > 0
    ensures Uncut(kind, row, height, chunks) <==>
            && CountPixels(kind, row, height) == PixelsNum(kind, row, height)
            && forall i :: 0 <= i < |chunks| ==> ShareRight(kind, row, height, chunks[i].count)
  {
    CountExact(kind, row, height);
    forall i | 0 <= i < |chunks|
      ensures ShareRight(kind, row, height, chunks[i].count)
         <==> PixelsNum(kind, row, height) * chunks[i].count < UINT32
    {
      ShareExact(kind, row, height, chunks[i].count);
    }
  }

  /** The pixels of a chunk. */
  ghost function ChunkPixels(chunk: Chunk, kind: ImageType): nat {
    |chunk.lines| * PixelsPerByte(kind)
  }

  lemma ChunkCount(kind: ImageType, row: nat, height: nat, chunks: seq<Chunk>, i: nat)
    requires Countable(kind, row, height, chunks) && ChunksOk(chunks, row, height) && i < |chunks|
    ensures var share := CountShare(PixelsNum(kind, row, height), height, chunks[i].count);
            0 < share <= ChunkPixels(chunks[i], kind) && (i + 1 < |chunks| ==> share == ChunkPixels(chunks[i], kind))
  {
    ShareExact(kind, row, height, chunks[i].count);
    if i + 1 < |chunks| {
      assert chunks[..|chunks| - 1][i] == chunks[i];
      Multiple(row, chunks[i].count);
      Multiple(row * chunks[i].count, PixelsPerByte(kind));
    }
  }

  lemma PixelsOfNext(kind: ImageType, row: nat, height: nat, chunks: seq<Chunk>, i: nat)
    requires ChunksOk(chunks, row, height) && i < |chunks|
    ensures PixelsOf(chunks[..i + 1], row, kind) == PixelsOf(chunks[..i], row, kind) + ChunkPixels(chunks[i], kind)
    ensures i + 1 == |chunks| ==>
              CountedPixels(kind, row, height, chunks)
              == PixelsOf(chunks[..i], row, kind) + CountShare(PixelsNum(kind, row, height), height, chunks[i].count)
  {
    assert chunks[..i + 1][..i] == chunks[..i];
    assert i + 1 == |chunks| ==> chunks[..|chunks| - 1] == chunks[..i];
  }

  /**
   An image of 4096 by 2160 pixels. In one chunk of lines its segment is counted with
   a tenth of its pixels, which does no harm to the image; in two chunks the second
   segment starts at the wrong offset.
   */
  lemma LargeImageShare()
    ensures PixelsNum(RGB32, 4096, 2160) == 8847360 && CountShare(8847360, 2160, 2160) == 893716
    ensures CountShare(8847360, 2160, 1080) == 446858 && 4096 * 1080 * PixelsPerByte(RGB32) == 4423680
  {
  }

  lemma {:induction false} FewerLines(chunks: seq<Chunk>, i: nat)
    requires i <= |chunks|
    ensures LineCount(chunks[..i]) <= LineCount(chunks)
    ensures i < |chunks| ==> LineCount(chunks[..i]) + chunks[i].count == LineCount(chunks[..i + 1]) <= LineCount(chunks)
    ensures i < |chunks| ==> Lines(chunks[..i + 1]) == Lines(chunks[..i]) + chunks[i].lines
    decreases |chunks| - i
  {
    if i < |chunks| {
      assert chunks[..i + 1][..i] == chunks[..i];
      FewerLines(chunks, i + 1);
    } else {
      assert chunks[..i] == chunks;
    }
  }

  lemma {:induction false} AllLinesRead(chunks: seq<Chunk>, i: nat)
    requires i <= |chunks| && LineCount(chunks[..i]) == LineCount(chunks)
    requires forall j :: 0 <= j < |chunks| ==> chunks[j].count > 0
    ensures i == |chunks|
  {
    if i < |chunks| {
      FewerLines(chunks, i);
    }
  }

  /** The pixels of the chunks, palette cells counted by their pixels. */
  ghost function PixelsOf(chunks: seq<Chunk>, row: nat, kind: ImageType): nat {
    if chunks == [] then 0
    else PixelsOf(chunks[..|chunks| - 1], row, kind) + row * chunks[|chunks| - 1].count * PixelsPerByte(kind)
  }

  /** The pixels that are counted for an image, with its last chunk as its product is cut. */
  ghost function CountedPixels(kind: ImageType, row: nat, height: nat, chunks: seq<Chunk>): nat
    requires chunks != [] && height > 0
  {
    PixelsOf(chunks[..|chunks| - 1], row, kind)
    + CountShare(PixelsNum(kind, row, height), height, chunks[|chunks| - 1].count)
  }

  /** All its pixels are, exactly if the product of the last chunk is not cut either. */
  lemma CountedAll(kind: ImageType, row: nat, height: nat, chunks: seq<Chunk>)
    requires ChunksOk(chunks, row, height) && chunks != []
    ensures CountedPixels(kind, row, height, chunks) <= PixelsNum(kind, row, height)
    ensures CountedPixels(kind, row, height, chunks) == PixelsNum(kind, row, height)
       <==> PixelsNum(kind, row, height) * chunks[|chunks| - 1].count < UINT32
  {
    PixelsAddUp(chunks, row, kind);
    ShareExact(kind, row, height, chunks[|chunks| - 1].count);
  }

  lemma {:induction false} PixelsAddUp(chunks: seq<Chunk>, row: nat, kind: ImageType)
    ensures PixelsOf(chunks, row, kind) == PixelsNum(kind, row, LineCount(chunks))
  {
    if chunks != [] {
      var before := chunks[..|chunks| - 1];
      PixelsAddUp(before, row, kind);
      OneMore(row, PixelsPerByte(kind), LineCount(before), chunks[|chunks| - 1].count);
    }
  }

  lemma OneMore(row: nat, p: nat, line: nat, count: nat)
    ensures (line + count) * row * p == line * row * p + row * count * p
  {
    Distribute(line, count, row);
    Distribute(line * row, count * row, p);
  }

  lemma Regrouped(h: nat, c: nat, p: nat, n: nat)
    ensures h * c * p * n == h * (c * n * p)
  {
  }

  lemma Share(a: nat, h: nat, x: nat)
    requires h > 0 && a == h * x && a < UINT32
    ensures a % UINT32 / h == x
  {
    QuotientOf(h, x);
  }

  lemma QuotientOf(h: nat, x: nat)
    requires h > 0
    ensures h * x / h == x
  {
    var a := h * x;
    Division(a, h);
    SameQuotient(h, x, a / h, a % h);
  }

  lemma Division(a: nat, h: nat)
    requires h > 0
    ensures a == h * (a / h) + a % h && a / h >= 0
  {
  }

  lemma SameQuotient(h: nat, x: nat, q: nat, r: nat)
    requires h > 0 && h * x == h * q + r && r < h
    ensures x == q
  {
    assert h * (x - q) == h * x - h * q;
    assert h * (q - x) == h * q - h * x;
    if x > q {
      Multiple(h, x - q);
    } else if q > x {
      Multiple(h, q - x);
    }
  }

  lemma Multiple(h: nat, d: nat)
    requires d >= 1
    ensures h * d >= h
  {
  }

  /** IMAGE_SEG_IS_EARLIER. */
  predicate IsEarlier(segs: seq<Seg>, dst: Option<nat>, src: Option<nat>)
    requires (dst.Some? ==> dst.value < |segs|) && (src.Some? ==> src.value < |segs|)
  {
    src.None? || (dst.Some? && segs[dst.value].pixelsSoFar < segs[src.value].pixelsSoFar)
  }

  /** What the window fields say while images are being released. */
  ghost function Settled(w: Win, s: Shape): Win {
    w.(usedSegsHead := First(s.used), usedSegsTail := Last(s.used), usedImagesTail := Last(s.imgs))
  }

  /** The pixels that an encoder with image `h` as its head has in its window. */
  ghost function WindowPixels(w: Win, s: Shape, h: nat): int
    requires Structured(w, s) && h <= |s.imgs|
  {
    StartInRange(w, s, h);
    w.pixelsSoFar - PixelsAt(w, s, s.starts[h])
  }

  lemma StartInRange(w: Win, s: Shape, h: nat)
    requires Structured(w, s) && h <= |s.imgs|
    ensures s.starts[h] <= |s.used| && (h < |s.imgs| ==> s.starts[h] < s.starts[h + 1] <= |s.used|)
  {
    if h < |s.imgs| {
      assert BlockOk(w, s, h);
    }
  }

  /** The pixels of the images from image `h` on; the counts of segments may fall short of them. */
  ghost function ImagePixels(w: Win, s: Shape, h: nat): nat
    requires InRange(s.imgs, |w.images|) && h <= |s.imgs|
    decreases |s.imgs| - h
  {
    if h == |s.imgs| then 0 else w.images[s.imgs[h]].size + ImagePixels(w, s, h + 1)
  }

  /** From image `h` on there is room for `size` more pixels. */
  ghost predicate Fits(w: Win, s: Shape, h: nat, size: nat)
    requires Structured(w, s) && h <= |s.imgs|
  {
    ImagePixels(w, s, h) + size <= w.sizeLimit
  }

  ghost function ImageAt(s: Shape, h: nat): Option<nat> {
    if h < |s.imgs| then Some(s.imgs[h]) else None
  }

  lemma Ends(w: Win, s: Shape, lastId: nat)
    requires Inv(w, s, lastId) && Structured(w, s)
    ensures w.usedImagesHead == First(s.imgs) && w.freeImages == First(s.spare) && InRange(s.spare, |w.images|)
    ensures WindowPixels(w, s, |s.imgs|) == 0
  {
  }

  lemma CurrentSize(w: Win, s: Shape, lastId: nat)
    requires Inv(w, s, lastId) && Structured(w, s) && s.imgs != []
    ensures s.used != [] && w.usedSegsHead == First(s.used) && w.usedSegsTail == Last(s.used)
    ensures w.segs[s.used[0]].image == Some(s.imgs[0])
    ensures var tail := w.segs[s.used[|s.used| - 1]];
            tail.pixelsNum + tail.pixelsSoFar - w.segs[s.used[0]].pixelsSoFar == WindowPixels(w, s, 0) >= 0
  {
    StartInRange(w, s, 0);
    assert BlockOk(w, s, 0);
    PixelsIncrease(w, s, 0, |s.used|);
    assert PixelsAt(w, s, |s.used|) == PixelsAt(w, s, |s.used| - 1) + w.segs[s.used[|s.used| - 1]].pixelsNum;
  }

  lemma NextHead(w: Win, s: Shape, lastId: nat, h: nat)
    requires Inv(w, s, lastId) && Structured(w, s) && h < |s.imgs|
    ensures w.images[s.imgs[h]].next == ImageAt(s, h + 1)
  {
  }

  // ----- Finding the head -----

  /** By how much the counts from image `h` on fall short. */
  ghost function Short(w: Win, s: Shape, h: nat): int
    requires Structured(w, s) && h <= |s.imgs|
  {
    ImagePixels(w, s, h) - WindowPixels(w, s, h)
  }

  /** An image is counted with at most its pixels. */
  lemma CountedImage(w: Win, s: Shape, lastId: nat, h: nat)
    requires Inv(w, s, lastId) && Structured(w, s) && h < |s.imgs|
    ensures WindowPixels(w, s, h) - WindowPixels(w, s, h + 1) <= w.images[s.imgs[h]].size
  {
    assert BlockOk(w, s, h);
    var last := s.starts[h + 1] - 1;
    assert PixelsAt(w, s, last + 1) == PixelsAt(w, s, last) + w.segs[s.used[last]].pixelsNum;
  }

  lemma {:induction false} ShortShrinks(w: Win, s: Shape, lastId: nat, g: nat, h: nat)
    requires Inv(w, s, lastId) && Structured(w, s) && g <= h <= |s.imgs|
    ensures Short(w, s, g) >= Short(w, s, h)
    decreases h - g
  {
    hide Inv;
    if g < h {
      CountedImage(w, s, lastId, g);
      ShortShrinks(w, s, lastId, g + 1, h);
    }
  }

  lemma NeverOver(w: Win, s: Shape, lastId: nat, h: nat)
    requires Inv(w, s, lastId) && Structured(w, s) && h <= |s.imgs|
    ensures Short(w, s, h) >= 0
  {
    hide Inv;
    ShortShrinks(w, s, lastId, h, |s.imgs|);
    Ends(w, s, lastId);
  }

  /** What the walk takes for the pixels from image `h` on. */
  ghost function WalkPixels(w: Win, s: Shape, h: nat): int
    requires Structured(w, s) && h <= |s.imgs|
  {
    ImagePixels(w, s, h) - Short(w, s, 0)
  }

  /** The same with `size` more, as 32 bits hold it. */
  ghost function Sum32(w: Win, s: Shape, h: nat, size: nat): nat
    requires Structured(w, s) && h <= |s.imgs|
  {
    (WalkPixels(w, s, h) + size) % UINT32
  }

  /** The oldest image for which that sum is within the limit. */
  ghost predicate FirstRoom(w: Win, s: Shape, size: nat, h: nat)
    requires Structured(w, s)
  {
    && h <= |s.imgs| && Sum32(w, s, h, size) <= w.sizeLimit
    && forall g :: 0 <= g < h ==> Sum32(w, s, g, size) > w.sizeLimit
  }

  /** No image is larger than the window. */
  ghost predicate SizesOk(w: Win, s: Shape) {
    InRange(s.imgs, |w.images|) && forall k :: 0 <= k < |s.imgs| ==> w.images[s.imgs[k]].size <= w.sizeLimit
  }

  lemma ModDown(x: int, y: nat)
    requires x % UINT32 >= y
    ensures (x - y) % UINT32 == x % UINT32 - y
  {
  }

  /** While there is no room, the sum goes down by each image: it cannot wrap below zero. */
  lemma {:induction false} SumDown(w: Win, s: Shape, size: nat, h: nat)
    requires Structured(w, s) && SizesOk(w, s) && h <= |s.imgs|
    requires forall g :: 0 <= g < h ==> Sum32(w, s, g, size) > w.sizeLimit
    ensures Sum32(w, s, h, size) + ImagePixels(w, s, 0) - ImagePixels(w, s, h) == Sum32(w, s, 0, size)
  {
    if h > 0 {
      SumDown(w, s, size, h - 1);
      assert Sum32(w, s, h - 1, size) > w.sizeLimit;
      ModDown(WalkPixels(w, s, h - 1) + size, w.images[s.imgs[h - 1]].size);
    }
  }

  /** So the walk finds room before it has left the list. */
  lemma RoomAtEnd(w: Win, s: Shape, lastId: nat, size: nat, h: nat)
    requires Inv(w, s, lastId) && Structured(w, s) && SizesOk(w, s) && size <= w.sizeLimit && h <= |s.imgs|
    requires forall g :: 0 <= g < h ==> Sum32(w, s, g, size) > w.sizeLimit
    ensures Sum32(w, s, h, size) > w.sizeLimit ==> h < |s.imgs|
  {
    hide Inv;
    SumDown(w, s, size, h);
    NeverOver(w, s, lastId, 0);
    WindowPositive(w, s, lastId);
  }

  lemma WindowPositive(w: Win, s: Shape, lastId: nat)
    requires Inv(w, s, lastId) && Structured(w, s)
    ensures WindowPixels(w, s, 0) >= 0
  {
    hide Inv;
    if s.imgs == [] {
      Ends(w, s, lastId);
    } else {
      CurrentSize(w, s, lastId);
    }
  }

  /**
   The pixels that the sum misses: those that were not counted, and 2^32 for each
   time that it has wrapped around.
   */
  ghost function Missed(w: Win, s: Shape, size: nat): int
    requires Structured(w, s)
  {
    Short(w, s, 0) + (WindowPixels(w, s, 0) + size) / UINT32 * UINT32
  }

  /** From image `g` on there is no room, but without the missed pixels there seems to be. */
  ghost predicate Misjudged(w: Win, s: Shape, size: nat, g: nat)
    requires Structured(w, s) && g <= |s.imgs|
  {
    w.sizeLimit < ImagePixels(w, s, g) + size <= w.sizeLimit + Missed(w, s, size)
  }

  ghost predicate RoomIsReal(w: Win, s: Shape, size: nat)
    requires Structured(w, s)
  {
    forall g :: 0 <= g <= |s.imgs| ==> !Misjudged(w, s, size, g)
  }

  /** As far as the walk goes, the sum is the pixels without those that it misses. */
  lemma SumMisses(w: Win, s: Shape, lastId: nat, size: nat, h: nat)
    requires Inv(w, s, lastId) && Structured(w, s) && SizesOk(w, s) && h <= |s.imgs|
    requires forall g :: 0 <= g < h ==> Sum32(w, s, g, size) > w.sizeLimit
    ensures Sum32(w, s, h, size) + Missed(w, s, size) == ImagePixels(w, s, h) + size
    ensures Missed(w, s, size) >= 0
    ensures WindowPixels(w, s, 0) + size < UINT32 ==> Missed(w, s, size) == Short(w, s, 0)
    ensures WindowPixels(w, s, 0) + size >= UINT32 ==> Missed(w, s, size) >= UINT32
  {
    hide Inv, Structured;
    SumDown(w, s, size, h);
    NeverOver(w, s, lastId, 0);
    WindowPositive(w, s, lastId);
    Wraps(WindowPixels(w, s, 0) + size);
  }

  lemma Wraps(x: nat)
    ensures x == x % UINT32 + x / UINT32 * UINT32
    ensures if x < UINT32 then x / UINT32 == 0 else x / UINT32 >= 1
  {
  }

  lemma {:induction false} FewerPixels(w: Win, s: Shape, g: nat, h: nat)
    requires InRange(s.imgs, |w.images|) && g <= h <= |s.imgs|
    ensures ImagePixels(w, s, g) >= ImagePixels(w, s, h)
    decreases h - g
  {
    if g < h {
      FewerPixels(w, s, g + 1, h);
    }
  }

  /** From the images before the head there is no room, whatever was counted. */
  lemma NoRoomBefore(w: Win, s: Shape, lastId: nat, size: nat, h: nat, g: nat)
    requires Inv(w, s, lastId) && Structured(w, s) && SizesOk(w, s) && FirstRoom(w, s, size, h) && g < h
    ensures ImagePixels(w, s, g) + size > w.sizeLimit + Missed(w, s, size) >= w.sizeLimit
  {
    hide Inv, Structured;
    SumMisses(w, s, lastId, size, g);
  }

  /**
   The head that is found keeps the window within its limit if and only if no image
   is misjudged in the state before. For images that were wholly counted that means
   that the sum of all pixels does not wrap around.
   */
  lemma HeadFitsIff(w: Win, s: Shape, lastId: nat, size: nat, h: nat)
    requires Inv(w, s, lastId) && Structured(w, s) && SizesOk(w, s)
    requires w.sizeLimit < UINT32 && FirstRoom(w, s, size, h)
    ensures Fits(w, s, h, size) <==> RoomIsReal(w, s, size)
    ensures Short(w, s, 0) == 0 ==> (Fits(w, s, h, size) <==> WindowPixels(w, s, 0) + size < UINT32)
  {
    hide Inv, Structured;
    SumMisses(w, s, lastId, size, h);
    assert !Fits(w, s, h, size) ==> Misjudged(w, s, size, h);
    if Fits(w, s, h, size) {
      forall g | 0 <= g <= |s.imgs|
        ensures !Misjudged(w, s, size, g)
      {
        if g < h {
          NoRoomBefore(w, s, lastId, size, h, g);
        } else {
          FewerPixels(w, s, h, g);
        }
      }
    }
  }

  /** The walk of glz_dictionary_window_get_new_head has come to image `h` and holds `cur`. */
  ghost predicate Walked(w: Win, s: Shape, size: nat, h: nat, head: Option<nat>, cur: nat)
    requires Structured(w, s)
  {
    && h <= |s.imgs| && head == ImageAt(s, h) && cur == WalkPixels(w, s, h) % UINT32
    && (forall g :: 0 <= g < h ==> Sum32(w, s, g, size) > w.sizeLimit)
  }

  lemma WalkSum(w: Win, s: Shape, size: nat, h: nat, head: Option<nat>, cur: nat)
    requires Structured(w, s) && Walked(w, s, size, h, head, cur)
    ensures (cur + size) % UINT32 == Sum32(w, s, h, size)
  {
    Mod32(WalkPixels(w, s, h), size);
  }

  lemma WalkOn(w: Win, s: Shape, lastId: nat, size: nat, h: nat, head: Option<nat>, cur: nat)
    requires Inv(w, s, lastId) && Structured(w, s) && SizesOk(w, s) && Walked(w, s, size, h, head, cur)
    requires size <= w.sizeLimit && (cur + size) % UINT32 > w.sizeLimit
    ensures h < |s.imgs| && head == Some(s.imgs[h]) && s.imgs[h] < |w.images|
    ensures var image := w.images[s.imgs[h]];
            Walked(w, s, size, h + 1, image.next, (cur - image.size) % UINT32)
  {
    hide Inv;
    WalkSum(w, s, size, h, head, cur);
    RoomAtEnd(w, s, lastId, size, h);
    NextHead(w, s, lastId, h);
    var gone: int := w.images[s.imgs[h]].size;
    Mod32(WalkPixels(w, s, h), -gone);
  }

  lemma Mod32(x: int, y: int)
    ensures (x % UINT32 + y) % UINT32 == (x + y) % UINT32
  {
  }

  /** The invariant of the dictionary; the images in use are those that were sent. */
  ghost predicate DictionaryOk(w: Win, s: Shape, lastId: nat, history: History) {
    && Inv(w, s, lastId) && s.taken == []
    && Structured(w, s) && Recorded(w, s, history)
    && (forall id :: id in history ==> id < lastId)
    && w.sizeLimit < UINT32 && SizesOk(w, s) && QuotaOk(|w.segs|)
  }

  ghost predicate QuotaOk(quota: nat) {
    Doubled(quota) && INIT_IMAGE_SEGS_NUM <= quota <= LAST_QUOTA
  }

  /** The next segment belongs to the oldest image exactly inside its block. */
  lemma StepInBlock(w: Win, s: Shape, lastId: nat, i: nat)
    requires Inv(w, s, lastId) && s.imgs != [] && i < s.starts[1] <= |s.used|
    ensures var next := w.segs[s.used[i]].next;
            && (next.Some? ==> next.value < |w.segs|)
            && (next.Some? && w.segs[next.value].image == Some(s.imgs[0]) <==> i + 1 < s.starts[1])
            && (i + 1 < s.starts[1] ==> next == Some(s.used[i + 1]))
  {
    assert BlockOk(w, s, 0);
    if i + 1 < |s.used| {
      assert w.segs[s.used[i]].next == Some(s.used[i + 1]);
      var k := FindBlock(w, s, i + 1, |s.imgs|);
      if k > 1 {
        StartsIncrease(w, s, 1, k);
      }
    }
  }

  /** The window holds the images of another one from its `i`-th image on, with their segments as they were. */
  ghost predicate SuffixOf(w: Win, s: Shape, w0: Win, s0: Shape, i: nat) {
    && i <= |s0.imgs| && |s0.starts| == |s0.imgs| + 1 && |s.starts| == |s.imgs| + 1 && s0.starts[i] <= |s0.used|
    && s.imgs == s0.imgs[i..] && s.used == s0.used[s0.starts[i]..]
    && (forall j :: 0 <= j < |s.starts| ==> s.starts[j] + s0.starts[i] == s0.starts[i + j])
    && InRange(s.used, |w.segs|) && InRange(s.used, |w0.segs|) && w.pixelsSoFar == w0.pixelsSoFar
    && (forall p :: 0 <= p < |s.used| ==> SameSeg(w.segs[s.used[p]], w0.segs[s.used[p]]))
    && InRange(s.imgs, |w.images|) && InRange(s.imgs, |w0.images|)
    && (forall p :: 0 <= p < |s.imgs| ==> SameImage(w.images[s.imgs[p]], w0.images[s.imgs[p]]))
  }

  lemma SuffixRecords(w: Win, s: Shape, w0: Win, s0: Shape, i: nat)
    requires SuffixOf(w, s, w0, s0, i) && s.imgs != [] && 0 < s.starts[1] <= |s.used| && Distinct(s.imgs)
    requires Distinct(s.used)
    ensures var w', s' := Released(w, s), Shorter(s);
            && (forall p :: 0 <= p < |s'.used| ==> SameSeg(w'.segs[s'.used[p]], w0.segs[s'.used[p]]))
            && (forall p :: 0 <= p < |s'.imgs| ==> SameImage(w'.images[s'.imgs[p]], w0.images[s'.imgs[p]]))
  {
    var w', s' := Released(w, s), Shorter(s);
    forall p | 0 <= p < |s'.used|
      ensures SameSeg(w'.segs[s'.used[p]], w0.segs[s'.used[p]])
    {
      assert s'.used[p] == s.used[s.starts[1] + p];
    }
    forall p | 0 <= p < |s'.imgs|
      ensures SameImage(w'.images[s'.imgs[p]], w0.images[s'.imgs[p]])
    {
      assert s'.imgs[p] == s.imgs[1 + p];
    }
  }

  lemma SuffixStep(w: Win, s: Shape, lastId: nat, w0: Win, s0: Shape, i: nat)
    requires SuffixOf(w, s, w0, s0, i) && Releasable(w, s, lastId)
    ensures SuffixOf(Released(w, s), Shorter(s), w0, s0, i + 1)
  {
    forall j | 0 <= j < |s.imgs|
      ensures Shorter(s).starts[j] + s.starts[1] == s.starts[j + 1]
    {
      ShorterStarts(w, s, lastId, j);
    }
    SuffixRecords(w, s, w0, s0, i);
  }

  /** The state between two turns of the loop of glz_dictionary_window_remove_head. */
  ghost predicate Removing(w: Win, s: Shape, lastId: nat, history: History, w0: Win, s0: Shape, i: nat) {
    var settled := Settled(w, s);
    && Inv(settled, s, lastId) && Structured(settled, s) && Recorded(settled, s, history) && s.taken == []
    && !Busy(w)
    && SuffixOf(settled, s, w0, s0, i)
    && w == w0.(segs := w.segs, freeSegsHead := w.freeSegsHead, images := w.images, freeImages := w.freeImages,
            usedImagesHead := w.usedImagesHead)
    && |w.segs| == |w0.segs|
  }

  /** One turn of that loop. */
  ghost function WithoutOldest(w: Win, s: Shape): Win
    requires s.imgs != [] && |s.starts| == |s.imgs| + 1 && 0 < s.starts[1] <= |s.used|
    requires InRange(s.imgs, |w.images|) && InRange(s.used, |w.segs|)
  {
    var last := s.used[s.starts[1] - 1];
    var m := s.imgs[0];
    w.(segs := w.segs[last := w.segs[last].(next := w.freeSegsHead)], freeSegsHead := Some(s.used[0]),
    images := w.images[m := w.images[m].(alive := false, next := w.freeImages)], freeImages := Some(m),
    usedImagesHead := w.images[m].next)
  }

  lemma RemovingStep(w: Win, s: Shape, lastId: nat, history: History, w0: Win, s0: Shape, i: nat)
    requires Removing(w, s, lastId, history, w0, s0, i) && s.imgs != [] && 0 < s.starts[1] <= |s.used|
    ensures Removing(WithoutOldest(w, s), Shorter(s), lastId, history, w0, s0, i + 1)
  {
    hide Inv;
    var settled := Settled(w, s);
    assert Settled(WithoutOldest(w, s), Shorter(s)) == Released(settled, s);
    ReleaseKeepsInv(settled, s, lastId);
    ReleaseKeepsRecord(settled, s, lastId, history, Released(settled, s), Shorter(s));
    SuffixStep(settled, s, lastId, w0, s0, i);
  }

  lemma OldestImage(w: Win, s: Shape, lastId: nat)
    requires Inv(Settled(w, s), s, lastId)
    ensures w.usedImagesHead == First(s.imgs) && InRange(s.imgs, |w.images|) && InRange(s.used, |w.segs|)
  {
  }

  lemma RemovingHead(w: Win, s: Shape, lastId: nat, history: History, w0: Win, s0: Shape, i: nat)
    requires Removing(w, s, lastId, history, w0, s0, i) && Distinct(s0.imgs)
    ensures i <= |s0.imgs| && w.usedImagesHead == ImageAt(s0, i)
    ensures forall h :: i < h <= |s0.imgs| ==> ImageAt(s0, h) != ImageAt(s0, i)
  {
  }

  lemma StartRemoving(w: Win, s: Shape, lastId: nat, history: History)
    requires DictionaryOk(w, s, lastId, history) && !Busy(w)
    ensures Removing(w, s, lastId, history, w, s, 0)
  {
    assert Settled(w, s) == w;
  }

  /** What is left to do at the end is to set the head. */
  ghost function HeadSet(w: Win, s: Shape): Win
    requires InRange(s.imgs, |w.images|)
  {
    if s.imgs == [] then w.(usedSegsHead := None, usedSegsTail := None, usedImagesTail := None)
    else w.(usedSegsHead := Some(w.images[s.imgs[0]].firstSeg))
  }

  lemma HeadSettles(w: Win, s: Shape, lastId: nat, w0: Win, s0: Shape, h: nat)
    requires Inv(w0, s0, lastId) && Inv(Settled(w, s), s, lastId) && SuffixOf(Settled(w, s), s, w0, s0, h)
    requires w.usedSegsTail == w0.usedSegsTail && w.usedImagesTail == w0.usedImagesTail
    ensures w.usedImagesHead == ImageAt(s, 0) && InRange(s.imgs, |w.images|) && HeadSet(w, s) == Settled(w, s)
  {
    if s.imgs != [] {
      assert BlockOk(Settled(w, s), s, 0);
    }
  }

  lemma SuffixSizes(w: Win, s: Shape, w0: Win, s0: Shape, h: nat)
    requires SuffixOf(w, s, w0, s0, h) && SizesOk(w0, s0) && w.sizeLimit == w0.sizeLimit
    ensures SizesOk(w, s)
  {
  }

  lemma EndRemoving(w: Win, s: Shape, lastId: nat, history: History, w0: Win, s0: Shape, h: nat)
    requires DictionaryOk(w0, s0, lastId, history) && Removing(w, s, lastId, history, w0, s0, h)
    ensures w.usedImagesHead == ImageAt(s, 0) && InRange(s.imgs, |w.images|)
    ensures DictionaryOk(HeadSet(w, s), s, lastId, history) && SuffixOf(HeadSet(w, s), s, w0, s0, h)
  {
    hide Inv, Structured, Recorded, SuffixOf, SizesOk;
    HeadSettles(w, s, lastId, w0, s0, h);
    SuffixSizes(Settled(w, s), s, w0, s0, h);
  }

  /** The pixels of a window from each image on are those of another window, `k` images later. */
  ghost predicate PixelsFrom(w: Win, s: Shape, w0: Win, s0: Shape, k: nat) {
    && k <= |s0.imgs| && |s.imgs| == |s0.imgs| - k && InRange(s.imgs, |w.images|) && InRange(s0.imgs, |w0.images|)
    && forall g :: 0 <= g <= |s.imgs| ==> ImagePixels(w, s, g) == ImagePixels(w0, s0, g + k)
  }

  lemma SuffixPixels(w: Win, s: Shape, w0: Win, s0: Shape, i: nat)
    requires SuffixOf(w, s, w0, s0, i) && Structured(w, s) && Structured(w0, s0)
    ensures WindowPixels(w, s, 0) == WindowPixels(w0, s0, i) && PixelsFrom(w, s, w0, s0, i)
  {
    forall g | 0 <= g <= |s.imgs|
      ensures ImagePixels(w, s, g) == ImagePixels(w0, s0, g + i)
    {
      SuffixImages(w, s, w0, s0, i, g);
    }
  }

  lemma {:induction false} SuffixImages(w: Win, s: Shape, w0: Win, s0: Shape, i: nat, k: nat)
    requires SuffixOf(w, s, w0, s0, i) && InRange(s0.imgs, |w0.images|) && k <= |s.imgs|
    ensures ImagePixels(w, s, k) == ImagePixels(w0, s0, i + k)
    decreases |s.imgs| - k
  {
    if k < |s.imgs| {
      SuffixImages(w, s, w0, s0, i, k + 1);
      assert s.imgs[k] == s0.imgs[i + k] && SameImage(w.images[s.imgs[k]], w0.images[s.imgs[k]]);
    }
  }

  // ----- Adding an image -----

  /**
   An image on its way into the window: the window and lists it started from, its
   record and type, the pixel count at its start, and its segments and lines so far.
   */
  datatype Job = Job(w0: Win, s0: Shape, m: nat, kind: ImageType, built: seq<nat>, lines: seq<F.Pixel>)

  ghost predicate Adding(w: Win, s: Shape, lastId: nat, j: Job) {
    var base := j.w0.pixelsSoFar;
    && Inv(w.(pixelsSoFar := base), s, lastId) && SameWindow(j.w0, j.s0, w, s)
    && j.m < |w.images| && j.m !in s.imgs && j.m !in s.spare
    && w == w.(sizeLimit := j.w0.sizeLimit, encodersHeads := j.w0.encodersHeads,
            usedImagesHead := j.w0.usedImagesHead, usedImagesTail := j.w0.usedImagesTail,
            usedSegsHead := j.w0.usedSegsHead, usedSegsTail := j.w0.usedSegsTail)
    && Building(w.segs, j.built, j.m, j.kind, base, w.pixelsSoFar)
    && Joined(w.segs, j.built) == j.lines
    && QuotaOk(|w.segs|) && |j.w0.segs| <= |w.segs|
  }

  /** The segment before the next one was counted right. */
  ghost predicate LastExact(w: Win, j: Job) {
    j.built != [] ==> j.built[|j.built| - 1] < |w.segs| && Exact(w.segs[j.built[|j.built| - 1]], j.kind)
  }

  /** The pixels that an image has so far. */
  ghost function JobSize(w: Win, j: Job): int
    requires j.built != [] && InRange(j.built, |w.segs|)
  {
    TakenSize(w.segs, j.built, j.kind, j.w0.pixelsSoFar)
  }

  lemma StartFromSpare(w0: Win, s0: Shape, lastId: nat, kind: ImageType, w: Win, s: Shape)
    requires Inv(w0, s0, lastId) && s0.taken == [] && QuotaOk(|w0.segs|) && s0.spare != [] && s0.spare[0] < |w0.images|
    requires w == w0.(freeImages := w0.images[s0.spare[0]].next) && s == s0.(spare := s0.spare[1..])
    ensures Adding(w, s, lastId, Job(w0, s0, s0.spare[0], kind, [], []))
  {
    TakeImageKeepsInv(w0, s0, lastId, w, s);
    assert w.(pixelsSoFar := w0.pixelsSoFar) == w;
  }

  lemma StartFromNew(w0: Win, s0: Shape, lastId: nat, kind: ImageType, w: Win)
    requires Inv(w0, s0, lastId) && s0.taken == [] && QuotaOk(|w0.segs|)
    requires w == w0.(images := w0.images + [Image(0, kind, 0, 0, false, None)])
    ensures Adding(w, s0, lastId, Job(w0, s0, |w0.images|, kind, [], []))
  {
    OutsideKeepsInv(w0, s0, lastId, w);
    assert w.(pixelsSoFar := w0.pixelsSoFar) == w;
  }

  lemma BuildingSame(segs: seq<Seg>, segs': seq<Seg>, taken: seq<nat>, m: nat, kind: ImageType, base: nat, total: nat)
    requires Building(segs, taken, m, kind, base, total) && InRange(taken, |segs'|)
    requires forall i :: 0 <= i < |taken| ==> segs'[taken[i]] == segs[taken[i]]
    ensures Building(segs', taken, m, kind, base, total) && Joined(segs', taken) == Joined(segs, taken)
  {
    JoinedSame(segs, segs', taken);
  }

  lemma AddingGrow(w: Win, s: Shape, lastId: nat, j: Job, to: nat, w': Win, s': Shape)
    requires Adding(w, s, lastId, j) && s.taken == j.built && s.free == [] && |w.segs| < to && QuotaOk(to)
    requires w' == w.(segs := w.segs + NewSegs(|w.segs|, to), freeSegsHead := Some(|w.segs|))
    requires s' == s.(free := Places(|w.segs|, to))
    ensures Adding(w', s', lastId, j)
  {
    hide Inv;
    var base := j.w0.pixelsSoFar;
    GrowKeepsInv(w.(pixelsSoFar := base), s, lastId, to, w'.(pixelsSoFar := base), s');
    BuildingSame(w.segs, w'.segs, j.built, j.m, j.kind, base, w.pixelsSoFar);
  }

  lemma AddingTake(w: Win, s: Shape, lastId: nat, j: Job, w': Win, s': Shape)
    requires Adding(w, s, lastId, j) && s.taken == j.built && s.free != [] && s.free[0] < |w.segs|
    requires w' == w.(freeSegsHead := w.segs[s.free[0]].next)
    requires s' == s.(free := s.free[1..], taken := s.taken + [s.free[0]])
    ensures Adding(w', s', lastId, j)
  {
    hide Inv;
    var base := j.w0.pixelsSoFar;
    TakeKeepsInv(w.(pixelsSoFar := base), s, lastId, w'.(pixelsSoFar := base), s');
  }

  /** The segment array with segment `x` filled in and linked to the one before it. */
  ghost function Filled(segs: seq<Seg>, built: seq<nat>, x: nat, seg: Seg): seq<Seg>
    requires InRange(built, |segs|) && x < |segs|
  {
    if built == [] then segs[x := seg]
    else segs[x := seg][built[|built| - 1] := segs[built[|built| - 1]].(next := Some(x))]
  }

  lemma AddingFill(w: Win, s: Shape, lastId: nat, j: Job, x: nat, seg: Seg, w': Win)
    requires Adding(w, s, lastId, j) && s.taken == j.built + [x] && x < |w.segs|
    requires TakenOk(seg, j.m, j.kind) && seg.next.None? && seg.pixelsSoFar == w.pixelsSoFar
    requires LastExact(w, j)
    requires w' == w.(segs := Filled(w.segs, j.built, x, seg), pixelsSoFar := w.pixelsSoFar + seg.pixelsNum)
    ensures Adding(w', s, lastId, j.(built := j.built + [x], lines := j.lines + seg.lines))
  {
    hide Inv;
    var base := j.w0.pixelsSoFar;
    FilledKeepsInv(w.(pixelsSoFar := base), s, lastId, j.built, x, seg, w'.(pixelsSoFar := base));
    BuildOne(w.segs, j.built, j.m, j.kind, base, w.pixelsSoFar, x, seg, w'.segs);
    JoinedOne(w.segs, j.built, x, w'.segs);
  }

  /** The sizes after a segment has been filled in. */
  lemma FilledSizes(w: Win, j: Job, x: nat, seg: Seg, w': Win)
    requires InRange(j.built, |w.segs|) && x < |w.segs| && x !in j.built
    requires w' == w.(segs := Filled(w.segs, j.built, x, seg), pixelsSoFar := w.pixelsSoFar + seg.pixelsNum)
    requires seg.pixelsSoFar == w.pixelsSoFar
    ensures var j' := j.(built := j.built + [x], lines := j.lines + seg.lines);
            && InRange(j'.built, |w'.segs|)
            && JobSize(w', j') == w.pixelsSoFar + |seg.lines| * PixelsPerByte(j.kind) - j.w0.pixelsSoFar
            && (seg.pixelsNum == |seg.lines| * PixelsPerByte(j.kind) ==> LastExact(w', j'))
  {
  }

  /** A segment that can be filled in next. */
  lemma FillableSeg(j: Job, m: nat, lines: seq<F.Pixel>, size: nat, from: nat)
    requires m == j.m && 0 < size <= |lines| * PixelsPerByte(j.kind)
    ensures TakenOk(Seg(Some(m), lines, size, from, None), j.m, j.kind)
  {
  }

  lemma FilledKeepsInv(w: Win, s: Shape, lastId: nat, built: seq<nat>, x: nat, seg: Seg, w': Win)
    requires Inv(w, s, lastId) && s.taken == built + [x] && InRange(built, |w.segs|) && x < |w.segs|
    requires seg.image.Some? && seg.image.value < |w.images|
    requires w' == w.(segs := Filled(w.segs, built, x, seg))
    ensures Inv(w', s, lastId) && Distinct(built) && x !in built
    ensures InRange(s.used, |w.segs|) && forall i :: 0 <= i < |s.used| ==> w'.segs[s.used[i]] == w.segs[s.used[i]]
  {
    hide Inv;
    FilledOutside(w, s, lastId, built, x, seg, w');
    OutsideKeepsInv(w, s, lastId, w');
  }

  lemma FreeHead(w: Win, s: Shape, lastId: nat, j: Job)
    requires Adding(w, s, lastId, j) && s.taken == j.built
    ensures w.freeSegsHead == First(s.free) && (s.free != [] ==> s.free[0] < |w.segs|)
    ensures s.free == [] ==> |w.segs| == |s.used| + |j.built|
  {
  }

  lemma UsedEnds(w: Win, s: Shape, lastId: nat, j: Job)
    requires Adding(w, s, lastId, j)
    ensures w.usedSegsHead == First(s.used) && w.usedSegsTail == Last(s.used) && InRange(s.used, |w.segs|)
    ensures w.usedImagesHead == First(s.imgs) && w.usedImagesTail == Last(s.imgs) && InRange(s.imgs, |w.images|)
  {
  }

  lemma TakenIsFresh(w: Win, s: Shape, lastId: nat, built: seq<nat>, x: nat)
    requires Inv(w, s, lastId) && s.taken == built + [x]
    ensures InRange(built, |w.segs|) && x < |w.segs| && x !in built
  {
    assert s.taken[|built|] == x;
    assert forall i :: 0 <= i < |built| ==> s.taken[i] == built[i];
  }

  lemma AddingKeepsUsed(w: Win, s: Shape, lastId: nat, j: Job)
    requires Adding(w, s, lastId, j)
    ensures s.used == j.s0.used
  {
    hide Inv;
  }

  lemma AddingFresh(w: Win, s: Shape, lastId: nat, j: Job, x: nat)
    requires Adding(w, s, lastId, j) && s.taken == j.built + [x]
    ensures InRange(j.built, |w.segs|) && x < |w.segs| && x !in j.built
  {
    hide Inv;
    TakenIsFresh(w.(pixelsSoFar := j.w0.pixelsSoFar), s, lastId, j.built, x);
  }

  lemma FilledOutside(w: Win, s: Shape, lastId: nat, built: seq<nat>, x: nat, seg: Seg, w': Win)
    requires Inv(w, s, lastId) && s.taken == built + [x] && InRange(built, |w.segs|) && x < |w.segs|
    requires seg.image.Some? && seg.image.value < |w.images|
    requires w' == w.(segs := Filled(w.segs, built, x, seg))
    ensures OutsideLists(w, s, w') && Distinct(built) && x !in built
  {
    forall i | 0 <= i < |s.taken|
      ensures s.taken[i] !in s.used && s.taken[i] !in s.free
    {
    }
    assert s.taken[|built|] == x;
    assert forall i :: 0 <= i < |built| ==> s.taken[i] == built[i];
    assert built != [] ==> s.taken[|built| - 1] == built[|built| - 1];
  }

  /** What was in use is still there, apart from links and from being alive; more may have been added. */
  ghost predicate Grown(w: Win, s: Shape, w0: Win, s0: Shape) {
    && |s0.starts| == |s0.imgs| + 1 && |s.starts| == |s.imgs| + 1
    && s0.used <= s.used && s0.imgs <= s.imgs && s0.starts <= s.starts
    && InRange(s0.used, |w.segs|) && InRange(s0.used, |w0.segs|)
    && InRange(s0.imgs, |w.images|) && InRange(s0.imgs, |w0.images|)
    && (forall i :: 0 <= i < |s0.used| ==> SameSeg(w.segs[s0.used[i]], w0.segs[s0.used[i]]))
    && (forall i :: 0 <= i < |s0.imgs| ==> SameImage(w.images[s0.imgs[i]], w0.images[s0.imgs[i]]))
    && w.sizeLimit == w0.sizeLimit && |w0.segs| <= |w.segs|
  }

  /** The same with one more image. */
  ghost predicate Extends(w: Win, s: Shape, w0: Win, s0: Shape) {
    Grown(w, s, w0, s0) && |s.imgs| == |s0.imgs| + 1
  }

  /** The state after glz_dictionary_window_add_image has linked its segments and its record. */
  ghost function Linking(w: Win, s: Shape, j: Job, image: Image): Win
    requires InRange(s.used, |w.segs|) && InRange(s.imgs, |w.images|) && j.m < |w.images| && j.built != []
  {
    w.(segs := if s.used == [] then w.segs
    else w.segs[s.used[|s.used| - 1] := w.segs[s.used[|s.used| - 1]].(next := Some(j.built[0]))],
         usedSegsHead := First(s.used + j.built), usedSegsTail := Last(j.built),
         images := (if s.imgs == [] then w.images
                    else w.images[s.imgs[|s.imgs| - 1] := w.images[s.imgs[|s.imgs| - 1]].(next := Some(j.m))])
         [j.m := image],
         usedImagesHead := First(s.imgs + [j.m]), usedImagesTail := Some(j.m))
  }

  lemma FinishInv(w: Win, s: Shape, lastId: nat, j: Job, image: Image)
    requires Adding(w, s, lastId, j) && s.taken == j.built && j.built != []
    requires image == Image(lastId, j.kind, image.size, j.built[0], true, None)
    requires InRange(j.built, |w.segs|) && image.size == JobSize(w, j) < UINT32
    ensures Inv(Linking(w, s, j, image), Longer(s, j.m), lastId + 1)
  {
    var v := w.(pixelsSoFar := j.w0.pixelsSoFar);
    AppendKeepsInv(v, s, lastId, j.m, j.kind, image, w.pixelsSoFar, Linking(w, s, j, image), Longer(s, j.m));
  }

  lemma FinishRecord(w: Win, s: Shape, lastId: nat, j: Job, image: Image, history: History)
    requires Adding(w, s, lastId, j) && s.taken == j.built && j.built != []
    requires image.id == lastId && image.kind == j.kind
    requires Structured(j.w0, j.s0) && Recorded(j.w0, j.s0, history)
    requires Structured(Linking(w, s, j, image), Longer(s, j.m))
    ensures Recorded(Linking(w, s, j, image), Longer(s, j.m), history[lastId := Sent(j.kind, j.lines)])
  {
    var v := w.(pixelsSoFar := j.w0.pixelsSoFar);
    SameWindowKeepsRecord(j.w0, j.s0, history, v, s);
    AppendKeepsRecord(v, s, j.m, image, w.pixelsSoFar, Linking(w, s, j, image), Longer(s, j.m), history);
  }

  lemma FinishExtends(w: Win, s: Shape, lastId: nat, j: Job, image: Image)
    requires Adding(w, s, lastId, j) && s.taken == j.built && j.built != []
    ensures Extends(Linking(w, s, j, image), Longer(s, j.m), j.w0, j.s0)
    ensures Longer(s, j.m).imgs == j.s0.imgs + [j.m] && |Longer(s, j.m).used| == |j.s0.used| + |j.built|
  {
  }

  lemma InvStructured(w: Win, s: Shape, lastId: nat)
    requires Inv(w, s, lastId)
    ensures Structured(w, s)
  {
  }

  lemma FinishAdding(w: Win, s: Shape, lastId: nat, j: Job, image: Image, history: History)
    requires Adding(w, s, lastId, j) && s.taken == j.built && j.built != []
    requires image == Image(lastId, j.kind, image.size, j.built[0], true, None)
    requires InRange(j.built, |w.segs|) && image.size == JobSize(w, j) < UINT32
    requires DictionaryOk(j.w0, j.s0, lastId, history) && image.size <= w.sizeLimit
    ensures DictionaryOk(Linking(w, s, j, image), Longer(s, j.m), lastId + 1, history[lastId := Sent(j.kind, j.lines)])
  {
    hide Inv, Structured, Recorded, Building, JobSize, TakenSize;
    UsedEnds(w, s, lastId, j);
    FinishInv(w, s, lastId, j, image);
    InvStructured(Linking(w, s, j, image), Longer(s, j.m), lastId + 1);
    FinishRecord(w, s, lastId, j, image, history);
    FinishSizes(w, s, lastId, j, image);
  }

  lemma FinishSizes(w: Win, s: Shape, lastId: nat, j: Job, image: Image)
    requires Adding(w, s, lastId, j) && j.built != [] && SizesOk(j.w0, j.s0) && image.size <= w.sizeLimit
    ensures SizesOk(Linking(w, s, j, image), Longer(s, j.m))
  {
    hide Inv;
    UsedEnds(w, s, lastId, j);
  }

  /** Where the new image starts. */
  lemma FinishPixels(w: Win, s: Shape, lastId: nat, j: Job, image: Image)
    requires Adding(w, s, lastId, j) && s.taken == j.built && j.built != []
    ensures |s.used| < |Longer(s, j.m).used| && Longer(s, j.m).used[|s.used|] < |w.segs|
    ensures Linking(w, s, j, image).segs[Longer(s, j.m).used[|s.used|]].pixelsSoFar == j.w0.pixelsSoFar
  {
  }

  /** A new image of `size` pixels stands behind the images of another window from image `k` on. */
  ghost predicate Queued(w: Win, s: Shape, w0: Win, s0: Shape, k: nat, size: nat) {
    && k <= |s0.imgs| && |s.imgs| == |s0.imgs| + 1 - k && InRange(s.imgs, |w.images|) && InRange(s0.imgs, |w0.images|)
    && forall g :: 0 <= g < |s.imgs| ==> ImagePixels(w, s, g) == ImagePixels(w0, s0, g + k) + size
  }

  lemma QueuedFrom(w: Win, s: Shape, v: Win, t: Shape, w0: Win, s0: Shape, k: nat, size: nat)
    requires PixelsFrom(v, t, w0, s0, k) && Queued(w, s, v, t, 0, size)
    ensures Queued(w, s, w0, s0, k, size)
  {
    forall g | 0 <= g < |s.imgs|
      ensures ImagePixels(w, s, g) == ImagePixels(w0, s0, g + k) + size
    {
      assert ImagePixels(w, s, g) == ImagePixels(v, t, g + 0) + size;
    }
  }

  lemma ExtendsPixels(w: Win, s: Shape, w0: Win, s0: Shape)
    requires Extends(w, s, w0, s0) && Structured(w, s) && Structured(w0, s0)
    requires |s0.used| < |s.used| && w.segs[s.used[|s0.used|]].pixelsSoFar == w0.pixelsSoFar
    ensures WindowPixels(w, s, 0) == WindowPixels(w0, s0, 0) + w.pixelsSoFar - w0.pixelsSoFar
    ensures WindowPixels(w, s, |s0.imgs|) == w.pixelsSoFar - w0.pixelsSoFar
    ensures Queued(w, s, w0, s0, 0, w.images[s.imgs[|s0.imgs|]].size)
  {
    StartInRange(w0, s0, 0);
    assert s.starts[|s0.imgs|] == s0.starts[|s0.imgs|] == |s0.used|;
    forall g | 0 <= g < |s.imgs|
      ensures ImagePixels(w, s, g) == ImagePixels(w0, s0, g + 0) + w.images[s.imgs[|s0.imgs|]].size
    {
      ExtendsImages(w, s, w0, s0, g);
    }
  }

  lemma {:induction false} ExtendsImages(w: Win, s: Shape, w0: Win, s0: Shape, h: nat)
    requires Extends(w, s, w0, s0) && InRange(s.imgs, |w.images|) && h <= |s0.imgs|
    ensures ImagePixels(w, s, h) == ImagePixels(w0, s0, h) + w.images[s.imgs[|s0.imgs|]].size
    decreases |s0.imgs| - h
  {
    if h < |s0.imgs| {
      ExtendsImages(w, s, w0, s0, h + 1);
      assert s.imgs[h] == s0.imgs[h] && SameImage(w.images[s0.imgs[h]], w0.images[s0.imgs[h]]);
    } else {
      assert ImagePixels(w, s, h + 1) == 0;
    }
  }

  // ----- Encoders coming and going -----

  lemma SetHead(w: Win, s: Shape, lastId: nat, history: History, e: nat, h: nat, w': Win)
    requires DictionaryOk(w, s, lastId, history) && e < |w.encodersHeads| && h < |s.imgs|
    requires s.starts[h] < |s.used| && w' == w.(encodersHeads := w.encodersHeads[e := Some(s.used[s.starts[h]])])
    ensures DictionaryOk(w', s, lastId, history)
  {
    SameHeads(w, s, lastId, w');
    SameWindowKeepsRecord(w, s, history, w', s);
    assert HeadOk(s, w'.encodersHeads[e]);
  }

  lemma ClearHead(w: Win, s: Shape, lastId: nat, history: History, e: nat, w': Win)
    requires DictionaryOk(w, s, lastId, history) && e < |w.encodersHeads|
    requires w' == w.(encodersHeads := w.encodersHeads[e := None])
    ensures DictionaryOk(w', s, lastId, history)
  {
    SameHeads(w, s, lastId, w');
    SameWindowKeepsRecord(w, s, history, w', s);
  }

  lemma ExtendsHeads(w: Win, s: Shape, w0: Win, s0: Shape, w': Win)
    requires Extends(w, s, w0, s0) && w' == w.(encodersHeads := w'.encodersHeads)
    ensures Extends(w', s, w0, s0)
  {
  }

  /** What counts is the sizes of the images. */
  lemma {:induction false} SameSizes(w: Win, s: Shape, w': Win, h: nat)
    requires InRange(s.imgs, |w.images|) && InRange(s.imgs, |w'.images|) && h <= |s.imgs|
    requires forall i :: 0 <= i < |s.imgs| ==> w'.images[s.imgs[i]].size == w.images[s.imgs[i]].size
    ensures ImagePixels(w', s, h) == ImagePixels(w, s, h)
    decreases |s.imgs| - h
  {
    if h < |s.imgs| {
      SameSizes(w, s, w', h + 1);
    }
  }

  /** Heads of encoders count nothing. */
  lemma HeadsCountNothing(w: Win, s: Shape, w': Win)
    requires Structured(w, s) && Structured(w', s) && w' == w.(encodersHeads := w'.encodersHeads)
    ensures PixelsFrom(w', s, w, s, 0)
    ensures forall h :: 0 <= h <= |s.imgs| ==> WindowPixels(w', s, h) == WindowPixels(w, s, h)
  {
    forall h | 0 <= h <= |s.imgs|
      ensures WindowPixels(w', s, h) == WindowPixels(w, s, h)
    {
      StartInRange(w, s, h);
    }
    forall g | 0 <= g <= |s.imgs|
      ensures ImagePixels(w', s, g) == ImagePixels(w, s, g + 0)
    {
      SameSizes(w, s, w', g);
    }
  }

  lemma QueuedSame(w: Win, s: Shape, v: Win, w0: Win, s0: Shape, size: nat)
    requires PixelsFrom(w, s, v, s, 0) && Queued(v, s, w0, s0, 0, size)
    ensures Queued(w, s, w0, s0, 0, size)
  {
    forall g | 0 <= g < |s.imgs|
      ensures ImagePixels(w, s, g) == ImagePixels(w0, s0, g + 0) + size
    {
      assert ImagePixels(w, s, g) == ImagePixels(v, s, g + 0);
    }
  }

  lemma SameHeads(w: Win, s: Shape, lastId: nat, w': Win)
    requires Inv(w, s, lastId) && w' == w.(encodersHeads := w'.encodersHeads)
    ensures SegListsOk(w', s) && PixelsOk(w', s) && ImageListsOk(w', s, lastId) && BlocksOk(w', s)
  {
    SamePixelsAt(w, s, w', s, 0);
    SamePixels(w, s, w', s);
    SameBlocks(w, s, w', s);
  }

  /** Every image has a segment, so there are fewer than 2^32 images. */
  lemma FewImages(w: Win, s: Shape, lastId: nat)
    requires Inv(w, s, lastId) && QuotaOk(|w.segs|)
    ensures |s.imgs| <= |s.used| <= LAST_QUOTA < UINT32
  {
    if s.imgs != [] {
      StartsIncrease(w, s, 0, |s.imgs|);
    }
  }

  /** The first segment and the id of an image in use. */
  lemma HeadFields(w: Win, s: Shape, lastId: nat, h: nat)
    requires Inv(w, s, lastId) && Structured(w, s) && h < |s.imgs|
    ensures s.starts[h] < |s.used| && w.images[s.imgs[h]].firstSeg == s.used[s.starts[h]]
    ensures w.images[s.imgs[h]].id == lastId - |s.imgs| + h
  {
    assert BlockOk(w, s, h);
  }

  /** An active encoder's head lies in the used list, so nothing in use is older than the first segment. */
  lemma HeadIsUsed(w: Win, s: Shape, lastId: nat, e: nat)
    requires Inv(w, s, lastId) && Structured(w, s) && e < |w.encodersHeads| && w.encodersHeads[e].Some?
    ensures s.used != [] && w.usedSegsHead == Some(s.used[0]) && w.encodersHeads[e].value < |w.segs|
    ensures w.segs[s.used[0]].pixelsSoFar <= w.segs[w.encodersHeads[e].value].pixelsSoFar
  {
    assert HeadOk(s, w.encodersHeads[e]);
    var k :| 0 <= k < |s.imgs| && k < |s.starts| && s.starts[k] < |s.used|
             && w.encodersHeads[e].value == s.used[s.starts[k]];
    if s.starts[k] > 0 {
      PixelsIncrease(w, s, 0, s.starts[k]);
    }
  }

  // ----- The dictionary as the encoders see it over time -----

  datatype World = World(w: Win, s: Shape, lastId: nat, history: History)

  ghost predicate WorldOk(d: World) {
    DictionaryOk(d.w, d.s, d.lastId, d.history)
  }

  ghost predicate Busy(w: Win) {
    exists e :: 0 <= e < |w.encodersHeads| && w.encodersHeads[e].Some?
  }

  /** Image ids are never given twice, and what was sent stays so. */
  ghost predicate Remembers(b: World, a: World) {
    && a.lastId <= b.lastId
    && (forall id :: id in a.history ==> id in b.history && b.history[id] == a.history[id])
    && (forall id :: id in b.history && id < a.lastId ==> id in a.history)
  }

  /** What other encoders may do while an encoder is at work. */
  ghost predicate Stepped(a: World, b: World) {
    WorldOk(a) && WorldOk(b) && Grown(b.w, b.s, a.w, a.s) && Remembers(b, a)
  }

  lemma SteppedReflexive(a: World)
    requires WorldOk(a)
    ensures Stepped(a, a)
  {
    hide Inv;
  }

  lemma SteppedTransitive(a: World, b: World, c: World)
    requires Stepped(a, b) && Stepped(b, c)
    ensures Stepped(a, c)
  {
    hide Inv;
    assert forall i :: 0 <= i < |a.s.used| ==> b.s.used[i] == a.s.used[i];
    assert forall i :: 0 <= i < |a.s.imgs| ==> b.s.imgs[i] == a.s.imgs[i];
  }

  /**
   The newest image stands behind those that have not been released, and from the
   images before the head there is no room beside it. Without other encoders at work
   the images before the head are released.
   */
  ghost predicate Pushes(a: World, b: World, h: nat) {
    && InRange(b.s.imgs, |b.w.images|) && h < |b.s.imgs| <= |a.s.imgs| + 1
    && Queued(b.w, b.s, a.w, a.s, |a.s.imgs| + 1 - |b.s.imgs|, ImagePixels(b.w, b.s, |b.s.imgs| - 1))
    && (forall g :: 0 <= g < h ==> ImagePixels(b.w, b.s, g) > b.w.sizeLimit)
    && (!Busy(a.w) ==> h == 0)
  }

  lemma PushesIs(a: World, b: World, size: nat, h: nat, h0: nat, k: nat)
    requires WorldOk(a) && FirstRoom(a.w, a.s, size, h0) && h + k == h0 && h < |b.s.imgs|
    requires Queued(b.w, b.s, a.w, a.s, k, size) && b.w.sizeLimit == a.w.sizeLimit && (!Busy(a.w) ==> h == 0)
    ensures Pushes(a, b, h) && ImagePixels(b.w, b.s, h) == ImagePixels(a.w, a.s, h0) + size
  {
    hide Inv, Structured, Recorded;
    assert ImagePixels(b.w, b.s, |b.s.imgs| - 1) == ImagePixels(a.w, a.s, |a.s.imgs|) + size;
    forall g | 0 <= g < h
      ensures ImagePixels(b.w, b.s, g) > b.w.sizeLimit
    {
      NoRoomBefore(a.w, a.s, a.lastId, size, h0, g + k);
    }
  }

  ghost function NewestSize(d: World): nat
    requires InRange(d.s.imgs, |d.w.images|) && d.s.imgs != []
  {
    ImagePixels(d.w, d.s, |d.s.imgs| - 1)
  }

  /**
   The window fits if and only if no image was misjudged, and the pixels that are
   uncounted now were so before or belong to the newest image.
   */
  ghost predicate Counts(a: World, b: World, h: nat) {
    WorldOk(a) && WorldOk(b) && h < |b.s.imgs| ==>
      && (ImagePixels(b.w, b.s, h) <= b.w.sizeLimit <==> RoomIsReal(a.w, a.s, NewestSize(b)))
      && Short(b.w, b.s, 0) <= Short(a.w, a.s, 0) + Short(b.w, b.s, |b.s.imgs| - 1)
  }

  lemma CountsIs(a: World, b: World, size: nat, h: nat, h0: nat, k: nat)
    requires WorldOk(a) && WorldOk(b) && FirstRoom(a.w, a.s, size, h0) && h + k == h0 && h < |b.s.imgs|
    requires Queued(b.w, b.s, a.w, a.s, k, size) && b.w.sizeLimit == a.w.sizeLimit
    requires WindowPixels(b.w, b.s, 0) == WindowPixels(a.w, a.s, k) + WindowPixels(b.w, b.s, |b.s.imgs| - 1)
    ensures Counts(a, b, h) && NewestSize(b) == size
  {
    hide Inv, Recorded;
    assert ImagePixels(b.w, b.s, |b.s.imgs| - 1) == ImagePixels(a.w, a.s, |a.s.imgs|) + size;
    assert ImagePixels(b.w, b.s, 0) == ImagePixels(a.w, a.s, 0 + k) + size;
    HeadFitsIff(a.w, a.s, a.lastId, size, h0);
    ShortShrinks(a.w, a.s, a.lastId, 0, k);
  }

  /** With all pixels counted before, a sum that does not wrap around misjudges nothing, and one that does misjudges. */
  lemma CountedFits(a: World, b: World, size: nat, h: nat, h0: nat, k: nat)
    requires WorldOk(a) && WorldOk(b) && FirstRoom(a.w, a.s, size, h0) && h + k == h0 && h < |b.s.imgs|
    requires Queued(b.w, b.s, a.w, a.s, k, size) && b.w.sizeLimit == a.w.sizeLimit
    requires Short(a.w, a.s, 0) == 0
    ensures ImagePixels(b.w, b.s, h) <= b.w.sizeLimit <==> WindowPixels(a.w, a.s, 0) + size < UINT32
  {
    hide Inv, Recorded;
    assert ImagePixels(b.w, b.s, h) == ImagePixels(a.w, a.s, h + k) + size;
    HeadFitsIff(a.w, a.s, a.lastId, size, h0);
  }

  /** All that a pre-encode says about the pixels of the window. */
  lemma Accounts(a: World, b: World, size: nat, counted: nat, h: nat, h0: nat, k: nat)
    requires WorldOk(a) && WorldOk(b) && FirstRoom(a.w, a.s, size, h0) && h + k == h0 && h < |b.s.imgs|
    requires Queued(b.w, b.s, a.w, a.s, k, size) && b.w.sizeLimit == a.w.sizeLimit
    requires WindowPixels(b.w, b.s, 0) == WindowPixels(a.w, a.s, k) + counted
    requires WindowPixels(b.w, b.s, |b.s.imgs| - 1) == counted
    ensures Counts(a, b, h)
    ensures ImagePixels(b.w, b.s, h) <= b.w.sizeLimit <==> RoomIsReal(a.w, a.s, size)
    ensures Short(a.w, a.s, 0) == 0 ==>
              (ImagePixels(b.w, b.s, h) <= b.w.sizeLimit <==> WindowPixels(a.w, a.s, 0) + size < UINT32)
    ensures Short(a.w, a.s, 0) == 0 && counted == size ==> Short(b.w, b.s, 0) == 0
  {
    hide Inv, Structured, Recorded, Queued, FirstRoom, RoomIsReal;
    CountsIs(a, b, size, h, h0, k);
    if Short(a.w, a.s, 0) == 0 {
      CountedFits(a, b, size, h, h0, k);
      NeverOver(b.w, b.s, b.lastId, 0);
    }
  }

  /** Encoder `e` has pre-encoded an image: its head is the first segment of image `h`, and its image is the newest. */
  ghost predicate PreDone(a: World, b: World, e: nat, sent: Sent, h: nat) {
    && WorldOk(b) && h < |b.s.imgs| && b.s.starts[h] < |b.s.used| && |b.s.imgs| < UINT32
    && b.lastId == a.lastId + 1 && b.history == a.history[a.lastId := sent]
    && |b.w.encodersHeads| == |a.w.encodersHeads| && e < |a.w.encodersHeads| && a.w.encodersHeads[e].None?
    && b.w.encodersHeads == a.w.encodersHeads[e := Some(b.s.used[b.s.starts[h]])]
    && b.w.sizeLimit == a.w.sizeLimit && |a.w.segs| <= |b.w.segs|
    && (Busy(a.w) ==> Grown(b.w, b.s, a.w, a.s))
    && Pushes(a, b, h) && Counts(a, b, h)
  }

  /** Encoder `e` has post-encoded. */
  ghost predicate PostDone(a: World, b: World, e: nat) {
    && WorldOk(b) && e < |a.w.encodersHeads|
    && b == a.(w := a.w.(encodersHeads := a.w.encodersHeads[e := None]))
  }

  /** The owner of image record `m` has removed it. */
  ghost predicate KillDone(a: World, b: World, m: nat) {
    && WorldOk(b) && m < |a.w.images|
    && b == a.(w := a.w.(images := a.w.images[m := a.w.images[m].(alive := false)]))
  }

  ghost predicate Step(a: World, b: World) {
    || (exists e, sent, h :: PreDone(a, b, e, sent, h))
    || (exists e :: PostDone(a, b, e))
    || (exists m :: KillDone(a, b, m))
  }

  /** No step touches what is in use while some encoder is at work. */
  lemma StepWhileBusy(a: World, b: World)
    requires WorldOk(a) && Step(a, b) && Busy(a.w)
    ensures Stepped(a, b)
  {
    hide Inv, Recorded, SizesOk, Pushes, Counts;
    hide Inv;
  }

  lemma StepRemembers(a: World, b: World)
    requires WorldOk(a) && Step(a, b)
    ensures WorldOk(b) && Remembers(b, a)
  {
    hide Inv, Structured, Recorded, SizesOk, Grown, Pushes, Counts;
    hide Inv;
  }

  /** A window with all its segments free. */
  function NewWindow(size: nat, maxEncoders: nat): Win {
    Win(NewSegs(0, INIT_IMAGE_SEGS_NUM), None, None, Some(0), seq(maxEncoders, _ => None), [], None, None, None, 0,
        size)
  }

  ghost function NewShape(): Shape {
    Shape([], Places(0, INIT_IMAGE_SEGS_NUM), [], [], [], [0])
  }

  lemma NewIsOk(size: nat, maxEncoders: nat, lastId: nat)
    requires size < UINT32
    ensures DictionaryOk(NewWindow(size, maxEncoders), NewShape(), lastId, map[])
    ensures var w := NewWindow(size, maxEncoders);
            w.sizeLimit == size && |w.encodersHeads| == maxEncoders && !Busy(w)
    ensures NewShape().used == [] && NewShape().imgs == []
  {
    var w, s := NewWindow(size, maxEncoders), NewShape();
    forall x | 0 <= x < |w.segs|
      ensures x in s.free
    {
      assert s.free[x] == x;
    }
  }

  class SharedDictionary {
    var window: Win
    var lastImageId: nat
    ghost var shape: Shape
    ghost var history: History

    ghost predicate Valid()
      reads this
    {
      DictionaryOk(window, shape, lastImageId, history)
    }

    ghost predicate Idle()
      reads this
    {
      !Busy(window)
    }

    ghost function State(): World
      reads this
    {
      World(window, shape, lastImageId, history)
    }

    /** glz_enc_dictionary_create and glz_enc_dictionary_restore. */
    constructor (size: nat, maxEncoders: nat, lastId: nat)
      requires size < UINT32
      ensures Valid() && Idle() && lastImageId == lastId && history == map[] && window.sizeLimit == size
      ensures shape.used == [] && shape.imgs == []
      ensures |window.encodersHeads| == maxEncoders
    {
      hide DictionaryOk, NewWindow, NewShape;
      window := NewWindow(size, maxEncoders);
      lastImageId := lastId;
      shape := NewShape();
      history := map[];
      new;
      NewIsOk(size, maxEncoders, lastId);
    }

    /** glz_dictionary_is_in_use. */
    method IsInUse() returns (r: bool)
      ensures r <==> !Idle()
    {
      var i := 0;
      while i < |window.encodersHeads|
        invariant i <= |window.encodersHeads|
        invariant forall e :: 0 <= e < i ==> window.encodersHeads[e].None?
      {
        if window.encodersHeads[i].Some? {
          return true;
        }
        i := i + 1;
      }
      r := false;
    }

    /** glz_enc_dictionary_remove_image. */
    method RemoveImage(m: nat)
      requires Valid() && m < |window.images|
      modifies this`window
      ensures Valid() && KillDone(old(State()), State(), m)
    {
      hide Inv;
      ghost var w := window;
      window := window.(images := window.images[m := window.images[m].(alive := false)]);
      KillKeepsInv(w, shape, lastImageId, m, window);
      SameWindowKeepsRecord(w, shape, history, window, shape);
    }

    /**
     glz_dictionary_window_get_new_head: the oldest image for which the 32-bit sum
     leaves room for `size` more pixels. The walk never leaves the image list, and
     the head fits if and only if no image is misjudged.
     */
    method GetNewHead(size: nat) returns (head: Option<nat>, ghost h: nat)
      requires Valid() && size <= window.sizeLimit
      ensures h <= |shape.imgs| && head == ImageAt(shape, h) && FirstRoom(window, shape, size, h)
      ensures Fits(window, shape, h, size) <==> RoomIsReal(window, shape, size)
      ensures Short(window, shape, 0) == 0 ==>
                (Fits(window, shape, h, size) <==> WindowPixels(window, shape, 0) + size < UINT32)
    {
      hide Inv;
      h := 0;
      Ends(window, shape, lastImageId);
      if window.usedImagesHead.None? {
        HeadFitsIff(window, shape, lastImageId, size, 0);
        head := None;
        return;
      }
      CurrentSize(window, shape, lastImageId);
      var tail, first := window.segs[window.usedSegsTail.value], window.segs[window.usedSegsHead.value];
      head := first.image;
      var cur: nat := (tail.pixelsNum + tail.pixelsSoFar - first.pixelsSoFar) % UINT32;
      while (cur + size) % UINT32 > window.sizeLimit
        invariant Walked(window, shape, size, h, head, cur)
        decreases |shape.imgs| - h
      {
        WalkOn(window, shape, lastImageId, size, h, head, cur);
        cur := (cur - window.images[head.value].size) % UINT32;
        head := window.images[head.value].next;
        h := h + 1;
      }
      WalkSum(window, shape, size, h, head, cur);
      HeadFitsIff(window, shape, lastImageId, size, h);
    }

    // ----- Releasing images -----

    /** __glz_dictionary_window_free_image_segs for the oldest image. */
    method FreeImageSegs(m: nat)
      requires Inv(Settled(window, shape), shape, lastImageId) && shape.imgs != [] && m == shape.imgs[0]
      modifies this`window
      ensures |shape.starts| == |shape.imgs| + 1 && 0 < shape.starts[1] <= |shape.used|
      ensures InRange(shape.used, |old(window.segs)|)
      ensures window == old(window).(segs := window.segs, freeSegsHead := Some(shape.used[0]))
      ensures var last := shape.used[shape.starts[1] - 1];
              window.segs == old(window.segs)[last := old(window.segs)[last].(next := old(window.freeSegsHead))]
    {
      ghost var w, i := Settled(window, shape), 0;
      assert BlockOk(w, shape, 0);
      var oldFree, seg := window.freeSegsHead, window.images[m].firstSeg;
      StepInBlock(w, shape, lastImageId, i);
      while window.segs[seg].next.Some? && window.segs[window.segs[seg].next.value].image == Some(m)
        invariant window == old(window) && i < shape.starts[1] && seg == shape.used[i]
        invariant window.segs[seg].next.Some? ==> window.segs[seg].next.value < |window.segs|
        invariant window.segs[seg].next.Some? && window.segs[window.segs[seg].next.value].image == Some(m)
             <==> i + 1 < shape.starts[1]
        invariant i + 1 < shape.starts[1] ==> window.segs[seg].next == Some(shape.used[i + 1])
        decreases shape.starts[1] - i
      {
        seg := window.segs[seg].next.value;
        i := i + 1;
        StepInBlock(w, shape, lastImageId, i);
      }
      window := window.(freeSegsHead := Some(window.images[m].firstSeg),
      segs := window.segs[seg := window.segs[seg].(next := oldFree)]);
    }

    /** __glz_dictionary_window_free_image. */
    method FreeImage(m: nat)
      requires m < |window.images|
      modifies this`window
      ensures window == old(window).(images := window.images, freeImages := Some(m))
      ensures window.images
           == old(window.images)[m := old(window.images)[m].(alive := false, next := old(window.freeImages))]
    {
      window := window.(images := window.images[m := window.images[m].(alive := false, next := window.freeImages)],
      freeImages := Some(m));
    }

    /** One turn of the loop of glz_dictionary_window_remove_head. */
    method RemoveOldest(ghost w0: Win, ghost s0: Shape, ghost i: nat)
      requires Removing(window, shape, lastImageId, history, w0, s0, i) && shape.imgs != []
      modifies this`window, this`shape
      ensures Removing(window, shape, lastImageId, history, w0, s0, i + 1)
    {
      hide Inv;
      ghost var w, s := window, shape;
      OldestImage(window, shape, lastImageId);
      var m := window.usedImagesHead.value;
      FreeImageSegs(m);
      window := window.(usedImagesHead := window.images[m].next);
      FreeImage(m);
      shape := Shorter(shape);
      assert window == WithoutOldest(w, s);
      RemovingStep(w, s, lastImageId, history, w0, s0, i);
    }

    /** The loop of glz_dictionary_window_remove_head. */
    method RemoveBefore(end: Option<nat>, ghost h: nat)
      requires Removing(window, shape, lastImageId, history, window, shape, 0)
      requires h <= |shape.imgs| && end == ImageAt(shape, h) && Distinct(shape.imgs)
      modifies this`window, this`shape
      ensures Removing(window, shape, lastImageId, history, old(window), old(shape), h)
      ensures window.usedImagesHead == end
    {
      hide Inv;
      ghost var w0, s0, i := window, shape, 0;
      while window.usedImagesHead != end
        invariant i <= h && Removing(window, shape, lastImageId, history, w0, s0, i)
        decreases h - i
      {
        RemovingHead(window, shape, lastImageId, history, w0, s0, i);
        RemoveOldest(w0, s0, i);
        i := i + 1;
      }
      RemovingHead(window, shape, lastImageId, history, w0, s0, i);
    }

    /** glz_dictionary_window_remove_head: releases the images before image `h`. */
    method RemoveHead(end: Option<nat>, ghost h: nat)
      requires Valid() && Idle() && h <= |shape.imgs| && end == ImageAt(shape, h)
      modifies this`window, this`shape
      ensures Valid() && Idle() && SuffixOf(window, shape, old(window), old(shape), h)
      ensures window.sizeLimit == old(window.sizeLimit) && |window.segs| == |old(window.segs)|
      ensures |window.encodersHeads| == |old(window.encodersHeads)|
    {
      hide Inv;
      StartRemoving(window, shape, lastImageId, history);
      RemoveBefore(end, h);
      EndRemoving(window, shape, lastImageId, history, old(window), old(shape), h);
      if window.usedImagesHead.None? {
        window := window.(usedSegsHead := None, usedSegsTail := None, usedImagesTail := None);
      } else {
        window := window.(usedSegsHead := Some(window.images[end.value].firstSeg));
      }
    }

    // ----- Adding an image -----

    /** __glz_dictionary_window_alloc_image, without linking the record yet. */
    method AllocImage(kind: ImageType) returns (m: nat, ghost j: Job)
      requires Valid()
      modifies this`window, this`shape
      ensures j == Job(old(window), old(shape), m, kind, [], [])
      ensures Adding(window, shape, lastImageId, j) && shape.taken == []
    {
      hide Inv;
      ghost var w0, s0 := window, shape;
      Ends(window, shape, lastImageId);
      if window.freeImages.Some? {
        m := window.freeImages.value;
        window := window.(freeImages := window.images[m].next);
        shape := shape.(spare := shape.spare[1..]);
        StartFromSpare(w0, s0, lastImageId, kind, window, shape);
      } else {
        m := |window.images|;
        window := window.(images := window.images + [Image(0, kind, 0, 0, false, None)]);
        StartFromNew(w0, s0, lastImageId, kind, window);
      }
      j := Job(w0, s0, m, kind, [], []);
    }

    /** __glz_dictionary_window_segs_realloc, for an array that can still grow. */
    method SegsRealloc(ghost j: Job)
      requires Adding(window, shape, lastImageId, j) && shape.taken == j.built && shape.free == []
      requires |window.segs| < LAST_QUOTA
      modifies this`window, this`shape
      ensures Adding(window, shape, lastImageId, j) && shape == old(shape).(free := shape.free) && shape.free != []
      ensures window == old(window).(segs := window.segs, freeSegsHead := window.freeSegsHead)
      ensures |window.segs| == 2 * |old(window.segs)| && old(window.segs) <= window.segs
    {
      hide Inv;
      ghost var w, s := window, shape;
      var quota := |window.segs|;
      ReallocGrows(quota);
      var newQuota := NewQuota(quota);
      window := window.(segs := window.segs + NewSegs(quota, newQuota), freeSegsHead := Some(quota));
      shape := shape.(free := Places(quota, newQuota));
      AddingGrow(w, s, lastImageId, j, newQuota, window, shape);
    }

    /** __glz_dictionary_window_alloc_image_seg. */
    method TakeSeg(ghost j: Job) returns (x: nat)
      requires Adding(window, shape, lastImageId, j) && shape.taken == j.built
      requires |shape.used| + |j.built| < LAST_QUOTA
      modifies this`window, this`shape
      ensures Adding(window, shape, lastImageId, j) && shape.taken == j.built + [x] && x < |window.segs|
      ensures window.pixelsSoFar == old(window.pixelsSoFar) && old(window.segs) <= window.segs
    {
      hide Inv;
      FreeHead(window, shape, lastImageId, j);
      if window.freeSegsHead.None? {
        SegsRealloc(j);
        FreeHead(window, shape, lastImageId, j);
      }
      ghost var w, s := window, shape;
      x := window.freeSegsHead.value;
      window := window.(freeSegsHead := window.segs[x].next);
      shape := shape.(free := shape.free[1..], taken := shape.taken + [x]);
      AddingTake(w, s, lastImageId, j, window, shape);
    }

    /** Fills in segment `x` and links it to the one before it. */
    method FillSeg(x: nat, seg: Seg, prev: Option<nat>, ghost built: seq<nat>)
      requires InRange(built, |window.segs|) && x < |window.segs| && x !in built && prev == Last(built)
      modifies this`window
      ensures window == old(window).(segs := Filled(old(window.segs), built, x, seg),
                        pixelsSoFar := old(window.pixelsSoFar) + seg.pixelsNum)
    {
      window := window.(segs := window.segs[x := seg], pixelsSoFar := window.pixelsSoFar + seg.pixelsNum);
      if prev.Some? {
        window := window.(segs := window.segs[prev.value := window.segs[prev.value].(next := Some(x))]);
      }
    }

    /** glz_dictionary_window_alloc_image_seg, and the link from the segment before. */
    method AllocImageSeg(m: nat, size: nat, chunk: Chunk, prev: Option<nat>, ghost j: Job)
      returns (x: nat, ghost j': Job)
      requires Adding(window, shape, lastImageId, j) && shape.taken == j.built && m == j.m && prev == Last(j.built)
      requires |shape.used| + |j.built| < LAST_QUOTA
      requires 0 < size <= ChunkPixels(chunk, j.kind) && LastExact(window, j)
      modifies this`window, this`shape
      ensures j' == j.(built := j.built + [x], lines := j.lines + chunk.lines)
      ensures Adding(window, shape, lastImageId, j') && shape.taken == j'.built && InRange(j'.built, |window.segs|)
      ensures window.pixelsSoFar == old(window.pixelsSoFar) + size
      ensures JobSize(window, j') == old(window.pixelsSoFar) + ChunkPixels(chunk, j.kind) - j.w0.pixelsSoFar
      ensures size == ChunkPixels(chunk, j.kind) ==> LastExact(window, j')
    {
      hide Inv, Adding, Filled, JobSize, TakenOk;
      x := TakeSeg(j);
      var seg := Seg(Some(m), chunk.lines, size, window.pixelsSoFar, None);
      FillableSeg(j, m, chunk.lines, size, window.pixelsSoFar);
      AddingFresh(window, shape, lastImageId, j, x);
      ghost var w := window;
      ghost var w' := w.(segs := Filled(w.segs, j.built, x, seg), pixelsSoFar := w.pixelsSoFar + size);
      AddingFill(w, shape, lastImageId, j, x, seg, w');
      FillSeg(x, seg, prev, j.built);
      FilledSizes(w, j, x, seg, w');
      j' := j.(built := j.built + [x], lines := j.lines + chunk.lines);
    }

    /** The image is built up to its first `i` chunks; only the last chunk may be counted short. */
    ghost predicate BuiltUpto(j: Job, row: nat, height: nat, chunks: seq<Chunk>, i: nat)
      requires i <= |chunks| && chunks != [] && height > 0
      reads this
    {
      && Adding(window, shape, lastImageId, j) && shape.taken == j.built && |j.built| == i && shape.used == j.s0.used
      && InRange(j.built, |window.segs|) && j.lines == Lines(chunks[..i])
      && (i > 0 ==> JobSize(window, j) == PixelsOf(chunks[..i], row, j.kind))
      && (i < |chunks| ==>
            LastExact(window, j) && window.pixelsSoFar == j.w0.pixelsSoFar + PixelsOf(chunks[..i], row, j.kind))
      && (i == |chunks| ==> window.pixelsSoFar == j.w0.pixelsSoFar + CountedPixels(j.kind, row, height, chunks))
    }

    /** One turn of the loop of glz_dictionary_window_add_image. */
    method AddChunk(m: nat, kind: ImageType, row: nat, height: nat, chunks: seq<Chunk>, i: nat, prev: Option<nat>,
                    ghost j: Job)
      returns (x: nat, ghost j': Job)
      requires ChunksOk(chunks, row, height) && Countable(kind, row, height, chunks)
      requires i < |chunks| && BuiltUpto(j, row, height, chunks, i)
      requires m == j.m && prev == Last(j.built) && kind == j.kind
      requires |shape.used| + |j.built| < LAST_QUOTA
      modifies this`window, this`shape
      ensures j' == j.(built := j.built + [x], lines := Lines(chunks[..i + 1]))
      ensures BuiltUpto(j', row, height, chunks, i + 1)
      ensures LineCount(chunks[..i]) + chunks[i].count == LineCount(chunks[..i + 1]) <= height
    {
      hide Inv, Adding, JobSize, LastExact;
      FewerLines(chunks, i);
      ChunkCount(kind, row, height, chunks, i);
      PixelsOfNext(kind, row, height, chunks, i);
      var size := CountShare(PixelsNum(kind, row, height), height, chunks[i].count);
      x, j' := AllocImageSeg(m, size, chunks[i], prev, j);
      AddingKeepsUsed(window, shape, lastImageId, j');
    }

    /** The loop of glz_dictionary_window_add_image: one segment for each chunk of lines. */
    method AddSegs(m: nat, kind: ImageType, row: nat, height: nat, chunks: seq<Chunk>, ghost job: Job)
      returns (first: nat, last: nat, ghost j: Job)
      requires Adding(window, shape, lastImageId, job) && shape.taken == []
      requires job == Job(job.w0, job.s0, m, kind, [], []) && window.pixelsSoFar == job.w0.pixelsSoFar
      requires ChunksOk(chunks, row, height) && Countable(kind, row, height, chunks)
      requires |shape.used| + |chunks| <= LAST_QUOTA
      modifies this`window, this`shape
      ensures j == job.(built := j.built, lines := Lines(chunks)) && j.built != [] && |j.built| == |chunks|
      ensures Adding(window, shape, lastImageId, j) && shape.taken == j.built && InRange(j.built, |window.segs|)
      ensures JobSize(window, j) == PixelsNum(kind, row, height)
      ensures window.pixelsSoFar == job.w0.pixelsSoFar + CountedPixels(kind, row, height, chunks)
      ensures first == j.built[0] && last == j.built[|j.built| - 1]
    {
      hide Inv, Adding, JobSize, CountedPixels;
      AddingKeepsUsed(window, shape, lastImageId, job);
      j := job;
      var line, i, prev: Option<nat> := 0, 0, None;
      first, last := 0, 0;
      assert chunks[..|chunks|] == chunks;
      while line < height
        invariant i <= |chunks| && line == LineCount(chunks[..i]) <= height
        invariant j == job.(built := j.built, lines := Lines(chunks[..i])) && prev == Last(j.built)
        invariant BuiltUpto(j, row, height, chunks, i)
        invariant i > 0 ==> first == j.built[0] && prev == Some(last)
        decreases height - line
      {
        last, j := AddChunk(m, kind, row, height, chunks, i, prev, j);
        if line == 0 {
          first := last;
        }
        line := line + chunks[i].count;
        prev := Some(last);
        i := i + 1;
      }
      AllLinesRead(chunks, i);
      PixelsAddUp(chunks, row, kind);
    }

    /** Links the record and the segments of a new image behind those in use. */
    method LinkImage(m: nat, image: Image, first: nat, last: nat, ghost j: Job)
      requires Adding(window, shape, lastImageId, j) && m == j.m && j.built != []
      requires first == j.built[0] && last == j.built[|j.built| - 1]
      modifies this`window
      ensures window == Linking(old(window), shape, j, image)
    {
      hide Inv;
      UsedEnds(window, shape, lastImageId, j);
      if window.usedImagesTail.Some? {
        var t := window.usedImagesTail.value;
        window := window.(images := window.images[t := window.images[t].(next := Some(m))]);
      }
      window := window.(images := window.images[m := image], usedImagesTail := Some(m));
      if window.usedImagesHead.None? {
        window := window.(usedImagesHead := Some(m));
      }
      if window.usedSegsTail.None? {
        window := window.(usedSegsHead := Some(first), usedSegsTail := Some(last));
      } else {
        var t := window.usedSegsTail.value;
        window := window.(segs := window.segs[t := window.segs[t].(next := Some(first))], usedSegsTail := Some(last));
      }
    }

    /** The end of glz_dictionary_window_add_image. */
    method FinishImage(m: nat, image: Image, first: nat, last: nat, ghost j: Job)
      requires Adding(window, shape, lastImageId, j) && shape.taken == j.built && j.built != [] && m == j.m
      requires first == j.built[0] && last == j.built[|j.built| - 1]
      requires image == Image(lastImageId, j.kind, image.size, first, true, None)
      requires InRange(j.built, |window.segs|) && image.size == JobSize(window, j) <= window.sizeLimit
      requires DictionaryOk(j.w0, j.s0, lastImageId, history)
      modifies this`window, this`shape, this`lastImageId, this`history
      ensures DictionaryOk(window, shape, lastImageId, history)
      ensures lastImageId == old(lastImageId) + 1 && history == old(history)[old(lastImageId) := Sent(j.kind, j.lines)]
      ensures window == Linking(old(window), old(shape), j, image) && shape == Longer(old(shape), m)
    {
      hide Inv;
      FinishAdding(window, shape, lastImageId, j, image, history);
      LinkImage(m, image, first, last, j);
      history := history[lastImageId := Sent(j.kind, j.lines)];
      lastImageId := lastImageId + 1;
      shape := Longer(shape, m);
    }

    /** glz_dictionary_window_add_image. */
    method AddImage(kind: ImageType, row: nat, height: nat, chunks: seq<Chunk>) returns (m: nat)
      requires Valid() && ChunksOk(chunks, row, height) && Countable(kind, row, height, chunks)
      requires |shape.used| + |chunks| <= LAST_QUOTA && PixelsNum(kind, row, height) <= window.sizeLimit
      modifies this`window, this`shape, this`lastImageId, this`history
      ensures Valid() && Extends(window, shape, old(window), old(shape)) && shape.imgs == old(shape.imgs) + [m]
      ensures window.encodersHeads == old(window.encodersHeads) && lastImageId == old(lastImageId) + 1
      ensures history == old(history)[old(lastImageId) := Sent(kind, Lines(chunks))]
      ensures window.pixelsSoFar == old(window.pixelsSoFar) + CountedPixels(kind, row, height, chunks)
      ensures m < |window.images| && window.images[m].size == PixelsNum(kind, row, height)
      ensures |old(shape.used)| < |shape.used| == |old(shape.used)| + |chunks|
      ensures window.segs[shape.used[|old(shape.used)|]].pixelsSoFar == old(window.pixelsSoFar)
    {
      hide Inv, Grown, Recorded, Structured, ChunksOk, Countable, TakenSize;
      var first, last;
      ghost var j;
      m, j := AllocImage(kind);
      first, last, j := AddSegs(m, kind, row, height, chunks, j);
      var image := Image(lastImageId, kind, PixelsNum(kind, row, height), first, true, None);
      FinishExtends(window, shape, lastImageId, j, image);
      FinishPixels(window, shape, lastImageId, j, image);
      FinishImage(m, image, first, last, j);
    }

    // ----- Encoders coming and going -----

    /** The first half of glz_dictionary_pre_encode: makes room, if no encoder is active. */
    method MakeRoom(size: nat) returns (head: Option<nat>, ghost h: nat, ghost h0: nat, ghost k: nat)
      requires Valid() && size <= window.sizeLimit
      modifies this`window, this`shape
      ensures Valid() && h <= |shape.imgs| && head == ImageAt(shape, h)
      ensures h0 <= |old(shape.imgs)| && FirstRoom(old(window), old(shape), size, h0)
      ensures k == (if old(Idle()) then h0 else 0) && h + k == h0
      ensures PixelsFrom(window, shape, old(window), old(shape), k)
      ensures WindowPixels(window, shape, 0) == WindowPixels(old(window), old(shape), k)
      ensures !old(Idle()) ==> window == old(window) && shape == old(shape)
      ensures old(Idle()) ==> Idle()
      ensures |shape.used| <= |old(shape.used)| && |window.encodersHeads| == |old(window.encodersHeads)|
      ensures |window.segs| == |old(window.segs)|
      ensures window.sizeLimit == old(window.sizeLimit) && window.pixelsSoFar == old(window.pixelsSoFar)
    {
      hide Inv;
      head, h0 := GetNewHead(size);
      h, k := h0, 0;
      var inUse := IsInUse();
      if !inUse {
        ghost var w, s := window, shape;
        RemoveHead(head, h0);
        SuffixPixels(window, shape, w, s, h0);
        h, k := 0, h0;
      }
    }

    /** The second half: the encoder's head and how far back it is. */
    method SetEncoderHead(encoder: nat, m: nat, head: Option<nat>, ghost h: nat) returns (headDist: nat)
      requires Valid() && encoder < |window.encodersHeads| && h < |shape.imgs| && m == shape.imgs[|shape.imgs| - 1]
      requires head == (if h < |shape.imgs| - 1 then Some(shape.imgs[h]) else None)
      requires |shape.imgs| < UINT32
      modifies this`window
      ensures Valid() && headDist == |shape.imgs| - 1 - h && shape.starts[h] < |shape.used|
      ensures window
           == old(window).(encodersHeads := old(window.encodersHeads)[encoder := Some(shape.used[shape.starts[h]])])
      ensures PixelsFrom(window, shape, old(window), shape, 0)
      ensures forall g :: 0 <= g <= |shape.imgs| ==>
                            WindowPixels(window, shape, g) == WindowPixels(old(window), shape, g)
    {
      hide Inv;
      ghost var w := window;
      HeadFields(window, shape, lastImageId, h);
      HeadFields(window, shape, lastImageId, |shape.imgs| - 1);
      if head.Some? {
        window := window.(encodersHeads := window.encodersHeads[encoder := Some(window.images[head.value].firstSeg)]);
        headDist := (window.images[m].id - window.images[head.value].id) % UINT32;
      } else {
        window := window.(encodersHeads := window.encodersHeads[encoder := Some(window.images[m].firstSeg)]);
        headDist := 0;
      }
      SetHead(w, shape, lastImageId, history, encoder, h, window);
      HeadsCountNothing(w, shape, window);
    }

    /** The image is added and the encoder's head is set, after room has been made. */
    method AddFor(encoder: nat, kind: ImageType, row: nat, height: nat, chunks: seq<Chunk>, head: Option<nat>,
                  ghost h: nat)
      returns (m: nat, headDist: nat)
      requires Valid() && encoder < |window.encodersHeads|
      requires ChunksOk(chunks, row, height) && Countable(kind, row, height, chunks)
      requires |shape.used| + |chunks| <= LAST_QUOTA && PixelsNum(kind, row, height) <= window.sizeLimit
      requires h <= |shape.imgs| && head == ImageAt(shape, h)
      modifies this`window, this`shape, this`lastImageId, this`history
      ensures Valid() && Extends(window, shape, old(window), old(shape))
      ensures window.sizeLimit == old(window.sizeLimit) && |old(window.segs)| <= |window.segs|
      ensures lastImageId == old(lastImageId) + 1
      ensures history == old(history)[old(lastImageId) := Sent(kind, Lines(chunks))]
      ensures m == shape.imgs[|shape.imgs| - 1] && headDist == |shape.imgs| - 1 - h && shape.starts[h] < |shape.used|
      ensures window.encodersHeads == old(window.encodersHeads)[encoder := Some(shape.used[shape.starts[h]])]
      ensures Queued(window, shape, old(window), old(shape), 0, PixelsNum(kind, row, height))
      ensures WindowPixels(window, shape, 0)
           == WindowPixels(old(window), old(shape), 0) + CountedPixels(kind, row, height, chunks)
      ensures WindowPixels(window, shape, |shape.imgs| - 1) == CountedPixels(kind, row, height, chunks)
      ensures |shape.imgs| < UINT32 && |shape.used| == |old(shape.used)| + |chunks|
    {
      hide Inv;
      m := AddImage(kind, row, height, chunks);
      ExtendsPixels(window, shape, old(window), old(shape));
      FewImages(window, shape, lastImageId);
      ghost var w := window;
      headDist := SetEncoderHead(encoder, m, head, h);
      ExtendsHeads(w, shape, old(window), old(shape), window);
      QueuedSame(window, shape, w, old(window), old(shape), PixelsNum(kind, row, height));
    }

    /**
     glz_dictionary_pre_encode: fails when the image is larger than the window;
     otherwise adds it and gives the encoder a window. That has at most size_limit
     pixels if and only if no image is misjudged in the state before; as long as images
     are wholly counted, if and only if the sum of all pixels does not wrap around.
     */
    method PreEncode(encoder: nat, kind: ImageType, row: nat, height: nat, chunks: seq<Chunk>)
      returns (ok: bool, m: nat, headDist: nat, ghost h: nat, ghost h0: nat)
      requires Valid() && encoder < |window.encodersHeads| && window.encodersHeads[encoder].None?
      requires ChunksOk(chunks, row, height) && Countable(kind, row, height, chunks)
      requires |shape.used| + |chunks| <= LAST_QUOTA
      modifies this`window, this`shape, this`lastImageId, this`history
      ensures Valid() && ok == (PixelsNum(kind, row, height) <= old(window.sizeLimit))
      ensures !ok ==> State() == old(State())
      ensures ok ==> PreDone(old(State()), State(), encoder, Sent(kind, Lines(chunks)), h)
      ensures ok ==> m == shape.imgs[|shape.imgs| - 1] && headDist == |shape.imgs| - 1 - h
      ensures ok ==> FirstRoom(old(window), old(shape), PixelsNum(kind, row, height), h0)
      ensures ok ==> var k := if old(Idle()) then h0 else 0;
                     && h + k == h0
                     && Queued(window, shape, old(window), old(shape), k, PixelsNum(kind, row, height))
                     && WindowPixels(window, shape, 0)
                        == WindowPixels(old(window), old(shape), k) + CountedPixels(kind, row, height, chunks)
      ensures |shape.used| <= |old(shape.used)| + |chunks|
      ensures ok ==> (ImagePixels(window, shape, h) <= window.sizeLimit
                      <==> RoomIsReal(old(window), old(shape), PixelsNum(kind, row, height)))
      ensures ok && Short(old(window), old(shape), 0) == 0 ==>
                (ImagePixels(window, shape, h) <= window.sizeLimit
                 <==> WindowPixels(old(window), old(shape), 0) + PixelsNum(kind, row, height) < UINT32)
      ensures ok && Short(old(window), old(shape), 0) == 0
              && PixelsNum(kind, row, height) * chunks[|chunks| - 1].count < UINT32 ==>
                Short(window, shape, 0) == 0
    {
      hide Inv, Structured, Recorded, Grown, PixelsFrom, Queued, Pushes, Counts, ChunksOk;
      ghost var a := State();
      var size := CountPixels(kind, row, height);
      CountsExact(kind, row, height, chunks[..|chunks| - 1]);
      ok, m, headDist, h, h0 := size <= window.sizeLimit, 0, 0, 0, 0;
      if ok {
        var head;
        ghost var k;
        head, h, h0, k := MakeRoom(size);
        ghost var w, s := window, shape;
        m, headDist := AddFor(encoder, kind, row, height, chunks, head, h);
        QueuedFrom(window, shape, w, s, a.w, a.s, k, size);
        PushesIs(a, State(), size, h, h0, k);
        CountedAll(kind, row, height, chunks);
        Accounts(a, State(), size, CountedPixels(kind, row, height, chunks), h, h0, k);
      }
    }

    /**
     glz_dictionary_post_encode. The oldest active head is never older than the
     first segment in use, so the branch that would release images is never taken.
     */
    method PostEncode(encoder: nat)
      requires Valid() && encoder < |window.encodersHeads| && window.encodersHeads[encoder].Some?
      modifies this`window
      ensures Valid() && PostDone(old(State()), State(), encoder)
    {
      hide Inv;
      var early: Option<nat> := None;
      HeadIsUsed(window, shape, lastImageId, encoder);
      var i := 0;
      while i < |window.encodersHeads|
        invariant i <= |window.encodersHeads| && window == old(window)
        invariant early.Some? ==> early.value < |window.segs|
        decreases |window.encodersHeads| - i
      {
        if i != encoder {
          if window.encodersHeads[i].Some? {
            HeadIsUsed(window, shape, lastImageId, i);
          }
          if IsEarlier(window.segs, window.encodersHeads[i], early) {
            early := window.encodersHeads[i];
          }
        }
        i := i + 1;
      }
      if IsEarlier(window.segs, window.usedSegsHead, early) {
        early := window.usedSegsHead;
      }
      var mine := window.encodersHeads[encoder];
      if IsEarlier(window.segs, mine, early) {
        assert false;
      }
      ghost var w := window;
      window := window.(encodersHeads := window.encodersHeads[encoder := None]);
      ClearHead(w, shape, lastImageId, history, encoder, window);
    }
  }

  /** One chunk with all lines of an image. */
  method OneChunk(row: nat, height: nat) returns (chunks: seq<Chunk>)
    requires row > 0 && height > 0
    ensures ChunksOk(chunks, row, height) && |chunks| == 1 && chunks[0].count == height && chunks[..0] == []
  {
    var lines := seq(row * height, _ => F.Pixel(0, 0, 0, 0));
    chunks := [Chunk(lines, height)];
    assert LineCount(chunks) == LineCount(chunks[..0]) + height && chunks[..0] == [];
  }

  /**
   Two images of 2^31 pixels each, encoded at the same time with a limit of 2^31
   pixels: the second encoder gets a window of 2^32 pixels.
   */
  method WrappedWindow() returns (dict: SharedDictionary, ghost h: nat)
    ensures dict.Valid() && h < |dict.shape.imgs|
    ensures ImagePixels(dict.window, dict.shape, h) == UINT32 && dict.window.sizeLimit == 0x8000_0000
  {
    hide Inv, Grown, Pushes, Counts, RoomIsReal;
    dict := new SharedDictionary(0x8000_0000, 2, 0);
    var chunks := OneChunk(0x1000_0000, 1);
    CountedAll(PLT1_BE, 0x1000_0000, 1, chunks);
    var _, _, _, _, _ := dict.PreEncode(0, PLT1_BE, 0x1000_0000, 1, chunks);
    assert Sum32(dict.window, dict.shape, 0, 0x8000_0000) == 0;
    var _, _, _, h2, h0 := dict.PreEncode(1, PLT1_BE, 0x1000_0000, 1, chunks);
    assert h0 == 0;
    h := h2;
  }

  /**
   An image of 2560 by 1440 pixels in one chunk is counted with 703783 of them. Where
   it fills the window, another pixel still seems to fit.
   */
  method ShortWindow() returns (dict: SharedDictionary, ghost h: nat)
    ensures dict.Valid() && h < |dict.shape.imgs|
    ensures ImagePixels(dict.window, dict.shape, h) == 3686401 && dict.window.sizeLimit == 3686400
  {
    hide Inv, Grown, Pushes, Counts, RoomIsReal;
    dict := new SharedDictionary(3686400, 2, 0);
    var chunks := OneChunk(2560, 1440);
    assert CountShare(PixelsNum(RGB32, 2560, 1440), 1440, 1440) == 703783;
    var _, _, _, _, _ := dict.PreEncode(0, RGB32, 2560, 1440, chunks);
    assert Sum32(dict.window, dict.shape, 0, 1) == 703784;
    chunks := OneChunk(1, 1);
    var _, _, _, h2, h0 := dict.PreEncode(1, RGB32, 1, 1, chunks);
    assert h0 == 0;
    h := h2;
  }

  /** Two encoders at work on an image of one pixel and on one that fills the window. */
  method FullWindow() returns (dict: SharedDictionary, near: nat)
    ensures fresh(dict) && dict.Valid() && !dict.Idle() && dict.lastImageId == 2 && near == 0
    ensures dict.window.sizeLimit == 3686400 && |dict.shape.imgs| == 2 && |dict.shape.used| <= 2
    ensures |dict.window.encodersHeads| == 3 && dict.window.encodersHeads[2].None?
    ensures WindowPixels(dict.window, dict.shape, 0) == 703784
  {
    hide Inv, Grown, Pushes, Counts, RoomIsReal;
    dict := new SharedDictionary(3686400, 3, 0);
    var chunks := OneChunk(1, 1);
    var _, _, _, _, _ := dict.PreEncode(0, RGB32, 1, 1, chunks);
    assert dict.window.encodersHeads[0].Some? && WindowPixels(dict.window, dict.shape, 0) == 1;
    assert Sum32(dict.window, dict.shape, 0, 3686400) == 3686401;
    chunks := OneChunk(2560, 1440);
    assert CountShare(PixelsNum(RGB32, 2560, 1440), 1440, 1440) == 703783;
    var _, _, dist, _, h0 := dict.PreEncode(1, RGB32, 2560, 1440, chunks);
    assert dict.window.encodersHeads[0].Some? && h0 == 1;
    near := dist;
  }

  /**
   Image 1 fills the window, and with its distance of 0 it tells the client to drop
   image 0. It is counted with 703783 of its 3686400 pixels, so that image 2 finds room
   from image 0 on and announces it again.
   */
  method BackWindow() returns (dict: SharedDictionary, near: nat, far: nat)
    ensures dict.Valid() && dict.lastImageId == 3 && near == 0 && far == 2
  {
    hide Inv, Grown, Pushes, Counts, RoomIsReal;
    dict, near := FullWindow();
    assert Sum32(dict.window, dict.shape, 0, 1) == 703785;
    var chunks := OneChunk(1, 1);
    var _, _, dist, _, h0 := dict.PreEncode(2, RGB32, 1, 1, chunks);
    assert h0 == 0;
    far := dist;
  }
}
