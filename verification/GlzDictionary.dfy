/**
 The shared GLZ dictionary: segments and image records linked by index into
 used and free lists. `Shape` names the lists that the links spell out; the
 invariant ties the links, the running pixel count and the images together, and
 implies everything that an encoder relies on while it reads the window.
 */
module GlzDictionary {
  import opened Basics
  import F = GlzFormat
  import opened GlzWindow

  /** The `window` part of SharedDictionary, with the image records as a table. */
  datatype Win = Win(segs: seq<Seg>, usedSegsHead: Option<nat>, usedSegsTail: Option<nat>, freeSegsHead: Option<nat>,
                     encodersHeads: seq<Option<nat>>,
                     images: seq<Image>, usedImagesHead: Option<nat>, usedImagesTail: Option<nat>,
                     freeImages: Option<nat>,
                     pixelsSoFar: nat, sizeLimit: nat)

  /**
   The lists behind the links: segments in use, free, and taken for an image that
   is being added; image records in use and spare; and for each image in use where
   its segments start in `used`.
   */
  datatype Shape = Shape(used: seq<nat>, free: seq<nat>, taken: seq<nat>, imgs: seq<nat>, spare: seq<nat>,
                         starts: seq<nat>)

  function First<T>(s: seq<T>): Option<T> {
    if s == [] then None else Some(s[0])
  }

  function Last<T>(s: seq<T>): Option<T> {
    if s == [] then None else Some(s[|s| - 1])
  }

  // ----- Lists -----

  ghost predicate Distinct(s: seq<nat>) {
    forall i, j :: 0 <= i < j < |s| ==> s[i] != s[j]
  }

  ghost predicate InRange(s: seq<nat>, n: nat) {
    forall i :: 0 <= i < |s| ==> s[i] < n
  }

  ghost predicate Disjoint(s: seq<nat>, t: seq<nat>) {
    forall i, j :: 0 <= i < |s| && 0 <= j < |t| ==> s[i] != t[j]
  }

  /** Following `next` through the segments of `order` ends at `end`. */
  ghost predicate SegChain(segs: seq<Seg>, order: seq<nat>, end: Option<nat>) {
    && InRange(order, |segs|)
    && (forall i, j :: 0 <= i < |order| && 0 <= j < |order| && j == i + 1 ==> segs[order[i]].next == Some(order[j]))
    && (order != [] ==> segs[order[|order| - 1]].next == end)
  }

  ghost predicate ImageChain(images: seq<Image>, order: seq<nat>, end: Option<nat>) {
    && InRange(order, |images|)
    && (forall i, j :: 0 <= i < |order| && 0 <= j < |order| && j == i + 1 ==> images[order[i]].next == Some(order[j]))
    && (order != [] ==> images[order[|order| - 1]].next == end)
  }

  // ----- The invariant -----

  ghost predicate SegLinksOk(w: Win, s: Shape) {
    && SegChain(w.segs, s.used, None) && w.usedSegsHead == First(s.used) && w.usedSegsTail == Last(s.used)
    && SegChain(w.segs, s.free, None) && w.freeSegsHead == First(s.free)
  }

  /** The used, free and taken segments partition the `n` segments of the array. */
  ghost predicate PartitionOk(n: nat, s: Shape) {
    && InRange(s.taken, n)
    && Distinct(s.used) && Distinct(s.free) && Distinct(s.taken)
    && Disjoint(s.used, s.free) && Disjoint(s.used, s.taken) && Disjoint(s.free, s.taken)
    && (forall x :: 0 <= x < n ==> x in s.used || x in s.free || x in s.taken)
    && n == |s.used| + |s.free| + |s.taken|
  }

  ghost predicate SegListsOk(w: Win, s: Shape) {
    SegLinksOk(w, s) && PartitionOk(|w.segs|, s)
  }

  /** The running pixel count at position `i` of the used list, or after its end. */
  ghost function PixelsAt(w: Win, s: Shape, i: nat): nat
    requires i <= |s.used| && InRange(s.used, |w.segs|)
  {
    if i < |s.used| then w.segs[s.used[i]].pixelsSoFar else w.pixelsSoFar
  }

  /** The count grows along the used list, and what is free has fallen behind it. */
  ghost predicate PixelsOk(w: Win, s: Shape)
    requires InRange(s.used, |w.segs|) && InRange(s.free, |w.segs|)
  {
    && (forall i :: 0 <= i < |s.used| ==> w.segs[s.used[i]].pixelsNum > 0)
    && (forall i, j :: 0 <= i < |s.used| && 0 <= j <= |s.used| && j == i + 1 ==>
                         PixelsAt(w, s, j) == PixelsAt(w, s, i) + w.segs[s.used[i]].pixelsNum)
    && (forall i :: 0 <= i < |s.free| ==>
                      w.segs[s.free[i]].image.None? || w.segs[s.free[i]].pixelsSoFar < PixelsAt(w, s, 0))
  }

  ghost predicate ImageListsOk(w: Win, s: Shape, lastId: nat) {
    && ImageChain(w.images, s.imgs, None) && w.usedImagesHead == First(s.imgs) && w.usedImagesTail == Last(s.imgs)
    && ImageChain(w.images, s.spare, None) && w.freeImages == First(s.spare)
    && Distinct(s.imgs) && Distinct(s.spare) && Disjoint(s.imgs, s.spare)
    && |s.imgs| <= lastId
    && (forall k :: 0 <= k < |s.imgs| ==> w.images[s.imgs[k]].id == lastId - |s.imgs| + k)
  }

  /** The pixel count at the end of a segment's lines, had it been counted right. */
  ghost function SegEnd(x: Seg, p: nat): nat {
    x.pixelsSoFar + |x.lines| * p
  }

  /**
   Block `k` of the used list is image `k`: its segments, its first one and its size.
   The count of the last segment may fall short of its pixels.
   */
  ghost predicate BlockOk(w: Win, s: Shape, k: nat)
    requires k < |s.imgs| && InRange(s.imgs, |w.images|) && InRange(s.used, |w.segs|)
    requires |s.starts| == |s.imgs| + 1
  {
    var image := w.images[s.imgs[k]];
    var p := PixelsPerByte(image.kind);
    && s.starts[k] < s.starts[k + 1] <= |s.used|
    && image.firstSeg == s.used[s.starts[k]]
    && image.size == SegEnd(w.segs[s.used[s.starts[k + 1] - 1]], p) - PixelsAt(w, s, s.starts[k])
    && image.size < UINT32
    && (forall i :: s.starts[k] <= i < s.starts[k + 1] ==>
                      && w.segs[s.used[i]].image == Some(s.imgs[k])
                      && w.segs[s.used[i]].pixelsNum <= |w.segs[s.used[i]].lines| * p
                      && (i + 1 < s.starts[k + 1] ==> w.segs[s.used[i]].pixelsNum == |w.segs[s.used[i]].lines| * p))
  }

  ghost predicate BlocksOk(w: Win, s: Shape)
    requires InRange(s.imgs, |w.images|) && InRange(s.used, |w.segs|)
  {
    && |s.starts| == |s.imgs| + 1
    && s.starts[0] == 0
    && s.starts[|s.imgs|] == |s.used|
    && (forall k :: 0 <= k < |s.imgs| ==> BlockOk(w, s, k))
  }

  /** The head of an active encoder is the first segment of an image in use. */
  ghost predicate HeadOk(s: Shape, head: Option<nat>) {
    head.Some? ==>
      exists k :: 0 <= k < |s.imgs| && k < |s.starts| && s.starts[k] < |s.used| && head.value == s.used[s.starts[k]]
  }

  ghost predicate Inv(w: Win, s: Shape, lastId: nat) {
    && SegListsOk(w, s)
    && PixelsOk(w, s)
    && ImageListsOk(w, s, lastId)
    && BlocksOk(w, s)
    && (forall e :: 0 <= e < |w.encodersHeads| ==> HeadOk(s, w.encodersHeads[e]))
    && (forall x :: 0 <= x < |w.segs| && w.segs[x].image.Some? ==> w.segs[x].image.value < |w.images|)
  }

  // ----- What follows from it -----

  lemma {:induction false} PixelsIncrease(w: Win, s: Shape, i: nat, j: nat)
    requires InRange(s.used, |w.segs|) && InRange(s.free, |w.segs|) && PixelsOk(w, s)
    requires i < j <= |s.used|
    ensures PixelsAt(w, s, i) + (j - i) <= PixelsAt(w, s, j)
    decreases j - i
  {
    if i + 1 < j {
      PixelsIncrease(w, s, i + 1, j);
    }
  }

  lemma {:induction false} StartsIncrease(w: Win, s: Shape, k: nat, m: nat)
    requires InRange(s.imgs, |w.images|) && InRange(s.used, |w.segs|) && BlocksOk(w, s)
    requires k < m <= |s.imgs|
    ensures s.starts[k] + (m - k) <= s.starts[m] <= |s.used|
    decreases m - k
  {
    assert BlockOk(w, s, k);
    if k + 1 < m {
      StartsIncrease(w, s, k + 1, m);
    }
  }

  /** The image that a position of the used list belongs to. */
  lemma {:induction false} FindBlock(w: Win, s: Shape, i: nat, m: nat) returns (k: nat)
    requires InRange(s.imgs, |w.images|) && InRange(s.used, |w.segs|) && BlocksOk(w, s)
    requires m <= |s.imgs| && i < s.starts[m] && i < |s.used|
    ensures k < m && s.starts[k] <= i < s.starts[k + 1]
    ensures w.segs[s.used[i]].image == Some(s.imgs[k])
    decreases m
  {
    assert m > 0;
    assert BlockOk(w, s, m - 1);
    if s.starts[m - 1] <= i {
      k := m - 1;
    } else {
      k := FindBlock(w, s, i, m - 1);
    }
  }

  // ----- Pictures of the window -----

  /** The lines of some segments, one after the other. */
  ghost function Joined(segs: seq<Seg>, ids: seq<nat>): seq<F.Pixel>
    requires InRange(ids, |segs|)
  {
    if ids == [] then [] else Joined(segs, ids[..|ids| - 1]) + segs[ids[|ids| - 1]].lines
  }

  /** The picture of the `k`-th image in use. */
  ghost function Picture(w: Win, s: Shape, k: nat): seq<F.Pixel>
    requires InRange(s.imgs, |w.images|) && InRange(s.used, |w.segs|) && BlocksOk(w, s) && k < |s.imgs|
  {
    assert BlockOk(w, s, k);
    Joined(w.segs, s.used[s.starts[k]..s.starts[k + 1]])
  }

  /** An image of the given id and type is in use. */
  ghost predicate InUse(w: Win, s: Shape, lastId: nat, kind: ImageType, id: nat)
    requires Inv(w, s, lastId)
  {
    lastId - |s.imgs| <= id < lastId && w.images[s.imgs[id - (lastId - |s.imgs|)]].kind == kind
  }

  /** The pictures of the images in use that have the given type. */
  ghost function PicturesOf(w: Win, s: Shape, lastId: nat, kind: ImageType): Pictures
    requires Inv(w, s, lastId)
  {
    map id: nat | 0 <= id < lastId && InUse(w, s, lastId, kind, id) :: Picture(w, s, id - (lastId - |s.imgs|))
  }

  /** The pixel counts of consecutive segments add up to the pixels of their lines. */
  lemma {:induction false} JoinedPixels(segs: seq<Seg>, ids: seq<nat>, p: nat)
    requires InRange(ids, |segs|) && ids != []
    requires forall i :: 0 <= i < |ids| ==> segs[ids[i]].pixelsNum == |segs[ids[i]].lines| * p
    requires forall i, j :: 0 <= i < |ids| && 0 <= j < |ids| && j == i + 1 ==>
                              segs[ids[j]].pixelsSoFar == segs[ids[i]].pixelsSoFar + segs[ids[i]].pixelsNum
    ensures var last := segs[ids[|ids| - 1]];
            |Joined(segs, ids)| * p == last.pixelsSoFar + last.pixelsNum - segs[ids[0]].pixelsSoFar
    decreases |ids|
  {
    var front := ids[..|ids| - 1];
    if front != [] {
      JoinedPixels(segs, front, p);
    }
    Distribute(|Joined(segs, front)|, |segs[ids[|ids| - 1]].lines|, p);
  }

  lemma JoinedLength(w: Win, s: Shape, k: nat, i: nat)
    requires InRange(s.imgs, |w.images|) && InRange(s.used, |w.segs|) && InRange(s.free, |w.segs|)
    requires BlocksOk(w, s) && PixelsOk(w, s) && k < |s.imgs| && s.starts[k] <= i < s.starts[k + 1] <= |s.used|
    ensures |Joined(w.segs, s.used[s.starts[k]..i])| * PixelsPerByte(w.images[s.imgs[k]].kind)
         == PixelsAt(w, s, i) - PixelsAt(w, s, s.starts[k])
  {
    assert BlockOk(w, s, k);
    if s.starts[k] < i {
      var ids := s.used[s.starts[k]..i];
      forall x, y | 0 <= x < |ids| && 0 <= y < |ids| && y == x + 1
        ensures w.segs[ids[y]].pixelsSoFar == w.segs[ids[x]].pixelsSoFar + w.segs[ids[x]].pixelsNum
      {
        assert PixelsAt(w, s, s.starts[k] + y)
            == PixelsAt(w, s, s.starts[k] + x) + w.segs[s.used[s.starts[k] + x]].pixelsNum;
      }
      JoinedPixels(w.segs, ids, PixelsPerByte(w.images[s.imgs[k]].kind));
      assert PixelsAt(w, s, i) == PixelsAt(w, s, i - 1) + w.segs[s.used[i - 1]].pixelsNum;
    }
  }

  lemma Distribute(a: nat, b: nat, p: nat)
    ensures (a + b) * p == a * p + b * p
  {
  }

  lemma {:induction false} JoinedPart(segs: seq<Seg>, ids: seq<nat>, i: nat)
    requires InRange(ids, |segs|) && i < |ids|
    ensures F.Part(segs[ids[i]].lines, Joined(segs, ids), |Joined(segs, ids[..i])|)
    decreases |ids|
  {
    var front := ids[..|ids| - 1];
    if i < |front| {
      assert front[..i] == ids[..i];
      JoinedPart(segs, front, i);
    } else {
      assert front == ids[..i];
    }
  }

  lemma ExactQuotient(a: nat, p: nat)
    requires p == 1 || p == 2 || p == 8
    ensures a * p / p == a && a <= a * p
  {
  }

  /** The picture has as many pixels as the image's size says. */
  lemma PictureSize(w: Win, s: Shape, k: nat)
    requires InRange(s.imgs, |w.images|) && InRange(s.used, |w.segs|) && InRange(s.free, |w.segs|)
    requires BlocksOk(w, s) && PixelsOk(w, s) && k < |s.imgs|
    ensures |Picture(w, s, k)| * PixelsPerByte(w.images[s.imgs[k]].kind) == w.images[s.imgs[k]].size
    ensures |Picture(w, s, k)| < UINT32
  {
    assert BlockOk(w, s, k);
    var p, last := PixelsPerByte(w.images[s.imgs[k]].kind), s.starts[k + 1] - 1;
    JoinedLength(w, s, k, last);
    PictureEnd(w, s, k);
    Distribute(|Joined(w.segs, s.used[s.starts[k]..last])|, |w.segs[s.used[last]].lines|, p);
    ExactQuotient(|Picture(w, s, k)|, p);
  }

  /** Where a segment in use lies in its picture. */
  lemma UsedPart(w: Win, s: Shape, k: nat, i: nat)
    requires InRange(s.imgs, |w.images|) && InRange(s.used, |w.segs|)
    requires BlocksOk(w, s) && k < |s.imgs| && s.starts[k] <= i < s.starts[k + 1] <= |s.used|
    ensures F.Part(w.segs[s.used[i]].lines, Picture(w, s, k), |Joined(w.segs, s.used[s.starts[k]..i])|)
  {
    var block := s.used[s.starts[k]..s.starts[k + 1]];
    var at := i - s.starts[k];
    assert block[..at] == s.used[s.starts[k]..i] && block[at] == s.used[i];
    JoinedPart(w.segs, block, at);
  }

  lemma UsedOffset(w: Win, s: Shape, k: nat, i: nat)
    requires InRange(s.imgs, |w.images|) && InRange(s.used, |w.segs|) && InRange(s.free, |w.segs|)
    requires BlocksOk(w, s) && PixelsOk(w, s) && k < |s.imgs| && s.starts[k] <= i < s.starts[k + 1] <= |s.used|
    ensures var p, ofs := PixelsPerByte(w.images[s.imgs[k]].kind), |Joined(w.segs, s.used[s.starts[k]..i])|;
            && PixelsAt(w, s, i) == PixelsAt(w, s, s.starts[k]) + ofs * p
            && (PixelsAt(w, s, i) - PixelsAt(w, s, s.starts[k])) / p == ofs
  {
    JoinedLength(w, s, k, i);
    ExactQuotient(|Joined(w.segs, s.used[s.starts[k]..i])|, PixelsPerByte(w.images[s.imgs[k]].kind));
  }

  lemma PictureById(w: Win, s: Shape, lastId: nat, k: nat)
    requires Inv(w, s, lastId) && k < |s.imgs|
    ensures var pics := PicturesOf(w, s, lastId, w.images[s.imgs[k]].kind);
            var id := w.images[s.imgs[k]].id;
            id in pics && pics[id] == Picture(w, s, k)
  {
    assert w.images[s.imgs[k]].id == lastId - |s.imgs| + k;
    assert InUse(w, s, lastId, w.images[s.imgs[k]].kind, lastId - |s.imgs| + k);
  }

  lemma HoldsFromParts(v: View, pics: Pictures, x: nat, m: nat, ofs: nat, pic: seq<F.Pixel>)
    requires Linked(v) && x < |v.segs| && m < |v.images| && v.segs[x].image == Some(m)
    requires v.images[m].firstSeg < |v.segs|
    requires v.images[m].id in pics && pics[v.images[m].id] == pic && |pic| < UINT32
    requires v.segs[x].pixelsSoFar == v.segs[v.images[m].firstSeg].pixelsSoFar + ofs * PixelsPerByte(v.images[m].kind)
    requires (v.segs[x].pixelsSoFar - v.segs[v.images[m].firstSeg].pixelsSoFar) / PixelsPerByte(v.images[m].kind) == ofs
    requires F.Part(v.segs[x].lines, pic, ofs)
    ensures Holds(v, pics, x) && OffsetInPicture(v, x) == ofs
  {
  }

  lemma ViewLinked(w: Win, s: Shape, lastId: nat, head: nat, cur: nat)
    requires Inv(w, s, lastId) && head < |w.segs| && cur < |w.images|
    ensures Linked(View(w.segs, w.images, head, cur))
  {
  }

  lemma BlockFirst(w: Win, s: Shape, k: nat, i: nat)
    requires InRange(s.imgs, |w.images|) && InRange(s.used, |w.segs|) && BlocksOk(w, s)
    requires k < |s.imgs| && s.starts[k] <= i < s.starts[k + 1] <= |s.used|
    ensures w.segs[s.used[i]].image == Some(s.imgs[k]) && w.images[s.imgs[k]].firstSeg == s.used[s.starts[k]]
    ensures PixelsAt(w, s, s.starts[k]) == w.segs[s.used[s.starts[k]]].pixelsSoFar
    ensures PixelsAt(w, s, i) == w.segs[s.used[i]].pixelsSoFar
  {
    assert BlockOk(w, s, k);
  }

  lemma HoldsInUse(w: Win, s: Shape, v: View, pics: Pictures, k: nat, i: nat)
    requires InRange(s.imgs, |w.images|) && InRange(s.used, |w.segs|) && InRange(s.free, |w.segs|)
    requires BlocksOk(w, s) && PixelsOk(w, s) && k < |s.imgs| && s.starts[k] <= i < s.starts[k + 1] <= |s.used|
    requires Linked(v) && v.segs == w.segs && v.images == w.images
    requires w.images[s.imgs[k]].id in pics && pics[w.images[s.imgs[k]].id] == Picture(w, s, k)
    ensures v.segs[s.used[i]].image == Some(s.imgs[k]) && Holds(v, pics, s.used[i])
    ensures OffsetInPicture(v, s.used[i]) == |Joined(w.segs, s.used[s.starts[k]..i])|
  {
    UsedPart(w, s, k, i);
    UsedOffset(w, s, k, i);
    PictureSize(w, s, k);
    BlockFirst(w, s, k, i);
    HoldsFromParts(v, pics, s.used[i], s.imgs[k], |Joined(w.segs, s.used[s.starts[k]..i])|, Picture(w, s, k));
  }

  /** A segment in use is the stretch of its picture that its pixel count says. */
  lemma UsedHolds(w: Win, s: Shape, lastId: nat, head: nat, cur: nat, k: nat, i: nat)
    requires Inv(w, s, lastId) && k < |s.imgs| && s.starts[k] <= i < s.starts[k + 1] <= |s.used|
    requires head < |w.segs| && cur < |w.images|
    ensures var v := View(w.segs, w.images, head, cur);
            var pics := PicturesOf(w, s, lastId, w.images[s.imgs[k]].kind);
            && Linked(v) && v.segs[s.used[i]].image == Some(s.imgs[k])
            && Holds(v, pics, s.used[i])
            && OffsetInPicture(v, s.used[i]) == |Joined(w.segs, s.used[s.starts[k]..i])|
  {
    ViewLinked(w, s, lastId, head, cur);
    PictureById(w, s, lastId, k);
    HoldsInUse(w, s, View(w.segs, w.images, head, cur), PicturesOf(w, s, lastId, w.images[s.imgs[k]].kind), k, i);
  }

  // ----- What an encoder may rely on -----

  /** A free segment never passes the test: its pixel count lies before every head. */
  lemma ValidIsUsed(w: Win, s: Shape, lastId: nat, h: nat, i: nat, r: nat, cur: nat) returns (j: nat)
    requires Inv(w, s, lastId) && s.taken == [] && h < |s.imgs| && s.starts[h] <= i < |s.used| && cur < |w.images|
    requires r < |w.segs| && r != s.used[i]
    requires Linked(View(w.segs, w.images, s.used[s.starts[h]], cur)) && w.segs[s.used[i]].image.Some?
    requires RefSegIsValid(View(w.segs, w.images, s.used[s.starts[h]], cur), r, s.used[i])
    ensures s.starts[h] <= j < i && s.used[j] == r
  {
    if s.starts[h] > 0 {
      PixelsIncrease(w, s, 0, s.starts[h]);
    }
    assert r !in s.free;
    j :| 0 <= j < |s.used| && s.used[j] == r;
    if j > i {
      PixelsIncrease(w, s, i, j);
    }
    if j < s.starts[h] {
      PixelsIncrease(w, s, j, s.starts[h]);
    }
  }

  lemma EarlierInBlock(w: Win, s: Shape, k: nat, j: nat, i: nat)
    requires InRange(s.imgs, |w.images|) && InRange(s.used, |w.segs|) && BlocksOk(w, s)
    requires k < |s.imgs| && s.starts[k] <= j < i <= s.starts[k + 1] <= |s.used|
    ensures |Joined(w.segs, s.used[s.starts[k]..j])|
            + |w.segs[s.used[j]].lines| <= |Joined(w.segs, s.used[s.starts[k]..i])|
  {
    var ids := s.used[s.starts[k]..i];
    JoinedPart(w.segs, ids, j - s.starts[k]);
    assert ids[..j - s.starts[k]] == s.used[s.starts[k]..j] && ids[j - s.starts[k]] == s.used[j];
  }

  /** Whatever passes the test lies in the encoder's window, before the segment being encoded. */
  lemma ValidIsReferable(w: Win, s: Shape, lastId: nat, h: nat, k: nat, i: nat, r: nat)
    requires Inv(w, s, lastId) && s.taken == [] && h <= k < |s.imgs|
    requires s.starts[h] < |s.used| && s.starts[k] <= i < s.starts[k + 1] <= |s.used|
    requires r < |w.segs| && r != s.used[i]
    requires var v := View(w.segs, w.images, s.used[s.starts[h]], s.imgs[k]);
             && Linked(v) && v.segs[s.used[i]].image == Some(s.imgs[k])
             && Holds(v, PicturesOf(w, s, lastId, w.images[s.imgs[k]].kind), s.used[i])
             && OffsetInPicture(v, s.used[i]) == |Joined(w.segs, s.used[s.starts[k]..i])|
             && RefSegIsValid(v, r, s.used[i])
    ensures Referable(View(w.segs, w.images, s.used[s.starts[h]], s.imgs[k]), s.used[i],
                      PicturesOf(w, s, lastId, w.images[s.imgs[k]].kind), k - h, r)
  {
    if h < k {
      StartsIncrease(w, s, h, k);
    }
    var j := ValidIsUsed(w, s, lastId, h, i, r, s.imgs[k]);
    var m := BlockBetween(w, s, h, k, j);
    EarlierReferable(w, s, lastId, h, k, i, m, j);
  }

  /** An earlier segment of the window, in the same image or in one of the same type. */
  lemma EarlierReferable(w: Win, s: Shape, lastId: nat, h: nat, k: nat, i: nat, m: nat, j: nat)
    requires Inv(w, s, lastId) && h <= m <= k < |s.imgs| && s.starts[h] < |s.used|
    requires s.starts[k] <= i < s.starts[k + 1] <= |s.used| && s.starts[m] <= j < s.starts[m + 1] <= |s.used| && j < i
    requires w.images[s.imgs[m]].kind == w.images[s.imgs[k]].kind
    requires var v := View(w.segs, w.images, s.used[s.starts[h]], s.imgs[k]);
             && Linked(v) && v.segs[s.used[i]].image == Some(s.imgs[k])
             && Holds(v, PicturesOf(w, s, lastId, w.images[s.imgs[k]].kind), s.used[i])
             && OffsetInPicture(v, s.used[i]) == |Joined(w.segs, s.used[s.starts[k]..i])|
    ensures Referable(View(w.segs, w.images, s.used[s.starts[h]], s.imgs[k]), s.used[i],
                      PicturesOf(w, s, lastId, w.images[s.imgs[k]].kind), k - h, s.used[j])
  {
    UsedHolds(w, s, lastId, s.used[s.starts[h]], s.imgs[k], m, j);
    if m == k {
      EarlierInBlock(w, s, k, j, i);
    }
    IdsAndKinds(w, s, lastId, h, m, k);
  }

  lemma BlockBetween(w: Win, s: Shape, h: nat, k: nat, j: nat) returns (m: nat)
    requires InRange(s.imgs, |w.images|) && InRange(s.used, |w.segs|) && BlocksOk(w, s)
    requires h <= k < |s.imgs| && s.starts[h] <= j < s.starts[k + 1] && j < |s.used|
    ensures h <= m <= k && s.starts[m] <= j < s.starts[m + 1] <= |s.used|
    ensures w.segs[s.used[j]].image == Some(s.imgs[m])
  {
    m := FindBlock(w, s, j, k + 1);
    assert BlockOk(w, s, m);
    if m + 1 < h {
      StartsIncrease(w, s, m + 1, h);
    }
  }

  lemma IdsAndKinds(w: Win, s: Shape, lastId: nat, h: nat, m: nat, k: nat)
    requires Inv(w, s, lastId) && h <= m <= k < |s.imgs|
    ensures w.images[s.imgs[k]].id - w.images[s.imgs[m]].id == k - m <= k - h
  {
    assert w.images[s.imgs[m]].id == lastId - |s.imgs| + m;
    assert w.images[s.imgs[k]].id == lastId - |s.imgs| + k;
  }

  lemma BlockSearchable(w: Win, s: Shape, lastId: nat, h: nat, k: nat, i: nat)
    requires Inv(w, s, lastId) && s.taken == [] && h <= k < |s.imgs|
    requires s.starts[h] < |s.used| && s.starts[k] <= i < s.starts[k + 1] <= |s.used|
    requires k - h < UINT32
    ensures Searchable(View(w.segs, w.images, s.used[s.starts[h]], s.imgs[k]), s.used[i],
                       PicturesOf(w, s, lastId, w.images[s.imgs[k]].kind), k - h)
  {
    var v := View(w.segs, w.images, s.used[s.starts[h]], s.imgs[k]);
    UsedHolds(w, s, lastId, s.used[s.starts[h]], s.imgs[k], k, i);
    forall r | 0 <= r < |v.segs| && r != s.used[i] && RefSegIsValid(v, r, s.used[i])
      ensures Referable(v, s.used[i], PicturesOf(w, s, lastId, w.images[s.imgs[k]].kind), k - h, r)
    {
      ValidIsReferable(w, s, lastId, h, k, i, r);
    }
  }

  lemma BlockLinks(w: Win, s: Shape, lastId: nat, k: nat, i: nat)
    requires Inv(w, s, lastId) && k < |s.imgs| && s.starts[k] <= i && i + 1 < s.starts[k + 1] <= |s.used|
    ensures w.segs[s.used[i]].next == Some(s.used[i + 1])
    ensures |Joined(w.segs, s.used[s.starts[k]..i + 1])|
         == |Joined(w.segs, s.used[s.starts[k]..i])| + |w.segs[s.used[i]].lines|
  {
    var ids := s.used[s.starts[k]..i + 1];
    assert ids[..|ids| - 1] == s.used[s.starts[k]..i];
  }

  /** After the last segment of an image comes the first one of the next image, or nothing. */
  lemma BlockEnd(w: Win, s: Shape, lastId: nat, k: nat, head: nat)
    requires Inv(w, s, lastId) && k < |s.imgs| && head < |w.segs| && Linked(View(w.segs, w.images, head, s.imgs[k]))
    ensures s.starts[k] < s.starts[k + 1] <= |s.used|
    ensures EndsHere(View(w.segs, w.images, head, s.imgs[k]), w.segs[s.used[s.starts[k + 1] - 1]].next)
  {
    assert BlockOk(w, s, k);
    var last := s.starts[k + 1] - 1;
    if k + 1 < |s.imgs| {
      assert BlockOk(w, s, k + 1);
      assert w.segs[s.used[last]].next == Some(s.used[last + 1]);
      IdsAndKinds(w, s, lastId, k, k, k + 1);
    } else {
      assert last == |s.used| - 1;
    }
  }

  lemma PictureEnd(w: Win, s: Shape, k: nat)
    requires InRange(s.imgs, |w.images|) && InRange(s.used, |w.segs|) && BlocksOk(w, s) && k < |s.imgs|
    requires s.starts[k] < s.starts[k + 1] <= |s.used|
    ensures |Joined(w.segs, s.used[s.starts[k]..s.starts[k + 1] - 1])| + |w.segs[s.used[s.starts[k + 1] - 1]].lines|
         == |Picture(w, s, k)|
  {
    var block := s.used[s.starts[k]..s.starts[k + 1]];
    assert block[..|block| - 1] == s.used[s.starts[k]..s.starts[k + 1] - 1];
  }

  /** Encoder state: its head is the first segment of image `h`, and it encodes image `k`. */
  ghost predicate Encoding(w: Win, s: Shape, lastId: nat, h: nat, k: nat, v: View, mine: seq<nat>, pics: Pictures) {
    && Inv(w, s, lastId) && s.taken == [] && h <= k < |s.imgs| && k - h < UINT32
    && s.starts[h] < |s.used| && s.starts[k] < s.starts[k + 1] <= |s.used|
    && v == View(w.segs, w.images, s.used[s.starts[h]], s.imgs[k])
    && mine == s.used[s.starts[k]..s.starts[k + 1]]
    && pics == PicturesOf(w, s, lastId, w.images[s.imgs[k]].kind)
  }

  lemma SliceOfSlice<T>(t: seq<T>, from: nat, to: nat, i: nat)
    requires from + i <= to <= |t|
    ensures t[from..to][..i] == t[from..from + i]
  {
  }

  lemma MineAt(w: Win, s: Shape, lastId: nat, h: nat, k: nat, v: View, mine: seq<nat>, pics: Pictures, i: nat)
    requires Encoding(w, s, lastId, h, k, v, mine, pics) && i < |mine|
    ensures Mine(v, mine[i], pics, k - h)
  {
    BlockSearchable(w, s, lastId, h, k, s.starts[k] + i);
    BlockFirst(w, s, k, s.starts[k] + i);
  }

  lemma OffsetAt(w: Win, s: Shape, lastId: nat, h: nat, k: nat, v: View, mine: seq<nat>, pics: Pictures, i: nat)
    requires Encoding(w, s, lastId, h, k, v, mine, pics) && i < |mine|
    ensures Linked(v) && Holds(v, pics, mine[i]) && OffsetInPicture(v, mine[i]) == |Joined(w.segs, mine[..i])|
  {
    UsedHolds(w, s, lastId, v.head, v.cur, k, s.starts[k] + i);
    SliceOfSlice(s.used, s.starts[k], s.starts[k + 1], i);
  }

  lemma NextAt(w: Win, s: Shape, lastId: nat, h: nat, k: nat, v: View, mine: seq<nat>, pics: Pictures, i: nat)
    requires Encoding(w, s, lastId, h, k, v, mine, pics) && i + 1 < |mine|
    ensures NextTo(v, mine[i], mine[i + 1], pics)
  {
    var at := s.starts[k] + i;
    UsedHolds(w, s, lastId, v.head, v.cur, k, at);
    UsedHolds(w, s, lastId, v.head, v.cur, k, at + 1);
    BlockLinks(w, s, lastId, k, at);
  }

  lemma EndsAt(w: Win, s: Shape, lastId: nat, h: nat, k: nat, v: View, mine: seq<nat>, pics: Pictures)
    requires Encoding(w, s, lastId, h, k, v, mine, pics)
    ensures Linked(v) && v.images[v.cur].firstSeg == mine[0]
    ensures EndsHere(v, v.segs[mine[|mine| - 1]].next)
  {
    assert BlockOk(w, s, k);
    ViewLinked(w, s, lastId, v.head, v.cur);
    BlockEnd(w, s, lastId, k, v.head);
  }

  lemma LengthAt(w: Win, s: Shape, lastId: nat, h: nat, k: nat, v: View, mine: seq<nat>, pics: Pictures)
    requires Encoding(w, s, lastId, h, k, v, mine, pics)
    ensures v.images[v.cur].id in pics
    ensures |Joined(w.segs, mine[..|mine| - 1])| + |v.segs[mine[|mine| - 1]].lines| == |pics[v.images[v.cur].id]|
  {
    PictureById(w, s, lastId, k);
    PictureEnd(w, s, k);
    SliceOfSlice(s.used, s.starts[k], s.starts[k + 1], |mine| - 1);
  }

  lemma AllMine(w: Win, s: Shape, lastId: nat, h: nat, k: nat, v: View, mine: seq<nat>, pics: Pictures)
    requires Encoding(w, s, lastId, h, k, v, mine, pics)
    ensures forall i :: 0 <= i < |mine| ==> Mine(v, mine[i], pics, k - h)
  {
    forall i | 0 <= i < |mine|
      ensures Mine(v, mine[i], pics, k - h)
    {
      MineAt(w, s, lastId, h, k, v, mine, pics, i);
    }
  }

  lemma AllNext(w: Win, s: Shape, lastId: nat, h: nat, k: nat, v: View, mine: seq<nat>, pics: Pictures)
    requires Encoding(w, s, lastId, h, k, v, mine, pics)
    ensures forall i, j :: 0 <= i < |mine| && 0 <= j < |mine| && j == i + 1 ==> NextTo(v, mine[i], mine[j], pics)
  {
    forall i, j | 0 <= i < |mine| && 0 <= j < |mine| && j == i + 1
      ensures NextTo(v, mine[i], mine[j], pics)
    {
      NextAt(w, s, lastId, h, k, v, mine, pics, i);
    }
  }

  /**
   In every state of the dictionary, an encoder whose head is the first segment
   of image `h` and that encodes image `k` has a window it can work with.
   */
  lemma WindowIsReady(w: Win, s: Shape, lastId: nat, h: nat, k: nat, v: View, mine: seq<nat>, pics: Pictures)
    requires Encoding(w, s, lastId, h, k, v, mine, pics)
    ensures Ready(v, mine, pics, k - h)
  {
    EndsAt(w, s, lastId, h, k, v, mine, pics);
    LengthAt(w, s, lastId, h, k, v, mine, pics);
    AllMine(w, s, lastId, h, k, v, mine, pics);
    AllNext(w, s, lastId, h, k, v, mine, pics);
    OffsetAt(w, s, lastId, h, k, v, mine, pics, 0);
    OffsetAt(w, s, lastId, h, k, v, mine, pics, |mine| - 1);
  }
}
