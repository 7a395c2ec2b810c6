/**
 What the list operations of the GLZ dictionary do to its invariant: releasing
 the oldest image, growing the segment array, taking segments from the free list
 and appending a finished image.
 */
module GlzListOps {
  import opened Basics
  import F = GlzFormat
  import opened GlzWindow
  import opened GlzDictionary

  // ----- Releasing the oldest image -----

  /** The lists after the oldest image has been released. */
  ghost function Shorter(s: Shape): Shape
    requires s.imgs != [] && |s.starts| == |s.imgs| + 1 && s.starts[1] <= |s.used|
  {
    var b := s.starts[1];
    Shape(s.used[b..], s.used[..b] + s.free, s.taken, s.imgs[1..], [s.imgs[0]] + s.spare,
          seq(|s.imgs|, i requires 0 <= i < |s.imgs| => if s.starts[i + 1] >= b then s.starts[i + 1] - b else 0))
  }

  /** Its segments in front of the free list, its record in front of the spare ones. */
  ghost function Released(w: Win, s: Shape): Win
    requires s.imgs != [] && |s.starts| == |s.imgs| + 1 && 0 < s.starts[1] <= |s.used|
    requires InRange(s.imgs, |w.images|) && InRange(s.used, |w.segs|)
  {
    var last := s.used[s.starts[1] - 1];
    var m := s.imgs[0];
    var rest := Shorter(s);
    w.(segs := w.segs[last := w.segs[last].(next := w.freeSegsHead)], freeSegsHead := Some(s.used[0]),
    images := w.images[m := w.images[m].(alive := false, next := w.freeImages)], freeImages := Some(m),
    usedImagesHead := w.images[m].next, usedImagesTail := Last(rest.imgs),
    usedSegsHead := First(rest.used), usedSegsTail := Last(rest.used))
  }

  ghost predicate Releasable(w: Win, s: Shape, lastId: nat) {
    && Inv(w, s, lastId) && s.imgs != [] && 0 < s.starts[1] <= |s.used|
    && (forall e :: 0 <= e < |w.encodersHeads| ==> w.encodersHeads[e].None?)
  }

  /** Cutting a chain after its first `b` segments and putting them in front of another one. */
  lemma ChainMoved(segs: seq<Seg>, segs': seq<Seg>, order: seq<nat>, free: seq<nat>, b: nat)
    requires SegChain(segs, order, None) && SegChain(segs, free, None) && Distinct(order) && Disjoint(order, free)
    requires 0 < b <= |order| && segs' == segs[order[b - 1] := segs[order[b - 1]].(next := First(free))]
    ensures SegChain(segs', order[b..], None) && SegChain(segs', order[..b] + free, None)
  {
    var moved := order[..b] + free;
    forall i, j | 0 <= i < |moved| && 0 <= j < |moved| && j == i + 1
      ensures segs'[moved[i]].next == Some(moved[j])
    {
      if i >= b {
        assert segs'[moved[i]] == segs[free[i - b]];
      }
    }
  }

  lemma DistinctMoved(order: seq<nat>, free: seq<nat>, b: nat)
    requires Distinct(order) && Distinct(free) && Disjoint(order, free) && b <= |order|
    ensures Distinct(order[b..]) && Distinct(order[..b] + free) && Disjoint(order[b..], order[..b] + free)
  {
  }

  lemma MovedCovers(order: seq<nat>, free: seq<nat>, b: nat, x: nat)
    requires b <= |order| && (x in order || x in free)
    ensures x in order[b..] || x in order[..b] + free
  {
    assert order == order[..b] + order[b..];
  }

  lemma ShorterPartition(n: nat, s: Shape)
    requires PartitionOk(n, s) && s.imgs != [] && |s.starts| == |s.imgs| + 1 && s.starts[1] <= |s.used|
    ensures PartitionOk(n, Shorter(s))
  {
    DistinctMoved(s.used, s.free, s.starts[1]);
    forall x | 0 <= x < n
      ensures x in Shorter(s).used || x in Shorter(s).free || x in Shorter(s).taken
    {
      if x !in s.taken {
        MovedCovers(s.used, s.free, s.starts[1], x);
      }
    }
  }

  lemma ReleasedSegLists(w: Win, s: Shape, lastId: nat)
    requires Releasable(w, s, lastId)
    ensures SegListsOk(Released(w, s), Shorter(s))
  {
    ChainMoved(w.segs, Released(w, s).segs, s.used, s.free, s.starts[1]);
    ShorterPartition(|w.segs|, s);
  }

  lemma ReleasedPixelsAt(w: Win, s: Shape, lastId: nat, i: nat)
    requires Releasable(w, s, lastId) && s.starts[1] + i <= |s.used|
    requires InRange(Shorter(s).used, |Released(w, s).segs|)
    ensures PixelsAt(Released(w, s), Shorter(s), i) == PixelsAt(w, s, s.starts[1] + i)
  {
  }

  lemma ReleasedIsBehind(w: Win, s: Shape, lastId: nat, i: nat)
    requires Releasable(w, s, lastId) && i < s.starts[1] + |s.free|
    ensures var x := Shorter(s).free[i];
            x < |w.segs| && (w.segs[x].image.None? || w.segs[x].pixelsSoFar < PixelsAt(w, s, s.starts[1]))
  {
    var b := s.starts[1];
    if i < b {
      PixelsIncrease(w, s, i, b);
    } else {
      PixelsIncrease(w, s, 0, b);
      assert Shorter(s).free[i] == s.free[i - b];
    }
  }

  lemma ReleasedPixels(w: Win, s: Shape, lastId: nat)
    requires Releasable(w, s, lastId) && InRange(Shorter(s).used, |w.segs|)
    ensures InRange(Shorter(s).free, |w.segs|) && PixelsOk(Released(w, s), Shorter(s))
  {
    var b := s.starts[1];
    var w', s' := Released(w, s), Shorter(s);
    forall i | 0 <= i < |s'.free|
      ensures s'.free[i] < |w.segs|
      ensures w'.segs[s'.free[i]].image.None? || w'.segs[s'.free[i]].pixelsSoFar < PixelsAt(w', s', 0)
    {
      ReleasedIsBehind(w, s, lastId, i);
      ReleasedPixelsAt(w, s, lastId, 0);
    }
    forall i, j | 0 <= i < |s'.used| && 0 <= j <= |s'.used| && j == i + 1
      ensures PixelsAt(w', s', j) == PixelsAt(w', s', i) + w'.segs[s'.used[i]].pixelsNum
    {
      ReleasedPixelsAt(w, s, lastId, i);
      ReleasedPixelsAt(w, s, lastId, j);
      assert PixelsAt(w, s, b + j) == PixelsAt(w, s, b + i) + w.segs[s.used[b + i]].pixelsNum;
    }
  }

  lemma ReleasedImageChains(images: seq<Image>, imgs: seq<nat>, spare: seq<nat>, images': seq<Image>)
    requires ImageChain(images, imgs, None) && ImageChain(images, spare, None) && imgs != []
    requires Distinct(imgs) && Disjoint(imgs, spare)
    requires images' == images[imgs[0] := images[imgs[0]].(alive := false, next := First(spare))]
    ensures ImageChain(images', imgs[1..], None) && ImageChain(images', [imgs[0]] + spare, None)
  {
  }

  lemma ReleasedImages(w: Win, s: Shape, lastId: nat)
    requires ImageListsOk(w, s, lastId) && InRange(s.used, |w.segs|)
    requires s.imgs != [] && |s.starts| == |s.imgs| + 1 && 0 < s.starts[1] <= |s.used|
    ensures ImageListsOk(Released(w, s), Shorter(s), lastId)
  {
    ReleasedImageChains(w.images, s.imgs, s.spare, Released(w, s).images);
  }

  /** The segment is the same apart from its link. */
  ghost predicate SameSeg(a: Seg, b: Seg) {
    a.(next := None) == b.(next := None)
  }

  /** The image record is the same apart from its link and from being alive. */
  ghost predicate SameImage(a: Image, b: Image) {
    a.(next := None, alive := true) == b.(next := None, alive := true)
  }

  /** A block that moves by `shift` places keeps what it says about its image. */
  lemma BlockMoves(w: Win, s: Shape, k: nat, w': Win, s': Shape, k': nat, shift: nat)
    requires InRange(s.imgs, |w.images|) && InRange(s.used, |w.segs|) && |s.starts| == |s.imgs| + 1
    requires InRange(s'.imgs, |w'.images|) && InRange(s'.used, |w'.segs|) && |s'.starts| == |s'.imgs| + 1
    requires k < |s.imgs| && k' < |s'.imgs| && s'.imgs[k'] == s.imgs[k]
    requires SameImage(w'.images[s.imgs[k]], w.images[s.imgs[k]])
    requires s'.starts[k'] + shift == s.starts[k] && s'.starts[k' + 1] + shift == s.starts[k + 1] <= |s'.used| + shift
    requires BlockOk(w, s, k)
    requires forall i :: s'.starts[k'] <= i < s'.starts[k' + 1] ==>
                           s'.used[i] == s.used[i + shift] && SameSeg(w'.segs[s'.used[i]], w.segs[s'.used[i]])
    requires PixelsAt(w', s', s'.starts[k' + 1]) == PixelsAt(w, s, s.starts[k + 1])
    ensures BlockOk(w', s', k')
  {
  }

  lemma ShorterStarts(w: Win, s: Shape, lastId: nat, k: nat)
    requires Releasable(w, s, lastId) && k < |s.imgs|
    ensures Shorter(s).starts[k] + s.starts[1] == s.starts[k + 1] <= |s.used|
  {
    if 0 < k {
      StartsIncrease(w, s, 1, k + 1);
    }
  }

  lemma ReleasedBlock(w: Win, s: Shape, k: nat, w': Win, s': Shape)
    requires InRange(s.used, |w.segs|) && Distinct(s.used) && InRange(s.imgs, |w.images|) && Distinct(s.imgs)
    requires |s.starts| == |s.imgs| + 1 && k + 1 < |s.imgs| && 0 < s.starts[1] <= |s.used| && BlockOk(w, s, k + 1)
    requires w' == Released(w, s) && s' == Shorter(s) && InRange(s'.used, |w.segs|) && InRange(s'.imgs, |w.images|)
    requires s'.starts[k] + s.starts[1] == s.starts[k + 1] <= |s.used|
    requires s'.starts[k + 1] + s.starts[1] == s.starts[k + 2] <= |s.used|
    requires PixelsAt(w', s', s'.starts[k + 1]) == PixelsAt(w, s, s.starts[k + 2])
    ensures BlockOk(w', s', k)
  {
    BlockMoves(w, s, k + 1, w', s', k, s.starts[1]);
  }

  lemma ReleasedBlocks(w: Win, s: Shape, lastId: nat, w': Win, s': Shape)
    requires Releasable(w, s, lastId) && w' == Released(w, s) && s' == Shorter(s)
    requires InRange(s'.used, |w.segs|) && InRange(s'.imgs, |w.images|)
    ensures BlocksOk(w', s')
  {
    ShorterStarts(w, s, lastId, 0);
    ShorterStarts(w, s, lastId, |s.imgs| - 1);
    forall k | 0 <= k < |s.imgs| - 1
      ensures BlockOk(w', s', k)
    {
      ShorterStarts(w, s, lastId, k);
      ShorterStarts(w, s, lastId, k + 1);
      ReleasedPixelsAt(w, s, lastId, s'.starts[k + 1]);
      ReleasedBlock(w, s, k, w', s');
    }
  }

  /** Releasing the oldest image keeps the invariant when no encoder is active. */
  lemma ReleaseKeepsInv(w: Win, s: Shape, lastId: nat)
    requires Releasable(w, s, lastId)
    ensures Inv(Released(w, s), Shorter(s), lastId)
  {
    ReleasedSegLists(w, s, lastId);
    ReleasedPixels(w, s, lastId);
    ReleasedImages(w, s, lastId);
    ReleasedBlocks(w, s, lastId, Released(w, s), Shorter(s));
  }

  // ----- Changes that leave what is in use alone -----

  /** The same lists, with segments and images that differ at most in their links and in being alive. */
  ghost predicate SameUse(w: Win, s: Shape, w': Win, s': Shape) {
    && s'.used == s.used && s'.imgs == s.imgs && s'.starts == s.starts && w'.pixelsSoFar == w.pixelsSoFar
    && InRange(s.used, |w.segs|) && InRange(s.used, |w'.segs|)
    && InRange(s.imgs, |w.images|) && InRange(s.imgs, |w'.images|)
    && (forall i :: 0 <= i < |s.used| ==> SameSeg(w'.segs[s.used[i]], w.segs[s.used[i]]))
    && (forall k :: 0 <= k < |s.imgs| ==> SameImage(w'.images[s.imgs[k]], w.images[s.imgs[k]]))
  }

  lemma SamePixelsAt(w: Win, s: Shape, w': Win, s': Shape, i: nat)
    requires SameUse(w, s, w', s') && i <= |s.used|
    ensures PixelsAt(w', s', i) == PixelsAt(w, s, i)
  {
  }

  lemma SameBlocks(w: Win, s: Shape, w': Win, s': Shape)
    requires SameUse(w, s, w', s') && BlocksOk(w, s)
    ensures BlocksOk(w', s')
  {
    forall k | 0 <= k < |s.imgs|
      ensures BlockOk(w', s', k)
    {
      assert BlockOk(w, s, k);
      SamePixelsAt(w, s, w', s', s.starts[k + 1]);
      BlockMoves(w, s, k, w', s', k, 0);
    }
  }

  /** The free segments have fallen behind the used ones. */
  ghost predicate FreeBehind(w: Win, s: Shape)
    requires InRange(s.used, |w.segs|) && InRange(s.free, |w.segs|)
  {
    forall i :: 0 <= i < |s.free| ==>
                  w.segs[s.free[i]].image.None? || w.segs[s.free[i]].pixelsSoFar < PixelsAt(w, s, 0)
  }

  lemma SamePixels(w: Win, s: Shape, w': Win, s': Shape)
    requires SameUse(w, s, w', s') && InRange(s.free, |w.segs|) && InRange(s'.free, |w'.segs|)
    requires PixelsOk(w, s) && FreeBehind(w', s')
    ensures PixelsOk(w', s')
  {
    forall i, j | 0 <= i < |s.used| && 0 <= j <= |s.used| && j == i + 1
      ensures PixelsAt(w', s', j) == PixelsAt(w', s', i) + w'.segs[s'.used[i]].pixelsNum
    {
      SamePixelsAt(w, s, w', s', i);
      SamePixelsAt(w, s, w', s', j);
      assert PixelsAt(w, s, j) == PixelsAt(w, s, i) + w.segs[s.used[i]].pixelsNum;
    }
  }

  // ----- Records outside the lists -----

  /** Only records that no list holds have changed, and records may have been added. */
  ghost predicate OutsideLists(w: Win, s: Shape, w': Win) {
    && InRange(s.used, |w.segs|) && InRange(s.free, |w.segs|) && InRange(s.imgs, |w.images|)
    && InRange(s.spare, |w.images|)
    && w' == w.(segs := w'.segs, images := w'.images) && |w'.segs| == |w.segs| && |w'.images| >= |w.images|
    && (forall i :: 0 <= i < |s.used| ==> w'.segs[s.used[i]] == w.segs[s.used[i]])
    && (forall i :: 0 <= i < |s.free| ==> w'.segs[s.free[i]] == w.segs[s.free[i]])
    && (forall i :: 0 <= i < |s.imgs| ==> w'.images[s.imgs[i]] == w.images[s.imgs[i]])
    && (forall i :: 0 <= i < |s.spare| ==> w'.images[s.spare[i]] == w.images[s.spare[i]])
    && (forall x :: 0 <= x < |w'.segs| && w'.segs[x].image.Some? ==> w'.segs[x].image.value < |w'.images|)
  }

  lemma OutsideKeepsInv(w: Win, s: Shape, lastId: nat, w': Win)
    requires Inv(w, s, lastId) && OutsideLists(w, s, w')
    ensures Inv(w', s, lastId)
  {
    SamePixelsAt(w, s, w', s, 0);
    SamePixels(w, s, w', s);
    SameBlocks(w, s, w', s);
  }

  // ----- Growing the segment array -----

  /** The segments added by a reallocation, linked in order. */
  function NewSegs(from: nat, to: nat): (r: seq<Seg>)
    requires from <= to
    ensures |r| == to - from
  {
    seq(to - from,
    i requires 0 <= i < to - from => Seg(None, [], 0, 0, if from + i + 1 < to then Some(from + i + 1) else None))
  }

  ghost function Places(from: nat, to: nat): (r: seq<nat>)
    requires from <= to
    ensures |r| == to - from
    ensures forall i :: 0 <= i < |r| ==> r[i] == from + i
  {
    seq(to - from, i requires 0 <= i < to - from => from + i)
  }

  lemma GrownSegLists(w: Win, s: Shape, to: nat, w': Win, s': Shape)
    requires SegListsOk(w, s) && s.free == [] && |w.segs| < to
    requires w' == w.(segs := w.segs + NewSegs(|w.segs|, to), freeSegsHead := Some(|w.segs|))
    requires s' == s.(free := Places(|w.segs|, to))
    ensures SegListsOk(w', s')
  {
    assert forall i :: 0 <= i < |s.used| ==> w'.segs[s.used[i]] == w.segs[s.used[i]];
    forall x | 0 <= x < |w'.segs|
      ensures x in s'.used || x in s'.free || x in s'.taken
    {
      if x >= |w.segs| {
        assert s'.free[x - |w.segs|] == x;
      }
    }
  }

  lemma GrownBlocks(w: Win, s: Shape, to: nat, w': Win, s': Shape)
    requires InRange(s.imgs, |w.images|) && InRange(s.used, |w.segs|) && s.free == [] && |w.segs| < to
    requires w' == w.(segs := w.segs + NewSegs(|w.segs|, to), freeSegsHead := Some(|w.segs|))
    requires s' == s.(free := Places(|w.segs|, to)) && InRange(s'.free, |w'.segs|)
    requires BlocksOk(w, s) && PixelsOk(w, s)
    ensures BlocksOk(w', s') && PixelsOk(w', s')
  {
    assert forall i :: 0 <= i < |s.used| ==> w'.segs[s.used[i]] == w.segs[s.used[i]];
    SamePixels(w, s, w', s');
    SameBlocks(w, s, w', s');
  }

  /** So does a reallocation, whose new segments become the free list. */
  lemma GrowKeepsInv(w: Win, s: Shape, lastId: nat, to: nat, w': Win, s': Shape)
    requires Inv(w, s, lastId) && s.free == [] && |w.segs| < to
    requires w' == w.(segs := w.segs + NewSegs(|w.segs|, to), freeSegsHead := Some(|w.segs|))
    requires s' == s.(free := Places(|w.segs|, to))
    ensures Inv(w', s', lastId)
  {
    GrownSegLists(w, s, to, w', s');
    GrownBlocks(w, s, to, w', s');
  }

  // ----- Taking a segment and an image record -----

  lemma TakenPartition(n: nat, s: Shape, s': Shape)
    requires PartitionOk(n, s) && s.free != [] && s.free[0] < n
    requires s' == s.(free := s.free[1..], taken := s.taken + [s.free[0]])
    ensures PartitionOk(n, s')
  {
    forall x | 0 <= x < n
      ensures x in s'.used || x in s'.free || x in s'.taken
    {
      if x in s.free {
        MovedCovers(s.free, [], 1, x);
      }
    }
  }

  lemma TakenLinks(w: Win, s: Shape, w': Win, s': Shape)
    requires SegLinksOk(w, s) && s.free != []
    requires w' == w.(freeSegsHead := w.segs[s.free[0]].next)
    requires s' == s.(free := s.free[1..], taken := s.taken + [s.free[0]])
    ensures SegLinksOk(w', s')
  {
  }

  lemma TakeKeepsInv(w: Win, s: Shape, lastId: nat, w': Win, s': Shape)
    requires Inv(w, s, lastId) && s.free != []
    requires w' == w.(freeSegsHead := w.segs[s.free[0]].next)
    requires s' == s.(free := s.free[1..], taken := s.taken + [s.free[0]])
    ensures Inv(w', s', lastId)
  {
    TakenLinks(w, s, w', s');
    TakenPartition(|w.segs|, s, s');
    SamePixelsAt(w, s, w', s', 0);
    SamePixels(w, s, w', s');
    SameBlocks(w, s, w', s');
  }

  lemma TakeImageKeepsInv(w: Win, s: Shape, lastId: nat, w': Win, s': Shape)
    requires Inv(w, s, lastId) && s.spare != []
    requires w' == w.(freeImages := w.images[s.spare[0]].next)
    requires s' == s.(spare := s.spare[1..])
    ensures Inv(w', s', lastId)
  {
    SamePixelsAt(w, s, w', s', 0);
    SamePixels(w, s, w', s');
    SameBlocks(w, s, w', s');
    TakenImageLists(w, s, lastId, w', s');
  }

  lemma TakenImageLists(w: Win, s: Shape, lastId: nat, w': Win, s': Shape)
    requires ImageListsOk(w, s, lastId) && s.spare != []
    requires w' == w.(freeImages := w.images[s.spare[0]].next)
    requires s' == s.(spare := s.spare[1..])
    ensures ImageListsOk(w', s', lastId)
  {
  }

  // ----- Appending an image -----

  /**
   The taken segments hold a stretch of image record `m`, counted from `base` to
   `total`; only the count of the last one may fall short.
   */
  ghost predicate Building(segs: seq<Seg>, taken: seq<nat>, m: nat, kind: ImageType, base: nat, total: nat) {
    && SegChain(segs, taken, None)
    && (forall i :: 0 <= i < |taken| ==> TakenOk(segs[taken[i]], m, kind))
    && (forall i :: 0 <= i && i + 1 < |taken| ==> Exact(segs[taken[i]], kind))
    && (forall i, j :: 0 <= i < |taken| && 0 <= j < |taken| && j == i + 1 ==>
                         segs[taken[j]].pixelsSoFar == segs[taken[i]].pixelsSoFar + segs[taken[i]].pixelsNum)
    && if taken == [] then total == base
       else var last := segs[taken[|taken| - 1]];
            segs[taken[0]].pixelsSoFar == base && last.pixelsSoFar + last.pixelsNum == total
  }

  /** The taken segments are a finished block for a record that no list holds. */
  ghost predicate Built(w: Win, s: Shape, m: nat, kind: ImageType, total: nat) {
    && s.taken != [] && m < |w.images| && m !in s.imgs && m !in s.spare
    && Building(w.segs, s.taken, m, kind, w.pixelsSoFar, total)
  }

  /** Segment `x` filled in as `seg` and linked to the one before it. */
  ghost predicate LinkedIn(segs: seq<Seg>, taken: seq<nat>, x: nat, seg: Seg, segs': seq<Seg>) {
    && InRange(taken, |segs|) && x < |segs| && x !in taken && Distinct(taken) && seg.next.None?
    && segs' == if taken == [] then segs[x := seg]
                else segs[x := seg][taken[|taken| - 1] := segs[taken[|taken| - 1]].(next := Some(x))]
  }

  lemma LinkedAt(segs: seq<Seg>, taken: seq<nat>, x: nat, seg: Seg, segs': seq<Seg>, i: nat)
    requires LinkedIn(segs, taken, x, seg, segs') && i < |taken|
    ensures segs'[x] == seg && SameSeg(segs'[taken[i]], segs[taken[i]])
    ensures segs'[taken[i]].next == if i + 1 < |taken| then segs[taken[i]].next else Some(x)
  {
  }

  lemma LinkedChain(segs: seq<Seg>, taken: seq<nat>, x: nat, seg: Seg, segs': seq<Seg>)
    requires SegChain(segs, taken, None) && LinkedIn(segs, taken, x, seg, segs')
    ensures SegChain(segs', taken + [x], None)
  {
    var more := taken + [x];
    forall i, j | 0 <= i < |more| && 0 <= j < |more| && j == i + 1
      ensures segs'[more[i]].next == Some(more[j])
    {
      LinkedAt(segs, taken, x, seg, segs', i);
    }
  }

  lemma LinkedCounts(segs: seq<Seg>, taken: seq<nat>, m: nat, kind: ImageType, base: nat, total: nat, x: nat, seg: Seg,
                     segs': seq<Seg>, i: nat, next: nat)
    requires Building(segs, taken, m, kind, base, total) && LinkedIn(segs, taken, x, seg, segs')
    requires seg.pixelsSoFar == total && i < |taken| && next == (if i + 1 < |taken| then taken[i + 1] else x)
    requires Exact(segs[taken[|taken| - 1]], kind)
    ensures TakenOk(segs'[taken[i]], m, kind) && Exact(segs'[taken[i]], kind) && next < |segs'|
    ensures segs'[next].pixelsSoFar == segs'[taken[i]].pixelsSoFar + segs'[taken[i]].pixelsNum
  {
    LinkedAt(segs, taken, x, seg, segs', i);
    if i + 1 < |taken| {
      LinkedAt(segs, taken, x, seg, segs', i + 1);
    }
  }

  /** One more segment `x`, linked to the one before it. */
  lemma BuildOne(segs: seq<Seg>, taken: seq<nat>, m: nat, kind: ImageType, base: nat, total: nat, x: nat, seg: Seg,
                 segs': seq<Seg>)
    requires Building(segs, taken, m, kind, base, total) && LinkedIn(segs, taken, x, seg, segs')
    requires TakenOk(seg, m, kind) && seg.pixelsSoFar == total
    requires taken != [] ==> Exact(segs[taken[|taken| - 1]], kind)
    ensures Building(segs', taken + [x], m, kind, base, total + seg.pixelsNum)
  {
    var more := taken + [x];
    LinkedChain(segs, taken, x, seg, segs');
    assert segs'[x] == seg;
    forall i | 0 <= i < |more|
      ensures TakenOk(segs'[more[i]], m, kind)
      ensures i + 1 < |more| ==> Exact(segs'[more[i]], kind)
    {
      if i < |taken| {
        LinkedCounts(segs, taken, m, kind, base, total, x, seg, segs', i, more[i + 1]);
      }
    }
    forall i, j | 0 <= i < |more| && 0 <= j < |more| && j == i + 1
      ensures segs'[more[j]].pixelsSoFar == segs'[more[i]].pixelsSoFar + segs'[more[i]].pixelsNum
    {
      LinkedCounts(segs, taken, m, kind, base, total, x, seg, segs', i, more[j]);
    }
    if taken != [] {
      LinkedAt(segs, taken, x, seg, segs', 0);
    }
  }

  lemma JoinedOne(segs: seq<Seg>, taken: seq<nat>, x: nat, segs': seq<Seg>)
    requires InRange(taken, |segs|) && x < |segs| == |segs'|
    requires forall i :: 0 <= i < |taken| ==> segs'[taken[i]].lines == segs[taken[i]].lines
    ensures Joined(segs', taken + [x]) == Joined(segs, taken) + segs'[x].lines
  {
    assert (taken + [x])[..|taken|] == taken;
    JoinedSame(segs, segs', taken);
  }

  ghost predicate TakenOk(x: Seg, m: nat, kind: ImageType) {
    x.image == Some(m) && 0 < x.pixelsNum <= |x.lines| * PixelsPerByte(kind)
  }

  ghost predicate Exact(x: Seg, kind: ImageType) {
    x.pixelsNum == |x.lines| * PixelsPerByte(kind)
  }

  /** The size of the image that the taken segments make up. */
  ghost function TakenSize(segs: seq<Seg>, taken: seq<nat>, kind: ImageType, base: nat): int
    requires taken != [] && InRange(taken, |segs|)
  {
    SegEnd(segs[taken[|taken| - 1]], PixelsPerByte(kind)) - base
  }

  ghost function Longer(s: Shape, m: nat): Shape {
    Shape(s.used + s.taken, s.free, [], s.imgs + [m], s.spare, s.starts + [|s.used| + |s.taken|])
  }

  /** The taken segments and image record `m`, filled in as `image`, become the newest ones. */
  ghost predicate Appended(w: Win, s: Shape, m: nat, image: Image, total: nat, w': Win) {
    && InRange(s.used, |w.segs|) && InRange(s.imgs, |w.images|) && m < |w.images| && s.taken != []
    && w' == w.(segs := w'.segs, usedSegsHead := First(s.used + s.taken), usedSegsTail := Last(s.taken),
             images := w'.images, usedImagesHead := First(s.imgs + [m]), usedImagesTail := Some(m),
             pixelsSoFar := total)
    && w'.segs == (if s.used == [] then w.segs
                   else w.segs[s.used[|s.used| - 1] := w.segs[s.used[|s.used| - 1]].(next := Some(s.taken[0]))])
    && w'.images == (if s.imgs == [] then w.images
                     else w.images[s.imgs[|s.imgs| - 1] := w.images[s.imgs[|s.imgs| - 1]].(next := Some(m))])
                    [m := image]
  }

  lemma ChainsJoined(segs: seq<Seg>, order: seq<nat>, more: seq<nat>, segs': seq<Seg>)
    requires SegChain(segs, order, None) && SegChain(segs, more, None) && Distinct(order) && Disjoint(order, more)
    requires more != []
    requires segs' == if order == [] then segs
                      else segs[order[|order| - 1] := segs[order[|order| - 1]].(next := Some(more[0]))]
    ensures SegChain(segs', order + more, None)
  {
    var all := order + more;
    forall i, j | 0 <= i < |all| && 0 <= j < |all| && j == i + 1
      ensures segs'[all[i]].next == Some(all[j])
    {
      if i >= |order| {
        assert segs'[all[i]] == segs[more[i - |order|]];
      }
    }
  }

  lemma DistinctJoined(order: seq<nat>, free: seq<nat>, more: seq<nat>)
    requires Distinct(order) && Distinct(more) && Disjoint(order, more) && Disjoint(order, free) && Disjoint(free, more)
    ensures Distinct(order + more) && Disjoint(order + more, free)
  {
  }

  lemma LongerPartition(n: nat, s: Shape, m: nat)
    requires PartitionOk(n, s)
    ensures PartitionOk(n, Longer(s, m))
  {
    DistinctJoined(s.used, s.free, s.taken);
  }

  lemma AppendedSegLinks(w: Win, s: Shape, m: nat, image: Image, total: nat, w': Win, s': Shape)
    requires SegListsOk(w, s) && s.taken != [] && SegChain(w.segs, s.taken, None)
    requires Appended(w, s, m, image, total, w') && s' == Longer(s, m)
    ensures SegLinksOk(w', s')
  {
    ChainsJoined(w.segs, s.used, s.taken, w'.segs);
    assert forall i :: 0 <= i < |s.free| ==> w'.segs[s.free[i]] == w.segs[s.free[i]];
  }

  lemma ImagesJoined(images: seq<Image>, order: seq<nat>, m: nat, image: Image, images': seq<Image>)
    requires ImageChain(images, order, None) && Distinct(order) && m !in order && m < |images| && image.next.None?
    requires images' == (if order == [] then images
                         else images[order[|order| - 1] := images[order[|order| - 1]].(next := Some(m))])[m := image]
    ensures ImageChain(images', order + [m], None)
    ensures forall k :: 0 <= k < |order| ==> images'[order[k]].id == images[order[k]].id
  {
    var all := order + [m];
    forall i, j | 0 <= i < |all| && 0 <= j < |all| && j == i + 1
      ensures images'[all[i]].next == Some(all[j])
    {
      assert order[i] != m;
    }
  }

  lemma AppendedImages(w: Win, s: Shape, lastId: nat, m: nat, image: Image, total: nat, w': Win, s': Shape)
    requires ImageListsOk(w, s, lastId) && m !in s.imgs && m !in s.spare
    requires Appended(w, s, m, image, total, w') && s' == Longer(s, m)
    requires image.id == lastId && image.next.None?
    ensures ImageListsOk(w', s', lastId + 1)
  {
    ImagesJoined(w.images, s.imgs, m, image, w'.images);
    assert forall i :: 0 <= i < |s.spare| ==> w'.images[s.spare[i]] == w.images[s.spare[i]];
  }

  lemma AppendedPixelsAt(w: Win, s: Shape, m: nat, kind: ImageType, image: Image, total: nat, w': Win, s': Shape,
                         i: nat)
    requires SegListsOk(w, s) && InRange(s.imgs, |w.images|) && Built(w, s, m, kind, total)
    requires Appended(w, s, m, image, total, w') && s' == Longer(s, m) && InRange(s'.used, |w'.segs|) && i <= |s.used|
    ensures PixelsAt(w', s', i) == PixelsAt(w, s, i)
  {
  }

  lemma AppendedPixelsStep(w: Win, s: Shape, m: nat, kind: ImageType, image: Image, total: nat, w': Win, s': Shape,
                           i: nat)
    requires SegListsOk(w, s) && PixelsOk(w, s) && InRange(s.imgs, |w.images|) && Built(w, s, m, kind, total)
    requires Appended(w, s, m, image, total, w') && s' == Longer(s, m) && InRange(s'.used, |w'.segs|) && i < |s'.used|
    ensures w'.segs[s'.used[i]].pixelsNum > 0
    ensures PixelsAt(w', s', i + 1) == PixelsAt(w', s', i) + w'.segs[s'.used[i]].pixelsNum
  {
    if i < |s.used| {
      AppendedPixelsAt(w, s, m, kind, image, total, w', s', i);
      AppendedPixelsAt(w, s, m, kind, image, total, w', s', i + 1);
    } else {
      var at := i - |s.used|;
      assert w'.segs[s'.used[i]] == w.segs[s.taken[at]];
      if i + 1 < |s'.used| {
        assert w'.segs[s'.used[i + 1]] == w.segs[s.taken[at + 1]];
      }
    }
  }

  lemma AppendedPixels(w: Win, s: Shape, m: nat, kind: ImageType, image: Image, total: nat, w': Win, s': Shape)
    requires SegListsOk(w, s) && PixelsOk(w, s) && InRange(s.imgs, |w.images|) && Built(w, s, m, kind, total)
    requires Appended(w, s, m, image, total, w') && s' == Longer(s, m) && SegListsOk(w', s')
    ensures PixelsOk(w', s')
  {
    AppendedPixelsAt(w, s, m, kind, image, total, w', s', 0);
    forall i | 0 <= i < |s'.used|
      ensures w'.segs[s'.used[i]].pixelsNum > 0
      ensures PixelsAt(w', s', i + 1) == PixelsAt(w', s', i) + w'.segs[s'.used[i]].pixelsNum
    {
      AppendedPixelsStep(w, s, m, kind, image, total, w', s', i);
    }
    assert forall i :: 0 <= i < |s.free| ==> w'.segs[s.free[i]] == w.segs[s.free[i]];
  }

  lemma AppendedOldBlock(w: Win, s: Shape, m: nat, image: Image, total: nat, w': Win, s': Shape, k: nat)
    requires InRange(s.imgs, |w.images|) && InRange(s.used, |w.segs|) && Distinct(s.imgs) && Distinct(s.used)
    requires Appended(w, s, m, image, total, w') && s' == Longer(s, m) && m !in s.imgs
    requires InRange(s'.imgs, |w'.images|) && InRange(s'.used, |w'.segs|) && |s.starts| == |s.imgs| + 1
    requires k < |s.imgs| && BlockOk(w, s, k)
    requires PixelsAt(w', s', s.starts[k + 1]) == PixelsAt(w, s, s.starts[k + 1])
    ensures BlockOk(w', s', k)
  {
    BlockMoves(w, s, k, w', s', k, 0);
  }

  lemma AppendedNewBlock(w: Win, s: Shape, m: nat, kind: ImageType, image: Image, total: nat, w': Win, s': Shape)
    requires InRange(s.used, |w.segs|) && InRange(s.taken, |w.segs|) && Disjoint(s.used, s.taken)
    requires |s.starts| == |s.imgs| + 1 && s.starts[|s.imgs|] == |s.used|
    requires forall i :: 0 <= i < |s.taken| ==> TakenOk(w.segs[s.taken[i]], m, kind)
    requires forall i :: 0 <= i && i + 1 < |s.taken| ==> Exact(w.segs[s.taken[i]], kind)
    requires Appended(w, s, m, image, total, w') && s' == Longer(s, m)
    requires InRange(s'.used, |w'.segs|) && InRange(s'.imgs, |w'.images|) && PixelsAt(w', s', |s.used|) == w.pixelsSoFar
    requires image.kind == kind && image.firstSeg == s.taken[0]
    requires InRange(s.taken, |w.segs|) && image.size == TakenSize(w.segs, s.taken, kind, w.pixelsSoFar) < UINT32
    ensures BlockOk(w', s', |s.imgs|)
  {
    forall i | |s.used| <= i < |s'.used|
      ensures w'.segs[s'.used[i]] == w.segs[s.taken[i - |s.used|]]
    {
    }
  }

  lemma AppendedBlocks(w: Win, s: Shape, m: nat, kind: ImageType, image: Image, total: nat, w': Win, s': Shape)
    requires SegListsOk(w, s) && InRange(s.imgs, |w.images|) && Distinct(s.imgs)
    requires Built(w, s, m, kind, total) && BlocksOk(w, s)
    requires Appended(w, s, m, image, total, w') && s' == Longer(s, m)
    requires SegListsOk(w', s') && InRange(s'.imgs, |w'.images|)
    requires image.kind == kind && image.firstSeg == s.taken[0]
    requires InRange(s.taken, |w.segs|) && image.size == TakenSize(w.segs, s.taken, kind, w.pixelsSoFar) < UINT32
    ensures BlocksOk(w', s')
  {
    AppendedPixelsAt(w, s, m, kind, image, total, w', s', |s.used|);
    AppendedNewBlock(w, s, m, kind, image, total, w', s');
    forall k | 0 <= k < |s.imgs|
      ensures BlockOk(w', s', k)
    {
      assert BlockOk(w, s, k);
      AppendedPixelsAt(w, s, m, kind, image, total, w', s', s.starts[k + 1]);
      AppendedOldBlock(w, s, m, image, total, w', s', k);
    }
  }

  /** And so does appending a finished image. */
  lemma AppendKeepsInv(w: Win, s: Shape, lastId: nat, m: nat, kind: ImageType, image: Image, total: nat, w': Win,
                       s': Shape)
    requires Inv(w, s, lastId) && Built(w, s, m, kind, total)
    requires Appended(w, s, m, image, total, w') && s' == Longer(s, m)
    requires image.id == lastId && image.next.None?
    requires image.kind == kind && image.firstSeg == s.taken[0]
    requires InRange(s.taken, |w.segs|) && image.size == TakenSize(w.segs, s.taken, kind, w.pixelsSoFar) < UINT32
    ensures Inv(w', s', lastId + 1)
  {
    AppendedSegLinks(w, s, m, image, total, w', s');
    LongerPartition(|w.segs|, s, m);
    AppendedImages(w, s, lastId, m, image, total, w', s');
    AppendedPixels(w, s, m, kind, image, total, w', s');
    AppendedBlocks(w, s, m, kind, image, total, w', s');
    forall e | 0 <= e < |w'.encodersHeads|
      ensures HeadOk(s', w'.encodersHeads[e])
    {
      HeadStays(s, m, w.encodersHeads[e]);
    }
  }

  lemma HeadStays(s: Shape, m: nat, head: Option<nat>)
    requires HeadOk(s, head)
    ensures HeadOk(Longer(s, m), head)
  {
    if head.Some? {
      var k :| 0 <= k < |s.imgs| && k < |s.starts| && s.starts[k] < |s.used| && head.value == s.used[s.starts[k]];
      assert Longer(s, m).starts[k] == s.starts[k];
    }
  }

  // ----- Killing an image -----

  lemma KilledImages(w: Win, s: Shape, lastId: nat, m: nat, w': Win)
    requires ImageListsOk(w, s, lastId)
    requires m < |w.images| && w' == w.(images := w.images[m := w.images[m].(alive := false)])
    ensures ImageListsOk(w', s, lastId)
  {
  }

  /** An image that its owner removes stays in the window; only references to it stop. */
  lemma KillKeepsInv(w: Win, s: Shape, lastId: nat, m: nat, w': Win)
    requires Inv(w, s, lastId) && m < |w.images| && w' == w.(images := w.images[m := w.images[m].(alive := false)])
    ensures Inv(w', s, lastId)
  {
    SamePixelsAt(w, s, w', s, 0);
    SamePixels(w, s, w', s);
    SameBlocks(w, s, w', s);
    KilledImages(w, s, lastId, m, w');
  }

  // ----- The pictures of the window -----

  /** What was sent: the type and the picture of each image by its id. */
  datatype Sent = Sent(kind: ImageType, pic: seq<F.Pixel>)

  type History = map<nat, Sent>

  ghost predicate Structured(w: Win, s: Shape) {
    InRange(s.imgs, |w.images|) && InRange(s.used, |w.segs|) && Distinct(s.imgs) && Distinct(s.used) && BlocksOk(w, s)
  }

  /** The window holds the images that were sent under their ids. */
  ghost predicate Recorded(w: Win, s: Shape, history: History)
    requires Structured(w, s)
  {
    forall k :: 0 <= k < |s.imgs| ==> RecordedAs(w, s, k, history)
  }

  ghost predicate RecordedAs(w: Win, s: Shape, k: nat, history: History)
    requires InRange(s.imgs, |w.images|) && InRange(s.used, |w.segs|) && BlocksOk(w, s) && k < |s.imgs|
  {
    var image := w.images[s.imgs[k]];
    image.id in history && history[image.id] == Sent(image.kind, Picture(w, s, k))
  }

  lemma {:induction false} JoinedSame(segs: seq<Seg>, segs': seq<Seg>, ids: seq<nat>)
    requires InRange(ids, |segs|) && InRange(ids, |segs'|)
    requires forall i :: 0 <= i < |ids| ==> segs'[ids[i]].lines == segs[ids[i]].lines
    ensures Joined(segs', ids) == Joined(segs, ids)
    decreases |ids|
  {
    if ids != [] {
      JoinedSame(segs, segs', ids[..|ids| - 1]);
    }
  }

  /** A block that moves keeps its picture. */
  lemma PictureMoves(w: Win, s: Shape, k: nat, w': Win, s': Shape, k': nat, shift: nat, history: History)
    requires InRange(s.imgs, |w.images|) && InRange(s.used, |w.segs|) && BlocksOk(w, s)
    requires InRange(s'.imgs, |w'.images|) && InRange(s'.used, |w'.segs|) && BlocksOk(w', s')
    requires k < |s.imgs| && k' < |s'.imgs| && s'.imgs[k'] == s.imgs[k]
    requires SameImage(w'.images[s.imgs[k]], w.images[s.imgs[k]])
    requires s'.starts[k'] + shift == s.starts[k] && s'.starts[k' + 1] + shift == s.starts[k + 1]
    requires forall i :: s'.starts[k'] <= i < s'.starts[k' + 1] && i < |s'.used| && i + shift < |s.used| ==>
                           s'.used[i] == s.used[i + shift] && s'.used[i] < |w.segs|
                           && SameSeg(w'.segs[s'.used[i]], w.segs[s'.used[i]])
    requires RecordedAs(w, s, k, history)
    ensures RecordedAs(w', s', k', history)
  {
    assert BlockOk(w, s, k) && BlockOk(w', s', k');
    var ids, ids' := s.used[s.starts[k]..s.starts[k + 1]], s'.used[s'.starts[k']..s'.starts[k' + 1]];
    assert ids' == ids;
    JoinedSame(w.segs, w'.segs, ids);
  }

  /** The images in use, their segments and their records are the same ones. */
  ghost predicate SameWindow(w: Win, s: Shape, w': Win, s': Shape) {
    && InRange(s.imgs, |w.images|) && InRange(s.used, |w.segs|) && InRange(s.imgs, |w'.images|)
    && InRange(s.used, |w'.segs|)
    && s'.used == s.used && s'.imgs == s.imgs && s'.starts == s.starts
    && (forall i :: 0 <= i < |s.used| ==> w'.segs[s.used[i]] == w.segs[s.used[i]])
    && (forall i :: 0 <= i < |s.imgs| ==> SameImage(w'.images[s.imgs[i]], w.images[s.imgs[i]]))
  }

  lemma SameRecord(w: Win, s: Shape, w': Win, s': Shape, k: nat, history: History)
    requires Structured(w, s) && SameWindow(w, s, w', s') && Structured(w', s')
    requires k < |s.imgs| && RecordedAs(w, s, k, history)
    ensures RecordedAs(w', s', k, history)
  {
    assert BlockOk(w, s, k);
    JoinedSame(w.segs, w'.segs, s.used[s.starts[k]..s.starts[k + 1]]);
  }

  lemma SameWindowKeepsRecord(w: Win, s: Shape, history: History, w': Win, s': Shape)
    requires Structured(w, s) && Recorded(w, s, history)
    requires SameWindow(w, s, w', s') && Structured(w', s')
    ensures Recorded(w', s', history)
  {
    forall k | 0 <= k < |s.imgs|
      ensures RecordedAs(w', s', k, history)
    {
      SameRecord(w, s, w', s', k, history);
    }
  }

  lemma ReleasedRecord(w: Win, s: Shape, w': Win, s': Shape, k: nat, history: History)
    requires Structured(w, s) && s.imgs != [] && 0 < s.starts[1] <= |s.used|
    requires w' == Released(w, s) && s' == Shorter(s) && Structured(w', s') && k + 1 < |s.imgs|
    requires s'.starts[k] + s.starts[1] == s.starts[k + 1] && s'.starts[k + 1] + s.starts[1] == s.starts[k + 2]
    requires RecordedAs(w, s, k + 1, history)
    ensures RecordedAs(w', s', k, history)
  {
    PictureMoves(w, s, k + 1, w', s', k, s.starts[1], history);
  }

  lemma ReleaseKeepsRecord(w: Win, s: Shape, lastId: nat, history: History, w': Win, s': Shape)
    requires Releasable(w, s, lastId) && Recorded(w, s, history)
    requires w' == Released(w, s) && s' == Shorter(s) && Structured(w', s')
    ensures Recorded(w', s', history)
  {
    forall k | 0 <= k < |s'.imgs|
      ensures RecordedAs(w', s', k, history)
    {
      ShorterStarts(w, s, lastId, k);
      ShorterStarts(w, s, lastId, k + 1);
      ReleasedRecord(w, s, w', s', k, history);
    }
  }

  lemma AppendedOldRecord(w: Win, s: Shape, m: nat, image: Image, total: nat, w': Win, s': Shape, k: nat,
                          history: History, sent: Sent)
    requires Structured(w, s) && Structured(w', s')
    requires Appended(w, s, m, image, total, w') && s' == Longer(s, m) && m !in s.imgs
    requires k < |s.imgs| && RecordedAs(w, s, k, history) && w.images[s.imgs[k]].id != image.id
    ensures RecordedAs(w', s', k, history[image.id := sent])
  {
    assert BlockOk(w, s, k);
    PictureMoves(w, s, k, w', s', k, 0, history);
  }

  lemma AppendedNewPicture(w: Win, s: Shape, m: nat, image: Image, total: nat, w': Win, s': Shape)
    requires Structured(w, s) && Structured(w', s') && InRange(s.taken, |w.segs|)
    requires Appended(w, s, m, image, total, w') && s' == Longer(s, m)
    ensures Picture(w', s', |s.imgs|) == Joined(w.segs, s.taken)
  {
    assert s'.used[|s.used|..|s.used| + |s.taken|] == s.taken;
    JoinedSame(w.segs, w'.segs, s.taken);
  }

  lemma AppendKeepsRecord(w: Win, s: Shape, m: nat, image: Image, total: nat,
                          w': Win, s': Shape, history: History)
    requires Structured(w, s) && Structured(w', s') && InRange(s.taken, |w.segs|)
    requires Recorded(w, s, history) && m !in s.imgs
    requires (forall k :: 0 <= k < |s.imgs| ==> w.images[s.imgs[k]].id != image.id)
    requires Appended(w, s, m, image, total, w') && s' == Longer(s, m)
    ensures Recorded(w', s', history[image.id := Sent(image.kind, Joined(w.segs, s.taken))])
  {
    var sent := Sent(image.kind, Joined(w.segs, s.taken));
    var history' := history[image.id := sent];
    AppendedNewPicture(w, s, m, image, total, w', s');
    forall k | 0 <= k < |s.imgs|
      ensures RecordedAs(w', s', k, history')
    {
      AppendedOldRecord(w, s, m, image, total, w', s', k, history, sent);
    }
  }

  /** What an encoder sees of the window is what was sent. */
  lemma RecordedPictures(w: Win, s: Shape, lastId: nat, history: History, kind: ImageType, id: nat)
    requires Inv(w, s, lastId) && Recorded(w, s, history) && id in PicturesOf(w, s, lastId, kind)
    ensures id in history && history[id] == Sent(kind, PicturesOf(w, s, lastId, kind)[id])
  {
    var k := id - (lastId - |s.imgs|);
    assert InUse(w, s, lastId, kind, id);
    assert RecordedAs(w, s, k, history);
  }
}
