/**
 The records of the shared GLZ dictionary as an encoder reads them, the test by
 which it accepts a reference segment, and what that test has to guarantee.
 */
module GlzWindow {
  import opened Basics
  import opened GlzFormat

  datatype ImageType = PLT1_LE | PLT1_BE | PLT4_LE | PLT4_BE | PLT8 | RGB16 | RGB24 | RGB32 | RGBA

  function PixelsPerByte(t: ImageType): (n: nat)
    ensures n == 1 || n == 2 || n == 8
  {
    match t
    case PLT1_LE => 8
    case PLT1_BE => 8
    case PLT4_LE => 2
    case PLT4_BE => 2
    case _ => 1
  }

  function BytesPerPixel(t: ImageType): (n: nat)
    ensures 1 <= n <= 4
  {
    match t
    case RGB16 => 2
    case RGB24 => 3
    case RGB32 => 4
    case RGBA => 4
    case _ => 1
  }

  predicate IsPalette(t: ImageType) {
    t.PLT1_LE? || t.PLT1_BE? || t.PLT4_LE? || t.PLT4_BE? || t.PLT8?
  }

  /** WindowImage; links are indices into the table of image records. */
  datatype Image = Image(id: nat, kind: ImageType, size: nat, firstSeg: nat, alive: bool, next: Option<nat>)

  /** WindowImageSegment; `lines` is the pixel memory between lines and lines_end. */
  datatype Seg = Seg(image: Option<nat>, lines: seq<Pixel>, pixelsNum: nat, pixelsSoFar: nat, next: Option<nat>)

  datatype HashEntry = HashEntry(seg: nat, pix: nat)

  /** The dictionary during one encoding: its records, the encoder's head and its image. */
  datatype View = View(segs: seq<Seg>, images: seq<Image>, head: nat, cur: nat)

  /** Links inside the records lead to records. */
  ghost predicate Linked(v: View) {
    && v.head < |v.segs|
    && v.cur < |v.images|
    && (forall s :: 0 <= s < |v.segs| && v.segs[s].image.Some? ==> v.segs[s].image.value < |v.images|)
  }

  function ImageOf(v: View, s: nat): Image
    requires Linked(v) && s < |v.segs| && v.segs[s].image.Some?
  {
    v.images[v.segs[s].image.value]
  }

  /** REF_SEG_IS_VALID. */
  predicate RefSegIsValid(v: View, ref: nat, src: nat)
    requires Linked(v) && ref < |v.segs| && src < |v.segs| && v.segs[src].image.Some?
  {
    || ref == src
    || (&& v.segs[ref].image.Some?
        && ImageOf(v, ref).alive
        && ImageOf(v, src).kind == ImageOf(v, ref).kind
        && v.segs[ref].pixelsSoFar <= v.segs[src].pixelsSoFar
        && v.segs[v.head].pixelsSoFar <= v.segs[ref].pixelsSoFar)
  }

  /** The pictures of the window by image id, as one row of pixels each. */
  type Pictures = map<nat, seq<Pixel>>

  /** Where segment `s` starts in the picture of its image. */
  ghost function OffsetInPicture(v: View, s: nat): int
    requires Linked(v) && s < |v.segs| && v.segs[s].image.Some?
    requires ImageOf(v, s).firstSeg < |v.segs|
  {
    (v.segs[s].pixelsSoFar - v.segs[ImageOf(v, s).firstSeg].pixelsSoFar) / PixelsPerByte(ImageOf(v, s).kind)
  }

  /** Segment `s` is a stretch of the picture of an image in the window. */
  ghost predicate Holds(v: View, pics: Pictures, s: nat)
    requires Linked(v)
  {
    && s < |v.segs|
    && v.segs[s].image.Some?
    && ImageOf(v, s).firstSeg < |v.segs|
    && ImageOf(v, s).id in pics
    && var first := v.segs[ImageOf(v, s).firstSeg].pixelsSoFar;
    var ofs := OffsetInPicture(v, s);
    var pic := pics[ImageOf(v, s).id];
    && v.segs[s].pixelsSoFar == first + ofs * PixelsPerByte(ImageOf(v, s).kind)
    && 0 <= ofs && |pic| < UINT32
    && Part(v.segs[s].lines, pic, ofs)
  }

  /**
   What the encoder relies on while it encodes: its image is the list of
   segments `mine`, and a segment that passes the test belongs to its own image
   and comes earlier, or to an earlier image at most `headDist` images back.
   */
  ghost predicate Ready(v: View, mine: seq<nat>, pics: Pictures, headDist: nat) {
    && Linked(v)
    && mine != []
    && (forall i :: 0 <= i < |mine| ==> Mine(v, mine[i], pics, headDist))
    && v.images[v.cur].firstSeg == mine[0]
    && v.images[v.cur].id in pics
    && OffsetInPicture(v, mine[0]) == 0
    && (forall i, j :: 0 <= i < |mine| && 0 <= j < |mine| && j == i + 1 ==> NextTo(v, mine[i], mine[j], pics))
    && OffsetInPicture(v, mine[|mine| - 1]) + |v.segs[mine[|mine| - 1]].lines| == |pics[v.images[v.cur].id]|
    && EndsHere(v, v.segs[mine[|mine| - 1]].next)
  }

  /** A segment of the image that is being encoded. */
  ghost predicate Mine(v: View, x: nat, pics: Pictures, headDist: nat) {
    Searchable(v, x, pics, headDist) && v.segs[x].image == Some(v.cur)
  }

  /** Segment `y` follows segment `x`, by its link and in the picture. */
  ghost predicate NextTo(v: View, x: nat, y: nat, pics: Pictures) {
    && Linked(v) && Holds(v, pics, x) && Holds(v, pics, y)
    && v.segs[x].next == Some(y)
    && OffsetInPicture(v, y) == OffsetInPicture(v, x) + |v.segs[x].lines|
  }

  /** Every segment that passes the test against `src` is one the decoder can follow. */
  ghost predicate Searchable(v: View, src: nat, pics: Pictures, headDist: nat) {
    && Linked(v) && headDist < UINT32 && Holds(v, pics, src)
    && (forall r :: 0 <= r < |v.segs| && r != src && RefSegIsValid(v, r, src) ==> Referable(v, src, pics, headDist, r))
  }

  /** Following the link leaves the image that is being encoded. */
  ghost predicate EndsHere(v: View, next: Option<nat>)
    requires Linked(v)
  {
    next.Some? ==>
      && next.value < |v.segs|
      && v.segs[next.value].image.Some?
      && ImageOf(v, next.value).id != v.images[v.cur].id
  }

  /** A reference from `src` into segment `r` is one that the decoder can follow. */
  ghost predicate Referable(v: View, src: nat, pics: Pictures, headDist: nat, r: nat)
    requires Linked(v) && Holds(v, pics, src)
  {
    && Holds(v, pics, r)
    && ImageOf(v, r).id <= ImageOf(v, src).id <= ImageOf(v, r).id + headDist
    && ImageOf(v, r).kind == ImageOf(v, src).kind
    && (ImageOf(v, r).id == ImageOf(v, src).id ==>
          && v.segs[r].image == v.segs[src].image
          && OffsetInPicture(v, r) + |v.segs[r].lines| <= OffsetInPicture(v, src))
  }

  // ----- Looking at the window more than once -----

  /**
   A later look at the window by the same encoder: its own segments and its image
   are as they were, and what followed its last segment is still not its own.
   */
  ghost predicate Follows(a: View, b: View, mine: seq<nat>) {
    && Linked(a) && Linked(b) && mine != []
    && b.head == a.head && b.cur == a.cur && |a.segs| <= |b.segs|
    && b.images[b.cur].id == a.images[a.cur].id && b.images[b.cur].kind == a.images[a.cur].kind
    && (forall i :: 0 <= i < |mine| ==> mine[i] < |a.segs| && SameStretch(a.segs[mine[i]], b.segs[mine[i]]))
    && EndsHere(b, a.segs[mine[|mine| - 1]].next)
  }

  ghost predicate SameStretch(a: Seg, b: Seg) {
    b.lines == a.lines && b.pixelsSoFar == a.pixelsSoFar && b.image == a.image
  }

  /**
   What an encoder sees at its successive looks, whatever other encoders do in
   between: the window is never spoilt and never departs from what it showed.
   */
  ghost predicate Watched(seen: nat -> View, mine: seq<nat>, pics: Pictures, headDist: nat) {
    && mine != [] && (forall t :: !Spoilt(seen, mine, pics, headDist, t))
    && (forall t, u :: t <= u ==> !Departs(seen, mine, t, u))
  }

  ghost predicate Spoilt(seen: nat -> View, mine: seq<nat>, pics: Pictures, headDist: nat, t: nat) {
    !Ready(seen(t), mine, pics, headDist)
  }

  ghost predicate Departs(seen: nat -> View, mine: seq<nat>, t: nat, u: nat) {
    !Follows(seen(t), seen(u), mine)
  }

  lemma ReadyAtLook(seen: nat -> View, mine: seq<nat>, pics: Pictures, headDist: nat, t: nat)
    requires Watched(seen, mine, pics, headDist)
    ensures Ready(seen(t), mine, pics, headDist)
  {
    assert !Spoilt(seen, mine, pics, headDist, t);
  }

  lemma FollowsAtLook(seen: nat -> View, mine: seq<nat>, pics: Pictures, headDist: nat, t: nat, u: nat)
    requires Watched(seen, mine, pics, headDist) && t <= u
    ensures Follows(seen(t), seen(u), mine)
  {
    assert !Departs(seen, mine, t, u);
  }

  /** A segment of the encoder's image looks the same every time. */
  lemma SameEveryTime(seen: nat -> View, mine: seq<nat>, pics: Pictures, headDist: nat, i: nat, t: nat)
    requires Watched(seen, mine, pics, headDist) && i < |mine|
    ensures Mine(seen(t), mine[i], pics, headDist) && Mine(seen(0), mine[i], pics, headDist)
    ensures seen(t).segs[mine[i]].lines == seen(0).segs[mine[i]].lines && |seen(0).segs| <= |seen(t).segs|
    ensures OffsetInPicture(seen(t), mine[i]) == OffsetInPicture(seen(0), mine[i])
    ensures seen(t).images[seen(t).cur].id == seen(0).images[seen(0).cur].id
  {
    ReadyAtLook(seen, mine, pics, headDist, t);
    ReadyAtLook(seen, mine, pics, headDist, 0);
    FollowsAtLook(seen, mine, pics, headDist, 0, t);
    SameOffset(seen(0), seen(t), mine, pics, headDist, i);
  }

  lemma SameOffset(a: View, b: View, mine: seq<nat>, pics: Pictures, headDist: nat, i: nat)
    requires Ready(a, mine, pics, headDist) && Ready(b, mine, pics, headDist) && Follows(a, b, mine) && i < |mine|
    ensures Mine(a, mine[i], pics, headDist) && Mine(b, mine[i], pics, headDist)
    ensures OffsetInPicture(b, mine[i]) == OffsetInPicture(a, mine[i])
  {
    assert Mine(a, mine[0], pics, headDist) && Mine(b, mine[0], pics, headDist);
    assert SameStretch(a.segs[mine[0]], b.segs[mine[0]]) && SameStretch(a.segs[mine[i]], b.segs[mine[i]]);
  }
}
