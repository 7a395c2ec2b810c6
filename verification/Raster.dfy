/**
 Pictures, regions and drawing commands, with the two semantic facts that the
 display channel relies on: a draw whose pixels nobody needs may be skipped, and
 a draw may be moved before older draws it is independent of.

 A picture assigns a colour to every location, a location being a point of some
 surface; all surfaces of a display live in one picture.
 */
module Raster {
  import opened Basics

  datatype Point = Point(x: int, y: int)

  datatype Loc = Loc(surface: int, at: Point)

  type Color = int

  type Region = set<Point>

  type Picture = Loc -> Color

  /** A surface read by a draw on another surface, and the rectangle it reads. */
  datatype Dep = Dep(surface: int, rect: Region)

  /**
   What a draw computes for each pixel of its clip. `taps` lists the locations
   of other surfaces that the pixel is computed from.
   */
  datatype Op =
    | Paint(ink: (Point, seq<Color>) -> Color, taps: Point -> seq<Loc>)
    | Blend(mix: (Point, Color, seq<Color>) -> Color, taps: Point -> seq<Loc>)
    | CopyBits(dx: int, dy: int)

  /** QXL_EFFECT_OPAQUE is the only effect that culling looks at. */
  datatype Effect = Opaque | NotOpaque

  /** One command of the guest (RedDrawable), numbered in order of arrival. */
  datatype Draw = Draw(serial: nat, surface: int, bbox: Region, clipRects: Option<Region>,
                       effect: Effect, op: Op, deps: seq<Dep>)

  function Clip(d: Draw): (r: Region)
    ensures r <= d.bbox
  {
    if d.clipRects.Some? then d.bbox * d.clipRects.value else d.bbox
  }

  ghost predicate TapsCovered(d: Draw, taps: Point -> seq<Loc>) {
    forall p, l :: p in Clip(d) && l in taps(p) ==>
                     exists k :: 0 <= k < |d.deps| && l.surface == d.deps[k].surface && l.at in d.deps[k].rect
  }

  /**
   What the guest promises of a command: an opaque one does not look at the
   pixels it covers, and the locations it reads on other surfaces lie in the
   rectangles it declares.
   */
  ghost predicate WellFormed(d: Draw) {
    && (d.effect.Opaque? ==> !d.op.Blend?)
    && (forall k :: 0 <= k < |d.deps| ==> d.deps[k].surface != d.surface)
    && match d.op
       case Paint(_, taps) => TapsCovered(d, taps)
       case Blend(_, taps) => TapsCovered(d, taps)
       case CopyBits(_, _) => d.deps == []
  }

  predicate DependsOn(d: Draw, surface: int) {
    exists k :: 0 <= k < |d.deps| && d.deps[k].surface == surface
  }

  // ----- Regions -----

  function Shift(p: Point, dx: int, dy: int): Point {
    Point(p.x + dx, p.y + dy)
  }

  function Translate(r: Region, dx: int, dy: int): Region {
    set p | p in r :: Shift(p, dx, dy)
  }

  lemma InTranslate(r: Region, dx: int, dy: int, q: Point)
    ensures q in Translate(r, dx, dy) <==> Shift(q, -dx, -dy) in r
  {
    assert q == Shift(Shift(q, -dx, -dy), dx, dy);
  }

  lemma TranslateMinus(a: Region, b: Region, dx: int, dy: int)
    ensures Translate(a - b, dx, dy) == Translate(a, dx, dy) - Translate(b, dx, dy)
  {
    forall q
      ensures q in Translate(a - b, dx, dy) <==> q in Translate(a, dx, dy) - Translate(b, dx, dy)
    {
      InTranslate(a - b, dx, dy, q);
      InTranslate(a, dx, dy, q);
      InTranslate(b, dx, dy, q);
    }
  }

  lemma {:induction false} MinimumExists(s: set<int>, m: int)
    requires m in s
    ensures exists n :: n in s && forall y :: y in s ==> n <= y
    decreases |s|
  {
    if k :| k in s && k < m {
      var t := s - {m};
      MinimumExists(t, k);
      var n :| n in t && forall y :: y in t ==> n <= y;
      assert forall y :: y in s ==> y == m || y in t;
      assert n in s && forall y :: y in s ==> n <= y;
    } else {
      assert m in s && forall y :: y in s ==> m <= y;
    }
  }

  function Minimum(s: set<int>): (m: int)
    requires exists k :: k in s
    ensures m in s && forall y :: y in s ==> m <= y
  {
    assert exists n :: n in s && forall y :: y in s ==> n <= y by {
      var k :| k in s;
      MinimumExists(s, k);
    }
    var m :| m in s && forall y :: y in s ==> m <= y;
    m
  }

  function Columns(r: Region): set<int> {
    set p | p in r :: p.x
  }

  function Rows(r: Region): set<int> {
    set p | p in r :: p.y
  }

  /** The left edge of the extents of a region. */
  function X1(r: Region): int
    requires exists p :: p in r
  {
    assert exists k :: k in Columns(r) by { var p :| p in r; assert p.x in Columns(r); }
    Minimum(Columns(r))
  }

  /** The top edge of the extents of a region. */
  function Y1(r: Region): int
    requires exists p :: p in r
  {
    assert exists k :: k in Rows(r) by { var p :| p in r; assert p.y in Rows(r); }
    Minimum(Rows(r))
  }

  lemma EdgeForward(r: Region, dx: int, dy: int, p: Point)
    requires p in r
    ensures p.x + dx in Columns(Translate(r, dx, dy)) && p.y + dy in Rows(Translate(r, dx, dy))
  {
    var q := Shift(p, dx, dy);
    assert q in Translate(r, dx, dy) && q.x == p.x + dx && q.y == p.y + dy;
  }

  lemma EdgeBack(r: Region, dx: int, dy: int, q: Point)
    requires q in Translate(r, dx, dy)
    ensures q.x - dx in Columns(r) && q.y - dy in Rows(r)
  {
    InTranslate(r, dx, dy, q);
    var p := Shift(q, -dx, -dy);
    assert p in r && p.x == q.x - dx && p.y == q.y - dy;
  }

  /**
   The extents of a translated region give back the translation. This is what
   lets a copy recompute its offset from the extents of two regions that have
   both been reduced since they were created.
   */
  lemma ExtentsGiveOffset(r: Region, dx: int, dy: int)
    requires exists p :: p in r
    ensures exists p :: p in Translate(r, dx, dy)
    ensures X1(Translate(r, dx, dy)) - X1(r) == dx
    ensures Y1(Translate(r, dx, dy)) - Y1(r) == dy
  {
    var t := Translate(r, dx, dy);
    var p0 :| p0 in r;
    assert Shift(p0, dx, dy) in t;
    var left :| left in r && left.x == X1(r);
    EdgeForward(r, dx, dy, left);
    var top :| top in r && top.y == Y1(r);
    EdgeForward(r, dx, dy, top);
    var tleft :| tleft in t && tleft.x == X1(t);
    EdgeBack(r, dx, dy, tleft);
    var ttop :| ttop in t && ttop.y == Y1(t);
    EdgeBack(r, dx, dy, ttop);
  }

  // ----- Rendering -----

  function Sample(img: Picture, at: seq<Loc>): (r: seq<Color>)
    ensures |r| == |at|
  {
    seq(|at|, i requires 0 <= i < |at| => img(at[i]))
  }

  predicate Writes(d: Draw, l: Loc) {
    l.surface == d.surface && l.at in Clip(d)
  }

  /** The locations that pixel `p` of the draw is computed from. */
  ghost function Reads(d: Draw, p: Point): set<Loc> {
    match d.op
    case Paint(_, taps) => (set l | l in taps(p))
    case Blend(_, taps) => (set l | l in taps(p)) + {Loc(d.surface, p)}
    case CopyBits(dx, dy) => {Loc(d.surface, Shift(p, dx, dy))}
  }

  function Shade(d: Draw, img: Picture, p: Point): Color {
    match d.op
    case Paint(ink, taps) => ink(p, Sample(img, taps(p)))
    case Blend(mix, taps) => mix(p, img(Loc(d.surface, p)), Sample(img, taps(p)))
    case CopyBits(dx, dy) => img(Loc(d.surface, Shift(p, dx, dy)))
  }

  /** The picture after executing one draw with its full clip. */
  function Apply(img: Picture, d: Draw): Picture {
    (l: Loc) => if Writes(d, l) then Shade(d, img, l.at) else img(l)
  }

  /** The picture after executing the draws in order, oldest first. */
  function Run(img: Picture, ds: seq<Draw>): Picture
    decreases |ds|
  {
    if ds == [] then img else Run(Apply(img, ds[0]), ds[1..])
  }

  ghost predicate Same(a: Picture, b: Picture) {
    forall l :: a(l) == b(l)
  }

  /** Two command sequences that have the same effect on every picture. */
  ghost predicate Equivalent(a: seq<Draw>, b: seq<Draw>) {
    forall img :: Same(Run(img, a), Run(img, b))
  }

  lemma EquivalentTransitive(a: seq<Draw>, b: seq<Draw>, c: seq<Draw>)
    requires Equivalent(a, b) && Equivalent(b, c)
    ensures Equivalent(a, c)
  {
    forall img
      ensures Same(Run(img, a), Run(img, c))
    {
      assert Same(Run(img, a), Run(img, b)) && Same(Run(img, b), Run(img, c));
    }
  }

  lemma {:induction false} RunAppend(img: Picture, xs: seq<Draw>, ys: seq<Draw>)
    ensures Run(img, xs + ys) == Run(Run(img, xs), ys)
    decreases |xs|
  {
    if xs == [] {
      assert xs + ys == ys;
    } else {
      assert (xs + ys)[1..] == xs[1..] + ys;
      RunAppend(Apply(img, xs[0]), xs[1..], ys);
    }
  }

  lemma ShadeDependsOnReads(d: Draw, a: Picture, b: Picture, p: Point)
    requires forall l :: l in Reads(d, p) ==> a(l) == b(l)
    ensures Shade(d, a, p) == Shade(d, b, p)
  {
    match d.op
    case Paint(ink, taps) =>
      assert Sample(a, taps(p)) == Sample(b, taps(p));
    case Blend(mix, taps) =>
      assert Loc(d.surface, p) in Reads(d, p);
      assert Sample(a, taps(p)) == Sample(b, taps(p));
    case CopyBits(dx, dy) =>
      assert Loc(d.surface, Shift(p, dx, dy)) in Reads(d, p);
  }

  // ----- Liveness -----

  /**
   Whether the colour of `l`, before the draws `ds` are executed, can still
   influence the picture after them.
   */
  ghost predicate Live(ds: seq<Draw>, l: Loc)
    decreases |ds|
  {
    ds == [] ||
    (!Writes(ds[0], l) && Live(ds[1..], l)) ||
    exists p :: p in Clip(ds[0]) && Live(ds[1..], Loc(ds[0].surface, p)) && l in Reads(ds[0], p)
  }

  /** Pictures that agree on the live locations lead to the same picture. */
  lemma {:induction false} RunAgree(a: Picture, b: Picture, ds: seq<Draw>)
    requires forall l :: Live(ds, l) ==> a(l) == b(l)
    ensures Same(Run(a, ds), Run(b, ds))
    decreases |ds|
  {
    if ds == [] {
      assert forall l :: Live(ds, l);
    } else {
      var d, rest := ds[0], ds[1..];
      forall l | Live(rest, l)
        ensures Apply(a, d)(l) == Apply(b, d)(l)
      {
        if Writes(d, l) {
          assert l == Loc(d.surface, l.at);
          assert forall r :: r in Reads(d, l.at) ==> Live(ds, r);
          ShadeDependsOnReads(d, a, b, l.at);
        } else {
          assert Live(ds, l);
        }
      }
      RunAgree(Apply(a, d), Apply(b, d), rest);
    }
  }

  lemma RunCongruent(a: Picture, b: Picture, ds: seq<Draw>)
    requires Same(a, b)
    ensures Same(Run(a, ds), Run(b, ds))
  {
    RunAgree(a, b, ds);
  }

  /** A newer draw never makes an older location live again. */
  lemma {:induction false} LiveShrinks(ds: seq<Draw>, more: seq<Draw>, l: Loc)
    requires Live(ds + more, l)
    ensures Live(ds, l)
    decreases |ds|
  {
    if ds != [] {
      assert (ds + more)[0] == ds[0] && (ds + more)[1..] == ds[1..] + more;
      if !Writes(ds[0], l) && Live(ds[1..] + more, l) {
        LiveShrinks(ds[1..], more, l);
      } else {
        var p :| p in Clip(ds[0]) && Live(ds[1..] + more, Loc(ds[0].surface, p)) && l in Reads(ds[0], p);
        LiveShrinks(ds[1..], more, Loc(ds[0].surface, p));
      }
    }
  }

  /** None of the pixels the draw writes is needed by the draws after it. */
  ghost predicate Dead(d: Draw, after: seq<Draw>) {
    forall p :: p in Clip(d) ==> !Live(after, Loc(d.surface, p))
  }

  /** Leaving out a dead draw changes what is live nowhere. */
  lemma {:induction false} LiveWithoutDead(pre: seq<Draw>, d: Draw, post: seq<Draw>, l: Loc)
    requires Dead(d, post)
    ensures Live(pre + [d] + post, l) <==> Live(pre + post, l)
    decreases |pre|
  {
    if pre == [] {
      assert pre + [d] + post == [d] + post && pre + post == post;
      assert ([d] + post)[1..] == post;
      if Writes(d, l) {
        assert l == Loc(d.surface, l.at);
      }
    } else {
      var e, tail := pre[0], pre[1..];
      assert (pre + [d] + post)[0] == e && (pre + [d] + post)[1..] == tail + [d] + post;
      assert (pre + post)[0] == e && (pre + post)[1..] == tail + post;
      LiveWithoutDead(tail, d, post, l);
      forall p
        ensures Live(tail + [d] + post, Loc(e.surface, p)) <==> Live(tail + post, Loc(e.surface, p))
      {
        LiveWithoutDead(tail, d, post, Loc(e.surface, p));
      }
    }
  }

  /** Dead-draw elimination: skipping a dead draw leaves the final picture alone. */
  lemma RunWithoutDead(img: Picture, pre: seq<Draw>, d: Draw, post: seq<Draw>)
    requires Dead(d, post)
    ensures Same(Run(img, pre + [d] + post), Run(img, pre + post))
  {
    var mid := Run(img, pre);
    assert pre + [d] + post == pre + ([d] + post);
    RunAppend(img, pre, [d] + post);
    RunAppend(img, pre, post);
    assert ([d] + post)[1..] == post;
    assert Run(mid, [d] + post) == Run(Apply(mid, d), post);
    forall l | Live(post, l)
      ensures Apply(mid, d)(l) == mid(l)
    {
      assert l == Loc(l.surface, l.at);
    }
    RunAgree(Apply(mid, d), mid, post);
  }

  // ----- Reordering -----

  /** Neither draw writes a location that the other reads or writes. */
  ghost predicate Independent(e: Draw, d: Draw) {
    && e.surface != d.surface
    && (forall p, l :: p in Clip(e) && l in Reads(e, p) ==> !Writes(d, l))
    && (forall p, l :: p in Clip(d) && l in Reads(d, p) ==> !Writes(e, l))
  }

  lemma IndependentCommute(img: Picture, e: Draw, d: Draw)
    requires Independent(e, d)
    ensures Same(Apply(Apply(img, d), e), Apply(Apply(img, e), d))
  {
    var de, ed := Apply(Apply(img, d), e), Apply(Apply(img, e), d);
    forall l
      ensures de(l) == ed(l)
    {
      if Writes(e, l) {
        ShadeDependsOnReads(e, Apply(img, d), img, l.at);
      } else if Writes(d, l) {
        ShadeDependsOnReads(d, Apply(img, e), img, l.at);
      }
    }
  }

  /** A draw independent of all older pending draws may be executed before them. */
  lemma {:induction false} RunHoist(img: Picture, pre: seq<Draw>, d: Draw)
    requires forall i :: 0 <= i < |pre| ==> Independent(pre[i], d)
    ensures Same(Run(Apply(img, d), pre), Run(img, pre + [d]))
    decreases |pre|
  {
    if pre == [] {
      assert pre + [d] == [d];
    } else {
      var e, tail := pre[0], pre[1..];
      assert (pre + [d])[0] == e && (pre + [d])[1..] == tail + [d];
      IndependentCommute(img, e, d);
      RunCongruent(Apply(Apply(img, d), e), Apply(Apply(img, e), d), tail);
      RunHoist(Apply(img, e), tail, d);
    }
  }

  /**
   Executing a draw early makes no location of another surface live, as long as
   no older draw touches the surface of the executed one.
   */
  lemma {:induction false} LiveAfterHoist(pre: seq<Draw>, d: Draw, post: seq<Draw>, l: Loc)
    requires l.surface != d.surface
    requires forall i :: 0 <= i < |pre| ==> pre[i].surface != d.surface
    requires Live(pre + post, l)
    ensures Live(pre + [d] + post, l)
    decreases |pre|
  {
    if pre == [] {
      assert pre + [d] + post == [d] + post && pre + post == post;
      assert ([d] + post)[1..] == post;
    } else {
      var e, tail := pre[0], pre[1..];
      assert (pre + [d] + post)[0] == e && (pre + [d] + post)[1..] == tail + [d] + post;
      assert (pre + post)[0] == e && (pre + post)[1..] == tail + post;
      if !Writes(e, l) && Live(tail + post, l) {
        LiveAfterHoist(tail, d, post, l);
      } else {
        var p :| p in Clip(e) && Live(tail + post, Loc(e.surface, p)) && l in Reads(e, p);
        LiveAfterHoist(tail, d, post, Loc(e.surface, p));
      }
    }
  }
}
