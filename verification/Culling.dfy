/**
 The pending draws of a display and the rule by which a newer opaque draw
 shrinks and removes older ones.

 A pending draw keeps the part of its clip that is still exposed (`rgn`). A copy
 within a surface also keeps a shadow: the source area of that part, and the
 points of the source that are only being kept because of the copy (`onHold`).
 Lists of pending draws run from the oldest to the newest; in the surface's
 ring, which runs the other way, a shadow directly follows its owner.
 */
module Culling {
  import opened Basics
  import opened Raster

  datatype Shadow = Shadow(rgn: Region, onHold: Region)

  datatype Drawable = Drawable(draw: Draw, rgn: Region, shadow: Option<Shadow>)

  ghost function Draws(ps: seq<Drawable>): (ds: seq<Draw>)
    ensures |ds| == |ps|
  {
    seq(|ps|, i requires 0 <= i < |ps| => ps[i].draw)
  }

  /**
   The state of one pending draw, given the draws that follow it: its region
   still holds every live pixel of its clip, its shadow is the exact translate
   of its region, and what is on hold is needed by nothing but this copy.
   */
  ghost predicate ItemOk(x: Drawable, after: seq<Draw>) {
    && x.rgn != {}
    && x.rgn <= Clip(x.draw)
    && (forall p :: p in Clip(x.draw) && Live(after, Loc(x.draw.surface, p)) ==> p in x.rgn)
    && (x.shadow.Some? <==> x.draw.op.CopyBits?)
    && (x.shadow.Some? ==>
          && x.shadow.value.rgn == Translate(x.rgn, x.draw.op.dx, x.draw.op.dy)
          && x.shadow.value.onHold <= x.shadow.value.rgn
          && HeldForCopyOnly(x.shadow.value.onHold, x.draw, after))
  }

  /** Apart from being copied by `d`, the points are overwritten by `d` or dead after it. */
  ghost predicate HeldForCopyOnly(r: Region, d: Draw, after: seq<Draw>) {
    forall q :: q in r ==> q in Clip(d) || !Live(after, Loc(d.surface, q))
  }

  /** Every point of the region is dead on the surface before the given draws. */
  ghost predicate DeadRegion(surface: int, r: Region, ds: seq<Draw>) {
    forall q :: q in r ==> !Live(ds, Loc(surface, q))
  }

  /** Every pending draw is in order with respect to the later ones and then `tail`. */
  ghost predicate Culled(ps: seq<Drawable>, tail: seq<Draw>) {
    forall i :: 0 <= i < |ps| ==> ItemOk(ps[i], Draws(ps[i + 1..]) + tail)
  }

  // ----- What one walk step may conclude -----

  lemma ReadsStayHome(d: Draw, p: Point, l: Loc)
    requires WellFormed(d) && p in Clip(d) && l in Reads(d, p)
    ensures l.surface == d.surface || DependsOn(d, l.surface)
    ensures !d.op.CopyBits? && l.surface == d.surface ==> d.op.Blend? && l.at == p
    ensures l.surface != d.surface ==>
              exists k :: 0 <= k < |d.deps| && l.surface == d.deps[k].surface && l.at in d.deps[k].rect
  {
  }

  /** A dead point stays dead before a draw of the same surface that copies nothing. */
  lemma DeadBeforeOwnDraw(d: Draw, after: seq<Draw>, r: Region)
    requires WellFormed(d) && !d.op.CopyBits?
    requires DeadRegion(d.surface, r, after)
    ensures DeadRegion(d.surface, r, [d] + after)
  {
    assert ([d] + after)[1..] == after;
    forall q | q in r
      ensures !Live([d] + after, Loc(d.surface, q))
    {
      forall p | p in Clip(d) && Live(after, Loc(d.surface, p))
        ensures Loc(d.surface, q) !in Reads(d, p)
      {
        if Loc(d.surface, q) in Reads(d, p) {
          ReadsStayHome(d, p, Loc(d.surface, q));
        }
      }
    }
  }

  /** A dead point stays dead before a draw that does not read its surface. */
  lemma DeadBeforeForeignDraw(d: Draw, after: seq<Draw>, surface: int, r: Region)
    requires WellFormed(d) && d.surface != surface && !DependsOn(d, surface)
    requires DeadRegion(surface, r, after)
    ensures DeadRegion(surface, r, [d] + after)
  {
    assert ([d] + after)[1..] == after;
    forall q | q in r
      ensures !Live([d] + after, Loc(surface, q))
    {
      forall p | p in Clip(d)
        ensures Loc(surface, q) !in Reads(d, p)
      {
        if Loc(surface, q) in Reads(d, p) {
          ReadsStayHome(d, p, Loc(surface, q));
        }
      }
    }
  }

  /** Before a copy, the points outside its shadow that are held for nobody else are dead. */
  lemma DeadBeforeCopy(x: Drawable, after: seq<Draw>, r: Region)
    requires x.draw.op.CopyBits? && x.shadow.Some?
    requires forall p :: p in Clip(x.draw) && Live(after, Loc(x.draw.surface, p)) ==> p in x.rgn
    requires x.shadow.value.rgn == Translate(x.rgn, x.draw.op.dx, x.draw.op.dy)
    requires HeldForCopyOnly(r, x.draw, after)
    requires r !! x.shadow.value.rgn
    ensures DeadRegion(x.draw.surface, r, [x.draw] + after)
  {
    var d := x.draw;
    assert ([d] + after)[1..] == after;
    forall q | q in r
      ensures !Live([d] + after, Loc(d.surface, q))
    {
      forall p | p in Clip(d) && Live(after, Loc(d.surface, p))
        ensures Loc(d.surface, q) !in Reads(d, p)
      {
        assert Shift(p, d.op.dx, d.op.dy) in Translate(x.rgn, d.op.dx, d.op.dy);
      }
    }
  }

  // ----- The walk steps themselves -----

  /**
   Excludes `rgn` from a draw item (the IS_DRAW_ITEM branch of __exclude_region).
   Called when the two regions intersect and `rgn` is dead after the draw.
   */
  method ExcludeDraw(x: Drawable, rgn: Region, ghost after: seq<Draw>) returns (y: Drawable, left: Region)
    requires WellFormed(x.draw) && ItemOk(x, after)
    requires DeadRegion(x.draw.surface, rgn, after)
    requires rgn * x.rgn != {}
    ensures y.draw == x.draw
    ensures y.rgn == x.rgn - rgn
    ensures forall p :: p in Clip(x.draw) && Live(after, Loc(x.draw.surface, p)) ==> p in y.rgn
    ensures y.rgn != {} ==> ItemOk(y, after)
    ensures y.rgn == {} ==> Dead(x.draw, after)
    ensures y.shadow.Some? <==> x.shadow.Some?
    ensures y.shadow.Some? ==>
              && y.shadow.value.rgn == Translate(y.rgn, x.draw.op.dx, x.draw.op.dy)
              && HeldForCopyOnly(left, x.draw, after)
    ensures y.shadow.None? ==> DeadRegion(x.draw.surface, left, after)
  {
    var both := rgn * x.rgn;
    left := if x.draw.effect.Opaque? then rgn - both else rgn;
    if x.shadow.Some? {
      var shadow := x.shadow.value;
      ghost var dx, dy := x.draw.op.dx, x.draw.op.dy;
      assert exists p :: p in x.rgn;
      ExtentsGiveOffset(x.rgn, dx, dy);
      var moved := Translate(both, X1(shadow.rgn) - X1(x.rgn), Y1(shadow.rgn) - Y1(x.rgn));
      TranslateMinus(x.rgn, both, dx, dy);
      assert x.rgn - both == x.rgn - rgn;
      var released := moved * shadow.onHold;
      y := Drawable(x.draw, x.rgn - both,
                    Some(Shadow(shadow.rgn - moved, shadow.onHold - released)));
      left := left + released;
    } else {
      y := Drawable(x.draw, x.rgn - both, None);
      assert y.rgn == x.rgn - rgn;
    }
  }

  /**
   Puts the part of `rgn` that a shadow covers on hold and goes on with the rest
   (the TREE_ITEM_TYPE_SHADOW branch of __exclude_region).
   */
  method ExcludeShadow(x: Drawable, rgn: Region, ghost after: seq<Draw>) returns (y: Drawable, left: Region)
    requires ItemOk(x, after) && x.shadow.Some?
    requires HeldForCopyOnly(rgn, x.draw, after)
    ensures ItemOk(y, after)
    ensures y.draw == x.draw && y.rgn == x.rgn
    ensures left == rgn - x.shadow.value.rgn
    ensures DeadRegion(x.draw.surface, left, [x.draw] + after)
  {
    var shadow := x.shadow.value;
    var both := rgn * shadow.rgn;
    left := rgn - both;
    y := x.(shadow := Some(shadow.(onHold := shadow.onHold + both)));
    DeadBeforeCopy(y, after, left);
  }

  // ----- Lists of pending draws -----

  lemma DrawsAppend(ps: seq<Drawable>, qs: seq<Drawable>)
    ensures Draws(ps + qs) == Draws(ps) + Draws(qs)
  {
  }

  lemma DrawsFrom(ps: seq<Drawable>, i: nat, tail: seq<Draw>)
    requires i < |ps|
    ensures Draws(ps[i..]) + tail == [ps[i].draw] + (Draws(ps[i + 1..]) + tail)
  {
  }

  /** A newer draw at the end leaves every older item in order. */
  lemma CulledExtends(ps: seq<Drawable>, tail: seq<Draw>, more: seq<Draw>)
    requires Culled(ps, tail)
    ensures Culled(ps, tail + more)
  {
    forall i | 0 <= i < |ps|
      ensures ItemOk(ps[i], Draws(ps[i + 1..]) + (tail + more))
    {
      var after := Draws(ps[i + 1..]) + tail;
      assert Draws(ps[i + 1..]) + (tail + more) == after + more;
      forall l | Live(after + more, l)
        ensures Live(after, l)
      {
        LiveShrinks(after, more, l);
      }
    }
  }

  /** An item may be replaced by one of the same draw that is in order itself. */
  lemma CulledReplace(ps: seq<Drawable>, i: nat, y: Drawable, tail: seq<Draw>)
    requires i < |ps| && Culled(ps, tail)
    requires y.draw == ps[i].draw && ItemOk(y, Draws(ps[i + 1..]) + tail)
    ensures Culled(ps[i := y], tail)
    ensures Draws(ps[i := y]) == Draws(ps)
    ensures forall j :: 0 <= j <= |ps| ==> Draws(ps[i := y][j..]) == Draws(ps[j..])
  {
    var qs := ps[i := y];
    forall j | 0 <= j <= |ps|
      ensures Draws(qs[j..]) == Draws(ps[j..])
    {
    }
    forall j | 0 <= j < |qs|
      ensures ItemOk(qs[j], Draws(qs[j + 1..]) + tail)
    {
      assert Draws(qs[j + 1..]) == Draws(ps[j + 1..]);
    }
  }

  /** An item whose draw is dead may be removed. */
  lemma CulledRemove(ps: seq<Drawable>, i: nat, tail: seq<Draw>)
    requires i < |ps| && Culled(ps, tail)
    requires Dead(ps[i].draw, Draws(ps[i + 1..]) + tail)
    ensures Culled(ps[..i] + ps[i + 1..], tail)
    ensures Equivalent(Draws(ps[..i] + ps[i + 1..]) + tail, Draws(ps) + tail)
  {
    var qs := ps[..i] + ps[i + 1..];
    var d, post := ps[i].draw, Draws(ps[i + 1..]) + tail;
    forall j | 0 <= j < |qs|
      ensures ItemOk(qs[j], Draws(qs[j + 1..]) + tail)
    {
      if j < i {
        var pre := Draws(ps[j + 1..i]);
        assert Draws(ps[j + 1..]) + tail == pre + [d] + post;
        assert Draws(qs[j + 1..]) + tail == pre + post;
        forall l
          ensures Live(pre + [d] + post, l) <==> Live(pre + post, l)
        {
          LiveWithoutDead(pre, d, post, l);
        }
        assert ItemOk(ps[j], pre + [d] + post);
      } else {
        assert qs[j] == ps[j + 1] && qs[j + 1..] == ps[j + 2..];
      }
    }
    forall img
      ensures Same(Run(img, Draws(qs) + tail), Run(img, Draws(ps) + tail))
    {
      var pre := Draws(ps[..i]);
      assert Draws(ps) + tail == pre + [d] + post;
      assert Draws(qs) + tail == pre + post;
      RunWithoutDead(img, pre, d, post);
    }
  }
}
