/**
 Lazy rendering of a display: draws are queued, older ones are culled by newer
 opaque ones, and a surface is rendered only as far as a read of it needs,
 together with the other surfaces its draws read from.

 `eager` is the picture that results from executing every command on arrival.
 The methods below keep the promise that the canvas followed by the pending
 draws always amounts to `eager`.
 */
module Display {
  import opened Basics
  import opened Raster
  import opened Culling

  // ----- Order of the pending draws -----

  /**
   The pending draws in order of arrival, and the dependency order: whatever is
   still pending on a surface is older than every pending draw that reads it.
   */
  ghost predicate Ordered(ps: seq<Drawable>) {
    && (forall i :: 0 <= i < |ps| ==> WellFormed(ps[i].draw))
    && (forall i, j :: 0 <= i < j < |ps| ==> ps[i].draw.serial < ps[j].draw.serial)
    && (forall i, j :: 0 <= i < |ps| && 0 <= j < |ps| && DependsOn(ps[i].draw, ps[j].draw.surface) ==> j < i)
  }

  ghost predicate Below(ps: seq<Drawable>, limit: nat) {
    forall i :: 0 <= i < |ps| ==> ps[i].draw.serial < limit
  }

  ghost predicate NoneOn(ps: seq<Drawable>, surface: int) {
    forall i :: 0 <= i < |ps| ==> ps[i].draw.surface != surface
  }

  ghost predicate NoneReads(ps: seq<Drawable>, surface: int) {
    forall i :: 0 <= i < |ps| ==> !DependsOn(ps[i].draw, surface)
  }

  /** No pending draw writes into the area of the surface any more. */
  ghost predicate Settled(ps: seq<Drawable>, surface: int, area: Region) {
    forall i :: 0 <= i < |ps| && ps[i].draw.surface == surface ==> Clip(ps[i].draw) !! area
  }

  /** The `keep` newest draws of a list, and the ones before them. */
  ghost function Newest(ps: seq<Drawable>, keep: nat): seq<Drawable>
    requires keep <= |ps|
  {
    ps[|ps| - keep..]
  }

  ghost function Older(ps: seq<Drawable>, keep: nat): seq<Drawable>
    requires keep <= |ps|
  {
    ps[..|ps| - keep]
  }

  /**
   From canvas `c0` with pending `p0` to `c1` with `p1` some draws were executed,
   none of them among the `keep` newest, and nothing else changed.
   */
  ghost predicate Advances(c0: Picture, p0: seq<Drawable>, c1: Picture, p1: seq<Drawable>, keep: nat) {
    && keep <= |p1| <= |p0|
    && Newest(p1, keep) == Newest(p0, keep)
    && (forall x :: x in Older(p1, keep) ==> x in Older(p0, keep))
    && Same(Run(c1, Draws(Older(p1, keep))), Run(c0, Draws(Older(p0, keep))))
  }

  lemma AdvancesMeansSame(c0: Picture, p0: seq<Drawable>, c1: Picture, p1: seq<Drawable>, keep: nat)
    requires Advances(c0, p0, c1, p1, keep)
    ensures Same(Run(c1, Draws(p1)), Run(c0, Draws(p0)))
  {
    DrawsSplit(p0, keep);
    DrawsSplit(p1, keep);
    SameThen(c0, Draws(Older(p0, keep)), c1, Draws(Older(p1, keep)), Draws(Newest(p0, keep)));
  }

  lemma DrawsSplit(ps: seq<Drawable>, keep: nat)
    requires keep <= |ps|
    ensures Draws(ps) == Draws(Older(ps, keep)) + Draws(Newest(ps, keep))
  {
    DrawsAppend(Older(ps, keep), Newest(ps, keep));
    assert ps == Older(ps, keep) + Newest(ps, keep);
  }

  lemma SameThen(c0: Picture, a0: seq<Draw>, c1: Picture, a1: seq<Draw>, rest: seq<Draw>)
    requires Same(Run(c1, a1), Run(c0, a0))
    ensures Same(Run(c1, a1 + rest), Run(c0, a0 + rest))
  {
    RunAppend(c0, a0, rest);
    RunAppend(c1, a1, rest);
    RunCongruent(Run(c1, a1), Run(c0, a0), rest);
  }

  lemma AdvancesMeansSubset(c0: Picture, p0: seq<Drawable>, c1: Picture, p1: seq<Drawable>, keep: nat)
    requires Advances(c0, p0, c1, p1, keep)
    ensures forall x :: x in p1 ==> x in p0
  {
    assert p1 == Older(p1, keep) + Newest(p1, keep);
    assert p0 == Older(p0, keep) + Newest(p0, keep);
  }

  lemma OrderedRemove(ps: seq<Drawable>, i: nat)
    requires i < |ps| && Ordered(ps)
    ensures Ordered(ps[..i] + ps[i + 1..])
  {
    var qs := ps[..i] + ps[i + 1..];
    forall a, b | 0 <= a < |qs| && 0 <= b < |qs| && DependsOn(qs[a].draw, qs[b].draw.surface)
      ensures b < a
    {
      var a', b' := if a < i then a else a + 1, if b < i then b else b + 1;
      assert qs[a] == ps[a'] && qs[b] == ps[b'];
      assert b' < a';
    }
  }

  // ----- Executing the oldest draw of a surface -----

  /**
   The oldest draw of a surface may leave the list: the older draws of other
   surfaces stay in order, since none of them reads or writes that surface.
   */
  lemma CulledHoist(ps: seq<Drawable>, k: nat)
    requires k < |ps| && Culled(ps, [])
    requires NoneOn(ps[..k], ps[k].draw.surface)
    ensures Culled(ps[..k] + ps[k + 1..], [])
  {
    var qs := ps[..k] + ps[k + 1..];
    var d, post := ps[k].draw, Draws(ps[k + 1..]);
    forall j | 0 <= j < |qs|
      ensures ItemOk(qs[j], Draws(qs[j + 1..]) + [])
    {
      if j < k {
        var pre := Draws(ps[j + 1..k]);
        assert Draws(ps[j + 1..]) + [] == pre + [d] + post;
        assert Draws(qs[j + 1..]) + [] == pre + post;
        assert ps[j] == ps[..k][j];
        forall i | 0 <= i < |pre|
          ensures pre[i].surface != d.surface
        {
          assert pre[i] == ps[..k][j + 1 + i].draw;
        }
        forall l: Loc | l.surface == ps[j].draw.surface && Live(pre + post, l)
          ensures Live(pre + [d] + post, l)
        {
          LiveAfterHoist(pre, d, post, l);
        }
        assert ItemOk(ps[j], pre + [d] + post);
      } else {
        assert qs[j] == ps[j + 1] && qs[j + 1..] == ps[j + 2..];
        assert ItemOk(ps[j + 1], Draws(ps[j + 2..]) + []);
      }
    }
  }

  /** The draws older than the oldest draw of a surface do not read that surface. */
  lemma OlderDoNotRead(ps: seq<Drawable>, k: nat)
    requires k < |ps| && Ordered(ps)
    ensures NoneReads(ps[..k], ps[k].draw.surface)
  {
    forall i | 0 <= i < k
      ensures !DependsOn(ps[..k][i].draw, ps[k].draw.surface)
    {
      assert ps[..k][i] == ps[i];
    }
  }

  /** The surfaces that a draw reads have nothing pending that is newer than it. */
  lemma NewerNotRead(ps: seq<Drawable>, k: nat, dep: nat)
    requires k < |ps| && Ordered(ps) && dep < |ps[k].draw.deps|
    ensures NoneOn(ps[k + 1..], ps[k].draw.deps[dep].surface)
  {
    forall i | k < i < |ps|
      ensures ps[i].draw.surface != ps[k].draw.deps[dep].surface
    {
      assert DependsOn(ps[k].draw, ps[k].draw.deps[dep].surface);
    }
  }

  /** With its inputs settled, a draw is independent of the older draws of other surfaces. */
  lemma SettledMeansIndependent(older: seq<Drawable>, d: Draw)
    requires WellFormed(d) && forall i :: 0 <= i < |older| ==> WellFormed(older[i].draw)
    requires NoneOn(older, d.surface) && NoneReads(older, d.surface)
    requires forall k :: 0 <= k < |d.deps| ==> Settled(older, d.deps[k].surface, d.deps[k].rect)
    ensures forall i :: 0 <= i < |older| ==> Independent(older[i].draw, d)
  {
    forall i | 0 <= i < |older|
      ensures Independent(older[i].draw, d)
    {
      var e := older[i].draw;
      forall p, l | p in Clip(e) && l in Reads(e, p)
        ensures !Writes(d, l)
      {
        ReadsStayHome(e, p, l);
      }
      forall p, l | p in Clip(d) && l in Reads(d, p)
        ensures !Writes(e, l)
      {
        ReadsStayHome(d, p, l);
      }
    }
  }

  /** Executing a draw that has just left the list between `a` and `b`. */
  lemma AdvancesByOne(c0: Picture, p0: seq<Drawable>, k: nat, c1: Picture, p1: seq<Drawable>, keep: nat)
    requires k < |p0| && keep <= |p0| - k - 1 <= |p1| < |p0|
    requires Newest(p1, |p0| - k - 1) == p0[k + 1..]
    requires forall x :: x in Older(p1, |p0| - k - 1) ==> x in p0[..k]
    requires Same(Run(c1, Draws(Older(p1, |p0| - k - 1))), Run(c0, Draws(p0[..k]) + [p0[k].draw]))
    ensures Advances(c0, p0, c1, p1, keep)
  {
    var b := p0[k + 1..|p0| - keep];
    var a1 := Older(p1, |p0| - k - 1);
    assert p1 == a1 + p0[k + 1..];
    assert Older(p1, keep) == a1 + b;
    assert Older(p0, keep) == p0[..k] + [p0[k]] + b;
    assert Draws(Older(p0, keep)) == (Draws(p0[..k]) + [p0[k].draw]) + Draws(b);
    assert Draws(Older(p1, keep)) == Draws(a1) + Draws(b);
    RunAppend(c0, Draws(p0[..k]) + [p0[k].draw], Draws(b));
    RunAppend(c1, Draws(a1), Draws(b));
    RunCongruent(Run(c1, Draws(a1)), Run(c0, Draws(p0[..k]) + [p0[k].draw]), Draws(b));
  }

  lemma AdvancesTransitive(c0: Picture, p0: seq<Drawable>, c1: Picture, p1: seq<Drawable>,
                           c2: Picture, p2: seq<Drawable>, keep: nat)
    requires Advances(c0, p0, c1, p1, keep) && Advances(c1, p1, c2, p2, keep)
    ensures Advances(c0, p0, c2, p2, keep)
  {
  }

  lemma SettledInherited(p0: seq<Drawable>, p1: seq<Drawable>, surface: int, area: Region)
    requires Settled(p0, surface, area)
    requires forall x :: x in p1 ==> x in p0
    ensures Settled(p1, surface, area)
  {
    forall i | 0 <= i < |p1| && p1[i].draw.surface == surface
      ensures Clip(p1[i].draw) !! area
    {
      assert p1[i] in p0;
    }
  }

  lemma KeptAreNewer(ps: seq<Drawable>, k: nat, keep: nat, surface: int)
    requires k < |ps| && keep <= |ps| && ps[k].draw.surface == surface
    requires NoneOn(Newest(ps, keep), surface)
    ensures keep <= |ps| - k - 1
  {
  }

  ghost predicate HasDraw(ps: seq<Drawable>, surface: int, serial: nat) {
    exists x :: x in ps && x.draw.surface == surface && x.draw.serial == serial
  }

  ghost predicate OnlyNewer(ps: seq<Drawable>, surface: int, serial: nat) {
    forall x :: x in ps && x.draw.surface == surface ==> x.draw.serial > serial
  }

  lemma NotBefore(ps: seq<Drawable>, k: nat, j: nat)
    requires k < |ps| && j < |ps| && NoneOn(ps[..k], ps[j].draw.surface)
    ensures k <= j
  {
    var front := ps[..k];
    assert forall i :: 0 <= i < k ==> front[i] == ps[i];
  }

  /**
   Executing the oldest draw of a surface, at `k`, does not take a newer draw
   `last` of the surface away; and once `last` itself was executed, the
   surface has only newer draws left.
   */
  lemma StillWaiting(p0: seq<Drawable>, k: nat, older: seq<Drawable>, last: nat)
    requires k < |p0| && Ordered(p0)
    requires NoneOn(p0[..k], p0[k].draw.surface)
    requires forall x :: x in older ==> x in p0[..k]
    requires HasDraw(p0, p0[k].draw.surface, last)
    ensures p0[k].draw.serial != last ==> HasDraw(older + p0[k + 1..], p0[k].draw.surface, last)
    ensures p0[k].draw.serial == last ==> OnlyNewer(older + p0[k + 1..], p0[k].draw.surface, last)
  {
    var surface, rest := p0[k].draw.surface, p0[k + 1..];
    var q := older + rest;
    if p0[k].draw.serial != last {
      var x :| x in p0 && x.draw.surface == surface && x.draw.serial == last;
      var j :| 0 <= j < |p0| && p0[j] == x;
      NotBefore(p0, k, j);
      assert q[|older| + (j - k - 1)] == x;
    } else {
      forall i | 0 <= i < |older|
        ensures q[i].draw.surface != surface
      {
        assert q[i] in p0[..k];
      }
      forall i | |older| <= i < |q|
        ensures q[i].draw.serial > last
      {
        assert q[i] == p0[k + 1 + (i - |older|)];
      }
    }
  }

  /** The list without its `k`-th element, the oldest draw of its surface. */
  lemma TakeOut(p0: seq<Drawable>, k: nat, q: seq<Drawable>, limit: nat)
    requires k < |p0| && Ordered(p0) && Culled(p0, []) && Below(p0, limit)
    requires NoneOn(p0[..k], p0[k].draw.surface)
    requires q == p0[..k] + p0[k + 1..]
    ensures Ordered(q) && Culled(q, []) && Below(q, limit)
    ensures WellFormed(p0[k].draw)
    ensures Newest(q, |p0| - k - 1) == p0[k + 1..] && Older(q, |p0| - k - 1) == p0[..k]
    ensures NoneReads(p0[..k], p0[k].draw.surface)
    ensures forall dep :: 0 <= dep < |p0[k].draw.deps| ==> NoneOn(p0[k + 1..], p0[k].draw.deps[dep].surface)
  {
    OrderedRemove(p0, k);
    CulledHoist(p0, k);
    OlderDoNotRead(p0, k);
    forall dep | 0 <= dep < |p0[k].draw.deps|
      ensures NoneOn(p0[k + 1..], p0[k].draw.deps[dep].surface)
    {
      NewerNotRead(p0, k, dep);
    }
  }

  lemma AfterOldest(c0: Picture, p0: seq<Drawable>, k: nat, c1: Picture, p1: seq<Drawable>, keep: nat, last: nat)
    requires k < |p0| && Ordered(p0) && keep <= |p0| && |p0| - k - 1 <= |p1| < |p0|
    requires NoneOn(p0[..k], p0[k].draw.surface) && NoneOn(Newest(p0, keep), p0[k].draw.surface)
    requires HasDraw(p0, p0[k].draw.surface, last)
    requires Newest(p1, |p0| - k - 1) == p0[k + 1..]
    requires forall x :: x in Older(p1, |p0| - k - 1) ==> x in p0[..k]
    requires Same(Run(c1, Draws(Older(p1, |p0| - k - 1))), Run(c0, Draws(p0[..k]) + [p0[k].draw]))
    ensures Advances(c0, p0, c1, p1, keep)
    ensures p0[k].draw.serial != last ==> HasDraw(p1, p0[k].draw.surface, last)
    ensures p0[k].draw.serial == last ==> OnlyNewer(p1, p0[k].draw.surface, last)
  {
    KeptAreNewer(p0, k, keep, p0[k].draw.surface);
    AdvancesByOne(c0, p0, k, c1, p1, keep);
    StillWaiting(p0, k, Older(p1, |p0| - k - 1), last);
    assert p1 == Older(p1, |p0| - k - 1) + p0[k + 1..];
  }

  /** With its inputs settled, executing a draw at once equals executing it after the older ones. */
  lemma ExecuteNow(c0: Picture, p0: seq<Drawable>, c1: Picture, p1: seq<Drawable>, keep: nat, d: Draw)
    requires keep <= |p0| && Advances(c0, p0, c1, p1, keep)
    requires WellFormed(d) && Ordered(p1)
    requires NoneOn(Older(p0, keep), d.surface) && NoneReads(Older(p0, keep), d.surface)
    requires forall k :: 0 <= k < |d.deps| ==> Settled(p1, d.deps[k].surface, d.deps[k].rect)
    ensures Same(Run(Apply(c1, d), Draws(Older(p1, keep))), Run(c0, Draws(Older(p0, keep)) + [d]))
  {
    var a0, a1 := Older(p0, keep), Older(p1, keep);
    forall i | 0 <= i < |a1|
      ensures WellFormed(a1[i].draw) && a1[i].draw.surface != d.surface && !DependsOn(a1[i].draw, d.surface)
    {
      assert a1[i] == p1[i] && a1[i] in a0;
    }
    forall k | 0 <= k < |d.deps|
      ensures Settled(a1, d.deps[k].surface, d.deps[k].rect)
    {
      SettledInherited(p1, a1, d.deps[k].surface, d.deps[k].rect);
    }
    SettledMeansIndependent(a1, d);
    RunHoist(c1, Draws(a1), d);
    RunAppend(c0, Draws(a0), [d]);
    RunAppend(c1, Draws(a1), [d]);
    RunCongruent(Run(c1, Draws(a1)), Run(c0, Draws(a0)), [d]);
  }

  // ----- The newest draw that touches a point still exposes it -----

  lemma {:induction false} LiveIfUntouched(ds: seq<Draw>, l: Loc)
    requires forall k :: 0 <= k < |ds| ==> !Writes(ds[k], l)
    ensures Live(ds, l)
    decreases |ds|
  {
    if ds != [] {
      LiveIfUntouched(ds[1..], l);
    }
  }

  lemma {:induction false} NewestTouchExposed(ps: seq<Drawable>, i: nat, p: Point)
    requires Culled(ps, []) && i < |ps| && p in Clip(ps[i].draw)
    ensures exists j :: i <= j < |ps| && ps[j].draw.surface == ps[i].draw.surface && p in ps[j].rgn
    decreases |ps| - i
  {
    var surface := ps[i].draw.surface;
    if k :| i < k < |ps| && ps[k].draw.surface == surface && p in Clip(ps[k].draw) {
      NewestTouchExposed(ps, k, p);
    } else {
      var after := Draws(ps[i + 1..]) + [];
      forall k | 0 <= k < |after|
        ensures !Writes(after[k], Loc(surface, p))
      {
        assert after[k] == ps[i + 1 + k].draw;
      }
      LiveIfUntouched(after, Loc(surface, p));
      assert ItemOk(ps[i], after);
    }
  }

  /** Where no exposed region meets the area, no clip does. */
  lemma UnexposedMeansSettled(ps: seq<Drawable>, surface: int, area: Region)
    requires Culled(ps, [])
    requires forall i :: 0 <= i < |ps| && ps[i].draw.surface == surface ==> ps[i].rgn !! area
    ensures Settled(ps, surface, area)
  {
    forall i | 0 <= i < |ps| && ps[i].draw.surface == surface
      ensures Clip(ps[i].draw) !! area
    {
      forall p | p in Clip(ps[i].draw)
        ensures p !in area
      {
        NewestTouchExposed(ps, i, p);
      }
    }
  }

  /** Pending draws leave a settled area as the canvas shows it. */
  lemma {:induction false} SettledIsFinal(img: Picture, ps: seq<Drawable>, surface: int, area: Region, p: Point)
    requires Settled(ps, surface, area) && p in area
    ensures Run(img, Draws(ps))(Loc(surface, p)) == img(Loc(surface, p))
    decreases |ps|
  {
    if ps != [] {
      assert Draws(ps)[1..] == Draws(ps[1..]);
      SettledIsFinal(Apply(img, ps[0].draw), ps[1..], surface, area, p);
      assert !Writes(ps[0].draw, Loc(surface, p));
    }
  }

  // ----- Adding a draw -----

  /** What the walk of exclude_region over one surface keeps at every step. */
  ghost predicate Walking(ps: seq<Drawable>, tail: seq<Draw>, limit: nat, surface: int) {
    Ordered(ps) && Below(ps, limit) && Culled(ps, tail) && NoneReads(ps, surface)
  }

  lemma WalkReplace(ps: seq<Drawable>, i: nat, y: Drawable, tail: seq<Draw>, limit: nat, surface: int)
    requires i < |ps| && Walking(ps, tail, limit, surface)
    requires y.draw == ps[i].draw && ItemOk(y, Draws(ps[i + 1..]) + tail)
    ensures Walking(ps[i := y], tail, limit, surface)
    ensures Draws(ps[i := y]) == Draws(ps) && Draws(ps[i := y][i..]) == Draws(ps[i..])
    ensures ps[i := y][i + 1..] == ps[i + 1..]
  {
    CulledReplace(ps, i, y, tail);
    var qs := ps[i := y];
    assert forall j :: 0 <= j < |qs| ==> qs[j].draw == ps[j].draw;
  }

  lemma WalkRemove(ps: seq<Drawable>, i: nat, tail: seq<Draw>, limit: nat, surface: int)
    requires i < |ps| && Walking(ps, tail, limit, surface)
    requires Dead(ps[i].draw, Draws(ps[i + 1..]) + tail)
    ensures Walking(ps[..i] + ps[i + 1..], tail, limit, surface)
    ensures Equivalent(Draws(ps[..i] + ps[i + 1..]) + tail, Draws(ps) + tail)
    ensures (ps[..i] + ps[i + 1..])[i..] == ps[i + 1..]
  {
    OrderedRemove(ps, i);
    CulledRemove(ps, i, tail);
  }

  /** An opaque draw that copies nothing leaves nothing alive underneath. */
  lemma OpaqueHides(d: Draw)
    requires WellFormed(d) && d.effect.Opaque? && !d.op.CopyBits?
    ensures DeadRegion(d.surface, Clip(d), [d])
  {
    forall q | q in Clip(d)
      ensures !Live([d], Loc(d.surface, q))
    {
      forall p | p in Clip(d)
        ensures Loc(d.surface, q) !in Reads(d, p)
      {
        if Loc(d.surface, q) in Reads(d, p) {
          ReadsStayHome(d, p, Loc(d.surface, q));
        }
      }
    }
  }

  /** When a copy is wholly hidden, all that its shadow held back is dead before it. */
  lemma LeftDeadBeforeRemoved(x: Drawable, after: seq<Draw>, left: Region)
    requires x.draw.op.CopyBits? && x.shadow.Some? && x.rgn == {} && Dead(x.draw, after)
    requires x.shadow.value.rgn == Translate(x.rgn, x.draw.op.dx, x.draw.op.dy)
    requires HeldForCopyOnly(left, x.draw, after)
    ensures DeadRegion(x.draw.surface, left, after)
  {
  }

  lemma CulledAppend(ps: seq<Drawable>, x: Drawable)
    requires Culled(ps, [x.draw]) && ItemOk(x, [])
    ensures Culled(ps + [x], [])
  {
    var qs := ps + [x];
    forall i | 0 <= i < |qs|
      ensures ItemOk(qs[i], Draws(qs[i + 1..]) + [])
    {
      if i < |ps| {
        assert Draws(qs[i + 1..]) + [] == Draws(ps[i + 1..]) + [x.draw];
        assert ItemOk(ps[i], Draws(ps[i + 1..]) + [x.draw]);
      } else {
        assert Draws(qs[i + 1..]) + [] == [];
      }
    }
  }

  lemma OrderedAppend(ps: seq<Drawable>, x: Drawable)
    requires Ordered(ps) && Below(ps, x.draw.serial) && WellFormed(x.draw) && NoneReads(ps, x.draw.surface)
    ensures Ordered(ps + [x]) && Below(ps + [x], x.draw.serial + 1) && NoneReads(ps + [x], x.draw.surface)
  {
    var qs := ps + [x];
    forall i, j | 0 <= i < |qs| && 0 <= j < |qs| && DependsOn(qs[i].draw, qs[j].draw.surface)
      ensures j < i
    {
      if i < |ps| && j < |ps| {
        assert qs[i] == ps[i] && qs[j] == ps[j];
      }
    }
  }

  lemma WalkAppend(ps: seq<Drawable>, x: Drawable, surface: int)
    requires Walking(ps, [x.draw], x.draw.serial, surface)
    requires WellFormed(x.draw) && x.draw.surface == surface && ItemOk(x, [])
    ensures Walking(ps + [x], [], x.draw.serial + 1, surface)
    ensures Draws(ps + [x]) == Draws(ps) + [x.draw]
  {
    CulledAppend(ps, x);
    OrderedAppend(ps, x);
    DrawsAppend(ps, [x]);
  }

  /** A copy of every point onto itself changes nothing, so it need not be queued. */
  lemma NullDrawIsIdentity(ds: seq<Draw>, d: Draw)
    requires d.op == CopyBits(0, 0) || Clip(d) == {}
    ensures Equivalent(ds, ds + [d])
  {
    forall img
      ensures Same(Run(img, ds), Run(img, ds + [d]))
    {
      RunAppend(img, ds, [d]);
      var mid := Run(img, ds);
      assert Run(mid, [d]) == Apply(mid, d);
      forall l
        ensures Apply(mid, d)(l) == mid(l)
      {
        assert l == Loc(l.surface, Shift(l.at, 0, 0));
      }
    }
  }

  // ----- Executing ahead of time -----

  /** Bringing the whole box of a draw up to date executes that draw and adds no other. */
  lemma DrawnAway(c0: Picture, p0: seq<Drawable>, i: nat, c1: Picture, p1: seq<Drawable>)
    requires i < |p0| && Culled(p0, []) && Advances(c0, p0, c1, p1, 0)
    requires p1 == p0 || |p1| < |p0|
    requires Settled(p1, p0[i].draw.surface, p0[i].draw.bbox)
    ensures |p1| < |p0|
  {
    assert ItemOk(p0[i], Draws(p0[i + 1..]) + []);
    var p :| p in p0[i].rgn;
    assert p in Clip(p0[i].draw) && p in p0[i].draw.bbox;
  }

  /** Queueing a draw, with or without culling, amounts to applying it. */
  lemma QueuedIsApplied(img: Picture, queued: seq<Draw>, before: seq<Draw>, d: Draw, full: Picture)
    requires Equivalent(queued, before + [d])
    requires Same(Run(img, before), full)
    ensures Same(Run(img, queued), Apply(full, d))
  {
    RunAppend(img, before, [d]);
    RunCongruent(Run(img, before), full, [d]);
    assert Run(full, [d]) == Apply(full, d);
    assert Same(Run(img, queued), Run(img, before + [d]));
  }

  lemma OldestReadsNothingPending(ps: seq<Drawable>)
    requires ps != [] && Ordered(ps)
    ensures forall dep :: 0 <= dep < |ps[0].draw.deps| ==> NoneOn(Newest(ps, |ps|), ps[0].draw.deps[dep].surface)
  {
    forall dep | 0 <= dep < |ps[0].draw.deps|
      ensures NoneOn(Newest(ps, |ps|), ps[0].draw.deps[dep].surface)
    {
      assert DependsOn(ps[0].draw, ps[0].draw.deps[dep].surface);
    }
  }

  lemma OldestExecuted(c0: Picture, ps: seq<Drawable>, c1: Picture)
    requires ps != []
    requires Same(Run(c1, Draws(Older(ps, |ps|))), Run(c0, Draws(Older(ps, |ps|)) + [ps[0].draw]))
    ensures Same(Run(c1, Draws(ps[1..])), Run(c0, Draws(ps)))
  {
    assert Draws(Older(ps, |ps|)) == [];
    assert Draws(ps)[1..] == Draws(ps[1..]);
    assert [] + [ps[0].draw] == [ps[0].draw];
    assert Run(c0, [ps[0].draw]) == Apply(c0, ps[0].draw);
    RunCongruent(c1, Apply(c0, ps[0].draw), Draws(ps[1..]));
  }

  // ----- The display -----

  class DisplayChannel {
    var canvas: Picture
    /** The current list, oldest draw first (the ring of the server runs the other way). */
    var pending: seq<Drawable>
    var nextSerial: nat
    ghost var eager: Picture

    ghost predicate Valid()
      reads this
    {
      && Ordered(pending)
      && Culled(pending, [])
      && Below(pending, nextSerial)
    }

    /** Canvas and pending draws together amount to executing every command on arrival. */
    ghost predicate Faithful()
      reads this
    {
      Same(Run(canvas, Draws(pending)), eager)
    }

    constructor (initial: Picture)
      ensures Valid() && Faithful()
      ensures canvas == eager == initial && pending == []
    {
      canvas, pending, nextSerial, eager := initial, [], 0, initial;
    }

    /** current_find_intersects_rect: the newest draw of the surface exposed in the area. */
    method FindIntersects(surface: int, area: Region) returns (found: Option<nat>)
      ensures found.Some? ==>
                && found.value < |pending|
                && pending[found.value].draw.surface == surface
                && pending[found.value].rgn * area != {}
                && forall i :: found.value < i < |pending| && pending[i].draw.surface == surface ==>
                                 pending[i].rgn !! area
      ensures found.None? ==>
                forall i :: 0 <= i < |pending| && pending[i].draw.surface == surface ==> pending[i].rgn !! area
    {
      var i := |pending|;
      while i > 0
        invariant 0 <= i <= |pending|
        invariant forall j :: i <= j < |pending| && pending[j].draw.surface == surface ==> pending[j].rgn !! area
      {
        i := i - 1;
        if pending[i].draw.surface == surface && pending[i].rgn * area != {} {
          return Some(i);
        }
        assert forall p :: p in pending[i].rgn && p in area ==> p in pending[i].rgn * area;
      }
      return None;
    }

    /** The tail of the surface's current list: its oldest pending draw. */
    method FindOldest(surface: int) returns (k: nat)
      requires exists i :: 0 <= i < |pending| && pending[i].draw.surface == surface
      ensures k < |pending| && pending[k].draw.surface == surface
      ensures NoneOn(pending[..k], surface)
    {
      k := 0;
      while pending[k].draw.surface != surface
        invariant k < |pending|
        invariant NoneOn(pending[..k], surface)
        decreases |pending| - k
      {
        k := k + 1;
      }
    }

    /**
     display_channel_surface_draw: brings the area of the surface up to date. The
     `keep` newest pending draws, none of which is on the surface, stay pending.
     */
    method SurfaceDraw(surface: int, area: Region, ghost keep: nat)
      requires Valid() && keep <= |pending|
      requires NoneOn(Newest(pending, keep), surface)
      modifies this`canvas, this`pending
      ensures Valid()
      ensures Advances(old(canvas), old(pending), canvas, pending, keep)
      ensures Settled(pending, surface, area)
      ensures pending == old(pending) || |pending| < |old(pending)|
      decreases |pending|, 2
    {
      ghost var p0 := pending;
      var last := FindIntersects(surface, area);
      if last.Some? {
        DrawUntil(surface, pending[last.value].draw.serial, keep);
        AdvancesMeansSubset(old(canvas), p0, canvas, pending, keep);
        forall i | 0 <= i < |pending| && pending[i].draw.surface == surface
          ensures pending[i].rgn !! area
        {
          assert pending[i] in p0;
          var j :| 0 <= j < |p0| && p0[j] == pending[i];
          assert last.value < j;
        }
      }
      UnexposedMeansSettled(pending, surface, area);
    }

    /** draw_until: executes the draws of the surface, oldest first, up to and including `last`. */
    method DrawUntil(surface: int, last: nat, ghost keep: nat)
      requires Valid() && keep <= |pending|
      requires NoneOn(Newest(pending, keep), surface)
      requires HasDraw(pending, surface, last)
      modifies this`canvas, this`pending
      ensures Valid()
      ensures Advances(old(canvas), old(pending), canvas, pending, keep)
      ensures OnlyNewer(pending, surface, last)
      ensures |pending| < |old(pending)|
      decreases |pending|, 1
    {
      while true
        invariant Valid() && |pending| <= |old(pending)|
        invariant Advances(old(canvas), old(pending), canvas, pending, keep)
        invariant HasDraw(pending, surface, last)
        decreases |pending|
      {
        ghost var c1, p1 := canvas, pending;
        var drawn := DrawOldest(surface, last, keep);
        AdvancesTransitive(old(canvas), old(pending), c1, p1, canvas, pending, keep);
        if drawn == last { break; }
      }
    }

    /** One round of draw_until. */
    method DrawOldest(surface: int, ghost last: nat, ghost keep: nat) returns (drawn: nat)
      requires Valid() && keep <= |pending|
      requires NoneOn(Newest(pending, keep), surface)
      requires HasDraw(pending, surface, last)
      modifies this`canvas, this`pending
      ensures Valid() && |pending| < |old(pending)|
      ensures Advances(old(canvas), old(pending), canvas, pending, keep)
      ensures drawn != last ==> HasDraw(pending, surface, last)
      ensures drawn == last ==> OnlyNewer(pending, surface, last)
      decreases |pending|, 0
    {
      ghost var c0, p0 := canvas, pending;
      var now, k := TakeOldest(surface);
      DrawableDraw(now, |p0| - k - 1);
      AfterOldest(c0, p0, k, canvas, pending, keep, last);
      drawn := now.serial;
    }

    /** Removes the oldest draw of the surface from the list (current_remove_drawable). */
    method TakeOldest(surface: int) returns (now: Draw, ghost k: nat)
      requires Valid()
      requires exists x :: x in pending && x.draw.surface == surface
      modifies this`pending
      ensures Valid()
      ensures k < |old(pending)| && now == old(pending)[k].draw
      ensures now.surface == surface && WellFormed(now)
      ensures NoneOn(old(pending)[..k], surface) && NoneReads(old(pending)[..k], surface)
      ensures |pending| == |old(pending)| - 1
      ensures Newest(pending, |old(pending)| - k - 1) == old(pending)[k + 1..]
      ensures Older(pending, |old(pending)| - k - 1) == old(pending)[..k]
      ensures forall dep :: 0 <= dep < |now.deps| ==>
                              NoneOn(Newest(pending, |old(pending)| - k - 1), now.deps[dep].surface)
    {
      ghost var p0 := pending;
      var at := FindOldest(surface);
      now, k := pending[at].draw, at;
      pending := pending[..at] + pending[at + 1..];
      TakeOut(p0, at, pending, nextSerial);
    }

    /** drawable_draw: brings the inputs of the draw up to date, then executes it. */
    method DrawableDraw(d: Draw, ghost keep: nat)
      requires Valid() && WellFormed(d) && keep <= |pending|
      requires forall k :: 0 <= k < |d.deps| ==> NoneOn(Newest(pending, keep), d.deps[k].surface)
      requires NoneOn(Older(pending, keep), d.surface) && NoneReads(Older(pending, keep), d.surface)
      modifies this`canvas, this`pending
      ensures Valid()
      ensures keep <= |pending| <= |old(pending)| && Newest(pending, keep) == Newest(old(pending), keep)
      ensures forall x :: x in Older(pending, keep) ==> x in Older(old(pending), keep)
      ensures Same(Run(canvas, Draws(Older(pending, keep))), Run(old(canvas), Draws(Older(old(pending), keep)) + [d]))
      decreases |pending|, 3
    {
      for k := 0 to |d.deps|
        invariant Valid()
        invariant Advances(old(canvas), old(pending), canvas, pending, keep)
        invariant forall m :: 0 <= m < k ==> Settled(pending, d.deps[m].surface, d.deps[m].rect)
      {
        ghost var c1, p1 := canvas, pending;
        SurfaceDraw(d.deps[k].surface, d.deps[k].rect, keep);
        AdvancesMeansSubset(c1, p1, canvas, pending, keep);
        AdvancesTransitive(old(canvas), old(pending), c1, p1, canvas, pending, keep);
        forall m | 0 <= m < k
          ensures Settled(pending, d.deps[m].surface, d.deps[m].rect)
        {
          SettledInherited(p1, pending, d.deps[m].surface, d.deps[m].rect);
        }
      }
      ExecuteNow(old(canvas), old(pending), canvas, pending, keep, d);
      canvas := Apply(canvas, d);
    }

    /** The part of exclude_region that deals with one draw of the surface and its shadow. */
    method ExcludeItem(i: nat, rgn: Region, ghost tail: seq<Draw>, ghost limit: nat) returns (left: Region)
      requires i < |pending| && Walking(pending, tail, limit, pending[i].draw.surface)
      requires DeadRegion(pending[i].draw.surface, rgn, Draws(pending[i + 1..]) + tail)
      modifies this`pending
      ensures Walking(pending, tail, limit, old(pending[i].draw.surface))
      ensures i <= |pending| <= |old(pending)|
      ensures DeadRegion(old(pending[i].draw.surface), left, Draws(pending[i..]) + tail)
      ensures Equivalent(Draws(pending) + tail, Draws(old(pending)) + tail)
    {
      ghost var p0 := pending;
      var x := pending[i];
      ghost var surface, after := x.draw.surface, Draws(pending[i + 1..]) + tail;
      assert ItemOk(x, after);
      DrawsFrom(p0, i, tail);
      left := rgn;
      if rgn * x.rgn != {} {
        x, left := ExcludeDraw(x, rgn, after);
        if x.rgn == {} {
          if x.shadow.Some? {
            LeftDeadBeforeRemoved(x, after, left);
          }
          WalkRemove(p0, i, tail, limit, surface);
          pending := pending[..i] + pending[i + 1..];
          return;
        }
        WalkReplace(p0, i, x, tail, limit, surface);
        pending := pending[i := x];
      }
      if x.shadow.None? {
        DeadBeforeOwnDraw(x.draw, after, left);
      } else {
        ghost var p1 := pending;
        x, left := ExcludeShadow(x, left, after);
        WalkReplace(p1, i, x, tail, limit, surface);
        pending := pending[i := x];
      }
    }

    /**
     exclude_region: walks the draws of the surface from the newest of the first
     `from` to the oldest, taking away what the region hides.
     */
    method ExcludeRegion(surface: int, from: nat, exclude: Region, ghost tail: seq<Draw>, ghost limit: nat)
      requires from <= |pending| && Walking(pending, tail, limit, surface)
      requires DeadRegion(surface, exclude, Draws(pending[from..]) + tail)
      modifies this`pending
      ensures Walking(pending, tail, limit, surface)
      ensures Equivalent(Draws(pending) + tail, Draws(old(pending)) + tail)
    {
      var i, rgn := from, exclude;
      while i > 0
        invariant 0 <= i <= |pending| && Walking(pending, tail, limit, surface)
        invariant DeadRegion(surface, rgn, Draws(pending[i..]) + tail)
        invariant Equivalent(Draws(pending) + tail, Draws(old(pending)) + tail)
        decreases i
      {
        i := i - 1;
        DrawsFrom(pending, i, tail);
        if pending[i].draw.surface == surface {
          ghost var p1 := pending;
          rgn := ExcludeItem(i, rgn, tail, limit);
          EquivalentTransitive(Draws(pending) + tail, Draws(p1) + tail, Draws(old(pending)) + tail);
          if rgn == {} { return; }
        } else {
          DeadBeforeForeignDraw(pending[i].draw, Draws(pending[i + 1..]) + tail, surface, rgn);
        }
      }
    }

    /** current_add, for a surface whose ring has no containers. */
    method CurrentAdd(d: Draw)
      requires Walking(pending, [], d.serial, d.surface)
      requires WellFormed(d) && !d.op.CopyBits? && Clip(d) != {}
      modifies this`pending
      ensures Walking(pending, [], d.serial + 1, d.surface)
      ensures Equivalent(Draws(pending), Draws(old(pending)) + [d])
    {
      CulledExtends(pending, [], [d]);
      assert [] + [d] == [d];
      if d.effect.Opaque? {
        OpaqueHides(d);
        assert Draws(pending[|pending|..]) + [d] == [d];
        ExcludeRegion(d.surface, |pending|, Clip(d), [d], d.serial);
      }
      var x := Drawable(d, Clip(d), None);
      WalkAppend(pending, x, d.surface);
      pending := pending + [x];
    }

    /** current_add_with_shadow: a copy within the surface; its walk starts at its own shadow. */
    method CurrentAddWithShadow(d: Draw)
      requires Walking(pending, [], d.serial, d.surface)
      requires WellFormed(d) && d.op.CopyBits? && Clip(d) != {}
      modifies this`pending
      ensures Walking(pending, [], d.serial + 1, d.surface)
      ensures Equivalent(Draws(pending), Draws(old(pending)) + [d])
    {
      if d.op.dx == 0 && d.op.dy == 0 {
        NullDrawIsIdentity(Draws(pending), d);
        return;
      }
      CulledExtends(pending, [], [d]);
      assert [] + [d] == [d];
      var x := Drawable(d, Clip(d), Some(Shadow(Translate(Clip(d), d.op.dx, d.op.dy), {})));
      WalkAppend(pending, x, d.surface);
      pending := pending + [x];
      if d.effect.Opaque? {
        ghost var p1 := pending;
        HideUnderCopy();
        EquivalentTransitive(Draws(pending), Draws(p1), Draws(old(pending)) + [d]);
      }
    }

    /** The walk of a copy that was just added as the newest draw. */
    method HideUnderCopy()
      requires |pending| > 0
      requires var d := pending[|pending| - 1].draw;
               && d.op.CopyBits?
               && pending[|pending| - 1].rgn == Clip(d)
               && Walking(pending, [], d.serial + 1, d.surface)
      modifies this`pending
      ensures var d := old(pending)[|old(pending)| - 1].draw; Walking(pending, [], d.serial + 1, d.surface)
      ensures Equivalent(Draws(pending), Draws(old(pending)))
    {
      var n := |pending| - 1;
      var x := pending[n];
      ghost var p0, limit := pending, x.draw.serial + 1;
      assert Draws(p0[n + 1..]) + [] == [];
      assert ItemOk(p0[n], []);
      var y, left := ExcludeShadow(x, x.rgn, []);
      WalkReplace(p0, n, y, [], limit, x.draw.surface);
      pending := pending[n := y];
      assert Draws(pending[n..]) + [] == [x.draw] + [];
      ExcludeRegion(x.draw.surface, n, left, [], limit);
      assert Draws(pending) + [] == Draws(pending) && Draws(p0) + [] == Draws(p0);
    }

    /** Executes whatever reads the surface, so that the surface may change (draw_depend_on_me). */
    method DrawDependOnMe(surface: int)
      requires Valid()
      modifies this`canvas, this`pending
      ensures Valid() && NoneReads(pending, surface)
      ensures Same(Run(canvas, Draws(pending)), old(Run(canvas, Draws(pending))))
    {
      var i := 0;
      while i < |pending|
        invariant Valid() && i <= |pending| && NoneReads(pending[..i], surface)
        invariant Same(Run(canvas, Draws(pending)), old(Run(canvas, Draws(pending))))
        decreases |pending|, |pending| - i
      {
        if DependsOn(pending[i].draw, surface) {
          ghost var c1, p1 := canvas, pending;
          SurfaceDraw(pending[i].draw.surface, pending[i].draw.bbox, 0);
          AdvancesMeansSame(c1, p1, canvas, pending, 0);
          DrawnAway(c1, p1, i, canvas, pending);
          i := 0;
        } else {
          i := i + 1;
        }
      }
      assert pending[..i] == pending;
    }

    /** display_channel_process_draw: the guest issues its next command. */
    method ProcessDraw(d: Draw)
      requires Valid() && Faithful()
      requires WellFormed(d) && d.serial == nextSerial
      modifies this
      ensures Valid() && Faithful()
      ensures nextSerial == old(nextSerial) + 1
      ensures eager == Apply(old(eager), d)
    {
      if Clip(d) == {} {
        NullDrawIsIdentity(Draws(pending), d);
        QueuedIsApplied(canvas, Draws(pending), Draws(pending), d, eager);
      } else {
        DrawDependOnMe(d.surface);
        ghost var p1 := pending;
        if d.op.CopyBits? {
          CurrentAddWithShadow(d);
        } else {
          CurrentAdd(d);
        }
        QueuedIsApplied(canvas, Draws(pending), Draws(p1), d, eager);
      }
      nextSerial := nextSerial + 1;
      eager := Apply(eager, d);
    }

    /** display_channel_update: after it, the area of the canvas is what every command says it is. */
    method Update(surface: int, area: Region)
      requires Valid() && Faithful()
      modifies this`canvas, this`pending
      ensures Valid() && Faithful()
      ensures forall p :: p in area ==> canvas(Loc(surface, p)) == eager(Loc(surface, p))
    {
      SurfaceDraw(surface, area, 0);
      AdvancesMeansSame(old(canvas), old(pending), canvas, pending, 0);
      forall p | p in area
        ensures canvas(Loc(surface, p)) == eager(Loc(surface, p))
      {
        SettledIsFinal(canvas, pending, surface, area, p);
      }
    }

    /** free_one_drawable: executes the oldest draw of all, to get its memory back. */
    method FreeOneDrawable() returns (freed: bool)
      requires Valid() && Faithful()
      modifies this`canvas, this`pending
      ensures Valid() && Faithful()
      ensures freed <==> old(pending) != []
      ensures pending == if freed then old(pending)[1..] else []
    {
      if pending == [] {
        return false;
      }
      ghost var p0, c0 := pending, canvas;
      var d := pending[0].draw;
      assert p0[..0] == [];
      TakeOut(p0, 0, p0[1..], nextSerial);
      OldestReadsNothingPending(p0);
      DrawableDraw(d, |pending|);
      assert pending == p0;
      pending := pending[1..];
      OldestExecuted(c0, p0, canvas);
      return true;
    }

    /** display_channel_current_flush: afterwards nothing is pending on the surface. */
    method CurrentFlush(surface: int)
      requires Valid() && Faithful()
      modifies this`canvas, this`pending
      ensures Valid() && Faithful()
      ensures NoneOn(pending, surface)
      ensures forall p :: canvas(Loc(surface, p)) == eager(Loc(surface, p))
    {
      while exists i :: 0 <= i < |pending| && pending[i].draw.surface == surface
        invariant Valid() && Faithful()
        decreases |pending|
      {
        var freed := FreeOneDrawable();
      }
      forall p
        ensures canvas(Loc(surface, p)) == eager(Loc(surface, p))
      {
        SettledIsFinal(canvas, pending, surface, {p}, p);
      }
    }
  }
}
