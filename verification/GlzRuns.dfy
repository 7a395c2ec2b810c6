/**
 Runs of the shared dictionary: any interleaving of the encoders' pre- and
 post-encodes and of removed images. While an encoder is at work, whatever it looks
 at later agrees with what it saw first.
 */
module GlzRuns {
  import opened Basics
  import opened GlzWindow
  import D = GlzDictionary
  import L = GlzListOps
  import opened S = GlzSharedDictionary

  /** The images of a type that were sent at most `headDist` images back, the newest included. */
  ghost function SentNear(history: L.History, kind: ImageType, id: nat, headDist: nat): Pictures {
    map j | j in history && history[j].kind == kind && j <= id && id - j <= headDist :: history[j].pic
  }

  // ----- Runs -----

  ghost predicate IsRun(worlds: seq<World>) {
    && worlds != [] && WorldOk(worlds[0])
    && forall i, j :: 0 <= i < |worlds| && 0 <= j < |worlds| && j == i + 1 ==> Step(worlds[i], worlds[j])
  }

  /** Encoder `e` is at work all the time, with the same head. */
  ghost predicate AtWork(worlds: seq<World>, e: nat, head: nat) {
    forall i :: 0 <= i < |worlds| ==> e < |worlds[i].w.encodersHeads| && worlds[i].w.encodersHeads[e] == Some(head)
  }

  /** Over any run, what was sent under an id stays so. */
  lemma {:induction false} RunRemembers(worlds: seq<World>, i: nat, j: nat)
    requires IsRun(worlds) && i <= j < |worlds|
    ensures WorldOk(worlds[j]) && Remembers(worlds[j], worlds[i])
    decreases j
  {
    hide DictionaryOk, Step;
    if i < j {
      RunRemembers(worlds, i, j - 1);
      StepRemembers(worlds[j - 1], worlds[j]);
    } else if i > 0 {
      RunRemembers(worlds, i - 1, i - 1);
      StepRemembers(worlds[i - 1], worlds[i]);
    }
  }

  lemma NextStepped(worlds: seq<World>, e: nat, head: nat, j: nat)
    requires IsRun(worlds) && AtWork(worlds, e, head) && 0 < j < |worlds|
    ensures Stepped(worlds[j - 1], worlds[j])
  {
    hide DictionaryOk, Step, Stepped;
    RunRemembers(worlds, j - 1, j - 1);
    assert worlds[j - 1].w.encodersHeads[e].Some?;
    StepWhileBusy(worlds[j - 1], worlds[j]);
  }

  /** While an encoder is at work, nothing of what is in use changes. */
  lemma {:induction false} RunStepped(worlds: seq<World>, e: nat, head: nat, i: nat, j: nat)
    requires IsRun(worlds) && AtWork(worlds, e, head) && i <= j < |worlds|
    ensures Stepped(worlds[i], worlds[j])
    decreases j
  {
    hide DictionaryOk, Step, Stepped;
    if i < j {
      RunStepped(worlds, e, head, i, j - 1);
      NextStepped(worlds, e, head, j);
      SteppedTransitive(worlds[i], worlds[j - 1], worlds[j]);
    } else {
      RunRemembers(worlds, i, i);
      SteppedReflexive(worlds[i]);
    }
  }

  // ----- What an encoder sees -----

  function ViewOf(d: World, head: nat, cur: nat): View {
    View(d.w.segs, d.w.images, head, cur)
  }

  /** The encoder's head is the first segment of image `h` of the window, and its image comes `dist` images later. */
  ghost predicate Encodes(d: World, h: nat, dist: nat, head: nat, cur: nat, mine: seq<nat>) {
    var k := h + dist;
    && WorldOk(d) && k < |d.s.imgs| && dist < UINT32
    && d.s.starts[h] < |d.s.used| && d.s.starts[k] < d.s.starts[k + 1] <= |d.s.used|
    && head == d.s.used[d.s.starts[h]] && cur == d.s.imgs[k]
    && mine == d.s.used[d.s.starts[k]..d.s.starts[k + 1]]
  }

  /** Only the pictures up to `headDist` images back matter. */
  lemma ReadyNarrow(v: View, mine: seq<nat>, pics: Pictures, near: Pictures, headDist: nat)
    requires Ready(v, mine, pics, headDist)
    requires var id := v.images[v.cur].id;
             forall j :: j in pics && j <= id && id - j <= headDist ==> j in near && near[j] == pics[j]
    ensures Ready(v, mine, near, headDist)
  {
    forall i | 0 <= i < |mine|
      ensures Mine(v, mine[i], near, headDist)
    {
      MineNarrow(v, mine[i], pics, near, headDist);
    }
    forall i, j | 0 <= i < |mine| && 0 <= j < |mine| && j == i + 1
      ensures NextTo(v, mine[i], mine[j], near)
    {
      assert NextTo(v, mine[i], mine[j], pics);
      MineNarrow(v, mine[i], pics, near, headDist);
      MineNarrow(v, mine[j], pics, near, headDist);
    }
  }

  lemma MineNarrow(v: View, x: nat, pics: Pictures, near: Pictures, headDist: nat)
    requires Linked(v) && Mine(v, x, pics, headDist)
    requires var id := v.images[v.cur].id;
             forall j :: j in pics && j <= id && id - j <= headDist ==> j in near && near[j] == pics[j]
    ensures Mine(v, x, near, headDist)
  {
    forall r | 0 <= r < |v.segs| && r != x && RefSegIsValid(v, r, x)
      ensures Referable(v, x, near, headDist, r)
    {
      assert Referable(v, x, pics, headDist, r);
    }
  }

  /** In every state of the dictionary the encoder's window is ready, with the pictures that were sent. */
  lemma WorldReady(d: World, h: nat, dist: nat, head: nat, cur: nat, mine: seq<nat>)
    requires Encodes(d, h, dist, head, cur, mine)
    ensures Linked(ViewOf(d, head, cur))
    ensures var image := d.w.images[cur];
            Ready(ViewOf(d, head, cur), mine, SentNear(d.history, image.kind, image.id, dist), dist)
  {
    var image, v := d.w.images[cur], ViewOf(d, head, cur);
    var pics := D.PicturesOf(d.w, d.s, d.lastId, image.kind);
    D.WindowIsReady(d.w, d.s, d.lastId, h, h + dist, v, mine, pics);
    var near := SentNear(d.history, image.kind, image.id, dist);
    forall j | j in pics && j <= image.id && image.id - j <= dist
      ensures j in near && near[j] == pics[j]
    {
      L.RecordedPictures(d.w, d.s, d.lastId, d.history, image.kind, j);
    }
    ReadyNarrow(v, mine, pics, near, dist);
  }

  lemma EncodesStays(a: World, b: World, h: nat, dist: nat, head: nat, cur: nat, mine: seq<nat>)
    requires Encodes(a, h, dist, head, cur, mine) && Stepped(a, b)
    ensures Encodes(b, h, dist, head, cur, mine)
    ensures cur < |a.w.images| && L.SameImage(b.w.images[cur], a.w.images[cur])
  {
    hide D.Inv;
    var k := h + dist;
    assert b.s.starts[h] == a.s.starts[h] && b.s.starts[k] == a.s.starts[k] && b.s.starts[k + 1] == a.s.starts[k + 1];
    assert b.s.imgs[k] == a.s.imgs[k] && b.s.used[a.s.starts[h]] == a.s.used[a.s.starts[h]];
    assert mine == b.s.used[b.s.starts[k]..b.s.starts[k + 1]];
  }

  /** What follows the last segment of an image is the first segment of the next image, if any. */
  lemma EndOfImage(a: World, k: nat)
    requires WorldOk(a) && k < |a.s.imgs| && a.s.starts[k + 1] <= |a.s.used| && a.s.starts[k] < a.s.starts[k + 1]
    ensures var last := a.s.starts[k + 1] - 1;
            && a.s.used[last] < |a.w.segs|
            && a.w.segs[a.s.used[last]].next == if last + 1 < |a.s.used| then Some(a.s.used[last + 1]) else None
    ensures k + 1 == |a.s.imgs| <==> a.s.starts[k + 1] == |a.s.used|
  {
    if k + 1 < |a.s.imgs| {
      StartInRange(a.w, a.s, k + 1);
    }
  }

  /** The first segment of an image is not part of the image before. */
  lemma StartsNext(b: World, k: nat, cur: nat)
    requires WorldOk(b) && k + 1 < |b.s.imgs| && cur == b.s.imgs[k] && b.s.starts[k + 1] < |b.s.used|
    ensures cur < |b.w.images| && b.s.used[b.s.starts[k + 1]] < |b.w.segs|
    ensures var image := b.w.segs[b.s.used[b.s.starts[k + 1]]].image;
            image.Some? && image.value < |b.w.images| && b.w.images[image.value].id != b.w.images[cur].id
  {
    assert D.BlockOk(b.w, b.s, k + 1);
    D.IdsAndKinds(b.w, b.s, b.lastId, k, k, k + 1);
  }

  lemma EndStays(a: World, b: World, h: nat, dist: nat, head: nat, cur: nat, mine: seq<nat>)
    requires Encodes(a, h, dist, head, cur, mine) && Stepped(a, b) && Encodes(b, h, dist, head, cur, mine)
    requires Linked(ViewOf(b, head, cur)) && mine[|mine| - 1] < |a.w.segs|
    ensures EndsHere(ViewOf(b, head, cur), a.w.segs[mine[|mine| - 1]].next)
  {
    hide D.Inv;
    var k := h + dist;
    var last := a.s.starts[k + 1] - 1;
    assert mine[|mine| - 1] == a.s.used[last];
    EndOfImage(a, k);
    if last + 1 < |a.s.used| {
      assert b.s.used[last + 1] == a.s.used[last + 1] && b.s.starts[k + 1] == last + 1;
      StartsNext(b, k, cur);
    }
  }

  lemma FollowsStep(a: World, b: World, h: nat, dist: nat, head: nat, cur: nat, mine: seq<nat>)
    requires Encodes(a, h, dist, head, cur, mine) && Stepped(a, b)
    ensures Follows(ViewOf(a, head, cur), ViewOf(b, head, cur), mine)
  {
    hide DictionaryOk;
    EncodesStays(a, b, h, dist, head, cur, mine);
    WorldReady(a, h, dist, head, cur, mine);
    WorldReady(b, h, dist, head, cur, mine);
    forall i | 0 <= i < |mine|
      ensures mine[i] < |a.w.segs| && SameStretch(a.w.segs[mine[i]], b.w.segs[mine[i]])
    {
      assert mine[i] == a.s.used[a.s.starts[h + dist] + i];
    }
    EndStays(a, b, h, dist, head, cur, mine);
  }

  lemma SentSame(a: World, b: World, kind: ImageType, id: nat, headDist: nat)
    requires Remembers(b, a) && id < a.lastId
    ensures SentNear(b.history, kind, id, headDist) == SentNear(a.history, kind, id, headDist)
  {
  }

  /** The view at the encoder's successive looks: `at(t)` says how far the run has got at look `t`. */
  function Seen(worlds: seq<World>, at: nat -> nat, head: nat, cur: nat): nat -> View
    requires worlds != []
  {
    (t: nat) => ViewOf(if at(t) < |worlds| then worlds[at(t)] else worlds[0], head, cur)
  }

  /** The looks follow the run. */
  ghost predicate InStep(worlds: seq<World>, at: nat -> nat) {
    && at(0) == 0 && (forall t {:trigger at(t)} :: at(t) < |worlds|)
    && (forall t, u {:trigger at(t), at(u)} :: t <= u ==> at(t) <= at(u))
  }

  lemma LaterReady(a: World, b: World, h: nat, dist: nat, head: nat, cur: nat, mine: seq<nat>, pics: Pictures)
    requires Encodes(a, h, dist, head, cur, mine) && Stepped(a, b) && cur < |a.w.images|
    requires pics == SentNear(a.history, a.w.images[cur].kind, a.w.images[cur].id, dist)
    ensures Ready(ViewOf(b, head, cur), mine, pics, dist)
  {
    hide D.Inv;
    EncodesStays(a, b, h, dist, head, cur, mine);
    IdBefore(a, h + dist);
    SentSame(a, b, a.w.images[cur].kind, a.w.images[cur].id, dist);
    WorldReady(b, h, dist, head, cur, mine);
  }

  lemma IdBefore(a: World, k: nat)
    requires WorldOk(a) && k < |a.s.imgs|
    ensures a.w.images[a.s.imgs[k]].id < a.lastId
  {
    HeadFields(a.w, a.s, a.lastId, k);
  }

  lemma LaterFollows(a: World, b: World, c: World, h: nat, dist: nat, head: nat, cur: nat, mine: seq<nat>)
    requires Encodes(a, h, dist, head, cur, mine) && Stepped(a, b) && Stepped(b, c)
    ensures Follows(ViewOf(b, head, cur), ViewOf(c, head, cur), mine)
  {
    EncodesStays(a, b, h, dist, head, cur, mine);
    FollowsStep(b, c, h, dist, head, cur, mine);
  }

  lemma SeenAt(worlds: seq<World>, at: nat -> nat, head: nat, cur: nat, t: nat)
    requires worlds != [] && InStep(worlds, at)
    ensures at(t) < |worlds| && Seen(worlds, at, head, cur)(t) == ViewOf(worlds[at(t)], head, cur)
  {
  }

  /** An encoder at work while the dictionary goes through a run. */
  ghost predicate Working(worlds: seq<World>, at: nat -> nat, e: nat, h: nat, dist: nat, head: nat, cur: nat,
                          mine: seq<nat>, pics: Pictures) {
    && IsRun(worlds) && AtWork(worlds, e, head) && InStep(worlds, at) && Encodes(worlds[0], h, dist, head, cur, mine)
    && cur < |worlds[0].w.images|
    && pics == SentNear(worlds[0].history, worlds[0].w.images[cur].kind, worlds[0].w.images[cur].id, dist)
  }

  lemma ReadyAt(worlds: seq<World>, at: nat -> nat, e: nat, h: nat, dist: nat, head: nat, cur: nat, mine: seq<nat>,
                pics: Pictures, t: nat)
    requires Working(worlds, at, e, h, dist, head, cur, mine, pics)
    ensures Ready(Seen(worlds, at, head, cur)(t), mine, pics, dist)
  {
    hide D.Inv;
    SeenAt(worlds, at, head, cur, t);
    RunStepped(worlds, e, head, 0, at(t));
    LaterReady(worlds[0], worlds[at(t)], h, dist, head, cur, mine, pics);
  }

  lemma FollowsAt(worlds: seq<World>, at: nat -> nat, e: nat, h: nat, dist: nat, head: nat, cur: nat, mine: seq<nat>,
                  pics: Pictures, t: nat, u: nat)
    requires Working(worlds, at, e, h, dist, head, cur, mine, pics) && t <= u
    ensures Follows(Seen(worlds, at, head, cur)(t), Seen(worlds, at, head, cur)(u), mine)
  {
    hide D.Inv;
    SeenAt(worlds, at, head, cur, t);
    SeenAt(worlds, at, head, cur, u);
    RunStepped(worlds, e, head, 0, at(t));
    RunStepped(worlds, e, head, at(t), at(u));
    LaterFollows(worlds[0], worlds[at(t)], worlds[at(u)], h, dist, head, cur, mine);
  }

  lemma NeverSpoilt(worlds: seq<World>, at: nat -> nat, e: nat, h: nat, dist: nat, head: nat, cur: nat, mine: seq<nat>,
                    pics: Pictures, t: nat)
    ensures Working(worlds, at, e, h, dist, head, cur, mine, pics) ==>
              !Spoilt(Seen(worlds, at, head, cur), mine, pics, dist, t)
  {
    if Working(worlds, at, e, h, dist, head, cur, mine, pics) {
      ReadyAt(worlds, at, e, h, dist, head, cur, mine, pics, t);
    }
  }

  lemma NeverDeparts(worlds: seq<World>, at: nat -> nat, e: nat, h: nat, dist: nat, head: nat, cur: nat, mine: seq<nat>,
                     pics: Pictures, t: nat, u: nat)
    requires t <= u
    ensures Working(worlds, at, e, h, dist, head, cur, mine, pics) ==> !Departs(Seen(worlds, at, head, cur), mine, t, u)
  {
    if Working(worlds, at, e, h, dist, head, cur, mine, pics) {
      FollowsAt(worlds, at, e, h, dist, head, cur, mine, pics, t, u);
    }
  }

  lemma AllReady(worlds: seq<World>, at: nat -> nat, e: nat, h: nat, dist: nat, head: nat, cur: nat, mine: seq<nat>,
                 pics: Pictures)
    ensures Working(worlds, at, e, h, dist, head, cur, mine, pics) ==>
              forall t :: !Spoilt(Seen(worlds, at, head, cur), mine, pics, dist, t)
  {
    forall t
      ensures Working(worlds, at, e, h, dist, head, cur, mine, pics) ==>
                !Spoilt(Seen(worlds, at, head, cur), mine, pics, dist, t)
    {
      NeverSpoilt(worlds, at, e, h, dist, head, cur, mine, pics, t);
    }
  }

  lemma AllFollow(worlds: seq<World>, at: nat -> nat, e: nat, h: nat, dist: nat, head: nat, cur: nat, mine: seq<nat>,
                  pics: Pictures)
    ensures Working(worlds, at, e, h, dist, head, cur, mine, pics) ==>
              forall t, u :: t <= u ==> !Departs(Seen(worlds, at, head, cur), mine, t, u)
  {
    forall t, u | t <= u
      ensures Working(worlds, at, e, h, dist, head, cur, mine, pics) ==>
                !Departs(Seen(worlds, at, head, cur), mine, t, u)
    {
      NeverDeparts(worlds, at, e, h, dist, head, cur, mine, pics, t, u);
    }
  }

  /** Whatever the other encoders do meanwhile, and whenever the encoder looks, it can go on. */
  lemma RunWatched(worlds: seq<World>, at: nat -> nat, e: nat, h: nat, dist: nat, head: nat, cur: nat, mine: seq<nat>,
                   pics: Pictures)
    requires Working(worlds, at, e, h, dist, head, cur, mine, pics)
    ensures Watched(Seen(worlds, at, head, cur), mine, pics, dist)
  {
    hide D.Inv;
    AllReady(worlds, at, e, h, dist, head, cur, mine, pics);
    AllFollow(worlds, at, e, h, dist, head, cur, mine, pics);
  }

  /** The same for views that are read out of the run. */
  lemma WatchedSame(a: nat -> View, b: nat -> View, mine: seq<nat>, pics: Pictures, headDist: nat)
    requires Watched(a, mine, pics, headDist) && forall t {:trigger b(t)} :: b(t) == a(t)
    ensures Watched(b, mine, pics, headDist)
  {
    forall t
      ensures !Spoilt(b, mine, pics, headDist, t)
    {
      assert b(t) == a(t) && !Spoilt(a, mine, pics, headDist, t);
    }
    forall t, u | t <= u
      ensures !Departs(b, mine, t, u)
    {
      assert b(t) == a(t) && b(u) == a(u) && !Departs(a, mine, t, u);
    }
  }

  /** After its pre-encode an encoder is at work on the newest image. */
  lemma Begins(a: World, b: World, e: nat, sent: L.Sent, h: nat, dist: nat, head: nat, cur: nat)
    returns (mine: seq<nat>)
    requires PreDone(a, b, e, sent, h) && head == b.s.used[b.s.starts[h]] && cur == b.s.imgs[|b.s.imgs| - 1]
    requires h + dist == |b.s.imgs| - 1
    ensures Encodes(b, h, dist, head, cur, mine) && cur < |b.w.images|
    ensures b.w.images[cur].id == a.lastId && b.w.images[cur].kind == sent.kind && Linked(ViewOf(b, head, cur))
  {
    var k := |b.s.imgs| - 1;
    StartInRange(b.w, b.s, k);
    HeadFields(b.w, b.s, b.lastId, k);
    mine := b.s.used[b.s.starts[k]..b.s.starts[k + 1]];
    WorldReady(b, h, dist, head, cur, mine);
  }

  // ----- The heads that are announced one after the other -----

  /** The id of image `h` of those in use. */
  ghost function IdAt(d: World, h: nat): int {
    d.lastId - |d.s.imgs| + h
  }

  /** From the images with ids before `base` on there are more pixels than the limit. */
  ghost predicate FullBefore(d: World, base: int) {
    && D.InRange(d.s.imgs, |d.w.images|) && base <= d.lastId
    && forall g :: 0 <= g < |d.s.imgs| && IdAt(d, g) < base ==> ImagePixels(d.w, d.s, g) > d.w.sizeLimit
  }

  lemma PreDoneKeepsFull(a: World, b: World, e: nat, sent: L.Sent, h: nat, base: int)
    requires PreDone(a, b, e, sent, h) && FullBefore(a, base)
    ensures FullBefore(b, base)
  {
    hide DictionaryOk;
    var k := |a.s.imgs| + 1 - |b.s.imgs|;
    forall g | 0 <= g < |b.s.imgs| && IdAt(b, g) < base
      ensures ImagePixels(b.w, b.s, g) > b.w.sizeLimit
    {
      assert IdAt(a, g + k) == IdAt(b, g) && ImagePixels(b.w, b.s, g) >= ImagePixels(a.w, a.s, g + k);
    }
  }

  /** Steps that change no size keep it too. */
  lemma SameKeepsFull(a: World, b: World, base: int)
    requires FullBefore(a, base) && b == a.(w := b.w) && b.w.sizeLimit == a.w.sizeLimit
    requires |b.w.images| == |a.w.images|
    requires forall m :: 0 <= m < |a.w.images| ==> b.w.images[m].size == a.w.images[m].size
    ensures FullBefore(b, base)
  {
    forall g | 0 <= g < |b.s.imgs| && IdAt(b, g) < base
      ensures ImagePixels(b.w, b.s, g) > b.w.sizeLimit
    {
      assert IdAt(a, g) == IdAt(b, g);
      SameSizes(a.w, a.s, b.w, g);
    }
  }

  lemma StepKeepsFull(a: World, b: World, base: int)
    requires Step(a, b) && FullBefore(a, base)
    ensures FullBefore(b, base)
  {
    hide DictionaryOk, FullBefore;
    if e, sent, h :| PreDone(a, b, e, sent, h) {
      PreDoneKeepsFull(a, b, e, sent, h, base);
    } else {
      SameKeepsFull(a, b, base);
    }
  }

  /** Over any run, what is full stays so. */
  lemma {:induction false} RunKeepsFull(worlds: seq<World>, i: nat, j: nat, base: int)
    requires IsRun(worlds) && i <= j < |worlds| && FullBefore(worlds[i], base)
    ensures FullBefore(worlds[j], base)
    decreases j
  {
    hide DictionaryOk, FullBefore;
    if i < j {
      RunKeepsFull(worlds, i, j - 1, base);
      StepKeepsFull(worlds[j - 1], worlds[j], base);
    }
  }

  /** Images are released from the oldest on. */
  lemma {:induction false} RunReleases(worlds: seq<World>, i: nat, j: nat)
    requires IsRun(worlds) && i <= j < |worlds|
    ensures IdAt(worlds[i], 0) <= IdAt(worlds[j], 0)
    decreases j
  {
    hide DictionaryOk;
    if i < j {
      RunReleases(worlds, i, j - 1);
      assert Step(worlds[j - 1], worlds[j]);
    }
  }

  /** Some encoder has pre-encoded an image, with image `h` as its head. */
  ghost predicate Heads(a: World, b: World, h: nat) {
    exists e, sent :: PreDone(a, b, e, sent, h)
  }

  /** All that the pre-encode leaves before its head is full. */
  lemma HeadIsFull(a: World, b: World, h: nat)
    requires Heads(a, b, h)
    ensures FullBefore(b, IdAt(b, h)) && h < |b.s.imgs| && (!Busy(a.w) ==> h == 0)
  {
    hide DictionaryOk;
  }

  /**
   The head of a window is never before that of an earlier window, if the window is
   within its limit, or if nobody was at work when the earlier one was given.
   */
  lemma HeadsGoOn(worlds: seq<World>, p: nat, h: nat, q: nat, h': nat)
    requires IsRun(worlds) && p < q && q + 1 < |worlds|
    requires Heads(worlds[p], worlds[p + 1], h) && Heads(worlds[q], worlds[q + 1], h')
    requires !Busy(worlds[p].w) || WithinLimit(worlds[q + 1], h')
    ensures IdAt(worlds[p + 1], h) <= IdAt(worlds[q + 1], h')
  {
    hide DictionaryOk, Heads, Step;
    HeadIsFull(worlds[p], worlds[p + 1], h);
    HeadIsFull(worlds[q], worlds[q + 1], h');
    if !Busy(worlds[p].w) {
      RunReleases(worlds, p + 1, q + 1);
    } else {
      RunKeepsFull(worlds, p + 1, q + 1, IdAt(worlds[p + 1], h));
    }
  }

  /** From image `h` on there are no more pixels than the limit. */
  ghost predicate WithinLimit(d: World, h: nat) {
    D.InRange(d.s.imgs, |d.w.images|) && h <= |d.s.imgs| && ImagePixels(d.w, d.s, h) <= d.w.sizeLimit
  }

  /**
   Exactly when a pre-encode finds a head that is not before an earlier one: if none
   of the images before that is misjudged.
   */
  lemma HeadBackIff(a: World, size: nat, h: nat, base: int)
    requires WorldOk(a) && FirstRoom(a.w, a.s, size, h) && FullBefore(a, base)
    ensures IdAt(a, h) >= base <==>
            forall g :: 0 <= g < |a.s.imgs| && IdAt(a, g) < base ==> !Misjudged(a.w, a.s, size, g)
  {
    hide D.Inv;
    SumMisses(a.w, a.s, a.lastId, size, h);
    if IdAt(a, h) >= base {
      forall g | 0 <= g < |a.s.imgs| && IdAt(a, g) < base
        ensures !Misjudged(a.w, a.s, size, g)
      {
        NoRoomBefore(a.w, a.s, a.lastId, size, h, g);
      }
    } else {
      assert Misjudged(a.w, a.s, size, h);
    }
  }

  // ----- Runs in which all pixels are counted -----

  /** All pixels of the newest image are. */
  ghost predicate NewestCounted(d: World) {
    WorldOk(d) && d.s.imgs != [] ==> Short(d.w, d.s, |d.s.imgs| - 1) == 0
  }

  ghost predicate AllCounted(d: World) {
    WorldOk(d) && Short(d.w, d.s, 0) == 0
  }

  lemma SameCounted(a: World, b: World)
    requires AllCounted(a) && WorldOk(b) && b == a.(w := a.w.(encodersHeads := b.w.encodersHeads, images := b.w.images))
    requires |b.w.images| == |a.w.images|
    requires forall m :: 0 <= m < |a.w.images| ==> b.w.images[m].size == a.w.images[m].size
    ensures AllCounted(b)
  {
    hide D.Inv;
    StartInRange(a.w, a.s, 0);
    SameSizes(a.w, a.s, b.w, 0);
  }

  lemma StepCounted(a: World, b: World)
    requires AllCounted(a) && Step(a, b) && NewestCounted(b)
    ensures AllCounted(b)
  {
    hide D.Inv, L.Structured, L.Recorded, Grown, Pushes, RoomIsReal;
    if e, sent, h :| PreDone(a, b, e, sent, h) {
      NeverOver(b.w, b.s, b.lastId, 0);
    } else {
      SameCounted(a, b);
    }
  }

  /** Over any run of images that are wholly counted, nothing is left uncounted. */
  lemma {:induction false} RunCounted(worlds: seq<World>, j: nat)
    requires IsRun(worlds) && AllCounted(worlds[0]) && j < |worlds|
    requires forall i :: 0 <= i < |worlds| ==> NewestCounted(worlds[i])
    ensures AllCounted(worlds[j])
    decreases j
  {
    hide AllCounted, NewestCounted, Step, WorldOk;
    if j > 0 {
      RunCounted(worlds, j - 1);
      StepCounted(worlds[j - 1], worlds[j]);
    }
  }

  /** The sum of a pre-encode does not wrap around. */
  ghost predicate Unwrapped(a: World, b: World) {
    WorldOk(a) && WorldOk(b) && b.s.imgs != [] ==> WindowPixels(a.w, a.s, 0) + NewestSize(b) < UINT32
  }

  /** Where all pixels are counted and the sum does not wrap around, a window is within its limit. */
  lemma CountedWithin(a: World, b: World, h: nat)
    requires AllCounted(a) && Heads(a, b, h) && Unwrapped(a, b)
    ensures WithinLimit(b, h)
  {
    hide D.Inv, L.Recorded, Grown;
    WindowPositive(a.w, a.s, a.lastId);
    Wraps(WindowPixels(a.w, a.s, 0) + NewestSize(b));
    assert forall g :: 0 <= g <= |a.s.imgs| ==> !Misjudged(a.w, a.s, NewestSize(b), g);
  }
}
