/**
 glz_encode as a whole: an image goes through the shared dictionary and one or two
 compression passes, and a decoder that holds the recent images gets it back.
 */
module GlzEncode {
  import opened Basics
  import opened GlzMatch
  import opened GlzFormat
  import opened GlzWindow
  import opened GlzEncoder
  import opened GlzCompress
  import D = GlzDictionary
  import L = GlzListOps
  import S = GlzSharedDictionary
  import R = GlzRuns

  /** The encoder template for each image type; an image with alpha has a second pass. */
  function FirstPass(kind: ImageType): Layout {
    match kind
    case RGB16 => Rgb16
    case RGB24 => Rgb24
    case RGB32 => Rgb32
    case RGBA => Rgb32
    case _ => Plt
  }

  /** The decoded picture shows what the original shows, in every pass of its type. */
  ghost predicate Looks(kind: ImageType, a: seq<Pixel>, b: seq<Pixel>) {
    AllSame(FirstPass(kind), a, b) && (kind == RGBA ==> AllSame(Alpha, a, b))
  }

  /** Colours from the first pass, alpha from the second. */
  function Merge(a: seq<Pixel>, b: seq<Pixel>): (r: seq<Pixel>)
    requires |a| == |b|
    ensures |r| == |a| && AllSame(Rgb32, r, a) && AllSame(Alpha, r, b)
  {
    seq(|a|, i requires 0 <= i < |a| => Pixel(a[i].c0, a[i].c1, a[i].c2, b[i].c3))
  }

  /** Decodes one image of `size` pixel cells. */
  function DecodeImage(kind: ImageType, maxCopy: nat, win: Window, id: nat, bs: seq<Byte>, size: nat)
    : Option<(seq<Pixel>, seq<Byte>)>
  {
    match Decode(FirstPass(kind), maxCopy, win, id, bs, [], size)
    case None => None
    case Some((pixels, rest)) =>
      if kind != RGBA then Some((pixels, rest))
      else match Decode(Alpha, maxCopy, win, id, rest, [], size)
           case None => None
           case Some((alpha, rest')) => if |alpha| != |pixels| then None else Some((Merge(pixels, alpha), rest'))
  }

  // ----- A good stream for the originals is good for what a decoder has -----

  lemma SameTransfers(k: Layout, a: Pixel, b: Pixel, c: Pixel)
    requires Same(k, a, b) && Same(k, b, c)
    ensures Same(k, a, c)
  {
  }

  /** The decoder's pictures look like the originals. */
  ghost predicate Agrees(k: Layout, win: Window, originals: Window) {
    forall j :: j in originals ==> j in win && AllSame(k, win[j], originals[j])
  }

  lemma FitTransfers(k: Layout, originals: Window, win: Window, id: nat, pic: seq<Pixel>, t: Token, at: nat)
    requires Fits(k, originals, id, pic, t, at) && Agrees(k, win, originals)
    ensures Fits(k, win, id, pic, t, at)
  {
    if t.Reference? && t.ref.imageDist != 0 {
      var r, n := t.ref, Width(k, t);
      var from, to := originals[id - r.imageDist], win[id - r.imageDist];
      var shown := to[r.pixelDist..r.pixelDist + n];
      forall i {:trigger shown[i]} | 0 <= i < n
        ensures Same(k, shown[i], pic[at + i])
      {
        var original := from[r.pixelDist..r.pixelDist + n];
        assert shown[i] == to[r.pixelDist + i] && original[i] == from[r.pixelDist + i];
        SameTransfers(k, shown[i], original[i], pic[at + i]);
      }
    }
  }

  lemma {:induction false} GoodTransfers(k: Layout, maxCopy: nat, originals: Window, win: Window, id: nat,
                                         pic: seq<Pixel>, log: Log, n: nat)
    requires Good(k, maxCopy, originals, id, pic, log, n) && Agrees(k, win, originals)
    ensures Good(k, maxCopy, win, id, pic, log, n)
    decreases log
  {
    match log
    case Start =>
    case Add(before, t) =>
      FitTransfers(k, originals, win, id, pic, t, n - Width(k, t));
      GoodTransfers(k, maxCopy, originals, win, id, pic, before, n - Width(k, t));
  }

  // ----- One pass -----

  /** The bytes of each token. */
  function CodeOf(k: Layout, maxCopy: nat): Token -> seq<Byte> {
    t => if LimitOk(maxCopy) && TokenOk(maxCopy, t) then TokenBytes(k, maxCopy, t) else []
  }

  /** The earlier pictures that are at most `headDist` images back. */
  ghost function Recent(pics: Pictures, id: nat, headDist: nat): Window {
    map j | j in pics && j < id && id - j <= headDist :: pics[j]
  }

  /** The bytes are a stream for the picture, with references into `originals` and the picture itself. */
  ghost predicate PassOk(k: Layout, maxCopy: nat, originals: Window, id: nat, pic: seq<Pixel>, body: seq<Byte>) {
    && LimitOk(maxCopy)
    && exists log :: Good(k, maxCopy, originals, id, pic, log, |pic|) && body == Written(CodeOf(k, maxCopy), [], log)
  }

  /** Such a stream gives the picture back to every decoder whose pictures look like the originals. */
  lemma PassDecodes(k: Layout, maxCopy: nat, originals: Window, id: nat, pic: seq<Pixel>, body: seq<Byte>, win: Window,
                    rest: seq<Byte>)
    returns (dec: seq<Pixel>)
    requires PassOk(k, maxCopy, originals, id, pic, body) && Agrees(k, win, originals)
    ensures AllSame(k, dec, pic)
    ensures Decode(k, maxCopy, win, id, body + rest, [], |pic|) == Some((dec, rest))
  {
    var log :| Good(k, maxCopy, originals, id, pic, log, |pic|) && body == Written(CodeOf(k, maxCopy), [], log);
    GoodTransfers(k, maxCopy, originals, win, id, pic, log, |pic|);
    dec := GoodStreamDecodes(CodeOf(k, maxCopy), k, maxCopy, win, id, pic, log, |pic|, rest, |pic|);
  }

  /** One run of compress, over a window that other encoders may extend meanwhile. */
  method EncodePass(enc: Encoder, k: Layout, seen: nat -> View, id32: nat, ghost id: nat, ghost mine: seq<nat>,
                    ghost pics: Pictures, ghost headDist: nat)
    returns (ghost body: seq<Byte>)
    requires LimitOk(enc.maxCopy) && Watched(seen, mine, pics, headDist) && Linked(seen(0))
    requires id == seen(0).images[seen(0).cur].id && id in pics && id32 == id % UINT32
    requires enc.TableOk(seen(0)) && enc.known == |seen(0).segs|
    modifies enc`out, enc`lastCopy, enc`clock, enc`log, enc.htab
    ensures enc.out == old(enc.out) + body && enc.TableOk(seen(0))
    ensures id < UINT32 ==> PassOk(k, enc.maxCopy, Recent(pics, id, headDist), id, pics[id], body)
    ensures id >= UINT32 ==> body == []
  {
    ghost var goal := Goal(CodeOf(k, enc.maxCopy), Recent(pics, id, headDist), id, pics[id], enc.out);
    enc.log := Start;
    enc.Compress(k, seen, id32, goal, mine, pics, headDist);
    if id < UINT32 {
      WrittenPrefix(goal.code, goal.prefix, enc.log);
      body := Written(goal.code, [], enc.log);
    } else {
      body := [];
    }
  }

  // ----- The whole image -----

  /**
   The bytes decode, for every decoder that holds pictures like the originals,
   to a picture like the given one, and nothing of what follows is consumed.
   */
  ghost predicate Decodable(kind: ImageType, maxCopy: nat, originals: Window, id: nat, pic: seq<Pixel>,
                            body: seq<Byte>) {
    forall win, rest :: HasAll(kind, win, originals) ==> DecodesTo(kind, maxCopy, win, id, pic, body, rest)
  }

  ghost predicate HasAll(kind: ImageType, win: Window, originals: Window) {
    forall j :: j in originals ==> j in win && Looks(kind, win[j], originals[j])
  }

  ghost predicate DecodesTo(kind: ImageType, maxCopy: nat, win: Window, id: nat, pic: seq<Pixel>, body: seq<Byte>,
                            rest: seq<Byte>) {
    var r := DecodeImage(kind, maxCopy, win, id, body + rest, |pic|);
    r.Some? && Looks(kind, r.value.0, pic) && r.value.1 == rest
  }

  lemma OnePassDecodes(kind: ImageType, maxCopy: nat, originals: Window, id: nat, pic: seq<Pixel>, body: seq<Byte>,
                       win: Window, rest: seq<Byte>)
    requires kind != RGBA && PassOk(FirstPass(kind), maxCopy, originals, id, pic, body) && HasAll(kind, win, originals)
    ensures DecodesTo(kind, maxCopy, win, id, pic, body, rest)
  {
    var _ := PassDecodes(FirstPass(kind), maxCopy, originals, id, pic, body, win, rest);
  }

  lemma TwoPassesDecode(maxCopy: nat, originals: Window, id: nat, pic: seq<Pixel>, body: seq<Byte>, alpha: seq<Byte>,
                        win: Window, rest: seq<Byte>)
    requires PassOk(Rgb32, maxCopy, originals, id, pic, body) && PassOk(Alpha, maxCopy, originals, id, pic, alpha)
    requires HasAll(RGBA, win, originals)
    ensures DecodesTo(RGBA, maxCopy, win, id, pic, body + alpha, rest)
  {
    var a := PassDecodes(Rgb32, maxCopy, originals, id, pic, body, win, alpha + rest);
    var b := PassDecodes(Alpha, maxCopy, originals, id, pic, alpha, win, rest);
    AppendAssociates(body, alpha, rest);
  }

  lemma DecodableOnce(kind: ImageType, maxCopy: nat, originals: Window, id: nat, pic: seq<Pixel>, body: seq<Byte>)
    requires kind != RGBA && PassOk(FirstPass(kind), maxCopy, originals, id, pic, body)
    ensures Decodable(kind, maxCopy, originals, id, pic, body)
  {
    forall win, rest | HasAll(kind, win, originals)
      ensures DecodesTo(kind, maxCopy, win, id, pic, body, rest)
    {
      OnePassDecodes(kind, maxCopy, originals, id, pic, body, win, rest);
    }
  }

  lemma DecodableTwice(maxCopy: nat, originals: Window, id: nat, pic: seq<Pixel>, body: seq<Byte>, alpha: seq<Byte>)
    requires PassOk(Rgb32, maxCopy, originals, id, pic, body) && PassOk(Alpha, maxCopy, originals, id, pic, alpha)
    ensures Decodable(RGBA, maxCopy, originals, id, pic, body + alpha)
  {
    forall win, rest | HasAll(RGBA, win, originals)
      ensures DecodesTo(RGBA, maxCopy, win, id, pic, body + alpha, rest)
    {
      TwoPassesDecode(maxCopy, originals, id, pic, body, alpha, win, rest);
    }
  }

  /** No decoder gets a picture out of nothing. */
  lemma NothingIsLost(kind: ImageType, maxCopy: nat, originals: Window, id: nat, pic: seq<Pixel>)
    requires pic != []
    ensures !Decodable(kind, maxCopy, originals, id, pic, [])
  {
    assert HasAll(kind, originals, originals);
    var none: seq<Byte> := [];
    assert none + none == none;
    assert Decode(FirstPass(kind), maxCopy, originals, id, none, [], |pic|).None?;
    assert !DecodesTo(kind, maxCopy, originals, id, pic, none, none);
  }

  /** The image if its id fits in 32 bits, and otherwise nothing. */
  ghost predicate Outcome(kind: ImageType, maxCopy: nat, originals: Window, id: nat, pic: seq<Pixel>, body: seq<Byte>) {
    if id < UINT32 then Decodable(kind, maxCopy, originals, id, pic, body) else body == []
  }

  /** The passes of glz_encode. */
  method EncodePasses(enc: Encoder, kind: ImageType, seen: nat -> View, id32: nat, ghost id: nat, ghost mine: seq<nat>,
                      ghost pics: Pictures, ghost headDist: nat)
    returns (ghost body: seq<Byte>)
    requires LimitOk(enc.maxCopy) && Watched(seen, mine, pics, headDist) && Linked(seen(0))
    requires id == seen(0).images[seen(0).cur].id && id in pics && id32 == id % UINT32
    requires enc.TableOk(seen(0)) && enc.known == |seen(0).segs|
    modifies enc`out, enc`lastCopy, enc`clock, enc`log, enc.htab
    ensures enc.out == old(enc.out) + body && enc.TableOk(seen(0))
    ensures Outcome(kind, enc.maxCopy, Recent(pics, id, headDist), id, pics[id], body)
  {
    body := EncodePass(enc, FirstPass(kind), seen, id32, id, mine, pics, headDist);
    if kind == RGBA {
      ghost var alpha := EncodePass(enc, Alpha, seen, id32, id, mine, pics, headDist);
      if id < UINT32 {
        DecodableTwice(enc.maxCopy, Recent(pics, id, headDist), id, pics[id], body, alpha);
      }
      AppendAssociates(old(enc.out), body, alpha);
      body := body + alpha;
    } else if id < UINT32 {
      DecodableOnce(kind, enc.maxCopy, Recent(pics, id, headDist), id, pics[id], body);
    }
  }

  /** The earlier images of the type that were sent at most `headDist` images back. */
  ghost function RecentSent(history: L.History, kind: ImageType, id: nat, headDist: nat): Window {
    map j | j in history && history[j].kind == kind && j < id && id - j <= headDist :: history[j].pic
  }

  lemma RecentNear(history: L.History, kind: ImageType, id: nat, headDist: nat)
    ensures Recent(R.SentNear(history, kind, id, headDist), id, headDist) == RecentSent(history, kind, id, headDist)
  {
  }

  // ----- The header -----

  datatype Header = Header(magic: nat, version: nat, kind: Byte, width: nat, height: nat, stride: nat, id: nat,
                           headDist: nat)

  predicate HeaderOk(h: Header) {
    && h.magic < UINT32 && h.version < UINT32 && h.width < UINT32 && h.height < UINT32
    && h.stride < UINT32 && h.id < 0x1_0000_0000_0000_0000 && h.headDist < UINT32
  }

  /** encode_32. */
  function Word(x: nat): (r: seq<Byte>)
    ensures |r| == 4
  {
    [x / 0x100_0000 % 0x100, x / 0x1_0000 % 0x100, x / 0x100 % 0x100, x % 0x100]
  }

  function WordAt(bs: seq<Byte>, i: nat): nat
    requires i + 4 <= |bs|
  {
    (bs[i] as int) * 0x100_0000 + (bs[i + 1] as int) * 0x1_0000 + (bs[i + 2] as int) * 0x100 + bs[i + 3] as int
  }

  function HeaderBytes(h: Header): (r: seq<Byte>)
    ensures |r| == 33
  {
    Word(h.magic) + Word(h.version) + [h.kind] + Word(h.width) + Word(h.height) + Word(h.stride)
    + Word(h.id / UINT32) + Word(h.id % UINT32) + Word(h.headDist)
  }

  function ReadHeader(bs: seq<Byte>): Option<(Header, seq<Byte>)> {
    if |bs| < 33 then None
    else Some((Header(WordAt(bs, 0), WordAt(bs, 4), bs[8], WordAt(bs, 9), WordAt(bs, 13), WordAt(bs, 17),
               WordAt(bs, 21) * UINT32 + WordAt(bs, 25), WordAt(bs, 29)), bs[33..]))
  }

  lemma WordIn(x: nat, bs: seq<Byte>, i: nat)
    requires x < UINT32 && i + 4 <= |bs|
    requires bs[i] == Word(x)[0] && bs[i + 1] == Word(x)[1] && bs[i + 2] == Word(x)[2] && bs[i + 3] == Word(x)[3]
    ensures WordAt(bs, i) == x
  {
    BytesOf(x);
  }

  lemma BytesOf(x: nat)
    requires x < UINT32
    ensures x / 0x100_0000 % 0x100 * 0x100_0000 + x / 0x1_0000 % 0x100 * 0x1_0000 + x / 0x100 % 0x100 * 0x100
            + x % 0x100 == x
  {
  }

  lemma HeaderFront(h: Header, bs: seq<Byte>, rest: seq<Byte>)
    requires HeaderOk(h) && bs == HeaderBytes(h) + rest
    ensures WordAt(bs, 0) == h.magic && WordAt(bs, 4) == h.version && bs[8] == h.kind && WordAt(bs, 9) == h.width
  {
    WordIn(h.magic, bs, 0);
    WordIn(h.version, bs, 4);
    WordIn(h.width, bs, 9);
  }

  lemma HeaderMiddle(h: Header, bs: seq<Byte>, rest: seq<Byte>)
    requires HeaderOk(h) && bs == HeaderBytes(h) + rest
    ensures WordAt(bs, 13) == h.height && WordAt(bs, 17) == h.stride && WordAt(bs, 29) == h.headDist
  {
    WordIn(h.height, bs, 13);
    WordIn(h.stride, bs, 17);
    WordIn(h.headDist, bs, 29);
  }

  lemma HeaderId(h: Header, bs: seq<Byte>, rest: seq<Byte>)
    requires HeaderOk(h) && bs == HeaderBytes(h) + rest
    ensures WordAt(bs, 21) * UINT32 + WordAt(bs, 25) == h.id
  {
    WordIn(h.id / UINT32, bs, 21);
    WordIn(h.id % UINT32, bs, 25);
  }

  lemma HeaderRoundTrip(h: Header, rest: seq<Byte>)
    requires HeaderOk(h)
    ensures ReadHeader(HeaderBytes(h) + rest) == Some((h, rest))
  {
    var bs := HeaderBytes(h) + rest;
    HeaderFront(h, bs, rest);
    HeaderMiddle(h, bs, rest);
    HeaderId(h, bs, rest);
    assert bs[33..] == rest;
  }

  // ----- glz_encode -----

  /** The checks of the line length; a palette line may be rounded up to a whole byte. */
  predicate StrideOk(kind: ImageType, width: nat, stride: nat) {
    if IsPalette(kind) then
      var cells := width / PixelsPerByte(kind);
      !(stride > cells && (width % PixelsPerByte(kind) == 0 || stride - cells > 1))
    else
      stride == width * BytesPerPixel(kind)
  }

  /** The pixel cells of one line. */
  function RowCells(kind: ImageType, width: nat, stride: nat): nat {
    if IsPalette(kind) then stride else width
  }

  /** The hash table is of full size and names existing segments. */
  ghost predicate TableFits(htab: array<HashEntry>, segs: nat)
    reads htab
  {
    htab.Length == HASH_SIZE && forall i :: 0 <= i < htab.Length ==> htab[i].seg < segs
  }

  /**
   What a finished image is to the outside: it can be decoded exactly when its id
   fits in 32 bits, and otherwise its header is all there is.
   */
  ghost predicate Encoded(kind: ImageType, maxCopy: nat, history: L.History, header: Header, pic: seq<Pixel>,
                          body: seq<Byte>) {
    && HeaderOk(header) && header.id in history && history[header.id] == L.Sent(kind, pic)
    && (Decodable(kind, maxCopy, RecentSent(history, kind, header.id, header.headDist), header.id, pic, body)
        <==> header.id < UINT32)
    && (header.id >= UINT32 ==> body == [])
  }

  lemma OutcomeEncoded(kind: ImageType, maxCopy: nat, history: L.History, header: Header, pic: seq<Pixel>,
                       body: seq<Byte>)
    requires HeaderOk(header) && header.id in history && history[header.id] == L.Sent(kind, pic) && pic != []
    requires Outcome(kind, maxCopy, RecentSent(history, kind, header.id, header.headDist), header.id, pic, body)
    ensures Encoded(kind, maxCopy, history, header, pic, body)
  {
    NothingIsLost(kind, maxCopy, RecentSent(history, kind, header.id, header.headDist), header.id, pic);
  }

  /**
   An encoder has added image `cur` to the dictionary, `dist` images after its head,
   and since then the dictionary goes through the run `worlds`; `seen` shows its
   state each time the encoder looks.
   */
  ghost predicate AtWorkIn(a: S.World, worlds: seq<S.World>, at: nat -> nat, e: nat, sent: L.Sent, h: nat, dist: nat,
                           cur: nat, seen: nat -> View) {
    && R.IsRun(worlds) && S.PreDone(a, worlds[0], e, sent, h) && h + dist == |worlds[0].s.imgs| - 1
    && cur == worlds[0].s.imgs[|worlds[0].s.imgs| - 1]
    && var head := worlds[0].s.used[worlds[0].s.starts[h]];
    && R.AtWork(worlds, e, head) && R.InStep(worlds, at)
    && forall t {:trigger seen(t)} :: seen(t) == R.Seen(worlds, at, head, cur)(t)
  }

  /** What it sees then stays fit for its work, with the pictures that were sent. */
  lemma SeesRun(a: S.World, worlds: seq<S.World>, at: nat -> nat, e: nat, sent: L.Sent, h: nat, dist: nat, cur: nat,
                seen: nat -> View) returns (mine: seq<nat>)
    requires AtWorkIn(a, worlds, at, e, sent, h, dist, cur, seen)
    ensures Watched(seen, mine, R.SentNear(worlds[0].history, sent.kind, a.lastId, dist), dist)
  {
    hide D.Inv, L.Recorded, S.SizesOk, S.Grown, S.Pushes, S.Counts, R.Encodes, Watched;
    var head := worlds[0].s.used[worlds[0].s.starts[h]];
    mine := R.Begins(a, worlds[0], e, sent, h, dist, head, cur);
    var pics := R.SentNear(worlds[0].history, sent.kind, a.lastId, dist);
    R.RunWatched(worlds, at, e, h, dist, head, cur, mine, pics);
    R.WatchedSame(R.Seen(worlds, at, head, cur), seen, mine, pics, dist);
  }

  /** The first segment of image `h`. */
  ghost predicate HeadIs(d: S.World, h: nat, head: nat) {
    h < |d.s.starts| && d.s.starts[h] < |d.s.used| && head == d.s.used[d.s.starts[h]]
  }

  lemma FirstLook(a: S.World, b: S.World, e: nat, sent: L.Sent, h: nat, dist: nat, head: nat, cur: nat, v: View)
    requires S.PreDone(a, b, e, sent, h) && HeadIs(b, h, head) && cur == b.s.imgs[|b.s.imgs| - 1]
    requires h + dist == |b.s.imgs| - 1 && v == R.ViewOf(b, head, cur)
    ensures v.segs == b.w.segs && Linked(v) && v.images[v.cur].id == a.lastId
    ensures a.lastId in b.history && b.history[a.lastId] == sent
  {
    hide D.Inv;
    var _ := R.Begins(a, b, e, sent, h, dist, head, cur);
  }

  lemma FirstView(a: S.World, worlds: seq<S.World>, at: nat -> nat, e: nat, sent: L.Sent, h: nat, dist: nat, cur: nat,
                  seen: nat -> View)
    returns (head: nat)
    requires AtWorkIn(a, worlds, at, e, sent, h, dist, cur, seen)
    ensures worlds != [] && S.PreDone(a, worlds[0], e, sent, h) && HeadIs(worlds[0], h, head)
    ensures h + dist == |worlds[0].s.imgs| - 1 && cur == worlds[0].s.imgs[|worlds[0].s.imgs| - 1]
    ensures seen(0) == R.ViewOf(worlds[0], head, cur)
  {
    hide D.Inv;
    head := worlds[0].s.used[worlds[0].s.starts[h]];
    R.SeenAt(worlds, at, head, cur, 0);
  }

  /** Its first look shows its own image. */
  lemma SeesItsImage(a: S.World, worlds: seq<S.World>, at: nat -> nat, e: nat, sent: L.Sent, h: nat, dist: nat,
                     cur: nat, seen: nat -> View)
    requires AtWorkIn(a, worlds, at, e, sent, h, dist, cur, seen)
    ensures seen(0).segs == worlds[0].w.segs && Linked(seen(0)) && seen(0).images[seen(0).cur].id == a.lastId
    ensures a.lastId in worlds[0].history && worlds[0].history[a.lastId] == sent
  {
    hide AtWorkIn, S.PreDone;
    var head := FirstView(a, worlds, at, e, sent, h, dist, cur, seen);
    FirstLook(a, worlds[0], e, sent, h, dist, head, cur, seen(0));
  }

  /**
   glz_encode between its pre- and post-encode, while other encoders work on the
   same dictionary.
   */
  method EncodeDuring(enc: Encoder, seen: nat -> View, header: Header, kind: ImageType, ghost a: S.World,
                      ghost worlds: seq<S.World>, ghost at: nat -> nat, ghost e: nat, ghost h: nat, ghost cur: nat,
                      ghost pic: seq<Pixel>)
    returns (ghost body: seq<Byte>)
    requires AtWorkIn(a, worlds, at, e, L.Sent(kind, pic), h, header.headDist, cur, seen) && pic != []
    requires LimitOk(enc.maxCopy) && TableFits(enc.htab, |worlds[0].w.segs|)
    requires HeaderOk(header) && header.id == a.lastId
    modifies enc`out, enc`lastCopy, enc`clock, enc`log, enc`known, enc.htab
    ensures enc.out == old(enc.out) + HeaderBytes(header) + body && TableFits(enc.htab, |worlds[0].w.segs|)
    ensures Encoded(kind, enc.maxCopy, worlds[0].history, header, pic, body)
  {
    ghost var history := worlds[0].history;
    hide AtWorkIn;
    ghost var mine := SeesRun(a, worlds, at, e, L.Sent(kind, pic), h, header.headDist, cur, seen);
    SeesItsImage(a, worlds, at, e, L.Sent(kind, pic), h, header.headDist, cur, seen);
    body := WriteImage(enc, seen, header, kind, history, mine, pic);
  }

  /** The header and the passes. */
  method WriteImage(enc: Encoder, seen: nat -> View, header: Header, kind: ImageType, ghost history: L.History,
                    ghost mine: seq<nat>, ghost pic: seq<Pixel>)
    returns (ghost body: seq<Byte>)
    requires LimitOk(enc.maxCopy) && TableFits(enc.htab, |seen(0).segs|) && HeaderOk(header)
    requires Watched(seen, mine, R.SentNear(history, kind, header.id, header.headDist), header.headDist)
    requires Linked(seen(0)) && seen(0).images[seen(0).cur].id == header.id
    requires header.id in history && history[header.id] == L.Sent(kind, pic) && pic != []
    modifies enc`out, enc`lastCopy, enc`clock, enc`log, enc`known, enc.htab
    ensures enc.out == old(enc.out) + HeaderBytes(header) + body && TableFits(enc.htab, |seen(0).segs|)
    ensures Encoded(kind, enc.maxCopy, history, header, pic, body)
  {
    ghost var pics := R.SentNear(history, kind, header.id, header.headDist);
    enc.out := enc.out + HeaderBytes(header);
    enc.known := |seen(0).segs|;
    body := EncodePasses(enc, kind, seen, header.id % UINT32, header.id, mine, pics, header.headDist);
    RecentNear(history, kind, header.id, header.headDist);
    OutcomeEncoded(kind, enc.maxCopy, history, header, pic, body);
  }

  /** A run of one state: nobody else does anything. */
  lemma Alone(a: S.World, d: S.World, e: nat, sent: L.Sent, h: nat, dist: nat, cur: nat, at: nat -> nat,
              seen: nat -> View)
    requires S.PreDone(a, d, e, sent, h) && h + dist == |d.s.imgs| - 1 && cur == d.s.imgs[|d.s.imgs| - 1]
    requires forall t {:trigger at(t)} :: at(t) == 0
    requires forall t {:trigger seen(t)} :: seen(t) == R.ViewOf(d, d.s.used[d.s.starts[h]], cur)
    ensures AtWorkIn(a, [d], at, e, sent, h, dist, cur, seen)
  {
  }

  lemma SomePixels(chunks: seq<S.Chunk>, row: nat, height: nat)
    requires S.ChunksOk(chunks, row, height)
    ensures S.Lines(chunks) != []
  {
    var last := chunks[|chunks| - 1];
    S.Multiple(row, last.count);
  }

  /** glz_encode between pre- and post-encode when nobody else does anything. */
  method EncodeAdded(enc: Encoder, dict: S.SharedDictionary, encoder: nat, m: nat, header: Header, kind: ImageType,
                     ghost a: S.World, ghost h: nat, ghost pic: seq<Pixel>)
    returns (ghost body: seq<Byte>)
    requires S.PreDone(a, dict.State(), encoder, L.Sent(kind, pic), h) && pic != []
    requires m == dict.shape.imgs[|dict.shape.imgs| - 1] && h + header.headDist == |dict.shape.imgs| - 1
    requires LimitOk(enc.maxCopy) && TableFits(enc.htab, |dict.window.segs|)
    requires HeaderOk(header) && header.id == a.lastId
    modifies enc`out, enc`lastCopy, enc`clock, enc`log, enc`known, enc.htab
    ensures enc.out == old(enc.out) + HeaderBytes(header) + body && TableFits(enc.htab, |dict.window.segs|)
    ensures Encoded(kind, enc.maxCopy, dict.history, header, pic, body)
  {
    hide D.Inv, L.Recorded, S.Grown, S.Pushes, S.Counts, AtWorkIn, Encoded;
    var view := View(dict.window.segs, dict.window.images, dict.window.encodersHeads[encoder].value, m);
    var seen := (t: nat) => view;
    ghost var at := (t: nat) => 0;
    Alone(a, dict.State(), encoder, L.Sent(kind, pic), h, header.headDist, m, at, seen);
    body := EncodeDuring(enc, seen, header, kind, a, [dict.State()], at, encoder, h, m, pic);
  }

  /** glz_encode after its checks of the line length; `draft` is the header without id and distance. */
  method EncodeImage(enc: Encoder, dict: S.SharedDictionary, encoder: nat, kind: ImageType, row: nat, height: nat,
                     chunks: seq<S.Chunk>, draft: Header)
    returns (ok: bool, ghost header: Header, ghost body: seq<Byte>)
    requires dict.Valid() && LimitOk(enc.maxCopy) && TableFits(enc.htab, |dict.window.segs|)
    requires encoder < |dict.window.encodersHeads| && dict.window.encodersHeads[encoder].None?
    requires HeaderOk(draft.(id := dict.lastImageId))
    requires S.ChunksOk(chunks, row, height) && S.Countable(kind, row, height, chunks)
    requires |dict.shape.used| + |chunks| <= S.LAST_QUOTA
    modifies enc`out, enc`lastCopy, enc`clock, enc`log, enc`known, enc.htab, dict
    ensures dict.Valid() && TableFits(enc.htab, |dict.window.segs|)
    ensures ok == (S.PixelsNum(kind, row, height) <= old(dict.window.sizeLimit))
    ensures dict.window.encodersHeads == old(dict.window.encodersHeads)
    ensures dict.window.sizeLimit == old(dict.window.sizeLimit)
    ensures |dict.shape.used| <= |old(dict.shape.used)| + |chunks|
    ensures ok ==> header.headDist < |dict.shape.imgs| <= |old(dict.shape.imgs)| + 1
    ensures ok && old(dict.Idle()) ==> header.headDist == |dict.shape.imgs| - 1
    ensures !ok ==> dict.State() == old(dict.State()) && enc.out == old(enc.out)
    ensures ok ==> enc.out == old(enc.out) + HeaderBytes(header) + body
    ensures ok ==> header == draft.(id := old(dict.lastImageId), headDist := header.headDist)
    ensures ok ==> dict.lastImageId == header.id + 1
    ensures ok ==> dict.history == old(dict.history)[header.id := L.Sent(kind, S.Lines(chunks))]
    ensures ok ==> Encoded(kind, enc.maxCopy, dict.history, header, S.Lines(chunks), body)
  {
    hide S.DictionaryOk, S.Grown, S.Queued, S.Counts, S.RoomIsReal, S.FirstRoom;
    ghost var a := dict.State();
    header, body := draft, [];
    var m, headDist;
    ghost var h;
    ghost var h0;
    ok, m, headDist, h, h0 := dict.PreEncode(encoder, kind, row, height, chunks);
    if ok {
      var full := draft.(id := dict.lastImageId - 1, headDist := headDist);
      header := full;
      SomePixels(chunks, row, height);
      body := EncodeAdded(enc, dict, encoder, m, full, kind, a, h, S.Lines(chunks));
      dict.PostEncode(encoder);
    }
  }

  /** glz_encode; `false` stands for a call of the error callback, before anything is changed. */
  method Encode(enc: Encoder, dict: S.SharedDictionary, encoder: nat, kind: ImageType, width: nat, height: nat,
                stride: nat, chunks: seq<S.Chunk>, magic: nat, version: nat, typeByte: Byte)
    returns (ok: bool, ghost header: Header, ghost body: seq<Byte>)
    requires dict.Valid() && LimitOk(enc.maxCopy) && TableFits(enc.htab, |dict.window.segs|)
    requires encoder < |dict.window.encodersHeads| && dict.window.encodersHeads[encoder].None?
    requires HeaderOk(Header(magic, version, typeByte, width, height, stride, dict.lastImageId, 0))
    requires S.ChunksOk(chunks, RowCells(kind, width, stride), height)
    requires S.Countable(kind, RowCells(kind, width, stride), height, chunks)
    requires |dict.shape.used| + |chunks| <= S.LAST_QUOTA
    modifies enc`out, enc`lastCopy, enc`clock, enc`log, enc`known, enc.htab, dict
    ensures dict.Valid() && TableFits(enc.htab, |dict.window.segs|)
    ensures ok == (StrideOk(kind, width, stride)
                   && S.PixelsNum(kind, RowCells(kind, width, stride), height) <= old(dict.window.sizeLimit))
    ensures dict.window.encodersHeads == old(dict.window.encodersHeads)
    ensures dict.window.sizeLimit == old(dict.window.sizeLimit)
    ensures |dict.shape.used| <= |old(dict.shape.used)| + |chunks|
    ensures ok ==> header.headDist < |dict.shape.imgs| <= |old(dict.shape.imgs)| + 1
    ensures ok && old(dict.Idle()) ==> header.headDist == |dict.shape.imgs| - 1
    ensures !ok ==> dict.State() == old(dict.State()) && enc.out == old(enc.out)
    ensures ok ==> enc.out == old(enc.out) + HeaderBytes(header) + body
    ensures ok ==>
              header == Header(magic, version, typeByte, width, height, stride, old(dict.lastImageId), header.headDist)
    ensures ok ==> dict.lastImageId == header.id + 1
    ensures ok ==> dict.history == old(dict.history)[header.id := L.Sent(kind, S.Lines(chunks))]
    ensures ok ==> Encoded(kind, enc.maxCopy, dict.history, header, S.Lines(chunks), body)
  {
    var draft := Header(magic, version, typeByte, width, height, stride, 0, 0);
    ok, header, body := false, draft, [];
    if StrideOk(kind, width, stride) {
      ok, header, body := EncodeImage(enc, dict, encoder, kind, RowCells(kind, width, stride), height, chunks, draft);
    }
  }

  /** What Encode has appended reads back as its header, its picture and whatever follows. */
  lemma EncodedReadsBack(kind: ImageType, maxCopy: nat, history: L.History, header: Header, pic: seq<Pixel>,
                         body: seq<Byte>, win: Window, rest: seq<Byte>)
    requires Encoded(kind, maxCopy, history, header, pic, body) && header.id < UINT32
    requires HasAll(kind, win, RecentSent(history, kind, header.id, header.headDist))
    ensures ReadHeader(HeaderBytes(header) + body + rest) == Some((header, body + rest))
    ensures var r := DecodeImage(kind, maxCopy, win, header.id, body + rest, |pic|);
            r.Some? && Looks(kind, r.value.0, pic) && r.value.1 == rest
  {
    HeaderRoundTrip(header, body + rest);
    AppendAssociates(HeaderBytes(header), body, rest);
    assert DecodesTo(kind, maxCopy, win, header.id, pic, body, rest);
  }

  /** The first image after the dictionary was restored with 2^32 as its next id: only its header is written. */
  method LostImage(enc: Encoder)
    returns (ok: bool, ghost header: Header, ghost body: seq<Byte>, ghost history: L.History)
    requires LimitOk(enc.maxCopy) && TableFits(enc.htab, S.INIT_IMAGE_SEGS_NUM)
    modifies enc`out, enc`lastCopy, enc`clock, enc`log, enc`known, enc.htab
    ensures ok && header.id == UINT32 && body == [] && header.id in history && history[header.id].pic != []
    ensures var sent := history[header.id];
            !Decodable(sent.kind, enc.maxCopy, RecentSent(history, sent.kind, header.id, header.headDist), header.id,
                       sent.pic, body)
  {
    hide D.Inv;
    var dict := new S.SharedDictionary(1024, 1, UINT32);
    var chunks := [S.Chunk([Pixel(0, 0, 0, 0)], 1)];
    assert chunks[..0] == [] && S.LineCount(chunks[..0]) == 0 && S.LineCount(chunks) == S.LineCount(chunks[..0]) + 1;
    SomePixels(chunks, 1, 1);
    ok, header, body := Encode(enc, dict, 0, RGB32, 1, 1, 4, chunks, 0, 0, 0);
    history := dict.history;
  }

  // ----- A decoder that replays the images in the order of their ids -----

  /** An image as it arrives: its type, announced distance, size in pixel cells, and bytes. */
  datatype Frame = Frame(kind: ImageType, headDist: nat, size: nat, body: seq<Byte>)

  /** The images that the announced distance tells the decoder to keep. */
  function Keep(win: Window, id: nat, headDist: nat): Window {
    map j | j in win && id - j <= headDist :: win[j]
  }

  /** Decodes the first `n` images; every image sees only those that its distance reaches. */
  function Replay(frames: seq<Frame>, first: nat, maxCopy: nat, n: nat): Option<Window>
    requires n <= |frames|
  {
    if n == 0 then Some(map[])
    else match Replay(frames, first, maxCopy, n - 1)
         case None => None
         case Some(win) =>
           var f, id := frames[n - 1], first + n - 1;
           match DecodeImage(f.kind, maxCopy, Keep(win, id, f.headDist), id, f.body, f.size)
           case None => None
           case Some((pic, _)) => Some(win[id := pic])
  }

  /** The frame is what Encode promises for the image of this id. */
  ghost predicate FrameOk(f: Frame, id: nat, maxCopy: nat, history: L.History) {
    && id in history && history[id].kind == f.kind && |history[id].pic| == f.size
    && Decodable(f.kind, maxCopy, RecentSent(history, f.kind, id, f.headDist), id, history[id].pic, f.body)
  }

  /** Images sent later change nothing for a frame. */
  lemma LaterImages(f: Frame, id: nat, maxCopy: nat, history: L.History, later: L.History)
    requires FrameOk(f, id, maxCopy, history)
    requires forall j :: 0 <= j <= id ==> (j in later <==> j in history) && (j in history ==> later[j] == history[j])
    ensures FrameOk(f, id, maxCopy, later)
  {
    assert RecentSent(later, f.kind, id, f.headDist) == RecentSent(history, f.kind, id, f.headDist);
  }

  /** The first `n` frames are those of the ids from `first` on. */
  ghost predicate FramesOk(frames: seq<Frame>, first: nat, maxCopy: nat, history: L.History, n: nat)
    requires n <= |frames|
  {
    n > 0 ==> FramesOk(frames, first, maxCopy, history, n - 1)
              && FrameOk(frames[n - 1], first + n - 1, maxCopy, history)
  }

  /** The decoder has a picture like the original for every image before `end`. */
  ghost predicate Shown(win: Window, history: L.History, end: nat) {
    forall j :: j in history && j < end ==> j in win && Looks(history[j].kind, win[j], history[j].pic)
  }

  /** One more call of Encode continues a good sequence of frames. */
  lemma {:induction false} NextFrame(frames: seq<Frame>, first: nat, maxCopy: nat, history: L.History, kind: ImageType,
                                     header: Header, pic: seq<Pixel>, body: seq<Byte>)
    requires FramesOk(frames, first, maxCopy, history, |frames|) && header.id == first + |frames| < UINT32
    requires Encoded(kind, maxCopy, history[header.id := L.Sent(kind, pic)], header, pic, body)
    ensures FramesOk(frames + [Frame(kind, header.headDist, |pic|, body)], first, maxCopy,
                     history[header.id := L.Sent(kind, pic)], |frames| + 1)
  {
    var more, later := frames + [Frame(kind, header.headDist, |pic|, body)], history[header.id := L.Sent(kind, pic)];
    FramesStay(frames, more, first, maxCopy, history, later, |frames|);
    assert FrameOk(more[|frames|], header.id, maxCopy, later);
  }

  lemma {:induction false} FramesStay(frames: seq<Frame>, more: seq<Frame>, first: nat, maxCopy: nat,
                                      history: L.History, later: L.History, n: nat)
    requires n <= |frames| <= |more| && frames == more[..|frames|] && FramesOk(frames, first, maxCopy, history, n)
    requires forall j :: 0 <= j < first + |frames| ==>
                           (j in later <==> j in history) && (j in history ==> later[j] == history[j])
    ensures FramesOk(more, first, maxCopy, later, n)
    decreases n
  {
    if n > 0 {
      FramesStay(frames, more, first, maxCopy, history, later, n - 1);
      LaterImages(frames[n - 1], first + n - 1, maxCopy, history, later);
    }
  }

  /** Decoding the frames in the order of their ids gives every picture back. */
  lemma {:induction false} ReplayShowsAll(frames: seq<Frame>, first: nat, maxCopy: nat, history: L.History, n: nat)
    requires n <= |frames| && FramesOk(frames, first, maxCopy, history, n)
    requires forall id :: id in history ==> first <= id
    ensures var r := Replay(frames, first, maxCopy, n); r.Some? && Shown(r.value, history, first + n)
  {
    if n > 0 {
      ReplayShowsAll(frames, first, maxCopy, history, n - 1);
      var win, f, id := Replay(frames, first, maxCopy, n - 1).value, frames[n - 1], first + n - 1;
      var pic, rest := NextShows(f, id, maxCopy, history, win);
      ReplayOne(frames, first, maxCopy, n, win, pic, rest);
      ShownOneMore(win, history, id, pic);
    }
  }

  lemma ReplayOne(frames: seq<Frame>, first: nat, maxCopy: nat, n: nat, win: Window, pic: seq<Pixel>, rest: seq<Byte>)
    requires 0 < n <= |frames| && Replay(frames, first, maxCopy, n - 1) == Some(win)
    requires var f, id := frames[n - 1], first + n - 1;
             DecodeImage(f.kind, maxCopy, Keep(win, id, f.headDist), id, f.body, f.size) == Some((pic, rest))
    ensures Replay(frames, first, maxCopy, n) == Some(win[first + n - 1 := pic])
  {
  }

  lemma ShownOneMore(win: Window, history: L.History, id: nat, pic: seq<Pixel>)
    requires Shown(win, history, id) && id in history && Looks(history[id].kind, pic, history[id].pic)
    ensures Shown(win[id := pic], history, id + 1)
  {
  }

  lemma NextShows(f: Frame, id: nat, maxCopy: nat, history: L.History, win: Window)
    returns (pic: seq<Pixel>, rest: seq<Byte>)
    requires FrameOk(f, id, maxCopy, history) && Shown(win, history, id)
    ensures DecodeImage(f.kind, maxCopy, Keep(win, id, f.headDist), id, f.body, f.size) == Some((pic, rest))
    ensures Looks(f.kind, pic, history[id].pic)
  {
    var kept := Keep(win, id, f.headDist);
    assert HasAll(f.kind, kept, RecentSent(history, f.kind, id, f.headDist));
    assert DecodesTo(f.kind, maxCopy, kept, id, history[id].pic, f.body, []);
    assert f.body + [] == f.body;
    var r := DecodeImage(f.kind, maxCopy, kept, id, f.body, f.size).value;
    pic, rest := r.0, r.1;
  }

  // ----- A client that drops what it is told to -----

  /** The pictures that the client still holds, and all that it has shown. */
  datatype Client = Client(held: Window, shown: Window)

  /** Decodes the first `n` images; with each one the client drops what its distance does not reach. */
  function Play(frames: seq<Frame>, first: nat, maxCopy: nat, n: nat): Option<Client>
    requires n <= |frames|
  {
    if n == 0 then Some(Client(map[], map[]))
    else match Play(frames, first, maxCopy, n - 1)
         case None => None
         case Some(client) =>
           var f, id := frames[n - 1], first + n - 1;
           var held := Keep(client.held, id, f.headDist);
           match DecodeImage(f.kind, maxCopy, held, id, f.body, f.size)
           case None => None
           case Some((pic, _)) => Some(Client(held[id := pic], client.shown[id := pic]))
  }

  /** No image announces what lies before the head of the image before it. */
  ghost predicate GoesOn(frames: seq<Frame>, n: nat)
    requires n <= |frames|
  {
    forall i, j :: 0 <= i < n && 0 <= j < n && j == i + 1 ==> frames[j].headDist <= frames[i].headDist + 1
  }

  lemma KeepNarrows(win: Window, id: nat, far: nat, near: nat)
    requires near <= far
    ensures Keep(Keep(win, id, far), id, near) == Keep(win, id, near)
  {
  }

  lemma KeepNext(win: Window, id: nat, headDist: nat, pic: seq<Pixel>)
    ensures Keep(win, id, headDist)[id := pic] == Keep(win[id := pic], id + 1, headDist + 1)
  {
  }

  /** What a client holds that has shown the pictures `win`: those that the newest image reaches. */
  ghost predicate Holds(client: Client, win: Window, frames: seq<Frame>, first: nat, n: nat)
    requires n <= |frames|
  {
    && client.shown == win
    && client.held == if n == 0 then win else Keep(win, first + n, frames[n - 1].headDist + 1)
  }

  /** Where no head goes back, dropping makes no difference to what is shown. */
  lemma {:induction false} PlayIsReplay(frames: seq<Frame>, first: nat, maxCopy: nat, n: nat)
    requires n <= |frames| && GoesOn(frames, n)
    ensures var c, r := Play(frames, first, maxCopy, n), Replay(frames, first, maxCopy, n);
            && c.Some? == r.Some?
            && (c.Some? ==> Holds(c.value, r.value, frames, first, n))
  {
    if n > 0 {
      PlayIsReplay(frames, first, maxCopy, n - 1);
      var c, r := Play(frames, first, maxCopy, n - 1), Replay(frames, first, maxCopy, n - 1);
      if r.Some? {
        PlayOne(frames, first, maxCopy, n, c.value, r.value);
      }
    }
  }

  lemma PlayOne(frames: seq<Frame>, first: nat, maxCopy: nat, n: nat, client: Client, win: Window)
    requires 0 < n <= |frames| && GoesOn(frames, n)
    requires Play(frames, first, maxCopy, n - 1) == Some(client) && Replay(frames, first, maxCopy, n - 1) == Some(win)
    requires Holds(client, win, frames, first, n - 1)
    ensures var c, r := Play(frames, first, maxCopy, n), Replay(frames, first, maxCopy, n);
            c.Some? == r.Some? && (c.Some? ==> Holds(c.value, r.value, frames, first, n))
  {
    hide DecodeImage;
    var f, id := frames[n - 1], first + n - 1;
    if n > 1 {
      KeepNarrows(win, id, frames[n - 2].headDist + 1, f.headDist);
    }
    assert Keep(client.held, id, f.headDist) == Keep(win, id, f.headDist);
    match DecodeImage(f.kind, maxCopy, Keep(win, id, f.headDist), id, f.body, f.size)
    case None =>
    case Some((pic, _)) =>
      KeepNext(win, id, f.headDist, pic);
  }

  /** Such a client shows every picture. */
  lemma PlayShowsAll(frames: seq<Frame>, first: nat, maxCopy: nat, history: L.History, n: nat)
    requires n <= |frames| && FramesOk(frames, first, maxCopy, history, n) && GoesOn(frames, n)
    requires forall id :: id in history ==> first <= id
    ensures var c := Play(frames, first, maxCopy, n); c.Some? && Shown(c.value.shown, history, first + n)
  {
    hide Shown;
    ReplayShowsAll(frames, first, maxCopy, history, n);
    PlayIsReplay(frames, first, maxCopy, n);
  }

  /** Frame `i` is what some encoder has written in state `when[i]` of the run or before. */
  ghost predicate SentDuring(worlds: seq<S.World>, frames: seq<Frame>, when: seq<nat>, first: nat, maxCopy: nat) {
    && |when| == |frames|
    && forall i :: 0 <= i < |when| ==>
                     && when[i] < |worlds| && first + i < worlds[when[i]].lastId
                     && FrameOk(frames[i], first + i, maxCopy, worlds[when[i]].history)
  }

  lemma {:induction false} FramesOfRun(worlds: seq<S.World>, frames: seq<Frame>, when: seq<nat>, first: nat,
                                       maxCopy: nat, n: nat)
    requires R.IsRun(worlds) && SentDuring(worlds, frames, when, first, maxCopy) && n <= |frames|
    ensures FramesOk(frames, first, maxCopy, worlds[|worlds| - 1].history, n)
    decreases n
  {
    hide S.DictionaryOk;
    if n > 0 {
      FramesOfRun(worlds, frames, when, first, maxCopy, n - 1);
      var state := worlds[when[n - 1]];
      R.RunRemembers(worlds, when[n - 1], |worlds| - 1);
      LaterImages(frames[n - 1], first + n - 1, maxCopy, state.history, worlds[|worlds| - 1].history);
    }
  }

  /**
   Any number of encoders work on one dictionary, their steps interleaved in any
   way. Decoding what they wrote in the order of the image ids gives every picture
   back, whenever each of them looked at the dictionary.
   */
  lemma InterleavedShowsAll(worlds: seq<S.World>, frames: seq<Frame>, when: seq<nat>, maxCopy: nat)
    requires R.IsRun(worlds) && worlds[0].history == map[]
    requires SentDuring(worlds, frames, when, worlds[0].lastId, maxCopy)
    ensures var r, last := Replay(frames, worlds[0].lastId, maxCopy, |frames|), worlds[|worlds| - 1];
            r.Some? && Shown(r.value, last.history, worlds[0].lastId + |frames|)
  {
    hide S.DictionaryOk;
    FramesOfRun(worlds, frames, when, worlds[0].lastId, maxCopy, |frames|);
    R.RunRemembers(worlds, 0, |worlds| - 1);
    ReplayShowsAll(frames, worlds[0].lastId, maxCopy, worlds[|worlds| - 1].history, |frames|);
  }

  /** Frame `i` announces the head that the pre-encode of its image found, in state `pre[i]` of the run. */
  ghost predicate AnnouncedIn(worlds: seq<S.World>, frames: seq<Frame>, first: nat, pre: seq<nat>, heads: seq<nat>) {
    && |pre| == |heads| == |frames|
    && forall i :: 0 <= i < |pre| ==> Announces(worlds, frames[i], first + i, pre[i], heads[i])
  }

  ghost predicate Announces(worlds: seq<S.World>, f: Frame, id: nat, p: nat, h: nat) {
    && p + 1 < |worlds| && worlds[p].lastId == id && R.Heads(worlds[p], worlds[p + 1], h)
    && worlds[p + 1].lastId == id + 1 && h + f.headDist == |worlds[p + 1].s.imgs| - 1
  }

  /** Each window is within its limit, unless nobody was at work when the window before it was given. */
  ghost predicate Roomy(worlds: seq<S.World>, pre: seq<nat>, heads: seq<nat>)
    requires |pre| == |heads|
  {
    forall i, j :: 0 <= i < |pre| && 0 <= j < |pre| && j == i + 1 && pre[i] < |worlds| && pre[j] + 1 < |worlds| ==>
                     !S.Busy(worlds[pre[i]].w) || R.WithinLimit(worlds[pre[j] + 1], heads[j])
  }

  lemma NextGoesOn(worlds: seq<S.World>, f: Frame, g: Frame, id: nat, p: nat, h: nat, q: nat, h': nat)
    requires R.IsRun(worlds) && Announces(worlds, f, id, p, h) && Announces(worlds, g, id + 1, q, h')
    requires !S.Busy(worlds[p].w) || R.WithinLimit(worlds[q + 1], h')
    ensures g.headDist <= f.headDist + 1
  {
    hide S.DictionaryOk, R.Heads;
    if q <= p {
      R.RunRemembers(worlds, q, p);
    } else {
      R.HeadsGoOn(worlds, p, h, q, h');
    }
  }

  /**
   The same for a client that drops what lies before each announced head: it still
   shows every picture, as long as the windows are within their limit.
   */
  lemma InterleavedPlays(worlds: seq<S.World>, frames: seq<Frame>, when: seq<nat>, maxCopy: nat, pre: seq<nat>,
                         heads: seq<nat>)
    requires R.IsRun(worlds) && worlds[0].history == map[]
    requires SentDuring(worlds, frames, when, worlds[0].lastId, maxCopy)
    requires AnnouncedIn(worlds, frames, worlds[0].lastId, pre, heads) && Roomy(worlds, pre, heads)
    ensures var c, last := Play(frames, worlds[0].lastId, maxCopy, |frames|), worlds[|worlds| - 1];
            c.Some? && Shown(c.value.shown, last.history, worlds[0].lastId + |frames|)
  {
    hide S.DictionaryOk, Announces, FrameOk, Shown;
    var first := worlds[0].lastId;
    forall i, j | 0 <= i < |frames| && 0 <= j < |frames| && j == i + 1
      ensures frames[j].headDist <= frames[i].headDist + 1
    {
      GoesOnAt(worlds, frames, first, pre, heads, i);
    }
    FramesOfRun(worlds, frames, when, first, maxCopy, |frames|);
    R.RunRemembers(worlds, 0, |worlds| - 1);
    PlayShowsAll(frames, first, maxCopy, worlds[|worlds| - 1].history, |frames|);
  }

  lemma GoesOnAt(worlds: seq<S.World>, frames: seq<Frame>, first: nat, pre: seq<nat>, heads: seq<nat>, i: nat)
    requires R.IsRun(worlds) && AnnouncedIn(worlds, frames, first, pre, heads) && Roomy(worlds, pre, heads)
    requires i + 1 < |frames|
    ensures frames[i + 1].headDist <= frames[i].headDist + 1
  {
    hide S.DictionaryOk, R.Heads, R.IsRun;
    assert Announces(worlds, frames[i + 1], first + (i + 1), pre[i + 1], heads[i + 1]);
    NextGoesOn(worlds, frames[i], frames[i + 1], first + i, pre[i], heads[i], pre[i + 1], heads[i + 1]);
  }

  /** In a run of images that are wholly counted and sums that do not wrap around, every window is within its limit. */
  lemma CountedIsRoomy(worlds: seq<S.World>, frames: seq<Frame>, first: nat, pre: seq<nat>, heads: seq<nat>)
    requires R.IsRun(worlds) && AnnouncedIn(worlds, frames, first, pre, heads) && R.AllCounted(worlds[0])
    requires forall i :: 0 <= i < |worlds| ==> R.NewestCounted(worlds[i])
    requires forall i, j :: 0 <= i < |worlds| && 0 <= j < |worlds| && j == i + 1 ==> R.Unwrapped(worlds[i], worlds[j])
    ensures Roomy(worlds, pre, heads)
  {
    hide S.DictionaryOk, R.IsRun, R.Heads, R.AllCounted, R.NewestCounted, R.Unwrapped, R.WithinLimit;
    forall j | 0 <= j < |pre|
      ensures R.WithinLimit(worlds[pre[j] + 1], heads[j])
    {
      assert Announces(worlds, frames[j], first + j, pre[j], heads[j]);
      R.RunCounted(worlds, pre[j]);
      R.CountedWithin(worlds[pre[j]], worlds[pre[j] + 1], heads[j]);
    }
  }

  /** An encoder that is at work in the rest of a run announces the head that it got. */
  lemma AnnouncedDuring(worlds: seq<S.World>, p: nat, at: nat -> nat, e: nat, kind: ImageType, pic: seq<Pixel>, h: nat,
                        dist: nat, cur: nat, seen: nat -> View, body: seq<Byte>)
    requires R.IsRun(worlds) && p + 1 < |worlds|
    requires AtWorkIn(worlds[p], worlds[p + 1..], at, e, L.Sent(kind, pic), h, dist, cur, seen)
    ensures Announces(worlds, Frame(kind, dist, |pic|, body), worlds[p].lastId, p, h)
  {
    hide S.DictionaryOk;
    assert worlds[p + 1..][0] == worlds[p + 1];
  }

  // ----- Calls of glz_encode one after the other -----

  /** An image as it is given to glz_encode. */
  datatype ImageIn = ImageIn(kind: ImageType, width: nat, height: nat, stride: nat, chunks: seq<S.Chunk>,
                             typeByte: Byte)

  ghost predicate Usable(im: ImageIn) {
    var row := RowCells(im.kind, im.width, im.stride);
    && im.width < UINT32 && im.height < UINT32 && im.stride < UINT32
    && S.ChunksOk(im.chunks, row, im.height) && S.Countable(im.kind, row, im.height, im.chunks)
  }

  predicate Accepts(im: ImageIn, limit: nat) {
    && StrideOk(im.kind, im.width, im.stride)
    && S.PixelsNum(im.kind, RowCells(im.kind, im.width, im.stride), im.height) <= limit
  }

  /** Those of the first `k` images that do not make glz_encode fail. */
  ghost function Accepted(images: seq<ImageIn>, limit: nat, k: nat): seq<ImageIn>
    requires k <= |images|
  {
    if k == 0 then []
    else Accepted(images, limit, k - 1) + (if Accepts(images[k - 1], limit) then [images[k - 1]] else [])
  }

  /** The segments that the first `k` images need. */
  ghost function Segments(images: seq<ImageIn>, k: nat): nat
    requires k <= |images|
  {
    if k == 0 then 0 else Segments(images, k - 1) + |images[k - 1].chunks|
  }

  /** The accepted images were sent under the ids from `first` on. */
  ghost predicate SentInOrder(sent: seq<ImageIn>, first: nat, history: L.History) {
    forall i :: 0 <= i < |sent| ==> SentAs(sent[i], first + i, history)
  }

  ghost predicate SentAs(im: ImageIn, id: nat, history: L.History) {
    id in history && history[id] == L.Sent(im.kind, S.Lines(im.chunks))
  }

  lemma SentMore(sent: seq<ImageIn>, first: nat, history: L.History, im: ImageIn)
    requires SentInOrder(sent, first, history)
    ensures SentInOrder(sent + [im], first, history[first + |sent| := L.Sent(im.kind, S.Lines(im.chunks))])
  {
    var more, later := sent + [im], history[first + |sent| := L.Sent(im.kind, S.Lines(im.chunks))];
    forall i | 0 <= i < |more|
      ensures SentAs(more[i], first + i, later)
    {
      if i < |sent| {
        assert SentAs(sent[i], first + i, history);
      }
    }
  }

  /** What glz_encode has written for some images. */
  ghost function Stream(headers: seq<Header>, frames: seq<Frame>, n: nat): seq<Byte>
    requires n <= |headers| && n <= |frames|
  {
    if n == 0 then [] else Stream(headers, frames, n - 1) + (HeaderBytes(headers[n - 1]) + frames[n - 1].body)
  }

  lemma {:induction false} StreamMore(headers: seq<Header>, frames: seq<Frame>, header: Header, frame: Frame, n: nat)
    requires n <= |headers| == |frames|
    ensures Stream(headers + [header], frames + [frame], n) == Stream(headers, frames, n)
    decreases n
  {
    if n > 0 {
      StreamMore(headers, frames, header, frame, n - 1);
    }
  }

  /** The output and the dictionary after the first `k` images, as values. */
  ghost predicate Progress(images: seq<ImageIn>, k: nat, limit: nat, first: nat, maxCopy: nat, d: S.World,
                           out: seq<Byte>, prefix: seq<Byte>, headers: seq<Header>, frames: seq<Frame>) {
    && k <= |images| && |headers| == |frames| == |Accepted(images, limit, k)| && d.lastId == first + |frames|
    && d.w.sizeLimit == limit && d.w.encodersHeads != []
    && (forall e :: 0 <= e < |d.w.encodersHeads| ==> d.w.encodersHeads[e].None?)
    && (forall id :: id in d.history ==> first <= id)
    && |d.s.used| <= Segments(images, k)
    && GoesOn(frames, |frames|) && (frames != [] ==> frames[|frames| - 1].headDist == |d.s.imgs| - 1)
    && FramesOk(frames, first, maxCopy, d.history, |frames|)
    && SentInOrder(Accepted(images, limit, k), first, d.history)
    && out == prefix + Stream(headers, frames, |frames|)
  }

  lemma ProgressFails(images: seq<ImageIn>, k: nat, limit: nat, first: nat, maxCopy: nat, d: S.World, out: seq<Byte>,
                      prefix: seq<Byte>, headers: seq<Header>, frames: seq<Frame>)
    requires Progress(images, k, limit, first, maxCopy, d, out, prefix, headers, frames) && k < |images|
    requires !Accepts(images[k], limit)
    ensures Progress(images, k + 1, limit, first, maxCopy, d, out, prefix, headers, frames)
  {
    var sent := Accepted(images, limit, k);
    assert sent + [] == sent;
  }

  lemma GoesOnMore(frames: seq<Frame>, frame: Frame)
    requires GoesOn(frames, |frames|) && (frames != [] ==> frame.headDist <= frames[|frames| - 1].headDist + 1)
    ensures GoesOn(frames + [frame], |frames| + 1)
  {
  }

  lemma StreamNext(prefix: seq<Byte>, headers: seq<Header>, frames: seq<Frame>, header: Header, frame: Frame)
    requires |headers| == |frames|
    ensures prefix + Stream(headers + [header], frames + [frame], |frames| + 1)
         == prefix + Stream(headers, frames, |frames|) + HeaderBytes(header) + frame.body
  {
    hide HeaderBytes;
    StreamMore(headers, frames, header, frame, |frames|);
    AppendAssociates(prefix, Stream(headers, frames, |frames|), HeaderBytes(header) + frame.body);
    AppendAssociates(prefix + Stream(headers, frames, |frames|), HeaderBytes(header), frame.body);
  }

  lemma ProgressMore(images: seq<ImageIn>, k: nat, limit: nat, first: nat, maxCopy: nat, a: S.World, b: S.World,
                     out: seq<Byte>, prefix: seq<Byte>, headers: seq<Header>, frames: seq<Frame>, header: Header,
                     body: seq<Byte>)
    requires Progress(images, k, limit, first, maxCopy, a, out, prefix, headers, frames) && k < |images|
    requires Accepts(images[k], limit) && header.id == a.lastId < UINT32 && b.lastId == a.lastId + 1
    requires b.w.sizeLimit == limit && b.w.encodersHeads == a.w.encodersHeads
    requires |b.s.used| <= |a.s.used| + |images[k].chunks|
    requires header.headDist == |b.s.imgs| - 1 <= |a.s.imgs|
    requires var pic := S.Lines(images[k].chunks);
             && b.history == a.history[header.id := L.Sent(images[k].kind, pic)]
             && Encoded(images[k].kind, maxCopy, b.history, header, pic, body)
    ensures var frame := Frame(images[k].kind, header.headDist, |S.Lines(images[k].chunks)|, body);
            Progress(images, k + 1, limit, first, maxCopy, b, out + HeaderBytes(header) + body, prefix,
                     headers + [header], frames + [frame])
  {
    hide Encoded, HeaderBytes, FramesOk, GoesOn, SentInOrder, Stream;
    var pic := S.Lines(images[k].chunks);
    var frame := Frame(images[k].kind, header.headDist, |pic|, body);
    NextFrame(frames, first, maxCopy, a.history, images[k].kind, header, pic, body);
    SentMore(Accepted(images, limit, k), first, a.history, images[k]);
    StreamNext(prefix, headers, frames, header, frame);
    GoesOnMore(frames, frame);
  }

  lemma ProgressStart(images: seq<ImageIn>, d: S.World, maxCopy: nat, out: seq<Byte>)
    requires d.history == map[] && d.s.used == [] && d.w.encodersHeads != []
    requires forall e :: 0 <= e < |d.w.encodersHeads| ==> d.w.encodersHeads[e].None?
    ensures Progress(images, 0, d.w.sizeLimit, d.lastId, maxCopy, d, out, out, [], [])
  {
    assert out + [] == out;
  }

  lemma ProgressEnd(images: seq<ImageIn>, limit: nat, first: nat, maxCopy: nat, d: S.World, out: seq<Byte>,
                    prefix: seq<Byte>, headers: seq<Header>, frames: seq<Frame>)
    requires Progress(images, |images|, limit, first, maxCopy, d, out, prefix, headers, frames)
    ensures |headers| == |frames| == |Accepted(images, limit, |images|)|
    ensures out == prefix + Stream(headers, frames, |frames|)
    ensures SentInOrder(Accepted(images, limit, |images|), first, d.history)
    ensures var r := Replay(frames, first, maxCopy, |frames|); r.Some? && Shown(r.value, d.history, first + |frames|)
    ensures var c := Play(frames, first, maxCopy, |frames|);
            c.Some? && Shown(c.value.shown, d.history, first + |frames|)
  {
    hide Shown, FramesOk, GoesOn, Replay, Play, Stream, Accepted, SentInOrder;
    ReplayShowsAll(frames, first, maxCopy, d.history, |frames|);
    PlayShowsAll(frames, first, maxCopy, d.history, |frames|);
  }

  /** One more call. */
  method EncodeNext(enc: Encoder, dict: S.SharedDictionary, images: seq<ImageIn>, k: nat, magic: nat, version: nat,
                    ghost first: nat, ghost prefix: seq<Byte>, ghost headers: seq<Header>, ghost frames: seq<Frame>)
    returns (ghost headers': seq<Header>, ghost frames': seq<Frame>)
    requires dict.Valid() && LimitOk(enc.maxCopy) && TableFits(enc.htab, |dict.window.segs|)
    requires magic < UINT32 && version < UINT32 && k < |images| && Usable(images[k])
    requires Progress(images, k, dict.window.sizeLimit, first, enc.maxCopy, dict.State(), enc.out, prefix, headers,
                      frames)
    requires dict.lastImageId < UINT32 && Segments(images, k + 1) <= S.LAST_QUOTA
    modifies enc`out, enc`lastCopy, enc`clock, enc`log, enc`known, enc.htab, dict
    ensures dict.Valid() && TableFits(enc.htab, |dict.window.segs|)
    ensures dict.window.sizeLimit == old(dict.window.sizeLimit)
    ensures dict.lastImageId <= old(dict.lastImageId) + 1
    ensures Progress(images, k + 1, dict.window.sizeLimit, first, enc.maxCopy, dict.State(), enc.out, prefix, headers',
                     frames')
  {
    var im := images[k];
    ghost var a, out, limit := dict.State(), enc.out, dict.window.sizeLimit;
    headers', frames' := headers, frames;
    var ok;
    ghost var header, body;
    ok, header, body :=
      Encode(enc, dict, 0, im.kind, im.width, im.height, im.stride, im.chunks, magic, version, im.typeByte);
    if ok {
      ProgressMore(images, k, limit, first, enc.maxCopy, a, dict.State(), out, prefix, headers, frames, header, body);
      headers', frames' := headers + [header],
                           frames + [Frame(im.kind, header.headDist, |S.Lines(im.chunks)|, body)];
    } else {
      ProgressFails(images, k, limit, first, enc.maxCopy, a, out, prefix, headers, frames);
    }
  }

  /**
   Any number of images, one call of glz_encode for each, on a dictionary that is new
   or restored: replaying what was written gives back every image that was accepted.
   */
  method EncodeAll(enc: Encoder, dict: S.SharedDictionary, images: seq<ImageIn>, magic: nat, version: nat)
    returns (ghost headers: seq<Header>, ghost frames: seq<Frame>)
    requires dict.Valid() && LimitOk(enc.maxCopy) && TableFits(enc.htab, |dict.window.segs|)
    requires dict.history == map[] && dict.shape.used == [] && dict.Idle() && dict.window.encodersHeads != []
    requires magic < UINT32 && version < UINT32 && forall i :: 0 <= i < |images| ==> Usable(images[i])
    requires Segments(images, |images|) <= S.LAST_QUOTA && dict.lastImageId + |images| <= UINT32
    modifies enc`out, enc`lastCopy, enc`clock, enc`log, enc`known, enc.htab, dict
    ensures dict.Valid() && |headers| == |frames|
    ensures enc.out == old(enc.out) + Stream(headers, frames, |frames|)
    ensures var first, sent := old(dict.lastImageId), Accepted(images, old(dict.window.sizeLimit), |images|);
            var r := Replay(frames, first, enc.maxCopy, |frames|);
            && |frames| == |sent| && SentInOrder(sent, first, dict.history)
            && r.Some? && Shown(r.value, dict.history, first + |frames|)
    ensures var c := Play(frames, old(dict.lastImageId), enc.maxCopy, |frames|);
            c.Some? && Shown(c.value.shown, dict.history, old(dict.lastImageId) + |frames|)
  {
    hide S.DictionaryOk, Progress, Shown, SentInOrder, Replay, Play;
    ghost var first, prefix := dict.lastImageId, enc.out;
    headers, frames := [], [];
    ProgressStart(images, dict.State(), enc.maxCopy, enc.out);
    var k := 0;
    while k < |images|
      invariant k <= |images| && dict.Valid() && TableFits(enc.htab, |dict.window.segs|)
      invariant dict.window.sizeLimit == old(dict.window.sizeLimit) && dict.lastImageId <= first + k
      invariant Progress(images, k, dict.window.sizeLimit, first, enc.maxCopy, dict.State(), enc.out, prefix, headers,
                         frames)
    {
      SegmentsGrow(images, k + 1);
      headers, frames := EncodeNext(enc, dict, images, k, magic, version, first, prefix, headers, frames);
      k := k + 1;
    }
    ProgressEnd(images, dict.window.sizeLimit, first, enc.maxCopy, dict.State(), enc.out, prefix, headers, frames);
  }

  lemma {:induction false} SegmentsGrow(images: seq<ImageIn>, k: nat)
    requires k <= |images|
    ensures Segments(images, k) <= Segments(images, |images|)
    decreases |images| - k
  {
    if k < |images| {
      SegmentsGrow(images, k + 1);
    }
  }

  /** An encoder that worked during a run gives a frame of that run. */
  lemma EncodedDuring(worlds: seq<S.World>, i: nat, kind: ImageType, maxCopy: nat, header: Header, pic: seq<Pixel>,
                      body: seq<Byte>)
    requires R.IsRun(worlds) && i < |worlds| && header.id < UINT32
    requires Encoded(kind, maxCopy, worlds[i].history, header, pic, body)
    ensures header.id < worlds[i].lastId
    ensures FrameOk(Frame(kind, header.headDist, |pic|, body), header.id, maxCopy, worlds[i].history)
  {
    R.RunRemembers(worlds, i, i);
  }
}
