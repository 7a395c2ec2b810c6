/**
 The GLZ stream format for the five pixel layouts: literal runs and references.
 The decoder is a specification written from the format; it reads a given number
 of pixels and says what is left of the stream.
 */
module GlzFormat {
  import opened Basics
  import opened GlzMatch

  /** The five instances of the encoder template. */
  datatype Layout = Plt | Rgb16 | Rgb24 | Rgb32 | Alpha

  /**
   The memory of one pixel. Plt uses `c0`; Rgb16 is `c1 * 256 + c0`; the others
   are blue, green, red and pad.
   */
  datatype Pixel = Pixel(c0: Byte, c1: Byte, c2: Byte, c3: Byte)

  /** SAME_PIXEL. */
  predicate Same(k: Layout, p: Pixel, q: Pixel) {
    match k
    case Plt => p.c0 == q.c0
    case Rgb16 => p.c0 == q.c0 && p.c1 % 128 == q.c1 % 128
    case Rgb24 => p.c0 == q.c0 && p.c1 == q.c1 && p.c2 == q.c2
    case Rgb32 => p.c0 == q.c0 && p.c1 == q.c1 && p.c2 == q.c2
    case Alpha => p.c3 == q.c3
  }

  /** ENCODE_PIXEL. */
  function PixelBytes(k: Layout, p: Pixel): (r: seq<Byte>)
    ensures |r| == PixelSize(k)
  {
    match k
    case Plt => [p.c0]
    case Rgb16 => [p.c1, p.c0]
    case Rgb24 => [p.c0, p.c1, p.c2]
    case Rgb32 => [p.c0, p.c1, p.c2]
    case Alpha => [p.c3]
  }

  function PixelSize(k: Layout): nat {
    match k
    case Plt => 1
    case Rgb16 => 2
    case Rgb24 => 3
    case Rgb32 => 3
    case Alpha => 1
  }

  function PixelOf(k: Layout, bs: seq<Byte>): Pixel
    requires |bs| >= PixelSize(k)
  {
    match k
    case Plt => Pixel(bs[0], 0, 0, 0)
    case Rgb16 => Pixel(bs[1], bs[0], 0, 0)
    case Rgb24 => Pixel(bs[0], bs[1], bs[2], 0)
    case Rgb32 => Pixel(bs[0], bs[1], bs[2], 0)
    case Alpha => Pixel(0, 0, 0, bs[0])
  }

  /** The pixel that a decoder gets back for a literal. */
  function Decoded(k: Layout, p: Pixel): (q: Pixel)
    ensures Same(k, q, p)
  {
    PixelOf(k, PixelBytes(k, p))
  }

  /** A match of `n` pixels is written with length `n - LengthBias`. */
  function LengthBias(k: Layout): nat {
    match k
    case Plt => 2
    case Alpha => 2
    case Rgb16 => 1
    case Rgb24 => 0
    case Rgb32 => 0
  }

  ghost predicate AllSame(k: Layout, a: seq<Pixel>, b: seq<Pixel>) {
    |a| == |b| && forall i :: 0 <= i < |a| ==> Same(k, a[i], b[i])
  }

  /** The pixels look like those of the picture from place `at` on. */
  ghost predicate ShowsAt(k: Layout, ps: seq<Pixel>, pic: seq<Pixel>, at: nat) {
    at + |ps| <= |pic| && forall i {:trigger ps[i]} :: 0 <= i < |ps| ==> Same(k, ps[i], pic[at + i])
  }

  /** The pixels are those of the picture from place `at` on. */
  ghost predicate Part(ps: seq<Pixel>, pic: seq<Pixel>, at: nat) {
    at + |ps| <= |pic| && forall i {:trigger ps[i]} :: 0 <= i < |ps| ==> ps[i] == pic[at + i]
  }

  lemma PartOfPart(pic: seq<Pixel>, at: nat, ps: seq<Pixel>, i: nat, len: nat)
    requires Part(ps, pic, at) && i + len <= |ps|
    ensures Part(ps[i..i + len], pic, at + i)
  {
  }

  // ----- Tokens -----

  datatype Token = Literal(pixels: seq<Pixel>) | Reference(ref: Ref)

  function RunBytes(k: Layout, ps: seq<Pixel>): seq<Byte> {
    if ps == [] then [] else PixelBytes(k, ps[0]) + RunBytes(k, ps[1..])
  }

  /** Literal runs hold 1 to `maxCopy` pixels, references what encode_match accepts. */
  predicate TokenOk(maxCopy: nat, t: Token) {
    match t
    case Literal(ps) => 1 <= |ps| <= maxCopy
    case Reference(r) => Encodable(r)
  }

  predicate LimitOk(maxCopy: nat) {
    3 < maxCopy <= 32
  }

  function TokenBytes(k: Layout, maxCopy: nat, t: Token): (r: seq<Byte>)
    requires LimitOk(maxCopy) && TokenOk(maxCopy, t)
    ensures |r| > 0
  {
    match t
    case Literal(ps) => [|ps| - 1] + RunBytes(k, ps)
    case Reference(r) => RefBytes(r)
  }

  /** The number of pixels that a token stands for. */
  function Width(k: Layout, t: Token): nat {
    match t
    case Literal(ps) => |ps|
    case Reference(r) => r.len + LengthBias(k)
  }

  /** The tokens of a stream, the last one outermost. */
  datatype Log = Start | Add(before: Log, token: Token)

  /** A function that writes tokens as the format asks for. */
  ghost predicate Codes(code: Token -> seq<Byte>, k: Layout, maxCopy: nat) {
    LimitOk(maxCopy) &&
    forall t {:trigger TokenBytes(k, maxCopy, t)} :: TokenOk(maxCopy, t) ==> code(t) == TokenBytes(k, maxCopy, t)
  }

  /** A prefix followed by the codes of the tokens. */
  function Written(code: Token -> seq<Byte>, prefix: seq<Byte>, log: Log): seq<Byte> {
    match log
    case Start => prefix
    case Add(before, t) => Written(code, prefix, before) + code(t)
  }

  lemma {:induction false} WrittenPrefix(code: Token -> seq<Byte>, prefix: seq<Byte>, log: Log)
    ensures Written(code, prefix, log) == prefix + Written(code, [], log)
  {
    match log
    case Start =>
    case Add(before, t) =>
      WrittenPrefix(code, prefix, before);
  }

  // ----- The decoder -----

  /** The pictures that the decoder still holds, by image id. */
  type Window = map<nat, seq<Pixel>>

  /** Appends `n` pixels, each copied from `dist` places back; the two areas may overlap. */
  function CopyBack(out: seq<Pixel>, dist: nat, n: nat): (r: seq<Pixel>)
    requires 1 <= dist <= |out|
    ensures |r| == |out| + n
    decreases n
  {
    if n == 0 then out else CopyBack(out + [out[|out| - dist]], dist, n - 1)
  }

  /** One token; `None` when a reference points outside what the decoder has. */
  function Step(k: Layout, win: Window, id: nat, out: seq<Pixel>, t: Token): Option<seq<Pixel>> {
    match t
    case Literal(ps) => Some(out + ps)
    case Reference(r) =>
      var n := r.len + LengthBias(k);
      if r.imageDist == 0 then
        if r.pixelDist + 1 > |out| then None else Some(CopyBack(out, r.pixelDist + 1, n))
      else if r.imageDist > id || id - r.imageDist !in win then None
      else
        var source := win[id - r.imageDist];
        if r.pixelDist + n > |source| then None
        else Some(out + source[r.pixelDist..r.pixelDist + n])
  }

  function ReadPixels(k: Layout, bs: seq<Byte>, n: nat): Option<(seq<Pixel>, seq<Byte>)>
    decreases n
  {
    if n == 0 then Some(([], bs))
    else if |bs| < PixelSize(k) then None
    else match ReadPixels(k, bs[PixelSize(k)..], n - 1)
         case None => None
         case Some((ps, rest)) => Some(([PixelOf(k, bs)] + ps, rest))
  }

  function ReadToken(k: Layout, maxCopy: nat, bs: seq<Byte>): Option<(Token, seq<Byte>)> {
    if bs == [] then None
    else if bs[0] < maxCopy then
      match ReadPixels(k, bs[1..], (bs[0] as int) + 1)
      case None => None
      case Some((ps, rest)) => Some((Literal(ps), rest))
    else
      match ReadRef(bs)
      case None => None
      case Some((r, rest)) => Some((Reference(r), rest))
  }

  /** Decodes until `size` pixels are there; the result also holds the unread bytes. */
  function Decode(k: Layout, maxCopy: nat, win: Window, id: nat, bs: seq<Byte>, out: seq<Pixel>, size: nat)
    : Option<(seq<Pixel>, seq<Byte>)>
    decreases |bs|
  {
    if |out| >= size then Some((out, bs))
    else match ReadToken(k, maxCopy, bs)
         case None => None
         case Some((t, rest)) =>
           if |rest| >= |bs| then None
           else match Step(k, win, id, out, t)
                case None => None
                case Some(next) => Decode(k, maxCopy, win, id, rest, next, size)
  }

  // ----- Reading back what was written -----

  function DecodedRun(k: Layout, ps: seq<Pixel>): (r: seq<Pixel>)
    ensures AllSame(k, r, ps)
  {
    seq(|ps|, i requires 0 <= i < |ps| => Decoded(k, ps[i]))
  }

  /** Literals as the decoder sees them. */
  function DecodedToken(k: Layout, t: Token): Token {
    match t
    case Literal(ps) => Literal(DecodedRun(k, ps))
    case Reference(_) => t
  }

  lemma PixelRoundTrip(k: Layout, p: Pixel, rest: seq<Byte>)
    ensures PixelOf(k, PixelBytes(k, p) + rest) == Decoded(k, p)
    ensures (PixelBytes(k, p) + rest)[PixelSize(k)..] == rest
  {
  }

  lemma ReadOnePixel(k: Layout, bs: seq<Byte>, p: Pixel, n: nat, ps: seq<Pixel>, rest: seq<Byte>)
    requires n > 0 && |bs| >= PixelSize(k) && PixelOf(k, bs) == p
    requires ReadPixels(k, bs[PixelSize(k)..], n - 1) == Some((ps, rest))
    ensures ReadPixels(k, bs, n) == Some(([p] + ps, rest))
  {
  }

  lemma DecodedRunHead(k: Layout, ps: seq<Pixel>)
    requires ps != []
    ensures DecodedRun(k, ps) == [Decoded(k, ps[0])] + DecodedRun(k, ps[1..])
  {
  }

  lemma {:induction false} PixelsRoundTrip(k: Layout, ps: seq<Pixel>, rest: seq<Byte>)
    ensures ReadPixels(k, RunBytes(k, ps) + rest, |ps|) == Some((DecodedRun(k, ps), rest))
    decreases |ps|
  {
    if ps == [] {
      assert RunBytes(k, ps) + rest == rest;
    } else {
      var first, later := PixelBytes(k, ps[0]), RunBytes(k, ps[1..]) + rest;
      AppendAssociates(first, RunBytes(k, ps[1..]), rest);
      PixelRoundTrip(k, ps[0], later);
      PixelsRoundTrip(k, ps[1..], rest);
      ReadOnePixel(k, first + later, Decoded(k, ps[0]), |ps|, DecodedRun(k, ps[1..]), rest);
      DecodedRunHead(k, ps);
    }
  }

  lemma LiteralRoundTrip(k: Layout, maxCopy: nat, ps: seq<Pixel>, rest: seq<Byte>)
    requires LimitOk(maxCopy) && 1 <= |ps| <= maxCopy
    ensures ReadToken(k, maxCopy, [|ps| - 1] + RunBytes(k, ps) + rest) == Some((Literal(DecodedRun(k, ps)), rest))
  {
    var bs := [|ps| - 1] + RunBytes(k, ps) + rest;
    assert bs[1..] == RunBytes(k, ps) + rest;
    PixelsRoundTrip(k, ps, rest);
  }

  lemma ReferenceRoundTrip(k: Layout, maxCopy: nat, bytes: seq<Byte>, r: Ref, rest: seq<Byte>)
    requires LimitOk(maxCopy) && bytes != [] && bytes[0] >= 32
    requires ReadRef(bytes + rest) == Some((r, rest))
    ensures ReadToken(k, maxCopy, bytes + rest) == Some((Reference(r), rest))
  {
  }

  lemma TokenRoundTrip(k: Layout, maxCopy: nat, t: Token, rest: seq<Byte>)
    requires LimitOk(maxCopy) && TokenOk(maxCopy, t)
    ensures ReadToken(k, maxCopy, TokenBytes(k, maxCopy, t) + rest) == Some((DecodedToken(k, t), rest))
  {
    match t
    case Literal(ps) =>
      LiteralRoundTrip(k, maxCopy, ps, rest);
    case Reference(r) =>
      RefRoundTrip(r, rest);
      ReferenceRoundTrip(k, maxCopy, RefBytes(r), r, rest);
  }

  lemma DecodeOne(k: Layout, maxCopy: nat, win: Window, id: nat, bs: seq<Byte>, out: seq<Pixel>, size: nat,
                  t: Token, rest: seq<Byte>, next: seq<Pixel>)
    requires |out| < size && |rest| < |bs|
    requires ReadToken(k, maxCopy, bs) == Some((t, rest))
    requires Step(k, win, id, out, t) == Some(next)
    ensures Decode(k, maxCopy, win, id, bs, out, size) == Decode(k, maxCopy, win, id, rest, next, size)
  {
  }

  // ----- Streams that show a picture -----

  /**
   The token stands for the pixels of the picture from `at` on: a literal has
   those pixels, and a reference leads to pixels that look like them.
   */
  ghost predicate Fits(k: Layout, win: Window, id: nat, pic: seq<Pixel>, t: Token, at: nat) {
    at + Width(k, t) <= |pic| &&
    match t
    case Literal(ps) => Part(ps, pic, at)
    case Reference(r) =>
      if r.imageDist == 0 then
        r.pixelDist < at &&
        forall i {:trigger pic[i]} :: at <= i < at + Width(k, t) ==> Same(k, pic[i - r.pixelDist - 1], pic[i])
      else
        && r.imageDist <= id && id - r.imageDist in win
        && var source := win[id - r.imageDist];
        && r.pixelDist + Width(k, t) <= |source|
        && ShowsAt(k, source[r.pixelDist..r.pixelDist + Width(k, t)], pic, at)
  }

  /** The tokens stand, one after the other, for the first `n` pixels of the picture. */
  ghost predicate Good(k: Layout, maxCopy: nat, win: Window, id: nat, pic: seq<Pixel>, log: Log, n: nat) {
    match log
    case Start => n == 0
    case Add(before, t) =>
      && TokenOk(maxCopy, t) && Width(k, t) <= n
      && Fits(k, win, id, pic, t, n - Width(k, t))
      && Good(k, maxCopy, win, id, pic, before, n - Width(k, t))
  }

  /**
   A back reference decodes correctly when the original pixels repeat at that
   distance, also where source and destination overlap.
   */
  lemma {:induction false} CopyBackShows(k: Layout, out: seq<Pixel>, dist: nat, n: nat, pic: seq<Pixel>)
    requires 1 <= dist <= |out| && |out| + n <= |pic|
    requires ShowsAt(k, out, pic, 0)
    requires forall i {:trigger pic[i]} :: |out| <= i < |out| + n ==> Same(k, pic[i - dist], pic[i])
    ensures ShowsAt(k, CopyBack(out, dist, n), pic, 0)
    decreases n
  {
    if n != 0 {
      var next := out + [out[|out| - dist]];
      assert Same(k, pic[|out| - dist], pic[|out|]);
      CopyBackShows(k, next, dist, n - 1, pic);
    }
  }

  lemma AppendShows(k: Layout, out: seq<Pixel>, more: seq<Pixel>, pic: seq<Pixel>)
    requires ShowsAt(k, out, pic, 0) && ShowsAt(k, more, pic, |out|)
    ensures ShowsAt(k, out + more, pic, 0)
  {
    var all := out + more;
    forall i {:trigger all[i]} | 0 <= i < |all|
      ensures Same(k, all[i], pic[0 + i])
    {
      if i >= |out| {
        assert all[i] == more[i - |out|];
      }
    }
  }

  /** A fitting token extends what the decoder has by the right pixels. */
  lemma StepShows(k: Layout, win: Window, id: nat, pic: seq<Pixel>, out: seq<Pixel>, t: Token)
    requires ShowsAt(k, out, pic, 0) && Fits(k, win, id, pic, t, |out|)
    ensures var s := Step(k, win, id, out, DecodedToken(k, t));
            s.Some? && |s.value| == |out| + Width(k, t) && ShowsAt(k, s.value, pic, 0)
  {
    match t
    case Literal(ps) =>
      AppendShows(k, out, DecodedRun(k, ps), pic);
    case Reference(r) =>
      if r.imageDist == 0 {
        CopyBackShows(k, out, r.pixelDist + 1, Width(k, t), pic);
      } else {
        AppendShows(k, out, win[id - r.imageDist][r.pixelDist..r.pixelDist + Width(k, t)], pic);
      }
  }

  lemma WidthPositive(k: Layout, maxCopy: nat, t: Token)
    requires TokenOk(maxCopy, t)
    ensures Width(k, t) > 0
  {
  }

  lemma FittingTokenDecodes(code: Token -> seq<Byte>, k: Layout, maxCopy: nat, win: Window, id: nat, pic: seq<Pixel>,
                            t: Token, mid: seq<Pixel>, rest: seq<Byte>, size: nat) returns (out: seq<Pixel>)
    requires Codes(code, k, maxCopy) && TokenOk(maxCopy, t)
    requires ShowsAt(k, mid, pic, 0) && Fits(k, win, id, pic, t, |mid|) && |mid| < size
    ensures |out| == |mid| + Width(k, t) && ShowsAt(k, out, pic, 0)
    ensures Decode(k, maxCopy, win, id, code(t) + rest, mid, size)
         == Decode(k, maxCopy, win, id, rest, out, size)
  {
    StepShows(k, win, id, pic, mid, t);
    TokenRoundTrip(k, maxCopy, t, rest);
    out := Step(k, win, id, mid, DecodedToken(k, t)).value;
    DecodeOne(k, maxCopy, win, id, TokenBytes(k, maxCopy, t) + rest, mid, size, DecodedToken(k, t), rest, out);
  }

  /**
   Decoding a good stream reproduces the picture up to the pixels that the
   layout tells apart, and goes on with exactly the bytes that follow.
   */
  lemma {:induction false} GoodStreamDecodes(code: Token -> seq<Byte>, k: Layout, maxCopy: nat, win: Window, id: nat,
                                             pic: seq<Pixel>, log: Log,
                                             n: nat, rest: seq<Byte>, size: nat) returns (out: seq<Pixel>)
    requires Codes(code, k, maxCopy) && Good(k, maxCopy, win, id, pic, log, n) && n <= size
    ensures |out| == n && ShowsAt(k, out, pic, 0)
    ensures Decode(k, maxCopy, win, id, Written(code, [], log) + rest, [], size)
         == Decode(k, maxCopy, win, id, rest, out, size)
    decreases log
  {
    match log
    case Start =>
      assert [] + rest == rest;
      out := [];
    case Add(before, t) =>
      WidthPositive(k, maxCopy, t);
      var mid := GoodStreamDecodes(code, k, maxCopy, win, id, pic, before, n - Width(k, t), code(t) + rest, size);
      out := FittingTokenDecodes(code, k, maxCopy, win, id, pic, t, mid, rest, size);
      AppendAssociates(Written(code, [], before), code(t), rest);
  }

  /** A run of the picture's own pixels fits. */
  lemma GoodLiteral(k: Layout, maxCopy: nat, win: Window, id: nat, pic: seq<Pixel>, log: Log, from: nat, n: nat)
    requires Good(k, maxCopy, win, id, pic, log, from) && from < n <= |pic| && n - from <= maxCopy
    ensures Good(k, maxCopy, win, id, pic, Add(log, Literal(pic[from..n])), n)
  {
    var run := pic[from..n];
    assert Part(run, pic, from);
  }

  lemma AppendFour<T>(o: seq<T>, a: seq<T>, b: seq<T>, c: seq<T>, d: seq<T>)
    ensures o + a + b + c + d == o + (a + b + c + d)
  {
  }

  lemma CountChanged<T>(done: seq<T>, count: T, run: seq<T>, other: T)
    ensures (done + [count] + run)[|done| := other] == done + ([other] + run)
  {
  }
}
