/**
 The byte format of a GLZ reference: a match length, a pixel distance and an
 image distance packed into three or more bytes. The decoder is written from
 the format; the server itself only encodes.
 */
module GlzMatch {
  import opened Basics

  const MAX_PIXEL_SHORT_DISTANCE := 4096
  const MAX_PIXEL_MEDIUM_DISTANCE := 131072
  const MAX_PIXEL_LONG_DISTANCE := 33554432
  const MAX_IMAGE_DIST := 16777215

  const SHORT_PIX_IMAGE_DIST_LEVEL_1 := 64
  const SHORT_PIX_IMAGE_DIST_LEVEL_2 := 16384
  const SHORT_PIX_IMAGE_DIST_LEVEL_3 := 4194304
  const FAR_PIX_IMAGE_DIST_LEVEL_1 := 256
  const FAR_PIX_IMAGE_DIST_LEVEL_2 := 65536

  /** A reference as the decoder sees it: lengths and distances still biased. */
  datatype Ref = Ref(imageDist: nat, pixelDist: nat, len: nat)

  /** What the encoder may pass to encode_match. */
  predicate Encodable(r: Ref) {
    r.len >= 1 && r.pixelDist < MAX_PIXEL_LONG_DISTANCE && r.imageDist <= MAX_IMAGE_DIST
  }

  // ----- Encoding -----

  /** Bytes that continue a match length of 7 or more. */
  function LengthBytes(n: nat): (r: seq<Byte>)
    ensures |r| == 1 + n / 255
  {
    if n >= 255 then [255] + LengthBytes(n - 255) else [n]
  }

  /** First byte: the short length, the long-distance bit and four distance bits. */
  function HeadByte(r: Ref): Byte
  {
    var short := if r.len < 7 then r.len else 7;
    var far := if r.pixelDist < MAX_PIXEL_SHORT_DISTANCE then 0 else 16;
    short * 32 + far + r.pixelDist % 16
  }

  /** The rest of the pixel distance, and the image distance with its control bits. */
  function DistanceBytes(r: Ref): seq<Byte>
    requires Encodable(r)
  {
    var i, p := r.imageDist, r.pixelDist;
    if p < MAX_PIXEL_SHORT_DISTANCE then
      if i < SHORT_PIX_IMAGE_DIST_LEVEL_1 then [i % 64]
      else if i < SHORT_PIX_IMAGE_DIST_LEVEL_2 then [64 + i % 64, i / 64 % 256]
      else if i < SHORT_PIX_IMAGE_DIST_LEVEL_3 then [128 + i % 64, i / 64 % 256, i / 16384 % 256]
      else [192 + i % 64, i / 64 % 256, i / 16384 % 256, i / 4194304 % 256]
    else
      var control := if p < MAX_PIXEL_MEDIUM_DISTANCE then 0 else 32;
      var code := control + p / 4096 % 32;
      var image: seq<Byte> :=
        if i == 0 then [code]
        else if i < FAR_PIX_IMAGE_DIST_LEVEL_1 then [64 + code, i % 256]
        else if i < FAR_PIX_IMAGE_DIST_LEVEL_2 then [128 + code, i % 256, i / 256 % 256]
        else [192 + code, i % 256, i / 256 % 256, i / 65536 % 256];
      if control != 0 then image + [p / 131072 % 256] else image
  }

  function RefBytes(r: Ref): (bs: seq<Byte>)
    requires Encodable(r)
  {
    [HeadByte(r)] + (if r.len < 7 then [] else LengthBytes(r.len - 7))
    + [r.pixelDist / 16 % 256] + DistanceBytes(r)
  }

  /** get_encode_ref_size: the size of a reference without its extra length bytes. */
  function EncodeRefSize(imageDist: nat, pixelDist: nat): nat {
    if pixelDist < MAX_PIXEL_SHORT_DISTANCE then
      if imageDist < SHORT_PIX_IMAGE_DIST_LEVEL_1 then 3
      else if imageDist < SHORT_PIX_IMAGE_DIST_LEVEL_2 then 4
      else if imageDist < SHORT_PIX_IMAGE_DIST_LEVEL_3 then 5
      else 6
    else
      (if imageDist == 0 then 3
       else if imageDist < FAR_PIX_IMAGE_DIST_LEVEL_1 then 4
       else if imageDist < FAR_PIX_IMAGE_DIST_LEVEL_2 then 5
       else 6)
      + (if pixelDist < MAX_PIXEL_MEDIUM_DISTANCE then 0 else 1)
  }

  // ----- Decoding -----

  /** Reads length bytes up to the first one below 255. */
  function ReadLength(bs: seq<Byte>): Option<(nat, seq<Byte>)> {
    if bs == [] then None
    else if bs[0] < 255 then Some((bs[0], bs[1..]))
    else match ReadLength(bs[1..])
         case None => None
         case Some((n, rest)) => Some((255 + n, rest))
  }

  /** A little-endian number of `n` bytes. */
  function ReadNumber(bs: seq<Byte>, n: nat): Option<(nat, seq<Byte>)> {
    if n == 0 then Some((0, bs))
    else if bs == [] then None
    else match ReadNumber(bs[1..], n - 1)
         case None => None
         case Some((high, rest)) => Some((bs[0] + 256 * high, rest))
  }

  /** Reads what follows the length; `low` holds the twelve low distance bits. */
  function ReadDistance(bs: seq<Byte>, far: bool, low: nat, len: nat): Option<(Ref, seq<Byte>)> {
    if bs == [] then None else
    var code, extra := bs[0], bs[0] / 64;
    match ReadNumber(bs[1..], extra)
    case None => None
    case Some((image, rest)) =>
      if !far then Some((Ref(code % 64 + 64 * image, low, len), rest))
      else
        var medium := low + code % 32 * 4096;
        if code / 32 % 2 == 0 then Some((Ref(image, medium, len), rest))
        else if rest == [] then None
        else Some((Ref(image, medium + 131072 * (rest[0] as int), len), rest[1..]))
  }

  function ReadRef(bs: seq<Byte>): Option<(Ref, seq<Byte>)> {
    if bs == [] then None else
    var short, far, low := bs[0] / 32, bs[0] / 16 % 2 == 1, bs[0] % 16;
    match (if short == 7 then ReadLength(bs[1..]) else Some((0, bs[1..])))
    case None => None
    case Some((more, rest)) =>
      if rest == [] then None
      else ReadDistance(rest[1..], far, low + 16 * (rest[0] as int), short + more)
  }

  // ----- Round trip -----

  lemma {:induction false} LengthRoundTrip(n: nat, rest: seq<Byte>)
    ensures ReadLength(LengthBytes(n) + rest) == Some((n, rest))
  {
    var bs := LengthBytes(n) + rest;
    if n >= 255 {
      assert bs[1..] == LengthBytes(n - 255) + rest;
      LengthRoundTrip(n - 255, rest);
    } else {
      assert bs[1..] == rest;
    }
  }

  lemma ReadOneByte(a: Byte, rest: seq<Byte>)
    ensures ReadNumber([a] + rest, 1) == Some((a as nat, rest))
  {
    assert ([a] + rest)[1..] == rest;
    assert ReadNumber(rest, 0) == Some((0, rest));
  }

  lemma ReadTwoBytes(a: Byte, b: Byte, rest: seq<Byte>)
    ensures ReadNumber([a, b] + rest, 2) == Some((a + 256 * b, rest))
  {
    assert ([a, b] + rest)[1..] == [b] + rest;
    ReadOneByte(b, rest);
  }

  lemma ReadThreeBytes(a: Byte, b: Byte, c: Byte, rest: seq<Byte>)
    ensures ReadNumber([a, b, c] + rest, 3) == Some((a + 256 * b + 65536 * c, rest))
  {
    assert ([a, b, c] + rest)[1..] == [b, c] + rest;
    ReadTwoBytes(b, c, rest);
  }

  /** The three low bytes of a number. */
  lemma LowBytes(q: nat)
    requires q < 16777216
    ensures q == q % 256 + 256 * (q / 256 % 256) + 65536 * (q / 65536 % 256)
    ensures q < 65536 ==> q / 65536 % 256 == 0
    ensures q < 256 ==> q / 256 % 256 == 0
  {
    assert q / 256 / 256 == q / 65536;
  }

  lemma AboveSixBits(i: nat)
    requires i < 16777216
    ensures i / 16384 == i / 64 / 256 && i / 4194304 == i / 64 / 65536
    ensures i == i % 64 + 64 * (i / 64)
  {
  }

  lemma PixelBits(p: nat)
    requires p < MAX_PIXEL_LONG_DISTANCE
    ensures p % 4096 == p % 16 + 16 * (p / 16 % 256)
    ensures p == p % 4096 + 4096 * (p / 4096 % 32) + 131072 * (p / 131072 % 256)
    ensures p < MAX_PIXEL_MEDIUM_DISTANCE ==> p / 131072 % 256 == 0
  {
    assert p / 4096 / 32 == p / 131072;
    assert p / 16 / 256 == p / 4096;
  }

  lemma ShortCode(extra: nat, low: nat, bytes: seq<Byte>, image: nat, p: nat, len: nat, rest: seq<Byte>)
    requires extra < 4 && low < 64
    requires ReadNumber(bytes + rest, extra) == Some((image, rest))
    ensures ReadDistance([extra * 64 + low] + bytes + rest, false, p, len)
         == Some((Ref(low + 64 * image, p, len), rest))
  {
    var bs := [extra * 64 + low] + bytes + rest;
    assert bs[1..] == bytes + rest;
  }

  /** How many bytes the image distance of a near reference takes after its code byte, and those bytes. */
  function NearExtra(i: nat): (n: nat)
    ensures n < 4
  {
    if i < SHORT_PIX_IMAGE_DIST_LEVEL_1 then 0 else if i < SHORT_PIX_IMAGE_DIST_LEVEL_2 then 1
    else if i < SHORT_PIX_IMAGE_DIST_LEVEL_3 then 2 else 3
  }

  function NearImageBytes(i: nat): (bs: seq<Byte>)
    ensures |bs| == NearExtra(i)
  {
    [i / 64 % 256, i / 16384 % 256, i / 4194304 % 256][..NearExtra(i)]
  }

  lemma NearImageRoundTrip(i: nat, after: seq<Byte>)
    requires i <= MAX_IMAGE_DIST
    ensures ReadNumber(NearImageBytes(i) + after, NearExtra(i)) == Some((i / 64, after))
  {
    AboveSixBits(i);
    LowBytes(i / 64);
    var a: Byte, b: Byte, c: Byte := i / 64 % 256, i / 16384 % 256, i / 4194304 % 256;
    if i < SHORT_PIX_IMAGE_DIST_LEVEL_1 {
      assert NearImageBytes(i) + after == after;
    } else if i < SHORT_PIX_IMAGE_DIST_LEVEL_2 {
      ReadOneByte(a, after);
      assert NearImageBytes(i) == [a];
    } else if i < SHORT_PIX_IMAGE_DIST_LEVEL_3 {
      ReadTwoBytes(a, b, after);
      assert NearImageBytes(i) == [a, b];
    } else {
      ReadThreeBytes(a, b, c, after);
      assert NearImageBytes(i) == [a, b, c];
    }
  }

  lemma NearDistanceBytes(r: Ref)
    requires Encodable(r) && r.pixelDist < MAX_PIXEL_SHORT_DISTANCE
    ensures DistanceBytes(r) == [NearExtra(r.imageDist) * 64 + r.imageDist % 64] + NearImageBytes(r.imageDist)
  {
  }

  lemma ShortDistanceRoundTrip(r: Ref, rest: seq<Byte>)
    requires Encodable(r) && r.pixelDist < MAX_PIXEL_SHORT_DISTANCE
    ensures ReadDistance(DistanceBytes(r) + rest, false, r.pixelDist, r.len) == Some((r, rest))
  {
    var i := r.imageDist;
    NearDistanceBytes(r);
    AboveSixBits(i);
    NearImageRoundTrip(i, rest);
    ShortCode(NearExtra(i), i % 64, NearImageBytes(i), i / 64, r.pixelDist, r.len, rest);
  }

  lemma MediumCode(extra: nat, bytes: seq<Byte>, image: nat, p: nat, len: nat, rest: seq<Byte>)
    requires extra < 4 && p < MAX_PIXEL_MEDIUM_DISTANCE
    requires ReadNumber(bytes + rest, extra) == Some((image, rest))
    ensures ReadDistance([extra * 64 + p / 4096 % 32] + bytes + rest, true, p % 4096, len)
         == Some((Ref(image, p, len), rest))
  {
    PixelBits(p);
    var code: Byte := extra * 64 + p / 4096 % 32;
    var bs := [code] + bytes + rest;
    assert bs[0] == code && bs[1..] == bytes + rest;
    assert code / 64 == extra && code / 32 % 2 == 0 && code % 32 == p / 4096 % 32;
  }

  lemma LongCode(extra: nat, bytes: seq<Byte>, image: nat, p: nat, len: nat, rest: seq<Byte>)
    requires extra < 4 && p < MAX_PIXEL_LONG_DISTANCE
    requires ReadNumber(bytes + ([p / 131072 % 256] + rest), extra) == Some((image, [p / 131072 % 256] + rest))
    ensures ReadDistance([extra * 64 + 32 + p / 4096 % 32] + bytes + [p / 131072 % 256] + rest, true, p % 4096, len)
         == Some((Ref(image, p, len), rest))
  {
    PixelBits(p);
    var code: Byte, high: Byte := extra * 64 + 32 + p / 4096 % 32, p / 131072 % 256;
    var bs := [code] + bytes + [high] + rest;
    assert bs[0] == code && bs[1..] == bytes + ([high] + rest);
    assert ([high] + rest)[1..] == rest;
    assert code / 64 == extra && code / 32 % 2 == 1 && code % 32 == p / 4096 % 32;
  }

  /** How many bytes the image distance of a far reference takes, and those bytes. */
  function FarExtra(i: nat): (n: nat)
    ensures n < 4
  {
    if i == 0 then 0 else if i < FAR_PIX_IMAGE_DIST_LEVEL_1 then 1 else if i < FAR_PIX_IMAGE_DIST_LEVEL_2 then 2 else 3
  }

  function FarImageBytes(i: nat): (bs: seq<Byte>)
    ensures |bs| == FarExtra(i)
  {
    [i % 256, i / 256 % 256, i / 65536 % 256][..FarExtra(i)]
  }

  lemma FarImageRoundTrip(i: nat, after: seq<Byte>)
    requires i <= MAX_IMAGE_DIST
    ensures ReadNumber(FarImageBytes(i) + after, FarExtra(i)) == Some((i, after))
  {
    LowBytes(i);
    var a: Byte, b: Byte, c: Byte := i % 256, i / 256 % 256, i / 65536 % 256;
    if i == 0 {
      assert FarImageBytes(i) + after == after;
    } else if i < FAR_PIX_IMAGE_DIST_LEVEL_1 {
      ReadOneByte(a, after);
      assert FarImageBytes(i) == [a];
    } else if i < FAR_PIX_IMAGE_DIST_LEVEL_2 {
      ReadTwoBytes(a, b, after);
      assert FarImageBytes(i) == [a, b];
    } else {
      ReadThreeBytes(a, b, c, after);
      assert FarImageBytes(i) == [a, b, c];
    }
  }

  lemma FarDistanceBytes(r: Ref)
    requires Encodable(r) && r.pixelDist >= MAX_PIXEL_SHORT_DISTANCE
    ensures r.pixelDist < MAX_PIXEL_MEDIUM_DISTANCE ==>
              DistanceBytes(r) == [FarExtra(r.imageDist) * 64 + r.pixelDist / 4096 % 32] + FarImageBytes(r.imageDist)
    ensures r.pixelDist >= MAX_PIXEL_MEDIUM_DISTANCE ==>
              DistanceBytes(r) == [FarExtra(r.imageDist) * 64 + 32 + r.pixelDist / 4096 % 32]
              + FarImageBytes(r.imageDist) + [r.pixelDist / 131072 % 256]
  {
  }

  lemma FarDistanceRoundTrip(r: Ref, rest: seq<Byte>)
    requires Encodable(r) && r.pixelDist >= MAX_PIXEL_SHORT_DISTANCE
    ensures ReadDistance(DistanceBytes(r) + rest, true, r.pixelDist % 4096, r.len) == Some((r, rest))
  {
    var i, p := r.imageDist, r.pixelDist;
    FarDistanceBytes(r);
    if p < MAX_PIXEL_MEDIUM_DISTANCE {
      FarImageRoundTrip(i, rest);
      MediumCode(FarExtra(i), FarImageBytes(i), i, p, r.len, rest);
    } else {
      FarImageRoundTrip(i, [p / 131072 % 256] + rest);
      LongCode(FarExtra(i), FarImageBytes(i), i, p, r.len, rest);
    }
  }

  lemma HeadBits(r: Ref)
    requires Encodable(r)
    ensures HeadByte(r) / 32 == if r.len < 7 then r.len else 7
    ensures HeadByte(r) / 16 % 2 == if r.pixelDist < MAX_PIXEL_SHORT_DISTANCE then 0 else 1
    ensures HeadByte(r) % 16 == r.pixelDist % 16
  {
  }

  lemma ReadHead(head: Byte, more: seq<Byte>, extra: nat, middle: Byte, dist: seq<Byte>)
    requires if head / 32 == 7 then ReadLength(more + ([middle] + dist)) == Some((extra, [middle] + dist))
             else more == [] && extra == 0
    ensures ReadRef([head] + more + [middle] + dist)
         == ReadDistance(dist, head / 16 % 2 == 1, head % 16 + 16 * (middle as int), head / 32 + extra)
  {
    var tail := [middle] + dist;
    HeadThenTail(head, more, [middle], dist);
    assert tail[0] == middle && tail[1..] == dist;
    assert more == [] ==> more + tail == tail;
  }

  lemma HeadThenTail(head: Byte, more: seq<Byte>, middle: seq<Byte>, dist: seq<Byte>)
    ensures ([head] + more + middle + dist)[0] == head
    ensures ([head] + more + middle + dist)[1..] == more + (middle + dist)
  {
  }

  lemma DistanceRoundTrip(r: Ref, rest: seq<Byte>)
    requires Encodable(r)
    ensures ReadDistance(DistanceBytes(r) + rest, r.pixelDist >= MAX_PIXEL_SHORT_DISTANCE, r.pixelDist % 4096, r.len)
         == Some((r, rest))
  {
    if r.pixelDist < MAX_PIXEL_SHORT_DISTANCE {
      ShortDistanceRoundTrip(r, rest);
    } else {
      FarDistanceRoundTrip(r, rest);
    }
  }

  /** The extra bytes of a length and what they stand for. */
  function MoreBytes(len: nat): (r: (seq<Byte>, nat)) {
    if len < 7 then ([], 0) else (LengthBytes(len - 7), len - 7)
  }

  lemma MoreRoundTrip(len: nat, tail: seq<Byte>)
    ensures var (more, extra) := MoreBytes(len);
            if len < 7 then more == [] && extra == 0 else ReadLength(more + tail) == Some((extra, tail))
  {
    if len >= 7 {
      LengthRoundTrip(len - 7, tail);
    }
  }

  lemma RefParts(r: Ref, rest: seq<Byte>)
    requires Encodable(r)
    ensures RefBytes(r) + rest
         == [HeadByte(r)] + MoreBytes(r.len).0 + [r.pixelDist / 16 % 256] + (DistanceBytes(r) + rest)
  {
  }

  /**
   References are prefix-decodable: whatever follows an encoded reference, the
   decoder gives back the reference and exactly what follows.
   */
  lemma RefRoundTrip(r: Ref, rest: seq<Byte>)
    requires Encodable(r)
    ensures ReadRef(RefBytes(r) + rest) == Some((r, rest))
    ensures RefBytes(r)[0] >= 32
  {
    var head, middle: Byte, tail := HeadByte(r), r.pixelDist / 16 % 256, DistanceBytes(r) + rest;
    var (more, extra) := MoreBytes(r.len);
    HeadBits(r);
    PixelBits(r.pixelDist);
    MoreRoundTrip(r.len, [middle] + tail);
    ReadHead(head, more, extra, middle, tail);
    DistanceRoundTrip(r, rest);
    RefParts(r, rest);
  }

  /** The size that the matcher weighs a match against is the size it will take. */
  lemma RefSize(r: Ref)
    requires Encodable(r)
    ensures |RefBytes(r)| == EncodeRefSize(r.imageDist, r.pixelDist)
                             + if r.len < 7 then 0 else 1 + (r.len - 7) / 255
  {
  }
}
