/** The emoji post-processor `processEmojiImage`: contain-resize onto white, key out near-white
    pixels by zeroing their alpha, encode as a palette PNG, and re-encode once if the result is
    over the 128 KiB upload ceiling. The image library's operations are parameters. */
module Process {
  import opened Common

  /** A colour channel is near-white when it is strictly above this value. */
  const Threshold: byte := 245

  /** The largest PNG the upload accepts. */
  const MaxEmojiBytes: nat := 128 * 1024

  /** The contain-resize pads with opaque white (255, 255, 255). */
  const Padding: byte := 255

  predicate NearWhite(r: byte, g: byte, b: byte)
  {
    r > Threshold && g > Threshold && b > Threshold
  }

  /** Byte `j` of the RGBA buffer `s` after keying. Byte `j` is an alpha byte when `j % 4 == 3`;
      it is cleared when the three colour bytes before it are near-white. Every other byte
      keeps its value. */
  function KeyedAt(s: seq<byte>, j: nat): (r: byte)
    requires j < |s|
  {
    if j % 4 == 3 && NearWhite(s[j - 3], s[j - 2], s[j - 1]) then 0 else s[j]
  }

  /** The whole buffer after keying. */
  function Keyed(s: seq<byte>): (r: seq<byte>)
  {
    seq(|s|, j requires 0 <= j < |s| => KeyedAt(s, j))
  }

  /** The pass over `pixels` (a copy of the raw RGBA data): a stride-4 loop that writes
      0 into the alpha byte of every near-white pixel. Reads past the end of the buffer give
      `undefined`, which compares false, and a typed array ignores writes past its end, so a
      trailing partial pixel is left alone; for four-channel data the bound never matters. */
  method KeyNearWhite(pixels: array<byte>)
    modifies pixels
    ensures pixels[..] == Keyed(old(pixels[..]))
  {
    ghost var s := pixels[..];
    var i := 0;
    while i < pixels.Length
      invariant 0 <= i && i % 4 == 0 && i < pixels.Length + 4
      invariant forall j | 0 <= j < pixels.Length ::
        pixels[j] == if j < i then KeyedAt(s, j) else s[j]
    {
      if i + 3 < pixels.Length && pixels[i] > Threshold && pixels[i + 1] > Threshold && pixels[i + 2] > Threshold {
        pixels[i + 3] := 0;
      }
      i := i + 4;
    }
  }

  // ---------------------------------------------------------------- properties of keying

  lemma KeyedLength(s: seq<byte>)
    ensures |Keyed(s)| == |s|
  {
  }

  /** A near-white pixel ends transparent; its colour bytes are kept. */
  lemma KeyedClearsNearWhite(s: seq<byte>, p: nat)
    requires 4 * p + 3 < |s|
    requires NearWhite(s[4 * p], s[4 * p + 1], s[4 * p + 2])
    ensures Keyed(s)[4 * p + 3] == 0
    ensures Keyed(s)[4 * p..4 * p + 3] == s[4 * p..4 * p + 3]
  {
  }

  /** A pixel with some colour channel at or below the threshold keeps all four bytes. */
  lemma KeyedKeepsOtherPixels(s: seq<byte>, p: nat)
    requires 4 * p + 3 < |s|
    requires s[4 * p] <= Threshold || s[4 * p + 1] <= Threshold || s[4 * p + 2] <= Threshold
    ensures Keyed(s)[4 * p..4 * p + 4] == s[4 * p..4 * p + 4]
  {
  }

  /** Only alpha bytes change, and an alpha byte only ever changes to 0. */
  lemma KeyedWritesOnlyAlpha(s: seq<byte>)
    ensures |Keyed(s)| == |s|
    ensures forall j | 0 <= j < |s| && j % 4 != 3 :: Keyed(s)[j] == s[j]
    ensures forall j | 0 <= j < |s| :: Keyed(s)[j] == s[j] || Keyed(s)[j] == 0
  {
  }

  /** A pixel with a channel of exactly 245 is not near-white. */
  lemma ThresholdIsStrict(g: byte, b: byte, a: byte)
    ensures Keyed([245, g, b, a]) == [245, g, b, a]
    ensures Keyed([g, 245, b, a]) == [g, 245, b, a]
    ensures Keyed([g, b, 245, a]) == [g, b, 245, a]
  {
    KeyedKeepsOtherPixels([245, g, b, a], 0);
    KeyedKeepsOtherPixels([g, 245, b, a], 0);
    KeyedKeepsOtherPixels([g, b, 245, a], 0);
  }

  /** The white padding the contain-resize adds always becomes transparent. */
  lemma PaddingBecomesTransparent(a: byte)
    ensures Keyed([Padding, Padding, Padding, a]) == [Padding, Padding, Padding, 0]
  {
    assert Keyed([Padding, Padding, Padding, a])[3] == 0;
  }

  /** Keying a second time changes nothing. */
  lemma KeyedIdempotent(s: seq<byte>)
    ensures Keyed(Keyed(s)) == Keyed(s)
  {
    var k := Keyed(s);
    forall j | 0 <= j < |s| ensures KeyedAt(k, j) == k[j] {
      if j % 4 == 3 {
        assert k[j - 3] == s[j - 3] && k[j - 2] == s[j - 2] && k[j - 1] == s[j - 1];
      }
    }
  }

  /** Pixels are keyed independently: keying a buffer that is split at a pixel boundary
      is keying each part. */
  lemma KeyedConcat(a: seq<byte>, b: seq<byte>)
    requires |a| % 4 == 0
    ensures Keyed(a + b) == Keyed(a) + Keyed(b)
  {
    var l, r := Keyed(a + b), Keyed(a) + Keyed(b);
    forall j | 0 <= j < |a + b| ensures l[j] == r[j] {
      if j >= |a| {
        KeyedAtShift(a, b, j - |a|);
      } else {
        KeyedAtPrefix(a, b, j);
      }
    }
  }

  lemma KeyedAtPrefix(a: seq<byte>, b: seq<byte>, j: nat)
    requires j < |a|
    ensures KeyedAt(a + b, j) == KeyedAt(a, j)
  {
    if j % 4 == 3 {
      assert (a + b)[j - 3] == a[j - 3] && (a + b)[j - 2] == a[j - 2] && (a + b)[j - 1] == a[j - 1];
    }
  }

  lemma KeyedAtShift(a: seq<byte>, b: seq<byte>, k: nat)
    requires |a| % 4 == 0 && k < |b|
    ensures KeyedAt(a + b, |a| + k) == KeyedAt(b, k)
  {
    var j := |a| + k;
    assert j % 4 == k % 4;
    if k % 4 == 3 {
      assert (a + b)[j - 3] == b[k - 3] && (a + b)[j - 2] == b[k - 2] && (a + b)[j - 1] == b[k - 1];
    }
  }

  // ---------------------------------------------------------------- the image library and the pipeline

  /** Raw RGBA pixel data as `ensureAlpha().raw().toBuffer({ resolveWithObject: true })` returns it. */
  datatype RawImage = RawImage(data: seq<byte>, width: nat, height: nat)

  /** The image library operations the pipeline calls, as uninterpreted functions.
      `resizeContain` is `resize(128, 128, { fit: 'contain', background: white })`; it fails
      (`None`) on bytes it cannot decode. `toRaw` is `ensureAlpha().raw()`. `encodePng` is the
      palette PNG at quality 100 and compression level 9 of four-channel raw pixels;
      `reencodePng` is the palette PNG of an encoded image at quality 90, compression level 9
      and at most 128 colours. */
  datatype Sharp = Sharp(
    resizeContain: seq<byte> -> Option<seq<byte>>,
    toRaw: seq<byte> -> RawImage,
    encodePng: (seq<byte>, nat, nat) -> seq<byte>,
    reencodePng: seq<byte> -> seq<byte>)

  /** A PNG and the number of PNG encodes on the code path that produced it. `EnforceCeiling`
      sets the count itself (1 or 2), so it records which branch was taken rather than counting
      calls into the encoder; what the output actually is, the first encode or its single
      re-encode, is stated separately about `png`. */
  datatype Encoded = Encoded(png: seq<byte>, encodes: nat)

  /** The size-ceiling decision. The first encode is kept when it is at most 128 KiB; otherwise
      exactly one more encode runs and its output is returned without any size check. */
  function EnforceCeiling(first: seq<byte>, reencode: seq<byte> -> seq<byte>): (r: Encoded)
    ensures 1 <= r.encodes <= 2
    ensures r.encodes == 1 <==> |first| <= MaxEmojiBytes
    ensures r.png == (if |first| <= MaxEmojiBytes then first else reencode(first))
  {
    if |first| > MaxEmojiBytes then Encoded(reencode(first), 2) else Encoded(first, 1)
  }

  /** The output fits the ceiling exactly when one of the two encodes did, in order. */
  lemma CeilingMetIff(first: seq<byte>, reencode: seq<byte> -> seq<byte>)
    ensures |EnforceCeiling(first, reencode).png| <= MaxEmojiBytes <==>
            |first| <= MaxEmojiBytes || |reencode(first)| <= MaxEmojiBytes
  {
  }

  /** The ceiling is not enforced: a second encode that is still too large is returned. */
  lemma CeilingNotGuaranteed(first: seq<byte>)
    requires |first| > MaxEmojiBytes
    ensures var r := EnforceCeiling(first, x => x);
            |r.png| > MaxEmojiBytes && r.encodes == 2
  {
  }

  /** What `processEmojiImage` produces, as a function of its input and the library. */
  function Processed(sharp: Sharp, image: seq<byte>): (r: Option<Encoded>)
  {
    match sharp.resizeContain(image)
    case None => None
    case Some(resized) =>
      var raw := sharp.toRaw(resized);
      Some(EnforceCeiling(sharp.encodePng(Keyed(raw.data), raw.width, raw.height), sharp.reencodePng))
  }

  /** Whatever the library does, the pipeline runs at most two PNG encodes, and what it returns
      is the keyed first encode or its single re-encode. */
  lemma ProcessedEncodesAtMostTwice(sharp: Sharp, image: seq<byte>)
    ensures Processed(sharp, image).Some? <==> sharp.resizeContain(image).Some?
    ensures Processed(sharp, image).Some? ==>
      var raw := sharp.toRaw(sharp.resizeContain(image).value);
      var first := sharp.encodePng(Keyed(raw.data), raw.width, raw.height);
      var r := Processed(sharp, image).value;
      1 <= r.encodes <= 2 &&
      (r.png == first || r.png == sharp.reencodePng(first)) &&
      (|first| <= MaxEmojiBytes ==> r == Encoded(first, 1))
  {
  }

  /** `processEmojiImage`: the keying runs in place on a fresh copy of the raw pixel data. */
  method ProcessEmojiImage(sharp: Sharp, image: seq<byte>) returns (r: Option<Encoded>)
    ensures r == Processed(sharp, image)
  {
    var resized := sharp.resizeContain(image);
    if resized.None? {
      return None;
    }
    var raw := sharp.toRaw(resized.value);
    var pixels := new byte[|raw.data|](j requires 0 <= j < |raw.data| => raw.data[j]);
    assert pixels[..] == raw.data;
    KeyNearWhite(pixels);
    var processedImage := sharp.encodePng(pixels[..], raw.width, raw.height);
    r := Some(EnforceCeiling(processedImage, sharp.reencodePng));
  }
}
