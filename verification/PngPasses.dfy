/** The round trip of interlaced images: an image whose samples are spread over the passes, each filtered on its own,
    comes back as if it had not been interlaced. */
module PngPasses {
  import opened Adam7
  import opened Bits
  import opened Multiples
  import opened Options
  import opened PngDecoder
  import opened PngFormat
  import opened PngInterlace
  import opened PngPixels
  import opened PngSpec

  lemma PixelsAreImage(f: Format, rows: seq<seq<byte>>)
    requires ValidFormat(f) && AreRows(f, rows)
    ensures IsImage(Pixels(f, rows), f.x, f.y, PixelSize(f))
  {
    PassSizes(f.y, f.x, PixelSize(f));
  }

  /** Byte k of pixel (x, y) of an image. */
  lemma PixelAt(f: Format, rows: seq<seq<byte>>, x: nat, y: nat, k: nat)
    requires ValidFormat(f) && AreRows(f, rows) && x < f.x && y < f.y && k < PixelSize(f)
    ensures IsImage(Pixels(f, rows), f.x, f.y, PixelSize(f)) && RowBytes(Times(x + 1, f.imgN), f.depth) <= RowLength(f)
    ensures Pixel(Pixels(f, rows), f.x, f.y, PixelSize(f), x, y)[k] == OutByte(f, rows[y], x, k)
  {
    var n, img := PixelSize(f), Pixels(f, rows);
    PixelsAreImage(f, rows);
    FinishedAt(f, rows[y], x, k);
    PixelsAt(f, rows, y, Times(x, n) + k);
    AtIs(f, x, y);
    AtInside(f.x, f.y, n, x, y);
    PixelByte(img, f.x, f.y, n, x, y, k);
  }

  lemma AtIs(f: Format, x: nat, y: nat)
    ensures At(f.x, PixelSize(f), x, y) == Times(y, Stride(f)) + Times(x, PixelSize(f))
  {
    PassSizes(y, f.x, PixelSize(f));
    TimesAdd(Times(y, f.x), x, PixelSize(f));
  }

  lemma PixelByte(img: seq<byte>, w: nat, h: nat, n: nat, x: nat, y: nat, k: nat)
    requires IsImage(img, w, h, n) && x < w && y < h && k < n
    ensures At(w, n, x, y) + k < |img| && Pixel(img, w, h, n, x, y)[k] == img[At(w, n, x, y) + k]
  {
    AtInside(w, h, n, x, y);
  }

  // ---- Images with the same pixels --------------------------------------------------------------------------

  predicate SamePixels(a: seq<byte>, b: seq<byte>, w: nat, h: nat, n: nat)
    requires IsImage(a, w, h, n) && IsImage(b, w, h, n)
  {
    forall x: nat, y: nat | x < w && y < h :: Pixel(a, w, h, n, x, y) == Pixel(b, w, h, n, x, y)
  }

  lemma {:induction false} SameUpTo(a: seq<byte>, b: seq<byte>, w: nat, h: nat, n: nat, y: nat, x: nat)
    requires IsImage(a, w, h, n) && IsImage(b, w, h, n) && SamePixels(a, b, w, h, n)
    requires if y < h then x <= w else x == 0 && y == h
    ensures var m := Times(Times(y, w) + x, n); m <= |a| && a[..m] == b[..m]
    decreases y, x
  {
    var m := Times(Times(y, w) + x, n);
    if x > 0 {
      var start := At(w, n, x - 1, y);
      SameUpTo(a, b, w, h, n, y, x - 1);
      AtInside(w, h, n, x - 1, y);
      assert Pixel(a, w, h, n, x - 1, y) == Pixel(b, w, h, n, x - 1, y);
      assert m == start + n;
      assert a[..m] == a[..start] + a[start..m] && b[..m] == b[..start] + b[start..m];
    } else if y > 0 {
      SameUpTo(a, b, w, h, n, y - 1, w);
    }
  }

  lemma SameImage(a: seq<byte>, b: seq<byte>, w: nat, h: nat, n: nat)
    requires IsImage(a, w, h, n) && IsImage(b, w, h, n) && SamePixels(a, b, w, h, n)
    ensures a == b
  {
    SameUpTo(a, b, w, h, n, h, 0);
    assert a[..|a|] == a && b[..|b|] == b;
  }

  // ---- An image spread over the passes ------------------------------------------------------------------------

  /** Two rows have the same sample at these places. */
  predicate SameSample(depth: nat, a: seq<byte>, i: nat, b: seq<byte>, j: nat)
    requires (IsDepth(depth) || depth == 16) && RowBytes(i + 1, depth) <= |a| && RowBytes(j + 1, depth) <= |b|
  {
    if depth == 16 then a[2 * i] == b[2 * j] && a[2 * i + 1] == b[2 * j + 1]
    else Sample(a, depth, i) == Sample(b, depth, j)
  }

  /** Pixel i of one row and pixel j of another have the same samples; the bits behind a row's samples do not matter. */
  predicate SameSamples(f: Format, a: seq<byte>, i: nat, b: seq<byte>, j: nat)
    requires ValidFormat(f)
    requires RowBytes(Times(i + 1, f.imgN), f.depth) <= |a| && RowBytes(Times(j + 1, f.imgN), f.depth) <= |b|
  {
    forall c | 0 <= c < f.imgN :: SameChannel(f, a, i, b, j, c)
  }

  predicate SameChannel(f: Format, a: seq<byte>, i: nat, b: seq<byte>, j: nat, c: nat)
    requires ValidFormat(f) && c < f.imgN
    requires RowBytes(Times(i + 1, f.imgN), f.depth) <= |a| && RowBytes(Times(j + 1, f.imgN), f.depth) <= |b|
  {
    RowBytesMono(Times(i, f.imgN) + c + 1, Times(i + 1, f.imgN), f.depth);
    RowBytesMono(Times(j, f.imgN) + c + 1, Times(j + 1, f.imgN), f.depth);
    SameSample(f.depth, a, Times(i, f.imgN) + c, b, Times(j, f.imgN) + c)
  }

  lemma SameBytes(f: Format, a: seq<byte>, i: nat, b: seq<byte>, j: nat, k: nat)
    requires ValidFormat(f) && k < PixelSize(f)
    requires RowBytes(Times(i + 1, f.imgN), f.depth) <= |a| && RowBytes(Times(j + 1, f.imgN), f.depth) <= |b|
    requires SameSamples(f, a, i, b, j)
    ensures OutByte(f, a, i, k) == OutByte(f, b, j, k)
  {
    if k < f.imgN {
      assert SameChannel(f, a, i, b, j, k);
    }
    if f.depth == 16 {
      SameWord(f, a, i, b, j, k);
    }
  }

  lemma SameWord(f: Format, a: seq<byte>, i: nat, b: seq<byte>, j: nat, k: nat)
    requires ValidFormat(f) && k < PixelSize(f) && f.depth == 16
    requires RowBytes(Times(i + 1, f.imgN), f.depth) <= |a| && RowBytes(Times(j + 1, f.imgN), f.depth) <= |b|
    requires SameSamples(f, a, i, b, j)
    ensures OutByte(f, a, i, k) == OutByte(f, b, j, k)
  {
    if k < 2 * f.imgN {
      var c := k / 2;
      assert k == 2 * c || k == 2 * c + 1;
      assert SameChannel(f, a, i, b, j, c);
    }
  }

  /** The rows of the passes; a pass without pixels has none. */
  predicate ArePassRows(f: Format, passes: seq<seq<seq<byte>>>)
    requires Interlaceable(f)
  {
    |passes| == 7 && forall p | 0 <= p < 7 :: if EmptyPass(f, p) then passes[p] == [] else AreRows(PassFormat(f, p), passes[p])
  }

  /** Each pixel of a pass has the samples of the image's pixel that goes there. */
  ghost predicate Spread(f: Format, rows: seq<seq<byte>>, passes: seq<seq<seq<byte>>>)
    requires Interlaceable(f) && AreRows(f, rows) && ArePassRows(f, passes)
  {
    forall x: nat, y: nat | x < f.x && y < f.y :: GoesTo(f, rows, passes, x, y)
  }

  predicate GoesTo(f: Format, rows: seq<seq<byte>>, passes: seq<seq<seq<byte>>>, x: nat, y: nat)
    requires Interlaceable(f) && AreRows(f, rows) && ArePassRows(f, passes) && x < f.x && y < f.y
  {
    var p := PassOf(x, y);
    PlaceInPass(f, x, y);
    SamplesInside(f, x);
    SamplesInside(PassFormat(f, p), InX(x, y));
    SameSamples(f, rows[y], x, passes[p][InY(x, y)], InX(x, y))
  }

  lemma SamplesInside(f: Format, x: nat)
    requires ValidFormat(f) && x < f.x
    ensures RowBytes(Times(x + 1, f.imgN), f.depth) <= RowLength(f)
  {
    TimesMono(x, f.x, f.imgN);
    RowBytesMono(Times(x + 1, f.imgN), Times(f.x, f.imgN), f.depth);
  }

  /** The image of a pass. */
  function ImageOfPass(f: Format, passes: seq<seq<seq<byte>>>, p: nat): seq<byte>
    requires Interlaceable(f) && ArePassRows(f, passes) && p < 7
  {
    if EmptyPass(f, p) then [] else Pixels(PassFormat(f, p), passes[p])
  }

  function ImagesOf(f: Format, passes: seq<seq<seq<byte>>>): (r: seq<seq<byte>>)
    requires Interlaceable(f) && ArePassRows(f, passes)
    ensures |r| == 7
  {
    seq(7, p requires 0 <= p < 7 => ImageOfPass(f, passes, p))
  }

  /** What has been spread over the passes is put together again. */
  lemma Together(f: Format, rows: seq<seq<byte>>, passes: seq<seq<seq<byte>>>, final: seq<byte>)
    requires Interlaceable(f) && AreRows(f, rows) && ArePassRows(f, passes) && Spread(f, rows, passes)
    requires Deinterlaced(f, final, ImagesOf(f, passes))
    ensures final == Pixels(f, rows)
  {
    var n := PixelSize(f);
    PixelsAreImage(f, rows);
    forall x: nat, y: nat | x < f.x && y < f.y ensures Pixel(final, f.x, f.y, n, x, y) == Pixel(Pixels(f, rows), f.x, f.y, n, x, y) {
      PixelTogether(f, rows, passes, final, x, y);
    }
    SameImage(final, Pixels(f, rows), f.x, f.y, n);
  }

  lemma PixelTogether(f: Format, rows: seq<seq<byte>>, passes: seq<seq<seq<byte>>>, final: seq<byte>, x: nat, y: nat)
    requires Interlaceable(f) && AreRows(f, rows) && ArePassRows(f, passes) && Spread(f, rows, passes) && x < f.x && y < f.y
    requires Deinterlaced(f, final, ImagesOf(f, passes)) && IsImage(Pixels(f, rows), f.x, f.y, PixelSize(f))
    ensures Pixel(final, f.x, f.y, PixelSize(f), x, y) == Pixel(Pixels(f, rows), f.x, f.y, PixelSize(f), x, y)
  {
    var n, p, i, j := PixelSize(f), PassOf(x, y), InX(x, y), InY(x, y);
    PlaceInPass(f, x, y);
    assert ImagesOf(f, passes)[p] == ImageOfPass(f, passes, p);
    var pf := PassFormat(f, p);
    PixelsAreImage(pf, passes[p]);
    var a, b := Pixel(Pixels(f, rows), f.x, f.y, n, x, y), Pixel(Pixels(pf, passes[p]), pf.x, pf.y, n, i, j);
    assert Pixel(final, f.x, f.y, n, x, y) == b;
    forall k | 0 <= k < n ensures a[k] == b[k] {
      assert GoesTo(f, rows, passes, x, y);
      PixelAt(f, rows, x, y, k);
      PixelAt(pf, passes[p], i, j, k);
      SameBytes(f, rows[y], x, passes[p][j], i, k);
    }
    assert a == b;
  }

  // ---- The data of the passes ---------------------------------------------------------------------------------

  /** Filter types for the rows of the passes. */
  predicate AreTypes(passes: seq<seq<seq<byte>>>, types: seq<seq<byte>>) {
    |types| == |passes| && forall p | 0 <= p < |passes| ::
      |types[p]| == |passes[p]| && forall j | 0 <= j < |types[p]| :: types[p][j] <= 4
  }

  function PassData(f: Format, types: seq<byte>, rows: seq<seq<byte>>, p: nat): seq<byte>
    requires Interlaceable(f) && |types| == |rows| && (if EmptyPass(f, p) then rows == [] else AreRows(PassFormat(f, p), rows))
  {
    if EmptyPass(f, p) then []
    else PixelFits(PassFormat(f, p)); Filtered(types, PixelBytes(PassFormat(f, p)), rows, Zeros(RowLength(PassFormat(f, p))))
  }

  /** The filtered rows of the passes from p on, one pass after the other. */
  function InterlacedData(f: Format, types: seq<seq<byte>>, passes: seq<seq<seq<byte>>>, p: nat): seq<byte>
    requires Interlaceable(f) && ArePassRows(f, passes) && AreTypes(passes, types) && p <= 7
    decreases 7 - p, |passes|
  {
    if p == 7 then [] else PassData(f, types[p], passes[p], p) + InterlacedData(f, types, passes, p + 1)
  }

  lemma PassBack(f: Format, types: seq<byte>, rows: seq<seq<byte>>, p: nat, more: seq<byte>)
    requires Interlaceable(f) && |types| == |rows| && (if EmptyPass(f, p) then rows == [] else AreRows(PassFormat(f, p), rows))
    requires forall j | 0 <= j < |types| :: types[j] <= 4
    ensures |PassData(f, types, rows, p)| == PassLength(f, p)
    ensures PassImage(f, p, PassData(f, types, rows, p) + more) ==
            Some(if EmptyPass(f, p) then [] else Pixels(PassFormat(f, p), rows))
  {
    if !EmptyPass(f, p) {
      RowsBack(PassFormat(f, p), types, rows, more);
    }
  }

  lemma RowsBack(f: Format, types: seq<byte>, rows: seq<seq<byte>>, more: seq<byte>)
    requires ValidFormat(f) && AreRows(f, rows) && |types| == f.y && forall j | 0 <= j < f.y :: types[j] <= 4
    ensures PixelBytes(f) > 0
    ensures var data := Filtered(types, PixelBytes(f), rows, Zeros(RowLength(f)));
            |data| == Times(f.y, RowLength(f) + 1) && Rows(f, data + more) == Some(rows)
  {
    PixelFits(f);
    ImageRoundTrip(types, PixelBytes(f), rows, Zeros(RowLength(f)), more);
  }

  lemma PassesStep(f: Format, first: seq<byte>, rest: seq<byte>, p: nat, img: seq<byte>, images: seq<seq<byte>>)
    requires Interlaceable(f) && p < 7 && |first| == PassLength(f, p) && PassImage(f, p, first + rest) == Some(img)
    requires Passes(f, rest, p + 1) == Some(images)
    ensures Passes(f, first + rest, p) == Some([img] + images)
  {
    assert (first + rest)[PassLength(f, p)..] == rest;
  }

  lemma {:induction false} PassesBack(f: Format, types: seq<seq<byte>>, passes: seq<seq<seq<byte>>>, p: nat, more: seq<byte>)
    requires Interlaceable(f) && ArePassRows(f, passes) && AreTypes(passes, types) && p <= 7
    ensures Passes(f, InterlacedData(f, types, passes, p) + more, p) == Some(ImagesOf(f, passes)[p..])
    decreases 7 - p
  {
    if p < 7 {
      var first, rest := PassData(f, types[p], passes[p], p), InterlacedData(f, types, passes, p + 1);
      var images := ImagesOf(f, passes);
      PassesBack(f, types, passes, p + 1, more);
      PassBack(f, types[p], passes[p], p, rest + more);
      Regroup(first, rest, more);
      PassesStep(f, first, rest + more, p, images[p], images[p + 1..]);
      HeadTail(images[p..]);
      assert images[p..][1..] == images[p + 1..];
    }
  }

  /** An image spread over the passes, each of them filtered row by row with any filters, is accepted, whatever
      follows, and comes back as the image that would have been sent without interlacing. */
  method DecodeInterlaced(f: Format, data: seq<byte>, ghost rows: seq<seq<byte>>, ghost passes: seq<seq<seq<byte>>>,
                          ghost types: seq<seq<byte>>, ghost more: seq<byte>)
    returns (ok: bool, out: array<byte>)
    requires Interlaceable(f) && AreRows(f, rows) && ArePassRows(f, passes) && Spread(f, rows, passes)
    requires AreTypes(passes, types) && data == InterlacedData(f, types, passes, 0) + more
    ensures ok && out[..] == Pixels(f, rows)
  {
    PassesBack(f, types, passes, 0, more);
    assert ImagesOf(f, passes)[0..] == ImagesOf(f, passes);
    ok, out := CreateImage(f, data, true);
    Together(f, rows, passes, out[..]);
  }
}
