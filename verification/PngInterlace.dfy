/** De-interlacing: each pass is an image of its own, whose pixels are copied to their places. */
module PngInterlace {
  import opened Adam7
  import opened Bits
  import opened Folding
  import opened Multiples
  import opened Options
  import opened PngDecoder
  import opened PngFormat
  import opened PngPixels
  import opened PngSpec

  // ---- Pixels of an image ---------------------------------------------------------------------------

  /** Where a pixel of n bytes is in an image of width w. */
  function At(w: nat, n: nat, x: nat, y: nat): nat {
    Times(Times(y, w) + x, n)
  }

  predicate IsImage(img: seq<byte>, w: nat, h: nat, n: nat) {
    |img| == Times(Times(h, w), n)
  }

  lemma AtInside(w: nat, h: nat, n: nat, x: nat, y: nat)
    requires x < w && y < h
    ensures At(w, n, x, y) + n <= Times(Times(h, w), n)
  {
    TimesMono(y, h, w);
    TimesMono(Times(y, w) + x, Times(h, w), n);
  }

  lemma AtApart(w: nat, n: nat, x: nat, y: nat, x': nat, y': nat)
    requires x < w && x' < w && (x, y) != (x', y')
    ensures At(w, n, x, y) + n <= At(w, n, x', y') || At(w, n, x', y') + n <= At(w, n, x, y)
  {
    if y < y' {
      TimesMono(y, y', w);
    } else if y' < y {
      TimesMono(y', y, w);
    }
    if Times(y, w) + x < Times(y', w) + x' {
      TimesMono(Times(y, w) + x, Times(y', w) + x', n);
    } else {
      TimesMono(Times(y', w) + x', Times(y, w) + x, n);
    }
  }

  function Pixel(img: seq<byte>, w: nat, h: nat, n: nat, x: nat, y: nat): (r: seq<byte>)
    requires IsImage(img, w, h, n) && x < w && y < h
    ensures |r| == n
  {
    AtInside(w, h, n, x, y);
    img[At(w, n, x, y)..At(w, n, x, y) + n]
  }

  /** A change to the bytes of one pixel changes no other. */
  lemma OnePixel(img: seq<byte>, was: seq<byte>, w: nat, h: nat, n: nat, x: nat, y: nat)
    requires IsImage(img, w, h, n) && IsImage(was, w, h, n) && x < w && y < h
    requires OnlyRange(img, was, At(w, n, x, y), n)
    ensures forall x': nat, y': nat | x' < w && y' < h && (x', y') != (x, y) ::
              Pixel(img, w, h, n, x', y') == Pixel(was, w, h, n, x', y')
  {
    forall x': nat, y': nat | x' < w && y' < h && (x', y') != (x, y)
      ensures Pixel(img, w, h, n, x', y') == Pixel(was, w, h, n, x', y')
    {
      AtApart(w, n, x, y, x', y');
      AtInside(w, h, n, x', y');
    }
  }

  // ---- The passes -----------------------------------------------------------------------------------

  predicate Interlaceable(f: Format) {
    ValidFormat(f) && 0 < f.x <= MAX_DIMENSION && 0 < f.y <= MAX_DIMENSION
  }

  function PassFormat(f: Format, p: nat): Format {
    f.(x := PassWidth(f.x, p), y := PassHeight(f.y, p))
  }

  predicate EmptyPass(f: Format, p: nat) {
    PassWidth(f.x, p) == 0 || PassHeight(f.y, p) == 0
  }

  /** The image of a pass; a pass without pixels has no data. */
  function PassImage(f: Format, p: nat, data: seq<byte>): (r: Option<seq<byte>>)
    requires Interlaceable(f)
    ensures r.Some? ==> PassLength(f, p) <= |data|
  {
    if EmptyPass(f, p) then Some([])
    else
      match Rows(PassFormat(f, p), data)
      case None => None
      case Some(rows) => Some(Pixels(PassFormat(f, p), rows))
  }

  lemma {:induction false} PassSizes(h: nat, w: nat, n: nat)
    ensures Times(h, Times(w, n)) == Times(Times(h, w), n)
    ensures h == 0 || w == 0 ==> Times(Times(h, w), n) == 0
    decreases h
  {
    if h > 0 {
      PassSizes(h - 1, w, n);
      TimesAdd(Times(h - 1, w), w, n);
    }
  }

  function PassLength(f: Format, p: nat): nat
    requires Interlaceable(f)
  {
    if EmptyPass(f, p) then 0 else Times(PassHeight(f.y, p), RowLength(PassFormat(f, p)) + 1)
  }

  /** The images of the passes in front of those still in the data. */
  function PrependImages(done: seq<seq<byte>>, rest: Option<seq<seq<byte>>>): Option<seq<seq<byte>>> {
    match rest
    case None => None
    case Some(images) => Some(done + images)
  }

  /** The images of the passes from p on, one after the other in the data. */
  function Passes(f: Format, data: seq<byte>, p: nat): (r: Option<seq<seq<byte>>>)
    requires Interlaceable(f) && p <= 7
    ensures r.Some? ==> |r.value| == 7 - p
    decreases 7 - p, |data|
  {
    if p == 7 then Some([])
    else
      match PassImage(f, p, data)
      case None => None
      case Some(img) =>
        PrependImages([img], Passes(f, data[PassLength(f, p)..], p + 1))
  }

  /** The images of the first passes. */
  ghost predicate AreImages(f: Format, images: seq<seq<byte>>) {
    |images| <= 7 && forall q | 0 <= q < |images| :: IsImage(images[q], PassWidth(f.x, q), PassHeight(f.y, q), PixelSize(f))
  }

  /** The pixel of a pass that goes to (x, y). */
  function Source(f: Format, images: seq<seq<byte>>, x: nat, y: nat): seq<byte>
    requires Interlaceable(f) && AreImages(f, images) && x < f.x && y < f.y && PassOf(x, y) < |images|
  {
    var p := PassOf(x, y);
    PassesCoverOnce(f.x, f.y);
    Pixel(images[p], PassWidth(f.x, p), PassHeight(f.y, p), PixelSize(f), InX(x, y), InY(x, y))
  }

  /** Pixels of passes before p, and in pass p those before (i, j). */
  predicate Before(p: nat, i: nat, j: nat, x: nat, y: nat) {
    var q := PassOf(x, y);
    q < p || (q == p && (InY(x, y) < j || (InY(x, y) == j && InX(x, y) < i)))
  }

  /** Those pixels are in place. */
  ghost predicate Placed(f: Format, final: seq<byte>, images: seq<seq<byte>>, p: nat, i: nat, j: nat) {
    Interlaceable(f) && AreImages(f, images) && IsImage(final, f.x, f.y, PixelSize(f)) &&
    (p < |images| || (p == |images| && i == 0 && j == 0)) &&
    forall g: nat :: Guard(g) ==> PlacedNow(f, final, images, p, i, j)
  }

  ghost predicate PlacedNow(f: Format, final: seq<byte>, images: seq<seq<byte>>, p: nat, i: nat, j: nat)
    requires Interlaceable(f) && AreImages(f, images) && IsImage(final, f.x, f.y, PixelSize(f))
    requires p < |images| || (p == |images| && i == 0 && j == 0)
  {
    forall x: nat, y: nat | x < f.x && y < f.y && Before(p, i, j, x, y) ::
      Pixel(final, f.x, f.y, PixelSize(f), x, y) == Source(f, images, x, y)
  }

  /** Copies a pixel of one image to another. */
  method CopyPixel(to: array<byte>, w: nat, h: nat, x: nat, y: nat, from: array<byte>, fw: nat, fh: nat, i: nat, j: nat, n: nat)
    requires IsImage(to[..], w, h, n) && IsImage(from[..], fw, fh, n) && to != from
    requires x < w && y < h && i < fw && j < fh
    modifies to
    ensures IsImage(to[..], w, h, n) && Pixel(to[..], w, h, n, x, y) == Pixel(from[..], fw, fh, n, i, j)
    ensures forall x': nat, y': nat | x' < w && y' < h && (x', y') != (x, y) ::
              Pixel(to[..], w, h, n, x', y') == Pixel(old(to[..]), w, h, n, x', y')
  {
    AtInside(w, h, n, x, y);
    AtInside(fw, fh, n, i, j);
    ghost var was := to[..];
    CopyBytes(to, At(w, n, x, y), from, At(fw, n, i, j), n);
    OnePixel(to[..], was, w, h, n, x, y);
  }

  lemma PlacedNext(f: Format, was: seq<byte>, final: seq<byte>, images: seq<seq<byte>>, p: nat, i: nat, j: nat)
    requires p < |images| && Placed(f, was, images, p, i, j) && IsImage(final, f.x, f.y, PixelSize(f))
    requires InPass(f.x, f.y, p, i, j) && OutX(p, i) < f.x && OutY(p, j) < f.y && PassOf(OutX(p, i), OutY(p, j)) == p
    requires Pixel(final, f.x, f.y, PixelSize(f), OutX(p, i), OutY(p, j)) == Source(f, images, OutX(p, i), OutY(p, j))
    requires forall x: nat, y: nat | x < f.x && y < f.y && (x, y) != (OutX(p, i), OutY(p, j)) ::
               Pixel(final, f.x, f.y, PixelSize(f), x, y) == Pixel(was, f.x, f.y, PixelSize(f), x, y)
    ensures Placed(f, final, images, p, i + 1, j)
  {
    assert Guard(0);
    forall x: nat, y: nat | x < f.x && y < f.y && Before(p, i + 1, j, x, y)
      ensures Pixel(final, f.x, f.y, PixelSize(f), x, y) == Source(f, images, x, y)
    {
      BackAndThere(x, y);
      if (x, y) != (OutX(p, i), OutY(p, j)) {
        assert Before(p, i, j, x, y);
      }
    }
  }

  lemma PixelGoes(f: Format, images: seq<seq<byte>>, p: nat, i: nat, j: nat)
    requires Interlaceable(f) && AreImages(f, images) && p < |images| && i < PassWidth(f.x, p) && j < PassHeight(f.y, p)
    ensures var x, y := OutX(p, i), OutY(p, j);
            x < f.x && y < f.y && PassOf(x, y) == p &&
            Source(f, images, x, y) == Pixel(images[p], PassWidth(f.x, p), PassHeight(f.y, p), PixelSize(f), i, j)
  {
    ThereAndBack(p, i, j);
    PassWidthIs(f.x, p, i);
    PassHeightIs(f.y, p, j);
  }

  /** One pixel of a pass goes to its place. */
  method PlacePixel(f: Format, final: array<byte>, img: array<byte>, p: nat, i: nat, j: nat, w: nat, h: nat, ghost images: seq<seq<byte>>)
    requires p < |images| && Placed(f, final[..], images, p, i, j) && final != img && images[p] == img[..]
    requires w == PassWidth(f.x, p) && h == PassHeight(f.y, p) && i < w && j < h
    modifies final
    ensures Placed(f, final[..], images, p, i + 1, j)
  {
    PixelGoes(f, images, p, i, j);
    ghost var was := final[..];
    CopyPixel(final, f.x, f.y, OutX(p, i), OutY(p, j), img, w, h, i, j, PixelSize(f));
    PlacedNext(f, was, final[..], images, p, i, j);
  }

  lemma RowPlaced(f: Format, final: seq<byte>, images: seq<seq<byte>>, p: nat, j: nat)
    requires p < |images| && Placed(f, final, images, p, PassWidth(f.x, p), j)
    ensures Placed(f, final, images, p, 0, j + 1)
  {
    assert Guard(0);
    forall x: nat, y: nat | x < f.x && y < f.y && Before(p, 0, j + 1, x, y)
      ensures Before(p, PassWidth(f.x, p), j, x, y)
    {
      BackAndThere(x, y);
      PassWidthIs(f.x, PassOf(x, y), InX(x, y));
    }
  }

  lemma PassPlaced(f: Format, final: seq<byte>, images: seq<seq<byte>>, p: nat)
    requires p < |images| && (Placed(f, final, images, p, 0, PassHeight(f.y, p)) || (EmptyPass(f, p) && Placed(f, final, images, p, 0, 0)))
    ensures Placed(f, final, images, p + 1, 0, 0)
  {
    assert Guard(0);
    forall x: nat, y: nat | x < f.x && y < f.y && Before(p + 1, 0, 0, x, y)
      ensures Before(p, 0, PassHeight(f.y, p), x, y) && (EmptyPass(f, p) ==> Before(p, 0, 0, x, y))
    {
      BackAndThere(x, y);
      PassWidthIs(f.x, PassOf(x, y), InX(x, y));
      PassHeightIs(f.y, PassOf(x, y), InY(x, y));
    }
  }

  /** Nothing is placed by the images of later passes. */
  lemma MoreImages(f: Format, final: seq<byte>, images: seq<seq<byte>>, img: seq<byte>)
    requires |images| < 7 && Placed(f, final, images, |images|, 0, 0)
    requires IsImage(img, PassWidth(f.x, |images|), PassHeight(f.y, |images|), PixelSize(f))
    ensures Placed(f, final, images + [img], |images|, 0, 0)
  {
    assert Guard(0);
    var more := images + [img];
    assert forall q | 0 <= q < |images| :: more[q] == images[q];
    forall x: nat, y: nat | x < f.x && y < f.y && Before(|images|, 0, 0, x, y)
      ensures Pixel(final, f.x, f.y, PixelSize(f), x, y) == Source(f, more, x, y)
    {
      assert Source(f, more, x, y) == Source(f, images, x, y);
    }
  }

  /** Copies a pass to the image. */
  method PlacePass(f: Format, final: array<byte>, img: array<byte>, p: nat, w: nat, h: nat, ghost images: seq<seq<byte>>)
    requires p < |images| && Placed(f, final[..], images, p, 0, 0) && final != img && images[p] == img[..]
    requires w == PassWidth(f.x, p) && h == PassHeight(f.y, p)
    modifies final
    ensures Placed(f, final[..], images, p + 1, 0, 0)
  {
    for j := 0 to h
      invariant Placed(f, final[..], images, p, 0, j)
    {
      for i := 0 to w
        invariant Placed(f, final[..], images, p, i, j)
      {
        PlacePixel(f, final, img, p, i, j, w, h, images);
      }
      RowPlaced(f, final[..], images, p, j);
    }
    PassPlaced(f, final[..], images, p);
  }

  /** Every pixel of the image is the one of its pass. */
  ghost predicate Deinterlaced(f: Format, final: seq<byte>, images: seq<seq<byte>>) {
    Interlaceable(f) && AreImages(f, images) && |images| == 7 && IsImage(final, f.x, f.y, PixelSize(f)) &&
    forall x: nat, y: nat | x < f.x && y < f.y :: Pixel(final, f.x, f.y, PixelSize(f), x, y) == Source(f, images, x, y)
  }

  lemma AllPlaced(f: Format, final: seq<byte>, images: seq<seq<byte>>)
    requires Placed(f, final, images, 7, 0, 0) && |images| == 7
    ensures Deinterlaced(f, final, images)
  {
    assert Guard(0);
    forall x: nat, y: nat | x < f.x && y < f.y ensures Before(7, 0, 0, x, y) {
    }
  }

  lemma NothingPlaced(f: Format, final: seq<byte>)
    requires Interlaceable(f) && IsImage(final, f.x, f.y, PixelSize(f))
    ensures Placed(f, final, [], 0, 0, 0)
  {
  }

  /** Pass p and those after it lead to whole. */
  ghost predicate Ahead(f: Format, data: seq<byte>, whole: Option<seq<seq<byte>>>, p: nat, off: nat, done: seq<seq<byte>>) {
    Interlaceable(f) && p <= 7 && off <= |data| &&
    forall g: nat :: Guard(g) ==> whole == PrependImages(done, Passes(f, data[off..], p))
  }

  lemma AheadAll(f: Format, data: seq<byte>)
    requires Interlaceable(f)
    ensures Ahead(f, data, Passes(f, data, 0), 0, 0, [])
  {
    assert data[0..] == data;
    var whole := Passes(f, data, 0);
    assert whole.Some? ==> [] + whole.value == whole.value;
  }

  lemma Appended(done: seq<seq<byte>>, img: seq<byte>, rest: Option<seq<seq<byte>>>)
    ensures PrependImages(done, PrependImages([img], rest)) == PrependImages(done + [img], rest)
  {
    if rest.Some? {
      assert done + ([img] + rest.value) == done + [img] + rest.value;
    }
  }

  /** The outcome of decoding pass p. */
  ghost predicate IsPass(f: Format, p: nat, data: seq<byte>, off: nat, r: Option<seq<byte>>, off': nat) {
    Interlaceable(f) && off <= |data| &&
    forall g: nat :: Guard(g) ==> r == PassImage(f, p, data[off..]) && off' == off + PassLength(f, p)
  }

  lemma AheadNext(f: Format, data: seq<byte>, whole: Option<seq<seq<byte>>>, p: nat, off: nat, done: seq<seq<byte>>,
                  r: Option<seq<byte>>, off': nat)
    requires Ahead(f, data, whole, p, off, done) && p < 7 && IsPass(f, p, data, off, r, off')
    ensures r.None? ==> whole == None
    ensures r.Some? ==> Ahead(f, data, whole, p + 1, off', done + [r.value])
  {
    assert Guard(0);
    if r.Some? {
      assert data[off..][PassLength(f, p)..] == data[off'..];
      Appended(done, r.value, Passes(f, data[off'..], p + 1));
    }
  }

  lemma AheadNone(f: Format, data: seq<byte>, whole: Option<seq<seq<byte>>>, off: nat, done: seq<seq<byte>>)
    requires Ahead(f, data, whole, 7, off, done)
    ensures whole == Some(done)
  {
    assert Guard(0);
    assert done + [] == done;
  }

  lemma PassIs(f: Format, p: nat, data: seq<byte>, off: nat, r: Option<seq<byte>>, off': nat, x: nat, y: nat)
    requires Interlaceable(f) && p < 7 && off <= |data| && x == PassWidth(f.x, p) > 0 && y == PassHeight(f.y, p) > 0
    requires var rows := Rows(PassFormat(f, p), data[off..]);
             if rows.Some? then r == Some(Pixels(PassFormat(f, p), rows.value)) else r == None
    requires off' == off + Times(y, RowBytes(Times(x, f.imgN), f.depth) + 1)
    ensures IsPass(f, p, data, off, r, off') && (r.Some? ==> IsImage(r.value, x, y, PixelSize(f)))
  {
    PassSizes(y, x, PixelSize(f));
  }

  /** The image of a pass that has pixels. */
  method PassPixels(f: Format, data: seq<byte>, p: nat, off: nat, x: nat, y: nat) returns (ok: bool, off': nat, raw: array<byte>)
    requires Interlaceable(f) && p < 7 && off <= |data| && x == PassWidth(f.x, p) > 0 && y == PassHeight(f.y, p) > 0
    ensures fresh(raw) && IsPass(f, p, data, off, if ok then Some(raw[..]) else None, off')
    ensures ok ==> IsImage(raw[..], x, y, PixelSize(f))
  {
    ok, raw := CreateImageRaw(PassFormat(f, p), data[off..]);
    off' := off + Times(y, RowBytes(Times(x, f.imgN), f.depth) + 1);
    PassIs(f, p, data, off, if ok then Some(raw[..]) else None, off', x, y);
  }

  lemma NoPixels(f: Format, data: seq<byte>, p: nat, off: nat)
    requires Interlaceable(f) && p < 7 && off <= |data| && EmptyPass(f, p)
    ensures IsPass(f, p, data, off, Some([]), off) && IsImage([], PassWidth(f.x, p), PassHeight(f.y, p), PixelSize(f))
  {
    PassSizes(PassHeight(f.y, p), PassWidth(f.x, p), PixelSize(f));
  }

  /** Pass p: decoded from the data at off and copied to its place. */
  method DecodePass(f: Format, data: seq<byte>, final: array<byte>, p: nat, off: nat, ghost done: seq<seq<byte>>)
    returns (ok: bool, off': nat, ghost img: seq<byte>)
    requires Interlaceable(f) && p < 7 && |done| == p && off <= |data| && Placed(f, final[..], done, p, 0, 0)
    modifies final
    ensures IsPass(f, p, data, off, if ok then Some(img) else None, off')
    ensures ok ==> Placed(f, final[..], done + [img], p + 1, 0, 0)
  {
    var x, y := PassWidth(f.x, p), PassHeight(f.y, p);
    ok, off', img := true, off, [];
    if x > 0 && y > 0 {
      var raw;
      ok, off', raw := PassPixels(f, data, p, off, x, y);
      img := raw[..];
      if ok {
        MoreImages(f, final[..], done, img);
        PlacePass(f, final, raw, p, x, y, done + [img]);
      }
    } else {
      NoPixels(f, data, p, off);
      MoreImages(f, final[..], done, img);
      PassPlaced(f, final[..], done + [img], p);
    }
  }

  method NextPass(f: Format, data: seq<byte>, final: array<byte>, p: nat, off: nat, ghost done: seq<seq<byte>>,
                  ghost whole: Option<seq<seq<byte>>>)
    returns (ok: bool, off': nat, ghost img: seq<byte>)
    requires p < 7 && |done| == p && Ahead(f, data, whole, p, off, done) && Placed(f, final[..], done, p, 0, 0)
    modifies final
    ensures !ok ==> whole == None
    ensures ok ==> Ahead(f, data, whole, p + 1, off', done + [img])
    ensures ok ==> Placed(f, final[..], done + [img], p + 1, 0, 0)
  {
    ok, off', img := DecodePass(f, data, final, p, off, done);
    AheadNext(f, data, whole, p, off, done, if ok then Some(img) else None, off');
  }

  method PlacePasses(f: Format, data: seq<byte>, ghost whole: Option<seq<seq<byte>>>) returns (ok: bool, final: array<byte>)
    requires Interlaceable(f) && Ahead(f, data, whole, 0, 0, [])
    ensures ok <==> whole.Some?
    ensures ok ==> Deinterlaced(f, final[..], whole.value)
  {
    final := new byte[Times(Times(f.y, f.x), PixelSize(f))];
    var p: nat, off: nat := 0, 0;
    ghost var done: seq<seq<byte>> := [];
    NothingPlaced(f, final[..]);
    while p < 7
      invariant |done| == p && Ahead(f, data, whole, p, off, done) && Placed(f, final[..], done, p, 0, 0)
    {
      ghost var img;
      ok, off, img := NextPass(f, data, final, p, off, done, whole);
      if !ok {
        return;
      }
      done, p := done + [img], p + 1;
    }
    AheadNone(f, data, whole, off, done);
    AllPlaced(f, final[..], done);
    ok := true;
  }

  // ---- Bytes ----------------------------------------------------------------------------------------------

  predicate SameByte(a: seq<byte>, i: nat, b: seq<byte>, j: nat) {
    i < |a| && j < |b| && a[i] == b[j]
  }

  /** Byte k of pixel (x, y) is that of the pass which the drawing of section 2.6 gives, in the pass's own image. */
  ghost predicate ByteOfPass(f: Format, images: seq<seq<byte>>, out: seq<byte>, x: nat, y: nat, k: nat)
    requires |images| == 7
  {
    var p, n := Block(x % 8, y % 8) - 1, SizeOfPixel(f);
    var i, j := x / ColumnsApart(p), y / RowsApart(p);
    SameByte(images[p], PlaceIn(ColumnsOf(f.x, p), n, i, j, k), out, PlaceIn(f.x, n, x, y, k))
  }

  ghost predicate BytesOfPasses(f: Format, images: seq<seq<byte>>, out: seq<byte>) {
    |images| == 7 && |out| == f.y * f.x * SizeOfPixel(f) &&
    forall x: nat, y: nat, k: nat | x < f.x && y < f.y && k < SizeOfPixel(f) :: ByteOfPass(f, images, out, x, y, k)
  }

  lemma AtIsPlace(w: nat, n: nat, x: nat, y: nat)
    ensures At(w, n, x, y) == (y * w + x) * n
  {
    TimesIs(y, w);
    TimesIs(y * w + x, n);
  }

  lemma PixelHasByte(img: seq<byte>, w: nat, h: nat, n: nat, x: nat, y: nat, k: nat)
    requires IsImage(img, w, h, n) && x < w && y < h && k < n
    ensures (y * w + x) * n + k < |img| && Pixel(img, w, h, n, x, y)[k] == img[(y * w + x) * n + k]
  {
    AtIsPlace(w, n, x, y);
    AtInside(w, h, n, x, y);
  }

  lemma PlaceInPass(f: Format, x: nat, y: nat)
    requires Interlaceable(f) && x < f.x && y < f.y
    ensures var p := PassOf(x, y); p < 7 && !EmptyPass(f, p) && InX(x, y) < PassWidth(f.x, p) && InY(x, y) < PassHeight(f.y, p)
  {
    PassesCoverOnce(f.x, f.y);
    assert InPass(f.x, f.y, PassOf(x, y), InX(x, y), InY(x, y));
  }

  /** Equal pixels have equal bytes. */
  lemma SamePixels(img: seq<byte>, w: nat, h: nat, i: nat, j: nat, out: seq<byte>, w': nat, h': nat, x: nat, y: nat, n: nat, k: nat)
    requires IsImage(img, w, h, n) && i < w && j < h && IsImage(out, w', h', n) && x < w' && y < h' && k < n
    requires Pixel(img, w, h, n, i, j) == Pixel(out, w', h', n, x, y)
    ensures SameByte(img, PlaceIn(w, n, i, j, k), out, PlaceIn(w', n, x, y, k))
  {
    PixelHasByte(img, w, h, n, i, j, k);
    PixelHasByte(out, w', h', n, x, y, k);
  }

  lemma ByteIsOfPass(f: Format, out: seq<byte>, images: seq<seq<byte>>, x: nat, y: nat, k: nat)
    requires Deinterlaced(f, out, images) && x < f.x && y < f.y && k < PixelSize(f)
    ensures ByteOfPass(f, images, out, x, y, k)
  {
    var p, n := PassOf(x, y), PixelSize(f);
    PassIsBlock(x, y);
    PassSizesAre(f.x, f.y, p);
    PlaceInPass(f, x, y);
    assert Pixel(out, f.x, f.y, n, x, y) == Source(f, images, x, y);
    SamePixels(images[p], PassWidth(f.x, p), PassHeight(f.y, p), InX(x, y), InY(x, y), out, f.x, f.y, x, y, n, k);
  }

  lemma DeinterlacedBytes(f: Format, out: seq<byte>, images: seq<seq<byte>>)
    requires Deinterlaced(f, out, images)
    ensures BytesOfPasses(f, images, out)
  {
    TimesIs(f.y, f.x);
    TimesIs(f.y * f.x, PixelSize(f));
    forall x: nat, y: nat, k: nat | x < f.x && y < f.y && k < SizeOfPixel(f) ensures ByteOfPass(f, images, out, x, y, k) {
      ByteIsOfPass(f, out, images, x, y, k);
    }
  }

  /** Decodes the passes one after the other and copies each to its place; or, without interlacing, the
      image as a whole. */
  method CreateImage(f: Format, data: seq<byte>, interlaced: bool) returns (ok: bool, out: array<byte>)
    requires Interlaceable(f)
    ensures !interlaced ==> (ok <==> Rows(f, data).Some?) && (ok ==> out[..] == Pixels(f, Rows(f, data).value))
    ensures interlaced ==> (ok <==> Passes(f, data, 0).Some?) && (ok ==> Deinterlaced(f, out[..], Passes(f, data, 0).value))
    ensures ok ==> if interlaced then BytesOfPasses(f, Passes(f, data, 0).value, out[..])
                   else exists rows :: DecodedRows(f, data, rows) && Shows(f, rows, out[..])
  {
    if interlaced {
      AheadAll(f, data);
      ok, out := PlacePasses(f, data, Passes(f, data, 0));
      if ok {
        DeinterlacedBytes(f, out[..], Passes(f, data, 0).value);
      }
    } else {
      ok, out := CreateImageRaw(f, data);
    }
  }
}
