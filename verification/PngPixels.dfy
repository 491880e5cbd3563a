/** What the bytes of a PNG image are, given the bytes of its data. */
module PngPixels {
  import opened Bits
  import opened Multiples
  import opened Options
  import opened PngFormat
  import opened PngSpec

  // ---- The bytes of a pixel in terms of its samples ---------------------------------------------------------

  /** The byte that changes places with byte k. */
  function Swap(k: nat): nat {
    if k % 2 == 0 then k + 1 else k - 1
  }

  lemma SwapIs(k: nat)
    ensures forall t: nat :: Swap(2 * t + k) == 2 * t + Swap(k)
    ensures forall n: nat :: k < 2 * n ==> Swap(k) < 2 * n
  {
  }

  /** Byte k of pixel i of a finished row: a byte of one of the pixel's samples, or of its alpha. */
  function OutByte(f: Format, row: seq<byte>, i: nat, k: nat): byte
    requires ValidFormat(f) && k < PixelSize(f) && RowBytes(Times(i + 1, f.imgN), f.depth) <= |row|
  {
    if f.depth == 16 then WordByte(row, f.imgN, i, k)
    else
      TimesMono(i, i + 1, f.imgN);
      SampleByte(row, f.imgN, f.depth, Scale(f.color, f.depth), i, k)
  }

  function WordByte(row: seq<byte>, n: nat, i: nat, k: nat): byte
    requires 2 * Times(i + 1, n) <= |row|
  {
    if k < 2 * n then SwapIs(k); row[2 * Times(i, n) + Swap(k)] else 255
  }

  function SampleByte(row: seq<byte>, n: nat, depth: nat, scale: nat, i: nat, k: nat): byte
    requires IsDepth(depth) && RowBytes(Times(i + 1, n), depth) <= |row|
  {
    if k < n then RowBytesMono(Times(i, n) + k + 1, Times(i + 1, n), depth); Scaled(scale, Sample(row, depth, Times(i, n) + k))
    else 255
  }

  lemma RowBytesMono(m: nat, n: nat, depth: nat)
    requires m <= n && (IsDepth(depth) || depth == 16)
    ensures RowBytes(m, depth) <= RowBytes(n, depth)
  {
  }

  lemma {:induction false} SamplesAt(row: seq<byte>, depth: nat, scale: nat, n: nat, i: nat)
    requires IsDepth(depth) && RowBytes(n, depth) <= |row| && i < n
    ensures RowBytes(i + 1, depth) <= |row| && Samples(row, depth, scale, n)[i] == Scaled(scale, Sample(row, depth, i))
  {
    RowBytesMono(i + 1, n, depth);
    if i < n - 1 {
      RowBytesMono(n - 1, n, depth);
      SamplesAt(row, depth, scale, n - 1, i);
    }
  }

  lemma {:induction false} WithAlphaAt(s: seq<byte>, x: nat, n: nat, i: nat, k: nat)
    requires |s| == Times(x, n) && i < x && k <= n
    ensures Times(i, n + 1) + k < Times(x, n + 1) && Times(i, n) + n <= |s|
    ensures WithAlpha(s, x, n)[Times(i, n + 1) + k] == if k < n then s[Times(i, n) + k] else 255
    decreases x
  {
    TimesMono(i, x, n + 1);
    TimesMono(i, x, n);
    if i < x - 1 {
      WithAlphaAt(s[..|s| - n], x - 1, n, i, k);
    }
  }

  /** Pixel i of a row with alpha, w being the length of a pixel without it. */
  function NativePixel(row: seq<byte>, w: nat, n: nat, i: nat): (r: seq<byte>)
    requires w == 2 * n && Times(i, w) + w <= |row|
    ensures |r| == w + 2
  {
    NativeWords(row[Times(i, w)..Times(i, w) + w], n) + [255, 255]
  }

  lemma AlphaStep(row: seq<byte>, x: nat, n: nat, w: nat, v: nat)
    requires w == 2 * n && v == w + 2 && 0 < x && Times(x, w) <= |row|
    ensures Times(x - 1, w) + w == Times(x, w) && Times(x - 1, v) + v == Times(x, v)
    ensures |NativeAlpha(row, x - 1, n)| == Times(x - 1, v)
    ensures NativeAlpha(row, x, n) == NativeAlpha(row, x - 1, n) + NativePixel(row, w, n, x - 1)
  {
    var a, b := NativeAlpha(row, x - 1, n), NativeWords(row[Times(x - 1, w)..Times(x, w)], n);
    Regroup(a, b, [255, 255]);
  }

  lemma {:induction false} NativeAlphaAt(row: seq<byte>, x: nat, n: nat, w: nat, v: nat, i: nat, k: nat)
    requires w == 2 * n && v == w + 2 && Times(x, w) <= |row| && i < x && k < v
    ensures Times(i, w) + w <= |row| && Times(i, v) + k < |NativeAlpha(row, x, n)|
    ensures NativeAlpha(row, x, n)[Times(i, v) + k] == NativePixel(row, w, n, i)[k]
    decreases x
  {
    AlphaStep(row, x, n, w, v);
    if i < x - 1 {
      NativeAlphaAt(row, x - 1, n, w, v, i, k);
    }
  }

  lemma NativeByte(row: seq<byte>, n: nat, k: nat)
    requires 2 * n <= |row|
    ensures k < 2 * n ==> Swap(k) < 2 * n && NativeWords(row, n)[k] == row[Swap(k)]
  {
    if k < 2 * n {
      var i := k / 2;
      NativeWord(row, n, i);
      assert k == 2 * i || k == 2 * i + 1;
    }
  }

  lemma FinishedAt(f: Format, row: seq<byte>, i: nat, k: nat)
    requires ValidFormat(f) && |row| == RowLength(f) && i < f.x && k < PixelSize(f)
    ensures RowBytes(Times(i + 1, f.imgN), f.depth) <= |row| && Times(i, PixelSize(f)) + k < Stride(f)
    ensures Finished(f, row)[Times(i, PixelSize(f)) + k] == OutByte(f, row, i, k)
  {
    TimesMono(i, f.x, PixelSize(f));
    TimesMono(i, f.x, f.imgN);
    RowBytesMono(Times(i + 1, f.imgN), Times(f.x, f.imgN), f.depth);
    if f.depth == 16 {
      FinishedWord(f, row, i, k);
    } else {
      FinishedByte(f, row, i, k);
    }
  }

  lemma FinishedWords(f: Format, row: seq<byte>)
    requires ValidFormat(f) && f.depth == 16 && |row| == RowLength(f)
    ensures 2 * Times(f.x, f.imgN) <= |row| && PixelSize(f) == 2 * f.outN
    ensures Finished(f, row) == if f.outN == f.imgN then NativeWords(row, Times(f.x, f.imgN))
                                else (TimesTwo(f.x, f.imgN); NativeAlpha(row, f.x, f.imgN))
  {
    TimesTwo(f.x, f.imgN);
  }

  lemma FinishedWord(f: Format, row: seq<byte>, i: nat, k: nat)
    requires ValidFormat(f) && f.depth == 16 && |row| == RowLength(f) && i < f.x && k < PixelSize(f)
    requires RowBytes(Times(i + 1, f.imgN), f.depth) <= |row| && Times(i, PixelSize(f)) + k < Stride(f)
    ensures Finished(f, row)[Times(i, PixelSize(f)) + k] == OutByte(f, row, i, k)
  {
    FinishedWords(f, row);
    RowOfWords(row, f.x, f.imgN, f.outN, i, k);
  }

  lemma RowOfWords(row: seq<byte>, x: nat, n: nat, outN: nat, i: nat, k: nat)
    requires 2 * Times(x, n) <= |row| && (outN == n || outN == n + 1) && i < x && k < 2 * outN && 2 * Times(i + 1, n) <= |row|
    ensures Times(x, 2 * n) == 2 * Times(x, n) && Times(i, 2 * outN) + k < Times(x, 2 * outN)
    ensures (if outN == n then NativeWords(row, Times(x, n)) else NativeAlpha(row, x, n))[Times(i, 2 * outN) + k] ==
            WordByte(row, n, i, k)
  {
    TimesTwo(x, n);
    TimesTwo(i, n);
    TimesMono(i, x, n);
    if outN == n {
      WordInRow(row, Times(x, n), Times(i, n), k);
    } else {
      AlphaWord(row, x, n, 2 * n, 2 * outN, i, k);
    }
  }

  lemma PixelWord(row: seq<byte>, w: nat, n: nat, i: nat, k: nat)
    requires w == 2 * n && Times(i, w) + w <= |row| && k < w + 2
    ensures k < w ==> Swap(k) < w
    ensures NativePixel(row, w, n, i)[k] == if k < w then row[Times(i, w) + Swap(k)] else 255
  {
    NativeByte(row[Times(i, w)..Times(i, w) + w], n, k);
  }

  lemma AlphaWord(row: seq<byte>, x: nat, n: nat, w: nat, v: nat, i: nat, k: nat)
    requires w == 2 * n && v == w + 2 && Times(x, w) <= |row| && i < x && k < v
    ensures Times(i, v) + k < |NativeAlpha(row, x, n)| && (k < w ==> Times(i, w) + Swap(k) < |row|)
    ensures NativeAlpha(row, x, n)[Times(i, v) + k] == if k < w then row[Times(i, w) + Swap(k)] else 255
  {
    NativeAlphaAt(row, x, n, w, v, i, k);
    PixelWord(row, w, n, i, k);
  }

  lemma WordInRow(row: seq<byte>, n: nat, t: nat, k: nat)
    requires 2 * n <= |row| && 2 * t + k < 2 * n
    ensures Swap(2 * t + k) == 2 * t + Swap(k) < 2 * n && NativeWords(row, n)[2 * t + k] == row[2 * t + Swap(k)]
  {
    NativeByte(row, n, 2 * t + k);
    SwapIs(k);
  }

  lemma FinishedByte(f: Format, row: seq<byte>, i: nat, k: nat)
    requires ValidFormat(f) && f.depth != 16 && |row| == RowLength(f) && i < f.x && k < PixelSize(f)
    requires RowBytes(Times(i + 1, f.imgN), f.depth) <= |row| && Times(i, PixelSize(f)) + k < Stride(f)
    ensures Finished(f, row)[Times(i, PixelSize(f)) + k] == OutByte(f, row, i, k)
  {
    var m, scale := Times(f.x, f.imgN), Scale(f.color, f.depth);
    RowOfSamples(Samples(row, f.depth, scale, m), row, f.x, f.imgN, m, f.outN, f.depth, scale, i, k);
  }

  lemma RowOfSamples(s: seq<byte>, row: seq<byte>, x: nat, n: nat, m: nat, outN: nat, depth: nat, scale: nat, i: nat, k: nat)
    requires IsDepth(depth) && m == Times(x, n) && RowBytes(m, depth) <= |row| && RowBytes(Times(i + 1, n), depth) <= |row|
    requires s == Samples(row, depth, scale, m) && (outN == n || outN == n + 1) && i < x && k < outN
    ensures Times(i, outN) + k < Times(x, outN)
    ensures (if outN == n then s else WithAlpha(s, x, n))[Times(i, outN) + k] == SampleByte(row, n, depth, scale, i, k)
  {
    TimesMono(i, x, outN);
    if outN == n {
      SampleAtByte(row, depth, scale, m, n, i, k);
    } else {
      AlphaSample(s, row, x, n, m, depth, scale, i, k);
    }
  }

  lemma AlphaSample(s: seq<byte>, row: seq<byte>, x: nat, n: nat, m: nat, depth: nat, scale: nat, i: nat, k: nat)
    requires IsDepth(depth) && m == Times(x, n) && RowBytes(m, depth) <= |row| && RowBytes(Times(i + 1, n), depth) <= |row|
    requires s == Samples(row, depth, scale, m) && i < x && k <= n
    ensures Times(i, n + 1) + k < |WithAlpha(s, x, n)|
    ensures WithAlpha(s, x, n)[Times(i, n + 1) + k] == SampleByte(row, n, depth, scale, i, k)
  {
    TimesMono(i, x, n);
    WithAlphaAt(s, x, n, i, k);
    if k < n {
      SampleAtByte(row, depth, scale, m, n, i, k);
    }
  }

  lemma SampleAtByte(row: seq<byte>, depth: nat, scale: nat, m: nat, n: nat, i: nat, k: nat)
    requires IsDepth(depth) && RowBytes(m, depth) <= |row| && RowBytes(Times(i + 1, n), depth) <= |row|
    requires k < n && Times(i, n) + k < m
    ensures Samples(row, depth, scale, m)[Times(i, n) + k] == SampleByte(row, n, depth, scale, i, k)
  {
    SamplesAt(row, depth, scale, m, Times(i, n) + k);
  }

  lemma {:induction false} PixelsAt(f: Format, rows: seq<seq<byte>>, j: nat, m: nat)
    requires ValidFormat(f) && (forall i | 0 <= i < |rows| :: |rows[i]| == RowLength(f)) && j < |rows| && m < Stride(f)
    ensures Times(j, Stride(f)) + m < Times(|rows|, Stride(f))
    ensures Pixels(f, rows)[Times(j, Stride(f)) + m] == Finished(f, rows[j])[m]
    decreases |rows|
  {
    TimesMono(j, |rows|, Stride(f));
    if j < |rows| - 1 {
      PixelsAt(f, rows[..|rows| - 1], j, m);
    }
  }

  /** Rows of an image. */
  predicate AreRows(f: Format, rows: seq<seq<byte>>)
    requires ValidFormat(f)
  {
    |rows| == f.y && forall j | 0 <= j < f.y :: |rows[j]| == RowLength(f)
  }

  // ---- From the data to the rows ------------------------------------------------------------------------------

  /** Row j, at its place in the data: a filter type and n bytes. The row above the first is zeros. */
  ghost predicate RowDecoded(n: nat, bpp: nat, data: seq<byte>, above: seq<byte>, rows: seq<seq<byte>>, j: nat, at: nat)
    requires j < |rows| && at + n + 1 <= |data|
  {
    data[at] <= 4 && |rows[j]| == n &&
    UnfilteredRow(data[at] as nat, bpp, data[at + 1..at + 1 + n], if j == 0 then above else rows[j - 1], rows[j])
  }

  lemma RowInside(j: nat, m: nat, n: nat, data: seq<byte>)
    requires j < m && Times(m, n + 1) <= |data|
    ensures Times(j, n + 1) + n + 1 <= |data|
  {
    TimesMono(j, m, n + 1);
  }

  /** The first row of the rest is the next row of the whole. */
  lemma RowOfRest(n: nat, bpp: nat, data: seq<byte>, above: seq<byte>, rows: seq<seq<byte>>, j: nat, at: nat, rest: seq<byte>)
    requires 0 < j < |rows| && n + 1 <= at && at + n + 1 <= |data| && rest == data[n + 1..]
    requires RowDecoded(n, bpp, rest, rows[0], rows[1..], j - 1, at - (n + 1))
    ensures RowDecoded(n, bpp, data, above, rows, j, at)
  {
    assert rest[at - (n + 1) + 1..at - (n + 1) + 1 + n] == data[at + 1..at + 1 + n];
  }

  lemma {:induction false} RowIsDecoded(bpp: nat, n: nat, m: nat, data: seq<byte>, above: seq<byte>, j: nat)
    requires 0 < bpp && |above| == n && Times(m, n + 1) <= |data| && Unfiltered(bpp, n, m, data, above).Some? && j < m
    ensures Times(j, n + 1) + n + 1 <= |data|
    ensures RowDecoded(n, bpp, data, above, Unfiltered(bpp, n, m, data, above).value, j, Times(j, n + 1))
    decreases m
  {
    RowInside(j, m, n, data);
    var rows := Unfiltered(bpp, n, m, data, above).value;
    RowIsUnfiltered(data[0] as nat, bpp, data[1..n + 1], above);
    if j > 0 {
      RowIsDecoded(bpp, n, m - 1, data[n + 1..], rows[0], j - 1);
      assert rows[1..] == Unfiltered(bpp, n, m - 1, data[n + 1..], rows[0]).value;
      RowOfRest(n, bpp, data, above, rows, j, Times(j, n + 1), data[n + 1..]);
    }
  }

  /** Rows are refused only for a filter type above 4. */
  lemma {:induction false} RefusedRow(bpp: nat, n: nat, m: nat, data: seq<byte>, above: seq<byte>) returns (j: nat)
    requires 0 < bpp && |above| == n && Times(m, n + 1) <= |data| && Unfiltered(bpp, n, m, data, above).None?
    ensures j < m && Times(j, n + 1) < |data| && data[Times(j, n + 1)] > 4
    decreases m
  {
    if data[0] > 4 {
      j := 0;
    } else {
      var row := UnfilterRow(data[0] as nat, bpp, data[1..n + 1], above, n);
      j := RefusedRow(bpp, n, m - 1, data[n + 1..], row);
      j := j + 1;
    }
  }

  /** The bytes of a row, and of what bytes are predicted from to the left. */
  function RowSize(f: Format): nat {
    (f.x * f.imgN * f.depth + 7) / 8
  }

  function FilterSize(f: Format): nat {
    if f.depth < 8 then 1 else f.imgN * f.depth / 8
  }

  /** The data are long enough, and all filter types are known. */
  ghost predicate Decodable(f: Format, data: seq<byte>) {
    f.y * (RowSize(f) + 1) <= |data| && forall j: nat | j < f.y :: KnownFilter(f, data, j)
  }

  predicate KnownFilter(f: Format, data: seq<byte>, j: nat) {
    j * (RowSize(f) + 1) < |data| && data[j * (RowSize(f) + 1)] <= 4
  }

  /** The rows that the data encode. */
  ghost predicate DecodedRows(f: Format, data: seq<byte>, rows: seq<seq<byte>>) {
    |rows| == f.y && forall j: nat | j < f.y :: NthDecoded(f, data, rows, j)
  }

  ghost predicate NthDecoded(f: Format, data: seq<byte>, rows: seq<seq<byte>>, j: nat)
    requires j < |rows|
  {
    var n := RowSize(f);
    j * (n + 1) + n + 1 <= |data| && RowDecoded(n, FilterSize(f), data, Zeros(n), rows, j, j * (n + 1))
  }

  lemma SizesAre(f: Format)
    requires ValidFormat(f)
    ensures RowSize(f) == RowLength(f) && FilterSize(f) == PixelBytes(f)
  {
    TimesIs(f.x, f.imgN);
    RowBytesIs(f.x * f.imgN, f.depth);
  }

  lemma RowsAreDecoded(f: Format, data: seq<byte>)
    requires ValidFormat(f) && Rows(f, data).Some?
    ensures Decodable(f, data) && DecodedRows(f, data, Rows(f, data).value)
  {
    var n, rows := RowLength(f), Rows(f, data).value;
    SizesAre(f);
    PixelFits(f);
    TimesIs(f.y, n + 1);
    forall j: nat | j < f.y ensures KnownFilter(f, data, j) && NthDecoded(f, data, rows, j) {
      TimesIs(j, n + 1);
      RowIsDecoded(PixelBytes(f), n, f.y, data, Zeros(n), j);
    }
  }

  lemma RowsAreRefused(f: Format, data: seq<byte>)
    requires ValidFormat(f) && Rows(f, data).None?
    ensures !Decodable(f, data)
  {
    var n := RowLength(f);
    SizesAre(f);
    PixelFits(f);
    TimesIs(f.y, n + 1);
    if Times(f.y, n + 1) <= |data| {
      var j := RefusedRow(PixelBytes(f), n, f.y, data, Zeros(n));
      TimesIs(j, n + 1);
      assert !KnownFilter(f, data, j);
    }
  }

  // ---- From the rows to the pixels ----------------------------------------------------------------------------

  /** Grey samples of less than eight bits are stretched to 0 to 255; others are as they are. */
  predicate ByteOfSample(color: nat, largest: nat, sample: nat, v: byte)
    requires largest > 0
  {
    v as nat == if color == 0 then sample * 255 / largest else sample
  }

  /** Sample i of a row, as a byte; samples of less than eight bits are packed from the high bits of each byte down. */
  predicate SampleIs(depth: nat, color: nat, row: seq<byte>, i: nat, v: byte) {
    match depth
    case 8 => i < |row| && v == row[i]
    case 4 => i / 2 < |row| && ByteOfSample(color, 15, row[i / 2] as nat / [16, 1][i % 2] % 16, v)
    case 2 => i / 4 < |row| && ByteOfSample(color, 3, row[i / 4] as nat / [64, 16, 4, 1][i % 4] % 4, v)
    case _ => i / 8 < |row| && ByteOfSample(color, 1, row[i / 8] as nat / [128, 64, 32, 16, 8, 4, 2, 1][i % 8] % 2, v)
  }

  /** A byte of sample i, low byte first; in the row the high byte is the first. */
  predicate HalfIs(row: seq<byte>, i: nat, low: bool, v: byte) {
    2 * i + 1 < |row| && v == row[if low then 2 * i + 1 else 2 * i]
  }

  /** Byte k of pixel x of a row is v: it belongs to one of the pixel's samples, or to an opaque alpha behind them. */
  predicate PixelByteIs(f: Format, row: seq<byte>, x: nat, k: nat, v: byte) {
    if f.depth == 16 then
      if k >= 2 * f.imgN then v == 255 else HalfIs(row, x * f.imgN + k / 2, k % 2 == 0, v)
    else
      if k >= f.imgN then v == 255 else SampleIs(f.depth, f.color, row, x * f.imgN + k, v)
  }

  lemma ShrNext(v: nat, n: nat, q: nat)
    requires Shr(v, n) == q
    ensures Shr(v, n + 1) == q / 2
  {
    ShrShr(v, n, 1);
  }

  /** Shifting by less than eight. */
  lemma ShrIs(v: nat)
    ensures Shr(v, 0) == v && Shr(v, 1) == v / 2 && Shr(v, 2) == v / 4 && Shr(v, 3) == v / 8
    ensures Shr(v, 4) == v / 16 && Shr(v, 5) == v / 32 && Shr(v, 6) == v / 64 && Shr(v, 7) == v / 128
  {
    ShrNext(v, 0, v);
    ShrNext(v, 1, v / 2);
    ShrNext(v, 2, v / 4);
    ShrNext(v, 3, v / 8);
    ShrNext(v, 4, v / 16);
    ShrNext(v, 5, v / 32);
    ShrNext(v, 6, v / 64);
  }

  lemma LowIs(v: nat)
    ensures Low(v, 1) == v % 2 && Low(v, 2) == v % 4 && Low(v, 4) == v % 16
  {
    LowTwo(v);
    LowTwo(v / 4);
    FourBits(v);
  }

  lemma LowTwo(v: nat)
    ensures Low(v, 2) == v % 4 && Low(v, 4) == Low(v, 2) + 4 * Low(v / 4, 2)
  {
    assert v % 4 == v % 2 + 2 * (v / 2 % 2);
    assert v / 2 / 2 == v / 4;
    LowStep(v, 1);
    LowStep(v, 3);
    LowStep(v / 2, 2);
    assert Low(v / 2, 1) == v / 2 % 2;
  }

  lemma LowStep(v: nat, n: nat)
    ensures Low(v, n + 1) == v % 2 + 2 * Low(v / 2, n)
  {
  }

  lemma FourBits(v: nat)
    ensures v % 16 == v % 4 + 4 * (v / 4 % 4)
  {
  }

  lemma BitSample(row: seq<byte>, i: nat)
    requires RowBytes(i + 1, 1) <= |row|
    ensures Sample(row, 1, i) == row[i / 8] as nat / [128, 64, 32, 16, 8, 4, 2, 1][i % 8] % 2
  {
    var b, s := row[i / 8] as nat, 7 - i % 8;
    Pow2Small();
    ShrIs(b);
    LowIs(Shr(b, s));
  }

  lemma TwoBitSample(row: seq<byte>, i: nat)
    requires RowBytes(i + 1, 2) <= |row|
    ensures Sample(row, 2, i) == row[i / 4] as nat / [64, 16, 4, 1][i % 4] % 4
  {
    var b, s := row[i / 4] as nat, 6 - 2 * (i % 4);
    Pow2Small();
    ShrIs(b);
    LowIs(Shr(b, s));
  }

  lemma FourBitSample(row: seq<byte>, i: nat)
    requires RowBytes(i + 1, 4) <= |row|
    ensures Sample(row, 4, i) == row[i / 2] as nat / [16, 1][i % 2] % 16
  {
    var b, s := row[i / 2] as nat, 4 - 4 * (i % 2);
    Pow2Small();
    ShrIs(b);
    LowIs(Shr(b, s));
  }

  lemma ScaledIs(color: nat, depth: nat, v: nat)
    requires (depth == 1 && v < 2) || (depth == 2 && v < 4) || (depth == 4 && v < 16)
    ensures ByteOfSample(color, if depth == 1 then 1 else if depth == 2 then 3 else 15, v, Scaled(Scale(color, depth), v))
  {
  }

  lemma SampleIsScaled(depth: nat, color: nat, row: seq<byte>, i: nat)
    requires IsDepth(depth) && RowBytes(i + 1, depth) <= |row|
    ensures SampleIs(depth, color, row, i, Scaled(Scale(color, depth), Sample(row, depth, i)))
  {
    match depth {
      case 1 =>
        BitSample(row, i);
        ScaledIs(color, 1, Sample(row, 1, i));
      case 2 =>
        TwoBitSample(row, i);
        ScaledIs(color, 2, Sample(row, 2, i));
      case 4 =>
        FourBitSample(row, i);
        ScaledIs(color, 4, Sample(row, 4, i));
      case _ => EightBitSample(color, row, depth, i);
    }
  }

  lemma SampleByteIs(f: Format, row: seq<byte>, x: nat, k: nat)
    requires ValidFormat(f) && f.depth != 16 && k < f.imgN && RowBytes(Times(x + 1, f.imgN), f.depth) <= |row|
    ensures PixelByteIs(f, row, x, k, SampleByte(row, f.imgN, f.depth, Scale(f.color, f.depth), x, k))
  {
    TimesIs(x, f.imgN);
    RowBytesMono(Times(x, f.imgN) + k + 1, Times(x + 1, f.imgN), f.depth);
    SampleIsScaled(f.depth, f.color, row, Times(x, f.imgN) + k);
  }

  lemma EightBitSample(color: nat, row: seq<byte>, depth: nat, i: nat)
    requires depth == 8 && i < |row|
    ensures Scaled(Scale(color, depth), Sample(row, depth, i)) == row[i]
  {
    ByteSample(row, depth, i);
  }

  lemma PixelByteIsOut(f: Format, row: seq<byte>, x: nat, k: nat)
    requires ValidFormat(f) && k < PixelSize(f) && RowBytes(Times(x + 1, f.imgN), f.depth) <= |row|
    ensures PixelByteIs(f, row, x, k, OutByte(f, row, x, k))
  {
    if f.depth == 16 {
      TimesIs(x, f.imgN);
      WordByteIs(f, row, x, k);
    } else if k < f.imgN {
      SampleByteIs(f, row, x, k);
    }
  }

  lemma WordByteIs(f: Format, row: seq<byte>, x: nat, k: nat)
    requires ValidFormat(f) && f.depth == 16 && 2 * Times(x + 1, f.imgN) <= |row| && Times(x, f.imgN) == x * f.imgN
    ensures PixelByteIs(f, row, x, k, WordByte(row, f.imgN, x, k))
  {
    SwapIs(k);
  }

  /** The image of the rows: of width f.x, row by row, each pixel with all its bytes. */
  ghost predicate Shows(f: Format, rows: seq<seq<byte>>, out: seq<byte>)
    requires |rows| == f.y
  {
    |out| == f.y * f.x * SizeOfPixel(f) &&
    forall y: nat, x: nat, k: nat | y < f.y && x < f.x && k < SizeOfPixel(f) :: ShowsByte(f, rows[y], out, y, x, k)
  }

  function SizeOfPixel(f: Format): nat {
    f.outN * if f.depth == 16 then 2 else 1
  }

  /** Byte k of pixel (x, y) in an image of width w and with n bytes a pixel. */
  function PlaceIn(w: nat, n: nat, x: nat, y: nat, k: nat): nat {
    (y * w + x) * n + k
  }

  ghost predicate ShowsByte(f: Format, row: seq<byte>, out: seq<byte>, y: nat, x: nat, k: nat) {
    var at := PlaceIn(f.x, SizeOfPixel(f), x, y, k);
    at < |out| && PixelByteIs(f, row, x, k, out[at])
  }

  lemma PlaceOfByte(y: nat, w: nat, x: nat, n: nat, k: nat)
    ensures Times(y, Times(w, n)) + (Times(x, n) + k) == PlaceIn(w, n, x, y, k)
  {
    TimesIs(w, n);
    TimesIs(x, n);
    TimesIs(y, w * n);
    assert y * (w * n) == y * w * n;
  }

  lemma OutByteAt(f: Format, rows: seq<seq<byte>>, row: seq<byte>, y: nat, x: nat, k: nat, m: nat, at: nat)
    requires ValidFormat(f) && AreRows(f, rows) && y < f.y && x < f.x && k < PixelSize(f)
    requires row == rows[y] && m == Times(x, PixelSize(f)) + k && at == Times(y, Stride(f)) + m
    ensures RowBytes(Times(x + 1, f.imgN), f.depth) <= |row|
    ensures at < |Pixels(f, rows)| && Pixels(f, rows)[at] == OutByte(f, row, x, k)
  {
    FinishedAt(f, row, x, k);
    PixelsAt(f, rows, y, m);
  }

  lemma ByteAt(f: Format, rows: seq<seq<byte>>, out: seq<byte>, y: nat, x: nat, k: nat, at: nat)
    requires ValidFormat(f) && AreRows(f, rows) && y < f.y && x < f.x && k < PixelSize(f) && out == Pixels(f, rows)
    requires at == Times(y, Stride(f)) + (Times(x, PixelSize(f)) + k)
    ensures at < |out| && PixelByteIs(f, rows[y], x, k, out[at])
  {
    OutByteAt(f, rows, rows[y], y, x, k, Times(x, PixelSize(f)) + k, at);
    PixelByteIsOut(f, rows[y], x, k);
  }

  lemma ByteShows(f: Format, rows: seq<seq<byte>>, out: seq<byte>, y: nat, x: nat, k: nat)
    requires ValidFormat(f) && AreRows(f, rows) && y < f.y && x < f.x && k < PixelSize(f) && out == Pixels(f, rows)
    ensures ShowsByte(f, rows[y], out, y, x, k)
  {
    var at := PlaceIn(f.x, PixelSize(f), x, y, k);
    PlaceOfByte(y, f.x, x, PixelSize(f), k);
    ByteAt(f, rows, out, y, x, k, at);
    SizeIs(f);
  }

  lemma SizeIs(f: Format)
    ensures SizeOfPixel(f) == PixelSize(f)
  {
  }

  lemma PixelsShow(f: Format, rows: seq<seq<byte>>)
    requires ValidFormat(f) && AreRows(f, rows)
    ensures Shows(f, rows, Pixels(f, rows))
  {
    var n, out := PixelSize(f), Pixels(f, rows);
    PlaceOfByte(f.y, f.x, 0, n, 0);
    forall y: nat, x: nat, k: nat | y < f.y && x < f.x && k < n ensures ShowsByte(f, rows[y], out, y, x, k) {
      ByteShows(f, rows, out, y, x, k);
    }
  }
}
