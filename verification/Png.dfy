/** The PNG decoder after inflation: rows un-filtered in a buffer of two alternating rows. */
module PngDecoder {
  import opened Bits
  import opened Folding
  import opened Multiples
  import opened Options
  import opened PngFormat
  import opened PngPixels
  import opened PngSpec

  /** The halves of a two-row buffer. */
  ghost predicate Halves(buf: array<byte>, cur: nat, prior: nat, n: nat) {
    buf.Length == 2 * n && ((cur == 0 && prior == n) || (cur == n && prior == 0))
  }

  /** The first k bytes of the current row are un-filtered; the row above is as it was. */
  ghost predicate UnfilteredUpTo(buf: array<byte>, cur: nat, prior: nat, n: nat, above: seq<byte>, t: nat, bpp: nat, raw: seq<byte>, k: nat)
    requires Halves(buf, cur, prior, n)
    reads buf
  {
    k <= n && |raw| == n && |above| == n && 0 < bpp &&
    forall g: nat :: Guard(g) ==> RowsAre(buf, cur, prior, n, above, t, bpp, raw, k)
  }

  ghost predicate RowsAre(buf: array<byte>, cur: nat, prior: nat, n: nat, above: seq<byte>, t: nat, bpp: nat, raw: seq<byte>, k: nat)
    requires Halves(buf, cur, prior, n) && k <= n && |raw| == n && |above| == n && 0 < bpp
    reads buf
  {
    buf[prior..prior + n] == above && buf[cur..cur + k] == UnfilterRow(t, bpp, raw, above, k)
  }

  /** One byte more: the prediction plus the filtered byte. */
  method PutByte(buf: array<byte>, cur: nat, prior: nat, n: nat, ghost above: seq<byte>, ghost t: nat, ghost bpp: nat, raw: seq<byte>, k: nat, p: nat)
    requires Halves(buf, cur, prior, n) && k < n && UnfilteredUpTo(buf, cur, prior, n, above, t, bpp, raw, k)
    requires p == Prediction(t, bpp, buf[cur..cur + k], above, k)
    modifies buf
    ensures UnfilteredUpTo(buf, cur, prior, n, above, t, bpp, raw, k + 1)
  {
    assert Guard(0);
    ghost var row := buf[cur..cur + k];
    var v := ((raw[k] as nat + p) % 256) as byte;
    assert row + [v] == UnfilterRow(t, bpp, raw, above, k + 1);
    buf[cur + k] := v;
    assert buf[cur..cur + (k + 1)] == row + [v];
    assert buf[prior..prior + n] == above;
  }

  /** A byte of the row's first pixel. */
  method PutFirst(buf: array<byte>, cur: nat, prior: nat, n: nat, ghost above: seq<byte>, ghost t: nat, ghost bpp: nat, raw: seq<byte>, k: nat, p: nat)
    requires Halves(buf, cur, prior, n) && k < n && UnfilteredUpTo(buf, cur, prior, n, above, t, bpp, raw, k)
    requires k < bpp && p == Predict(t, 0, buf[prior + k] as nat, 0)
    modifies buf
    ensures UnfilteredUpTo(buf, cur, prior, n, above, t, bpp, raw, k + 1)
  {
    assert Guard(0);
    assert above[k] == buf[prior + k];
    PutByte(buf, cur, prior, n, above, t, bpp, raw, k, p);
  }

  /** A byte with one to the left. */
  method PutNext(buf: array<byte>, cur: nat, prior: nat, n: nat, ghost above: seq<byte>, ghost t: nat, ghost bpp: nat, raw: seq<byte>, k: nat, p: nat)
    requires Halves(buf, cur, prior, n) && k < n && UnfilteredUpTo(buf, cur, prior, n, above, t, bpp, raw, k)
    requires k >= bpp && p == Predict(t, buf[cur + k - bpp] as nat, buf[prior + k] as nat, buf[prior + k - bpp] as nat)
    modifies buf
    ensures UnfilteredUpTo(buf, cur, prior, n, above, t, bpp, raw, k + 1)
  {
    assert Guard(0);
    ghost var row := buf[cur..cur + k];
    assert row[k - bpp] == buf[cur + k - bpp] && above[k - bpp] == buf[prior + k - bpp] && above[k] == buf[prior + k];
    PutByte(buf, cur, prior, n, above, t, bpp, raw, k, p);
  }

  /** The predictor without distances: a threshold against the smaller and the larger neighbour. */
  method Paeth(a: nat, b: nat, c: nat) returns (p: nat)
    ensures p == PaethPredictor(a, b, c)
  {
    var thresh := c * 3 - (a + b);
    var lo := if a < b then a else b;
    var hi := if a < b then b else a;
    var t0 := if hi <= thresh then lo else c;
    p := if thresh <= lo then hi else t0;
  }

  // ---- One row, by filter type --------------------------------------------------------------------

  /** No filter: the bytes as they are. */
  method CopyRow(buf: array<byte>, cur: nat, prior: nat, n: nat, raw: seq<byte>, bpp: nat)
    requires Halves(buf, cur, prior, n) && |raw| == n && 0 < bpp <= n
    modifies buf
    ensures UnfilteredUpTo(buf, cur, prior, n, old(buf[prior..prior + n]), 0, bpp, raw, n)
  {
    ghost var above, t: nat := buf[prior..prior + n], 0;
    for k := 0 to n
      invariant UnfilteredUpTo(buf, cur, prior, n, above, t, bpp, raw, k)
    {
      if k < bpp {
        PutFirst(buf, cur, prior, n, above, t, bpp, raw, k, 0);
      } else {
        PutNext(buf, cur, prior, n, above, t, bpp, raw, k, 0);
      }
    }
  }

  /** Sub. */
  method AddLeft(buf: array<byte>, cur: nat, prior: nat, n: nat, raw: seq<byte>, bpp: nat)
    requires Halves(buf, cur, prior, n) && |raw| == n && 0 < bpp <= n
    modifies buf
    ensures UnfilteredUpTo(buf, cur, prior, n, old(buf[prior..prior + n]), 1, bpp, raw, n)
  {
    ghost var above, t: nat := buf[prior..prior + n], 1;
    for k := 0 to bpp
      invariant UnfilteredUpTo(buf, cur, prior, n, above, t, bpp, raw, k)
    {
      PutFirst(buf, cur, prior, n, above, t, bpp, raw, k, 0);
    }
    for k := bpp to n
      invariant UnfilteredUpTo(buf, cur, prior, n, above, t, bpp, raw, k)
    {
      PutNext(buf, cur, prior, n, above, t, bpp, raw, k, buf[cur + k - bpp] as nat);
    }
  }

  /** Up. */
  method AddUp(buf: array<byte>, cur: nat, prior: nat, n: nat, raw: seq<byte>, bpp: nat)
    requires Halves(buf, cur, prior, n) && |raw| == n && 0 < bpp <= n
    modifies buf
    ensures UnfilteredUpTo(buf, cur, prior, n, old(buf[prior..prior + n]), 2, bpp, raw, n)
  {
    ghost var above, t: nat := buf[prior..prior + n], 2;
    for k := 0 to n
      invariant UnfilteredUpTo(buf, cur, prior, n, above, t, bpp, raw, k)
    {
      if k < bpp {
        PutFirst(buf, cur, prior, n, above, t, bpp, raw, k, buf[prior + k] as nat);
      } else {
        PutNext(buf, cur, prior, n, above, t, bpp, raw, k, buf[prior + k] as nat);
      }
    }
  }

  /** Average. */
  method AddAverage(buf: array<byte>, cur: nat, prior: nat, n: nat, raw: seq<byte>, bpp: nat)
    requires Halves(buf, cur, prior, n) && |raw| == n && 0 < bpp <= n
    modifies buf
    ensures UnfilteredUpTo(buf, cur, prior, n, old(buf[prior..prior + n]), 3, bpp, raw, n)
  {
    ghost var above, t: nat := buf[prior..prior + n], 3;
    for k := 0 to bpp
      invariant UnfilteredUpTo(buf, cur, prior, n, above, t, bpp, raw, k)
    {
      PutFirst(buf, cur, prior, n, above, t, bpp, raw, k, (buf[prior + k] as nat) / 2);
    }
    for k := bpp to n
      invariant UnfilteredUpTo(buf, cur, prior, n, above, t, bpp, raw, k)
    {
      PutNext(buf, cur, prior, n, above, t, bpp, raw, k, ((buf[prior + k] as nat) + (buf[cur + k - bpp] as nat)) / 2);
    }
  }

  /** Paeth; in the first pixel it predicts the byte above. */
  method AddPaeth(buf: array<byte>, cur: nat, prior: nat, n: nat, raw: seq<byte>, bpp: nat)
    requires Halves(buf, cur, prior, n) && |raw| == n && 0 < bpp <= n
    modifies buf
    ensures UnfilteredUpTo(buf, cur, prior, n, old(buf[prior..prior + n]), 4, bpp, raw, n)
  {
    ghost var above, t: nat := buf[prior..prior + n], 4;
    for k := 0 to bpp
      invariant UnfilteredUpTo(buf, cur, prior, n, above, t, bpp, raw, k)
    {
      PutFirst(buf, cur, prior, n, above, t, bpp, raw, k, buf[prior + k] as nat);
    }
    for k := bpp to n
      invariant UnfilteredUpTo(buf, cur, prior, n, above, t, bpp, raw, k)
    {
      var p := Paeth(buf[cur + k - bpp] as nat, buf[prior + k] as nat, buf[prior + k - bpp] as nat);
      PutNext(buf, cur, prior, n, above, t, bpp, raw, k, p);
    }
  }

  /** Average on the first row. */
  method AddHalfLeft(buf: array<byte>, cur: nat, prior: nat, n: nat, raw: seq<byte>, bpp: nat)
    requires Halves(buf, cur, prior, n) && |raw| == n && 0 < bpp <= n
    modifies buf
    ensures UnfilteredUpTo(buf, cur, prior, n, old(buf[prior..prior + n]), 5, bpp, raw, n)
  {
    ghost var above, t: nat := buf[prior..prior + n], 5;
    for k := 0 to bpp
      invariant UnfilteredUpTo(buf, cur, prior, n, above, t, bpp, raw, k)
    {
      PutFirst(buf, cur, prior, n, above, t, bpp, raw, k, 0);
    }
    for k := bpp to n
      invariant UnfilteredUpTo(buf, cur, prior, n, above, t, bpp, raw, k)
    {
      PutNext(buf, cur, prior, n, above, t, bpp, raw, k, (buf[cur + k - bpp] as nat) / 2);
    }
  }

  /** Un-filters one row into the current half; the other half stays. */
  method Unfilter(buf: array<byte>, cur: nat, prior: nat, n: nat, raw: seq<byte>, bpp: nat, filter: nat)
    requires Halves(buf, cur, prior, n) && |raw| == n && 0 < bpp <= n && filter <= 5
    modifies buf
    ensures buf[cur..cur + n] == UnfilterRow(filter, bpp, raw, old(buf[prior..prior + n]), n)
    ensures filter <= 4 ==> UnfilteredRow(filter, bpp, raw, old(buf[prior..prior + n]), buf[cur..cur + n])
    ensures filter == 5 ==> UnfilteredRow(3, bpp, raw, Zeros(n), buf[cur..cur + n])
  {
    assert Guard(0);
    ghost var above := buf[prior..prior + n];
    match filter {
      case 0 => CopyRow(buf, cur, prior, n, raw, bpp);
      case 1 => AddLeft(buf, cur, prior, n, raw, bpp);
      case 2 => AddUp(buf, cur, prior, n, raw, bpp);
      case 3 => AddAverage(buf, cur, prior, n, raw, bpp);
      case 4 => AddPaeth(buf, cur, prior, n, raw, bpp);
      case _ => AddHalfLeft(buf, cur, prior, n, raw, bpp);
    }
    if filter <= 4 {
      RowIsUnfiltered(filter, bpp, raw, above);
    } else {
      FirstRow(3, bpp, raw, above, n);
      RowIsUnfiltered(3, bpp, raw, Zeros(n));
    }
  }

  // ---- Samples ----------------------------------------------------------------------------------------

  /** The samples from position d on. */
  ghost predicate SamplesAre(dest: array<byte>, d: nat, row: seq<byte>, depth: nat, scale: nat, n: nat)
    reads dest
  {
    IsDepth(depth) && RowBytes(n, depth) <= |row| && d + n <= dest.Length &&
    forall g: nat :: Guard(g) ==> dest[d..d + n] == Samples(row, depth, scale, n)
  }

  /** Nothing outside a range has changed. */
  ghost predicate OnlyRange(now: seq<byte>, was: seq<byte>, d: nat, n: nat) {
    |now| == |was| && forall i | 0 <= i < |now| && !(d <= i < d + n) :: now[i] == was[i]
  }

  method PutSample(dest: array<byte>, d: nat, ghost row: seq<byte>, ghost depth: nat, scale: nat, i: nat, v: nat)
    requires SamplesAre(dest, d, row, depth, scale, i) && d + i < dest.Length
    requires RowBytes(i + 1, depth) <= |row| && v == Sample(row, depth, i)
    modifies dest
    ensures SamplesAre(dest, d, row, depth, scale, i + 1) && OnlyRange(dest[..], old(dest[..]), d + i, 1)
  {
    assert Guard(0);
    ghost var before := dest[d..d + i];
    dest[d + i] := ((scale * v) % 256) as byte;
    assert dest[d..d + i] == before;
    assert dest[d..d + (i + 1)] == before + [dest[d + i]];
  }

  /** The byte that holds sample i, shifted left until the sample is on top. */
  function Shifted(row: seq<byte>, depth: nat, i: nat): nat
    requires IsDepth(depth) && RowBytes(i + 1, depth) <= |row|
  {
    SampleAt(depth, i);
    Low(Shl(row[ByteOf(depth, i)] as nat, BitOf(depth, i)), 8)
  }

  /** Shifting a byte left in steps is shifting it at once. */
  lemma ShiftMore(b: nat, s: nat, d: nat, n: nat)
    ensures Low(Shl(Low(Shl(b, s), n), d), n) == Low(Shl(b, s + d), n)
  {
    var x := Shl(b, s);
    var lo, hi := Low(x, n), Shr(x, n);
    Split(x, n);
    ShlShl(b, s, d);
    ShlAdd(lo, Shl(hi, n), d);
    ShlShl(hi, n, d);
    ShlShl(hi, d, n);
    var y := Shl(lo, d);
    Split(y, n);
    LowBound(y, n);
    ShlAdd(Shr(y, n), Shl(hi, d), n);
    Join(Low(y, n), Shr(y, n) + Shl(hi, d), n);
  }

  /** The byte being shifted before sample i, unless the next byte is to be loaded, and where that one is. */
  ghost predicate InByte(row: seq<byte>, depth: nat, i: nat, at: nat, inb: nat)
    requires IsDepth(depth)
  {
    forall g: nat :: Guard(g) ==>
      at == RowBytes(i, depth) &&
      (BitOf(depth, i) > 0 && RowBytes(i + 1, depth) <= |row| ==> inb == Shifted(row, depth, i))
  }

  /** The byte is shifted left under its top bits; the next one is loaded when it is used up. */
  method NextSample(row: seq<byte>, depth: nat, i: nat, at: nat, inb: nat) returns (v: nat, at': nat, inb': nat)
    requires IsDepth(depth) && RowBytes(i + 1, depth) <= |row| && InByte(row, depth, i, at, inb)
    ensures v == Sample(row, depth, i) && InByte(row, depth, i + 1, at', inb')
  {
    assert Guard(0);
    var eight := 8;
    SampleAt(depth, i);
    at', inb' := at, inb;
    if BitOf(depth, i) == 0 {
      inb', at' := row[at] as nat, at + 1;
      LoadByte(row, depth, i);
    }
    TopSample(row, depth, i);
    v := Shr(inb', eight - depth);
    inb' := Low(Shl(inb', depth), eight);
  }

  /** Several samples a byte. The source writes this loop once for each depth. */
  method ExpandBits(dest: array<byte>, d: nat, row: seq<byte>, depth: nat, scale: nat, n: nat)
    requires d + n <= dest.Length && IsDepth(depth) && RowBytes(n, depth) <= |row|
    modifies dest
    ensures SamplesAre(dest, d, row, depth, scale, n) && OnlyRange(dest[..], old(dest[..]), d, n)
  {
    var at: nat, inb: nat := 0, 0;
    for i := 0 to n
      invariant SamplesAre(dest, d, row, depth, scale, i) && OnlyRange(dest[..], old(dest[..]), d, n)
      invariant InByte(row, depth, i, at, inb)
    {
      var v;
      v, at, inb := NextSample(row, depth, i, at, inb);
      PutSample(dest, d, row, depth, scale, i, v);
    }
  }

  lemma LoadByte(row: seq<byte>, depth: nat, i: nat)
    requires IsDepth(depth) && RowBytes(i + 1, depth) <= |row| && BitOf(depth, i) == 0
    ensures Shifted(row, depth, i) == row[ByteOf(depth, i)] as nat
  {
    var eight := 8;
    Pow2Small();
    LowSmall(row[ByteOf(depth, i)] as nat, eight);
  }

  lemma TopSample(row: seq<byte>, depth: nat, i: nat)
    requires IsDepth(depth) && RowBytes(i + 1, depth) <= |row|
    ensures var eight := 8; Shr(Shifted(row, depth, i), eight - depth) == Sample(row, depth, i)
    ensures var eight := 8; BitOf(depth, i + 1) > 0 && RowBytes(i + 2, depth) <= |row| ==>
              Low(Shl(Shifted(row, depth, i), depth), eight) == Shifted(row, depth, i + 1)
  {
    var eight := 8;
    Pow2Small();
    SampleAt(depth, i);
    SampleAt(depth, i + 1);
    OnTop(row[ByteOf(depth, i)] as nat, BitOf(depth, i), depth, eight);
    ShiftMore(row[ByteOf(depth, i)] as nat, BitOf(depth, i), depth, eight);
  }

  // ---- Alpha ----------------------------------------------------------------------------------------

  /** Adds an opaque alpha sample to every pixel, from the last pixel backwards, so that the destination may
      be where the source is. */
  method ExpandAlpha(dest: array<byte>, d: nat, src: array<byte>, s: nat, x: nat, n: nat)
    requires d + Times(x, n + 1) <= dest.Length && s + Times(x, n) <= src.Length
    requires dest != src || d == s
    modifies dest
    ensures dest[d..d + Times(x, n + 1)] == WithAlpha(old(src[s..s + Times(x, n)]), x, n)
    ensures OnlyRange(dest[..], old(dest[..]), d, Times(x, n + 1))
  {
    ghost var row := src[s..s + Times(x, n)];
    ghost var all := WithAlpha(row, x, n);
    ghost var w, from, to := Times(x, n + 1), Times(x, n), Times(x, n + 1);
    var i := x;
    TimesLess(x, n);
    while i > 0
      invariant 0 <= i <= x && from == Times(i, n) && to == Times(i, n + 1) && from <= to <= w && from <= |row|
      invariant OnlyRange(dest[..], old(dest[..]), d, w)
      invariant forall p | to <= p < w :: dest[d + p] == all[p]
      invariant forall p | 0 <= p < from :: src[s + p] == row[p]
    {
      i := i - 1;
      ExpandPixel(dest, d, src, s, x, n, i, row);
      from, to := Times(i, n), Times(i, n + 1);
    }
    assert dest[d..d + w] == all;
  }

  lemma {:induction false} TimesLess(i: nat, n: nat)
    ensures Times(i, n) <= Times(i, n + 1)
  {
    if i > 0 {
      TimesLess(i - 1, n);
    }
  }

  /** The samples of a pixel, from the last one backwards, and the opaque one behind them. */
  method PlacePixel(dest: array<byte>, to: nat, src: array<byte>, from: nat, n: nat)
    requires to + n + 1 <= dest.Length && from + n <= src.Length && (dest != src || from <= to)
    modifies dest
    ensures dest[to..to + n + 1] == old(src[from..from + n]) + [255] && OnlyRange(dest[..], old(dest[..]), to, n + 1)
  {
    ghost var pixel, was := src[from..from + n], dest[..];
    dest[to + n] := 255;
    var c := n;
    while c > 0
      invariant 0 <= c <= n && OnlyRange(dest[..], was, to, n + 1)
      invariant dest[to + n] == 255 && forall k | c <= k < n :: dest[to + k] == pixel[k]
      invariant forall k | 0 <= k < c :: src[from + k] == pixel[k]
    {
      c := c - 1;
      dest[to + c] := src[from + c];
    }
    assert dest[to..to + n + 1] == pixel + [255];
  }

  /** One pixel with its alpha sample. */
  lemma PixelWithAlpha(row: seq<byte>, x: nat, n: nat, i: nat, from: nat, to: nat, pixel: seq<byte>)
    requires |row| == Times(x, n) && i < x && from == Times(i, n) && to == Times(i, n + 1) && |pixel| == n
    requires from + n <= |row| && forall k | 0 <= k < n :: pixel[k] == row[from + k]
    ensures to + n + 1 <= |WithAlpha(row, x, n)|
    ensures forall k | 0 <= k < n + 1 :: WithAlpha(row, x, n)[to + k] == (pixel + [255])[k]
  {
    WithAlphaAt(row, x, n, i, n);
    forall k | 0 <= k < n + 1 ensures WithAlpha(row, x, n)[to + k] == (pixel + [255])[k] {
      WithAlphaAt(row, x, n, i, k);
    }
  }

  method ExpandPixel(dest: array<byte>, d: nat, src: array<byte>, s: nat, x: nat, n: nat, i: nat, ghost row: seq<byte>)
    requires i < x && d + Times(x, n + 1) <= dest.Length && s + Times(x, n) <= src.Length && |row| == Times(x, n)
    requires dest != src || d == s
    requires forall p | 0 <= p < Times(i + 1, n) && p < |row| :: src[s + p] == row[p]
    modifies dest
    ensures OnlyRange(dest[..], old(dest[..]), d + Times(i, n + 1), n + 1)
    ensures Times(i + 1, n + 1) <= Times(x, n + 1) && Times(i, n) <= |row| && Times(i, n) <= Times(i, n + 1)
    ensures forall p | Times(i, n + 1) <= p < Times(i + 1, n + 1) :: dest[d + p] == WithAlpha(row, x, n)[p]
    ensures forall p | 0 <= p < Times(i, n) :: src[s + p] == row[p]
  {
    var from, to := Times(i, n), Times(i, n + 1);
    TimesLess(i, n);
    TimesMono(i, x, n);
    TimesMono(i, x, n + 1);
    ghost var pixel := src[s + from..s + from + n];
    PixelWithAlpha(row, x, n, i, from, to, pixel);
    PlacePixel(dest, d + to, src, s + from, n);
    forall p | to <= p < to + n + 1 ensures dest[d + p] == WithAlpha(row, x, n)[p] {
      assert dest[d + p] == dest[d + to..d + to + n + 1][p - to];
      assert WithAlpha(row, x, n)[to + (p - to)] == (pixel + [255])[p - to];
    }
  }

  // ---- Images ---------------------------------------------------------------------------------------

  method CopyBytes(dest: array<byte>, d: nat, src: array<byte>, s: nat, n: nat)
    requires d + n <= dest.Length && s + n <= src.Length && dest != src
    modifies dest
    ensures dest[d..d + n] == src[s..s + n] && OnlyRange(dest[..], old(dest[..]), d, n)
  {
    ghost var bytes := src[s..s + n];
    for i := 0 to n
      invariant forall k | 0 <= k < i :: dest[d + k] == bytes[k]
      invariant OnlyRange(dest[..], old(dest[..]), d, n)
    {
      dest[d + i] := src[s + i];
    }
    assert dest[d..d + n] == bytes;
  }

  lemma FinishedBytes(f: Format, row: seq<byte>)
    requires ValidFormat(f) && f.depth == 8 && |row| == RowLength(f)
    ensures |row| == Times(f.x, f.imgN) && Stride(f) == if f.outN == f.imgN then |row| else Times(f.x, f.imgN + 1)
    ensures Finished(f, row) == if f.outN == f.imgN then row else WithAlpha(row, f.x, f.imgN)
  {
    BytesAreSamples(row, f.depth, |row|);
    assert row[..|row|] == row;
  }

  method FinishBits(f: Format, out: array<byte>, d: nat, row: seq<byte>)
    requires ValidFormat(f) && f.depth < 8 && |row| == RowLength(f) && d + Stride(f) <= out.Length
    modifies out
    ensures out[d..d + Stride(f)] == Finished(f, row)
    ensures OnlyRange(out[..], old(out[..]), d, Stride(f))
  {
    TimesLess(f.x, f.imgN);
    ExpandBits(out, d, row, f.depth, Scale(f.color, f.depth), Times(f.x, f.imgN));
    assert Guard(0);
    if f.outN != f.imgN {
      ExpandAlpha(out, d, out, d, f.x, f.imgN);
    }
  }

  /** Samples of eight bits are copied, with alpha if wanted. */
  method FinishBytes(x: nat, imgN: nat, alpha: bool, out: array<byte>, d: nat, buf: array<byte>, cur: nat, n: nat)
    requires out != buf && cur + n <= buf.Length && n == Times(x, imgN)
    requires d + Times(x, if alpha then imgN + 1 else imgN) <= out.Length
    modifies out
    ensures var width := Times(x, if alpha then imgN + 1 else imgN);
            out[d..d + width] == (if alpha then WithAlpha(buf[cur..cur + n], x, imgN) else buf[cur..cur + n]) &&
            OnlyRange(out[..], old(out[..]), d, width)
  {
    if alpha {
      ExpandAlpha(out, d, buf, cur, x, imgN);
    } else {
      CopyBytes(out, d, buf, cur, n);
    }
  }

  // ---- Samples of 16 bits ---------------------------------------------------------------------------

  /** Big-endian samples become the machine's. */
  method CopyWords(dest: array<byte>, d: nat, src: array<byte>, s: nat, n: nat)
    requires d + 2 * n <= dest.Length && s + 2 * n <= src.Length && dest != src
    modifies dest
    ensures dest[d..d + 2 * n] == NativeWords(src[s..s + 2 * n], n) && OnlyRange(dest[..], old(dest[..]), d, 2 * n)
  {
    ghost var words := src[s..s + 2 * n];
    for i := 0 to n
      invariant dest[d..d + 2 * i] == NativeWords(words, i) && OnlyRange(dest[..], old(dest[..]), d, 2 * n)
    {
      ghost var before := dest[d..d + 2 * i];
      var v := src[s + 2 * i] as nat * 256 + src[s + 2 * i + 1] as nat;
      assert src[s + 2 * i] == words[2 * i] && src[s + 2 * i + 1] == words[2 * i + 1];
      dest[d + 2 * i], dest[d + 2 * i + 1] := (v % 256) as byte, (v / 256) as byte;
      assert dest[d..d + 2 * (i + 1)] == before + [words[2 * i + 1], words[2 * i]];
    }
  }

  /** Samples and alpha of one pixel. */
  method WordPixel(dest: array<byte>, d: nat, src: array<byte>, s: nat, n: nat)
    requires d + 2 * (n + 1) <= dest.Length && s + 2 * n <= src.Length && dest != src
    modifies dest
    ensures dest[d..d + 2 * (n + 1)] == NativeWords(src[s..s + 2 * n], n) + [255, 255]
    ensures OnlyRange(dest[..], old(dest[..]), d, 2 * (n + 1))
  {
    CopyWords(dest, d, src, s, n);
    ghost var words := dest[d..d + 2 * n];
    dest[d + 2 * n], dest[d + 2 * n + 1] := 255, 255;
    assert dest[d..d + 2 * (n + 1)] == words + [255, 255];
  }

  /** The first i pixels from position d on. */
  ghost predicate NativeDone(dest: array<byte>, d: nat, row: seq<byte>, i: nat, n: nat, to: nat)
    reads dest
  {
    Times(i, 2 * n) <= |row| && to == Times(i, 2 * (n + 1)) && d + to <= dest.Length &&
    IsNative(dest[d..d + to], row, i, n)
  }

  ghost predicate IsNative(part: seq<byte>, row: seq<byte>, i: nat, n: nat) {
    forall g: nat :: Guard(g) ==> Times(i, 2 * n) <= |row| && part == NativeAlpha(row, i, n)
  }

  method NextWords(dest: array<byte>, d: nat, src: array<byte>, s: nat, ghost row: seq<byte>, n: nat, ghost i: nat, from: nat, to: nat,
                   ghost end: nat)
    requires from == Times(i, 2 * n) && from + 2 * n <= |row| && s + |row| <= src.Length && row == src[s..s + |row|]
    requires NativeDone(dest, d, row, i, n, to) && end == to + 2 * (n + 1) && d + end <= dest.Length && dest != src
    modifies dest
    ensures NativeDone(dest, d, row, i + 1, n, end) && OnlyRange(dest[..], old(dest[..]), d + to, 2 * (n + 1))
  {
    ghost var before, words := dest[d..d + to], src[s + from..s + from + 2 * n];
    SliceSlice(src[..], s, |row|, from, 2 * n);
    assert words == row[from..from + 2 * n];
    WordPixel(dest, d + to, src, s + from, n);
    ghost var pixel := dest[d + to..d + end];
    assert pixel == NativeWords(words, n) + [255, 255];
    assert dest[d..d + to] == before;
    SliceJoin(dest[..], d, to, end);
    NativeNext(row, i, n, from, before, pixel, dest[d..d + end]);
  }

  lemma SliceSlice<T>(q: seq<T>, s: nat, m: nat, a: nat, k: nat)
    requires s + m <= |q| && a + k <= m
    ensures q[s..s + m][a..a + k] == q[s + a..s + a + k]
  {
    var part, left, right := q[s..s + m], q[s..s + m][a..a + k], q[s + a..s + a + k];
    forall i | 0 <= i < k ensures left[i] == right[i] {
      assert left[i] == part[a + i] && part[a + i] == q[s + (a + i)];
    }
  }

  lemma SliceJoin<T>(q: seq<T>, d: nat, m: nat, e: nat)
    requires m <= e && d + e <= |q|
    ensures q[d..d + e] == q[d..d + m] + q[d + m..d + e]
  {
  }

  lemma NativeNext(row: seq<byte>, i: nat, n: nat, from: nat, before: seq<byte>, pixel: seq<byte>, all: seq<byte>)
    requires from == Times(i, 2 * n) && from + 2 * n <= |row| && all == before + pixel
    requires IsNative(before, row, i, n)
    requires pixel == NativeWords(row[from..from + 2 * n], n) + [255, 255]
    ensures IsNative(all, row, i + 1, n)
  {
    assert Guard(0);
  }

  method WordsWithAlpha(dest: array<byte>, d: nat, src: array<byte>, s: nat, x: nat, n: nat)
    requires d + Times(x, 2 * (n + 1)) <= dest.Length && s + Times(x, 2 * n) <= src.Length && dest != src
    modifies dest
    ensures dest[d..d + Times(x, 2 * (n + 1))] == NativeAlpha(src[s..s + Times(x, 2 * n)], x, n)
    ensures OnlyRange(dest[..], old(dest[..]), d, Times(x, 2 * (n + 1)))
  {
    ghost var row, w := src[s..s + Times(x, 2 * n)], Times(x, 2 * (n + 1));
    var from: nat, to: nat := 0, 0;
    for i := 0 to x
      invariant from == Times(i, 2 * n) && to <= w && NativeDone(dest, d, row, i, n, to)
      invariant OnlyRange(dest[..], old(dest[..]), d, w)
    {
      TimesMono(i, x, 2 * n);
      TimesMono(i, x, 2 * (n + 1));
      ghost var end := to + 2 * (n + 1);
      NextWords(dest, d, src, s, row, n, i, from, to, end);
      from, to := from + 2 * n, to + 2 * (n + 1);
    }
    assert Guard(0);
  }

  method FinishWords(f: Format, out: array<byte>, d: nat, buf: array<byte>, cur: nat, n: nat)
    requires ValidFormat(f) && f.depth == 16 && n == RowLength(f) && out != buf
    requires cur + n <= buf.Length && d + Stride(f) <= out.Length
    modifies out
    ensures out[d..d + Stride(f)] == Finished(f, buf[cur..cur + n])
    ensures OnlyRange(out[..], old(out[..]), d, Stride(f))
  {
    TimesTwo(f.x, f.imgN);
    if f.outN == f.imgN {
      CopyWords(out, d, buf, cur, Times(f.x, f.imgN));
    } else {
      WordsWithAlpha(out, d, buf, cur, f.x, f.imgN);
    }
  }

  /** Turns an un-filtered row into samples, with alpha if wanted. */
  method FinishRow(f: Format, out: array<byte>, d: nat, buf: array<byte>, cur: nat, n: nat)
    requires ValidFormat(f) && n == RowLength(f) && out != buf
    requires cur + n <= buf.Length && d + Stride(f) <= out.Length
    modifies out
    ensures out[d..d + Stride(f)] == Finished(f, buf[cur..cur + n])
    ensures OnlyRange(out[..], old(out[..]), d, Stride(f))
  {
    if f.depth < 8 {
      FinishBits(f, out, d, buf[cur..cur + n]);
    } else if f.depth == 16 {
      FinishWords(f, out, d, buf, cur, n);
    } else {
      FinishedBytes(f, buf[cur..cur + n]);
      FinishBytes(f.x, f.imgN, f.outN != f.imgN, out, d, buf, cur, n);
    }
  }

  function Prepend(done: seq<seq<byte>>, rest: Option<seq<seq<byte>>>): Option<seq<seq<byte>>> {
    match rest
    case None => None
    case Some(rows) => Some(done + rows)
  }

  /** The filter type and the bytes of row j. The row above is in the other half of the buffer, except for
      the first row, which has none. */
  method DecodeRow(raw: seq<byte>, off: nat, j: nat, buf: array<byte>, cur: nat, prior: nat, n: nat, bpp: nat, ghost above: seq<byte>)
    returns (ok: bool)
    requires Halves(buf, cur, prior, n) && 0 < bpp <= n && off + n + 1 <= |raw| && |above| == n
    requires if j == 0 then above == Zeros(n) else buf[prior..prior + n] == above
    modifies buf
    ensures ok <==> raw[off] <= 4
    ensures ok ==> buf[cur..cur + n] == UnfilterRow(raw[off] as nat, bpp, raw[off + 1..off + 1 + n], above, n)
  {
    var filter := raw[off] as nat;
    if filter > 4 {
      return false;
    }
    var bytes := raw[off + 1..off + 1 + n];
    if j == 0 {
      FirstRow(filter, bpp, bytes, buf[prior..prior + n], n);
      filter := FirstRowFilter(filter);
    }
    Unfilter(buf, cur, prior, n, bytes, bpp, filter);
    ok := true;
  }

  /** j rows are un-filtered, and the rest of the y rows that come to whole follow from off on. */
  ghost predicate Decoded(bpp: nat, n: nat, y: nat, raw: seq<byte>, whole: Option<seq<seq<byte>>>, j: nat, off: nat,
                          done: seq<seq<byte>>, above: seq<byte>) {
    0 < bpp && j <= y && off <= |raw| && Times(y - j, n + 1) <= |raw| - off && |above| == n &&
    forall g: nat :: Guard(g) ==> whole == Prepend(done, Unfiltered(bpp, n, y - j, raw[off..], above))
  }

  lemma DecodedNone(bpp: nat, n: nat, y: nat, raw: seq<byte>)
    requires 0 < bpp && Times(y, n + 1) <= |raw|
    ensures Decoded(bpp, n, y, raw, Unfiltered(bpp, n, y, raw, Zeros(n)), 0, 0, [], Zeros(n))
  {
    assert raw[0..] == raw;
    var rows := Unfiltered(bpp, n, y, raw, Zeros(n));
    if rows.Some? {
      assert [] + rows.value == rows.value;
    }
  }

  lemma DecodedNext(bpp: nat, n: nat, y: nat, raw: seq<byte>, whole: Option<seq<seq<byte>>>, j: nat, next: nat,
                    off: nat, off': nat, done: seq<seq<byte>>, above: seq<byte>) returns (row: seq<byte>, done': seq<seq<byte>>)
    requires j < y && next == j + 1 && off' == off + n + 1 && Decoded(bpp, n, y, raw, whole, j, off, done, above)
    ensures off' <= |raw| && (raw[off] > 4 ==> whole == None) && done' == done + [row]
    ensures raw[off] <= 4 ==> row == UnfilterRow(raw[off] as nat, bpp, raw[off + 1..off + 1 + n], above, n)
    ensures raw[off] <= 4 ==> Decoded(bpp, n, y, raw, whole, next, off', done', row)
  {
    assert Guard(0);
    var data := raw[off..];
    assert data[1..n + 1] == raw[off + 1..off + 1 + n];
    assert data[n + 1..] == raw[off'..];
    row := UnfilterRow(raw[off] as nat, bpp, raw[off + 1..off + 1 + n], above, n);
    done' := done + [row];
    if raw[off] <= 4 {
      var rest := Unfiltered(bpp, n, y - (j + 1), data[n + 1..], row);
      if rest.Some? {
        assert done + ([row] + rest.value) == done + [row] + rest.value;
      }
    }
  }

  lemma DecodedAll(bpp: nat, n: nat, y: nat, raw: seq<byte>, whole: Option<seq<seq<byte>>>, off: nat,
                   done: seq<seq<byte>>, above: seq<byte>)
    requires Decoded(bpp, n, y, raw, whole, y, off, done, above)
    ensures whole == Some(done)
  {
    assert Guard(0);
    assert done + [] == done;
  }

  /** The last row is in its half of the buffer. */
  ghost predicate Kept(buf: array<byte>, n: nat, j: nat, above: seq<byte>)
    reads buf
  {
    buf.Length == 2 * n && (j > 0 ==> above == if j % 2 == 0 then buf[n..2 * n] else buf[0..n])
  }

  /** The rows are finished, one after the other. */
  ghost predicate Written(f: Format, out: array<byte>, done: seq<seq<byte>>)
    requires ValidFormat(f)
    reads out
  {
    forall g: nat :: Guard(g) ==> WrittenNow(f, out, done)
  }

  ghost predicate WrittenNow(f: Format, out: array<byte>, done: seq<seq<byte>>)
    requires ValidFormat(f)
    reads out
  {
    var stride := Stride(f);
    out.Length == Times(f.y, stride) && (forall i | 0 <= i < |done| :: |done[i]| == RowLength(f)) &&
    Times(|done|, stride) <= out.Length && out[..Times(|done|, stride)] == Pixels(f, done)
  }

  method WriteRow(f: Format, out: array<byte>, buf: array<byte>, cur: nat, n: nat, j: nat, stride: nat, ghost done: seq<seq<byte>>, ghost row: seq<byte>,
                  ghost done': seq<seq<byte>>)
    requires ValidFormat(f) && n == RowLength(f) && stride == Stride(f) && out != buf && done' == done + [row]
    requires cur + n <= buf.Length && row == buf[cur..cur + n] && |done| == j < f.y && Written(f, out, done)
    modifies out
    ensures Written(f, out, done')
  {
    assert Guard(0);
    ghost var before := out[..Times(j, stride)];
    TimesMono(j, f.y, stride);
    FinishRow(f, out, Times(j, stride), buf, cur, n);
    assert out[..Times(j, stride)] == before;
    assert out[..Times(j + 1, stride)] == before + Finished(f, row);
    assert (done + [row])[..j] == done;
  }

  /** Row j, into the half of the buffer that the row above is not in. */
  method NextRow(raw: seq<byte>, buf: array<byte>, y: nat, j: nat, next: nat, off: nat, off': nat, n: nat, bpp: nat,
                 ghost whole: Option<seq<seq<byte>>>, ghost done: seq<seq<byte>>, ghost above: seq<byte>)
    returns (ok: bool, cur: nat, ghost row: seq<byte>, ghost done': seq<seq<byte>>)
    requires j < y && next == j + 1 && off' == off + n + 1 && bpp <= n && Decoded(bpp, n, y, raw, whole, j, off, done, above)
    requires Kept(buf, n, j, above) && (j == 0 ==> above == Zeros(n))
    modifies buf
    ensures cur + n <= buf.Length && (!ok ==> whole == None)
    ensures ok ==> done' == done + [row] && Decoded(bpp, n, y, raw, whole, next, off', done', row)
    ensures ok ==> row == buf[cur..cur + n] && Kept(buf, n, next, row)
  {
    var prior;
    cur, prior := if j % 2 == 0 then 0 else n, if j % 2 == 0 then n else 0;
    row, done' := DecodedNext(bpp, n, y, raw, whole, j, next, off, off', done, above);
    ok := DecodeRow(raw, off, j, buf, cur, prior, n, bpp, above);
  }

  /** j rows are un-filtered and written to the image. */
  ghost predicate Progress(f: Format, raw: seq<byte>, out: array<byte>, buf: array<byte>, j: nat, off: nat, n: nat,
                           whole: Option<seq<seq<byte>>>, done: seq<seq<byte>>, above: seq<byte>)
    reads out, buf
  {
    forall g: nat :: Guard(g) ==>
      ValidFormat(f) && n == RowLength(f) && |done| == j <= f.y && (j == 0 ==> above == Zeros(n)) &&
      Decoded(PixelBytes(f), n, f.y, raw, whole, j, off, done, above) && Kept(buf, n, j, above) && Written(f, out, done)
  }

  method OneRow(f: Format, raw: seq<byte>, out: array<byte>, buf: array<byte>, j: nat, next: nat, off: nat, n: nat, stride: nat, bpp: nat,
                ghost whole: Option<seq<seq<byte>>>, ghost done: seq<seq<byte>>, ghost above: seq<byte>)
    returns (ok: bool, off': nat, ghost done': seq<seq<byte>>, ghost row: seq<byte>)
    requires ValidFormat(f) && stride == Stride(f) && bpp == PixelBytes(f) <= n && out != buf && j < f.y && next == j + 1
    requires Progress(f, raw, out, buf, j, off, n, whole, done, above)
    modifies out, buf
    ensures if ok then Progress(f, raw, out, buf, next, off', n, whole, done', row) else whole == None
  {
    assert Guard(0);
    var cur;
    off' := off + n + 1;
    ok, cur, row, done' := NextRow(raw, buf, f.y, j, next, off, off', n, bpp, whole, done, above);
    if ok {
      WriteRow(f, out, buf, cur, n, j, stride, done, row, done');
    }
  }

  lemma ProgressEnds(f: Format, raw: seq<byte>, out: array<byte>, buf: array<byte>, off: nat, n: nat,
                     whole: Option<seq<seq<byte>>>, done: seq<seq<byte>>, above: seq<byte>)
    requires ValidFormat(f) && Progress(f, raw, out, buf, f.y, off, n, whole, done, above)
    ensures whole == Some(done) && |done| == f.y && Written(f, out, done)
  {
    assert Guard(0);
    DecodedAll(PixelBytes(f), n, f.y, raw, whole, off, done, above);
  }

  method DecodeRows(f: Format, raw: seq<byte>, out: array<byte>, buf: array<byte>, n: nat, stride: nat, bpp: nat,
                    ghost whole: Option<seq<seq<byte>>>) returns (ok: bool)
    requires ValidFormat(f) && stride == Stride(f) && bpp == PixelBytes(f) <= n && out != buf
    requires Progress(f, raw, out, buf, 0, 0, n, whole, [], Zeros(n))
    modifies out, buf
    ensures ok <==> whole.Some?
    ensures ok ==> |whole.value| == f.y && Written(f, out, whole.value)
  {
    var j: nat, off: nat := 0, 0;
    ghost var done: seq<seq<byte>>, above := [], Zeros(n);
    while j < f.y
      invariant j <= f.y && Progress(f, raw, out, buf, j, off, n, whole, done, above)
    {
      var next := j + 1;
      ok, off, done, above := OneRow(f, raw, out, buf, j, next, off, n, stride, bpp, whole, done, above);
      if !ok {
        return;
      }
      j := next;
    }
    ProgressEnds(f, raw, out, buf, off, n, whole, done, above);
    ok := true;
  }

  /** What the rows and their pixels mean for the bytes of the data and of the image. */
  lemma ImageMeans(f: Format, raw: seq<byte>)
    requires ValidFormat(f)
    ensures Rows(f, raw).Some? <==> Decodable(f, raw)
    ensures Rows(f, raw).Some? ==> DecodedRows(f, raw, Rows(f, raw).value) && Shows(f, Rows(f, raw).value, Pixels(f, Rows(f, raw).value))
  {
    if Rows(f, raw).Some? {
      RowsAreDecoded(f, raw);
      PixelsShow(f, Rows(f, raw).value);
    } else {
      RowsAreRefused(f, raw);
    }
  }

  /** Un-filters and finishes every row. */
  method CreateImageRaw(f: Format, raw: seq<byte>) returns (ok: bool, out: array<byte>)
    requires ValidFormat(f)
    ensures fresh(out) && (ok <==> Rows(f, raw).Some?)
    ensures ok ==> out[..] == Pixels(f, Rows(f, raw).value)
    ensures ok <==> Decodable(f, raw)
    ensures ok ==> exists rows :: DecodedRows(f, raw, rows) && Shows(f, rows, out[..])
  {
    var n, stride, bpp := RowBytes(Times(f.x, f.imgN), f.depth), Stride(f), if f.depth < 8 then 1 else OutBytes(f.imgN, f.depth);
    out := new byte[Times(f.y, stride)];
    ImageMeans(f, raw);
    if |raw| < Times(f.y, n + 1) {
      return false, out;
    }
    PixelFits(f);
    var buf := new byte[2 * n];
    DecodedNone(bpp, n, f.y, raw);
    ok := DecodeRows(f, raw, out, buf, n, stride, bpp, Rows(f, raw));
    if ok {
      assert Guard(0);
      assert out[..Times(f.y, stride)] == out[..];
    }
  }

  // ---- The round trip ---------------------------------------------------------------------------------

  /** Data that encodes rows, with any filters and anything behind. */
  ghost predicate Encodes(f: Format, raw: seq<byte>, rows: seq<seq<byte>>) {
    ValidFormat(f) && |rows| == f.y && (forall i | 0 <= i < f.y :: |rows[i]| == RowLength(f)) &&
    PixelBytes(f) > 0 &&
    exists types: seq<byte>, more ::
      |types| == f.y && (forall i | 0 <= i < f.y :: types[i] <= 4) &&
      raw == Filtered(types, PixelBytes(f), rows, Zeros(RowLength(f))) + more
  }

  lemma EncodedRows(f: Format, raw: seq<byte>, rows: seq<seq<byte>>)
    requires Encodes(f, raw, rows)
    ensures Rows(f, raw) == Some(rows)
  {
    var types: seq<byte>, more :|
      |types| == f.y && (forall i | 0 <= i < f.y :: types[i] <= 4) &&
      raw == Filtered(types, PixelBytes(f), rows, Zeros(RowLength(f))) + more;
    ImageRoundTrip(types, PixelBytes(f), rows, Zeros(RowLength(f)), more);
  }

  /** What was filtered, row by row and each row with any filter, comes back as the pixels of the rows. */
  method DecodeFiltered(f: Format, raw: seq<byte>, ghost rows: seq<seq<byte>>) returns (ok: bool, out: array<byte>)
    requires Encodes(f, raw, rows)
    ensures ok && out[..] == Pixels(f, rows)
  {
    EncodedRows(f, raw, rows);
    ok, out := CreateImageRaw(f, raw);
  }
}
