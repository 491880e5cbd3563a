/** PNG filtering, section 6 of RFC 2083. */
module PngSpec {
  import opened Bits
  import opened Multiples
  import opened Options

  // ---- The predictors ---------------------------------------------------------------------------

  function Distance(p: int, q: int): nat {
    if p < q then q - p else p - q
  }

  /** The predictor of section 6.6: of left, above and upper left, the one nearest to a + b - c. */
  function PaethPredictor(a: nat, b: nat, c: nat): nat {
    var p := a + b - c;
    if Distance(p, a) <= Distance(p, b) && Distance(p, a) <= Distance(p, c) then a
    else if Distance(p, b) <= Distance(p, c) then b
    else c
  }

  /** The program's own filter type for the first row: averages with nothing above. */
  const AVG_FIRST: nat := 5

  /** What a filter type predicts from the bytes left, above and upper left. */
  function Predict(t: nat, a: nat, b: nat, c: nat): nat {
    match t
    case 0 => 0
    case 1 => a
    case 2 => b
    case 3 => (a + b) / 2
    case 4 => PaethPredictor(a, b, c)
    case _ => a / 2
  }

  /** The byte one pixel to the left, or zero. */
  function Left(row: seq<byte>, bpp: nat, i: nat): nat
    requires 0 < bpp && i <= |row|
  {
    if i < bpp then 0 else row[i - bpp] as nat
  }

  function Prediction(t: nat, bpp: nat, row: seq<byte>, prior: seq<byte>, i: nat): nat
    requires 0 < bpp && i <= |row| && i < |prior|
  {
    Predict(t, Left(row, bpp, i), prior[i] as nat, Left(prior, bpp, i))
  }

  function Mod256(v: int): byte {
    (v % 256) as byte
  }

  // ---- Rows -----------------------------------------------------------------------------------------

  /** The bytes of a row less their predictions. */
  function FilterRow(t: nat, bpp: nat, row: seq<byte>, prior: seq<byte>): (r: seq<byte>)
    requires 0 < bpp && |row| == |prior|
    ensures |r| == |row|
  {
    seq(|row|, i requires 0 <= i < |row| => Mod256(row[i] as int - Prediction(t, bpp, row, prior, i)))
  }

  /** The first n bytes of a row from its filtered bytes. */
  function UnfilterRow(t: nat, bpp: nat, raw: seq<byte>, prior: seq<byte>, n: nat): (r: seq<byte>)
    requires 0 < bpp && n <= |raw| == |prior|
    ensures |r| == n
  {
    if n == 0 then []
    else
      var r := UnfilterRow(t, bpp, raw, prior, n - 1);
      r + [Mod256(raw[n - 1] as int + Prediction(t, bpp, r, prior, n - 1))]
  }

  lemma Inverse(x: byte, p: nat)
    ensures Mod256(Mod256(x as int - p) as int + p) == x
  {
  }

  /** A prediction looks at the bytes before it only. */
  lemma SamePrediction(t: nat, bpp: nat, row: seq<byte>, prior: seq<byte>, i: nat)
    requires 0 < bpp && i <= |row| && i < |prior|
    ensures Prediction(t, bpp, row[..i], prior, i) == Prediction(t, bpp, row, prior, i)
  {
  }

  lemma {:induction false} RowRoundTrip(t: nat, bpp: nat, row: seq<byte>, prior: seq<byte>, n: nat)
    requires 0 < bpp && n <= |row| == |prior|
    ensures UnfilterRow(t, bpp, FilterRow(t, bpp, row, prior), prior, n) == row[..n]
  {
    if n > 0 {
      RowRoundTrip(t, bpp, row, prior, n - 1);
      SamePrediction(t, bpp, row, prior, n - 1);
      Inverse(row[n - 1], Prediction(t, bpp, row, prior, n - 1));
      assert row[..n] == row[..n - 1] + [row[n - 1]];
    }
  }

  // ---- Images ----------------------------------------------------------------------------------------

  function Zeros(n: nat): (r: seq<byte>)
    ensures |r| == n && forall i | 0 <= i < n :: r[i] == 0
  {
    seq(n, i => 0)
  }

  /** Each row's filter type and filtered bytes, one after the other. */
  function Filtered(types: seq<byte>, bpp: nat, rows: seq<seq<byte>>, prior: seq<byte>): seq<byte>
    requires 0 < bpp && |types| == |rows| && forall i | 0 <= i < |rows| :: |rows[i]| == |prior|
  {
    if rows == [] then []
    else [types[0]] + FilterRow(types[0] as nat, bpp, rows[0], prior) + Filtered(types[1..], bpp, rows[1..], rows[0])
  }

  /** The rows of n bytes that the data encodes, until a filter type above 4. */
  function Unfiltered(bpp: nat, n: nat, rows: nat, data: seq<byte>, prior: seq<byte>): (r: Option<seq<seq<byte>>>)
    requires 0 < bpp && |prior| == n && Times(rows, n + 1) <= |data|
    ensures r.Some? ==> |r.value| == rows && forall i | 0 <= i < rows :: |r.value[i]| == n
    decreases rows
  {
    if rows == 0 then Some([])
    else if data[0] > 4 then None
    else
      var row := UnfilterRow(data[0] as nat, bpp, data[1..n + 1], prior, n);
      match Unfiltered(bpp, n, rows - 1, data[n + 1..], row)
      case None => None
      case Some(rest) => Some([row] + rest)
  }

  /** The first row comes back, given that the others do. */
  lemma FirstRowRoundTrip(t: byte, bpp: nat, row: seq<byte>, prior: seq<byte>, data: seq<byte>, rows: seq<seq<byte>>)
    requires 0 < bpp && |row| == |prior| && t <= 4 && Times(|rows|, |prior| + 1) <= |data|
    requires Unfiltered(bpp, |prior|, |rows|, data, row) == Some(rows)
    ensures Unfiltered(bpp, |prior|, |rows| + 1, [t] + FilterRow(t as nat, bpp, row, prior) + data, prior) == Some([row] + rows)
  {
    var raw := FilterRow(t as nat, bpp, row, prior);
    var all := [t] + raw + data;
    assert all[1..|raw| + 1] == raw && all[|raw| + 1..] == data;
    RowRoundTrip(t as nat, bpp, row, prior, |prior|);
    assert row[..|prior|] == row;
  }

  /** Un-filtering what was filtered gives the rows back, whatever filter each row uses and whatever
      follows the data. */
  lemma {:induction false} ImageRoundTrip(types: seq<byte>, bpp: nat, rows: seq<seq<byte>>, prior: seq<byte>, more: seq<byte>)
    requires 0 < bpp && |types| == |rows| && forall i | 0 <= i < |rows| :: |rows[i]| == |prior| && types[i] <= 4
    ensures var data := Filtered(types, bpp, rows, prior);
            |data| == Times(|rows|, |prior| + 1) &&
            Unfiltered(bpp, |prior|, |rows|, data + more, prior) == Some(rows)
    decreases |rows|
  {
    if rows != [] {
      var rest := Filtered(types[1..], bpp, rows[1..], rows[0]);
      ImageRoundTrip(types[1..], bpp, rows[1..], rows[0], more);
      FirstRowRoundTrip(types[0], bpp, rows[0], prior, rest + more, rows[1..]);
      Regroup([types[0]] + FilterRow(types[0] as nat, bpp, rows[0], prior), rest, more);
      HeadTail(rows);
    }
  }

  lemma Regroup<T>(a: seq<T>, b: seq<T>, c: seq<T>)
    ensures a + b + c == a + (b + c)
  {
  }

  lemma HeadTail<T>(s: seq<T>)
    requires s != []
    ensures [s[0]] + s[1..] == s
  {
  }

  // ---- What the program does differently --------------------------------------------------------------

  /** The filter used instead on the first row, which has no row above it. */
  function FirstRowFilter(t: nat): nat
    requires t <= 4
  {
    match t
    case 0 => 0
    case 1 => 1
    case 2 => 0
    case 3 => AVG_FIRST
    case _ => 1
  }

  lemma FirstRowPredicts(t: nat, a: nat, b: nat, c: nat)
    requires t <= 4
    ensures Predict(FirstRowFilter(t), a, b, c) == Predict(t, a, 0, 0)
  {
  }

  /** With the first row's filter, whatever is above has no effect: the row is that of the given filter
      below a row of zeros. */
  lemma {:induction false} FirstRow(t: nat, bpp: nat, raw: seq<byte>, prior: seq<byte>, n: nat)
    requires 0 < bpp && n <= |raw| == |prior| && t <= 4
    ensures UnfilterRow(FirstRowFilter(t), bpp, raw, prior, n) == UnfilterRow(t, bpp, raw, Zeros(|prior|), n)
  {
    if n > 0 {
      FirstRow(t, bpp, raw, prior, n - 1);
      var r := UnfilterRow(FirstRowFilter(t), bpp, raw, prior, n - 1);
      FirstRowPredicts(t, Left(r, bpp, n - 1), prior[n - 1] as nat, Left(prior, bpp, n - 1));
    }
  }

  // ---- What un-filtering means, byte by byte --------------------------------------------------------------

  /** m is the average of two bytes, rounded down. */
  predicate Average(left: nat, up: nat, m: nat) {
    2 * m <= left + up <= 2 * m + 1
  }

  /** m is the neighbour nearest to left + up - corner; of several the first in the order left, up, corner. */
  predicate Nearest(left: nat, up: nat, corner: nat, m: nat) {
    var p := left + up - corner;
    var l, u, c := Distance(p, left), Distance(p, up), Distance(p, corner);
    (m == left && l <= u && l <= c) || (m == up && u < l && u <= c) || (m == corner && c < l && c < u)
  }

  /** The un-filtered byte v of sections 6.2 to 6.6, from the filtered one and its neighbours. */
  ghost predicate UnfilteredByte(t: nat, raw: byte, left: nat, up: nat, corner: nat, v: byte) {
    match t
    case 0 => v == raw
    case 1 => v as nat == (raw as nat + left) % 256
    case 2 => v as nat == (raw as nat + up) % 256
    case 3 => exists m: nat :: Average(left, up, m) && v as nat == (raw as nat + m) % 256
    case 4 => exists m: nat :: Nearest(left, up, corner, m) && v as nat == (raw as nat + m) % 256
    case _ => false
  }

  /** The row from its filtered bytes and the row above; where there is no pixel to the left, its bytes count as zeros. */
  ghost predicate UnfilteredRow(t: nat, bpp: nat, raw: seq<byte>, above: seq<byte>, row: seq<byte>) {
    0 < bpp && |raw| == |above| == |row| && forall i | 0 <= i < |row| :: UnfilteredAt(t, bpp, raw, above, row, i)
  }

  ghost predicate UnfilteredAt(t: nat, bpp: nat, raw: seq<byte>, above: seq<byte>, row: seq<byte>, i: nat)
    requires 0 < bpp && i < |raw| == |above| == |row|
  {
    if i < bpp then UnfilteredByte(t, raw[i], 0, above[i] as nat, 0, row[i])
    else UnfilteredByte(t, raw[i], row[i - bpp] as nat, above[i] as nat, above[i - bpp] as nat, row[i])
  }

  lemma ByteIsUnfiltered(t: nat, raw: byte, a: nat, b: nat, c: nat)
    requires t <= 4
    ensures UnfilteredByte(t, raw, a, b, c, Mod256(raw as int + Predict(t, a, b, c)))
  {
    if t == 3 {
      assert Average(a, b, Predict(3, a, b, c));
    } else if t == 4 {
      assert Nearest(a, b, c, Predict(4, a, b, c));
    }
  }

  lemma {:induction false} UnfilterPrefix(t: nat, bpp: nat, raw: seq<byte>, prior: seq<byte>, i: nat, n: nat)
    requires 0 < bpp && i < n <= |raw| == |prior|
    ensures UnfilterRow(t, bpp, raw, prior, n)[..i] == UnfilterRow(t, bpp, raw, prior, i)
    ensures UnfilterRow(t, bpp, raw, prior, n)[i] ==
            Mod256(raw[i] as int + Prediction(t, bpp, UnfilterRow(t, bpp, raw, prior, i), prior, i))
    decreases n
  {
    var r := UnfilterRow(t, bpp, raw, prior, n);
    assert r[..n - 1] == UnfilterRow(t, bpp, raw, prior, n - 1);
    if i < n - 1 {
      UnfilterPrefix(t, bpp, raw, prior, i, n - 1);
      assert r[..i] == r[..n - 1][..i];
    }
  }

  lemma RowIsUnfiltered(t: nat, bpp: nat, raw: seq<byte>, above: seq<byte>)
    requires 0 < bpp && |raw| == |above| && t <= 4
    ensures UnfilteredRow(t, bpp, raw, above, UnfilterRow(t, bpp, raw, above, |raw|))
  {
    var row := UnfilterRow(t, bpp, raw, above, |raw|);
    forall i | 0 <= i < |row| ensures UnfilteredAt(t, bpp, raw, above, row, i) {
      UnfilterPrefix(t, bpp, raw, above, i, |raw|);
      ByteIsUnfiltered(t, raw[i], Left(row[..i], bpp, i), above[i] as nat, Left(above, bpp, i));
    }
  }

  // ---- From rows to pixels -------------------------------------------------------------------------

  /** The depths of samples that fit a byte; samples can also have 16 bits. */
  predicate IsDepth(depth: nat) {
    depth == 1 || depth == 2 || depth == 4 || depth == 8
  }

  /** The bytes that hold n samples. */
  function RowBytes(n: nat, depth: nat): nat
    requires IsDepth(depth) || depth == 16
  {
    match depth
    case 1 => (n + 7) / 8
    case 2 => (n + 3) / 4
    case 4 => (n + 1) / 2
    case 8 => n
    case _ => 2 * n
  }

  lemma RowBytesIs(n: nat, depth: nat)
    requires IsDepth(depth) || depth == 16
    ensures RowBytes(n, depth) == (n * depth + 7) / 8
  {
  }

  /** The byte that sample i starts in, and how many bits of it come before the sample. */
  function ByteOf(depth: nat, i: nat): nat {
    match depth
    case 1 => i / 8
    case 2 => i / 4
    case 4 => i / 2
    case _ => i
  }

  function BitOf(depth: nat, i: nat): nat {
    match depth
    case 1 => i % 8
    case 2 => 2 * (i % 4)
    case 4 => 4 * (i % 2)
    case _ => 0
  }

  lemma SampleAt(depth: nat, i: nat)
    requires IsDepth(depth)
    ensures BitOf(depth, i) + depth <= 8 && ByteOf(depth, i) < RowBytes(i + 1, depth)
    ensures if BitOf(depth, i) == 0 then RowBytes(i, depth) == ByteOf(depth, i) && RowBytes(i + 1, depth) == ByteOf(depth, i) + 1
            else RowBytes(i + 1, depth) == RowBytes(i, depth)
    ensures BitOf(depth, i + 1) != 0 ==> ByteOf(depth, i + 1) == ByteOf(depth, i) && BitOf(depth, i + 1) == BitOf(depth, i) + depth
  {
  }

  /** Sample i of a row; samples are packed with the leftmost in the high bits (section 2.3 of RFC 2083). */
  function Sample(row: seq<byte>, depth: nat, i: nat): nat
    requires IsDepth(depth) && RowBytes(i + 1, depth) <= |row|
  {
    SampleAt(depth, i);
    Low(Shr(row[ByteOf(depth, i)] as nat, 8 - depth - BitOf(depth, i)), depth)
  }

  /** Grey samples are scaled so that the largest becomes 255; palette indices are not scaled. */
  function Scale(color: nat, depth: nat): nat {
    if color != 0 then 1
    else
      match depth
      case 1 => 0xff
      case 2 => 0x55
      case 4 => 0x11
      case _ => 0x01
  }

  function Scaled(scale: nat, v: nat): byte {
    Mod256(scale * v)
  }

  lemma LargestIsWhite()
    ensures Scaled(Scale(0, 1), 1) == 255 && Scaled(Scale(0, 2), 3) == 255
    ensures Scaled(Scale(0, 4), 15) == 255 && Scaled(Scale(0, 8), 255) == 255
  {
  }

  /** The first n samples of a row as bytes. */
  function Samples(row: seq<byte>, depth: nat, scale: nat, n: nat): (r: seq<byte>)
    requires IsDepth(depth) && RowBytes(n, depth) <= |row|
    ensures |r| == n
  {
    if n == 0 then []
    else Samples(row, depth, scale, n - 1) + [Scaled(scale, Sample(row, depth, n - 1))]
  }

  /** An opaque alpha sample after every n samples. */
  function WithAlpha(s: seq<byte>, x: nat, n: nat): (r: seq<byte>)
    requires |s| == Times(x, n)
    ensures |r| == Times(x, n + 1)
    decreases x
  {
    if x == 0 then [] else WithAlpha(s[..|s| - n], x - 1, n) + s[|s| - n..] + [255]
  }

  /** The first n samples of 16 bits, which the file has high byte first, as a little-endian machine keeps them. */
  function NativeWords(row: seq<byte>, n: nat): (r: seq<byte>)
    requires 2 * n <= |row|
    ensures |r| == 2 * n
  {
    if n == 0 then [] else NativeWords(row, n - 1) + [row[2 * n - 1], row[2 * n - 2]]
  }

  lemma {:induction false} NativeWord(row: seq<byte>, n: nat, i: nat)
    requires i < n && 2 * n <= |row|
    ensures NativeWords(row, n)[2 * i + 1] == row[2 * i] && NativeWords(row, n)[2 * i] == row[2 * i + 1]
  {
    if i < n - 1 {
      NativeWord(row, n - 1, i);
    }
  }

  /** An opaque alpha sample of 16 bits after every n samples. */
  function NativeAlpha(row: seq<byte>, x: nat, n: nat): (r: seq<byte>)
    requires Times(x, 2 * n) <= |row|
    ensures |r| == Times(x, 2 * (n + 1))
  {
    if x == 0 then []
    else NativeAlpha(row, x - 1, n) + NativeWords(row[Times(x - 1, 2 * n)..Times(x, 2 * n)], n) + [255, 255]
  }

  /** The bytes of a pixel of n samples. */
  function OutBytes(n: nat, depth: nat): nat {
    if depth == 16 then 2 * n else n
  }

  /** The pixels of a row of x pixels. */
  function OutRow(row: seq<byte>, x: nat, imgN: nat, outN: nat, depth: nat, color: nat): (r: seq<byte>)
    requires (IsDepth(depth) || depth == 16) && RowBytes(Times(x, imgN), depth) <= |row|
    requires outN == imgN || outN == imgN + 1
    ensures |r| == Times(x, OutBytes(outN, depth))
  {
    if depth == 16 then
      TimesTwo(x, imgN);
      if outN == imgN then NativeWords(row, Times(x, imgN)) else NativeAlpha(row, x, imgN)
    else
      var s := Samples(row, depth, Scale(color, depth), Times(x, imgN));
      if outN == imgN then s else WithAlpha(s, x, imgN)
  }

  /** Samples of eight bits are the bytes of the row. */
  lemma {:induction false} BytesAreSamples(row: seq<byte>, depth: nat, n: nat)
    requires depth == 8 && n <= |row|
    ensures Samples(row, depth, 1, n) == row[..n]
  {
    if n > 0 {
      BytesAreSamples(row, depth, n - 1);
      ByteSample(row, depth, n - 1);
      assert row[..n] == row[..n - 1] + [row[n - 1]];
    }
  }

  lemma ByteSample(row: seq<byte>, depth: nat, i: nat)
    requires depth == 8 && i < |row|
    ensures Scaled(1, Sample(row, depth, i)) == row[i]
  {
    Pow2Small();
    LowSmall(row[i] as nat, depth);
  }
}
