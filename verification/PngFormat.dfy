/** The layout of an image's data: rows of samples, as the file has them and as the caller wants them. */
module PngFormat {
  import opened Bits
  import opened Multiples
  import opened Options
  import opened PngSpec

  /** Width, height, samples per pixel stored and wanted, bits per sample, and colour type of an image. */
  datatype Format = Format(x: nat, y: nat, imgN: nat, outN: nat, depth: nat, color: nat)

  predicate ValidFormat(f: Format) {
    0 < f.x && 0 < f.imgN && (f.outN == f.imgN || f.outN == f.imgN + 1) && (IsDepth(f.depth) || f.depth == 16)
  }

  /** The bytes of a row. */
  function RowLength(f: Format): nat
    requires ValidFormat(f)
  {
    RowBytes(Times(f.x, f.imgN), f.depth)
  }

  /** The bytes of a pixel and of a row of the image. */
  function PixelSize(f: Format): nat {
    OutBytes(f.outN, f.depth)
  }

  function Stride(f: Format): nat {
    Times(f.x, PixelSize(f))
  }

  /** The distance between a byte and the one it is predicted from. */
  function PixelBytes(f: Format): nat
    requires ValidFormat(f)
  {
    if f.depth < 8 then 1 else OutBytes(f.imgN, f.depth)
  }

  lemma PixelFits(f: Format)
    requires ValidFormat(f)
    ensures 0 < PixelBytes(f) <= RowLength(f)
  {
    TimesMono(0, f.x, f.imgN);
  }

  /** A row of the image, ready for the caller. */
  function Finished(f: Format, row: seq<byte>): (r: seq<byte>)
    requires ValidFormat(f) && |row| == RowLength(f)
    ensures |r| == Stride(f)
  {
    OutRow(row, f.x, f.imgN, f.outN, f.depth, f.color)
  }

  /** The pixels of the rows, one row after the other. */
  function Pixels(f: Format, rows: seq<seq<byte>>): (r: seq<byte>)
    requires ValidFormat(f) && forall i | 0 <= i < |rows| :: |rows[i]| == RowLength(f)
    ensures |r| == Times(|rows|, Stride(f))
  {
    if rows == [] then [] else Pixels(f, rows[..|rows| - 1]) + Finished(f, rows[|rows| - 1])
  }

  /** The rows of an image, if there is enough data and every filter type is known. */
  function Rows(f: Format, raw: seq<byte>): (r: Option<seq<seq<byte>>>)
    requires ValidFormat(f)
    ensures r.Some? ==> Times(f.y, RowLength(f) + 1) <= |raw|
    ensures r.Some? ==> |r.value| == f.y && forall i | 0 <= i < f.y :: |r.value[i]| == RowLength(f)
  {
    var n := RowLength(f);
    PixelFits(f);
    if |raw| < Times(f.y, n + 1) then None else Unfiltered(PixelBytes(f), n, f.y, raw, Zeros(n))
  }
}
