/** The zigzag order of coefficients by rows and columns (Figure 5 of ITU-T T.81), and where the coefficients of a block
    come to lie. */
module JpegOrder {
  import opened Bits
  import opened Context
  import opened JpegSpec
  import opened Options

  // ---- The zigzag ---------------------------------------------------------------------------------------

  /** The number of a coefficient: those of the diagonals before its own, and those before it on its own, which runs
      upwards if row and column make an even number. The second half is the first, turned around. */
  function Number(row: nat, col: nat): (k: nat)
    requires row < 8 && col < 8
  {
    if row + col < 8 then UpperNumber(row, col) else 63 - UpperNumber(7 - row, 7 - col)
  }

  function UpperNumber(row: nat, col: nat): (k: nat)
    requires row + col < 8
    ensures k < 64
  {
    [0, 1, 3, 6, 10, 15, 21, 28][row + col] + if (row + col) % 2 == 0 then col else row
  }

  /** From one place to the next: up and to the right from an even place, down and to the left from an odd one, and along
      the edge where that would leave the block. */
  predicate Follows(z: nat, next: nat) {
    var row, col := z / 8, z % 8;
    next == if (row + col) % 2 == 0 then
              if col == 7 then 8 * (row + 1) + col else if row == 0 then col + 1 else 8 * (row - 1) + col + 1
            else
              if row == 7 then 8 * row + col + 1 else if col == 0 then 8 * (row + 1) else 8 * (row + 1) + col - 1
  }

  lemma FirstSteps(k: nat)
    requires k < 16
    ensures Follows(Zigzag(k), Zigzag(k + 1))
  {
  }

  lemma SecondSteps(k: nat)
    requires 16 <= k < 32
    ensures Follows(Zigzag(k), Zigzag(k + 1))
  {
  }

  lemma ThirdSteps(k: nat)
    requires 32 <= k < 48
    ensures Follows(Zigzag(k), Zigzag(k + 1))
  {
  }

  lemma LastSteps(k: nat)
    requires 48 <= k < 63
    ensures Follows(Zigzag(k), Zigzag(k + 1))
  {
  }

  /** The walk starts in the corner and follows these steps. */
  lemma Walk(k: nat)
    requires k < 63
    ensures Zigzag(0) == 0 && Follows(Zigzag(k), Zigzag(k + 1))
  {
    if k < 16 {
      FirstSteps(k);
    } else if k < 32 {
      SecondSteps(k);
    } else if k < 48 {
      ThirdSteps(k);
    } else {
      LastSteps(k);
    }
  }

  /** One step of the walk is one number more. */
  lemma StepCounts(row: nat, col: nat, row': nat, col': nat)
    requires row < 8 && col < 8 && row' < 8 && col' < 8 && row + col < 14 && Follows(8 * row + col, 8 * row' + col')
    ensures Number(row', col') == Number(row, col) + 1
  {
    assert (8 * row + col) / 8 == row && (8 * row + col) % 8 == col;
    if row + col < 7 {
      UpperCounts(row, col, row', col');
    } else if row + col > 7 {
      LowerCounts(row, col, row', col');
    }
  }

  lemma UpperCounts(row: nat, col: nat, row': nat, col': nat)
    requires row + col < 7 && row' < 8 && col' < 8
    requires if (row + col) % 2 == 0 then (if row == 0 then row' == 0 && col' == col + 1 else row' == row - 1 && col' == col + 1)
             else (if col == 0 then row' == row + 1 && col' == 0 else row' == row + 1 && col' == col - 1)
    ensures Number(row', col') == Number(row, col) + 1
  {
  }

  lemma LowerCounts(row: nat, col: nat, row': nat, col': nat)
    requires 7 < row + col < 14 && row < 8 && col < 8 && row' < 8 && col' < 8
    requires if (row + col) % 2 == 0 then (if col == 7 then row' == row + 1 && col' == 7 else row' == row - 1 && col' == col + 1)
             else (if row == 7 then row' == 7 && col' == col + 1 else row' == row + 1 && col' == col - 1)
    ensures Number(row', col') == Number(row, col) + 1
  {
  }

  lemma PlaceCounts(z: nat, next: nat, k: nat)
    requires z < 64 && next < 64 && Follows(z, next) && Number(z / 8, z % 8) == k < 63
    ensures Number(next / 8, next % 8) == k + 1
  {
    LastPlace(z / 8, z % 8);
    StepCounts(z / 8, z % 8, next / 8, next % 8);
  }

  lemma LastPlace(row: nat, col: nat)
    requires row < 8 && col < 8 && Number(row, col) < 63
    ensures row + col < 14
  {
  }

  /** The table gives each number its place. */
  lemma {:induction false} NumberOfPlace(k: nat)
    requires k < 64
    ensures Number(Zigzag(k) / 8, Zigzag(k) % 8) == k
  {
    if k > 0 {
      NumberOfPlace(k - 1);
      Walk(k - 1);
      PlaceCounts(Zigzag(k - 1), Zigzag(k), k - 1);
    }
  }

  /** No two coefficients share a place. */
  lemma PlacesDiffer(j: nat, k: nat)
    requires j < k < 64
    ensures Zigzag(j) != Zigzag(k)
  {
    NumberOfPlace(j);
    NumberOfPlace(k);
  }

  /** The numbers of a diagonal. */
  lemma OnDiagonal(row: nat, col: nat)
    requires row < 8 && col < 8
    ensures [0, 1, 3, 6, 10, 15, 21, 28, 36, 43, 49, 54, 58, 61, 63][row + col] <= Number(row, col)
    ensures Number(row, col) < [1, 3, 6, 10, 15, 21, 28, 36, 43, 49, 54, 58, 61, 63, 64][row + col]
  {
  }

  lemma NumbersDiffer(row: nat, col: nat, row': nat, col': nat)
    requires row < 8 && col < 8 && row' < 8 && col' < 8 && Number(row, col) == Number(row', col')
    ensures row == row' && col == col'
  {
    OnDiagonal(row, col);
    OnDiagonal(row', col');
    DiagonalsDiffer(row + col, row' + col', Number(row, col));
  }

  lemma DiagonalsDiffer(d: nat, e: nat, k: nat)
    requires d < 15 && e < 15
    requires [0, 1, 3, 6, 10, 15, 21, 28, 36, 43, 49, 54, 58, 61, 63][d] <= k < [1, 3, 6, 10, 15, 21, 28, 36, 43, 49, 54, 58, 61, 63, 64][d]
    requires [0, 1, 3, 6, 10, 15, 21, 28, 36, 43, 49, 54, 58, 61, 63][e] <= k < [1, 3, 6, 10, 15, 21, 28, 36, 43, 49, 54, 58, 61, 63, 64][e]
    ensures d == e
  {
  }

  lemma PlaceOfNumber(row: nat, col: nat)
    requires row < 8 && col < 8
    ensures Number(row, col) < 64 && Zigzag(Number(row, col)) == 8 * row + col
  {
    OnDiagonal(row, col);
    var z := Zigzag(Number(row, col));
    NumberOfPlace(Number(row, col));
    NumbersDiffer(z / 8, z % 8, row, col);
  }

  // ---- A block in zigzag order --------------------------------------------------------------------------

  /** The values of the coefficients from k on, in zigzag order and not dequantized; and the position behind them. Runs
      beyond the last coefficient end on it. */
  datatype Values = Values(coefs: seq<int>, pos: nat) | NoValues

  ghost function AcValues(sizes: seq<nat>, values: seq<byte>, data: seq<byte>, limit: Option<nat>, pos: nat, k: nat, coefs: seq<int>, asCoded: bool):
    (r: Values)
    requires ValidSizes(sizes) && |values| == 256 && |coefs| == 64
    ensures r.Values? ==> |r.coefs| == 64
    decreases 64 - k, pos
  {
    if k >= 64 then Values(coefs, pos)
    else
      match NextAc(sizes, values, data, limit, pos, asCoded)
      case NoCode => NoValues
      case Overrun => NoValues
      case EndOfBlock(p) => Values(coefs, p)
      case SixteenZeros(p) => AcValues(sizes, values, data, limit, p, k + 16, coefs, asCoded)
      case Coefficient(run, v, p) =>
        AcValues(sizes, values, data, limit, p, k + run + 1, coefs[(if k + run < 64 then k + run else 63) := v], asCoded)
  }

  /** Coefficient k, at its place by rows and columns: its value dequantized; or what was there, if it is zero. */
  predicate LaidAt(c: seq<int>, quant: seq<nat>, before: seq<int>, out: seq<int>, row: nat, col: nat)
    requires |c| == |quant| == |before| == |out| == 64 && row < 8 && col < 8
  {
    var k, z := Number(row, col), 8 * row + col;
    k < 64 && out[z] == if c[k] == 0 then before[z] else Dequantized(c[k], quant[z])
  }

  ghost predicate Laid(c: seq<int>, quant: seq<nat>, before: seq<int>, out: seq<int>) {
    |c| == |quant| == |before| == |out| == 64 &&
    forall row: nat, col: nat | row < 8 && col < 8 :: LaidAt(c, quant, before, out, row, col)
  }

  /** The same by numbers. */
  predicate LaidNth(c: seq<int>, quant: seq<nat>, before: seq<int>, out: seq<int>, k: nat)
    requires |c| == |quant| == |before| == |out| == 64 && k < 64
  {
    out[Zigzag(k)] == if c[k] == 0 then before[Zigzag(k)] else Dequantized(c[k], quant[Zigzag(k)])
  }

  ghost predicate LaidAll(c: seq<int>, quant: seq<nat>, before: seq<int>, out: seq<int>) {
    |c| == |quant| == |before| == |out| == 64 && forall k | 0 <= k < 64 :: LaidNth(c, quant, before, out, k)
  }

  lemma LaidByPlace(c: seq<int>, quant: seq<nat>, before: seq<int>, out: seq<int>)
    requires LaidAll(c, quant, before, out)
    ensures Laid(c, quant, before, out)
  {
    forall row: nat, col: nat | row < 8 && col < 8 ensures LaidAt(c, quant, before, out, row, col) {
      PlaceOfNumber(row, col);
      assert LaidNth(c, quant, before, out, Number(row, col));
    }
  }

  lemma LaidNext(c: seq<int>, quant: seq<nat>, before: seq<int>, out: seq<int>, k: nat, v: int)
    requires LaidAll(c, quant, before, out) && k < 64 && v != 0
    ensures LaidAll(c[k := v], quant, before, out[Zigzag(k) := Dequantized(v, quant[Zigzag(k)])])
  {
    var c', out' := c[k := v], out[Zigzag(k) := Dequantized(v, quant[Zigzag(k)])];
    forall i | 0 <= i < 64 ensures LaidNth(c', quant, before, out', i) {
      assert LaidNth(c, quant, before, out, i);
      if i < k {
        PlacesDiffer(i, k);
      } else if k < i {
        PlacesDiffer(k, i);
      }
    }
  }

  lemma NeverZero(v: nat, t: nat)
    requires t > 0 && v < Pow2(t)
    ensures Extend(v, t) != 0
  {
  }

  /** A coefficient read is not zero. */
  lemma ReadNotZero(sizes: seq<nat>, values: seq<byte>, data: seq<byte>, limit: Option<nat>, pos: nat, asCoded: bool)
    requires ValidSizes(sizes) && |values| == 256
    ensures var ac := NextAc(sizes, values, data, limit, pos, asCoded);
            ac.Coefficient? ==> ac.value != 0 && ac.run < 16
  {
    var read := Read(sizes, Stream(data, pos, 16), asCoded);
    if read.Some? {
      var t := values[read.value.symbol] as nat % 16;
      StreamBound(data, pos + read.value.len, t);
      if t > 0 {
        NeverZero(Stream(data, pos + read.value.len, t), t);
      }
    }
  }

  /** So a block holds the values, each at its place. */
  lemma {:induction false} BlockIsLaid(sizes: seq<nat>, values: seq<byte>, quant: seq<nat>, data: seq<byte>, limit: Option<nat>, pos: nat, k: nat,
                                       c: seq<int>, before: seq<int>, out: seq<int>, asCoded: bool)
    requires ValidSizes(sizes) && |values| == 256 && LaidAll(c, quant, before, out)
    ensures var r, b := AcValues(sizes, values, data, limit, pos, k, c, asCoded),
                        AcBlock(sizes, values, quant, data, limit, pos, k, out, asCoded);
            r.Values? == b.Block? && (b.Block? ==> r.pos == b.pos && LaidAll(r.coefs, quant, before, b.coefs))
    decreases 64 - k, pos
  {
    if k < 64 {
      ReadNotZero(sizes, values, data, limit, pos, asCoded);
      match NextAc(sizes, values, data, limit, pos, asCoded) {
        case SixteenZeros(p) => BlockIsLaid(sizes, values, quant, data, limit, p, k + 16, c, before, out, asCoded);
        case Coefficient(run, v, p) =>
          var i := if k + run < 64 then k + run else 63;
          assert Zigzag(k + run) == Zigzag(i);
          LaidNext(c, quant, before, out, i, v);
          BlockIsLaid(sizes, values, quant, data, limit, p, k + run + 1, c[i := v], before,
                      out[Zigzag(i) := Dequantized(v, quant[Zigzag(i)])], asCoded);
        case _ =>
      }
    }
  }

  /** No values yet. */
  function NoCoefs(): (c: seq<int>)
    ensures |c| == 64
  {
    seq(64, _ => 0)
  }

  /** The block of these values is laid on what was there, if there is one. */
  ghost predicate BlockLaid(r: Values, b: Block, quant: seq<nat>, before: seq<int>) {
    r.Values? == b.Block? && (b.Block? ==> r.pos == b.pos && Laid(r.coefs, quant, before, b.coefs))
  }

  lemma WholeBlockIsLaid(sizes: seq<nat>, values: seq<byte>, quant: seq<nat>, data: seq<byte>, limit: Option<nat>, pos: nat, before: seq<int>, asCoded: bool)
    requires ValidSizes(sizes) && |values| == 256 && |quant| == 64 && |before| == 64
    ensures BlockLaid(AcValues(sizes, values, data, limit, pos, 1, NoCoefs(), asCoded),
                      AcBlock(sizes, values, quant, data, limit, pos, 1, before, asCoded), quant, before)
  {
    var r, b := AcValues(sizes, values, data, limit, pos, 1, NoCoefs(), asCoded), AcBlock(sizes, values, quant, data, limit, pos, 1, before, asCoded);
    forall k | 0 <= k < 64 ensures LaidNth(NoCoefs(), quant, before, before, k) {
    }
    BlockIsLaid(sizes, values, quant, data, limit, pos, 1, NoCoefs(), before, before, asCoded);
    if b.Block? {
      LaidByPlace(r.coefs, quant, before, b.coefs);
    }
  }
}
