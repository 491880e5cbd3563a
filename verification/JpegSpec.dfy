/** Huffman codes and coefficient values of JPEG, as ITU-T T.81 defines them. */
module JpegSpec {
  import opened Bits
  import opened Context
  import opened Folding
  import opened Options

  // ---- Codes: Annex C -----------------------------------------------------------------------------

  /** Code lengths in the order of the symbols: 1 to 16 bits, never decreasing (Figure C.1). */
  ghost predicate ValidSizes(sizes: seq<nat>) {
    |sizes| <= 256 && (forall i | 0 <= i < |sizes| :: 1 <= sizes[i] <= 16) && Sorted(sizes)
  }

  ghost predicate Sorted(sizes: seq<nat>) {
    forall g: nat :: Guard(g) ==> forall i, j | 0 <= i < j < |sizes| :: sizes[i] <= sizes[j]
  }

  lemma SortedAt(sizes: seq<nat>, i: nat, j: nat)
    requires Sorted(sizes) && i <= j < |sizes|
    ensures sizes[i] <= sizes[j]
  {
    assert Guard(0);
  }

  /** Codes count up, and are shifted left where the length grows (Figure C.2). */
  ghost function Code(sizes: seq<nat>, i: nat): nat
    requires ValidSizes(sizes) && i < |sizes|
  {
    if i == 0 then 0
    else
      SortedAt(sizes, i - 1, i);
      Shl(Code(sizes, i - 1) + 1, sizes[i] - sizes[i - 1])
  }

  /** Every code has as many bits as its length says. */
  ghost predicate CodesFit(sizes: seq<nat>)
    requires ValidSizes(sizes)
  {
    forall g: nat :: Guard(g) ==> forall i | 0 <= i < |sizes| :: Code(sizes, i) < Pow2(sizes[i])
  }

  /** One past the largest 16-bit window that starts with one of the first n codes. */
  ghost function End(sizes: seq<nat>, n: nat): nat
    requires ValidSizes(sizes) && n <= |sizes|
  {
    if n == 0 then 0 else Shl(Code(sizes, n - 1) + 1, 16 - sizes[n - 1])
  }

  /** The first n bits of a 16-bit window are code i. */
  ghost predicate StartsWith(sizes: seq<nat>, w: nat, i: nat)
    requires ValidSizes(sizes)
  {
    i < |sizes| && Shr(w, 16 - sizes[i]) == Code(sizes, i)
  }

  /** Windows that start with code i are those between the ends: the codes leave no gaps. */
  lemma StartsWithIs(sizes: seq<nat>, w: nat, i: nat)
    requires ValidSizes(sizes) && i < |sizes|
    ensures StartsWith(sizes, w, i) <==> End(sizes, i) <= w < End(sizes, i + 1)
  {
    var k := 16 - sizes[i];
    CodeStart(sizes, i);
    ShrBounds(w, k);
    if StartsWith(sizes, w, i) {
      ShlStrict(Code(sizes, i), Code(sizes, i) + 1, k);
    } else if End(sizes, i) <= w < End(sizes, i + 1) {
      ShrRange(w, k, Code(sizes, i), Code(sizes, i) + 1);
    }
  }

  /** A code padded to 16 bits is the end of the codes before it. */
  lemma CodeStart(sizes: seq<nat>, i: nat)
    requires ValidSizes(sizes) && i < |sizes|
    ensures Shl(Code(sizes, i), 16 - sizes[i]) == End(sizes, i)
  {
    ShlZero(16 - sizes[i]);
    if i > 0 {
      LaterCodeStart(sizes, i);
    }
  }

  lemma LaterCodeStart(sizes: seq<nat>, i: nat)
    requires ValidSizes(sizes) && 0 < i < |sizes|
    ensures Shl(Code(sizes, i), 16 - sizes[i]) == End(sizes, i)
  {
    SortedAt(sizes, i - 1, i);
    Widened(Code(sizes, i - 1) + 1, sizes[i - 1], sizes[i]);
  }

  lemma Widened(c: nat, l: nat, m: nat)
    requires l <= m <= 16
    ensures Shl(Shl(c, m - l), 16 - m) == Shl(c, 16 - l)
  {
    ShlShl(c, m - l, 16 - m);
  }

  lemma {:induction false} EndMono(sizes: seq<nat>, i: nat, j: nat)
    requires ValidSizes(sizes) && i <= j <= |sizes|
    ensures End(sizes, i) <= End(sizes, j)
    decreases j
  {
    if i < j {
      EndMono(sizes, i, j - 1);
      CodeStart(sizes, j - 1);
      ShlMono(Code(sizes, j - 1), Code(sizes, j - 1) + 1, 16 - sizes[j - 1]);
    }
  }

  /** The 16-bit windows that start with one of the first n codes: 2^(16 - l) for each code of l bits. */
  ghost function Windows(sizes: seq<nat>, n: nat): nat
    requires ValidSizes(sizes) && n <= |sizes|
  {
    if n == 0 then 0 else Windows(sizes, n - 1) + Pow2(16 - sizes[n - 1])
  }

  /** So each code, at the top of 16 bits, is where the windows of the codes before it end. */
  lemma {:induction false} CodeIsWindows(sizes: seq<nat>, i: nat)
    requires ValidSizes(sizes) && i < |sizes|
    ensures Shl(Code(sizes, i), 16 - sizes[i]) == Windows(sizes, i)
  {
    CodeStart(sizes, i);
    if i > 0 {
      var k := 16 - sizes[i - 1];
      CodeIsWindows(sizes, i - 1);
      ShlAdd(Code(sizes, i - 1), 1, k);
      ShlOne(k);
    }
  }

  /** No code is a prefix of another: a window starts with at most one. */
  lemma PrefixFree(sizes: seq<nat>, w: nat, i: nat, j: nat)
    requires ValidSizes(sizes) && StartsWith(sizes, w, i) && StartsWith(sizes, w, j)
    ensures i == j
  {
    StartsWithIs(sizes, w, i);
    StartsWithIs(sizes, w, j);
    if i < j {
      EndMono(sizes, i + 1, j);
    } else if j < i {
      EndMono(sizes, j + 1, i);
    }
  }

  /** The symbol whose code a 16-bit window starts with. */
  ghost function Decode(sizes: seq<nat>, w: nat, n: nat): (r: Option<nat>)
    requires ValidSizes(sizes) && n <= |sizes|
    ensures r.Some? ==> r.value < n
  {
    if n == 0 then None else if End(sizes, n - 1) <= w < End(sizes, n) then Some(n - 1) else Decode(sizes, w, n - 1)
  }

  lemma {:induction false} DecodeIs(sizes: seq<nat>, w: nat, n: nat)
    requires ValidSizes(sizes) && n <= |sizes|
    ensures Decode(sizes, w, n) == None <==> w >= End(sizes, n)
    ensures Decode(sizes, w, n).Some? ==> StartsWith(sizes, w, Decode(sizes, w, n).value)
  {
    if n > 0 {
      DecodeIs(sizes, w, n - 1);
      StartsWithIs(sizes, w, n - 1);
      EndMono(sizes, n - 1, n);
    }
  }

  lemma DecodeFinds(sizes: seq<nat>, w: nat, i: nat)
    requires ValidSizes(sizes) && StartsWith(sizes, w, i)
    ensures Decode(sizes, w, |sizes|) == Some(i)
  {
    DecodeIs(sizes, w, |sizes|);
    StartsWithIs(sizes, w, i);
    EndMono(sizes, i + 1, |sizes|);
    PrefixFree(sizes, w, i, Decode(sizes, w, |sizes|).value);
  }

  // ---- What the program reads instead ---------------------------------------------------------------

  /** No symbol is mistaken for another: symbol 255, if there is one, has a code of more than nine bits. */
  predicate Regular(sizes: seq<nat>) {
    |sizes| < 256 || sizes[255] > 9
  }

  /** The fast table cannot hold symbol 255, whose number marks a missing entry. With 256 codes of which the
      last has at most nine bits, its windows go to the slow search, which knows no codes that short. */
  ghost predicate Mistaken(sizes: seq<nat>, w: nat)
    requires ValidSizes(sizes)
  {
    !Regular(sizes) && StartsWith(sizes, w, 255)
  }

  /** What the slow search makes of a mistaken window: the ten bits it takes, counted back from the first ten-bit
      code, where there would be symbol 256. */
  ghost function MistakenSymbol(sizes: seq<nat>, w: nat): int
    requires ValidSizes(sizes) && Mistaken(sizes, w)
  {
    256 - (Shl(Code(sizes, 255) + 1, 10 - sizes[255]) - Shr(w, 6))
  }

  /** A symbol and the number of bits taken for it. */
  datatype Reading = Reading(symbol: nat, len: nat)

  /** The symbol of a 16-bit window: as Annex C says, or as the program reads it. */
  ghost function Read(sizes: seq<nat>, w: nat, asCoded: bool): (r: Option<Reading>)
    requires ValidSizes(sizes)
    ensures r.Some? ==> r.value.symbol < 256
  {
    if asCoded && Mistaken(sizes, w) then
      if 0 <= MistakenSymbol(sizes, w) < 256 then Some(Reading(MistakenSymbol(sizes, w), 10)) else None
    else
      match Decode(sizes, w, |sizes|)
      case None => None
      case Some(i) => Some(Reading(i, sizes[i]))
  }

  // ---- Values: section F.2.2.1 ----------------------------------------------------------------------

  /** EXTEND: the value of t additional bits; the smaller half stands for negative values. */
  function Extend(v: nat, t: nat): int
    requires t > 0
  {
    if v < Pow2(t - 1) then v - Pow2(t) + 1 else v
  }

  // ---- The entropy-coded data: section B.1.1.5 ------------------------------------------------------

  /** Whether the unread input has a marker that ends the data. */
  function Marked(rest: seq<byte>): bool
    decreases |rest|
  {
    if rest == [] then false
    else if rest[0] != 0xFF then Marked(rest[1..])
    else
      var after := SkipFill(rest[1..]);
      Head(after) != 0 || Marked(Tail(after))
  }

  /** The data bytes of the unread input up to a marker: after 0xFF a zero is stuffing, and 0xFF is fill.
      Past the end the reader yields zeros. */
  function Unstuffed(rest: seq<byte>): seq<byte>
    decreases |rest|
  {
    if rest == [] then []
    else if rest[0] != 0xFF then [rest[0]] + Unstuffed(rest[1..])
    else
      var after := SkipFill(rest[1..]);
      if Head(after) != 0 then [] else [0xFF] + Unstuffed(Tail(after))
  }

  function SkipFill(rest: seq<byte>): (r: seq<byte>)
    ensures |r| <= |rest|
  {
    if rest != [] && rest[0] == 0xFF then SkipFill(rest[1..]) else rest
  }

  /** Bit i of the data, each byte giving its high bit first, and zeros behind it. */
  function StreamBit(data: seq<byte>, i: nat): (b: nat)
    ensures b < 2
    decreases i
  {
    if data == [] then 0 else if i < 8 then Shr(data[0] as nat, 7 - i) % 2 else StreamBit(data[1..], i - 8)
  }

  /** The value of n bits at position p, the first being the most significant. */
  function Stream(data: seq<byte>, p: nat, n: nat): nat
    decreases n, p
  {
    if n == 0 then 0 else 2 * Stream(data, p, n - 1) + StreamBit(data, p + n - 1)
  }

  lemma {:induction false} StreamBound(data: seq<byte>, p: nat, n: nat)
    ensures Stream(data, p, n) < Pow2(n)
  {
    if n > 0 {
      StreamBound(data, p, n - 1);
    }
  }

  lemma {:induction false} StreamSplit(data: seq<byte>, p: nat, m: nat, n: nat)
    ensures Stream(data, p, m + n) == Shl(Stream(data, p, m), n) + Stream(data, p + m, n)
    decreases n
  {
    if n > 0 {
      StreamSplit(data, p, m, n - 1);
      assert p + m + (n - 1) == p + (m + n) - 1;
    }
  }

  /** The first m of n bits. */
  lemma StreamTop(data: seq<byte>, p: nat, m: nat, n: nat)
    requires m <= n
    ensures Shr(Stream(data, p, n), n - m) == Stream(data, p, m)
    ensures Low(Stream(data, p, n), n - m) == Stream(data, p + m, n - m)
  {
    var k := n - m;
    StreamSplit(data, p, m, k);
    StreamBound(data, p + m, k);
    Join(Stream(data, p + m, k), Stream(data, p, m), k);
    assert m + k == n;
  }

  lemma {:induction false} StreamBitPastEnd(data: seq<byte>, i: nat)
    requires i >= 8 * |data|
    ensures StreamBit(data, i) == 0
    decreases i
  {
    if data != [] {
      StreamBitPastEnd(data[1..], i - 8);
    }
  }

  lemma {:induction false} StreamPastEnd(data: seq<byte>, p: nat, n: nat)
    requires p >= 8 * |data|
    ensures Stream(data, p, n) == 0
    decreases n
  {
    if n > 0 {
      StreamPastEnd(data, p, n - 1);
      StreamBitPastEnd(data, p + n - 1);
    }
  }

  lemma {:induction false} StreamBitAt(data: seq<byte>, j: nat, p: nat, i: nat)
    requires j < |data| && i < 8 && p == 8 * j + i
    ensures StreamBit(data, p) == Shr(data[j] as nat, 7 - i) % 2
    decreases j
  {
    if j > 0 {
      StreamBitAt(data[1..], j - 1, p - 8, i);
    }
  }

  lemma {:induction false} BitsOfStreamByte(data: seq<byte>, j: nat, p: nat, n: nat)
    requires j < |data| && n <= 8 && p == 8 * j
    ensures Stream(data, p, n) == Shr(data[j] as nat, 8 - n)
    decreases n
  {
    var d := data[j] as nat;
    if n == 0 {
      var eight := 8;
      Pow2Small();
      LowSmall(d, eight);
    } else {
      BitsOfStreamByte(data, j, p, n - 1);
      StreamBitAt(data, j, p + n - 1, n - 1);
      ShrShr(d, 8 - n, 1);
      ShrOne(Shr(d, 8 - n));
    }
  }

  lemma StreamByte(data: seq<byte>, j: nat, p: nat, n: nat)
    requires p == 8 * j && n == 8
    ensures Stream(data, p, n) == if j < |data| then data[j] as nat else 0
  {
    if j < |data| {
      BitsOfStreamByte(data, j, p, n);
    } else {
      StreamPastEnd(data, p, n);
    }
  }

  // ---- AC coefficients: section F.2.2.2 ---------------------------------------------------------------

  /** The next code and its additional bits: no code; the end of the block; sixteen zeros; or a coefficient
      after a run of zeros. Overrun if that takes bits behind the limit, if there is one; without one the data goes on
      in zeros. */
  datatype Ac = NoCode | Overrun | EndOfBlock(pos: nat) | SixteenZeros(pos: nat) | Coefficient(run: nat, value: int, pos: nat)

  /** The position is behind the data, and the program has no bits for it. */
  predicate Beyond(limit: Option<nat>, p: nat) {
    limit.Some? && p > limit.value
  }

  ghost function NextAc(sizes: seq<nat>, values: seq<byte>, data: seq<byte>, limit: Option<nat>, pos: nat, asCoded: bool): Ac
    requires ValidSizes(sizes) && |values| == 256
  {
    AcOf(Read(sizes, Stream(data, pos, 16), asCoded), values, data, limit, pos)
  }

  /** The code at a position, given the reading of the next 16 bits. */
  function AcOf(read: Option<Reading>, values: seq<byte>, data: seq<byte>, limit: Option<nat>, pos: nat): Ac
    requires |values| == 256 && (read.Some? ==> read.value.symbol < 256)
  {
    match read
    case None => NoCode
    case Some(r) =>
      var p := pos + r.len;
      var run, t := values[r.symbol] as nat / 16, values[r.symbol] as nat % 16;
      if Beyond(limit, p + t) then Overrun
      else if t > 0 then Coefficient(run, Extend(Stream(data, p, t), t), p + t)
      else if run == 15 then SixteenZeros(p)
      else EndOfBlock(p)
  }

  /** The row-major place of coefficient k in the zigzag order; places past the last one are the last. */
  function Zigzag(k: nat): (z: nat)
    requires k < 79
    ensures z < 64
  {
    if k < 8 then [0, 1, 8, 16, 9, 2, 3, 10][k]
    else if k < 16 then [17, 24, 32, 25, 18, 11, 4, 5][k - 8]
    else if k < 24 then [12, 19, 26, 33, 40, 48, 41, 34][k - 16]
    else if k < 32 then [27, 20, 13, 6, 7, 14, 21, 28][k - 24]
    else if k < 40 then [35, 42, 49, 56, 57, 50, 43, 36][k - 32]
    else if k < 48 then [29, 22, 15, 23, 30, 37, 44, 51][k - 40]
    else if k < 56 then [58, 59, 52, 45, 38, 31, 39, 46][k - 48]
    else if k < 64 then [53, 60, 61, 54, 47, 55, 62, 63][k - 56]
    else 63
  }

  /** A value times its quantizer, cut off to 16 bits. */
  function Dequantized(value: int, q: nat): int {
    (value * q + 0x8000) % 0x1_0000 - 0x8000
  }

  datatype Block = Block(coefs: seq<int>, pos: nat) | Undecodable | Truncated

  /** The coefficients of a block from coefficient k on. */
  ghost function AcBlock(sizes: seq<nat>, values: seq<byte>, quant: seq<nat>, data: seq<byte>, limit: Option<nat>, pos: nat, k: nat, coefs: seq<int>,
                         asCoded: bool): Block
    requires ValidSizes(sizes) && |values| == 256 && |quant| == 64 && |coefs| == 64
    decreases 64 - k, pos
  {
    if k >= 64 then Block(coefs, pos)
    else
      match NextAc(sizes, values, data, limit, pos, asCoded)
      case NoCode => Undecodable
      case Overrun => Truncated
      case EndOfBlock(p) => Block(coefs, p)
      case SixteenZeros(p) => AcBlock(sizes, values, quant, data, limit, p, k + 16, coefs, asCoded)
      case Coefficient(run, v, p) =>
        var z := Zigzag(k + run);
        AcBlock(sizes, values, quant, data, limit, p, k + run + 1, coefs[z := Dequantized(v, quant[z])], asCoded)
  }

  /** With a regular table the program's reading of a block is that of T.81. */
  lemma {:induction false} RegularBlock(sizes: seq<nat>, values: seq<byte>, quant: seq<nat>, data: seq<byte>, limit: Option<nat>, pos: nat, k: nat, coefs: seq<int>)
    requires ValidSizes(sizes) && |values| == 256 && |quant| == 64 && |coefs| == 64 && Regular(sizes)
    ensures AcBlock(sizes, values, quant, data, limit, pos, k, coefs, true) == AcBlock(sizes, values, quant, data, limit, pos, k, coefs, false)
    decreases 64 - k, pos
  {
    if k < 64 {
      var next := NextAc(sizes, values, data, limit, pos, true);
      assert next == NextAc(sizes, values, data, limit, pos, false);
      match next {
        case SixteenZeros(p) => RegularBlock(sizes, values, quant, data, limit, p, k + 16, coefs);
        case Coefficient(run, v, p) =>
          var z := Zigzag(k + run);
          RegularBlock(sizes, values, quant, data, limit, p, k + run + 1, coefs[z := Dequantized(v, quant[z])]);
        case _ =>
      }
    }
  }
}
