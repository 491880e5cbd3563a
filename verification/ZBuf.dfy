/** stbi__zbuf: the in-memory zlib decoder of stb_image. */
module ZlibDecoder {
  import opened Bits
  import opened Options
  import opened CanonicalCode
  import opened ZHuffmanTables
  import opened Folding
  import opened InflateSpec

  /** stbi__zlength_base */
  function ZLengthBase(z: nat): nat
    requires z < 31
  {
    [3, 4, 5, 6, 7, 8, 9, 10, 11, 13,
     15, 17, 19, 23, 27, 31, 35, 43, 51, 59,
     67, 83, 99, 115, 131, 163, 195, 227, 258, 0, 0][z]
  }

  /** stbi__zlength_extra */
  function ZLengthExtra(z: nat): nat
    requires z < 31
  {
    [0, 0, 0, 0, 0, 0, 0, 0, 1, 1, 1, 1, 2, 2, 2, 2, 3, 3, 3, 3, 4, 4, 4, 4, 5, 5, 5, 5, 0, 0, 0][z]
  }

  /** stbi__zdist_base */
  function ZDistBase(z: nat): nat
    requires z < 32
  {
    [1, 2, 3, 4, 5, 7, 9, 13, 17, 25, 33, 49, 65, 97, 129, 193,
     257, 385, 513, 769, 1025, 1537, 2049, 3073, 4097, 6145, 8193, 12289, 16385, 24577, 0, 0][z]
  }

  /** stbi__zdist_extra */
  function ZDistExtra(z: nat): nat
    requires z < 30
  {
    [0, 0, 0, 0, 1, 1, 2, 2, 3, 3, 4, 4, 5, 5, 6, 6, 7, 7, 8, 8, 9, 9, 10, 10, 11, 11, 12, 12, 13, 13][z]
  }

  /** The four tables agree with the construction of section 3.2.5 of RFC 1951. */
  lemma {:induction false} LengthTable(z: nat)
    requires z <= 28
    ensures ZLengthBase(z) == LengthBase(z) && ZLengthExtra(z) == LengthExtra(z) <= 5
  {
    Pow2Medium();
    LengthTableStep(z);
    if 0 < z < 28 {
      LengthTable(z - 1);
    }
  }

  lemma LengthTableStep(z: nat)
    requires z <= 28
    ensures ZLengthExtra(z) == LengthExtra(z) <= 5
    ensures 0 < z < 28 ==> ZLengthBase(z) == ZLengthBase(z - 1) + Pow2(LengthExtra(z - 1))
  {
    if z < 14 {
      LengthTableLow(z);
    } else {
      LengthTableHigh(z);
    }
  }

  lemma LengthTableLow(z: nat)
    requires z < 14
    ensures ZLengthExtra(z) == LengthExtra(z) <= 5
    ensures 0 < z ==> ZLengthBase(z) == ZLengthBase(z - 1) + Pow2(LengthExtra(z - 1))
  {
    Pow2Medium();
  }

  lemma LengthTableHigh(z: nat)
    requires 14 <= z <= 28
    ensures ZLengthExtra(z) == LengthExtra(z) <= 5
    ensures z < 28 ==> ZLengthBase(z) == ZLengthBase(z - 1) + Pow2(LengthExtra(z - 1))
  {
    Pow2Medium();
  }

  lemma {:induction false} DistTable(z: nat)
    requires z < 30
    ensures ZDistBase(z) == DistBase(z) && ZDistExtra(z) == DistExtra(z) <= 13
  {
    DistTableStep(z);
    if 0 < z {
      DistTable(z - 1);
    }
  }

  lemma DistTableStep(z: nat)
    requires z < 30
    ensures ZDistExtra(z) == DistExtra(z) <= 13
    ensures 0 < z ==> ZDistBase(z) == ZDistBase(z - 1) + Pow2(DistExtra(z - 1))
  {
    if z < 15 {
      DistTableLow(z);
    } else {
      DistTableHigh(z);
    }
  }

  lemma DistTableLow(z: nat)
    requires z < 15
    ensures ZDistExtra(z) == DistExtra(z) <= 13
    ensures 0 < z ==> ZDistBase(z) == ZDistBase(z - 1) + Pow2(DistExtra(z - 1))
  {
    Pow2Medium();
  }

  lemma DistTableHigh(z: nat)
    requires 15 <= z < 30
    ensures ZDistExtra(z) == DistExtra(z) <= 13
    ensures ZDistBase(z) == ZDistBase(z - 1) + Pow2(DistExtra(z - 1))
  {
    Pow2Medium();
  }

  method LengthEntry(z: nat) returns (base: nat, extra: nat)
    requires z <= 28
    ensures base == LengthBase(z) >= 3 && extra == LengthExtra(z) <= 5
  {
    LengthTable(z);
    LengthPositive(z);
    base, extra := ZLengthBase(z), ZLengthExtra(z);
  }

  method DistEntry(z: nat) returns (base: nat, extra: nat)
    requires z < 30
    ensures base == DistBase(z) >= 1 && extra == DistExtra(z) <= 13
  {
    DistTable(z);
    DistPositive(z);
    base, extra := ZDistBase(z), ZDistExtra(z);
  }

  lemma Pow2Medium()
    ensures Pow2(0) == 1 && Pow2(1) == 2 && Pow2(2) == 4 && Pow2(3) == 8 && Pow2(4) == 16 && Pow2(5) == 32
    ensures Pow2(6) == 64 && Pow2(7) == 128 && Pow2(8) == 256 && Pow2(9) == 512 && Pow2(10) == 1024
    ensures Pow2(11) == 2048 && Pow2(12) == 4096 && Pow2(13) == 8192
  {
  }

  /** The largest size to which doubling can grow the output, on a heap that can supply blocks of
      up to heap bytes. */
  function Capacity(expandable: bool, heap: nat, limit: nat): (c: nat)
    requires expandable ==> limit > 0
    ensures c >= limit && (limit <= UINT_MAX ==> c <= UINT_MAX)
    decreases UINT_MAX - limit
  {
    if !expandable || limit > UINT_MAX / 2 || 2 * limit > heap then limit else Capacity(expandable, heap, 2 * limit)
  }

  /** It is the limit doubled some times, as long as that is allowed, and once more would be too much. */
  lemma {:induction false} CapacityDoubles(expandable: bool, heap: nat, limit: nat) returns (k: nat)
    requires expandable ==> limit > 0
    ensures var c := Capacity(expandable, heap, limit);
            c == Shl(limit, k) && (k > 0 ==> expandable && c <= heap && c <= UINT_MAX) &&
            (expandable ==> 2 * c > heap || 2 * c > UINT_MAX)
    decreases UINT_MAX - limit
  {
    k := 0;
    if expandable && limit <= UINT_MAX / 2 && 2 * limit <= heap {
      k := CapacityDoubles(expandable, heap, 2 * limit);
      ShlShl(limit, 1, k);
      k := k + 1;
    }
  }

  lemma WindowFits(data: seq<byte>, p: nat, n: nat)
    requires n == 16
    ensures MsbVal(data, p, n) < 0x1_0000
  {
    MsbBound(data, p, n);
    Pow2Small();
  }

  lemma NothingMatches(lens: seq<nat>, data: seq<byte>, p: nat, n: nat)
    requires n == 16 && ValidLens(lens) && Beyond(lens, data, p, 15)
    ensures DecodeSym(lens, data, p) == None
  {
    forall sym: nat | sym < |lens|
      ensures !Matches(lens, data, p, sym)
    {
      if Matches(lens, data, p, sym) {
        PastAllCodes(lens, data, p, n, 15, sym);
      }
    }
    FindMatchNone(lens, data, p, |lens|);
  }

  /** Appending the next input byte above the buffered bits. */
  lemma NextByte(data: seq<byte>, zpos: nat, pos: nat, n: nat)
    requires zpos <= |data| && 8 * zpos <= pos + n && (zpos < |data| ==> 8 * zpos == pos + n)
    ensures Or(Val(data, pos, n), Shl(ByteAt(data, zpos) as nat, n)) == Val(data, pos, n + 8)
  {
    var b, k := ByteAt(data, zpos) as nat, 8;
    if zpos < |data| {
      ValByte(data, zpos, pos + n, k);
    } else {
      ValPastEnd(data, pos + n, k);
    }
    ValBound(data, pos, n);
    OrAppend(Val(data, pos, n), b, n);
    ValSplit(data, pos, n, k);
  }

  /** The pure decoder fails, or needs bits beyond the end of the input. */
  ghost predicate Rejected(r: Option<Inflated>, data: seq<byte>) {
    r.None? || r.value.pos > 8 * |data|
  }

  datatype Status = More | Done | Failed

  /** The pure step fails, or needs bits beyond the end of the input. */
  ghost predicate StepRejected(r: Step, data: seq<byte>) {
    r.Stop? || r.pos > 8 * |data|
  }

  /** The outcome of one symbol is that of the pure step. */
  ghost predicate StepIs(r: Step, status: Status, before: seq<byte>, out: seq<byte>, pos: nat, data: seq<byte>) {
    match status
    case More => r == Next(out, pos)
    case Done => r == EndOfBlock(pos) && out == before
    case Failed => StepRejected(r, data)
  }

  lemma StreamByte(data: seq<byte>, j: nat, p: nat, n: nat)
    requires n == 8 && p == 8 * j
    ensures Val(data, p, n) == ByteAt(data, j) as nat
  {
    if j < |data| {
      ValByte(data, j, p, n);
    } else {
      ValPastEnd(data, p, n);
    }
  }

  lemma BufferedByte(data: seq<byte>, j: nat, pos: nat, bits: nat, buffer: nat, n: nat)
    requires n == 8 <= bits && pos == 8 * j && buffer == Val(data, pos, bits)
    ensures And(buffer, 255) == ByteAt(data, j) as nat
  {
    StreamByte(data, j, pos, n);
    AndMask(buffer, n);
    ValTake(data, pos, bits, n);
    Pow2Small();
  }

  /** LEN and NLEN from the four header bytes. */
  lemma HeaderFields(data: seq<byte>, j: nat, h: seq<byte>)
    requires |h| == 4 && forall i | 0 <= i < 4 :: h[i] == ByteAt(data, j + i)
    ensures Val(data, 8 * j, 16) == h[1] as nat * 256 + h[0] as nat
    ensures Val(data, 8 * j + 16, 16) == h[3] as nat * 256 + h[2] as nat
  {
    TwoBytes(data, j, 8 * j, 8);
    TwoBytes(data, j + 2, 8 * j + 16, 8);
  }

  lemma TwoBytes(data: seq<byte>, j: nat, p: nat, n: nat)
    requires n == 8 && p == 8 * j
    ensures Val(data, p, n + n) == ByteAt(data, j + 1) as nat * 256 + ByteAt(data, j) as nat
  {
    StreamByte(data, j, p, n);
    StreamByte(data, j + 1, p + n, n);
    ValSplit(data, p, n, n);
    ShlByte(ByteAt(data, j + 1) as nat, n);
  }

  /** Reading code lengths fails, overshoots their number, or needs bits beyond the input. */
  ghost predicate LengthsRejected(r: Option<Lengths>, data: seq<byte>, total: nat) {
    r.None? || |r.value.lens| > total || r.value.pos > 8 * |data|
  }

  lemma InflateFrom(data: seq<byte>, header: bool, pos: nat, out: seq<byte>, cap: nat)
    requires if header then pos == 16 && ZlibHeader(data) else pos == 0
    ensures Inflate(data, header, out, cap) == InflateBlocks(data, pos, out, cap)
  {
  }

  /** An input too short to go on after the zlib header holds no block. */
  lemma ShortInput(data: seq<byte>, out: seq<byte>, cap: nat)
    requires |data| <= 2 || !ZlibHeader(data)
    ensures Inflate(data, true, out, cap).None?
  {
    if |data| <= 2 {
      ZerosFormNoBlock(data, 16, out, cap);
    }
  }

  /** The fixed codes are complete prefix codes. */
  lemma FixedKraft()
    ensures ValidLens(FixedLit()) && Kraft(FixedLit()) && ValidLens(FixedDist()) && Kraft(FixedDist())
  {
    Pow2Medium();
    Pow2Small();
    KraftFixed(15);
  }

  lemma KraftFixed(l: nat)
    requires l >= 9
    ensures KraftSum(FixedLit(), l) == 144 * Pow2(l - 8) + 112 * Pow2(l - 9) + 24 * Pow2(l - 7) + 8 * Pow2(l - 8)
    ensures KraftSum(FixedDist(), l) == 32 * Pow2(l - 5)
  {
    var eights, nines := Repeat(8, 144), Repeat(9, 112);
    KraftOnly(8, 144, l);
    KraftRepeat(eights, 9, 112, l);
    KraftRest(eights + nines, l);
    KraftOnly(5, 32, l);
  }

  lemma KraftRest(a: seq<nat>, l: nat)
    requires l >= 8
    ensures KraftSum(a + Repeat(7, 24) + Repeat(8, 8), l) == KraftSum(a, l) + 24 * Pow2(l - 7) + 8 * Pow2(l - 8)
  {
    KraftRepeat(a, 7, 24, l);
    KraftRepeat(a + Repeat(7, 24), 8, 8, l);
  }

  lemma KraftOnly(x: nat, n: nat, l: nat)
    requires 0 < x <= l
    ensures KraftSum(Repeat(x, n), l) == n * Pow2(l - x)
  {
    KraftRepeat([], x, n, l);
    assert [] + Repeat(x, n) == Repeat(x, n);
  }

  lemma {:induction false} KraftRepeat(a: seq<nat>, x: nat, n: nat, l: nat)
    requires 0 < x <= l
    ensures KraftSum(a + Repeat(x, n), l) == KraftSum(a, l) + n * Pow2(l - x)
  {
    if n == 0 {
      assert a + Repeat(x, 0) == a;
    } else {
      KraftRepeat(a, x, n - 1, l);
      var b := a + Repeat(x, n);
      assert b[..|b| - 1] == a + Repeat(x, n - 1);
      assert n * Pow2(l - x) == (n - 1) * Pow2(l - x) + Pow2(l - x);
    }
  }

  lemma RoundUp(pos: nat, n: nat, fed: nat)
    requires pos + n == 8 * fed
    ensures pos + n % 8 == 8 * ((pos + 7) / 8)
  {
  }

  /** The outcome of decoding is that of the pure decoder. */
  ghost predicate OutcomeIs(r: Option<Inflated>, ok: bool, out: seq<byte>, pos: nat, data: seq<byte>) {
    if ok then r == Some(Inflated(out, pos)) else Rejected(r, data)
  }

  /** Decoding the block that starts after a header at pos had this outcome. */
  ghost predicate BlockDone(data: seq<byte>, pos: nat, kind: nat, out: seq<byte>, cap: nat, ok: bool, out': seq<byte>,
                            pos': nat)
  {
    forall k: nat :: Guard(k) ==> OutcomeIs(InflateBlock(data, pos, kind, out, cap), ok, out', pos', data)
  }

  /** Where the block loop stands with respect to the result r of the pure decoder. */
  ghost predicate BlocksAre(r: Option<Inflated>, ok: bool, more: bool, out: seq<byte>, pos: nat, data: seq<byte>,
                            cap: nat)
  {
    forall k: nat :: Guard(k) ==>
      if more then r == InflateBlocks(data, pos, out, cap) else OutcomeIs(r, ok, out, pos, data)
  }

  lemma BlocksBegin(data: seq<byte>, pos: nat, out: seq<byte>, cap: nat)
    ensures BlocksAre(InflateBlocks(data, pos, out, cap), true, true, out, pos, data, cap)
  {
  }

  lemma BlocksEnd(r: Option<Inflated>, ok: bool, out: seq<byte>, pos: nat, data: seq<byte>, cap: nat)
    requires BlocksAre(r, ok, false, out, pos, data, cap)
    ensures OutcomeIs(r, ok, out, pos, data)
  {
    assert Guard(0);
  }

  lemma BlocksAdvance(r: Option<Inflated>, data: seq<byte>, cap: nat, mid: seq<byte>, p: nat, ok: bool,
                      final: bool, kind: nat, more: bool, out': seq<byte>, pos': nat)
    requires BlocksAre(r, true, true, mid, p, data, cap) && final == (Val(data, p, 1) == 1) && more == (ok && !final)
    requires kind == Val(data, p + 1, 2) && BlockDone(data, p + 3, kind, mid, cap, ok, out', pos')
    ensures BlocksAre(r, ok, more, out', pos', data, cap)
    ensures ok ==> p < 8 * |data| && p < pos'
  {
    assert Guard(0);
    BlocksStep(data, p, mid, cap);
    if p >= 8 * |data| {
      ZerosFormNoBlock(data, p, mid, cap);
    }
  }

  /** What is still to be read, folded: the codes given by the counts, and by the lengths of the code lengths. */
  ghost predicate CountsLead(whole: Option<Codes>, data: seq<byte>, pos: nat, counts: Counts) {
    counts.hclen <= 19 && forall k: nat :: Guard(k) ==> whole == DynamicFrom(data, pos, counts)
  }

  ghost predicate SizesLead(whole: Option<Codes>, sizes: seq<nat>, data: seq<byte>, pos: nat, hlit: nat, hdist: nat) {
    forall k: nat :: Guard(k) ==> whole == CodesFrom(sizes, data, pos, hlit, hdist)
  }

  lemma LengthsLead(whole: Option<Codes>, sizes: seq<nat>, data: seq<byte>, pos: nat, hlit: nat, hdist: nat)
    returns (r: Option<Lengths>)
    requires SizesLead(whole, sizes, data, pos, hlit, hdist) && Kraft(sizes)
    ensures r == ReadLengths(sizes, data, pos, [], hlit + hdist)
    ensures r.Some? ==> hlit <= |r.value.lens|
    ensures whole == if r.None? then None else SplitCodes(r.value.lens, hlit, r.value.pos)
  {
    assert Guard(0);
    r := ReadLengths(sizes, data, pos, [], hlit + hdist);
  }

  lemma NoCodeLengths(whole: Option<Codes>, sizes: seq<nat>, data: seq<byte>, pos: nat, hlit: nat, hdist: nat)
    requires SizesLead(whole, sizes, data, pos, hlit, hdist) && !Kraft(sizes)
    ensures whole == None
  {
    assert Guard(0);
  }

  lemma CountsFirst(data: seq<byte>, pos: nat)
    ensures CountsLead(DynamicCodes(data, pos), data, pos + 14, CountsAt(data, pos))
  {
  }

  lemma CountsThenSizes(whole: Option<Codes>, data: seq<byte>, pos: nat, counts: Counts, sizes: seq<nat>, next: nat)
    requires CountsLead(whole, data, pos, counts)
    requires sizes == CodeLengthLens(data, pos, counts.hclen) && next == pos + 3 * counts.hclen
    ensures SizesLead(whole, sizes, data, next, counts.hlit, counts.hdist)
  {
    assert Guard(0);
    assert whole == DynamicFrom(data, pos, counts);
  }

  ghost predicate CodesAre(r: Option<Codes>, ok: bool, lit: seq<nat>, dist: seq<nat>, pos: nat, data: seq<byte>) {
    if ok then r == Some(Codes(lit, dist, pos)) else r.None? || r.value.pos > 8 * |data|
  }

  class ZBuf {
    const zbuffer: seq<byte>
    var zpos: nat
    var numBits: int
    var hitZeof: bool
    var codeBuffer: nat

    var buffer: array<byte> // zout_start .. zout_end
    var zout: nat           // offset of the next output byte
    const expandable: bool
    const heap: nat         // the largest block that realloc can supply

    const zLength: ZHuffman
    const zDistance: ZHuffman

    ghost const cap: nat
    ghost var out: seq<byte>
    ghost var pos: nat      // bits of the input consumed so far
    ghost var fed: nat      // bytes that have entered the bit buffer, those past the end included

    constructor (input: seq<byte>, obuf: array<byte>, expandable: bool, heap: nat)
      requires obuf.Length <= UINT_MAX && (expandable ==> obuf.Length > 0)
      ensures zbuffer == input && buffer == obuf && zout == 0 && this.expandable == expandable && this.heap == heap
      ensures zpos == 0 && ValidOut() && ValidTables() && fresh(zLength) && fresh(zDistance)
    {
      zbuffer, zpos, numBits, hitZeof, codeBuffer, pos, fed := input, 0, 0, false, 0, 0, 0;
      buffer, zout, this.expandable, this.heap := obuf, 0, expandable, heap;
      cap, out := Capacity(expandable, heap, obuf.Length), [];
      zLength := new ZHuffman();
      zDistance := new ZHuffman();
    }

    /** The bit buffer holds the next numBits bits of the zero-extended input; zpos is where the
        input goes on. At the end of the input the buffer may hold bits that are not there. */
    ghost predicate ValidBits()
      reads this`zpos, this`numBits, this`codeBuffer, this`hitZeof, this`pos, this`fed
    {
      && zpos <= |zbuffer|
      && 0 <= numBits <= 32
      && codeBuffer == Val(zbuffer, pos, numBits)
      && pos + numBits == 8 * fed
      && zpos <= fed
      && (zpos < |zbuffer| ==> zpos == fed)
      && (hitZeof ==> zpos == |zbuffer| && fed >= |zbuffer| + 2)
    }

    /** out is what has been written; cap is the size beyond which the buffer cannot grow. */
    ghost predicate ValidOut()
      reads this`buffer, this`zout, this`out, buffer
    {
      && zout <= buffer.Length <= UINT_MAX
      && (expandable ==> buffer.Length > 0)
      && out == buffer[..zout]
      && cap == Capacity(expandable, heap, buffer.Length)
    }

    ghost predicate ValidTables()
      reads zLength, zDistance
    {
      zLength != zDistance && zLength.Valid() && zDistance.Valid()
    }

    // ---- Bits --------------------------------------------------------------------------------

    method Get8() returns (b: byte)
      requires zpos <= |zbuffer|
      modifies this`zpos
      ensures b == ByteAt(zbuffer, old(zpos))
      ensures zpos == if old(zpos) < |zbuffer| then old(zpos) + 1 else old(zpos)
    {
      if zpos >= |zbuffer| {
        b := 0;
      } else {
        b := zbuffer[zpos];
        zpos := zpos + 1;
      }
    }

    /** stbi__fill_bits. Its corruption test never fires: the buffer is always below 2^numBits. */
    method FillBits()
      requires ValidBits() && numBits <= 24
      modifies this`zpos, this`numBits, this`codeBuffer, this`fed
      ensures ValidBits() && numBits > 24
    {
      while numBits <= 24
        invariant ValidBits()
        decreases 32 - numBits
      {
        ValBound(zbuffer, pos, numBits);
        if codeBuffer >= Pow2(numBits) {
          assert false;
        }
        FillByte();
      }
    }

    method FillByte()
      requires ValidBits() && numBits <= 24
      modifies this`zpos, this`numBits, this`codeBuffer, this`fed
      ensures ValidBits() && numBits == old(numBits) + 8
    {
      NextByte(zbuffer, zpos, pos, numBits);
      var b := Get8();
      codeBuffer := Or(codeBuffer, Shl(b as nat, numBits));
      numBits, fed := numBits + 8, fed + 1;
    }

    /** stbi__zreceive: the next n bits, least significant first. */
    method Receive(n: nat) returns (k: nat)
      requires ValidBits() && n <= 24
      modifies this`zpos, this`numBits, this`codeBuffer, this`pos, this`fed
      ensures ValidBits() && k == Val(zbuffer, old(pos), n) < Pow2(n) && pos == old(pos) + n
      ensures old(numBits) >= n ==> zpos == old(zpos) && numBits == old(numBits) - n
    {
      if numBits < n {
        FillBits();
      }
      AndMask(codeBuffer, n);
      ValTake(zbuffer, pos, numBits, n);
      ValBound(zbuffer, pos, n);
      k := And(codeBuffer, Pow2(n) - 1);
      Drop(n);
    }

    method Drop(n: nat)
      requires ValidBits() && n <= numBits
      modifies this`numBits, this`codeBuffer, this`pos
      ensures ValidBits() && pos == old(pos) + n && numBits == old(numBits) - n
    {
      ValTake(zbuffer, pos, numBits, n);
      codeBuffer := Shr(codeBuffer, n);
      numBits := numBits - n;
      pos := pos + n;
    }

    // ---- Huffman codes -------------------------------------------------------------------------

    /** stbi__zhuffman_decode: the next symbol, or -1 when no code matches or the input has been
        over-read. */
    method HuffmanDecode(z: ZHuffman, ghost lens: seq<nat>) returns (v: int)
      requires ValidBits() && z.Tables(lens)
      modifies this`zpos, this`numBits, this`codeBuffer, this`pos, this`fed, this`hitZeof
      ensures ValidBits()
      ensures v >= 0 ==> DecodeSym(lens, zbuffer, old(pos)) == Some(v) && pos == old(pos) + lens[v]
      ensures v < 0 ==> DecodeSym(lens, zbuffer, old(pos)) == None || old(pos) > 8 * |zbuffer|
    {
      if numBits < 16 {
        if zpos >= |zbuffer| {
          if !hitZeof {
            PadSixteen();
          } else {
            return -1;
          }
        } else {
          FillBits();
        }
      }
      v := LookUp(z, lens);
    }

    /** At the first end of input, sixteen implicit zero bits. */
    method PadSixteen()
      requires ValidBits() && numBits < 16 && zpos >= |zbuffer|
      modifies this`numBits, this`hitZeof, this`fed
      ensures ValidBits() && numBits == old(numBits) + 16
    {
      ValSplit(zbuffer, pos, numBits, 16);
      ValPastEnd(zbuffer, pos + numBits, 16);
      ShlZero(numBits);
      hitZeof := true;
      numBits, fed := numBits + 16, fed + 2;
    }

    method LookUp(z: ZHuffman, ghost lens: seq<nat>) returns (v: int)
      requires ValidBits() && numBits >= 16 && z.Tables(lens)
      modifies this`numBits, this`codeBuffer, this`pos
      ensures ValidBits()
      ensures v >= 0 ==> DecodeSym(lens, zbuffer, old(pos)) == Some(v) && pos == old(pos) + lens[v]
      ensures v < 0 ==> DecodeSym(lens, zbuffer, old(pos)) == None
    {
      assert Guard(0);
      ghost var n := ZFAST_BITS;
      AndMask(codeBuffer, n);
      ValTake(zbuffer, pos, numBits, n);
      ValBound(zbuffer, pos, n);
      Pow2Small();
      var b := z.fast[And(codeBuffer, Pow2(ZFAST_BITS) - 1)] as nat;
      if b != 0 {
        FastHit(lens, z.fast, zbuffer, pos, b);
        DecodeIs(lens, zbuffer, pos, b % 512);
        Drop(b / 512);
        v := b % 512;
      } else {
        FastMiss(lens, z.fast, zbuffer, pos);
        v := SlowPath(z, lens);
      }
    }

    /** stbi__zhuffman_decode_slowpath. Its two corruption tests never fire. */
    method SlowPath(z: ZHuffman, ghost lens: seq<nat>) returns (v: int)
      requires ValidBits() && numBits >= 16 && z.Tables(lens)
      requires forall sym: nat :: Matches(lens, zbuffer, pos, sym) ==> lens[sym] > ZFAST_BITS
      modifies this`numBits, this`codeBuffer, this`pos
      ensures ValidBits()
      ensures v >= 0 ==> DecodeSym(lens, zbuffer, old(pos)) == Some(v) && pos == old(pos) + lens[v]
      ensures v < 0 ==> DecodeSym(lens, zbuffer, old(pos)) == None
    {
      var k := Window();
      var s := FindLength(z, lens, k);
      if s >= 16 {
        return -1;
      }
      v := SlotSymbol(z, lens, k, s);
      DecodeIs(lens, zbuffer, pos, v);
      Drop(s);
    }

    method SlotSymbol(z: ZHuffman, ghost lens: seq<nat>, k: nat, s: nat) returns (v: nat)
      requires z.Tables(lens) && 1 <= s <= 15 && k == MsbVal(zbuffer, pos, 16)
      requires Beyond(lens, zbuffer, pos, s - 1) && !Beyond(lens, zbuffer, pos, s)
      ensures Matches(lens, zbuffer, pos, v) && lens[v] == s
    {
      assert Guard(0);
      assert z.RangeAt(lens, s);
      SlowHit(lens, z.size, z.value, zbuffer, pos, s);
      var b := Shr(k, 16 - s) - z.firstcode[s] as nat + z.firstsymbol[s] as nat;
      if b >= ZNSYMS || z.size[b] as nat != s {
        assert false;
      }
      v := z.value[b] as nat;
    }

    /** The next sixteen bits, first bit most significant. */
    method Window() returns (k: nat)
      requires ValidBits() && numBits >= 16
      ensures k == MsbVal(zbuffer, pos, 16)
    {
      ghost var n := 16;
      BitReverse16IsRev(codeBuffer);
      RevLow(codeBuffer, n);
      ValTake(zbuffer, pos, numBits, n);
      RevVal(zbuffer, pos, n);
      k := BitReverse(codeBuffer, 16);
    }

    /** The loop of the slow path: the first length whose range ends after the window. */
    method FindLength(z: ZHuffman, ghost lens: seq<nat>, k: nat) returns (s: nat)
      requires z.Tables(lens) && k == MsbVal(zbuffer, pos, 16)
      requires forall sym: nat :: Matches(lens, zbuffer, pos, sym) ==> lens[sym] > ZFAST_BITS
      ensures ZFAST_BITS < s <= 16
      ensures s <= 15 ==> Beyond(lens, zbuffer, pos, s - 1) && !Beyond(lens, zbuffer, pos, s)
      ensures s == 16 ==> DecodeSym(lens, zbuffer, pos) == None
    {
      assert Guard(0);
      ghost var n := 16;
      WindowFits(zbuffer, pos, n);
      NoShortMatch(lens, zbuffer, pos, n, ZFAST_BITS);
      s := ZFAST_BITS + 1;
      var past := Past(z, lens, k, s);
      while past
        invariant ZFAST_BITS < s <= 16
        invariant past <==> s <= 15 && Beyond(lens, zbuffer, pos, s)
        invariant Beyond(lens, zbuffer, pos, s - 1)
        decreases 16 - s
      {
        s := s + 1;
        past := Past(z, lens, k, s);
      }
      if s == 16 {
        NothingMatches(lens, zbuffer, pos, n);
      }
    }

    method Past(z: ZHuffman, ghost lens: seq<nat>, k: nat, s: nat) returns (past: bool)
      requires z.Tables(lens) && k == MsbVal(zbuffer, pos, 16) < 0x1_0000 && 1 <= s <= 16
      ensures past <==> s <= 15 && Beyond(lens, zbuffer, pos, s)
    {
      assert Guard(0);
      if s <= 15 {
        assert z.RangeAt(lens, s);
      }
      past := k >= z.maxcode[s];
    }

    // ---- Output --------------------------------------------------------------------------------

    /** stbi__zexpand: make room for n more bytes by doubling, keeping the bytes written so far. */
    method Expand(n: nat) returns (ok: bool)
      requires ValidOut() && zout + n > buffer.Length
      modifies this`buffer
      ensures ValidOut() && out == old(out)
      ensures ok <==> zout + n <= cap
      ensures if ok then fresh(buffer) && zout + n <= buffer.Length else buffer == old(buffer)
    {
      if !expandable {
        return false;
      }
      if UINT_MAX - zout < n {
        return false;
      }
      var limit := NewLimit(n);
      if limit > UINT_MAX || limit > heap {
        return false; // too large, or realloc failed
      }
      var q := new byte[limit](_ => 0);
      forall i | 0 <= i < zout {
        q[i] := buffer[i];
      }
      buffer := q;
      ok := true;
    }

    /** The doubling loop; a result above UINT_MAX stands for its overflow exit. */
    method NewLimit(n: nat) returns (limit: nat)
      requires ValidOut() && expandable && zout + n > buffer.Length && zout + n <= UINT_MAX
      ensures zout + n <= limit && buffer.Length < limit
      ensures if limit <= UINT_MAX && limit <= heap then Capacity(expandable, heap, limit) == cap else cap < zout + n
    {
      limit := buffer.Length;
      while zout + n > limit
        invariant 0 < limit <= UINT_MAX
        invariant limit == buffer.Length || limit > buffer.Length
        invariant if limit == buffer.Length || limit <= heap then Capacity(expandable, heap, limit) == cap
                  else cap < zout + n
        decreases UINT_MAX - limit
      {
        if limit > UINT_MAX / 2 {
          return UINT_MAX + 1 + zout + n;
        }
        limit := limit * 2;
      }
    }

    method Literal(v: byte) returns (ok: bool)
      requires ValidOut()
      modifies this`buffer, this`zout, this`out, buffer
      ensures ValidOut() && (buffer == old(buffer) || fresh(buffer))
      ensures ok <==> old(zout) < cap
      ensures ok ==> out == old(out) + [v]
    {
      ok := true;
      if zout >= buffer.Length {
        ok := Expand(1);
        if !ok {
          return;
        }
      }
      buffer[zout] := v;
      zout, out := zout + 1, out + [v];
    }

    /** Copies len bytes from dist back, with the shortcut for runs of one byte. */
    method CopyBack(dist: nat, len: nat) returns (ok: bool)
      requires ValidOut() && 1 <= dist <= zout
      modifies this`buffer, this`zout, this`out, buffer
      ensures ValidOut() && (buffer == old(buffer) || fresh(buffer))
      ensures ok <==> old(zout) + len <= cap
      ensures ok ==> out == CopyMatch(old(out), dist, len)
    {
      ok := true;
      if len > buffer.Length - zout {
        ok := Expand(len);
        if !ok {
          return;
        }
      }
      if dist == 1 {
        CopyRun(len);
      } else {
        CopyBytes(dist, len);
      }
    }

    method CopyRun(len: nat)
      requires ValidOut() && 1 <= zout && zout + len <= buffer.Length
      modifies this`zout, this`out, buffer
      ensures ValidOut() && out == CopyMatch(old(out), 1, len)
    {
      var v := buffer[zout - 1];
      var n := len;
      while n > 0
        invariant ValidOut() && 1 <= zout && zout + n <= buffer.Length && buffer[zout - 1] == v
        invariant CopyMatch(out, 1, n) == CopyMatch(old(out), 1, len)
      {
        buffer[zout] := v;
        zout, out := zout + 1, out + [v];
        n := n - 1;
      }
    }

    method CopyBytes(dist: nat, len: nat)
      requires ValidOut() && 1 <= dist <= zout && zout + len <= buffer.Length
      modifies this`zout, this`out, buffer
      ensures ValidOut() && out == CopyMatch(old(out), dist, len)
    {
      var p := zout - dist;
      var n := len;
      while n > 0
        invariant ValidOut() && zout + n <= buffer.Length && p + dist == zout && dist <= zout
        invariant CopyMatch(out, dist, n) == CopyMatch(old(out), dist, len)
      {
        CopyByte(dist, p);
        p := p + 1;
        n := n - 1;
      }
    }

    method CopyByte(dist: nat, p: nat)
      requires ValidOut() && 1 <= dist <= zout && zout < buffer.Length && p + dist == zout
      modifies this`zout, this`out, buffer
      ensures ValidOut() && zout == old(zout) + 1 && out == old(out) + [old(out)[|old(out)| - dist]]
    {
      out := out + [out[|out| - dist]];
      buffer[zout] := buffer[p];
      zout := zout + 1;
    }

    // ---- Blocks ----------------------------------------------------------------------------------

    ghost predicate Valid()
      reads this, buffer
    {
      ValidBits() && ValidOut()
    }

    /** stbi__parse_huffman_block. */
    method ParseHuffmanBlock(ghost lit: seq<nat>, ghost dist: seq<nat>) returns (ok: bool)
      requires Valid() && zLength.Tables(lit) && zDistance.Tables(dist)
      modifies this, buffer
      ensures Valid() && (buffer == old(buffer) || fresh(buffer))
      ensures var r := InflateCodes(lit, dist, zbuffer, old(pos), old(out), cap);
              OutcomeIs(r, ok, out, pos, zbuffer)
    {
      ghost var r := InflateCodes(lit, dist, zbuffer, pos, out, cap);
      var status := More;
      while status == More
        invariant Valid() && (buffer == old(buffer) || fresh(buffer))
        invariant match status
          case More => r == InflateCodes(lit, dist, zbuffer, pos, out, cap)
          case Done => r == Some(Inflated(out, pos))
          case Failed => Rejected(r, zbuffer)
        decreases status == More, cap - |out|
      {
        status := NextSymbol(lit, dist);
      }
      ok := status == Done;
    }

    /** The loop body: one symbol. */
    method NextSymbol(ghost lit: seq<nat>, ghost dist: seq<nat>) returns (status: Status)
      requires Valid() && zLength.Tables(lit) && zDistance.Tables(dist)
      modifies this, buffer
      ensures Valid() && (buffer == old(buffer) || fresh(buffer))
      ensures var r := SymbolStep(lit, dist, zbuffer, old(pos), old(out), cap);
              StepIs(r, status, old(out), out, pos, zbuffer)
    {
      ghost var r := SymbolStep(lit, dist, zbuffer, pos, out, cap);
      var z := HuffmanDecode(zLength, lit);
      if z < 0 {
        status := Failed;
        assert StepRejected(r, zbuffer);
      } else {
        assert r == ApplyStep(dist, zbuffer, pos, z, out, cap);
        status := ApplySymbol(z, dist);
      }
    }

    /** Bits consumed from the implicit padding mean that the input ended early. */
    method EndedEarly() returns (early: bool)
      requires ValidBits()
      ensures early ==> pos > 8 * |zbuffer|
    {
      early := hitZeof && numBits < 16;
    }

    /** End of block, a literal, or a length symbol. */
    method ApplySymbol(z: nat, ghost dist: seq<nat>) returns (status: Status)
      requires Valid() && zDistance.Tables(dist)
      modifies this, buffer
      ensures Valid() && (buffer == old(buffer) || fresh(buffer))
      ensures var r := ApplyStep(dist, zbuffer, old(pos), z, old(out), cap);
              StepIs(r, status, old(out), out, pos, zbuffer)
    {
      var ok;
      if z < 256 {
        ok := Literal(z as byte);
        status := if ok then More else Failed;
      } else if z == 256 {
        var early := EndedEarly();
        status := if early then Failed else Done;
      } else if z >= 286 {
        status := Failed;
      } else {
        ok := ApplyLength(z - 257, dist);
        status := if ok then More else Failed;
      }
    }

    method ApplyLength(z: nat, ghost dist: seq<nat>) returns (ok: bool)
      requires Valid() && zDistance.Tables(dist) && z <= 28
      modifies this, buffer
      ensures Valid() && (buffer == old(buffer) || fresh(buffer))
      ensures var r := LengthStep(dist, zbuffer, old(pos), z, old(out), cap);
              StepIs(r, if ok then More else Failed, old(out), out, pos, zbuffer)
    {
      var len := FinishLength(z);
      ok := ApplyDistance(len, dist);
    }

    method FinishLength(z: nat) returns (len: nat)
      requires ValidBits() && z <= 28
      modifies this`zpos, this`numBits, this`codeBuffer, this`pos, this`fed
      ensures ValidBits() && LengthValue(zbuffer, old(pos), z) == Number(len, pos)
    {
      var base, n := LengthEntry(z);
      var extra := ReceiveExtra(n);
      len := base + extra;
    }

    method ApplyDistance(len: nat, ghost dist: seq<nat>) returns (ok: bool)
      requires Valid() && zDistance.Tables(dist)
      modifies this, buffer
      ensures Valid() && (buffer == old(buffer) || fresh(buffer))
      ensures var r := CopyStep(dist, zbuffer, old(pos), len, old(out), cap);
              StepIs(r, if ok then More else Failed, old(out), out, pos, zbuffer)
    {
      var d := DecodeDistance(dist);
      if d < 0 || zout < d {
        ok := false;
      } else {
        ok := CopyBack(d, len);
      }
    }

    method ReceiveExtra(n: nat) returns (k: nat)
      requires ValidBits() && n <= 13
      modifies this`zpos, this`numBits, this`codeBuffer, this`pos, this`fed
      ensures ValidBits() && k == Val(zbuffer, old(pos), n) && pos == old(pos) + n
    {
      k := 0;
      if n != 0 {
        k := Receive(n);
      }
    }

    method DecodeDistance(ghost dist: seq<nat>) returns (d: int)
      requires ValidBits() && zDistance.Tables(dist)
      modifies this`zpos, this`numBits, this`codeBuffer, this`pos, this`fed, this`hitZeof
      ensures ValidBits()
      ensures var r := ReadDistance(dist, zbuffer, old(pos));
              if d >= 0 then r == Some(Number(d, pos)) else r.None? || r.value.pos > 8 * |zbuffer|
    {
      var z := HuffmanDecode(zDistance, dist);
      if z < 0 || z >= 30 {
        d := -1;
      } else {
        d := FinishDistance(z);
      }
    }

    method FinishDistance(z: nat) returns (d: nat)
      requires ValidBits() && z < 30
      modifies this`zpos, this`numBits, this`codeBuffer, this`pos, this`fed
      ensures ValidBits() && DistanceValue(zbuffer, old(pos), z) == Number(d, pos)
    {
      var base, n := DistEntry(z);
      var extra := ReceiveExtra(n);
      d := base + extra;
    }

    /** stbi__parse_uncompressed_block. */
    method ParseUncompressedBlock() returns (ok: bool)
      requires Valid()
      modifies this, buffer
      ensures Valid() && (buffer == old(buffer) || fresh(buffer))
      ensures var r := Stored(zbuffer, old(pos), old(out), cap);
              OutcomeIs(r, ok, out, pos, zbuffer)
    {
      ghost var j := Align();
      ok := ParseStored(j);
    }

    method ParseStored(ghost j: nat) returns (ok: bool)
      requires Valid() && pos == 8 * j
      modifies this, buffer
      ensures Valid() && (buffer == old(buffer) || fresh(buffer))
      ensures var r := StoredAt(zbuffer, j, old(out), cap);
              OutcomeIs(r, ok, out, pos, zbuffer)
    {
      ghost var r := StoredAt(zbuffer, j, out, cap);
      var len, nlen := ReadHeader(j);
      assert r == StoredBytes(zbuffer, j + 4, len, nlen, out, cap);
      ok := StoredBody(len, nlen, j + 4);
    }

    method StoredBody(len: nat, nlen: nat, ghost j: nat) returns (ok: bool)
      requires Valid() && numBits == 0 && pos == 8 * j
      modifies this, buffer
      ensures Valid() && (buffer == old(buffer) || fresh(buffer))
      ensures var r := StoredBytes(zbuffer, j, len, nlen, old(out), cap);
              OutcomeIs(r, ok, out, pos, zbuffer)
    {
      if nlen != 0xFFFF - len { // nlen != (len ^ 0xffff)
        ok := false;
      } else if zpos + len > |zbuffer| {
        ok := false;
      } else {
        ok := CopyStored(len);
      }
    }

    /** Discards the bits up to the next byte boundary. */
    method Align() returns (ghost j: nat)
      requires ValidBits()
      modifies this`zpos, this`numBits, this`codeBuffer, this`pos, this`fed
      ensures ValidBits() && pos == 8 * j && j == (old(pos) + 7) / 8
    {
      j := (pos + 7) / 8;
      RoundUp(pos, numBits, fed);
      if numBits % 8 != 0 {
        var discarded := Receive(numBits % 8);
      }
    }

    /** LEN and NLEN: four header bytes, first those still in the bit buffer, then input bytes. */
    method ReadHeader(ghost j: nat) returns (len: nat, nlen: nat)
      requires ValidBits() && pos == 8 * j
      modifies this`zpos, this`numBits, this`codeBuffer, this`pos, this`fed
      ensures ValidBits() && numBits == 0 && pos == 8 * (j + 4)
      ensures len == Val(zbuffer, 8 * j, 16) && nlen == Val(zbuffer, 8 * j + 16, 16)
    {
      var header := new byte[4];
      var k := 0;
      while k < 4
        invariant ValidBits() && pos == 8 * (j + k) && k <= 4 && numBits <= 8 * (4 - k)
        invariant header[..k] == Bytes(zbuffer, j, k)
      {
        ghost var before := header[..k];
        var b := HeaderByte(j + k);
        header[k] := b;
        k := k + 1;
        assert header[..k] == before + [b] == Bytes(zbuffer, j, k);
      }
      assert header[..4] == header[..];
      HeaderFields(zbuffer, j, header[..]);
      len := header[1] as nat * 256 + header[0] as nat;
      nlen := header[3] as nat * 256 + header[2] as nat;
    }

    method HeaderByte(ghost j: nat) returns (b: byte)
      requires ValidBits() && pos == 8 * j
      modifies this`zpos, this`numBits, this`codeBuffer, this`pos, this`fed
      ensures ValidBits() && b == ByteAt(zbuffer, j) && pos == 8 * (j + 1)
      ensures numBits == if old(numBits) > 0 then old(numBits) - 8 else 0
    {
      if numBits > 0 {
        b := DrainByte(j);
      } else {
        b := FetchByte(j);
      }
    }

    /** A byte from the bit buffer. */
    method DrainByte(ghost j: nat) returns (b: byte)
      requires ValidBits() && numBits > 0 && pos == 8 * j
      modifies this`numBits, this`codeBuffer, this`pos
      ensures ValidBits() && b == ByteAt(zbuffer, j) && pos == 8 * (j + 1) && numBits == old(numBits) - 8
    {
      BufferedByte(zbuffer, j, pos, numBits, codeBuffer, 8);
      b := And(codeBuffer, 255) as byte;
      Drop(8);
    }

    /** A byte from the input, the bit buffer being empty. */
    method FetchByte(ghost j: nat) returns (b: byte)
      requires ValidBits() && numBits == 0 && pos == 8 * j
      modifies this`zpos, this`pos, this`fed
      ensures ValidBits() && b == ByteAt(zbuffer, j) && pos == 8 * (j + 1) && numBits == 0
    {
      b := Get8();
      fed, pos := fed + 1, pos + 8;
    }

    /** memcpy of len input bytes. */
    method CopyStored(len: nat) returns (ok: bool)
      requires Valid() && numBits == 0 && zpos + len <= |zbuffer|
      modifies this, buffer
      ensures Valid() && (buffer == old(buffer) || fresh(buffer))
      ensures ok <==> |old(out)| + len <= cap
      ensures ok ==> out == old(out) + Bytes(zbuffer, old(pos) / 8, len) && pos == old(pos) + 8 * len
    {
      ok := true;
      if zout + len > buffer.Length {
        ok := Expand(len);
      }
      if ok {
        AppendInput(len, pos / 8);
        zpos, fed, pos := zpos + len, fed + len, pos + 8 * len;
      }
    }

    method AppendInput(len: nat, ghost j: nat)
      requires ValidOut() && zout + len <= buffer.Length && zpos + len <= |zbuffer| && (len > 0 ==> zpos == j)
      modifies this`zout, this`out, buffer
      ensures ValidOut() && out == old(out) + Bytes(zbuffer, j, len)
    {
      var i := 0;
      while i < len
        invariant i <= len && zout == old(zout) + i && ValidOut()
        invariant out == old(out) + Bytes(zbuffer, j, i)
      {
        buffer[zout] := zbuffer[zpos + i];
        zout, out := zout + 1, out + [zbuffer[zpos + i]];
        i := i + 1;
      }
    }

    // ---- Dynamic codes -----------------------------------------------------------------------------

    /** stbi__compute_huffman_codes. */
    method ComputeHuffmanCodes() returns (ok: bool, ghost lit: seq<nat>, ghost dist: seq<nat>)
      requires ValidBits() && ValidTables()
      modifies this`zpos, this`numBits, this`codeBuffer, this`pos, this`fed, this`hitZeof, zLength, zDistance
      ensures ValidBits() && ValidTables()
      ensures var r := DynamicCodes(zbuffer, old(pos));
              CodesAre(r, ok, lit, dist, pos, zbuffer)
      ensures ok ==> zLength.Tables(lit) && zDistance.Tables(dist)
    {
      ghost var whole := DynamicCodes(zbuffer, pos);
      CountsFirst(zbuffer, pos);
      var counts := ReadCounts();
      ok, lit, dist := ReadDynamic(counts, whole);
    }

    method ReadCounts() returns (counts: Counts)
      requires ValidBits()
      modifies this`zpos, this`numBits, this`codeBuffer, this`pos, this`fed
      ensures ValidBits() && pos == old(pos) + 14 && counts == CountsAt(zbuffer, old(pos))
      ensures counts.hlit <= 288 && counts.hdist <= 32
    {
      var hlit := ReceiveCount(5, 257);
      var hdist := ReceiveCount(5, 1);
      var hclen := ReceiveCount(4, 4);
      counts := Counts(hlit, hdist, hclen);
    }

    method ReadDynamic(counts: Counts, ghost whole: Option<Codes>) returns (ok: bool, ghost lit: seq<nat>, ghost dist: seq<nat>)
      requires ValidBits() && ValidTables() && counts.hlit <= 288 && counts.hdist <= 32 && counts.hclen <= 19
      requires CountsLead(whole, zbuffer, pos, counts)
      modifies this`zpos, this`numBits, this`codeBuffer, this`pos, this`fed, this`hitZeof, zLength, zDistance
      ensures ValidBits() && ValidTables()
      ensures CodesAre(whole, ok, lit, dist, pos, zbuffer)
      ensures ok ==> zLength.Tables(lit) && zDistance.Tables(dist)
    {
      ghost var p := pos;
      var sizes := ReadCodeLengthSizes(counts.hclen);
      CountsThenSizes(whole, zbuffer, p, counts, sizes, pos);
      ok, lit, dist := ReadCodes(sizes, counts.hlit, counts.hdist, whole);
    }

    method ReceiveCount(n: nat, base: nat) returns (k: nat)
      requires ValidBits() && n <= 5
      modifies this`zpos, this`numBits, this`codeBuffer, this`pos, this`fed
      ensures ValidBits() && k == Val(zbuffer, old(pos), n) + base && pos == old(pos) + n
      ensures k < 32 + base && (n <= 4 ==> k < 16 + base)
    {
      ValBound(zbuffer, pos, n);
      Pow2Mono(n, if n <= 4 then 4 else 5);
      Pow2Small();
      k := Receive(n);
      k := k + base;
    }

    method ReadCodeLengthSizes(hclen: nat) returns (sizes: seq<nat>)
      requires ValidBits() && hclen <= 19
      modifies this`zpos, this`numBits, this`codeBuffer, this`pos, this`fed
      ensures ValidBits() && pos == old(pos) + 3 * hclen && sizes == CodeLengthLens(zbuffer, old(pos), hclen)
    {
      sizes := seq(19, _ => 0);
      for i := 0 to hclen
        invariant ValidBits() && pos == old(pos) + 3 * i && sizes == CodeLengthLens(zbuffer, old(pos), i)
      {
        var s := Receive(3);
        sizes := sizes[Order(i) := s];
      }
    }

    method ReadCodes(sizes: seq<nat>, hlit: nat, hdist: nat, ghost whole: Option<Codes>)
      returns (ok: bool, ghost lit: seq<nat>, ghost dist: seq<nat>)
      requires ValidBits() && ValidTables() && hlit <= 288 && hdist <= 32
      requires |sizes| == 19 && forall i | 0 <= i < 19 :: sizes[i] < 8
      requires SizesLead(whole, sizes, zbuffer, pos, hlit, hdist)
      modifies this`zpos, this`numBits, this`codeBuffer, this`pos, this`fed, this`hitZeof, zLength, zDistance
      ensures ValidBits() && ValidTables()
      ensures CodesAre(whole, ok, lit, dist, pos, zbuffer)
      ensures ok ==> zLength.Tables(lit) && zDistance.Tables(dist)
    {
      lit, dist := [], [];
      var zCodelength := new ZHuffman();
      ok := zCodelength.Build(sizes);
      if ok {
        ok, lit, dist := ReadBoth(zCodelength, sizes, hlit, hdist, whole);
      } else {
        NoCodeLengths(whole, sizes, zbuffer, pos, hlit, hdist);
      }
    }

    method ReadBoth(z: ZHuffman, ghost sizes: seq<nat>, hlit: nat, hdist: nat, ghost whole: Option<Codes>)
      returns (ok: bool, ghost lit: seq<nat>, ghost dist: seq<nat>)
      requires ValidBits() && ValidTables() && hlit <= 288 && hdist <= 32 && |sizes| == 19 && Kraft(sizes)
      requires z.Tables(sizes) && z != zLength && z != zDistance && SizesLead(whole, sizes, zbuffer, pos, hlit, hdist)
      modifies this`zpos, this`numBits, this`codeBuffer, this`pos, this`fed, this`hitZeof, zLength, zDistance
      ensures ValidBits() && ValidTables()
      ensures CodesAre(whole, ok, lit, dist, pos, zbuffer)
      ensures ok ==> zLength.Tables(lit) && zDistance.Tables(dist)
    {
      lit, dist := [], [];
      ghost var r := LengthsLead(whole, sizes, zbuffer, pos, hlit, hdist);
      var lencodes;
      ok, lencodes := ReadLencodes(z, sizes, hlit + hdist);
      if ok {
        ok := BuildBoth(lencodes, hlit);
        lit, dist := lencodes[..hlit], lencodes[hlit..];
      }
    }

    method BuildBoth(lencodes: seq<nat>, hlit: nat) returns (ok: bool)
      requires ValidTables() && hlit <= |lencodes| && hlit <= 288 && |lencodes| - hlit <= 32
      requires forall i | 0 <= i < |lencodes| :: lencodes[i] <= 15
      modifies zLength, zDistance
      ensures ValidTables()
      ensures ok <==> Kraft(lencodes[..hlit]) && Kraft(lencodes[hlit..])
      ensures ok ==> zLength.Tables(lencodes[..hlit]) && zDistance.Tables(lencodes[hlit..])
    {
      ok := zLength.Build(lencodes[..hlit]);
      if ok {
        ok := zDistance.Build(lencodes[hlit..]);
      }
    }

    /** The loop that reads code lengths; lencodes holds those read so far. */
    method ReadLencodes(z: ZHuffman, ghost cl: seq<nat>, ntot: nat) returns (ok: bool, lencodes: seq<nat>)
      requires ValidBits() && z.Tables(cl) && |cl| == 19
      modifies this`zpos, this`numBits, this`codeBuffer, this`pos, this`fed, this`hitZeof
      ensures ValidBits() && (ok ==> |lencodes| == ntot && forall i | 0 <= i < ntot :: lencodes[i] <= 15)
      ensures var r := ReadLengths(cl, zbuffer, old(pos), [], ntot);
              if ok then r == Some(Lengths(lencodes, pos)) else r.None? || r.value.pos > 8 * |zbuffer|
    {
      ok, lencodes := true, [];
      while ok && |lencodes| < ntot
        invariant ValidBits()
        invariant ok ==> |lencodes| <= ntot && forall i | 0 <= i < |lencodes| :: lencodes[i] <= 15
        invariant var r := ReadLengths(cl, zbuffer, old(pos), [], ntot);
                  if ok then r == ReadLengths(cl, zbuffer, pos, lencodes, ntot) else r.None? || r.value.pos > 8 * |zbuffer|
        decreases ok, ntot - |lencodes|
      {
        ok, lencodes := NextLencodes(z, cl, lencodes, ntot);
      }
    }

    method NextLencodes(z: ZHuffman, ghost cl: seq<nat>, acc: seq<nat>, ntot: nat) returns (ok: bool, acc': seq<nat>)
      requires ValidBits() && z.Tables(cl) && |cl| == 19 && |acc| < ntot
      requires forall i | 0 <= i < |acc| :: acc[i] <= 15
      modifies this`zpos, this`numBits, this`codeBuffer, this`pos, this`fed, this`hitZeof
      ensures ValidBits()
      ensures ok ==> |acc| < |acc'| <= ntot && forall i | 0 <= i < |acc'| :: acc'[i] <= 15
      ensures var r := NextLengths(cl, zbuffer, old(pos), acc);
              if ok then r == Some(Lengths(acc', pos)) else LengthsRejected(r, zbuffer, ntot)
    {
      acc' := acc;
      var c := HuffmanDecode(z, cl);
      if c < 0 || c >= 19 {
        ok := false;
      } else {
        ok, acc' := ApplyCodeLength(c, acc, ntot);
      }
    }

    method ApplyCodeLength(c: nat, acc: seq<nat>, ntot: nat) returns (ok: bool, acc': seq<nat>)
      requires ValidBits() && |acc| < ntot && c < 19
      requires forall i | 0 <= i < |acc| :: acc[i] <= 15
      modifies this`zpos, this`numBits, this`codeBuffer, this`pos, this`fed
      ensures ValidBits()
      ensures ok ==> |acc| < |acc'| <= ntot && forall i | 0 <= i < |acc'| :: acc'[i] <= 15
      ensures var r := ApplyLengthSymbol(zbuffer, old(pos), c, acc);
              if ok then r == Some(Lengths(acc', pos)) else LengthsRejected(r, zbuffer, ntot)
    {
      ok, acc' := true, acc;
      if c < 16 {
        acc' := acc + [c];
      } else {
        var n, fill;
        ok, n, fill := RepeatedLength(c, acc);
        if !ok || ntot - |acc| < n {
          ok := false;
        } else {
          acc' := acc + Repeat(fill, n);
        }
      }
    }

    /** How often, and what: the previous length, or zero. */
    method RepeatedLength(c: nat, acc: seq<nat>) returns (ok: bool, n: nat, fill: nat)
      requires ValidBits() && 16 <= c < 19 && forall i | 0 <= i < |acc| :: acc[i] <= 15
      modifies this`zpos, this`numBits, this`codeBuffer, this`pos, this`fed
      ensures ValidBits() && n > 0 && fill <= 15
      ensures ApplyLengthSymbol(zbuffer, old(pos), c, acc) == if ok then Some(Lengths(acc + Repeat(fill, n), pos)) else None
    {
      ghost var r := ApplyLengthSymbol(zbuffer, pos, c, acc);
      ok, fill := true, 0;
      if c == 16 {
        n := Receive(2);
        n := n + 3;
        if |acc| == 0 {
          ok := false;
        } else {
          fill := acc[|acc| - 1];
        }
      } else if c == 17 {
        n := Receive(3);
        n := n + 3;
      } else {
        n := Receive(7);
        n := n + 11;
      }
      assert r == if ok then Some(Lengths(acc + Repeat(fill, n), pos)) else None;
    }

    // ---- The stream ----------------------------------------------------------------------------------

    /** One block after its header bits. */
    method ParseBlock(kind: nat, ghost before: seq<byte>, ghost p: nat) returns (ok: bool)
      requires Valid() && ValidTables() && kind < 4 && before == out && p == pos
      modifies this, buffer, zLength, zDistance
      ensures Valid() && ValidTables() && (buffer == old(buffer) || fresh(buffer))
      ensures BlockDone(zbuffer, p, kind, before, cap, ok, out, pos)
    {
      if kind == 0 {
        ok := ParseUncompressedBlock();
      } else if kind == 3 {
        ok := false;
      } else if kind == 1 {
        ok := ParseFixedBlock();
      } else {
        ok := ParseDynamicBlock();
      }
    }

    method ParseFixedBlock() returns (ok: bool)
      requires Valid() && ValidTables()
      modifies this, buffer, zLength, zDistance
      ensures Valid() && ValidTables() && (buffer == old(buffer) || fresh(buffer))
      ensures var r := InflateCodes(FixedLit(), FixedDist(), zbuffer, old(pos), old(out), cap);
              OutcomeIs(r, ok, out, pos, zbuffer)
    {
      FixedKraft();
      ok := zLength.Build(FixedLit());
      ok := zDistance.Build(FixedDist());
      ok := ParseHuffmanBlock(FixedLit(), FixedDist());
    }

    method ParseDynamicBlock() returns (ok: bool)
      requires Valid() && ValidTables()
      modifies this, buffer, zLength, zDistance
      ensures Valid() && ValidTables() && (buffer == old(buffer) || fresh(buffer))
      ensures var r := DynamicBlock(zbuffer, old(pos), old(out), cap);
              OutcomeIs(r, ok, out, pos, zbuffer)
    {
      ghost var r := DynamicBlock(zbuffer, pos, out, cap);
      ghost var codes := DynamicCodes(zbuffer, pos);
      ghost var lit, dist;
      ok, lit, dist := ComputeHuffmanCodes();
      assert r == if codes.Some? then InflateCodes(codes.value.lit, codes.value.dist, zbuffer, codes.value.pos, out, cap) else None;
      if ok {
        ok := ParseHuffmanBlock(lit, dist);
      }
    }

    /** stbi__parse_zlib_header. */
    method ParseZlibHeader() returns (ok: bool)
      requires zpos == 0
      modifies this`zpos
      ensures zpos <= |zbuffer| && (ok ==> zpos == 2)
      ensures ok <==> |zbuffer| > 2 && zbuffer[0] as nat % 16 == 8 && zbuffer[1] as nat / 32 % 2 == 0 &&
                      (256 * zbuffer[0] as nat + zbuffer[1] as nat) % 31 == 0
    {
      var cmf := Get8();
      var flg := Get8();
      if zpos >= |zbuffer| {
        ok := false;
      } else if (cmf as nat * 256 + flg as nat) % 31 != 0 {
        ok := false;
      } else if flg as nat / 32 % 2 != 0 { // flg & 32: preset dictionary
        ok := false;
      } else {
        ok := cmf as nat % 16 == 8; // cmf & 15: DEFLATE
      }
    }

    /** stbi__parse_zlib. Whenever it succeeds, the output is the pure decode of the zero-extended
        input; when it fails, the pure decode fails too or needs bits beyond the end of the input. */
    method ParseZlib(parseHeader: bool) returns (ok: bool)
      requires zpos == 0 && ValidOut() && ValidTables()
      modifies this, buffer, zLength, zDistance
      ensures Valid() && ValidTables() && (buffer == old(buffer) || fresh(buffer))
      ensures var r := Inflate(zbuffer, parseHeader, old(out), cap);
              OutcomeIs(r, ok, out, pos, zbuffer)
    {
      ghost var r := Inflate(zbuffer, parseHeader, out, cap);
      ok := true;
      if parseHeader {
        ok := ParseZlibHeader();
      }
      ResetBits();
      if ok {
        InflateFrom(zbuffer, parseHeader, pos, out, cap);
        ok := ParseBlocks();
      } else {
        ShortInput(zbuffer, out, cap);
        assert r == None;
      }
    }

    method ResetBits()
      requires zpos <= |zbuffer|
      modifies this`numBits, this`codeBuffer, this`hitZeof, this`pos, this`fed
      ensures ValidBits() && pos == 8 * zpos
    {
      numBits, codeBuffer, hitZeof := 0, 0, false;
      pos, fed := 8 * zpos, zpos;
    }

    method ParseBlocks() returns (ok: bool)
      requires Valid() && ValidTables()
      modifies this, buffer, zLength, zDistance
      ensures Valid() && ValidTables() && (buffer == old(buffer) || fresh(buffer))
      ensures OutcomeIs(InflateBlocks(zbuffer, old(pos), old(out), cap), ok, out, pos, zbuffer)
    {
      ghost var r := InflateBlocks(zbuffer, pos, out, cap);
      BlocksBegin(zbuffer, pos, out, cap);
      var more := true;
      ok := true;
      while more
        invariant Valid() && ValidTables() && (buffer == old(buffer) || fresh(buffer))
        invariant BlocksAre(r, ok, more, out, pos, zbuffer, cap)
        decreases more, 8 * |zbuffer| - pos
      {
        ghost var mid, p := out, pos;
        var final, kind;
        ok, final, kind := NextBlock(mid, p);
        more := ok && !final;
        BlocksAdvance(r, zbuffer, cap, mid, p, ok, final, kind, more, out, pos);
      }
      BlocksEnd(r, ok, out, pos, zbuffer, cap);
    }

    method BlockHeader(ghost p: nat, ghost body: nat) returns (final: bool, kind: nat)
      requires Valid() && ValidTables() && p == pos && body == p + 3
      modifies this`zpos, this`numBits, this`codeBuffer, this`pos, this`fed
      ensures Valid() && ValidTables() && pos == body
      ensures final == (Val(zbuffer, p, 1) == 1) && kind == Val(zbuffer, p + 1, 2) < 4
    {
      Pow2Small();
      var bit := Receive(1);
      final := bit != 0;
      kind := Receive(2);
    }

    /** One block with its header bits. */
    method NextBlock(ghost before: seq<byte>, ghost p: nat) returns (ok: bool, final: bool, kind: nat)
      requires Valid() && ValidTables() && before == out && p == pos
      modifies this, buffer, zLength, zDistance
      ensures Valid() && ValidTables() && (buffer == old(buffer) || fresh(buffer))
      ensures final == (Val(zbuffer, p, 1) == 1) && kind == Val(zbuffer, p + 1, 2)
      ensures BlockDone(zbuffer, p + 3, kind, before, cap, ok, out, pos)
    {
      ghost var body := p + 3;
      final, kind := BlockHeader(p, body);
      ok := ParseBlock(kind, before, body);
    }
  }
}
