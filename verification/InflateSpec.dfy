/** The pure decoder: sections 3.2.3 to 3.2.7 of RFC 1951 and the header of RFC 1950, on the bit
    string of the input continued by zero bits. The output may not exceed cap bytes. */
module InflateSpec {
  import opened Bits
  import opened Options
  import opened CanonicalCode

  /** Output so far and position in the bit string. */
  datatype Inflated = Inflated(out: seq<byte>, pos: nat)

  datatype Codes = Codes(lit: seq<nat>, dist: seq<nat>, pos: nat)

  datatype Lengths = Lengths(lens: seq<nat>, pos: nat)

  // ---- Section 3.2.5: lengths and distances ---------------------------------------------------

  function LengthExtra(i: nat): nat {
    if i < 8 || i == 28 then 0 else (i - 4) / 4
  }

  /** Each length code starts where the values of the previous one end; the last one is 258. */
  function LengthBase(i: nat): nat {
    if i == 0 then 3 else if i == 28 then 258 else LengthBase(i - 1) + Pow2(LengthExtra(i - 1))
  }

  function DistExtra(i: nat): nat {
    if i < 2 then 0 else (i - 2) / 2
  }

  function DistBase(i: nat): nat {
    if i == 0 then 1 else DistBase(i - 1) + Pow2(DistExtra(i - 1))
  }

  /** Copies len bytes from dist back, one at a time: bytes just written may be copied again. */
  function CopyMatch(out: seq<byte>, dist: nat, len: nat): (r: seq<byte>)
    requires 1 <= dist <= |out|
    ensures |r| == |out| + len
    decreases len
  {
    if len == 0 then out else CopyMatch(out + [out[|out| - dist]], dist, len - 1)
  }

  /** The result extends the output, and every new byte equals the byte dist before it, be that an
      old or a new one: this is how the RFC describes strings that overlap the output. */
  lemma {:induction false} CopyMatchRepeats(out: seq<byte>, dist: nat, len: nat)
    requires 1 <= dist <= |out|
    ensures var r := CopyMatch(out, dist, len);
            out <= r && forall k | |out| <= k < |r| :: r[k] == r[k - dist]
    decreases len
  {
    if len > 0 {
      var out' := out + [out[|out| - dist]];
      CopyMatchRepeats(out', dist, len - 1);
      var r := CopyMatch(out, dist, len);
      assert r[|out|] == out'[|out|] && r[|out| - dist] == out'[|out| - dist];
    }
  }

  // ---- Section 3.2.3: the symbols of a compressed block ----------------------------------------

  /** A length or distance, and the position after it. */
  datatype Number = Number(value: nat, pos: nat)

  /** A distance symbol and its extra bits. */
  ghost function ReadDistance(dist: seq<nat>, data: seq<byte>, pos: nat): (r: Option<Number>)
    ensures r.Some? ==> r.value.pos >= pos && r.value.value >= 1
  {
    match DecodeSym(dist, data, pos)
    case None => None
    case Some(z) => if z >= 30 then None else Some(DistanceValue(data, pos + dist[z], z))
  }

  function DistanceValue(data: seq<byte>, pos: nat, z: nat): (d: Number)
    ensures d.pos >= pos && d.value >= 1
  {
    DistPositive(z);
    Number(DistBase(z) + Val(data, pos, DistExtra(z)), pos + DistExtra(z))
  }

  /** What one symbol of a compressed block does: fail, end the block, or extend the output. */
  datatype Step = Stop | EndOfBlock(pos: nat) | Next(out: seq<byte>, pos: nat)

  ghost function SymbolStep(lit: seq<nat>, dist: seq<nat>, data: seq<byte>, pos: nat, out: seq<byte>, cap: nat):
    (r: Step)
    ensures r.EndOfBlock? ==> r.pos >= pos
    ensures r.Next? ==> r.pos >= pos && |out| < |r.out| <= cap
  {
    match DecodeSym(lit, data, pos)
    case None => Stop
    case Some(sym) => ApplyStep(dist, data, pos + lit[sym], sym, out, cap)
  }

  ghost function ApplyStep(dist: seq<nat>, data: seq<byte>, pos: nat, sym: nat, out: seq<byte>, cap: nat): (r: Step)
    ensures r.EndOfBlock? ==> r.pos >= pos
    ensures r.Next? ==> r.pos >= pos && |out| < |r.out| <= cap
  {
    if sym == 256 then EndOfBlock(pos)
    else if sym < 256 then
      if |out| < cap then Next(out + [sym as byte], pos) else Stop
    else if sym >= 286 then Stop
    else LengthStep(dist, data, pos, sym - 257, out, cap)
  }

  /** A length symbol: its extra bits, a distance, and the copy. */
  ghost function LengthStep(dist: seq<nat>, data: seq<byte>, pos: nat, z: nat, out: seq<byte>, cap: nat): (r: Step)
    ensures !r.EndOfBlock?
    ensures r.Next? ==> r.pos >= pos && |out| < |r.out| <= cap
  {
    var len := LengthValue(data, pos, z);
    CopyStep(dist, data, len.pos, len.value, out, cap)
  }

  function LengthValue(data: seq<byte>, pos: nat, z: nat): (len: Number)
    ensures len.pos >= pos && len.value >= 3
  {
    LengthPositive(z);
    Number(LengthBase(z) + Val(data, pos, LengthExtra(z)), pos + LengthExtra(z))
  }

  ghost function CopyStep(dist: seq<nat>, data: seq<byte>, pos: nat, len: nat, out: seq<byte>, cap: nat): (r: Step)
    ensures !r.EndOfBlock?
    ensures r.Next? ==> r.pos >= pos && |r.out| == |out| + len <= cap
  {
    match ReadDistance(dist, data, pos)
    case None => Stop
    case Some(d) =>
      if d.value > |out| || |out| + len > cap then Stop else Next(CopyMatch(out, d.value, len), d.pos)
  }

  /** Decodes symbols up to and including end-of-block. */
  ghost function InflateCodes(lit: seq<nat>, dist: seq<nat>, data: seq<byte>, pos: nat, out: seq<byte>, cap: nat):
    (r: Option<Inflated>)
    ensures r.Some? ==> r.value.pos >= pos
    decreases cap - |out|
  {
    match SymbolStep(lit, dist, data, pos, out, cap)
    case Stop => None
    case EndOfBlock(pos') => Some(Inflated(out, pos'))
    case Next(out', pos') => InflateCodes(lit, dist, data, pos', out', cap)
  }

  lemma {:induction false} LengthPositive(z: nat)
    ensures LengthBase(z) >= 3
  {
    if z > 0 && z != 28 {
      LengthPositive(z - 1);
    }
  }

  lemma {:induction false} DistPositive(z: nat)
    ensures DistBase(z) >= 1
  {
    if z > 0 {
      DistPositive(z - 1);
    }
  }

  // ---- Sections 3.2.4, 3.2.6 and 3.2.7: the three kinds of block -------------------------------

  function ByteAt(data: seq<byte>, j: nat): byte {
    if j < |data| then data[j] else 0
  }

  function Bytes(data: seq<byte>, j: nat, n: nat): seq<byte> {
    seq(n, i requires 0 <= i => ByteAt(data, j + i))
  }

  /** A stored block starts at the next byte boundary. */
  function Stored(data: seq<byte>, pos: nat, out: seq<byte>, cap: nat): (r: Option<Inflated>)
    ensures r.Some? ==> r.value.pos >= pos
  {
    StoredAt(data, (pos + 7) / 8, out, cap)
  }

  function StoredAt(data: seq<byte>, j: nat, out: seq<byte>, cap: nat): (r: Option<Inflated>)
    ensures r.Some? ==> r.value.pos >= 8 * j
  {
    StoredBytes(data, j + 4, Val(data, 8 * j, 16), Val(data, 8 * j + 16, 16), out, cap)
  }

  function StoredBytes(data: seq<byte>, j: nat, len: nat, nlen: nat, out: seq<byte>, cap: nat): (r: Option<Inflated>)
    ensures r.Some? ==> r.value.pos >= 8 * j && len + nlen == 0xFFFF
  {
    if nlen != 0xFFFF - len || |out| + len > cap then None
    else Some(Inflated(out + Bytes(data, j, len), 8 * (j + len)))
  }

  /** Section 3.2.6: the fixed codes. */
  function FixedLit(): (r: seq<nat>)
    ensures |r| == 288
  {
    Repeat(8, 144) + Repeat(9, 112) + Repeat(7, 24) + Repeat(8, 8)
  }

  function FixedDist(): (r: seq<nat>)
    ensures |r| == 32
  {
    Repeat(5, 32)
  }

  /** The order in which the lengths of the code length code are sent. */
  function Order(i: nat): (sym: nat)
    requires i < 19
    ensures sym < 19
  {
    if i < 3 then 16 + i
    else if i == 3 then 0
    else if i % 2 == 0 then 8 + (i - 4) / 2
    else 8 - (i - 3) / 2
  }

  /** The table of section 3.2.7 of RFC 1951. */
  lemma OrderIsTheTable(i: nat)
    requires i < 19
    ensures Order(i) == [16, 17, 18, 0, 8, 7, 9, 6, 10, 5, 11, 4, 12, 3, 13, 2, 14, 1, 15][i]
  {
  }

  /** The code length code after its first n lengths have been sent, three bits each. */
  function CodeLengthLens(data: seq<byte>, pos: nat, n: nat): (r: seq<nat>)
    requires n <= 19
    ensures |r| == 19 && forall i | 0 <= i < 19 :: r[i] < 8
  {
    if n == 0 then seq(19, _ => 0)
    else
      ValBound(data, pos + 3 * (n - 1), 3);
      Pow2Small();
      CodeLengthLens(data, pos, n - 1)[Order(n - 1) := Val(data, pos + 3 * (n - 1), 3)]
  }

  function Repeat(x: nat, n: nat): (r: seq<nat>)
    ensures |r| == n && forall i | 0 <= i < n :: r[i] == x
  {
    seq(n, _ => x)
  }

  /** One symbol of the code length alphabet: a length, or a repetition. */
  ghost function NextLengths(cl: seq<nat>, data: seq<byte>, pos: nat, acc: seq<nat>): (r: Option<Lengths>)
    ensures r.Some? ==> r.value.pos >= pos && |r.value.lens| > |acc|
  {
    match DecodeSym(cl, data, pos)
    case None => None
    case Some(sym) => ApplyLengthSymbol(data, pos + cl[sym], sym, acc)
  }

  function ApplyLengthSymbol(data: seq<byte>, pos: nat, sym: nat, acc: seq<nat>): (r: Option<Lengths>)
    ensures r.Some? ==> r.value.pos >= pos && |r.value.lens| > |acc|
  {
    if sym < 16 then Some(Lengths(acc + [sym], pos))
    else if sym == 16 then
      if acc == [] then None else Some(Lengths(acc + Repeat(acc[|acc| - 1], 3 + Val(data, pos, 2)), pos + 2))
    else if sym == 17 then Some(Lengths(acc + Repeat(0, 3 + Val(data, pos, 3)), pos + 3))
    else if sym == 18 then Some(Lengths(acc + Repeat(0, 11 + Val(data, pos, 7)), pos + 7))
    else None
  }

  /** Section 3.2.7: symbol 16 repeats the last length, which there must be, 3 to 6 times, 17 a zero 3 to 10 times, and
      18 a zero 11 to 138 times. */
  lemma RunLengths(data: seq<byte>, pos: nat, sym: nat, acc: seq<nat>)
    requires 16 <= sym <= 18
    ensures var r := ApplyLengthSymbol(data, pos, sym, acc);
            (r.None? <==> sym == 16 && acc == []) &&
            (r.Some? ==>
               acc <= r.value.lens &&
               (forall k | |acc| <= k < |r.value.lens| :: r.value.lens[k] == if sym == 16 then acc[|acc| - 1] else 0) &&
               var n := |r.value.lens| - |acc|;
               if sym == 16 then 3 <= n <= 6 && n - 3 == Val(data, pos, 2) && r.value.pos == pos + 2
               else if sym == 17 then 3 <= n <= 10 && n - 3 == Val(data, pos, 3) && r.value.pos == pos + 3
               else 11 <= n <= 138 && n - 11 == Val(data, pos, 7) && r.value.pos == pos + 7)
  {
    ValBound(data, pos, 2);
    ValBound(data, pos, 3);
    ValBound(data, pos, 7);
    Pow2Small();
  }

  /** Reads code lengths until total of them are known. */
  ghost function ReadLengths(cl: seq<nat>, data: seq<byte>, pos: nat, acc: seq<nat>, total: nat): (r: Option<Lengths>)
    ensures r.Some? ==> r.value.pos >= pos && |r.value.lens| == total
    decreases total - |acc|
  {
    if |acc| == total then Some(Lengths(acc, pos))
    else if |acc| > total then None
    else
      match NextLengths(cl, data, pos, acc)
      case None => None
      case Some(l) => ReadLengths(cl, data, l.pos, l.lens, total)
  }

  datatype Counts = Counts(hlit: nat, hdist: nat, hclen: nat)

  function CountsAt(data: seq<byte>, pos: nat): (c: Counts)
    ensures c.hclen <= 19
  {
    NibbleBound(data, pos + 10, 4);
    Counts(Val(data, pos, 5) + 257, Val(data, pos + 5, 5) + 1, Val(data, pos + 10, 4) + 4)
  }

  /** The code definitions at the head of a block with dynamic Huffman codes. */
  ghost function DynamicCodes(data: seq<byte>, pos: nat): (r: Option<Codes>)
    ensures r.Some? ==> r.value.pos >= pos
  {
    DynamicFrom(data, pos + 14, CountsAt(data, pos))
  }

  ghost function DynamicFrom(data: seq<byte>, pos: nat, c: Counts): (r: Option<Codes>)
    requires c.hclen <= 19
    ensures r.Some? ==> r.value.pos >= pos
  {
    CodesFrom(CodeLengthLens(data, pos, c.hclen), data, pos + 3 * c.hclen, c.hlit, c.hdist)
  }

  ghost function CodesFrom(cl: seq<nat>, data: seq<byte>, pos: nat, hlit: nat, hdist: nat): (r: Option<Codes>)
    ensures r.Some? ==> r.value.pos >= pos
  {
    if !Kraft(cl) then None
    else
      match ReadLengths(cl, data, pos, [], hlit + hdist)
      case None => None
      case Some(r) => SplitCodes(r.lens, hlit, r.pos)
  }

  ghost function SplitCodes(lens: seq<nat>, hlit: nat, pos: nat): Option<Codes>
    requires hlit <= |lens|
  {
    if Kraft(lens[..hlit]) && Kraft(lens[hlit..]) then Some(Codes(lens[..hlit], lens[hlit..], pos)) else None
  }

  lemma NibbleBound(data: seq<byte>, pos: nat, n: nat)
    requires n == 4
    ensures Val(data, pos, n) < 16
  {
    ValBound(data, pos, n);
    Pow2Small();
  }

  /** One step of InflateBlocks. */
  lemma BlocksStep(data: seq<byte>, pos: nat, out: seq<byte>, cap: nat)
    ensures var r := InflateBlock(data, pos + 3, Val(data, pos + 1, 2), out, cap);
            InflateBlocks(data, pos, out, cap)
            == if r.None? || Val(data, pos, 1) == 1 then r else InflateBlocks(data, r.value.pos, r.value.out, cap)
  {
    if pos >= 8 * |data| {
      ZerosFormNoBlock(data, pos, out, cap);
    }
  }

  /** One block, after its three header bits. */
  ghost function InflateBlock(data: seq<byte>, pos: nat, kind: nat, out: seq<byte>, cap: nat): (r: Option<Inflated>)
    ensures r.Some? ==> r.value.pos >= pos
  {
    if kind == 0 then Stored(data, pos, out, cap)
    else if kind == 1 then InflateCodes(FixedLit(), FixedDist(), data, pos, out, cap)
    else if kind == 2 then DynamicBlock(data, pos, out, cap)
    else None
  }

  ghost function DynamicBlock(data: seq<byte>, pos: nat, out: seq<byte>, cap: nat): (r: Option<Inflated>)
    ensures r.Some? ==> r.value.pos >= pos
  {
    match DynamicCodes(data, pos)
    case None => None
    case Some(c) => InflateCodes(c.lit, c.dist, data, c.pos, out, cap)
  }

  /** Zero bits form no block, so a block that decodes has some of its header inside the input. */
  lemma ZerosFormNoBlock(data: seq<byte>, pos: nat, out: seq<byte>, cap: nat)
    requires pos >= 8 * |data|
    ensures InflateBlock(data, pos + 3, Val(data, pos + 1, 2), out, cap).None?
  {
    ValPastEnd(data, pos + 1, 2);
    var j := (pos + 3 + 7) / 8;
    ValPastEnd(data, 8 * j, 16);
    ValPastEnd(data, 8 * j + 16, 16);
  }

  /** Blocks up to and including the final one. */
  ghost function InflateBlocks(data: seq<byte>, pos: nat, out: seq<byte>, cap: nat): (r: Option<Inflated>)
    ensures r.Some? ==> r.value.pos >= pos
    decreases 8 * |data| - pos
  {
    match InflateBlock(data, pos + 3, Val(data, pos + 1, 2), out, cap)
    case None => None
    case Some(r) =>
      if Val(data, pos, 1) == 1 then Some(r)
      else
        if pos < 8 * |data| then InflateBlocks(data, r.pos, r.out, cap)
        else
          ZerosFormNoBlock(data, pos, out, cap);
          assert false; None
  }

  /** Section 2.2 of RFC 1950: method 8, check bits, and no preset dictionary. */
  predicate ZlibHeader(data: seq<byte>) {
    var cmf, flg := ByteAt(data, 0) as nat, ByteAt(data, 1) as nat;
    cmf % 16 == 8 && (cmf * 256 + flg) % 31 == 0 && flg / 32 % 2 == 0
  }

  ghost function Inflate(data: seq<byte>, header: bool, out: seq<byte>, cap: nat): Option<Inflated> {
    if !header then InflateBlocks(data, 0, out, cap)
    else if ZlibHeader(data) then InflateBlocks(data, 16, out, cap)
    else None
  }
}
