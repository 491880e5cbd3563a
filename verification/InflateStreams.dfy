/** Whole zlib streams as a compressor may send them: any number of stored blocks and blocks with fixed or dynamic
    codes; and that the program gives back what they stand for. */
module InflateStreams {
  import opened Bits
  import opened BitStrings
  import opened CanonicalCode
  import opened Folding
  import opened InflateEncode
  import opened InflateSpec
  import opened Options
  import ZlibDecoder

  /** A symbol of the code length alphabet with its extra bits (section 3.2.7 of RFC 1951): a length; the last length
      3 to 6 times more; or 3 to 10, or 11 to 138, zeros. */
  datatype Run = Length(len: nat) | Again(extra: nat) | FewZeros(extra: nat) | ManyZeros(extra: nat)

  /** What defines the codes of a block with dynamic codes: the codes; the code length code, of which n lengths are
      sent; and the runs that stand for the lengths of both codes. */
  datatype Head = Head(lit: seq<nat>, dist: seq<nat>, cl: seq<nat>, n: nat, runs: seq<Run>)

  datatype Block = StoredBlock(bytes: seq<byte>) | FixedBlock(tokens: seq<Token>) | DynamicBlock(head: Head, tokens: seq<Token>)

  // ---- Bits that stand somewhere -------------------------------------------------------------------------

  /** The bits stand at pos, folded. */
  ghost predicate There(data: seq<byte>, pos: nat, bits: BitString) {
    forall k: nat :: Guard(k) ==> Stands(data, pos, bits)
  }

  lemma ThereSplit(data: seq<byte>, pos: nat, a: BitString, b: BitString)
    requires There(data, pos, a + b)
    ensures There(data, pos, a) && There(data, pos + |a|, b)
  {
    assert Guard(0);
    StandsSplit(data, pos, a, b);
  }

  /** A number of n bits, and what stands behind it. */
  lemma FieldThere(data: seq<byte>, pos: nat, v: nat, n: nat, rest: BitString)
    requires v < Pow2(n) && There(data, pos, BitsOf(v, n) + rest)
    ensures Val(data, pos, n) == v && There(data, pos + n, rest)
  {
    ThereSplit(data, pos, BitsOf(v, n), rest);
    NumberThere(data, pos, v, n);
  }

  lemma NumberThere(data: seq<byte>, pos: nat, v: nat, n: nat)
    requires v < Pow2(n) && There(data, pos, BitsOf(v, n))
    ensures Val(data, pos, n) == v
  {
    assert Guard(0);
    BitsHold(data, pos, v, n);
  }

  lemma SymbolThere(lens: seq<nat>, data: seq<byte>, pos: nat, sym: nat)
    requires Usable(lens) && HasCode(lens, sym) && There(data, pos, SymbolBits(lens, sym))
    ensures DecodeSym(lens, data, pos) == Some(sym)
  {
    assert Guard(0);
    SymbolStands(lens, data, pos, sym);
  }

  // ---- Code lengths ------------------------------------------------------------------------------------

  function RunSymbol(r: Run): nat {
    match r
    case Length(len) => len
    case Again(_) => 16
    case FewZeros(_) => 17
    case ManyZeros(_) => 18
  }

  function RunExtra(r: Run): nat {
    match r
    case Length(_) => 0
    case Again(x) => x
    case FewZeros(x) => x
    case ManyZeros(x) => x
  }

  function RunWidth(r: Run): nat {
    match r
    case Length(_) => 0
    case Again(_) => 2
    case FewZeros(_) => 3
    case ManyZeros(_) => 7
  }

  predicate RunSendable(cl: seq<nat>, r: Run) {
    HasCode(cl, RunSymbol(r)) && RunExtra(r) < Pow2(RunWidth(r)) && (r.Length? ==> r.len < 16)
  }

  /** The lengths after one more run; there must be a last one to repeat. */
  function AddRun(acc: seq<nat>, r: Run): (lens: Option<seq<nat>>)
    ensures lens.Some? ==> |lens.value| > |acc|
  {
    match r
    case Length(len) => Some(acc + [len])
    case Again(x) => if acc == [] then None else Some(acc + Repeat(acc[|acc| - 1], 3 + x))
    case FewZeros(x) => Some(acc + Repeat(0, 3 + x))
    case ManyZeros(x) => Some(acc + Repeat(0, 11 + x))
  }

  function AddRuns(acc: seq<nat>, runs: seq<Run>): (lens: Option<seq<nat>>)
    ensures lens.Some? ==> |lens.value| >= |acc| + |runs|
    decreases |runs|
  {
    if runs == [] then Some(acc)
    else
      match AddRun(acc, runs[0])
      case None => None
      case Some(more) => AddRuns(more, runs[1..])
  }

  function RunBits(cl: seq<nat>, r: Run): BitString
    requires RunSendable(cl, r)
  {
    SymbolBits(cl, RunSymbol(r)) + BitsOf(RunExtra(r), RunWidth(r))
  }

  function RunsBits(cl: seq<nat>, runs: seq<Run>): BitString
    requires forall i | 0 <= i < |runs| :: RunSendable(cl, runs[i])
  {
    if runs == [] then [] else RunBits(cl, runs[0]) + RunsBits(cl, runs[1..])
  }

  lemma RunApplies(data: seq<byte>, pos: nat, r: Run, acc: seq<nat>, more: seq<nat>)
    requires RunExtra(r) < Pow2(RunWidth(r)) && There(data, pos, BitsOf(RunExtra(r), RunWidth(r)))
    requires AddRun(acc, r) == Some(more) && (r.Length? ==> r.len < 16)
    ensures ApplyLengthSymbol(data, pos, RunSymbol(r), acc) == Some(Lengths(more, pos + RunWidth(r)))
  {
    NumberThere(data, pos, RunExtra(r), RunWidth(r));
  }

  lemma SymbolApplies(cl: seq<nat>, data: seq<byte>, pos: nat, sym: nat, p: nat, acc: seq<nat>, l: Lengths)
    requires DecodeSym(cl, data, pos) == Some(sym) && p == pos + cl[sym] && ApplyLengthSymbol(data, p, sym, acc) == Some(l)
    ensures NextLengths(cl, data, pos, acc) == Some(l)
  {
  }

  lemma RunDecodes(cl: seq<nat>, data: seq<byte>, pos: nat, r: Run, acc: seq<nat>, more: seq<nat>, next: nat)
    requires Usable(cl) && RunSendable(cl, r) && There(data, pos, RunBits(cl, r)) && AddRun(acc, r) == Some(more)
    requires next == pos + |RunBits(cl, r)|
    ensures NextLengths(cl, data, pos, acc) == Some(Lengths(more, next))
  {
    var sym := RunSymbol(r);
    ThereSplit(data, pos, SymbolBits(cl, sym), BitsOf(RunExtra(r), RunWidth(r)));
    SymbolThere(cl, data, pos, sym);
    RunApplies(data, pos + cl[sym], r, acc, more);
    SymbolApplies(cl, data, pos, sym, pos + cl[sym], acc, Lengths(more, next));
  }

  /** The bits of runs, folded. */
  ghost predicate RunsAre(cl: seq<nat>, runs: seq<Run>, bits: BitString) {
    forall k: nat :: Guard(k) ==>
      Usable(cl) && (forall i | 0 <= i < |runs| :: RunSendable(cl, runs[i])) && bits == RunsBits(cl, runs)
  }

  lemma RunsFirst(cl: seq<nat>, runs: seq<Run>, bits: BitString) returns (first: BitString, others: BitString)
    requires runs != [] && RunsAre(cl, runs, bits)
    ensures Usable(cl) && RunSendable(cl, runs[0]) && first == RunBits(cl, runs[0])
    ensures bits == first + others && RunsAre(cl, runs[1..], others)
  {
    assert Guard(0);
    first, others := RunBits(cl, runs[0]), RunsBits(cl, runs[1..]);
  }

  lemma ReadNext(cl: seq<nat>, data: seq<byte>, pos: nat, acc: seq<nat>, total: nat, l: Lengths)
    requires |acc| < total && NextLengths(cl, data, pos, acc) == Some(l)
    ensures ReadLengths(cl, data, pos, acc, total) == ReadLengths(cl, data, l.pos, l.lens, total)
  {
  }

  lemma {:induction false} RunsDecode(cl: seq<nat>, data: seq<byte>, pos: nat, runs: seq<Run>, bits: BitString, acc: seq<nat>, lens: seq<nat>, end: nat)
    requires RunsAre(cl, runs, bits) && There(data, pos, bits) && AddRuns(acc, runs) == Some(lens) && end == pos + |bits|
    ensures ReadLengths(cl, data, pos, acc, |lens|) == Some(Lengths(lens, end))
    decreases |runs|
  {
    if runs == [] {
      assert Guard(0);
    } else {
      var first, others := RunsFirst(cl, runs, bits);
      var more, next := AddRun(acc, runs[0]).value, pos + |first|;
      ThereSplit(data, pos, first, others);
      RunDecodes(cl, data, pos, runs[0], acc, more, next);
      ReadNext(cl, data, pos, acc, |lens|, Lengths(more, next));
      RunsDecode(cl, data, next, runs[1..], others, more, lens, end);
    }
  }

  // ---- The code length code ------------------------------------------------------------------------------

  /** The place of a symbol in the order of section 3.2.7. */
  function Place(s: nat): (i: nat)
    requires s < 19
    ensures i < 19 && Order(i) == s
  {
    if s >= 16 then s - 16 else if s == 0 then 3 else if s >= 8 then 2 * s - 12 else 19 - 2 * s
  }

  lemma PlaceOfOrder(i: nat)
    requires i < 19
    ensures Place(Order(i)) == i
  {
  }

  lemma {:induction false} LensRead(data: seq<byte>, pos: nat, n: nat, s: nat)
    requires n <= 19 && s < 19
    ensures CodeLengthLens(data, pos, n)[s] == if Place(s) < n then Val(data, pos + 3 * Place(s), 3) else 0
    decreases n
  {
    if n > 0 {
      LensRead(data, pos, n - 1, s);
      PlaceOfOrder(n - 1);
    }
  }

  /** Three bits for each of the lengths from place i on. */
  function LensBits(cl: seq<nat>, i: nat, n: nat): BitString
    requires i <= n <= 19 == |cl|
    decreases n - i
  {
    if i == n then [] else BitsOf(cl[Order(i)], 3) + LensBits(cl, i + 1, n)
  }

  lemma {:induction false} LensBitsLength(cl: seq<nat>, i: nat, n: nat)
    requires i <= n <= 19 == |cl|
    ensures |LensBits(cl, i, n)| == 3 * (n - i)
    decreases n - i
  {
    if i < n {
      LensBitsLength(cl, i + 1, n);
    }
  }

  lemma ThreeBits(v: nat, n: nat)
    requires n == 3 && v < 8
    ensures v < Pow2(n)
  {
    Pow2Small();
  }

  lemma LensParts(cl: seq<nat>, i: nat, n: nat, bits: BitString, three: nat) returns (rest: BitString)
    requires i < n <= 19 == |cl| && bits == LensBits(cl, i, n) && three == 3
    ensures rest == LensBits(cl, i + 1, n) && bits == BitsOf(cl[Order(i)], three) + rest
  {
    rest := LensBits(cl, i + 1, n);
  }

  lemma {:induction false} LensStand(data: seq<byte>, pos: nat, cl: seq<nat>, i: nat, n: nat, bits: BitString, k: nat)
    requires i <= k < n <= 19 == |cl| && (forall s | 0 <= s < 19 :: cl[s] < 8) && bits == LensBits(cl, i, n) && There(data, pos, bits)
    ensures Val(data, pos + 3 * (k - i), 3) == cl[Order(k)]
    decreases n - i
  {
    var three := 3;
    ThreeBits(cl[Order(i)], three);
    var rest := LensParts(cl, i, n, bits, three);
    FieldThere(data, pos, cl[Order(i)], three, rest);
    if i < k {
      LensStand(data, pos + three, cl, i + 1, n, rest, k);
      assert pos + three + 3 * (k - (i + 1)) == pos + 3 * (k - i);
    }
  }

  /** The lengths of the code length code, of which those not sent are zero. */
  predicate LengthCode(cl: seq<nat>, n: nat) {
    |cl| == 19 && 4 <= n <= 19 && (forall s | 0 <= s < 19 :: cl[s] < 8) && forall s | 0 <= s < 19 :: Place(s) >= n ==> cl[s] == 0
  }

  lemma LensDecode(data: seq<byte>, pos: nat, cl: seq<nat>, n: nat, bits: BitString)
    requires LengthCode(cl, n) && bits == LensBits(cl, 0, n) && There(data, pos, bits)
    ensures CodeLengthLens(data, pos, n) == cl
  {
    forall s | 0 <= s < 19 ensures CodeLengthLens(data, pos, n)[s] == cl[s] {
      LensRead(data, pos, n, s);
      if Place(s) < n {
        LensStand(data, pos, cl, 0, n, bits, Place(s));
      }
    }
  }

  // ---- The head of a block with dynamic codes ------------------------------------------------------------

  ghost predicate ValidHead(h: Head) {
    257 <= |h.lit| <= 288 && 1 <= |h.dist| <= 32 && LengthCode(h.cl, h.n) && Usable(h.cl) && Usable(h.lit) && Usable(h.dist) &&
    (forall i | 0 <= i < |h.runs| :: RunSendable(h.cl, h.runs[i])) && AddRuns([], h.runs) == Some(h.lit + h.dist)
  }

  ghost function HeadBits(h: Head): BitString
    requires ValidHead(h)
  {
    CountsBits(|h.lit|, |h.dist|, h.n, LensBits(h.cl, 0, h.n) + RunsBits(h.cl, h.runs))
  }

  /** The three counts, and what follows. */
  function CountsBits(hlit: nat, hdist: nat, n: nat, rest: BitString): (b: BitString)
    requires 257 <= hlit && 1 <= hdist && 4 <= n
    ensures |b| == 14 + |rest|
  {
    BitsOf(hlit - 257, 5) + (BitsOf(hdist - 1, 5) + (BitsOf(n - 4, 4) + rest))
  }

  lemma CountsDecode(data: seq<byte>, pos: nat, hlit: nat, hdist: nat, n: nat, rest: BitString)
    requires 257 <= hlit <= 288 && 1 <= hdist <= 32 && 4 <= n <= 19
    requires There(data, pos, CountsBits(hlit, hdist, n, rest))
    ensures CountsAt(data, pos) == Counts(hlit, hdist, n) && There(data, pos + 14, rest)
  {
    CountsStand(data, pos, hlit - 257, hdist - 1, n - 4, 5, 4, rest);
  }

  lemma CountsStand(data: seq<byte>, pos: nat, a: nat, b: nat, c: nat, five: nat, four: nat, rest: BitString)
    requires a < 32 && b < 32 && c < 16 && five == 5 && four == 4
    requires There(data, pos, BitsOf(a, five) + (BitsOf(b, five) + (BitsOf(c, four) + rest)))
    ensures Val(data, pos, five) == a && Val(data, pos + five, five) == b && Val(data, pos + 10, four) == c
    ensures There(data, pos + 14, rest)
  {
    var nibble: BitString := BitsOf(c, four) + rest;
    var counts: BitString := BitsOf(b, five) + nibble;
    Pow2Small();
    FieldThere(data, pos, a, five, counts);
    FieldThere(data, pos + five, b, five, nibble);
    FieldThere(data, pos + 10, c, four, rest);
  }

  lemma HeadLens(data: seq<byte>, pos: nat, h: Head, runs: BitString)
    requires LengthCode(h.cl, h.n) && There(data, pos, LensBits(h.cl, 0, h.n) + runs)
    ensures CodeLengthLens(data, pos, h.n) == h.cl && There(data, pos + 3 * h.n, runs)
  {
    var lens := LensBits(h.cl, 0, h.n);
    LensBitsLength(h.cl, 0, h.n);
    ThereSplit(data, pos, lens, runs);
    LensDecode(data, pos, h.cl, h.n, lens);
  }

  lemma CodesDecode(cl: seq<nat>, n: nat, data: seq<byte>, pos: nat, p: nat, lit: seq<nat>, dist: seq<nat>, lens: seq<nat>, next: nat)
    requires n <= 19 && CodeLengthLens(data, pos, n) == cl && p == pos + 3 * n && Kraft(cl) && Kraft(lit) && Kraft(dist)
    requires lens == lit + dist && ReadLengths(cl, data, p, [], |lens|) == Some(Lengths(lens, next))
    ensures DynamicFrom(data, pos, Counts(|lit|, |dist|, n)) == Some(Codes(lit, dist, next))
  {
    CodesSplit(cl, data, p, lit, dist, lens, next);
    FromIs(cl, n, data, pos, p, |lit|, |dist|);
  }

  lemma FromIs(cl: seq<nat>, n: nat, data: seq<byte>, pos: nat, p: nat, hlit: nat, hdist: nat)
    requires n <= 19 && CodeLengthLens(data, pos, n) == cl && p == pos + 3 * n
    ensures DynamicFrom(data, pos, Counts(hlit, hdist, n)) == CodesFrom(cl, data, p, hlit, hdist)
  {
  }

  lemma CodesSplit(cl: seq<nat>, data: seq<byte>, pos: nat, lit: seq<nat>, dist: seq<nat>, lens: seq<nat>, next: nat)
    requires Kraft(cl) && Kraft(lit) && Kraft(dist)
    requires lens == lit + dist && ReadLengths(cl, data, pos, [], |lens|) == Some(Lengths(lens, next))
    ensures CodesFrom(cl, data, pos, |lit|, |dist|) == Some(Codes(lit, dist, next))
  {
    Both(lit, dist);
    assert |lens| == |lit| + |dist|;
  }

  /** What a valid head is, part by part. */
  lemma HeadParts(h: Head) returns (runs: BitString)
    requires ValidHead(h)
    ensures 257 <= |h.lit| <= 288 && 1 <= |h.dist| <= 32 && LengthCode(h.cl, h.n) && Kraft(h.cl) && Kraft(h.lit) && Kraft(h.dist)
    ensures RunsAre(h.cl, h.runs, runs) && AddRuns([], h.runs) == Some(h.lit + h.dist)
    ensures HeadBits(h) == CountsBits(|h.lit|, |h.dist|, h.n, LensBits(h.cl, 0, h.n) + runs)
    ensures |HeadBits(h)| == 14 + 3 * h.n + |runs|
  {
    runs := RunsBits(h.cl, h.runs);
    LensBitsLength(h.cl, 0, h.n);
  }

  lemma HeadDecodes(data: seq<byte>, pos: nat, h: Head, head: BitString, next: nat)
    requires ValidHead(h) && head == HeadBits(h) && There(data, pos, head) && next == pos + |head|
    ensures DynamicCodes(data, pos) == Some(Codes(h.lit, h.dist, next))
  {
    var runs := HeadParts(h);
    CountsDecode(data, pos, |h.lit|, |h.dist|, h.n, LensBits(h.cl, 0, h.n) + runs);
    PartsDecode(data, pos + 14, h, runs, next);
  }

  lemma PartsDecode(data: seq<byte>, pos: nat, h: Head, runs: BitString, next: nat)
    requires LengthCode(h.cl, h.n) && Kraft(h.cl) && Kraft(h.lit) && Kraft(h.dist)
    requires RunsAre(h.cl, h.runs, runs) && AddRuns([], h.runs) == Some(h.lit + h.dist)
    requires There(data, pos, LensBits(h.cl, 0, h.n) + runs) && next == pos + 3 * h.n + |runs|
    ensures DynamicFrom(data, pos, Counts(|h.lit|, |h.dist|, h.n)) == Some(Codes(h.lit, h.dist, next))
  {
    var p, lens := pos + 3 * h.n, h.lit + h.dist;
    HeadLens(data, pos, h, runs);
    RunsDecode(h.cl, data, p, h.runs, runs, [], lens, next);
    CodesDecode(h.cl, h.n, data, pos, p, h.lit, h.dist, lens, next);
  }

  lemma Both(a: seq<nat>, b: seq<nat>)
    ensures (a + b)[..|a|] == a && (a + b)[|a|..] == b
  {
  }

  // ---- Stored blocks -------------------------------------------------------------------------------------

  /** Zeros up to the next byte boundary. */
  function Padding(pos: nat): (b: BitString)
    ensures pos + |b| == 8 * ((pos + 7) / 8)
  {
    Repeat(0, 8 * ((pos + 7) / 8) - pos)
  }

  function ByteBits(bytes: seq<byte>): (b: BitString)
    ensures |b| == 8 * |bytes|
  {
    if bytes == [] then [] else BitsOf(bytes[0] as nat, 8) + ByteBits(bytes[1..])
  }

  /** The first byte's bits, and those of the others. */
  lemma ByteParts(bytes: seq<byte>, bits: BitString, n: nat) returns (rest: BitString)
    requires bytes != [] && bits == ByteBits(bytes) && n == 8
    ensures rest == ByteBits(bytes[1..]) && bits == BitsOf(bytes[0] as nat, n) + rest
  {
    rest := ByteBits(bytes[1..]);
  }

  lemma {:induction false} BytesStand(data: seq<byte>, j: nat, pos: nat, bytes: seq<byte>, bits: BitString, i: nat)
    requires pos == 8 * j && bits == ByteBits(bytes) && There(data, pos, bits) && i < |bytes|
    ensures ByteAt(data, j + i) == bytes[i]
    decreases i
  {
    var n := 8;
    Pow2Small();
    var rest := ByteParts(bytes, bits, n);
    FieldThere(data, pos, bytes[0] as nat, n, rest);
    if i == 0 {
      ValByte(data, j, pos, n);
    } else {
      BytesStand(data, j + 1, pos + n, bytes[1..], rest, i - 1);
    }
  }

  function StoredBits(bytes: seq<byte>): (b: BitString)
    requires |bytes| <= 0xFFFF
    ensures |b| == 32 + 8 * |bytes|
  {
    BitsOf(|bytes|, 16) + (BitsOf(0xFFFF - |bytes|, 16) + ByteBits(bytes))
  }

  lemma TwoFields(data: seq<byte>, pos: nat, a: nat, b: nat, n: nat, second: BitString, rest: BitString)
    requires a < Pow2(n) && b < Pow2(n) && second == BitsOf(b, n) + rest && There(data, pos, BitsOf(a, n) + second)
    ensures Val(data, pos, n) == a && Val(data, pos + n, n) == b && There(data, pos + n + n, rest)
  {
    FieldThere(data, pos, a, n, second);
    FieldThere(data, pos + n, b, n, rest);
  }

  lemma SixteenBits(v: nat, n: nat)
    requires n == 16 && v <= 0xFFFF
    ensures v < Pow2(n)
  {
    Pow2Small();
  }

  lemma BytesAt(data: seq<byte>, j: nat, n: nat)
    ensures forall i | 0 <= i < n :: Bytes(data, j, n)[i] == ByteAt(data, j + i)
  {
  }

  lemma AllBytesStand(data: seq<byte>, j: nat, pos: nat, bytes: seq<byte>, bits: BitString)
    requires pos == 8 * j && bits == ByteBits(bytes) && There(data, pos, bits)
    ensures forall i | 0 <= i < |bytes| :: ByteAt(data, j + i) == bytes[i]
  {
    forall i | 0 <= i < |bytes| ensures ByteAt(data, j + i) == bytes[i] {
      BytesStand(data, j, pos, bytes, bits, i);
    }
  }

  lemma AreBytes(data: seq<byte>, j: nat, bytes: seq<byte>)
    requires forall i | 0 <= i < |bytes| :: ByteAt(data, j + i) == bytes[i]
    ensures Bytes(data, j, |bytes|) == bytes
  {
    BytesAt(data, j, |bytes|);
  }

  lemma StoredRead(data: seq<byte>, j: nat, pos: nat, bytes: seq<byte>, bits: BitString)
    requires pos == 8 * j && bits == ByteBits(bytes) && There(data, pos, bits)
    ensures Bytes(data, j, |bytes|) == bytes
  {
    AllBytesStand(data, j, pos, bytes, bits);
    AreBytes(data, j, bytes);
  }

  lemma StoredDecodes(data: seq<byte>, j: nat, pos: nat, bytes: seq<byte>, bits: BitString, out: seq<byte>, cap: nat, r: Inflated)
    requires pos == 8 * j && |bytes| <= 0xFFFF && bits == StoredBits(bytes) && There(data, pos, bits) && |out| + |bytes| <= cap
    requires r == Inflated(out + bytes, pos + |bits|)
    ensures StoredAt(data, j, out, cap) == Some(r)
  {
    var n, rest := 16, ByteBits(bytes);
    SixteenBits(|bytes|, n);
    SixteenBits(0xFFFF - |bytes|, n);
    TwoFields(data, pos, |bytes|, 0xFFFF - |bytes|, n, BitsOf(0xFFFF - |bytes|, n) + rest, rest);
    StoredRead(data, j + 4, pos + 32, bytes, rest);
    StoredIs(data, j, |bytes|, bytes, out, cap, r);
  }

  lemma StoredIs(data: seq<byte>, j: nat, len: nat, bytes: seq<byte>, out: seq<byte>, cap: nat, r: Inflated)
    requires Val(data, 8 * j, 16) == len == |bytes| && Val(data, 8 * j + 16, 16) == 0xFFFF - len && |out| + len <= cap
    requires Bytes(data, j + 4, len) == bytes && r == Inflated(out + bytes, 8 * j + 32 + 8 * len)
    ensures StoredAt(data, j, out, cap) == Some(r)
  {
  }

  // ---- Blocks --------------------------------------------------------------------------------------------

  /** The block can be sent; kept folded. */
  ghost predicate ValidBlock(b: Block) {
    forall k: nat :: Guard(k) ==> CanSend(b)
  }

  ghost predicate CanSend(b: Block) {
    match b
    case StoredBlock(bytes) => |bytes| <= 0xFFFF
    case FixedBlock(tokens) => AllSendable(FixedLit(), FixedDist(), tokens)
    case DynamicBlock(h, tokens) => ValidHead(h) && AllSendable(h.lit, h.dist, tokens)
  }

  function Kind(b: Block): (k: nat)
    ensures k < 3
  {
    match b
    case StoredBlock(_) => 0
    case FixedBlock(_) => 1
    case DynamicBlock(_, _) => 2
  }

  /** A block behind its header bits, which end at pos. */
  ghost function BodyBits(b: Block, pos: nat): BitString
    requires ValidBlock(b)
  {
    assert Guard(0);
    match b
    case StoredBlock(bytes) => Padding(pos) + StoredBits(bytes)
    case FixedBlock(tokens) => BlockBits(FixedLit(), FixedDist(), tokens)
    case DynamicBlock(h, tokens) => HeadBits(h) + BlockBits(h.lit, h.dist, tokens)
  }

  /** What a block stands for, behind what is there. */
  function Adds(out: seq<byte>, b: Block): (r: Option<seq<byte>>)
    ensures r.Some? ==> |out| <= |r.value|
  {
    match b
    case StoredBlock(bytes) => Some(out + bytes)
    case FixedBlock(tokens) => ExpandGrows(out, tokens); Expand(out, tokens)
    case DynamicBlock(_, tokens) => ExpandGrows(out, tokens); Expand(out, tokens)
  }

  lemma TokensDecode(lit: seq<nat>, dist: seq<nat>, data: seq<byte>, pos: nat, tokens: seq<Token>, bits: BitString, out: seq<byte>, cap: nat, r: Inflated)
    requires Coded(lit, dist, tokens, bits) && There(data, pos, bits)
    requires Expand(out, tokens) == Some(r.out) && |r.out| <= cap && r.pos == pos + |bits|
    ensures InflateCodes(lit, dist, data, pos, out, cap) == Some(r)
  {
    assert There(data, pos, bits) && Guard(0);
    BlockDecodes(lit, dist, data, pos, tokens, bits, out, cap, r);
  }

  lemma FixedCoded(tokens: seq<Token>, bits: BitString)
    requires AllSendable(FixedLit(), FixedDist(), tokens) && bits == BlockBits(FixedLit(), FixedDist(), tokens)
    ensures Coded(FixedLit(), FixedDist(), tokens, bits)
  {
    ZlibDecoder.FixedKraft();
  }

  lemma HeadCoded(h: Head, tokens: seq<Token>, bits: BitString)
    requires ValidHead(h) && AllSendable(h.lit, h.dist, tokens) && bits == BlockBits(h.lit, h.dist, tokens)
    ensures Coded(h.lit, h.dist, tokens, bits)
  {
  }

  lemma FixedDecodes(data: seq<byte>, pos: nat, tokens: seq<Token>, bits: BitString, out: seq<byte>, cap: nat, r: Inflated)
    requires AllSendable(FixedLit(), FixedDist(), tokens) && bits == BlockBits(FixedLit(), FixedDist(), tokens)
    requires There(data, pos, bits) && Expand(out, tokens) == Some(r.out) && |r.out| <= cap && r.pos == pos + |bits|
    ensures InflateBlock(data, pos, 1, out, cap) == Some(r)
  {
    FixedCoded(tokens, bits);
    TokensDecode(FixedLit(), FixedDist(), data, pos, tokens, bits, out, cap, r);
  }

  lemma DynamicIs(data: seq<byte>, pos: nat, c: Codes, out: seq<byte>, cap: nat, r: Inflated)
    requires DynamicCodes(data, pos) == Some(c) && InflateCodes(c.lit, c.dist, data, c.pos, out, cap) == Some(r)
    ensures InflateBlock(data, pos, 2, out, cap) == Some(r)
  {
  }

  lemma DynamicDecodes(data: seq<byte>, pos: nat, h: Head, tokens: seq<Token>, head: BitString, bits: BitString, out: seq<byte>, cap: nat, r: Inflated)
    requires ValidHead(h) && head == HeadBits(h) && Coded(h.lit, h.dist, tokens, bits) && There(data, pos, head + bits)
    requires Expand(out, tokens) == Some(r.out) && |r.out| <= cap && r.pos == pos + |head| + |bits|
    ensures InflateBlock(data, pos, 2, out, cap) == Some(r)
  {
    var next := pos + |head|;
    ThereSplit(data, pos, head, bits);
    HeadDecodes(data, pos, h, head, next);
    TokensDecode(h.lit, h.dist, data, next, tokens, bits, out, cap, r);
    DynamicIs(data, pos, Codes(h.lit, h.dist, next), out, cap, r);
  }

  lemma BodyDecodes(data: seq<byte>, pos: nat, b: Block, body: BitString, out: seq<byte>, cap: nat, r: Inflated)
    requires ValidBlock(b) && body == BodyBits(b, pos) && There(data, pos, body) && Adds(out, b) == Some(r.out) && |r.out| <= cap
    requires r.pos == pos + |body|
    ensures InflateBlock(data, pos, Kind(b), out, cap) == Some(r)
  {
    assert Guard(0);
    match b {
      case StoredBlock(bytes) => PaddedDecodes(data, pos, bytes, out, cap, r);
      case FixedBlock(tokens) => FixedDecodes(data, pos, tokens, body, out, cap, r);
      case DynamicBlock(h, tokens) =>
        var bits := BlockBits(h.lit, h.dist, tokens);
        HeadCoded(h, tokens, bits);
        DynamicDecodes(data, pos, h, tokens, HeadBits(h), bits, out, cap, r);
    }
  }

  lemma PaddedDecodes(data: seq<byte>, pos: nat, bytes: seq<byte>, out: seq<byte>, cap: nat, r: Inflated)
    requires |bytes| <= 0xFFFF && There(data, pos, Padding(pos) + StoredBits(bytes)) && |out| + |bytes| <= cap
    requires r == Inflated(out + bytes, pos + |Padding(pos) + StoredBits(bytes)|)
    ensures InflateBlock(data, pos, 0, out, cap) == Some(r)
  {
    var j := (pos + 7) / 8;
    ThereSplit(data, pos, Padding(pos), StoredBits(bytes));
    StoredDecodes(data, j, 8 * j, bytes, StoredBits(bytes), out, cap, r);
  }

  // ---- Streams -------------------------------------------------------------------------------------------

  ghost predicate ValidBlocks(blocks: seq<Block>) {
    forall i | 0 <= i < |blocks| :: ValidBlock(blocks[i])
  }

  /** A block's header bits, its body and what follows. */
  function HeaderBits(final: nat, kind: nat, rest: BitString): (b: BitString)
    ensures |b| == 3 + |rest|
  {
    BitsOf(final, 1) + (BitsOf(kind, 2) + rest)
  }

  function FinalBit(blocks: seq<Block>): nat {
    if |blocks| == 1 then 1 else 0
  }

  lemma HeaderThere(data: seq<byte>, pos: nat, final: nat, kind: nat, rest: BitString)
    requires final < 2 && kind < 4 && There(data, pos, HeaderBits(final, kind, rest))
    ensures Val(data, pos, 1) == final && Val(data, pos + 1, 2) == kind && There(data, pos + 3, rest)
  {
    var one, two := 1, 2;
    Pow2Small();
    FieldThere(data, pos, final, one, BitsOf(kind, two) + rest);
    FieldThere(data, pos + one, kind, two, rest);
  }

  /** The bits of blocks, the last of which is the final one; they start at pos, on which the padding of stored blocks
      depends. */
  ghost function StreamBits(blocks: seq<Block>, pos: nat): BitString
    requires blocks != [] && ValidBlocks(blocks)
    decreases |blocks|, 2
  {
    BitsBehind(blocks, BodyBits(blocks[0], pos + 3), pos)
  }

  /** The bits of blocks, given the body of the first. */
  ghost function BitsBehind(blocks: seq<Block>, body: BitString, pos: nat): BitString
    requires blocks != [] && ValidBlocks(blocks)
    decreases |blocks|, 1
  {
    HeaderBits(FinalBit(blocks), Kind(blocks[0]), body + OtherBits(blocks, pos + 3 + |body|))
  }

  /** The bits of the blocks behind the first. */
  ghost function OtherBits(blocks: seq<Block>, pos: nat): BitString
    requires blocks != [] && ValidBlocks(blocks)
    decreases |blocks|, 0
  {
    if |blocks| == 1 then [] else StreamBits(blocks[1..], pos)
  }

  /** What blocks stand for, one behind the other. */
  function AddsAll(out: seq<byte>, blocks: seq<Block>): (r: Option<seq<byte>>)
    ensures r.Some? ==> |out| <= |r.value|
    decreases |blocks|
  {
    if blocks == [] then Some(out)
    else
      match Adds(out, blocks[0])
      case None => None
      case Some(more) => AddsAll(more, blocks[1..])
  }

  /** The bits of a block's body, folded. */
  ghost predicate BodyIs(b: Block, pos: nat, body: BitString) {
    forall k: nat :: Guard(k) ==> ValidBlock(b) && body == BodyBits(b, pos)
  }

  lemma BodyBack(data: seq<byte>, pos: nat, b: Block, kind: nat, body: BitString, out: seq<byte>, cap: nat, r: Inflated)
    requires BodyIs(b, pos, body) && There(data, pos, body) && Adds(out, b) == Some(r.out) && |r.out| <= cap
    requires r.pos == pos + |body| && kind == Kind(b)
    ensures InflateBlock(data, pos, kind, out, cap) == Some(r)
  {
    assert Guard(0);
    BodyDecodes(data, pos, b, body, out, cap, r);
  }

  lemma StepIs(data: seq<byte>, pos: nat, kind: nat, final: nat, out: seq<byte>, cap: nat, r: Inflated)
    requires Val(data, pos, 1) == final && Val(data, pos + 1, 2) == kind
    requires InflateBlock(data, pos + 3, kind, out, cap) == Some(r)
    ensures InflateBlocks(data, pos, out, cap) == if final == 1 then Some(r) else InflateBlocks(data, r.pos, r.out, cap)
  {
    BlocksStep(data, pos, out, cap);
  }

  /** Inflating comes to r and ends, or goes on from there; folded. */
  ghost predicate GoesOn(data: seq<byte>, pos: nat, out: seq<byte>, cap: nat, final: nat, r: Inflated) {
    forall k: nat :: Guard(k) ==>
      InflateBlocks(data, pos, out, cap) == if final == 1 then Some(r) else InflateBlocks(data, r.pos, r.out, cap)
  }

  /** Inflating comes to r; folded. */
  ghost predicate Ends(data: seq<byte>, pos: nat, out: seq<byte>, cap: nat, r: Inflated) {
    forall k: nat :: Guard(k) ==> InflateBlocks(data, pos, out, cap) == Some(r)
  }

  lemma EndsHere(data: seq<byte>, pos: nat, out: seq<byte>, cap: nat, final: nat, last: Inflated, r: Inflated)
    requires GoesOn(data, pos, out, cap, final, last) && final == 1 && last.out == r.out && last.pos == r.pos
    ensures Ends(data, pos, out, cap, r)
  {
    assert Guard(0);
  }

  lemma EndsLater(data: seq<byte>, pos: nat, out: seq<byte>, cap: nat, final: nat, first: Inflated, pos': nat, out': seq<byte>, r: Inflated)
    requires GoesOn(data, pos, out, cap, final, first) && final == 0 && first.pos == pos' && first.out == out'
    requires Ends(data, pos', out', cap, r)
    ensures Ends(data, pos, out, cap, r)
  {
    assert Guard(0);
  }

  /** The first block, and what stands behind it. */
  lemma FirstBlock(data: seq<byte>, pos: nat, b: Block, kind: nat, final: nat, body: BitString, rest: BitString, out: seq<byte>, cap: nat,
                   r: Inflated)
    requires kind == Kind(b) && final < 2 && BodyIs(b, pos + 3, body) && There(data, pos, HeaderBits(final, kind, body + rest))
    requires Adds(out, b) == Some(r.out) && |r.out| <= cap && r.pos == pos + 3 + |body|
    ensures GoesOn(data, pos, out, cap, final, r) && There(data, r.pos, rest)
  {
    HeaderThere(data, pos, final, kind, body + rest);
    ThereSplit(data, pos + 3, body, rest);
    BodyBack(data, pos + 3, b, kind, body, out, cap, r);
    StepIs(data, pos, kind, final, out, cap, r);
  }

  /** The bits of blocks, folded. */
  ghost predicate StreamIs(blocks: seq<Block>, pos: nat, bits: BitString) {
    forall k: nat :: Guard(k) ==> blocks != [] && ValidBlocks(blocks) && bits == StreamBits(blocks, pos)
  }

  lemma IsStream(blocks: seq<Block>, pos: nat, bits: BitString)
    requires blocks != [] && ValidBlocks(blocks) && bits == StreamBits(blocks, pos)
    ensures StreamIs(blocks, pos, bits)
  {
  }

  /** The first block's body. */
  lemma StreamBody(blocks: seq<Block>, pos: nat, bits: BitString) returns (body: BitString)
    requires StreamIs(blocks, pos, bits)
    ensures blocks != [] && ValidBlocks(blocks) && BodyIs(blocks[0], pos + 3, body) && bits == BitsBehind(blocks, body, pos)
  {
    assert Guard(0);
    body := BodyBits(blocks[0], pos + 3);
  }

  lemma HeadOfStream(data: seq<byte>, blocks: seq<Block>, pos: nat, bits: BitString, kind: nat, final: nat, body: BitString, rest: BitString)
    requires blocks != [] && ValidBlocks(blocks) && kind == Kind(blocks[0]) && final == FinalBit(blocks)
    requires bits == BitsBehind(blocks, body, pos) && rest == OtherBits(blocks, pos + 3 + |body|) && There(data, pos, bits)
    ensures There(data, pos, HeaderBits(final, kind, body + rest)) && |bits| == 3 + |body| + |rest|
  {
  }

  lemma RestOfStream(blocks: seq<Block>, pos: nat, rest: BitString)
    requires blocks != [] && ValidBlocks(blocks) && rest == OtherBits(blocks, pos)
    ensures if |blocks| == 1 then rest == [] else StreamIs(blocks[1..], pos, rest)
  {
  }

  /** Where the bits of blocks stand, the first block's do, and those of the others behind it. */
  lemma StreamParts(data: seq<byte>, blocks: seq<Block>, pos: nat, bits: BitString, kind: nat, final: nat)
    returns (body: BitString, rest: BitString, next: nat)
    requires blocks != [] && StreamIs(blocks, pos, bits) && There(data, pos, bits) && kind == Kind(blocks[0]) && final == FinalBit(blocks)
    ensures BodyIs(blocks[0], pos + 3, body) && There(data, pos, HeaderBits(final, kind, body + rest))
    ensures next == pos + 3 + |body| && next + |rest| == pos + |bits|
    ensures if |blocks| == 1 then rest == [] else StreamIs(blocks[1..], next, rest)
  {
    body := StreamBody(blocks, pos, bits);
    next := pos + 3 + |body|;
    rest := OtherBits(blocks, next);
    HeadOfStream(data, blocks, pos, bits, kind, final, body, rest);
    RestOfStream(blocks, next, rest);
  }

  /** What blocks stand for, folded. */
  ghost predicate Makes(out: seq<byte>, blocks: seq<Block>, all: seq<byte>) {
    forall k: nat :: Guard(k) ==> AddsAll(out, blocks) == Some(all)
  }

  lemma AddsFirst(out: seq<byte>, blocks: seq<Block>, all: seq<byte>) returns (more: seq<byte>)
    requires blocks != [] && Makes(out, blocks, all)
    ensures Adds(out, blocks[0]) == Some(more) && Makes(more, blocks[1..], all)
    ensures |more| <= |all| && (|blocks| == 1 ==> more == all)
  {
    assert Guard(0);
    more := Adds(out, blocks[0]).value;
  }

  /** Where the bits of blocks stand, inflating comes to what they stand for, and to their end. */
  lemma {:induction false} BlocksDecode(data: seq<byte>, pos: nat, blocks: seq<Block>, bits: BitString, out: seq<byte>, cap: nat, r: Inflated)
    requires blocks != [] && StreamIs(blocks, pos, bits) && There(data, pos, bits)
    requires Makes(out, blocks, r.out) && |r.out| <= cap && r.pos == pos + |bits|
    ensures Ends(data, pos, out, cap, r)
    decreases |blocks|
  {
    var more := AddsFirst(out, blocks, r.out);
    var kind, final := Kind(blocks[0]), FinalBit(blocks);
    var body, rest, next := StreamParts(data, blocks, pos, bits, kind, final);
    var first := Inflated(more, next);
    FirstBlock(data, pos, blocks[0], kind, final, body, rest, out, cap, first);
    if |blocks| == 1 {
      EndsHere(data, pos, out, cap, final, first, r);
    } else {
      BlocksDecode(data, next, blocks[1..], rest, more, cap, r);
      EndsLater(data, pos, out, cap, final, first, next, more, r);
    }
  }

  /** The two header bytes of RFC 1950: method 8 in the low bits of the first, no preset dictionary, which bit 5 of the
      second would announce, and together a multiple of 31. */
  predicate HeaderBytes(header: seq<byte>) {
    |header| == 2 && header[0] as nat % 16 == 8 && header[1] as nat / 32 % 2 == 0 &&
    (256 * header[0] as nat + header[1] as nat) % 31 == 0
  }

  /** A zlib stream: a header, and blocks. */
  ghost function Compressed(header: seq<byte>, blocks: seq<Block>): seq<byte>
    requires blocks != [] && ValidBlocks(blocks)
  {
    header + Packed(StreamBits(blocks, 16))
  }

  lemma HeaderIsZlib(header: seq<byte>, rest: seq<byte>)
    requires HeaderBytes(header)
    ensures ZlibHeader(header + rest)
  {
    var data := header + rest;
    assert ByteAt(data, 0) == header[0] && ByteAt(data, 1) == header[1];
  }

  lemma {:induction false} BitBefore(data: seq<byte>, more: seq<byte>, i: nat)
    requires i < 8 * |data|
    ensures Bit(data + more, i) == Bit(data, i)
    decreases i
  {
    if i >= 8 {
      assert (data + more)[1..] == data[1..] + more;
      BitBefore(data[1..], more, i - 8);
    }
  }

  lemma StandsBefore(data: seq<byte>, more: seq<byte>, pos: nat, b: BitString)
    requires Stands(data, pos, b)
    ensures Stands(data + more, pos, b)
  {
    forall k | 0 <= k < |b| ensures Bit(data + more, pos + k) == b[k] {
      BitBefore(data, more, pos + k);
    }
  }

  lemma PackedBetween(front: seq<byte>, bits: BitString, more: seq<byte>, pos: nat)
    requires pos == 8 * |front|
    ensures Stands(front + Packed(bits) + more, pos, bits)
  {
    PackedStands(bits);
    StandsBehind(front, Packed(bits), bits);
    StandsBefore(front + Packed(bits), more, pos, bits);
  }

  lemma StreamStands(header: seq<byte>, blocks: seq<Block>, more: seq<byte>, bits: BitString)
    requires HeaderBytes(header) && blocks != [] && ValidBlocks(blocks) && bits == StreamBits(blocks, 16)
    ensures ZlibHeader(Compressed(header, blocks) + more) && Stands(Compressed(header, blocks) + more, 16, bits)
  {
    PackedBetween(header, bits, more, 16);
    HeaderBefore(header, Packed(bits), more);
  }

  lemma HeaderBefore(header: seq<byte>, packed: seq<byte>, more: seq<byte>)
    requires HeaderBytes(header)
    ensures ZlibHeader(header + packed + more)
  {
    HeaderIsZlib(header, packed + more);
    assert header + packed + more == header + (packed + more);
  }

  /** Inflating a stream of any blocks comes to what they stand for, if there is room, and to an end within the stream,
      whatever follows it: the checksum, for one. */
  lemma RoundTrip(header: seq<byte>, blocks: seq<Block>, more: seq<byte>, cap: nat)
    requires HeaderBytes(header) && blocks != [] && ValidBlocks(blocks) && AddsAll([], blocks).Some? && |AddsAll([], blocks).value| <= cap
    ensures var r := Inflate(Compressed(header, blocks) + more, true, [], cap);
            r.Some? && r.value.out == AddsAll([], blocks).value && r.value.pos <= 8 * |Compressed(header, blocks)|
  {
    var data, bits := Compressed(header, blocks) + more, StreamBits(blocks, 16);
    StreamStands(header, blocks, more, bits);
    IsStream(blocks, 16, bits);
    var end := Inflated(AddsAll([], blocks).value, 16 + |bits|);
    BlocksDecode(data, 16, blocks, bits, [], cap, end);
    assert Guard(0);
  }

  /** Any data can be sent, and comes back. */
  lemma DataRoundTrip(header: seq<byte>, data: seq<byte>, more: seq<byte>, cap: nat)
    requires HeaderBytes(header) && |data| <= cap
    ensures var blocks := [FixedBlock(Literals(data))];
            ValidBlocks(blocks) &&
            var r := Inflate(Compressed(header, blocks) + more, true, [], cap);
            r.Some? && r.value.out == data && r.value.pos <= 8 * |Compressed(header, blocks)|
  {
    var blocks := [FixedBlock(Literals(data))];
    FixedSendable(data);
    LiteralsExpand([], data);
    assert [] + data == data;
    assert AddsAll([], blocks) == Adds([], blocks[0]);
    RoundTrip(header, blocks, more, cap);
  }

  /** So the program accepts every such stream whose data fit, and gives back what its blocks stand for. */
  method InflateStream(z: ZlibDecoder.ZBuf, ghost header: seq<byte>, ghost blocks: seq<Block>, ghost more: seq<byte>) returns (ok: bool)
    requires HeaderBytes(header) && blocks != [] && ValidBlocks(blocks) && z.zbuffer == Compressed(header, blocks) + more
    requires z.zpos == 0 && z.ValidOut() && z.ValidTables() && z.out == []
    requires AddsAll([], blocks).Some? && |AddsAll([], blocks).value| <= z.cap
    modifies z, z.buffer, z.zLength, z.zDistance
    ensures ok && z.Valid() && z.out == AddsAll([], blocks).value
  {
    RoundTrip(header, blocks, more, z.cap);
    ok := z.ParseZlib(true);
  }
}
