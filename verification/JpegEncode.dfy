/** AC coefficients as an encoder sends them (section F.1.2.2 of ITU-T T.81), with byte stuffing; and that the program
    gives them back, each at its place. */
module JpegEncode {
  import opened Bits
  import opened BitStrings
  import opened Context
  import opened Folding
  import opened JpegDecoder
  import opened JpegHuffmanTables
  import opened JpegOrder
  import opened JpegSpec
  import opened Options

  // ---- Symbols --------------------------------------------------------------------------------------------

  /** The number of bits of m. */
  function Size(m: nat): nat {
    if m == 0 then 0 else 1 + Size(m / 2)
  }

  /** A run/size symbol, and the coefficient whose bits follow it, or zero. */
  datatype Symbol = Symbol(rs: nat, v: int)

  function Magnitude(v: int): nat {
    if v < 0 then -v else v
  }

  function Coded(run: nat, v: int): Symbol {
    Symbol(16 * run + Size(Magnitude(v)), v)
  }

  /** So many times sixteen zeros. */
  function ZeroRuns(n: nat): seq<Symbol> {
    if n == 0 then [] else [Symbol(0xF0, 0)] + ZeroRuns(n - 1)
  }

  /** The symbols for the coefficients from k on, behind r zeros; 0 stands for the end of the block. */
  function Symbols(c: seq<int>, k: nat, r: nat): seq<Symbol>
    requires k <= |c| == 64
    decreases 64 - k
  {
    if k == 64 then
      if r == 0 then [] else [Symbol(0, 0)]
    else if c[k] == 0 then Symbols(c, k + 1, r + 1)
    else ZeroRuns(r / 16) + ([Coded(r % 16, c[k])] + Symbols(c, k + 1, 0))
  }

  // ---- Bits -------------------------------------------------------------------------------------------------

  /** The index of a value among the first n. */
  function IndexOf(values: seq<byte>, n: nat, rs: nat): (i: Option<nat>)
    requires n <= |values|
    ensures i.Some? ==> i.value < n && values[i.value] as nat == rs
  {
    if n == 0 then None else if values[n - 1] as nat == rs then Some(n - 1) else IndexOf(values, n - 1, rs)
  }

  ghost predicate HasCode(sizes: seq<nat>, values: seq<byte>, s: Symbol) {
    ValidSizes(sizes) && CodesFit(sizes) && |values| == 256 && IndexOf(values, |sizes|, s.rs).Some?
  }

  /** A negative value is sent as one less, in as many bits as its magnitude has. */
  function ValueBits(v: int): (b: BitString)
    ensures |b| == Size(Magnitude(v))
  {
    var t := Size(Magnitude(v));
    SizeBounds(Magnitude(v));
    MsbBits(if v < 0 then v + Pow2(t) - 1 else v, t)
  }

  lemma {:induction false} SizeBounds(m: nat)
    ensures m < Pow2(Size(m)) && (m > 0 ==> Size(m) > 0 && Pow2(Size(m) - 1) <= m)
  {
    if m > 0 {
      SizeBounds(m / 2);
    }
  }

  ghost function CodeBits(sizes: seq<nat>, values: seq<byte>, s: Symbol): BitString
    requires HasCode(sizes, values, s)
  {
    var i := IndexOf(values, |sizes|, s.rs).value;
    MsbBits(Code(sizes, i), sizes[i])
  }

  ghost function SymbolBits(sizes: seq<nat>, values: seq<byte>, s: Symbol): BitString
    requires HasCode(sizes, values, s)
  {
    CodeBits(sizes, values, s) + ValueBits(s.v)
  }

  ghost predicate AllHaveCodes(sizes: seq<nat>, values: seq<byte>, symbols: seq<Symbol>) {
    forall i | 0 <= i < |symbols| :: HasCode(sizes, values, symbols[i])
  }

  ghost function AllBits(sizes: seq<nat>, values: seq<byte>, symbols: seq<Symbol>): BitString
    requires AllHaveCodes(sizes, values, symbols)
  {
    if symbols == [] then [] else SymbolBits(sizes, values, symbols[0]) + AllBits(sizes, values, symbols[1..])
  }

  /** The bits stand in the data at pos. */
  ghost predicate Stand(data: seq<byte>, pos: nat, b: BitString) {
    pos + |b| <= 8 * |data| && forall i | 0 <= i < |b| :: StreamBit(data, pos + i) == b[i]
  }

  lemma StandSplit(data: seq<byte>, pos: nat, a: BitString, b: BitString)
    requires Stand(data, pos, a + b)
    ensures Stand(data, pos, a) && Stand(data, pos + |a|, b)
  {
    assert forall i | 0 <= i < |a| :: (a + b)[i] == a[i];
    forall i | 0 <= i < |b| ensures StreamBit(data, pos + |a| + i) == b[i] {
      assert (a + b)[|a| + i] == b[i];
      assert StreamBit(data, pos + (|a| + i)) == (a + b)[|a| + i];
    }
  }

  lemma {:induction false} NumberStands(data: seq<byte>, pos: nat, v: nat, n: nat, b: BitString)
    requires v < Pow2(n) && b == MsbBits(v, n) && Stand(data, pos, b)
    ensures Stream(data, pos, n) == v
    decreases n
  {
    if n > 0 {
      var front := MsbBits(v / 2, n - 1);
      StandSplit(data, pos, front, [v % 2]);
      NumberStands(data, pos, v / 2, n - 1, front);
      assert StreamBit(data, pos + (n - 1)) == b[n - 1];
    }
  }

  // ---- Symbols come back ----------------------------------------------------------------------------------

  lemma CodeStands(sizes: seq<nat>, values: seq<byte>, data: seq<byte>, pos: nat, s: Symbol, i: nat, word: nat)
    requires HasCode(sizes, values, s) && IndexOf(values, |sizes|, s.rs) == Some(i) && Stand(data, pos, CodeBits(sizes, values, s)) && word == 16
    ensures Read(sizes, Stream(data, pos, word), false) == Some(Reading(i, sizes[i]))
  {
    FitAt(sizes, i);
    NumberStands(data, pos, Code(sizes, i), sizes[i], CodeBits(sizes, values, s));
    StreamTop(data, pos, sizes[i], word);
    DecodeFinds(sizes, Stream(data, pos, word), i);
  }

  lemma FitAt(sizes: seq<nat>, i: nat)
    requires ValidSizes(sizes) && CodesFit(sizes) && i < |sizes|
    ensures Code(sizes, i) < Pow2(sizes[i])
  {
    assert Guard(0);
  }

  lemma ValueStands(data: seq<byte>, pos: nat, v: int, t: nat)
    requires v != 0 && t == Size(Magnitude(v)) && Stand(data, pos, ValueBits(v))
    ensures t > 0 && Extend(Stream(data, pos, t), t) == v
  {
    SizeBounds(Magnitude(v));
    NumberStands(data, pos, if v < 0 then v + Pow2(t) - 1 else v, t, ValueBits(v));
  }

  lemma NibblesOf(run: nat, t: nat)
    requires run < 16 && t < 16
    ensures (16 * run + t) / 16 == run && (16 * run + t) % 16 == t
  {
  }

  /** What a symbol stands for. */
  function Meaning(run: nat, t: nat, v: int, next: nat): Ac {
    if t > 0 then Coefficient(run, v, next) else if run == 15 then SixteenZeros(next) else EndOfBlock(next)
  }

  /** The parts of a symbol: its code, and the bits behind it. */
  lemma PartsStand(sizes: seq<nat>, values: seq<byte>, data: seq<byte>, pos: nat, s: Symbol, i: nat, t: nat, len: nat, next: nat)
    requires HasCode(sizes, values, s) && Stand(data, pos, SymbolBits(sizes, values, s)) && next == pos + |SymbolBits(sizes, values, s)|
    requires IndexOf(values, |sizes|, s.rs) == Some(i) && t == Size(Magnitude(s.v)) && len == sizes[i]
    ensures Read(sizes, Stream(data, pos, 16), false) == Some(Reading(i, len))
    ensures next == pos + len + t <= 8 * |data| && (t > 0 ==> Extend(Stream(data, pos + len, t), t) == s.v)
  {
    var code, word := CodeBits(sizes, values, s), 16;
    StandSplit(data, pos, code, ValueBits(s.v));
    CodeStands(sizes, values, data, pos, s, i, word);
    if t > 0 {
      ValueStands(data, pos + len, s.v, t);
    }
  }

  lemma SymbolStands(sizes: seq<nat>, values: seq<byte>, data: seq<byte>, limit: Option<nat>, pos: nat, s: Symbol, run: nat, t: nat, next: nat)
    requires HasCode(sizes, values, s) && Stand(data, pos, SymbolBits(sizes, values, s)) && !Beyond(limit, 8 * |data|)
    requires run < 16 && t < 16 && s.rs == 16 * run + t && t == Size(Magnitude(s.v)) && next == pos + |SymbolBits(sizes, values, s)|
    ensures NextAc(sizes, values, data, limit, pos, false) == Meaning(run, t, s.v, next)
  {
    var i := IndexOf(values, |sizes|, s.rs).value;
    PartsStand(sizes, values, data, pos, s, i, t, sizes[i], next);
    NibblesOf(run, t);
    AcIs(values, data, limit, pos, i, sizes[i], run, t, s.v, next);
    ReadsAc(sizes, values, data, limit, pos, i, sizes[i]);
  }

  lemma ReadsAc(sizes: seq<nat>, values: seq<byte>, data: seq<byte>, limit: Option<nat>, pos: nat, i: nat, len: nat)
    requires ValidSizes(sizes) && |values| == 256 && i < 256 && Read(sizes, Stream(data, pos, 16), false) == Some(Reading(i, len))
    ensures NextAc(sizes, values, data, limit, pos, false) == AcOf(Some(Reading(i, len)), values, data, limit, pos)
  {
  }

  /** A symbol whose code stands there but whose value ends behind the data is refused. */
  lemma SymbolCut(sizes: seq<nat>, values: seq<byte>, data: seq<byte>, limit: Option<nat>, pos: nat, s: Symbol, run: nat, t: nat)
    requires HasCode(sizes, values, s) && Stand(data, pos, CodeBits(sizes, values, s))
    requires run < 16 && t < 16 && s.rs == 16 * run + t && Beyond(limit, pos + |CodeBits(sizes, values, s)| + t)
    ensures NextAc(sizes, values, data, limit, pos, false) == Overrun
  {
    var i, word := IndexOf(values, |sizes|, s.rs).value, 16;
    CodeStands(sizes, values, data, pos, s, i, word);
    NibblesOf(run, t);
  }

  lemma AcIs(values: seq<byte>, data: seq<byte>, limit: Option<nat>, pos: nat, i: nat, len: nat, run: nat, t: nat, v: int, next: nat)
    requires |values| == 256 && i < 256 && values[i] as nat / 16 == run && values[i] as nat % 16 == t && next == pos + len + t
    requires !Beyond(limit, next) && (t > 0 ==> Extend(Stream(data, pos + len, t), t) == v)
    ensures AcOf(Some(Reading(i, len)), values, data, limit, pos) == Meaning(run, t, v, next)
  {
  }

  // ---- Blocks come back -----------------------------------------------------------------------------------

  /** The coefficients below k. */
  function Upto(c: seq<int>, k: nat): (r: seq<int>)
    requires |c| == 64
    ensures |r| == 64
  {
    seq(64, i requires 0 <= i < 64 => if i < k then c[i] else 0)
  }

  /** The bits of symbols stand from pos to end; folded. */
  ghost predicate Sent(sizes: seq<nat>, values: seq<byte>, data: seq<byte>, pos: nat, symbols: seq<Symbol>, end: nat) {
    forall g: nat :: Guard(g) ==>
      AllHaveCodes(sizes, values, symbols) && Stand(data, pos, AllBits(sizes, values, symbols)) &&
      end == pos + |AllBits(sizes, values, symbols)|
  }

  /** The first symbol's, and those of the others. */
  lemma SentFirst(sizes: seq<nat>, values: seq<byte>, data: seq<byte>, pos: nat, symbols: seq<Symbol>, s: Symbol, others: seq<Symbol>, end: nat)
    returns (next: nat)
    requires symbols == [s] + others && Sent(sizes, values, data, pos, symbols, end)
    ensures HasCode(sizes, values, s) && Stand(data, pos, SymbolBits(sizes, values, s)) && next == pos + |SymbolBits(sizes, values, s)|
    ensures Sent(sizes, values, data, next, others, end)
  {
    assert Guard(0);
    assert symbols[0] == s && symbols[1..] == others;
    var first, rest := SymbolBits(sizes, values, s), AllBits(sizes, values, others);
    StandSplit(data, pos, first, rest);
    next := pos + |first|;
  }

  lemma SentNone(sizes: seq<nat>, values: seq<byte>, data: seq<byte>, pos: nat, end: nat)
    requires Sent(sizes, values, data, pos, [], end)
    ensures end == pos <= 8 * |data|
  {
    assert Guard(0);
  }

  /** Decoding from coefficient k on comes to r; folded. */
  ghost predicate Comes(sizes: seq<nat>, values: seq<byte>, data: seq<byte>, limit: Option<nat>, pos: nat, k: nat, c: seq<int>, r: Values)
    requires ValidSizes(sizes) && |values| == 256 && |c| == 64
  {
    forall g: nat :: Guard(g) ==> AcValues(sizes, values, data, limit, pos, k, c, false) == r
  }

  lemma AfterZeros(sizes: seq<nat>, values: seq<byte>, data: seq<byte>, limit: Option<nat>, pos: nat, k: nat, c: seq<int>, next: nat,
                   k': nat, r: Values)
    requires ValidSizes(sizes) && |values| == 256 && |c| == 64 && k < 64 && k' == k + 16
    requires NextAc(sizes, values, data, limit, pos, false) == SixteenZeros(next) && Comes(sizes, values, data, limit, next, k', c, r)
    ensures Comes(sizes, values, data, limit, pos, k, c, r)
  {
    assert Guard(0);
  }

  lemma AfterValue(sizes: seq<nat>, values: seq<byte>, data: seq<byte>, limit: Option<nat>, pos: nat, k: nat, c: seq<int>, run: nat, v: int, next: nat,
                   k': nat, c': seq<int>, r: Values)
    requires ValidSizes(sizes) && |values| == 256 && |c| == 64 && k + run < 64
    requires NextAc(sizes, values, data, limit, pos, false) == Coefficient(run, v, next)
    requires k' == k + run + 1 && c' == c[k + run := v] && Comes(sizes, values, data, limit, next, k', c', r)
    ensures Comes(sizes, values, data, limit, pos, k, c, r)
  {
    assert Guard(0);
  }

  /** What is sent behind the zeros. */
  lemma {:induction false} BehindZeros(sizes: seq<nat>, values: seq<byte>, data: seq<byte>, pos: nat, n: nat, rest: seq<Symbol>,
                                       symbols: seq<Symbol>, end: nat)
    returns (next: nat)
    requires symbols == ZeroRuns(n) + rest && Sent(sizes, values, data, pos, symbols, end)
    ensures Sent(sizes, values, data, next, rest, end)
    decreases n
  {
    if n == 0 {
      assert symbols == rest;
      next := pos;
    } else {
      var s, others := Symbol(0xF0, 0), ZeroRuns(n - 1) + rest;
      assert symbols == [s] + others;
      var second := SentFirst(sizes, values, data, pos, symbols, s, others, end);
      next := BehindZeros(sizes, values, data, second, n - 1, rest, others, end);
    }
  }

  /** The same symbols up to the same end start at the same place. */
  lemma NoZeros(sizes: seq<nat>, values: seq<byte>, data: seq<byte>, limit: Option<nat>, pos: nat, k: nat, c: seq<int>, symbols: seq<Symbol>,
                rest: seq<Symbol>, next: nat, j: nat, end: nat, r: Values)
    requires |c| == 64 && ValidSizes(sizes) && |values| == 256 && symbols == rest && k == j
    requires Sent(sizes, values, data, pos, symbols, end) && Sent(sizes, values, data, next, rest, end)
    requires Comes(sizes, values, data, limit, next, j, c, r)
    ensures Comes(sizes, values, data, limit, pos, k, c, r)
  {
    assert Guard(0);
    assert pos == next;
  }

  lemma ZeroStands(sizes: seq<nat>, values: seq<byte>, data: seq<byte>, limit: Option<nat>, pos: nat, s: Symbol, next: nat)
    requires s == Symbol(0xF0, 0) && HasCode(sizes, values, s) && Stand(data, pos, SymbolBits(sizes, values, s))
    requires next == pos + |SymbolBits(sizes, values, s)| && !Beyond(limit, 8 * |data|)
    ensures NextAc(sizes, values, data, limit, pos, false) == SixteenZeros(next)
  {
    SymbolStands(sizes, values, data, limit, pos, s, 15, 0, next);
  }

  lemma ZerosSent(sizes: seq<nat>, values: seq<byte>, data: seq<byte>, limit: Option<nat>, pos: nat, s: Symbol, others: seq<Symbol>,
                  symbols: seq<Symbol>, end: nat)
    returns (second: nat)
    requires s == Symbol(0xF0, 0) && symbols == [s] + others && Sent(sizes, values, data, pos, symbols, end) && !Beyond(limit, 8 * |data|)
    ensures ValidSizes(sizes) && |values| == 256 && NextAc(sizes, values, data, limit, pos, false) == SixteenZeros(second)
    ensures Sent(sizes, values, data, second, others, end)
  {
    second := SentFirst(sizes, values, data, pos, symbols, s, others, end);
    ZeroStands(sizes, values, data, limit, pos, s, second);
  }

  lemma ZerosFirst(n: nat, rest: seq<Symbol>, symbols: seq<Symbol>, s: Symbol) returns (others: seq<Symbol>)
    requires n > 0 && symbols == ZeroRuns(n) + rest && s == Symbol(0xF0, 0)
    ensures others == ZeroRuns(n - 1) + rest && symbols == [s] + others
  {
    others := ZeroRuns(n - 1) + rest;
  }

  /** Sixteen zeros at a time, n times. */
  lemma {:induction false} ZeroRunsStand(sizes: seq<nat>, values: seq<byte>, data: seq<byte>, limit: Option<nat>, pos: nat, k: nat, c: seq<int>,
                                         n: nat, rest: seq<Symbol>, symbols: seq<Symbol>, next: nat, j: nat, end: nat, r: Values)
    requires |c| == 64 && !Beyond(limit, 8 * |data|) && ValidSizes(sizes) && |values| == 256 && j == k + 16 * n < 64
    requires symbols == ZeroRuns(n) + rest && Sent(sizes, values, data, pos, symbols, end)
    requires Sent(sizes, values, data, next, rest, end) && Comes(sizes, values, data, limit, next, j, c, r)
    ensures Comes(sizes, values, data, limit, pos, k, c, r)
    decreases n
  {
    if n == 0 {
      assert symbols == rest;
      NoZeros(sizes, values, data, limit, pos, k, c, symbols, rest, next, j, end, r);
    } else {
      var s, k' := Symbol(0xF0, 0), k + 16;
      var others := ZerosFirst(n, rest, symbols, s);
      var second := ZerosSent(sizes, values, data, limit, pos, s, others, symbols, end);
      ZeroRunsStand(sizes, values, data, limit, second, k', c, n - 1, rest, others, next, j, end, r);
      AfterZeros(sizes, values, data, limit, pos, k, c, second, k', r);
    }
  }

  /** Coefficients that the program's sizes of at most 15 bits can hold; the first belongs to the DC part. */
  predicate Sendable(c: seq<int>) {
    |c| == 64 && c[0] == 0 && forall i | 0 <= i < 64 :: -0x8000 < c[i] < 0x8000
  }

  lemma SizeFits(m: nat)
    requires m < 0x8000
    ensures Size(m) < 16
  {
    SizeBounds(m);
    Pow2Small();
    PowBelow(Size(m), m);
  }

  lemma PowBelow(t: nat, m: nat)
    requires t > 0 ==> Pow2(t - 1) <= m
    ensures m < Pow2(15) ==> t < 16
  {
    if t >= 16 {
      Pow2Mono(15, t - 1);
    }
  }

  /** What the symbol of a coefficient is read as. */
  lemma CodedStands(sizes: seq<nat>, values: seq<byte>, data: seq<byte>, limit: Option<nat>, pos: nat, run: nat, v: int, next: nat)
    requires v != 0 && -0x8000 < v < 0x8000 && run < 16 && !Beyond(limit, 8 * |data|) && HasCode(sizes, values, Coded(run, v))
    requires Stand(data, pos, SymbolBits(sizes, values, Coded(run, v))) && next == pos + |SymbolBits(sizes, values, Coded(run, v))|
    ensures NextAc(sizes, values, data, limit, pos, false) == Coefficient(run, v, next)
  {
    SizeBounds(Magnitude(v));
    SizeFits(Magnitude(v));
    SymbolStands(sizes, values, data, limit, pos, Coded(run, v), run, Size(Magnitude(v)), next);
  }

  /** A coefficient behind a run of less than sixteen zeros. */
  lemma CoefficientStands(sizes: seq<nat>, values: seq<byte>, data: seq<byte>, limit: Option<nat>, pos: nat, c: seq<int>, k: nat, run: nat, j: nat,
                          before: seq<int>, upto: seq<int>, next: nat, r: Values)
    requires Sendable(c) && !Beyond(limit, 8 * |data|) && ValidSizes(sizes) && |values| == 256 && j + run == k < 64 && run < 16 && c[k] != 0
    requires HasCode(sizes, values, Coded(run, c[k])) && Stand(data, pos, SymbolBits(sizes, values, Coded(run, c[k])))
    requires next == pos + |SymbolBits(sizes, values, Coded(run, c[k]))|
    requires before == Upto(c, k) && upto == Upto(c, k + 1) && Comes(sizes, values, data, limit, next, k + 1, upto, r)
    ensures Comes(sizes, values, data, limit, pos, j, before, r)
  {
    CodedStands(sizes, values, data, limit, pos, run, c[k], next);
    assert before[k := c[k]] == upto;
    AfterValue(sizes, values, data, limit, pos, j, before, run, c[k], next, k + 1, upto, r);
  }

  /** The first symbol is that of coefficient k; what follows comes to r. */
  ghost predicate CodedComes(sizes: seq<nat>, values: seq<byte>, data: seq<byte>, limit: Option<nat>, pos: nat, s: Symbol, next: nat, k: nat,
                             upto: seq<int>, r: Values)
    requires ValidSizes(sizes) && |values| == 256 && |upto| == 64
  {
    HasCode(sizes, values, s) && Stand(data, pos, SymbolBits(sizes, values, s)) && next == pos + |SymbolBits(sizes, values, s)| &&
    Comes(sizes, values, data, limit, next, k, upto, r)
  }

  /** A coefficient behind z zeros. */
  lemma RunStands(sizes: seq<nat>, values: seq<byte>, data: seq<byte>, limit: Option<nat>, pos: nat, c: seq<int>, k: nat, z: nat, j: nat,
                  rest: seq<Symbol>, symbols: seq<Symbol>, end: nat, before: seq<int>, upto: seq<int>, mid: nat, next: nat, r: Values)
    requires Sendable(c) && !Beyond(limit, 8 * |data|) && ValidSizes(sizes) && |values| == 256 && j + z == k < 64 && c[k] != 0
    requires symbols == ZeroRuns(z / 16) + rest && Sent(sizes, values, data, pos, symbols, end) && Sent(sizes, values, data, mid, rest, end)
    requires before == Upto(c, k) && upto == Upto(c, k + 1)
    requires CodedComes(sizes, values, data, limit, mid, Coded(z % 16, c[k]), next, k + 1, upto, r)
    ensures Comes(sizes, values, data, limit, pos, j, before, r)
  {
    var i := k - z % 16;
    CoefficientStands(sizes, values, data, limit, mid, c, k, z % 16, i, before, upto, next, r);
    ZeroRunsStand(sizes, values, data, limit, pos, j, before, z / 16, rest, symbols, mid, i, end, r);
  }

  /** Where the bits of a block's coefficients stand, they are read, and nothing else. */
  lemma {:induction false} CoefsStand(sizes: seq<nat>, values: seq<byte>, data: seq<byte>, limit: Option<nat>, pos: nat, c: seq<int>, k: nat, z: nat,
                                      j: nat, before: seq<int>, symbols: seq<Symbol>, end: nat, r: Values)
    requires Sendable(c) && !Beyond(limit, 8 * |data|) && ValidSizes(sizes) && |values| == 256 && 0 < j && j + z == k <= 64
    requires before == Upto(c, k) && symbols == Symbols(c, k, z) && r == Values(c, end) && Sent(sizes, values, data, pos, symbols, end)
    ensures Comes(sizes, values, data, limit, pos, j, before, r)
    decreases 64 - k
  {
    if k == 64 {
      assert before == c;
      EndStands(sizes, values, data, limit, pos, c, z, j, symbols, end, r);
    } else if c[k] == 0 {
      assert before == Upto(c, k + 1);
      CoefsStand(sizes, values, data, limit, pos, c, k + 1, z + 1, j, before, symbols, end, r);
    } else {
      NextStands(sizes, values, data, limit, pos, c, k, z, j, before, symbols, end, r);
    }
  }

  lemma {:induction false} NextStands(sizes: seq<nat>, values: seq<byte>, data: seq<byte>, limit: Option<nat>, pos: nat, c: seq<int>, k: nat, z: nat,
                                      j: nat, before: seq<int>, symbols: seq<Symbol>, end: nat, r: Values)
    requires Sendable(c) && !Beyond(limit, 8 * |data|) && ValidSizes(sizes) && |values| == 256 && 0 < j && j + z == k < 64 && c[k] != 0
    requires before == Upto(c, k) && symbols == Symbols(c, k, z) && r == Values(c, end) && Sent(sizes, values, data, pos, symbols, end)
    ensures Comes(sizes, values, data, limit, pos, j, before, r)
    decreases 64 - k, 0
  {
    var s, others, upto := Coded(z % 16, c[k]), Symbols(c, k + 1, 0), Upto(c, k + 1);
    var rest := [s] + others;
    var mid := BehindZeros(sizes, values, data, pos, z / 16, rest, symbols, end);
    var next := SentFirst(sizes, values, data, mid, rest, s, others, end);
    CoefsStand(sizes, values, data, limit, next, c, k + 1, 0, k + 1, upto, others, end, r);
    RunStands(sizes, values, data, limit, pos, c, k, z, j, rest, symbols, end, before, upto, mid, next, r);
  }

  lemma EndStands(sizes: seq<nat>, values: seq<byte>, data: seq<byte>, limit: Option<nat>, pos: nat, c: seq<int>, z: nat, j: nat,
                  symbols: seq<Symbol>, end: nat, r: Values)
    requires |c| == 64 && !Beyond(limit, 8 * |data|) && ValidSizes(sizes) && |values| == 256 && 0 < j && j + z == 64
    requires symbols == Symbols(c, 64, z) && r == Values(c, end) && Sent(sizes, values, data, pos, symbols, end)
    ensures Comes(sizes, values, data, limit, pos, j, c, r)
  {
    if z == 0 {
      assert symbols == [];
      SentNone(sizes, values, data, pos, end);
    } else {
      var s := Symbol(0, 0);
      assert symbols == [s] + [];
      var next := SentFirst(sizes, values, data, pos, symbols, s, [], end);
      SentNone(sizes, values, data, next, end);
      SymbolStands(sizes, values, data, limit, pos, s, 0, 0, end);
    }
  }

  // ---- Bytes ------------------------------------------------------------------------------------------------

  /** The first n bits as a number, the first being the most significant; ones fill up. */
  function HighValue(b: BitString, n: nat): (v: nat)
    ensures v < Pow2(n)
  {
    if n == 0 then 0 else 2 * HighValue(b, n - 1) + if n - 1 < |b| then b[n - 1] else 1
  }

  /** The bits as bytes, high bits first. */
  function HighBytes(b: BitString): (data: seq<byte>)
    ensures |b| <= 8 * |data|
    decreases |b|
  {
    if b == [] then []
    else
      var n := 8;
      Pow2Small();
      [HighValue(b, n) as byte] + HighBytes(if |b| <= 8 then [] else b[8..])
  }

  lemma {:induction false} HighBit(b: BitString, n: nat, i: nat)
    requires i < n && i < |b|
    ensures Shr(HighValue(b, n), n - 1 - i) % 2 == b[i]
    decreases n
  {
    if i < n - 1 {
      HighBit(b, n - 1, i);
      assert HighValue(b, n) / 2 == HighValue(b, n - 1);
    }
  }

  lemma {:induction false} BitOfBytes(b: BitString, i: nat)
    requires i < |b|
    ensures StreamBit(HighBytes(b), i) == b[i]
    decreases i
  {
    if i < 8 {
      HighBit(b, 8, i);
    } else {
      BitOfBytes(b[8..], i - 8);
    }
  }

  lemma BytesStand(b: BitString, rest: BitString)
    ensures Stand(HighBytes(b + rest), |b|, rest)
  {
    forall i | 0 <= i < |rest| ensures StreamBit(HighBytes(b + rest), |b| + i) == rest[i] {
      BitOfBytes(b + rest, |b| + i);
    }
  }

  /** Sent for the data: a zero behind every 0xFF, and any number of fill bytes before one. */
  predicate Stuffs(sent: seq<byte>, data: seq<byte>)
    decreases |sent|
  {
    if sent == [] then data == []
    else if sent[0] != 0xFF then data != [] && data[0] == sent[0] && Stuffs(sent[1..], data[1..])
    else if |sent| < 2 then false
    else if sent[1] == 0xFF then Stuffs(sent[1..], data)
    else sent[1] == 0 && data != [] && data[0] == 0xFF && Stuffs(sent[2..], data[1..])
  }

  /** A marker behind any number of fill bytes, or nothing more. */
  predicate EndsData(more: seq<byte>) {
    more == [] || (|more| >= 2 && more[0] == 0xFF && if more[1] == 0xFF then EndsData(more[1..]) else more[1] != 0)
  }

  lemma {:induction false} EndIsEmpty(more: seq<byte>)
    requires EndsData(more)
    ensures Unstuffed(more) == [] && (Marked(more) <==> more != [])
    decreases |more|
  {
    if more != [] {
      MarkerFollows(more);
    }
  }

  lemma {:induction false} MarkerFollows(more: seq<byte>)
    requires EndsData(more) && more != []
    ensures Head(SkipFill(more[1..])) != 0
    decreases |more|
  {
    if more[1] == 0xFF {
      MarkerFollows(more[1..]);
    }
  }

  /** The two inputs give the same data, but for a first byte, and the same marker. */
  predicate Goes(whole: seq<byte>, first: seq<byte>, rest: seq<byte>) {
    Unstuffed(whole) == first + Unstuffed(rest) && Marked(whole) == Marked(rest)
  }

  lemma PlainByte(b: byte, rest: seq<byte>, whole: seq<byte>)
    requires b != 0xFF && whole == [b] + rest
    ensures Goes(whole, [b], rest)
  {
    assert whole[1..] == rest;
  }

  lemma FillByte(rest: seq<byte>, whole: seq<byte>)
    requires rest != [] && rest[0] == 0xFF && whole == [0xFF] + rest
    ensures Goes(whole, [], rest)
  {
    assert whole[1..] == rest;
    assert [] + Unstuffed(rest) == Unstuffed(rest);
  }

  lemma StuffedByte(rest: seq<byte>, whole: seq<byte>)
    requires whole == [0xFF, 0] + rest
    ensures Goes(whole, [0xFF], rest)
  {
    assert whole[1..] == [0] + rest;
    assert SkipFill(whole[1..]) == whole[1..] && Tail(whole[1..]) == rest;
  }

  /** One byte of the data sent: what follows it, and what is left of the data. */
  lemma SentByte(sent: seq<byte>, data: seq<byte>, more: seq<byte>, whole: seq<byte>)
    returns (rest: seq<byte>, sent': seq<byte>, data': seq<byte>, first: seq<byte>)
    requires sent != [] && Stuffs(sent, data) && whole == sent + more
    ensures |sent'| < |sent| && Stuffs(sent', data') && rest == sent' + more && data == first + data' && Goes(whole, first, rest)
  {
    if sent[0] != 0xFF {
      sent', data', first := sent[1..], data[1..], [sent[0]];
      rest := sent' + more;
      PlainByte(sent[0], rest, whole);
    } else if sent[1] == 0xFF {
      sent', data', first := sent[1..], data, [];
      rest := sent' + more;
      FillByte(rest, whole);
    } else {
      sent', data', first := sent[2..], data[1..], [0xFF];
      rest := sent' + more;
      assert whole == [0xFF, 0] + rest;
      StuffedByte(rest, whole);
    }
  }

  /** Unstuffing gives the data back, and finds whether a marker follows. */
  lemma {:induction false} StuffedBack(sent: seq<byte>, data: seq<byte>, more: seq<byte>, whole: seq<byte>)
    requires Stuffs(sent, data) && EndsData(more) && whole == sent + more
    ensures Unstuffed(whole) == data && (Marked(whole) <==> more != [])
    decreases |sent|
  {
    if sent == [] {
      assert whole == more;
      EndIsEmpty(more);
    } else {
      var rest, sent', data', first := SentByte(sent, data, more, whole);
      StuffedBack(sent', data', more, rest);
    }
  }

  // ---- The program gives them back --------------------------------------------------------------------------

  /** The table has codes for the symbols of these coefficients. */
  ghost predicate CanSend(sizes: seq<nat>, values: seq<byte>, c: seq<int>) {
    Sendable(c) && ValidSizes(sizes) && |values| == 256 && AllHaveCodes(sizes, values, Symbols(c, 1, 0))
  }

  /** The bits of a block's AC coefficients. */
  ghost function BlockBits(sizes: seq<nat>, values: seq<byte>, c: seq<int>): BitString
    requires CanSend(sizes, values, c)
  {
    AllBits(sizes, values, Symbols(c, 1, 0))
  }

  /** Where the bits stand, the values read are those coefficients, and the position is behind the bits. */
  lemma BlockBack(sizes: seq<nat>, values: seq<byte>, data: seq<byte>, limit: Option<nat>, pos: nat, c: seq<int>, bits: BitString)
    requires CanSend(sizes, values, c) && bits == BlockBits(sizes, values, c) && Stand(data, pos, bits) && !Beyond(limit, 8 * |data|)
    ensures AcValues(sizes, values, data, limit, pos, 1, NoCoefs(), false) == Values(c, pos + |bits|)
  {
    var symbols := Symbols(c, 1, 0);
    assert Upto(c, 1) == NoCoefs();
    CoefsStand(sizes, values, data, limit, pos, c, 1, 0, 1, NoCoefs(), symbols, pos + |bits|, Values(c, pos + |bits|));
    assert Guard(0);
  }

  /** The coefficients of a block, whatever bits come before, go through stuffing and the bit buffer and come to lie at
      their places, dequantized. */
  method DecodeSent(j: Jpeg, fac: array<int>, h: Huffman, out: array<int>, quant: seq<nat>, ghost sizes: seq<nat>, ghost c: seq<int>,
                    ghost before: BitString, ghost sent: seq<byte>, ghost more: seq<byte>)
    returns (ok: bool)
    requires j.Valid() && h.Tables(sizes) && FacTable(fac, h, sizes) && Regular(sizes)
    requires out.Length == 64 && |quant| == 64 && out != fac && CanSend(sizes, h.values, c)
    requires Stuffs(sent, HighBytes(before + BlockBits(sizes, h.values, c))) && EndsData(more)
    requires j.data == Unstuffed(sent + more) && j.pos == |before|
    modifies j`codeBuffer, j`codeBits, j`fed, j`pos, j`marker, j`nomore, j.s, out
    ensures ok && j.Valid() && j.pos == old(j.pos) + |BlockBits(sizes, h.values, c)|
    ensures Laid(c, quant, old(out[..]), out[..])
  {
    ghost var bits := BlockBits(sizes, h.values, c);
    StuffedBack(sent, HighBytes(before + bits), more, sent + more);
    BytesStand(before, bits);
    BlockBack(sizes, h.values, j.data, j.Limit(), j.pos, c, bits);
    ok := j.DecodeAcBlock(fac, h, out, quant, sizes);
  }

  /** A product of 16 bits is exact; larger ones keep their low 16 bits. */
  lemma DequantizedIs(v: int, q: nat)
    ensures -0x8000 <= v * q < 0x8000 ==> Dequantized(v, q) == v * q
    ensures -0x8000 <= Dequantized(v, q) < 0x8000 && (Dequantized(v, q) - v * q) % 0x1_0000 == 0
  {
  }
}
