/** stbi__zhuffman: the fast table and the slow-path arrays of a DEFLATE Huffman decoder. */
module ZHuffmanTables {
  import opened Bits
  import opened Folding
  import opened Options
  import opened CanonicalCode

  const ZFAST_BITS: nat := 9
  const ZNSYMS: nat := 288

  /** The rank, among all symbols that have a code, of the first symbol of length l. */
  function FirstSym(lens: seq<nat>, l: nat): nat {
    if l <= 1 then 0 else FirstSym(lens, l - 1) + Count(lens, l - 1)
  }

  lemma {:induction false} FirstSymSnoc(lens: seq<nat>, x: nat, l: nat)
    ensures FirstSym(lens + [x], l) == FirstSym(lens, l) + if 0 < x < l then 1 else 0
  {
    if l > 1 {
      FirstSymSnoc(lens, x, l - 1);
      CountSnoc(lens, x, l - 1);
    }
  }

  lemma {:induction false} FirstSymBound(lens: seq<nat>, l: nat)
    ensures FirstSym(lens, l) <= |lens|
    decreases |lens|
  {
    if lens == [] {
      FirstSymEmpty(l);
    } else {
      var front := lens[..|lens| - 1];
      assert lens == front + [lens[|lens| - 1]];
      FirstSymSnoc(front, lens[|lens| - 1], l);
      FirstSymBound(front, l);
    }
  }

  lemma {:induction false} FirstSymEmpty(l: nat)
    ensures FirstSym([], l) == 0
  {
    if l > 1 {
      FirstSymEmpty(l - 1);
    }
  }

  lemma {:induction false} FirstSymMono(lens: seq<nat>, l: nat, m: nat)
    requires 1 <= l < m
    ensures FirstSym(lens, l) + Count(lens, l) <= FirstSym(lens, m)
    decreases m
  {
    if l + 1 < m {
      FirstSymMono(lens, l, m - 1);
    }
  }

  /** Where the symbol tables hold the r-th symbol of length l. */
  function Slot(lens: seq<nat>, l: nat, r: nat): nat {
    FirstSym(lens, l) + r
  }

  lemma SlotBound(lens: seq<nat>, l: nat, r: nat)
    requires l >= 1 && r < Count(lens, l)
    ensures Slot(lens, l, r) < |lens|
  {
    var next := l + 1;
    FirstSymBound(lens, next);
    FirstSymMono(lens, l, next);
  }

  lemma SlotInjective(lens: seq<nat>, l: nat, r: nat, l': nat, r': nat)
    requires 1 <= l && 1 <= l' && r < Count(lens, l) && r' < Count(lens, l')
    requires Slot(lens, l, r) == Slot(lens, l', r')
    ensures l == l' && r == r'
  {
    if l < l' {
      FirstSymMono(lens, l, l');
    } else if l' < l {
      FirstSymMono(lens, l', l);
    }
  }

  /** The slow-path tables hold, for every length and rank below n symbols, that symbol. */
  ghost predicate SlotsHold(lens: seq<nat>, n: nat, size: seq<byte>, value: seq<uint16>)
    requires n <= |lens| <= |size| == |value|
  {
    forall l: nat, r: nat | 1 <= l <= 15 && r < Count(lens[..n], l) :: SlotHolds(lens, size, value, l, r)
  }

  ghost predicate SlotHolds(lens: seq<nat>, size: seq<byte>, value: seq<uint16>, l: nat, r: nat)
    requires |lens| <= |size| == |value|
  {
    var c := Slot(lens, l, r);
    && c < |lens|
    && size[c] as nat == l
    && value[c] as nat < |lens|
    && lens[value[c] as nat] == l
    && Count(lens[..value[c] as nat], l) == r
  }

  /** Nine bits j, in stream order, begin with the code of sym. */
  ghost predicate FastMatch(lens: seq<nat>, sym: nat, j: nat) {
    && sym < |lens|
    && 0 < lens[sym] <= ZFAST_BITS
    && Shr(Rev(j, ZFAST_BITS), ZFAST_BITS - lens[sym]) == Code(lens, sym)
  }

  /** The entry stored for a symbol: code length above, symbol below. */
  function Entry(s: nat, sym: nat): nat {
    s * 512 + sym
  }

  /** The fast table, filled for the first n symbols. */
  ghost predicate FastHolds(lens: seq<nat>, n: nat, fast: seq<uint16>)
    requires |fast| == 512
  {
    && (forall sym: nat, j: nat | sym < n && j < 512 && FastMatch(lens, sym, j) ::
          fast[j] as nat == Entry(lens[sym], sym))
    && (forall j: nat | j < 512 && fast[j] != 0 :: FastEntryOk(lens, n, fast[j] as nat, j))
  }

  ghost predicate FastEntryOk(lens: seq<nat>, n: nat, e: nat, j: nat) {
    var sym := e % 512;
    sym < n && FastMatch(lens, sym, j) && e == Entry(lens[sym], sym)
  }

  /** Nine bits in stream order begin with at most one code: a corollary of prefix freedom. */
  lemma FastUnique(lens: seq<nat>, a: nat, b: nat, j: nat)
    requires FastMatch(lens, a, j) && FastMatch(lens, b, j) && j < 512
    ensures a == b
  {
    var data, p := StreamOf(j);
    FastMatches(lens, data, p, a, j);
    FastMatches(lens, data, p, b, j);
    MatchUnique(lens, data, p, a, b);
  }

  /** Some stream has these nine bits. */
  lemma StreamOf(j: nat) returns (data: seq<byte>, p: nat)
    requires j < 512
    ensures Val(data, p, ZFAST_BITS) == j
  {
    var lo, hi: nat := j % 256, j / 256;
    data, p := [lo as byte, hi as byte], 0;
    var n, m := 8, 1;
    StreamVal(data, p, n, m);
    assert hi % 2 == hi;
  }

  lemma ShlFour(v: nat, n: nat)
    requires n == 4
    ensures Shl(v, n) == 16 * v
  {
    assert Shl(v, n - 4) == v;
    assert Shl(v, n - 3) == 2 * v;
    assert Shl(v, n - 2) == 4 * v;
    assert Shl(v, n - 1) == 8 * v;
  }

  lemma ShlByte(v: nat, n: nat)
    requires n == 8
    ensures Shl(v, n) == 256 * v
  {
    ShlFour(v, n - 4);
    ShlFour(Shl(v, n - 4), n - 4);
    ShlShl(v, n - 4, n - 4);
  }

  lemma StreamVal(data: seq<byte>, p: nat, n: nat, m: nat)
    requires |data| == 2 && p == 0 && n == 8 && m == 1
    ensures Val(data, p, n + m) == data[0] as nat + 256 * (data[1] as nat % 2)
  {
    ValByte(data, p, p, n);
    ValByte(data, m, n, n);
    ValSplit(data, p, n, m);
    ShlByte(Val(data, n, m), n);
    BitAt(data, 1, n, 0);
    assert Val(data, n, m) == Bit(data, n) + 2 * Val(data, n + 1, 0);
  }

  lemma FastMatches(lens: seq<nat>, data: seq<byte>, p: nat, sym: nat, j: nat)
    requires Val(data, p, ZFAST_BITS) == j && sym < |lens| && 0 < lens[sym] <= ZFAST_BITS
    ensures FastMatch(lens, sym, j) <==> Matches(lens, data, p, sym)
  {
    RevVal(data, p, ZFAST_BITS);
    MsbPrefix(data, p, ZFAST_BITS, lens[sym]);
  }

  /** The table indices a code of length s fills are those whose low s bits are the reversed code. */
  lemma FastIndices(code: nat, s: nat, j: nat)
    requires s <= ZFAST_BITS && code < Pow2(s)
    ensures Low(j, s) == Rev(code, s) <==> Shr(Rev(j, ZFAST_BITS), ZFAST_BITS - s) == code
  {
    RevPrefix(j, s, ZFAST_BITS);
    RevLow(j, s);
    RevInvolution(code, s);
    LowBound(j, s);
    RevInvolution(Low(j, s), s);
  }

  lemma RangeStep(lens: seq<nat>, i: nat)
    requires ValidLens(lens) && 1 <= i <= 15 && First(lens, i) <= Pow2(i)
    ensures First(lens, i) <= 0x8000 && FirstSym(lens, i) <= 288
    ensures End(lens, i) == First(lens, i) + Count(lens, i)
    ensures First(lens, i + 1) == 2 * End(lens, i)
    ensures FirstSym(lens, i + 1) == FirstSym(lens, i) + Count(lens, i)
    ensures Pow2(i + 1) == 2 * Pow2(i)
  {
    FirstSymBound(lens, i);
    Pow2Mono(i, 15);
    Pow2Small();
  }

  /** The next code of length l once i symbols have theirs. */
  function NextCode(lens: seq<nat>, i: nat, l: nat): nat
    requires i <= |lens|
  {
    First(lens, l) + Count(lens[..i], l)
  }

  lemma NextCodeStep(lens: seq<nat>, i: nat)
    requires i < |lens|
    ensures NextCode(lens, i, lens[i]) == Code(lens, i)
    ensures forall l: nat :: NextCode(lens, i + 1, l) == NextCode(lens, i, l) + if lens[i] == l then 1 else 0
  {
    forall l: nat
      ensures NextCode(lens, i + 1, l) == NextCode(lens, i, l) + if lens[i] == l then 1 else 0
    {
      CountPrefix(lens, i, l);
    }
  }

  /** The arrays of the C struct are embedded in it and alias nothing, hence fields of type seq that
      the methods update element by element. */
  class ZHuffman {
    var fast: seq<uint16>
    var firstcode: seq<uint16>
    var maxcode: seq<int>
    var firstsymbol: seq<uint16>
    var size: seq<byte>
    var value: seq<uint16>

    ghost predicate Valid()
      reads this
    {
      ValidRanges() && |fast| == 512 && |size| == ZNSYMS && |value| == ZNSYMS
    }

    ghost predicate ValidRanges()
      reads this`firstcode, this`maxcode, this`firstsymbol
    {
      |firstcode| == 16 && |maxcode| == 17 && |firstsymbol| == 16
    }

    constructor ()
      ensures Valid()
    {
      fast := seq(512, _ => 0);
      firstcode := seq(16, _ => 0);
      maxcode := seq(17, _ => 0);
      firstsymbol := seq(16, _ => 0);
      size := seq(ZNSYMS, _ => 0);
      value := seq(ZNSYMS, _ => 0);
    }

    /** The range tables hold the canonical code of lens. */
    ghost predicate Ranges(lens: seq<nat>)
      reads this`firstcode, this`maxcode, this`firstsymbol
    {
      && ValidRanges()
      && maxcode[16] == 0x1_0000
      && forall l: nat | 1 <= l <= 15 :: RangeAt(lens, l)
    }

    ghost predicate RangeAt(lens: seq<nat>, l: nat)
      requires ValidRanges() && 1 <= l <= 15
      reads this`firstcode, this`maxcode, this`firstsymbol
    {
      && firstcode[l] as nat == First(lens, l)
      && firstsymbol[l] as nat == FirstSym(lens, l)
      && maxcode[l] == Shl(End(lens, l), 16 - l)
    }

    /** All tables hold the canonical code of lens. The guard keeps this folded until it is needed. */
    ghost predicate Tables(lens: seq<nat>)
      reads this
    {
      forall k: nat :: Guard(k) ==> AllTables(lens)
    }

    ghost predicate AllTables(lens: seq<nat>)
      reads this
    {
      && Valid()
      && ValidLens(lens)
      && Kraft(lens)
      && Ranges(lens)
      && SlotsHold(lens, |lens|, size, value)
      && FastHolds(lens, |lens|, fast)
    }

    /** stbi__zbuild_huffman: accepts exactly the length lists that satisfy the Kraft inequality. */
    method Build(sizelist: seq<nat>) returns (ok: bool)
      requires Valid() && ValidLens(sizelist)
      modifies this
      ensures Valid()
      ensures ok <==> Kraft(sizelist)
      ensures ok ==> Tables(sizelist)
    {
      fast := seq(512, _ => 0);
      ok := BuildRanges(sizelist);
      if ok {
        BuildSymbols(sizelist);
      }
    }

    /** The DEFLATE algorithm for generating codes, with its two rejections. */
    method BuildRanges(sizelist: seq<nat>) returns (ok: bool)
      requires Valid() && ValidLens(sizelist)
      modifies this`firstcode, this`maxcode, this`firstsymbol
      ensures Valid()
      ensures ok <==> Kraft(sizelist)
      ensures ok ==> Ranges(sizelist)
    {
      var sizes := CountSizes(sizelist);
      for i := 1 to 16
        invariant forall l: nat | 1 <= l < i :: sizes[l] <= Pow2(l)
      {
        if sizes[i] > Pow2(i) {
          KraftBoundsEnd(sizelist, i);
          return false;
        }
      }
      ok := AssignRanges(sizelist, sizes);
    }

    method AssignRanges(sizelist: seq<nat>, sizes: array<nat>) returns (ok: bool)
      requires Valid() && ValidLens(sizelist)
      requires sizes.Length == 17 && forall l: nat | 1 <= l < 16 :: sizes[l] == Count(sizelist, l)
      modifies this`firstcode, this`maxcode, this`firstsymbol
      ensures Valid()
      ensures ok <==> Kraft(sizelist)
      ensures ok ==> Ranges(sizelist)
    {
      var code, k := 0, 0;
      for i := 1 to 16
        invariant Valid()
        invariant code == First(sizelist, i) && k == FirstSym(sizelist, i)
        invariant code <= Pow2(i)
        invariant forall l: nat | 1 <= l < i :: RangeAt(sizelist, l)
      {
        RangeStep(sizelist, i);
        if sizes[i] != 0 && code + sizes[i] - 1 >= Pow2(i) {
          KraftBoundsEnd(sizelist, i);
          return false;
        }
        SetRange(sizelist, i, code, k, code + sizes[i]);
        code := 2 * (code + sizes[i]);
        k := k + sizes[i];
      }
      var top := 15;
      KraftIsEnd(sizelist, top);
      FinishRanges(sizelist);
      ok := true;
    }

    /** Records the range of the codes of length i. */
    method SetRange(ghost lens: seq<nat>, i: nat, code: nat, k: nat, end: nat)
      requires Valid() && 1 <= i <= 15
      requires code == First(lens, i) <= 0x8000 && k == FirstSym(lens, i) <= 288 && end == End(lens, i)
      requires forall l: nat | 1 <= l < i :: RangeAt(lens, l)
      modifies this`firstcode, this`maxcode, this`firstsymbol
      ensures Valid() && forall l: nat | 1 <= l <= i :: RangeAt(lens, l)
    {
      firstcode := firstcode[i := code as uint16];
      firstsymbol := firstsymbol[i := k as uint16];
      maxcode := maxcode[i := Shl(end, 16 - i)]; // preshift for inner loop
      forall l: nat | 1 <= l <= i
        ensures RangeAt(lens, l)
      {
        assert l == i || old(RangeAt(lens, l));
      }
    }

    method FinishRanges(ghost lens: seq<nat>)
      requires Valid() && forall l: nat | 1 <= l < 16 :: RangeAt(lens, l)
      modifies this`maxcode
      ensures Ranges(lens)
    {
      maxcode := maxcode[16 := 0x1_0000]; // sentinel
      forall l: nat | 1 <= l <= 15
        ensures RangeAt(lens, l)
      {
        assert old(RangeAt(lens, l));
      }
    }

    method CountSizes(sizelist: seq<nat>) returns (sizes: array<nat>)
      requires ValidLens(sizelist)
      ensures fresh(sizes) && sizes.Length == 17
      ensures sizes[0] == 0 && forall l: nat | 1 <= l < 16 :: sizes[l] == Count(sizelist, l)
    {
      sizes := new nat[17](_ => 0);
      for i := 0 to |sizelist|
        invariant forall l: nat | l < 16 :: sizes[l] == Count(sizelist[..i], l)
      {
        forall l: nat | l < 16
          ensures Count(sizelist[..i + 1], l) == Count(sizelist[..i], l) + if sizelist[i] == l then 1 else 0
        {
          CountPrefix(sizelist, i, l);
        }
        sizes[sizelist[i]] := sizes[sizelist[i]] + 1;
      }
      assert sizelist[..|sizelist|] == sizelist;
      sizes[0] := 0;
    }

    /** The symbol loop: give each symbol its slot and, if short enough, its fast entries. */
    method BuildSymbols(sizelist: seq<nat>)
      requires Valid() && ValidLens(sizelist) && Kraft(sizelist) && Ranges(sizelist)
      requires forall j | 0 <= j < 512 :: fast[j] == 0
      modifies this`fast, this`size, this`value
      ensures Valid() && Tables(sizelist)
    {
      var nextCode := InitNextCode(sizelist);
      for i := 0 to |sizelist|
        invariant Valid() && Ranges(sizelist)
        invariant forall l: nat | 1 <= l <= 15 :: nextCode[l] == NextCode(sizelist, i, l)
        invariant SlotsHold(sizelist, i, size, value)
        invariant FastHolds(sizelist, i, fast)
      {
        var s := sizelist[i];
        NextCodeStep(sizelist, i);
        if s != 0 {
          AddSymbol(sizelist, i, nextCode[s]);
          nextCode[s] := nextCode[s] + 1;
        } else {
          SlotsSkip(sizelist, i, size, value);
          FastSkip(sizelist, i, fast);
        }
      }
    }

    method InitNextCode(sizelist: seq<nat>) returns (nextCode: array<nat>)
      requires Valid() && Ranges(sizelist)
      ensures fresh(nextCode) && nextCode.Length == 16
      ensures forall l: nat | 1 <= l <= 15 :: nextCode[l] == NextCode(sizelist, 0, l)
    {
      nextCode := new nat[16];
      for l := 1 to 16
        invariant forall m: nat | 1 <= m < l :: nextCode[m] == NextCode(sizelist, 0, m)
      {
        assert RangeAt(sizelist, l);
        nextCode[l] := firstcode[l] as nat;
      }
    }

    /** The body of the symbol loop, for a symbol i that has a code. */
    method AddSymbol(sizelist: seq<nat>, i: nat, code: nat)
      requires Valid() && ValidLens(sizelist) && Kraft(sizelist) && Ranges(sizelist)
      requires i < |sizelist| && sizelist[i] > 0 && code == Code(sizelist, i)
      requires SlotsHold(sizelist, i, size, value) && FastHolds(sizelist, i, fast)
      modifies this`fast, this`size, this`value
      ensures Valid() && Ranges(sizelist)
      ensures SlotsHold(sizelist, i + 1, size, value) && FastHolds(sizelist, i + 1, fast)
    {
      AddSlot(sizelist, i, code);
      var s := sizelist[i];
      if s <= ZFAST_BITS {
        CodeBound(sizelist, i);
        ghost var was := fast;
        FillFast(code, s, i);
        FastStep(sizelist, i, was, fast);
      } else {
        FastSkip(sizelist, i, fast);
      }
    }

    method AddSlot(sizelist: seq<nat>, i: nat, code: nat)
      requires Valid() && ValidLens(sizelist) && Ranges(sizelist)
      requires i < |sizelist| && sizelist[i] > 0 && code == Code(sizelist, i)
      requires SlotsHold(sizelist, i, size, value)
      modifies this`size, this`value
      ensures Valid() && SlotsHold(sizelist, i + 1, size, value)
    {
      var s := sizelist[i];
      CountPrefix(sizelist, i, s);
      SlotBound(sizelist, s, Count(sizelist[..i], s));
      assert RangeAt(sizelist, s);
      var c := code - firstcode[s] as nat + firstsymbol[s] as nat;
      SlotsStep(sizelist, i, size, value, size[c := s as byte], value[c := i as uint16]);
      size := size[c := s as byte];
      value := value[c := i as uint16];
    }

    /** The inner loop: every index whose low s bits are the reversed code gets the entry. */
    method FillFast(code: nat, s: nat, i: nat)
      requires Valid() && 1 <= s <= ZFAST_BITS && code < Pow2(s) && i < ZNSYMS
      modifies this`fast
      ensures Entry(s, i) < 0x1_0000
      ensures fast == Filled(old(fast), 512, s, Rev(code, s), Entry(s, i) as uint16)
    {
      BitReverseIsRev(code, s);
      RevBound(code, s);
      EntryFits(s, i);
      FillEvery(BitReverse(code, s), s, (s * 512 + i) as uint16);
    }

    method FillEvery(start: nat, s: nat, fastv: uint16)
      requires Valid() && start < Pow2(s)
      modifies this`fast
      ensures fast == Filled(old(fast), 512, s, start, fastv)
    {
      var j := start;
      FilledNone(fast, s, start, fastv);
      LowSmall(start, s);
      while j < 512
        invariant Low(j, s) == start
        invariant fast == Filled(old(fast), j, s, start, fastv)
        decreases 512 - j
      {
        FilledStep(old(fast), j, s, start, fastv);
        fast := fast[j := fastv];
        j := j + Pow2(s);
      }
      assert Filled(old(fast), j, s, start, fastv) == Filled(old(fast), 512, s, start, fastv);
    }
  }

  lemma EntryFits(s: nat, i: nat)
    requires s <= 15 && i < ZNSYMS
    ensures Entry(s, i) < 0x1_0000
  {
  }

  /** The table with every index below n whose low s bits are r filled. */
  function Filled(was: seq<uint16>, n: nat, s: nat, r: nat, v: uint16): (t: seq<uint16>)
    ensures |t| == |was|
    ensures forall m: nat | m < |was| :: t[m] == if m < n && Low(m, s) == r then v else was[m]
  {
    seq(|was|, m requires 0 <= m < |was| => if m < n && Low(m, s) == r then v else was[m])
  }

  lemma FilledStep(was: seq<uint16>, j: nat, s: nat, r: nat, v: uint16)
    requires j < |was| && Low(j, s) == r
    ensures Filled(was, j + Pow2(s), s, r, v) == Filled(was, j, s, r, v)[j := v]
    ensures Low(j + Pow2(s), s) == r
  {
    var a, b := Filled(was, j + Pow2(s), s, r, v), Filled(was, j, s, r, v)[j := v];
    StepLow(j, s);
    forall m: nat | m < |was|
      ensures a[m] == b[m]
    {
      if j < m < j + Pow2(s) {
        BetweenLow(j, s, m);
      }
    }
  }

  lemma FilledNone(was: seq<uint16>, s: nat, r: nat, v: uint16)
    requires r < Pow2(s)
    ensures Filled(was, r, s, r, v) == was
  {
    var a := Filled(was, r, s, r, v);
    forall m: nat | m < |was|
      ensures a[m] == was[m]
    {
      if m < r {
        LowSmall(m, s);
      }
    }
  }

  lemma StepLow(j: nat, s: nat)
    ensures Low(j + Pow2(s), s) == Low(j, s)
  {
    Split(j, s);
    LowBound(j, s);
    ShlAdd(Shr(j, s), 1, s);
    ShlOne(s);
    Join(Low(j, s), Shr(j, s) + 1, s);
  }

  lemma BetweenLow(j: nat, s: nat, m: nat)
    requires j < m < j + Pow2(s)
    ensures Low(m, s) != Low(j, s)
  {
    Split(j, s);
    Split(m, s);
    if Low(m, s) == Low(j, s) {
      if Shr(j, s) < Shr(m, s) {
        ShlStrict(Shr(j, s), Shr(m, s), s);
      } else {
        ShlMono(Shr(m, s), Shr(j, s), s);
      }
    }
  }

  // ---- One step of the symbol loop --------------------------------------------------------------

  lemma SlotsStep(lens: seq<nat>, i: nat, size: seq<byte>, value: seq<uint16>, size': seq<byte>, value': seq<uint16>)
    requires i < |lens| <= |size| == |value| == |size'| == |value'| && ValidLens(lens) && lens[i] > 0
    requires SlotsHold(lens, i, size, value)
    requires var c := Slot(lens, lens[i], Count(lens[..i], lens[i]));
             c < |lens| && size' == size[c := lens[i] as byte] && value' == value[c := i as uint16]
    ensures SlotsHold(lens, i + 1, size', value')
  {
    forall l: nat, r: nat | 1 <= l <= 15 && r < Count(lens[..i + 1], l)
      ensures SlotHolds(lens, size', value', l, r)
    {
      CountPrefix(lens, i, l);
      CountPrefix(lens, i, lens[i]);
      if r < Count(lens[..i], l) {
        assert SlotHolds(lens, size, value, l, r);
        if Slot(lens, l, r) == Slot(lens, lens[i], Count(lens[..i], lens[i])) {
          SlotInjective(lens, l, r, lens[i], Count(lens[..i], lens[i]));
        }
      }
    }
  }

  lemma SlotsSkip(lens: seq<nat>, i: nat, size: seq<byte>, value: seq<uint16>)
    requires i < |lens| <= |size| == |value| && lens[i] == 0
    requires SlotsHold(lens, i, size, value)
    ensures SlotsHold(lens, i + 1, size, value)
  {
    forall l: nat, r: nat | 1 <= l <= 15 && r < Count(lens[..i + 1], l)
      ensures SlotHolds(lens, size, value, l, r)
    {
      CountPrefix(lens, i, l);
    }
  }

  lemma FastStep(lens: seq<nat>, i: nat, fast: seq<uint16>, fast': seq<uint16>)
    requires i < |lens| && |fast| == |fast'| == 512 && ValidLens(lens) && Kraft(lens)
    requires 0 < lens[i] <= ZFAST_BITS
    requires FastHolds(lens, i, fast)
    requires Entry(lens[i], i) < 0x1_0000
    requires fast' == Filled(fast, 512, lens[i], Rev(Code(lens, i), lens[i]), Entry(lens[i], i) as uint16)
    ensures FastHolds(lens, i + 1, fast')
  {
    CodeBound(lens, i);
    forall j: nat | j < 512
      ensures fast'[j] as nat == if FastMatch(lens, i, j) then Entry(lens[i], i) else fast[j] as nat
    {
      FastIndices(Code(lens, i), lens[i], j);
    }
    FastStepEntries(lens, i, fast, fast');
  }

  lemma FastStepEntries(lens: seq<nat>, i: nat, fast: seq<uint16>, fast': seq<uint16>)
    requires i < |lens| <= 288 && |fast| == |fast'| == 512
    requires FastHolds(lens, i, fast)
    requires forall j: nat | j < 512 ::
               fast'[j] as nat == if FastMatch(lens, i, j) then Entry(lens[i], i) else fast[j] as nat
    ensures FastHolds(lens, i + 1, fast')
  {
    forall sym: nat, j: nat | sym < i + 1 && j < 512 && FastMatch(lens, sym, j)
      ensures fast'[j] as nat == Entry(lens[sym], sym)
    {
      if sym < i && FastMatch(lens, i, j) {
        FastUnique(lens, sym, i, j);
      }
    }
    forall j: nat | j < 512 && fast'[j] != 0
      ensures FastEntryOk(lens, i + 1, fast'[j] as nat, j)
    {
      if FastMatch(lens, i, j) {
        assert Entry(lens[i], i) % 512 == i;
      } else {
        assert FastEntryOk(lens, i, fast[j] as nat, j);
      }
    }
  }

  lemma FastSkip(lens: seq<nat>, i: nat, fast: seq<uint16>)
    requires i < |lens| && |fast| == 512 && !(0 < lens[i] <= ZFAST_BITS)
    requires FastHolds(lens, i, fast)
    ensures FastHolds(lens, i + 1, fast)
  {
    forall j: nat | j < 512 && fast[j] != 0
      ensures FastEntryOk(lens, i + 1, fast[j] as nat, j)
    {
      assert FastEntryOk(lens, i, fast[j] as nat, j);
    }
  }

  // ---- Looking a code up --------------------------------------------------------------------------

  /** A fast entry names the next symbol. */
  lemma FastHit(lens: seq<nat>, fast: seq<uint16>, data: seq<byte>, p: nat, e: nat)
    requires |fast| == 512 && |lens| <= 288 && FastHolds(lens, |lens|, fast)
    requires Val(data, p, ZFAST_BITS) < 512 && e == fast[Val(data, p, ZFAST_BITS)] as nat && e != 0
    ensures Matches(lens, data, p, e % 512) && lens[e % 512] == e / 512 <= ZFAST_BITS
  {
    var j := Val(data, p, ZFAST_BITS);
    assert FastEntryOk(lens, |lens|, e, j);
    FastMatches(lens, data, p, e % 512, j);
  }

  /** Without a fast entry, no code of at most nine bits comes next. */
  lemma FastMiss(lens: seq<nat>, fast: seq<uint16>, data: seq<byte>, p: nat)
    requires |fast| == 512 && |lens| <= 288 && FastHolds(lens, |lens|, fast)
    requires Val(data, p, ZFAST_BITS) < 512 && fast[Val(data, p, ZFAST_BITS)] == 0
    ensures forall sym: nat :: Matches(lens, data, p, sym) ==> lens[sym] > ZFAST_BITS
  {
    var j := Val(data, p, ZFAST_BITS);
    forall sym: nat | Matches(lens, data, p, sym)
      ensures lens[sym] > ZFAST_BITS
    {
      if lens[sym] <= ZFAST_BITS {
        FastMatches(lens, data, p, sym, j);
      }
    }
  }

  /** The next sixteen bits lie past the codes of length l. */
  ghost predicate Beyond(lens: seq<nat>, data: seq<byte>, p: nat, l: nat)
    requires l <= 16
  {
    Shl(End(lens, l), 16 - l) <= MsbVal(data, p, 16)
  }

  /** The slow path finds the symbol in the range of the first length whose end lies past the window. */
  lemma SlowHit(lens: seq<nat>, size: seq<byte>, value: seq<uint16>, data: seq<byte>, p: nat, s: nat)
    requires ValidLens(lens) && |size| == |value| == 288 && SlotsHold(lens, |lens|, size, value)
    requires 1 <= s <= 15
    requires Beyond(lens, data, p, s - 1) && !Beyond(lens, data, p, s)
    ensures First(lens, s) <= Shr(MsbVal(data, p, 16), 16 - s)
    ensures var c := Shr(MsbVal(data, p, 16), 16 - s) - First(lens, s) + FirstSym(lens, s);
            && c < |lens| && size[c] as nat == s
            && Matches(lens, data, p, value[c] as nat) && lens[value[c] as nat] == s
  {
    FirstScaled(lens, s, 16);
    var sym := Locate(lens, data, p, 16, s);
    CodeRange(lens, sym);
    CountPrefix(lens, sym, s);
    var r := Count(lens[..sym], s);
    assert lens[..|lens|] == lens;
    assert SlotHolds(lens, size, value, s, r);
    RankInjective(lens, sym, value[Slot(lens, s, r)] as nat);
  }
}
