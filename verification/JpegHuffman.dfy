/** stbi__huffman: the JPEG decoder's Huffman tables. */
module JpegHuffmanTables {
  import opened Bits
  import opened Folding
  import opened JpegSpec
  import opened Options

  const FAST_BITS: nat := 9

  /** The code lengths that the 16 counts of a table stand for. */
  function SizeList(count: seq<nat>, n: nat): (r: seq<nat>)
    requires n <= |count| <= 16
  {
    if n == 0 then [] else SizeList(count, n - 1) + Repeated(n, count[n - 1])
  }

  function Repeated(v: nat, n: nat): (r: seq<nat>)
    ensures |r| == n
  {
    seq(n, i => v)
  }

  lemma {:induction false} SizeListValid(count: seq<nat>, n: nat)
    requires n <= |count| <= 16
    ensures forall i | 0 <= i < |SizeList(count, n)| :: 1 <= SizeList(count, n)[i] <= n
    ensures forall i, j | 0 <= i < j < |SizeList(count, n)| :: SizeList(count, n)[i] <= SizeList(count, n)[j]
    decreases n
  {
    if n > 0 {
      SizeListValid(count, n - 1);
    }
  }

  lemma {:induction false} SizeListGrows(count: seq<nat>, m: nat, n: nat)
    requires m <= n <= |count| <= 16
    ensures |SizeList(count, m)| <= |SizeList(count, n)|
    decreases n
  {
    if m < n {
      SizeListGrows(count, m, n - 1);
    }
  }

  /** How many codes have at most l bits. */
  ghost function Upto(sizes: seq<nat>, l: nat): (n: nat)
    requires ValidSizes(sizes)
    ensures n <= |sizes| && (n > 0 ==> sizes[n - 1] <= l)
    decreases |sizes|
  {
    if sizes == [] then 0
    else if sizes[|sizes| - 1] <= l then |sizes|
    else
      FrontValid(sizes);
      Upto(sizes[..|sizes| - 1], l)
  }

  lemma FrontValid(sizes: seq<nat>)
    requires ValidSizes(sizes) && sizes != []
    ensures ValidSizes(sizes[..|sizes| - 1])
  {
    forall i, j | 0 <= i < j < |sizes| - 1 ensures sizes[i] <= sizes[j] {
      SortedAt(sizes, i, j);
    }
  }

  lemma {:induction false} UptoIs(sizes: seq<nat>, l: nat)
    requires ValidSizes(sizes)
    ensures forall i | 0 <= i < |sizes| :: sizes[i] <= l <==> i < Upto(sizes, l)
    decreases |sizes|
  {
    if sizes == [] {
    } else if sizes[|sizes| - 1] <= l {
      forall i | 0 <= i < |sizes| ensures sizes[i] <= l {
        SortedAt(sizes, i, |sizes| - 1);
      }
    } else {
      FrontValid(sizes);
      UptoIs(sizes[..|sizes| - 1], l);
      forall i | 0 <= i < |sizes| ensures sizes[i] <= l <==> i < Upto(sizes, l) {
        assert i < |sizes| - 1 ==> sizes[..|sizes| - 1][i] == sizes[i];
      }
    }
  }

  /** The code that would come after the first n codes if it had l bits. */
  ghost function NextCode(sizes: seq<nat>, n: nat, l: nat): nat
    requires ValidSizes(sizes) && n <= |sizes| && (n > 0 ==> sizes[n - 1] <= l)
  {
    if n == 0 then 0 else Shl(Code(sizes, n - 1) + 1, l - sizes[n - 1])
  }

  lemma NextCodeScaled(sizes: seq<nat>, n: nat, l: nat)
    requires ValidSizes(sizes) && n <= |sizes| && (n > 0 ==> sizes[n - 1] <= l) && l <= 16
    ensures Shl(NextCode(sizes, n, l), 16 - l) == End(sizes, n)
  {
    if n == 0 {
      ShlZero(16 - l);
    } else {
      ShlShl(Code(sizes, n - 1) + 1, l - sizes[n - 1], 16 - l);
    }
  }

  /** Codes of the same length are consecutive. */
  lemma {:induction false} RunOfCodes(sizes: seq<nat>, n: nat, i: nat, l: nat)
    requires ValidSizes(sizes) && n <= i <= |sizes| && (n > 0 ==> sizes[n - 1] <= l)
    requires forall k | n <= k < i :: sizes[k] == l
    ensures NextCode(sizes, i, l) == NextCode(sizes, n, l) + (i - n)
    ensures i < |sizes| && sizes[i] == l ==> Code(sizes, i) == NextCode(sizes, i, l)
    decreases i
  {
    if n < i {
      RunOfCodes(sizes, n, i - 1, l);
    }
  }

  /** Entry c of the fast table, given the first n symbols. */
  ghost predicate FastIs(sizes: seq<nat>, n: nat, c: nat, f: byte)
    requires ValidSizes(sizes) && n <= |sizes|
  {
    (f < 255 ==> f as nat < n && FastCode(sizes, c, f as nat)) &&
    (f == 255 ==> forall i | 0 <= i < n && i < 255 :: !FastCode(sizes, c, i))
  }

  /** Code i is short, and the nine bits c start with it. */
  ghost predicate FastCode(sizes: seq<nat>, c: nat, i: nat)
    requires ValidSizes(sizes) && i < |sizes|
  {
    sizes[i] <= 9 && Shr(c, 9 - sizes[i]) == Code(sizes, i)
  }

  lemma FastCodeUnique(sizes: seq<nat>, c: nat, i: nat, j: nat)
    requires ValidSizes(sizes) && i < |sizes| && j < |sizes| && FastCode(sizes, c, i) && FastCode(sizes, c, j)
    ensures i == j
  {
    var w := Shl(c, 7);
    ShlWindow(c, 9 - sizes[i]);
    ShlWindow(c, 9 - sizes[j]);
    PrefixFree(sizes, w, i, j);
  }

  lemma ShlWindow(c: nat, k: nat)
    ensures Shr(Shl(c, 7), 7 + k) == Shr(c, k)
  {
    var seven := 7;
    Pow2Small();
    Join(0, c, seven);
    ShrShr(Shl(c, seven), seven, k);
  }

  lemma ShrIs(c: nat, v: nat, k: nat)
    ensures Shr(c, k) == v <==> Shl(v, k) <= c < Shl(v, k) + Pow2(k)
  {
    ShrBounds(c, k);
    ShlAdd(v, 1, k);
    ShlOne(k);
    if Shl(v, k) <= c < Shl(v, k) + Pow2(k) {
      ShrRange(c, k, v, v + 1);
    }
  }

  /** The 9-bit windows that start with a short code are consecutive. */
  lemma FastRange(sizes: seq<nat>, c: nat, i: nat)
    requires ValidSizes(sizes) && i < |sizes| && sizes[i] <= 9
    ensures var k := 9 - sizes[i];
            FastCode(sizes, c, i) <==> Shl(Code(sizes, i), k) <= c < Shl(Code(sizes, i), k) + Pow2(k)
  {
    ShrIs(c, Code(sizes, i), 9 - sizes[i]);
  }

  /** The codes of l bits fit, and so do those of fewer bits. */
  ghost predicate FitUpto(sizes: seq<nat>, l: nat)
    requires ValidSizes(sizes)
  {
    forall g: nat :: Guard(g) ==> forall i | 0 <= i < |sizes| && sizes[i] <= l :: Code(sizes, i) < Pow2(sizes[i])
  }

  /** The symbols with codes of l bits are those between two counts. */
  lemma LevelSymbols(sizes: seq<nat>, l: nat)
    requires ValidSizes(sizes) && 1 <= l
    ensures var before, k := Upto(sizes, l - 1), Upto(sizes, l);
            before <= k && (forall i | before <= i < k :: sizes[i] == l) &&
            (before < |sizes| ==> (sizes[before] == l <==> before < k))
  {
    UptoIs(sizes, l - 1);
    UptoIs(sizes, l);
    var before, k := Upto(sizes, l - 1), Upto(sizes, l);
    assert k < |sizes| ==> (sizes[k] <= l - 1 <==> k < before);
  }

  /** Their codes count up to the next code. */
  lemma LevelCode(sizes: seq<nat>, l: nat, i: nat)
    requires ValidSizes(sizes) && 1 <= l <= 16 && Upto(sizes, l - 1) <= i < Upto(sizes, l)
    ensures sizes[i] == l && Code(sizes, i) < NextCode(sizes, Upto(sizes, l), l)
    ensures i + 1 == Upto(sizes, l) ==> NextCode(sizes, Upto(sizes, l), l) == Code(sizes, i) + 1
    ensures Code(sizes, i) == NextCode(sizes, Upto(sizes, l - 1), l) + (i - Upto(sizes, l - 1))
  {
    LevelSymbols(sizes, l);
    RunOfCodes(sizes, Upto(sizes, l - 1), i, l);
    RunOfCodes(sizes, Upto(sizes, l - 1), Upto(sizes, l), l);
  }

  /** All codes of l bits fit when the last one does. */
  lemma LastFits(sizes: seq<nat>, l: nat)
    requires ValidSizes(sizes) && 1 <= l <= 16 && FitUpto(sizes, l - 1)
    ensures var before, k := Upto(sizes, l - 1), Upto(sizes, l);
            FitUpto(sizes, l) <==> (before < k ==> NextCode(sizes, k, l) <= Pow2(l))
  {
    assert Guard(0);
    var before, k := Upto(sizes, l - 1), Upto(sizes, l);
    LevelSymbols(sizes, l);
    if before < k {
      LevelCode(sizes, l, k - 1);
    }
    if before < k ==> NextCode(sizes, k, l) <= Pow2(l) {
      forall i | 0 <= i < |sizes| && sizes[i] <= l ensures Code(sizes, i) < Pow2(sizes[i]) {
        UptoIs(sizes, l);
        UptoIs(sizes, l - 1);
        if before <= i {
          LevelCode(sizes, l, i);
        }
      }
    }
  }

  lemma NotFit(sizes: seq<nat>, l: nat)
    requires ValidSizes(sizes) && !FitUpto(sizes, l)
    ensures !CodesFit(sizes)
  {
    assert Guard(0);
  }

  lemma NoneUpto(sizes: seq<nat>)
    requires ValidSizes(sizes)
    ensures Upto(sizes, 0) == 0 && FitUpto(sizes, 0)
  {
  }

  lemma AllUpto(sizes: seq<nat>)
    requires ValidSizes(sizes)
    ensures Upto(sizes, 16) == |sizes| && (FitUpto(sizes, 16) <==> CodesFit(sizes))
  {
    assert Guard(0);
  }

  /** Entries j of maxcode and delta, for codes of j bits. */
  ghost predicate LevelIs(sizes: seq<nat>, j: nat, maxcode: nat, delta: int)
    requires ValidSizes(sizes) && 1 <= j <= 16
  {
    maxcode == End(sizes, Upto(sizes, j)) && delta == Upto(sizes, j - 1) - NextCode(sizes, Upto(sizes, j - 1), j)
  }

  class Huffman {
    var fast: seq<byte>
    var code: seq<nat>
    var values: seq<byte>
    var size: seq<nat>
    var maxcode: seq<nat>
    var delta: seq<int>

    ghost predicate Shape()
      reads this
    {
      |fast| == 512 && |code| == 256 && |values| == 256 && |size| == 257 && |maxcode| == 18 && |delta| == 17
    }

    constructor ()
      ensures Shape()
    {
      fast, code, values := seq(512, i => 0), seq(256, i => 0), seq(256, i => 0);
      size, maxcode, delta := seq(257, i => 0), seq(18, i => 0), seq(17, i => 0);
    }

    ghost predicate SizesAre(sizes: seq<nat>)
      reads this
    {
      Shape() && ValidSizes(sizes) && size[..|sizes|] == sizes && size[|sizes|] == 0
    }

    /** The size list, from the counts. */
    method BuildSizes(count: seq<nat>) returns (ok: bool, k: nat)
      requires Shape() && |count| == 16
      modifies this`size
      ensures ok <==> |SizeList(count, 16)| <= 256
      ensures ok ==> k == |SizeList(count, 16)| && SizesAre(SizeList(count, 16))
    {
      k := 0;
      ok := false;
      var i := 0;
      while i < 16
        invariant i <= 16 && |size| == 257 && k == |SizeList(count, i)| <= 256 && size[..k] == SizeList(count, i)
      {
        var j := 0;
        SizeListGrows(count, i + 1, 16);
        while j < count[i]
          invariant j <= count[i] && |size| == 257 && k == |SizeList(count, i)| + j <= 256
          invariant size[..k] == SizeList(count, i) + Repeated(i + 1, j)
        {
          size := size[k := i + 1];
          k := k + 1;
          j := j + 1;
          assert Repeated(i + 1, j) == Repeated(i + 1, j - 1) + [i + 1];
          if k >= 257 {
            return;
          }
        }
        i := i + 1;
      }
      size := size[k := 0];
      SizeListValid(count, 16);
      ok := true;
    }

    /** The codes below n are in place; codes that do not fit 16 bits are cut off. */
    ghost predicate CodesAre(sizes: seq<nat>, n: nat)
      reads this
    {
      SizesAre(sizes) && n <= |sizes| && forall g: nat :: Guard(g) ==> forall i | 0 <= i < n :: code[i] == Code(sizes, i) % 0x1_0000
    }

    /** Numbers the codes of j bits. */
    method NumberCodes(j: nat, k: nat, next: nat, ghost sizes: seq<nat>) returns (k': nat, next': nat)
      requires 1 <= j <= 16 && CodesAre(sizes, k) && k == Upto(sizes, j - 1) && next == NextCode(sizes, k, j)
      modifies this`code
      ensures k' == Upto(sizes, j) && CodesAre(sizes, k') && next' == NextCode(sizes, k', j)
    {
      k', next' := k, next;
      assert Guard(0);
      LevelSymbols(sizes, j);
      UptoIs(sizes, j);
      while size[k'] == j
        invariant k <= k' <= |sizes| && CodesAre(sizes, k')
        invariant forall i | k <= i < k' :: sizes[i] == j
        invariant next' == NextCode(sizes, k', j)
        decreases |sizes| - k'
      {
        assert k' < |sizes| && sizes[k'] == j;
        RunOfCodes(sizes, k', k', j);
        RunOfCodes(sizes, k', k' + 1, j);
        code := code[k' := next' % 0x1_0000];
        k', next' := k' + 1, next' + 1;
      }
      assert k' < |sizes| ==> size[k'] == sizes[k'];
    }

    /** Entries of maxcode and delta for codes of up to j bits. */
    ghost predicate LevelsAre(sizes: seq<nat>, j: nat)
      requires ValidSizes(sizes)
      reads this
    {
      Shape() && j <= 16 && forall g: nat :: Guard(g) ==> forall l | 1 <= l <= j :: LevelIs(sizes, l, maxcode[l], delta[l])
    }

    /** Everything is in place for codes of fewer than j bits; next is the next code. */
    ghost predicate Before(sizes: seq<nat>, j: nat, k: nat, next: nat)
      reads this
    {
      forall g: nat :: Guard(g) ==>
        1 <= j <= 17 && CodesAre(sizes, k) && k == Upto(sizes, j - 1) && next == NextCode(sizes, k, j) &&
        LevelsAre(sizes, j - 1) && FitUpto(sizes, j - 1)
    }

    /** The codes of j bits, and the entries of maxcode and delta for them. */
    method BuildLevel(j: nat, k: nat, next: nat, ghost sizes: seq<nat>) returns (ok: bool, k': nat, next': nat)
      requires 1 <= j <= 16 && CodesAre(sizes, k) && k == Upto(sizes, j - 1) && next == NextCode(sizes, k, j)
      requires LevelsAre(sizes, j - 1) && FitUpto(sizes, j - 1)
      modifies this`code, this`maxcode, this`delta
      ensures ok <==> FitUpto(sizes, j)
      ensures ok ==> k' == Upto(sizes, j) && CodesAre(sizes, k') && next' == NextCode(sizes, k', j + 1) && LevelsAre(sizes, j)
    {
      LastFits(sizes, j);
      LevelSymbols(sizes, j);
      ShlOne(j);
      delta := delta[j := k - next];
      k', next' := NumberCodes(j, k, next, sizes);
      assert k < |sizes| ==> size[k] == sizes[k];
      if size[k] == j && next' - 1 >= Shl(1, j) {
        return false, k', next';
      }
      maxcode := maxcode[j := Shl(next', 16 - j)];
      NextCodeScaled(sizes, k', j);
      assert LevelIs(sizes, j, maxcode[j], delta[j]);
      assert Guard(0);
      next' := 2 * next';
      ok := true;
    }

    method NextLevel(j: nat, k: nat, next: nat, ghost sizes: seq<nat>) returns (ok: bool, k': nat, next': nat)
      requires 1 <= j <= 16 && ValidSizes(sizes) && Before(sizes, j, k, next)
      modifies this`code, this`maxcode, this`delta
      ensures ok ==> Before(sizes, j + 1, k', next')
      ensures !ok ==> !CodesFit(sizes)
    {
      assert Guard(0);
      ok, k', next' := BuildLevel(j, k, next, sizes);
      if !ok {
        NotFit(sizes, j);
      }
    }

    lemma BeforeFirst(sizes: seq<nat>)
      requires SizesAre(sizes)
      ensures Before(sizes, 1, 0, 0)
    {
      NoneUpto(sizes);
    }

    lemma AfterLast(sizes: seq<nat>, k: nat, next: nat)
      requires ValidSizes(sizes) && Before(sizes, 17, k, next)
      ensures k == |sizes| && CodesFit(sizes) && CodesAre(sizes, k) && LevelsAre(sizes, 16)
    {
      assert Guard(0);
      AllUpto(sizes);
    }

    /** Codes and levels are complete. */
    ghost predicate CodesDone(sizes: seq<nat>, k: nat)
      reads this
    {
      forall g: nat :: Guard(g) ==>
        CodesAre(sizes, k) && k == |sizes| && CodesFit(sizes) && LevelsAre(sizes, 16) && maxcode[17] == 0xffff_ffff
    }

    /** The search for a length stops at 17 at the latest. */
    method EndLevels(ghost sizes: seq<nat>, ghost k: nat, ghost next: nat)
      requires ValidSizes(sizes) && Before(sizes, 17, k, next)
      modifies this`maxcode
      ensures CodesDone(sizes, k)
    {
      AfterLast(sizes, k, next);
      assert Guard(0);
      maxcode := maxcode[17 := 0xffff_ffff];
    }

    /** The codes, and per length the largest window and the offset from code to symbol. */
    method BuildCodes(ghost sizes: seq<nat>) returns (ok: bool, k: nat)
      requires SizesAre(sizes)
      modifies this`code, this`maxcode, this`delta
      ensures if ok then CodesDone(sizes, k) else !CodesFit(sizes)
    {
      var next: nat, j: nat := 0, 1;
      ok, k := true, 0;
      BeforeFirst(sizes);
      while ok && j <= 16
        invariant 1 <= j <= 17
        invariant if ok then Before(sizes, j, k, next) else !CodesFit(sizes)
      {
        ok, k, next := NextLevel(j, k, next, sizes);
        j := j + 1;
      }
      if ok {
        EndLevels(sizes, k, next);
      }
    }

    // ---- The fast table --------------------------------------------------------------------------------

    /** The nine-bit windows of the first n symbols. */
    ghost predicate FastAre(sizes: seq<nat>, n: nat)
      requires ValidSizes(sizes) && n <= |sizes|
      reads this
    {
      |fast| == 512 && forall g: nat :: Guard(g) ==> forall c | 0 <= c < 512 :: FastIs(sizes, n, c, fast[c])
    }

    method FillSlots(c: nat, m: nat, v: byte)
      requires |fast| == 512 && c + m <= 512
      modifies this`fast
      ensures |fast| == 512 && forall x | 0 <= x < 512 :: fast[x] == if c <= x < c + m then v else old(fast)[x]
    {
      for j := 0 to m
        invariant |fast| == 512 && forall x | 0 <= x < 512 :: fast[x] == if c <= x < c + j then v else old(fast)[x]
      {
        fast := fast[c + j := v];
      }
    }

    /** Symbol i takes the windows that start with its code, if it is short. */
    method AddFast(i: nat, ghost sizes: seq<nat>)
      requires CodesAre(sizes, |sizes|) && CodesFit(sizes) && i < |sizes| && FastAre(sizes, i)
      modifies this`fast
      ensures FastAre(sizes, i + 1)
    {
      assert Guard(0);
      var s := size[i];
      assert s == sizes[i];
      ghost var was := fast;
      if s <= FAST_BITS {
        CodeBelow(sizes, i);
        ShlOne(FAST_BITS - s);
        FastRoom(sizes, i);
        FillSlots(Shl(code[i], FAST_BITS - s), Shl(1, FAST_BITS - s), (i % 256) as byte);
      }
      forall c | 0 <= c < 512 ensures FastIs(sizes, i + 1, c, fast[c]) {
        if s <= FAST_BITS {
          FastRange(sizes, c, i);
        }
        FastMore(sizes, i, c, was[c], fast[c]);
      }
    }

    method BuildFast(k: nat, ghost sizes: seq<nat>)
      requires CodesAre(sizes, |sizes|) && CodesFit(sizes) && k == |sizes|
      modifies this`fast
      ensures FastAre(sizes, |sizes|)
    {
      fast := seq(512, i => 255);
      for i := 0 to k
        invariant FastAre(sizes, i)
      {
        AddFast(i, sizes);
      }
    }

    /** The tables of an accepted list of code lengths. */
    ghost predicate Tables(sizes: seq<nat>)
      reads this
    {
      SizesAre(sizes) && CodesFit(sizes) && FastAre(sizes, |sizes|) && LevelsAre(sizes, 16) && maxcode[17] == 0xffff_ffff
    }

    /** Accepts exactly the counts that stand for at most 256 codes all of which fit their lengths. */
    method Build(count: seq<nat>) returns (ok: bool)
      requires Shape() && |count| == 16
      modifies this
      ensures values == old(values)
      ensures var sizes := SizeList(count, 16);
              (ok <==> |sizes| <= 256 && ValidSizes(sizes) && CodesFit(sizes)) && (ok ==> Tables(sizes))
    {
      ghost var sizes := SizeList(count, 16);
      var k;
      ok, k := BuildSizes(count);
      if ok {
        ok, k := BuildCodes(sizes);
        if ok {
          assert Guard(0);
          BuildFast(k, sizes);
        }
      }
    }

    // ---- Decoding -----------------------------------------------------------------------------------------

    lemma LevelAt(sizes: seq<nat>, l: nat)
      requires ValidSizes(sizes) && LevelsAre(sizes, 16) && 1 <= l <= 16
      ensures LevelIs(sizes, l, maxcode[l], delta[l])
    {
      assert Guard(0);
    }

    /** The first length above nine whose codes reach beyond a window, or 17. */
    method FindLength(w: nat, ghost sizes: seq<nat>) returns (k: nat)
      requires ValidSizes(sizes) && LevelsAre(sizes, 16) && maxcode[17] == 0xffff_ffff && w < 0x1_0000
      ensures 10 <= k <= 17 && Past(sizes, w, k) && (k <= 16 ==> w < End(sizes, Upto(sizes, k)))
    {
      k := FAST_BITS + 1;
      while w >= maxcode[k]
        invariant 10 <= k <= 17 && Past(sizes, w, k)
        decreases 17 - k
      {
        LevelAt(sizes, k);
        k := k + 1;
      }
      if k <= 16 {
        LevelAt(sizes, k);
      }
    }

    /** The symbol of a 16-bit window and the length of its code, 17 if there is none. */
    method FindSymbol(w: nat, ghost sizes: seq<nat>) returns (i: int, len: nat)
      requires Tables(sizes) && w < 0x1_0000
      ensures Found(sizes, w, i, len)
    {
      assert Guard(0);
      var c := Shr(w, 16 - FAST_BITS);
      WindowBound(w);
      assert FastIs(sizes, |sizes|, c, fast[c]);
      i := fast[c] as int;
      if i < 255 {
        len := size[i];
        assert len == sizes[i];
        FastHit(sizes, w, i);
        return;
      }
      i, len := SlowSearch(w, sizes);
    }

    /** The search by length, for a window without a fast entry. */
    method SlowSearch(w: nat, ghost sizes: seq<nat>) returns (i: int, len: nat)
      requires ValidSizes(sizes) && LevelsAre(sizes, 16) && maxcode[17] == 0xffff_ffff && w < 0x1_0000
      requires FastIs(sizes, |sizes|, Shr(w, 7), 255)
      ensures Found(sizes, w, i, len)
    {
      len := FindLength(w, sizes);
      if len == 17 {
        MistakenLength(sizes, w, len);
        SlowMiss(sizes, w);
        return 255, len;
      }
      LevelAt(sizes, len);
      i := Shr(w, 16 - len) + delta[len];
      SlowFound(sizes, w, len);
    }
  }

  /** The symbol found for a window, and the number of bits to take; 17 if there is none. */
  ghost predicate Found(sizes: seq<nat>, w: nat, i: int, len: nat)
    requires ValidSizes(sizes)
  {
    if Mistaken(sizes, w) then i == MistakenSymbol(sizes, w) && len == 10
    else
      match Decode(sizes, w, |sizes|)
      case None => len == 17
      case Some(sym) => i == sym && len == sizes[sym]
  }

  /** The codes of ten to fewer than k bits end at or before a window. */
  ghost predicate Past(sizes: seq<nat>, w: nat, k: nat)
    requires ValidSizes(sizes)
  {
    forall l | 10 <= l < k :: w >= End(sizes, Upto(sizes, l))
  }

  /** Symbol 255 is the last of all codes that the slow search would have before those of ten bits. */
  lemma MistakenCode(sizes: seq<nat>, w: nat)
    requires ValidSizes(sizes) && Mistaken(sizes, w)
    ensures Shr(w, 6) + Upto(sizes, 9) - NextCode(sizes, Upto(sizes, 9), 10) == MistakenSymbol(sizes, w)
  {
    UptoIs(sizes, 9);
  }

  /** A mistaken window exists for every accepted table that is not regular. */
  lemma IrregularWindow(sizes: seq<nat>) returns (w: nat)
    requires ValidSizes(sizes) && CodesFit(sizes) && !Regular(sizes)
    ensures w < 0x1_0000 && Mistaken(sizes, w)
  {
    var c, l := Code(sizes, 255), sizes[255];
    FitsAt(sizes, 255);
    WindowFits(c, l, 16 - l);
    w := Shl(c, 16 - l);
  }

  lemma FitsAt(sizes: seq<nat>, i: nat)
    requires ValidSizes(sizes) && CodesFit(sizes) && i < |sizes|
    ensures Code(sizes, i) < Pow2(sizes[i])
  {
    assert Guard(0);
  }

  lemma WindowFits(c: nat, l: nat, k: nat)
    requires c < Pow2(l) && l + k == 16
    ensures Shl(c, k) < 0x1_0000 && Shr(Shl(c, k), k) == c
  {
    ShlBelow(c, l, k);
    Pow2Small();
    Join(0, c, k);
  }

  /** Exactly the tables that are not regular make the program read some window as another symbol, or take
      another number of bits for it, than Annex C says. */
  lemma MisreadsExactlyWhen(sizes: seq<nat>)
    requires ValidSizes(sizes) && CodesFit(sizes)
    ensures Regular(sizes) <==> forall w | 0 <= w < 0x1_0000 :: Read(sizes, w, true) == Read(sizes, w, false)
  {
    if !Regular(sizes) {
      var w := IrregularWindow(sizes);
      DecodeFinds(sizes, w, 255);
      assert Read(sizes, w, true) != Read(sizes, w, false);
    }
  }

  lemma {:induction false} EqualLengths(n: nat, l: nat, rest: seq<nat>, i: nat)
    requires ValidSizes(Repeated(l, n) + rest) && i < n
    ensures Code(Repeated(l, n) + rest, i) == i
    decreases i
  {
    if i > 0 {
      EqualLengths(n, l, rest, i - 1);
    }
  }

  /** 255 codes of eight bits and one of nine. */
  function ManyCodes(): (count: seq<nat>)
    ensures |count| == 16 && forall i | 0 <= i < 16 :: count[i] < 256
  {
    seq(16, i => if i == 7 then 255 else if i == 8 then 1 else 0)
  }

  lemma {:induction false} ManySizes(n: nat)
    requires n <= 16
    ensures SizeList(ManyCodes(), n) == if n <= 7 then [] else if n == 8 then Repeated(8, 255) else Repeated(8, 255) + [9]
    decreases n
  {
    if n > 0 {
      ManySizes(n - 1);
    }
  }

  lemma ManyValid(sizes: seq<nat>, n: nat)
    requires n == 255 && sizes == Repeated(8, n) + [9]
    ensures ValidSizes(sizes)
  {
    forall i, j | 0 <= i < j < |sizes| ensures sizes[i] <= sizes[j] {
    }
  }

  lemma ManyCode(sizes: seq<nat>, n: nat, i: nat)
    requires n == 255 && sizes == Repeated(8, n) + [9] && i <= n && ValidSizes(sizes)
    ensures Code(sizes, i) == if i < n then i else 510
  {
    EqualLengths(n, 8, [9], if i < n then i else n - 1);
    var one := 1;
    assert Shl(n, one) == 510;
  }

  lemma ManyFit(sizes: seq<nat>, n: nat)
    requires n == 255 && sizes == Repeated(8, n) + [9]
    ensures ValidSizes(sizes) && CodesFit(sizes) && Code(sizes, 255) == 510
  {
    ManyValid(sizes, n);
    Pow2Small();
    forall i | 0 <= i < |sizes| ensures Code(sizes, i) < Pow2(sizes[i]) {
      ManyCode(sizes, n, i);
    }
    ManyCode(sizes, n, n);
  }

  lemma TheWindow(seven: nat, six: nat)
    requires seven == 7 && six == 6
    ensures Shr(0xFF00, seven) == 510 && Shr(0xFF00, six) == 1020
  {
    assert Shr(0x7F8, six - 5) == 1020;
    assert Shr(0xFF0, six - 4) == 1020;
    assert Shr(0x1FE0, six - 3) == 1020;
    assert Shr(0x3FC0, six - 2) == 1020;
    assert Shr(0x7F80, six - 1) == 1020;
    assert Shr(0x7F80, seven - 1) == Shr(0xFF00, seven);
    ShrShr(0xFF00, six, 1);
  }

  lemma ManyMisread(sizes: seq<nat>, w: nat)
    requires ValidSizes(sizes) && |sizes| == 256 && sizes[255] == 9 && Code(sizes, 255) == 510 && w == 0xFF00
    ensures Mistaken(sizes, w) && Read(sizes, w, true) == Some(Reading(254, 10)) && Read(sizes, w, false) == Some(Reading(255, 9))
  {
    TheWindow(7, 6);
    var one := 1;
    assert Shl(511, one) == 1022;
    DecodeFinds(sizes, w, 255);
  }

  /** A table segment, whose counts are bytes, can stand for such codes: they are accepted, and in the window
      0xFF00 the program reads symbol 254 and takes ten bits where the code is that of symbol 255 and has nine. */
  lemma MistakenTable()
    ensures var sizes := SizeList(ManyCodes(), 16);
            |sizes| == 256 && ValidSizes(sizes) && CodesFit(sizes) && Mistaken(sizes, 0xFF00) &&
            Read(sizes, 0xFF00, true) == Some(Reading(254, 10)) && Read(sizes, 0xFF00, false) == Some(Reading(255, 9))
  {
    var w, n := 0xFF00, 255;
    ManySizes(16);
    var sizes := Repeated(8, n) + [9];
    ManyFit(sizes, n);
    ManyMisread(sizes, w);
  }

  lemma WindowBound(w: nat)
    requires w < 0x1_0000
    ensures Shr(w, 7) < 512
  {
    var seven := 7;
    assert Shl(512, seven) == 0x1_0000;
    ShlZero(seven);
    ShrRange(w, seven, 0, 512);
  }

  lemma FastWindow(sizes: seq<nat>, w: nat, i: nat)
    requires ValidSizes(sizes) && i < |sizes| && sizes[i] <= 9
    ensures FastCode(sizes, Shr(w, 7), i) <==> StartsWith(sizes, w, i)
  {
    ShrShr(w, 7, 9 - sizes[i]);
  }

  /** A fast entry is the symbol of the window. */
  lemma FastHit(sizes: seq<nat>, w: nat, i: nat)
    requires ValidSizes(sizes) && i < |sizes| && i < 255 && FastCode(sizes, Shr(w, 7), i)
    ensures Decode(sizes, w, |sizes|) == Some(i) && !Mistaken(sizes, w)
  {
    FastWindow(sizes, w, i);
    DecodeFinds(sizes, w, i);
    if Mistaken(sizes, w) {
      PrefixFree(sizes, w, i, 255);
    }
  }

  /** A window without a fast entry lies past all codes of at most nine bits. */
  lemma PastFast(sizes: seq<nat>, w: nat)
    requires ValidSizes(sizes) && FastIs(sizes, |sizes|, Shr(w, 7), 255) && !Mistaken(sizes, w)
    ensures w >= End(sizes, Upto(sizes, 9))
  {
    var nine := 9;
    var n := Upto(sizes, nine);
    DecodeIs(sizes, w, n);
    var r := Decode(sizes, w, n);
    if r.Some? {
      UptoIs(sizes, nine);
      FastWindow(sizes, w, r.value);
    }
  }

  /** The window's symbol is one of the codes of k bits. */
  lemma SlowSymbol(sizes: seq<nat>, w: nat, k: nat) returns (i: nat)
    requires ValidSizes(sizes) && FastIs(sizes, |sizes|, Shr(w, 7), 255) && !Mistaken(sizes, w) && 10 <= k <= 16
    requires w < End(sizes, Upto(sizes, k)) && Past(sizes, w, k)
    ensures Upto(sizes, k - 1) <= i < Upto(sizes, k) && StartsWith(sizes, w, i)
  {
    PastFast(sizes, w);
    assert w >= End(sizes, Upto(sizes, k - 1));
    DecodeIs(sizes, w, Upto(sizes, k));
    i := Decode(sizes, w, Upto(sizes, k)).value;
    if i < Upto(sizes, k - 1) {
      StartsWithIs(sizes, w, i);
      EndMono(sizes, i + 1, Upto(sizes, k - 1));
    }
  }

  /** The slow search finds the symbol of the window. */
  lemma SlowHit(sizes: seq<nat>, w: nat, k: nat)
    requires ValidSizes(sizes) && FastIs(sizes, |sizes|, Shr(w, 7), 255) && !Mistaken(sizes, w) && 10 <= k <= 16
    requires w < End(sizes, Upto(sizes, k)) && Past(sizes, w, k)
    ensures var i := Shr(w, 16 - k) + Upto(sizes, k - 1) - NextCode(sizes, Upto(sizes, k - 1), k);
            Decode(sizes, w, |sizes|) == Some(i) && sizes[i] == k
  {
    var i := SlowSymbol(sizes, w, k);
    LevelCode(sizes, k, i);
    DecodeFinds(sizes, w, i);
  }

  lemma SlowFound(sizes: seq<nat>, w: nat, k: nat)
    requires ValidSizes(sizes) && FastIs(sizes, |sizes|, Shr(w, 7), 255) && 10 <= k <= 16
    requires w < End(sizes, Upto(sizes, k)) && Past(sizes, w, k)
    ensures Found(sizes, w, Shr(w, 16 - k) + Upto(sizes, k - 1) - NextCode(sizes, Upto(sizes, k - 1), k), k)
  {
    MistakenLength(sizes, w, k);
    if Mistaken(sizes, w) {
      MistakenCode(sizes, w);
    } else {
      SlowHit(sizes, w, k);
    }
  }

  lemma SlowMiss(sizes: seq<nat>, w: nat)
    requires ValidSizes(sizes) && Past(sizes, w, 17)
    ensures Decode(sizes, w, |sizes|) == None
  {
    AllUpto(sizes);
    assert w >= End(sizes, Upto(sizes, 16));
    DecodeIs(sizes, w, |sizes|);
  }

  lemma MistakenLength(sizes: seq<nat>, w: nat, k: nat)
    requires ValidSizes(sizes) && 10 <= k <= 17 && Past(sizes, w, k)
    ensures Mistaken(sizes, w) ==> k == 10
  {
    if Mistaken(sizes, w) {
      StartsWithIs(sizes, w, 255);
      UptoIs(sizes, 10);
      assert w < End(sizes, Upto(sizes, 10));
    }
  }

  lemma CodeBelow(sizes: seq<nat>, i: nat)
    requires ValidSizes(sizes) && CodesFit(sizes) && i < |sizes|
    ensures Code(sizes, i) % 0x1_0000 == Code(sizes, i)
  {
    assert Guard(0);
    CodeFits(Code(sizes, i), sizes[i], 16);
  }

  lemma CodeFits(c: nat, l: nat, n: nat)
    requires c < Pow2(l) && l <= n == 16
    ensures c < 0x1_0000 && c % 0x1_0000 == c
  {
    Pow2Mono(l, n);
    Pow2Small();
  }

  lemma FastRoom(sizes: seq<nat>, i: nat)
    requires ValidSizes(sizes) && CodesFit(sizes) && i < |sizes| && sizes[i] <= 9
    ensures Shl(Code(sizes, i), 9 - sizes[i]) + Pow2(9 - sizes[i]) <= 512
  {
    assert Guard(0);
    var k := 9 - sizes[i];
    ShlStrict(Code(sizes, i), Pow2(sizes[i]), k);
    ShlOne(sizes[i]);
    ShlShl(1, sizes[i], k);
    ShlOne(sizes[i] + k);
    Pow2Small();
  }

  /** An entry after one more symbol. */
  lemma FastMore(sizes: seq<nat>, i: nat, c: nat, was: byte, now: byte)
    requires ValidSizes(sizes) && i < |sizes| && FastIs(sizes, i, c, was)
    requires now == if FastCode(sizes, c, i) then (i % 256) as byte else was
    ensures FastIs(sizes, i + 1, c, now)
  {
    if FastCode(sizes, c, i) {
      forall k | 0 <= k < i + 1 && k < 255 && now == 255 ensures !FastCode(sizes, c, k) {
        if FastCode(sizes, c, k) {
          FastCodeUnique(sizes, c, i, k);
        }
      }
    }
  }
}
