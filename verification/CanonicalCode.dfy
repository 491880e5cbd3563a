/** The canonical Huffman code of section 3.2.2 of RFC 1951, as an independent reference:
    a code is a list of code lengths, and everything else follows from it. */
module CanonicalCode {
  import opened Bits
  import opened Options

  /** What the decoder ever passes: at most 288 symbols, lengths of at most 15 bits. */
  ghost predicate ValidLens(lens: seq<nat>) {
    |lens| <= 288 && forall i | 0 <= i < |lens| :: lens[i] <= 15
  }

  /** The number of codes of length l: bl_count in the RFC. */
  function Count(lens: seq<nat>, l: nat): (n: nat)
    ensures n <= |lens|
  {
    if lens == [] then 0
    else Count(lens[..|lens| - 1], l) + if lens[|lens| - 1] == l then 1 else 0
  }

  /** next_code in the RFC: the smallest code of length l. */
  function First(lens: seq<nat>, l: nat): nat
    decreases l, 0
  {
    if l == 0 then 0 else 2 * End(lens, l - 1)
  }

  /** One past the largest code of length l; unused symbols (length 0) have no code. */
  function End(lens: seq<nat>, l: nat): nat
    decreases l, 1
  {
    First(lens, l) + if l == 0 then 0 else Count(lens, l)
  }

  /** Codes of one length are consecutive, in symbol order. */
  function Code(lens: seq<nat>, sym: nat): nat
    requires sym < |lens|
  {
    First(lens, lens[sym]) + Count(lens[..sym], lens[sym])
  }

  /** The Kraft sum over the codes of at most l bits, in units of 2^-l. */
  function KraftSum(lens: seq<nat>, l: nat): nat
    decreases |lens|
  {
    if lens == [] then 0
    else
      var x := lens[|lens| - 1];
      KraftSum(lens[..|lens| - 1], l) + if 0 < x <= l then Pow2(l - x) else 0
  }

  /** The lengths are those of a prefix code, complete or not. */
  ghost predicate Kraft(lens: seq<nat>) {
    KraftSum(lens, 15) <= Pow2(15)
  }

  /** The code of sym is the next bits of the stream at position p. */
  ghost predicate Matches(lens: seq<nat>, data: seq<byte>, p: nat, sym: nat) {
    sym < |lens| && lens[sym] > 0 && MsbVal(data, p, lens[sym]) == Code(lens, sym)
  }

  /** The symbol whose code is next in the stream, if any. */
  ghost function DecodeSym(lens: seq<nat>, data: seq<byte>, p: nat): (r: Option<nat>)
    ensures r.Some? ==> r.value < |lens|
  {
    FindMatch(lens, data, p, |lens|)
  }

  /** Searches the symbols below n. */
  ghost function FindMatch(lens: seq<nat>, data: seq<byte>, p: nat, n: nat): (r: Option<nat>)
    requires n <= |lens|
    ensures r.Some? ==> r.value < n
  {
    if n == 0 then None
    else if Matches(lens, data, p, n - 1) then Some(n - 1)
    else FindMatch(lens, data, p, n - 1)
  }

  // ---- Counting -------------------------------------------------------------------------------

  lemma CountSnoc(lens: seq<nat>, x: nat, l: nat)
    ensures Count(lens + [x], l) == Count(lens, l) + if x == l then 1 else 0
  {
    assert (lens + [x])[..|lens|] == lens;
  }

  lemma {:induction false} CountPrefix(lens: seq<nat>, i: nat, l: nat)
    requires i < |lens|
    ensures Count(lens[..i], l) + (if lens[i] == l then 1 else 0) == Count(lens[..i + 1], l)
    ensures Count(lens[..i + 1], l) <= Count(lens, l)
    decreases |lens|
  {
    assert lens[..i + 1] == lens[..i] + [lens[i]];
    CountSnoc(lens[..i], lens[i], l);
    if i + 1 < |lens| {
      var front := lens[..|lens| - 1];
      CountPrefix(front, i, l);
      assert front[..i] == lens[..i] && front[..i + 1] == lens[..i + 1];
    } else {
      assert lens[..i + 1] == lens;
    }
  }

  /** Among the symbols of one length, the rank determines the symbol. */
  lemma RankInjective(lens: seq<nat>, a: nat, b: nat)
    requires a < |lens| && b < |lens| && lens[a] == lens[b]
    requires Count(lens[..a], lens[a]) == Count(lens[..b], lens[a])
    ensures a == b
  {
    if a < b {
      RankStrict(lens, a, b);
    } else if b < a {
      RankStrict(lens, b, a);
    }
  }

  lemma RankStrict(lens: seq<nat>, a: nat, b: nat)
    requires a < b < |lens|
    ensures Count(lens[..a], lens[a]) < Count(lens[..b], lens[a])
  {
    var front := lens[..b];
    CountPrefix(front, a, lens[a]);
    assert front[..a] == lens[..a];
  }

  /** Every rank below the count belongs to a symbol. */
  lemma {:induction false} SymbolOfRank(lens: seq<nat>, l: nat, r: nat) returns (sym: nat)
    requires r < Count(lens, l)
    ensures sym < |lens| && lens[sym] == l && Count(lens[..sym], l) == r
  {
    var n := |lens| - 1;
    if lens[n] == l && r == Count(lens[..n], l) {
      sym := n;
    } else {
      sym := SymbolOfRank(lens[..n], l, r);
      assert lens[..n][..sym] == lens[..sym];
    }
  }

  // ---- The Kraft sum and the code ranges ------------------------------------------------------

  lemma {:induction false} EndSnoc(lens: seq<nat>, x: nat, l: nat)
    ensures End(lens + [x], l) == End(lens, l) + if 0 < x <= l then Pow2(l - x) else 0
  {
    CountSnoc(lens, x, l);
    if l > 0 {
      EndSnoc(lens, x, l - 1);
    }
  }

  /** The Kraft sum is where the codes of length l end. */
  lemma {:induction false} KraftIsEnd(lens: seq<nat>, l: nat)
    ensures KraftSum(lens, l) == End(lens, l)
    decreases |lens|
  {
    if lens == [] {
      EndEmpty(l);
    } else {
      var front := lens[..|lens| - 1];
      assert lens == front + [lens[|lens| - 1]];
      KraftIsEnd(front, l);
      EndSnoc(front, lens[|lens| - 1], l);
    }
  }

  lemma {:induction false} EndEmpty(l: nat)
    ensures End([], l) == 0
  {
    if l > 0 {
      EndEmpty(l - 1);
    }
  }

  /** Longer codes start after the shorter ones, scaled to their length. */
  lemma {:induction false} EndMono(lens: seq<nat>, l: nat, m: nat)
    requires l <= m
    ensures Shl(End(lens, l), m - l) <= End(lens, m)
    decreases m
  {
    if l < m {
      EndMono(lens, l, m - 1);
    }
  }

  lemma KraftBoundsEnd(lens: seq<nat>, l: nat)
    requires l <= 15
    ensures Kraft(lens) ==> End(lens, l) <= Pow2(l)
  {
    var top := 15;
    KraftIsEnd(lens, top);
    EndMono(lens, l, top);
    if End(lens, l) > Pow2(l) {
      ShlOne(l);
      ShlOne(top);
      ShlShl(1, l, top - l);
      ShlStrict(Pow2(l), End(lens, l), top - l);
    }
  }

  lemma CodeRange(lens: seq<nat>, sym: nat)
    requires sym < |lens| && lens[sym] > 0
    ensures First(lens, lens[sym]) <= Code(lens, sym) < End(lens, lens[sym])
  {
    CountPrefix(lens, sym, lens[sym]);
  }

  lemma CodeBound(lens: seq<nat>, sym: nat)
    requires sym < |lens| && 0 < lens[sym] <= 15 && Kraft(lens)
    ensures Code(lens, sym) < Pow2(lens[sym])
  {
    CodeRange(lens, sym);
    KraftBoundsEnd(lens, lens[sym]);
  }

  // ---- Prefix freedom -------------------------------------------------------------------------

  /** Two symbols never match the same bits; in particular no code is a prefix of another. */
  lemma MatchUnique(lens: seq<nat>, data: seq<byte>, p: nat, a: nat, b: nat)
    requires Matches(lens, data, p, a) && Matches(lens, data, p, b)
    ensures a == b
  {
    if lens[a] < lens[b] {
      LongerCode(lens, data, p, a, b);
    } else if lens[b] < lens[a] {
      LongerCode(lens, data, p, b, a);
    } else {
      RankInjective(lens, a, b);
    }
  }

  lemma FirstAbove(lens: seq<nat>, s: nat, l: nat)
    requires s < l
    ensures Shl(End(lens, s), l - s) <= First(lens, l)
  {
    EndMono(lens, s, l - 1);
  }

  lemma LongerCode(lens: seq<nat>, data: seq<byte>, p: nat, a: nat, b: nat)
    requires Matches(lens, data, p, a) && Matches(lens, data, p, b)
    ensures lens[a] >= lens[b]
  {
    if lens[a] < lens[b] {
      PrefixRange(lens, data, p, lens[b], a);
      CodeRange(lens, b);
      FirstAbove(lens, lens[a], lens[b]);
    }
  }

  /** A matching code of at most n bits confines the window of n bits to its range. */
  lemma PrefixRange(lens: seq<nat>, data: seq<byte>, p: nat, n: nat, sym: nat)
    requires Matches(lens, data, p, sym) && lens[sym] <= n
    ensures Shl(First(lens, lens[sym]), n - lens[sym]) <= MsbVal(data, p, n) < Shl(End(lens, lens[sym]), n - lens[sym])
  {
    var k := n - lens[sym];
    MsbPrefix(data, p, n, lens[sym]);
    ShrBounds(MsbVal(data, p, n), k);
    CodeRange(lens, sym);
    ShlStrict(Code(lens, sym), End(lens, lens[sym]), k);
    ShlMono(First(lens, lens[sym]), Code(lens, sym), k);
  }

  lemma DecodeIs(lens: seq<nat>, data: seq<byte>, p: nat, sym: nat)
    requires Matches(lens, data, p, sym)
    ensures DecodeSym(lens, data, p) == Some(sym)
  {
    FindMatchIs(lens, data, p, |lens|, sym);
  }

  lemma {:induction false} FindMatchIs(lens: seq<nat>, data: seq<byte>, p: nat, n: nat, sym: nat)
    requires sym < n <= |lens| && Matches(lens, data, p, sym)
    ensures FindMatch(lens, data, p, n) == Some(sym)
  {
    if Matches(lens, data, p, n - 1) {
      MatchUnique(lens, data, p, n - 1, sym);
    } else {
      FindMatchIs(lens, data, p, n - 1, sym);
    }
  }

  /** DecodeSym finds a symbol whose code is next exactly when there is one. */
  lemma {:induction false} FindMatchNone(lens: seq<nat>, data: seq<byte>, p: nat, n: nat)
    requires n <= |lens|
    ensures FindMatch(lens, data, p, n) == None <==> forall sym: nat | sym < n :: !Matches(lens, data, p, sym)
    ensures FindMatch(lens, data, p, n).Some? ==> Matches(lens, data, p, FindMatch(lens, data, p, n).value)
  {
    if n > 0 {
      FindMatchNone(lens, data, p, n - 1);
    }
  }

  // ---- Locating a code by its range -----------------------------------------------------------

  /** A window of n bits whose value lies in the range of the codes of length l starts with one. */
  lemma Locate(lens: seq<nat>, data: seq<byte>, p: nat, n: nat, l: nat) returns (sym: nat)
    requires 0 < l <= n
    requires Shl(First(lens, l), n - l) <= MsbVal(data, p, n) < Shl(End(lens, l), n - l)
    ensures Matches(lens, data, p, sym) && lens[sym] == l
    ensures Count(lens[..sym], l) == Shr(MsbVal(data, p, n), n - l) - First(lens, l)
  {
    var k := MsbVal(data, p, n);
    MsbPrefix(data, p, n, l);
    ShrRange(k, n - l, First(lens, l), End(lens, l));
    sym := SymbolOfRank(lens, l, Shr(k, n - l) - First(lens, l));
  }

  /** If no code of length at most l matches, the window lies past all of them. */
  lemma {:induction false} NoShortMatch(lens: seq<nat>, data: seq<byte>, p: nat, n: nat, l: nat)
    requires l <= n
    requires forall sym: nat :: Matches(lens, data, p, sym) ==> lens[sym] > l
    ensures Shl(End(lens, l), n - l) <= MsbVal(data, p, n)
    decreases l
  {
    if l == 0 {
      ShlZero(n);
    } else {
      NoShortMatch(lens, data, p, n, l - 1);
      FirstScaled(lens, l, n);
      if MsbVal(data, p, n) < Shl(End(lens, l), n - l) {
        var sym := Locate(lens, data, p, n, l);
        assert false;
      }
    }
  }

  lemma FirstScaled(lens: seq<nat>, l: nat, n: nat)
    requires 0 < l <= n
    ensures Shl(First(lens, l), n - l) == Shl(End(lens, l - 1), n - (l - 1))
  {
    ShlShl(End(lens, l - 1), 1, n - l);
    DoubleShl(End(lens, l - 1));
  }

  /** Conversely a window past all codes of length at most l matches none of them. */
  lemma PastAllCodes(lens: seq<nat>, data: seq<byte>, p: nat, n: nat, l: nat, sym: nat)
    requires l <= n && Shl(End(lens, l), n - l) <= MsbVal(data, p, n)
    requires Matches(lens, data, p, sym)
    ensures lens[sym] > l
  {
    var s := lens[sym];
    if s <= l {
      PrefixRange(lens, data, p, n, sym);
      EndScaled(lens, s, l, n);
    }
  }

  lemma EndScaled(lens: seq<nat>, s: nat, l: nat, n: nat)
    requires s <= l <= n
    ensures Shl(End(lens, s), n - s) <= Shl(End(lens, l), n - l)
  {
    EndMono(lens, s, l);
    ShlMono(Shl(End(lens, s), l - s), End(lens, l), n - l);
    ShlShl(End(lens, s), l - s, n - l);
  }
}
