/** What a compressor sends in a block, literals and matches in the block's codes; and that inflating gives back what
    it stands for. */
module InflateEncode {
  import opened Bits
  import opened BitStrings
  import opened CanonicalCode
  import opened Folding
  import opened InflateSpec
  import opened Options

  /** A byte, or a copy: its length and distance as the symbols of section 3.2.5 of RFC 1951 and their extra bits. */
  datatype Token = Literal(b: byte) | Match(len: nat, lenExtra: nat, dist: nat, distExtra: nat)

  function MatchLength(t: Token): nat
    requires t.Match?
  {
    LengthBase(t.len) + t.lenExtra
  }

  function MatchDistance(t: Token): (d: nat)
    requires t.Match?
    ensures d >= 1
  {
    DistPositive(t.dist);
    DistBase(t.dist) + t.distExtra
  }

  /** The symbol has a code. */
  predicate HasCode(lens: seq<nat>, sym: nat) {
    sym < |lens| && lens[sym] > 0
  }

  predicate Sendable(lit: seq<nat>, dist: seq<nat>, t: Token) {
    match t
    case Literal(b) => HasCode(lit, b as nat)
    case Match(len, lx, d, dx) =>
      len <= 28 && lx < Pow2(LengthExtra(len)) && HasCode(lit, 257 + len) &&
      d < 30 && dx < Pow2(DistExtra(d)) && HasCode(dist, d)
  }

  predicate AllSendable(lit: seq<nat>, dist: seq<nat>, tokens: seq<Token>) {
    HasCode(lit, 256) && forall i | 0 <= i < |tokens| :: Sendable(lit, dist, tokens[i])
  }

  /** What tokens stand for, behind what is there; a copy may not reach back beyond the start. */
  function Expand(out: seq<byte>, tokens: seq<Token>): Option<seq<byte>>
    decreases |tokens|
  {
    if tokens == [] then Some(out)
    else
      match tokens[0]
      case Literal(b) => Expand(out + [b], tokens[1..])
      case Match(_, _, _, _) =>
        if MatchDistance(tokens[0]) > |out| then None
        else Expand(CopyMatch(out, MatchDistance(tokens[0]), MatchLength(tokens[0])), tokens[1..])
  }

  /** Expanding only adds to what is there. */
  lemma {:induction false} ExpandGrows(out: seq<byte>, tokens: seq<Token>)
    ensures Expand(out, tokens).Some? ==> |out| <= |Expand(out, tokens).value|
    decreases |tokens|
  {
    if tokens != [] {
      match tokens[0] {
        case Literal(b) => ExpandGrows(out + [b], tokens[1..]);
        case Match(_, _, _, _) =>
          if MatchDistance(tokens[0]) <= |out| {
            ExpandGrows(CopyMatch(out, MatchDistance(tokens[0]), MatchLength(tokens[0])), tokens[1..]);
          }
      }
    }
  }

  // ---- Bits --------------------------------------------------------------------------------------------

  function SymbolBits(lens: seq<nat>, sym: nat): BitString
    requires HasCode(lens, sym)
  {
    MsbBits(Code(lens, sym), lens[sym])
  }

  function TokenBits(lit: seq<nat>, dist: seq<nat>, t: Token): BitString
    requires Sendable(lit, dist, t)
  {
    match t
    case Literal(b) => SymbolBits(lit, b as nat)
    case Match(len, lx, d, dx) =>
      SymbolBits(lit, 257 + len) + (BitsOf(lx, LengthExtra(len)) + (SymbolBits(dist, d) + BitsOf(dx, DistExtra(d))))
  }

  function BlockBits(lit: seq<nat>, dist: seq<nat>, tokens: seq<Token>): BitString
    requires AllSendable(lit, dist, tokens)
  {
    if tokens == [] then SymbolBits(lit, 256)
    else TokenBits(lit, dist, tokens[0]) + BlockBits(lit, dist, tokens[1..])
  }

  /** The codes of a block: prefix codes of at most 15 bits. */
  ghost predicate Usable(lens: seq<nat>) {
    ValidLens(lens) && Kraft(lens)
  }

  lemma SymbolStands(lens: seq<nat>, data: seq<byte>, pos: nat, sym: nat)
    requires Usable(lens) && HasCode(lens, sym) && Stands(data, pos, SymbolBits(lens, sym))
    ensures DecodeSym(lens, data, pos) == Some(sym)
  {
    CodeBound(lens, sym);
    MsbBitsHold(data, pos, Code(lens, sym), lens[sym]);
    DecodeIs(lens, data, pos, sym);
  }

  lemma LiteralStands(lit: seq<nat>, dist: seq<nat>, data: seq<byte>, pos: nat, b: byte, out: seq<byte>, cap: nat)
    requires Usable(lit) && HasCode(lit, b as nat) && Stands(data, pos, SymbolBits(lit, b as nat)) && |out| < cap
    ensures SymbolStep(lit, dist, data, pos, out, cap) == Next(out + [b], pos + lit[b as nat])
  {
    SymbolStands(lit, data, pos, b as nat);
  }

  lemma DistanceStands(dist: seq<nat>, data: seq<byte>, pos: nat, d: nat, dx: nat, r: nat, next: nat)
    requires Usable(dist) && d < 30 && dx < Pow2(DistExtra(d)) && HasCode(dist, d)
    requires r == pos + dist[d] && next == r + DistExtra(d)
    requires Stands(data, pos, SymbolBits(dist, d)) && Stands(data, r, BitsOf(dx, DistExtra(d)))
    ensures ReadDistance(dist, data, pos) == Some(Number(DistBase(d) + dx, next))
  {
    SymbolStands(dist, data, pos, d);
    DistanceValueStands(data, r, d, dx, next);
    DistanceSymbol(dist, data, pos, d, r, Number(DistBase(d) + dx, next));
  }

  lemma DistanceValueStands(data: seq<byte>, r: nat, d: nat, dx: nat, next: nat)
    requires dx < Pow2(DistExtra(d)) && next == r + DistExtra(d) && Stands(data, r, BitsOf(dx, DistExtra(d)))
    ensures DistanceValue(data, r, d) == Number(DistBase(d) + dx, next)
  {
    BitsHold(data, r, dx, DistExtra(d));
  }

  lemma DistanceSymbol(dist: seq<nat>, data: seq<byte>, pos: nat, d: nat, r: nat, value: Number)
    requires d < 30 && DecodeSym(dist, data, pos) == Some(d) && r == pos + dist[d] && DistanceValue(data, r, d) == value
    ensures ReadDistance(dist, data, pos) == Some(value)
  {
  }

  lemma LengthStands(data: seq<byte>, pos: nat, z: nat, lx: nat, q: nat)
    requires lx < Pow2(LengthExtra(z)) && Stands(data, pos, BitsOf(lx, LengthExtra(z))) && q == pos + LengthExtra(z)
    ensures LengthValue(data, pos, z) == Number(LengthBase(z) + lx, q)
  {
    BitsHold(data, pos, lx, LengthExtra(z));
  }

  /** Where the four parts of a match stand. */
  lemma MatchSplits(lit: seq<nat>, dist: seq<nat>, data: seq<byte>, pos: nat, t: Token) returns (p: nat, q: nat, r: nat)
    requires t.Match? && Sendable(lit, dist, t) && Stands(data, pos, TokenBits(lit, dist, t))
    ensures p == pos + lit[257 + t.len] && q == p + LengthExtra(t.len) && r == q + dist[t.dist]
    ensures r + DistExtra(t.dist) == pos + |TokenBits(lit, dist, t)|
    ensures Stands(data, pos, SymbolBits(lit, 257 + t.len)) && Stands(data, p, BitsOf(t.lenExtra, LengthExtra(t.len)))
    ensures Stands(data, q, SymbolBits(dist, t.dist)) && Stands(data, r, BitsOf(t.distExtra, DistExtra(t.dist)))
  {
    var s, x := SymbolBits(lit, 257 + t.len), BitsOf(t.lenExtra, LengthExtra(t.len));
    var e, y := SymbolBits(dist, t.dist), BitsOf(t.distExtra, DistExtra(t.dist));
    p, q, r := pos + |s|, pos + |s| + |x|, pos + |s| + |x| + |e|;
    StandsSplit(data, pos, s, x + (e + y));
    StandsSplit(data, p, x, e + y);
    StandsSplit(data, q, e, y);
  }

  lemma LengthSymbol(lit: seq<nat>, dist: seq<nat>, data: seq<byte>, pos: nat, z: nat, p: nat, out: seq<byte>, cap: nat)
    requires z <= 28 && DecodeSym(lit, data, pos) == Some(257 + z) && p == pos + lit[257 + z]
    ensures SymbolStep(lit, dist, data, pos, out, cap) == LengthStep(dist, data, p, z, out, cap)
  {
  }

  lemma LengthThenCopy(dist: seq<nat>, data: seq<byte>, p: nat, z: nat, len: Number, out: seq<byte>, cap: nat)
    requires LengthValue(data, p, z) == len
    ensures LengthStep(dist, data, p, z, out, cap) == CopyStep(dist, data, len.pos, len.value, out, cap)
  {
  }

  lemma DistanceThenCopy(dist: seq<nat>, data: seq<byte>, q: nat, len: nat, d: Number, out: seq<byte>, cap: nat)
    requires ReadDistance(dist, data, q) == Some(d) && 1 <= d.value <= |out| && |out| + len <= cap
    ensures CopyStep(dist, data, q, len, out, cap) == Next(CopyMatch(out, d.value, len), d.pos)
  {
  }

  /** A symbol at pos does this, folded. */
  ghost predicate Does(lit: seq<nat>, dist: seq<nat>, data: seq<byte>, pos: nat, out: seq<byte>, cap: nat, r: Step) {
    forall k: nat :: Guard(k) ==> SymbolStep(lit, dist, data, pos, out, cap) == r
  }

  lemma LengthDoes(lit: seq<nat>, dist: seq<nat>, data: seq<byte>, pos: nat, z: nat, p: nat, out: seq<byte>, cap: nat)
    requires z <= 28 && DecodeSym(lit, data, pos) == Some(257 + z) && p == pos + lit[257 + z]
    ensures Does(lit, dist, data, pos, out, cap, LengthStep(dist, data, p, z, out, cap))
  {
    LengthSymbol(lit, dist, data, pos, z, p, out, cap);
  }

  /** A length symbol, a length and a distance, one after the other, make a copy. */
  lemma CopyStands(lit: seq<nat>, dist: seq<nat>, data: seq<byte>, pos: nat, z: nat, p: nat, len: Number, d: Number, out: seq<byte>, cap: nat)
    requires z <= 28 && DecodeSym(lit, data, pos) == Some(257 + z) && p == pos + lit[257 + z] && LengthValue(data, p, z) == len
    requires ReadDistance(dist, data, len.pos) == Some(d) && 1 <= d.value <= |out| && |out| + len.value <= cap
    ensures Does(lit, dist, data, pos, out, cap, Next(CopyMatch(out, d.value, len.value), d.pos))
  {
    LengthDoes(lit, dist, data, pos, z, p, out, cap);
    LengthThenCopy(dist, data, p, z, len, out, cap);
    DistanceThenCopy(dist, data, len.pos, len.value, d, out, cap);
  }

  lemma MatchStands(lit: seq<nat>, dist: seq<nat>, data: seq<byte>, pos: nat, t: Token, len: nat, d: nat, next: nat, out: seq<byte>, cap: nat)
    requires Usable(lit) && Usable(dist) && t.Match? && Sendable(lit, dist, t) && Stands(data, pos, TokenBits(lit, dist, t))
    requires len == MatchLength(t) && d == MatchDistance(t) && next == pos + |TokenBits(lit, dist, t)|
    requires d <= |out| && |out| + len <= cap
    ensures Does(lit, dist, data, pos, out, cap, Next(CopyMatch(out, d, len), next))
  {
    var p, q, r := MatchSplits(lit, dist, data, pos, t);
    SymbolStands(lit, data, pos, 257 + t.len);
    LengthStands(data, p, t.len, t.lenExtra, q);
    DistanceStands(dist, data, q, t.dist, t.distExtra, r, next);
    CopyStands(lit, dist, data, pos, t.len, p, Number(len, q), Number(d, next), out, cap);
  }

  /** One token: it is read, and what follows is what the others stand for. */
  lemma TokenStands(lit: seq<nat>, dist: seq<nat>, data: seq<byte>, pos: nat, tokens: seq<Token>, out: seq<byte>, cap: nat, next: nat)
    returns (out': seq<byte>)
    requires Usable(lit) && Usable(dist) && tokens != [] && Sendable(lit, dist, tokens[0])
    requires Stands(data, pos, TokenBits(lit, dist, tokens[0])) && next == pos + |TokenBits(lit, dist, tokens[0])|
    requires Expand(out, tokens).Some? && |Expand(out, tokens).value| <= cap
    ensures Does(lit, dist, data, pos, out, cap, Next(out', next))
    ensures Expand(out', tokens[1..]) == Expand(out, tokens)
  {
    match tokens[0] {
      case Literal(b) =>
        out' := out + [b];
        ExpandGrows(out', tokens[1..]);
        LiteralStands(lit, dist, data, pos, b, out, cap);
      case Match(_, _, _, _) =>
        out' := CopyMatch(out, MatchDistance(tokens[0]), MatchLength(tokens[0]));
        ExpandGrows(out', tokens[1..]);
        MatchStands(lit, dist, data, pos, tokens[0], MatchLength(tokens[0]), MatchDistance(tokens[0]), next, out, cap);
    }
  }

  // ---- The round trip ----------------------------------------------------------------------------------

  lemma InflateNext(lit: seq<nat>, dist: seq<nat>, data: seq<byte>, pos: nat, out: seq<byte>, cap: nat, out': seq<byte>, pos': nat)
    requires Does(lit, dist, data, pos, out, cap, Next(out', pos'))
    ensures InflateCodes(lit, dist, data, pos, out, cap) == InflateCodes(lit, dist, data, pos', out', cap)
  {
    assert Guard(0);
  }

  lemma InflateEnd(lit: seq<nat>, dist: seq<nat>, data: seq<byte>, pos: nat, out: seq<byte>, cap: nat)
    requires DecodeSym(lit, data, pos) == Some(256)
    ensures InflateCodes(lit, dist, data, pos, out, cap) == Some(Inflated(out, pos + lit[256]))
  {
  }

  /** The bits of a block's tokens, folded. */
  ghost predicate Coded(lit: seq<nat>, dist: seq<nat>, tokens: seq<Token>, bits: BitString) {
    forall k: nat :: Guard(k) ==>
      Usable(lit) && Usable(dist) && AllSendable(lit, dist, tokens) && bits == BlockBits(lit, dist, tokens)
  }

  /** The first token's bits, and the others'. */
  lemma CodedFirst(lit: seq<nat>, dist: seq<nat>, tokens: seq<Token>, bits: BitString) returns (first: BitString, others: BitString)
    requires tokens != [] && Coded(lit, dist, tokens, bits)
    ensures Usable(lit) && Usable(dist) && Sendable(lit, dist, tokens[0]) && first == TokenBits(lit, dist, tokens[0])
    ensures bits == first + others && Coded(lit, dist, tokens[1..], others)
  {
    assert Guard(0);
    first, others := TokenBits(lit, dist, tokens[0]), BlockBits(lit, dist, tokens[1..]);
  }

  lemma CodedEnd(lit: seq<nat>, dist: seq<nat>, data: seq<byte>, pos: nat, bits: BitString)
    requires Coded(lit, dist, [], bits) && Stands(data, pos, bits)
    ensures DecodeSym(lit, data, pos) == Some(256) && |bits| == lit[256]
  {
    assert Guard(0);
    SymbolStands(lit, data, pos, 256);
  }

  lemma BlockTurn(lit: seq<nat>, dist: seq<nat>, data: seq<byte>, pos: nat, tokens: seq<Token>, bits: BitString, out: seq<byte>, cap: nat)
    returns (out': seq<byte>, next: nat, others: BitString)
    requires tokens != [] && Coded(lit, dist, tokens, bits) && Stands(data, pos, bits)
    requires Expand(out, tokens).Some? && |Expand(out, tokens).value| <= cap
    ensures Does(lit, dist, data, pos, out, cap, Next(out', next)) && Expand(out', tokens[1..]) == Expand(out, tokens)
    ensures next + |others| == pos + |bits| && Coded(lit, dist, tokens[1..], others) && Stands(data, next, others)
  {
    var first;
    first, others := CodedFirst(lit, dist, tokens, bits);
    next := pos + |first|;
    StandsSplit(data, pos, first, others);
    out' := TokenStands(lit, dist, data, pos, tokens, out, cap, next);
  }

  /** Where the bits of a block stand, inflating comes to what its tokens stand for, and to the end of the bits. */
  lemma {:induction false} BlockDecodes(lit: seq<nat>, dist: seq<nat>, data: seq<byte>, pos: nat, tokens: seq<Token>, bits: BitString, out: seq<byte>, cap: nat, r: Inflated)
    requires Coded(lit, dist, tokens, bits) && Stands(data, pos, bits)
    requires Expand(out, tokens) == Some(r.out) && |r.out| <= cap && r.pos == pos + |bits|
    ensures InflateCodes(lit, dist, data, pos, out, cap) == Some(r)
    decreases |tokens|
  {
    if tokens == [] {
      CodedEnd(lit, dist, data, pos, bits);
      InflateEnd(lit, dist, data, pos, out, cap);
    } else {
      var out', next, others := BlockTurn(lit, dist, data, pos, tokens, bits, out, cap);
      InflateNext(lit, dist, data, pos, out, cap, out', next);
      BlockDecodes(lit, dist, data, next, tokens[1..], others, out', cap, r);
    }
  }

  function Literals(data: seq<byte>): seq<Token> {
    if data == [] then [] else [Literal(data[0])] + Literals(data[1..])
  }

  lemma {:induction false} LiteralsExpand(out: seq<byte>, data: seq<byte>)
    ensures Expand(out, Literals(data)) == Some(out + data)
    decreases |data|
  {
    if data == [] {
      assert out + data == out;
    } else {
      var tokens, out' := Literals(data), out + [data[0]];
      assert tokens[0] == Literal(data[0]) && tokens[1..] == Literals(data[1..]);
      LiteralsExpand(out', data[1..]);
      assert out' + data[1..] == out + data;
    }
  }

  lemma {:induction false} LiteralsSendable(lit: seq<nat>, dist: seq<nat>, data: seq<byte>)
    requires forall i | 0 <= i <= 256 :: HasCode(lit, i)
    ensures AllSendable(lit, dist, Literals(data))
    decreases |data|
  {
    if data != [] {
      LiteralsSendable(lit, dist, data[1..]);
      assert HasCode(lit, data[0] as nat);
      forall i | 0 <= i < |Literals(data)| ensures Sendable(lit, dist, Literals(data)[i]) {
        assert i > 0 ==> Literals(data)[i] == Literals(data[1..])[i - 1];
      }
    }
  }

  lemma FixedSendable(data: seq<byte>)
    ensures AllSendable(FixedLit(), FixedDist(), Literals(data))
  {
    var lit, dist := FixedLit(), FixedDist();
    assert forall i | 0 <= i <= 256 :: HasCode(lit, i);
    LiteralsSendable(lit, dist, data);
  }
}
