/** Blocks in the fixed codes, bit for bit as the tables of sections 3.2.5 and 3.2.6 of RFC 1951 have them, by the
    values of bytes, lengths and distances: and that the program inflates them to what they stand for. */
module DeflateFixed {
  import opened Bits
  import opened BitStrings
  import opened CanonicalCode
  import opened Folding
  import opened InflateEncode
  import opened InflateSpec
  import opened InflateStreams
  import opened Multiples
  import opened Options
  import ZlibDecoder

  // ---- The fixed codes ---------------------------------------------------------------------------------

  lemma {:induction false} CountRepeat(a: seq<nat>, x: nat, n: nat, l: nat)
    ensures Count(a + Repeat(x, n), l) == Count(a, l) + if x == l then n else 0
    decreases n
  {
    if n == 0 {
      assert a + Repeat(x, n) == a;
    } else {
      CountRepeat(a, x, n - 1, l);
      CountSnoc(a + Repeat(x, n - 1), x, l);
      assert a + Repeat(x, n) == (a + Repeat(x, n - 1)) + [x];
    }
  }

  /** So many of the first symbols have codes of length l. */
  lemma FixedCounts(n: nat, l: nat)
    requires n <= 288
    ensures Count(FixedLit()[..n], l)
            == if l == 7 then (if n <= 256 then 0 else if n <= 280 then n - 256 else 24)
               else if l == 8 then (if n <= 144 then n else if n <= 280 then 144 else n - 136)
               else if l == 9 then (if n <= 144 then 0 else if n <= 256 then n - 144 else 112)
               else 0
  {
    var e, i, s, r := Between(n, 0, 144), Between(n, 144, 256), Between(n, 256, 280), Between(n, 280, 288);
    var a := Repeat(8, e);
    var b := a + Repeat(9, i);
    var c := b + Repeat(7, s);
    assert [] + Repeat(8, e) == a;
    CountRepeat([], 8, e, l);
    CountRepeat(a, 9, i, l);
    CountRepeat(b, 7, s, l);
    CountRepeat(c, 8, r, l);
    assert FixedLit()[..n] == c + Repeat(8, r);
  }

  /** How many of the first n symbols lie in a range. */
  function Between(n: nat, from: nat, to: nat): nat
    requires from <= to
  {
    if n <= from then 0 else if n <= to then n - from else to - from
  }

  lemma {:induction false} NoneShort(lens: seq<nat>, l: nat)
    requires forall k | 0 < k <= l :: Count(lens, k) == 0
    ensures End(lens, l) == 0
    decreases l
  {
    if l > 0 {
      NoneShort(lens, l - 1);
    }
  }

  lemma FixedFirsts()
    ensures First(FixedLit(), 7) == 0 && First(FixedLit(), 8) == 0x30 && First(FixedLit(), 9) == 0x190
  {
    var lens := FixedLit();
    assert lens[..288] == lens;
    forall k | 0 < k <= 9 ensures Count(lens, k) == if k == 7 then 24 else if k == 8 then 152 else if k == 9 then 112 else 0 {
      FixedCounts(288, k);
    }
    var six, seven, eight, nine := 6, 7, 8, 9;
    NoneShort(lens, six);
    assert First(lens, seven) == 2 * End(lens, six);
    assert First(lens, eight) == 2 * End(lens, seven) && First(lens, nine) == 2 * End(lens, eight);
  }

  /** The table of section 3.2.6: literals, the end of block and lengths, in four ranges. */
  lemma FixedCode(sym: nat)
    requires sym < 288
    ensures sym < 144 ==> FixedLit()[sym] == 8 && Code(FixedLit(), sym) == 0x30 + sym
    ensures 144 <= sym < 256 ==> FixedLit()[sym] == 9 && Code(FixedLit(), sym) == 0x190 + (sym - 144)
    ensures 256 <= sym < 280 ==> FixedLit()[sym] == 7 && Code(FixedLit(), sym) == sym - 256
    ensures 280 <= sym ==> FixedLit()[sym] == 8 && Code(FixedLit(), sym) == 0xC0 + (sym - 280)
  {
    FixedFirsts();
    FixedCounts(sym, FixedLit()[sym]);
  }

  /** Distance symbols have five bits and stand for themselves. */
  lemma FixedDistCode(d: nat)
    requires d < 32
    ensures FixedDist()[d] == 5 && Code(FixedDist(), d) == d
  {
    var lens, four := FixedDist(), 4;
    assert lens[..d] == [] + Repeat(5, d);
    CountRepeat([], 5, d, 5);
    forall k | 0 < k <= four ensures Count(lens, k) == 0 {
      assert lens == [] + Repeat(5, 32);
      CountRepeat([], 5, 32, k);
    }
    NoneShort(lens, four);
  }

  // ---- Lengths and distances by value ------------------------------------------------------------------

  /** A symbol, and extra bits with their number. */
  datatype Sent = Sent(sym: nat, width: nat, extra: nat)

  /** A row of symbols from sym on, each for span values; the first of the row's values is first. */
  function InRow(v: nat, first: nat, sym: nat, width: nat, span: nat): Sent
    requires first <= v && span > 0
  {
    Sent(sym + (v - first) / span, width, (v - first) % span)
  }

  /** The first table of section 3.2.5. */
  function LengthSent(len: nat): Sent
    requires 3 <= len <= 258
  {
    if len <= 10 then InRow(len, 3, 257, 0, 1)
    else if len <= 18 then InRow(len, 11, 265, 1, 2)
    else if len <= 34 then InRow(len, 19, 269, 2, 4)
    else if len <= 66 then InRow(len, 35, 273, 3, 8)
    else if len <= 130 then InRow(len, 67, 277, 4, 16)
    else if len <= 257 then InRow(len, 131, 281, 5, 32)
    else Sent(285, 0, 0)
  }

  /** The second table of section 3.2.5. */
  function DistSent(dist: nat): Sent
    requires 1 <= dist <= 32768
  {
    if dist <= 4 then InRow(dist, 1, 0, 0, 1)
    else if dist <= 8 then InRow(dist, 5, 4, 1, 2)
    else if dist <= 16 then InRow(dist, 9, 6, 2, 4)
    else if dist <= 32 then InRow(dist, 17, 8, 3, 8)
    else if dist <= 64 then InRow(dist, 33, 10, 4, 16)
    else if dist <= 128 then InRow(dist, 65, 12, 5, 32)
    else if dist <= 256 then InRow(dist, 129, 14, 6, 64)
    else if dist <= 512 then InRow(dist, 257, 16, 7, 128)
    else if dist <= 1024 then InRow(dist, 513, 18, 8, 256)
    else if dist <= 2048 then InRow(dist, 1025, 20, 9, 512)
    else if dist <= 4096 then InRow(dist, 2049, 22, 10, 1024)
    else if dist <= 8192 then InRow(dist, 4097, 24, 11, 2048)
    else if dist <= 16384 then InRow(dist, 8193, 26, 12, 4096)
    else InRow(dist, 16385, 28, 13, 8192)
  }

  lemma QuotientBelow(q: nat, n: nat, span: nat, m: nat)
    requires q * span <= m < n * span
    ensures q < n
  {
    if q >= n {
      MulMono(n, q, span);
    }
  }

  lemma Quotient(m: nat, n: nat, span: nat)
    requires span > 0 && m < n * span
    ensures m / span < n && m == m / span * span + m % span
  {
    QuotientBelow(m / span, n, span, m);
  }

  lemma QuotientIn(m: nat, n: nat, span: nat) returns (q: nat, r: nat)
    requires span > 0 && m < n * span
    ensures q == m / span < n && r == m % span < span && m == q * span + r
  {
    Quotient(m, n, span);
    q, r := m / span, m % span;
  }

  lemma {:induction false} LengthsInRow(z: nat, q: nat, width: nat, span: nat)
    requires z + q <= 28 && (z + q == 28 ==> q == 0) && span == Pow2(width)
    requires forall k | z <= k < z + q :: LengthExtra(k) == width
    ensures LengthBase(z + q) == LengthBase(z) + q * span
    decreases q
  {
    if q > 0 {
      LengthsInRow(z, q - 1, width, span);
      assert LengthExtra(z + q - 1) == width;
      assert (q - 1) * span + span == q * span;
    }
  }

  lemma LengthInRow(len: nat, first: nat, z: nat, width: nat, span: nat, n: nat)
    requires first <= len < first + n * span && LengthBase(z) == first && z + n <= 28 && span == Pow2(width)
    requires forall k | z <= k < z + n :: LengthExtra(k) == width
    ensures var s := InRow(len, first, 257 + z, width, span);
            257 + z <= s.sym < 257 + z + n && LengthExtra(s.sym - 257) == s.width && s.extra < Pow2(s.width) &&
            LengthBase(s.sym - 257) + s.extra == len
  {
    var q, r := QuotientIn(len - first, n, span);
    LengthsInRow(z, q, width, span);
    assert LengthExtra(z + q) == width;
  }

  /** The symbol and the extra bits stand for the length. */
  ghost predicate IsLength(s: Sent, len: nat) {
    257 <= s.sym <= 285 && LengthExtra(s.sym - 257) == s.width && s.extra < Pow2(s.width) &&
    LengthBase(s.sym - 257) + s.extra == len
  }

  /** Where the four symbols with so many extra bits start. */
  lemma {:induction false} LengthRowStart(width: nat)
    requires 1 <= width <= 6
    ensures width < 6 ==> LengthBase(4 + 4 * width) == 3 + 4 * Pow2(width)
  {
    if width == 1 {
      LengthsInRow(0, 8, 0, 1);
    } else if width < 6 {
      LengthRowStart(width - 1);
      LengthsInRow(4 * width, 4, width - 1, Pow2(width - 1));
    }
  }

  lemma LengthRow(len: nat, first: nat, sym: nat, width: nat, span: nat)
    requires 1 <= width <= 5 && span == Pow2(width) && sym == 261 + 4 * width && first == 3 + 4 * span
    requires first <= len < first + 4 * span
    ensures IsLength(InRow(len, first, sym, width, span), len)
  {
    LengthRowStart(width);
    LengthInRow(len, first, sym - 257, width, span, 4);
  }

  lemma LengthIsSent(len: nat)
    requires 3 <= len <= 258
    ensures IsLength(LengthSent(len), len)
  {
    ZlibDecoder.Pow2Medium();
    if len <= 10 {
      LengthInRow(len, 3, 0, 0, 1, 8);
    } else if len <= 18 {
      LengthRow(len, 11, 265, 1, 2);
    } else if len <= 34 {
      LengthRow(len, 19, 269, 2, 4);
    } else if len <= 66 {
      LengthRow(len, 35, 273, 3, 8);
    } else if len <= 130 {
      LengthRow(len, 67, 277, 4, 16);
    } else if len <= 257 {
      LengthRow(len, 131, 281, 5, 32);
    }
  }

  ghost predicate IsDist(s: Sent, dist: nat) {
    s.sym < 30 && DistExtra(s.sym) == s.width && s.extra < Pow2(s.width) && DistBase(s.sym) + s.extra == dist
  }

  /** Where the two symbols with so many extra bits start. */
  lemma {:induction false} DistRowStart(width: nat)
    requires 1 <= width <= 13
    ensures DistBase(2 + 2 * width) == 1 + 2 * Pow2(width)
  {
    var z := 2 * width;
    if width == 1 {
      assert DistBase(4) == 5;
    } else {
      DistRowStart(width - 1);
      assert DistExtra(z) == width - 1 == DistExtra(z + 1);
      assert DistBase(z + 2) == DistBase(z + 1) + Pow2(width - 1) == DistBase(z) + Pow2(width - 1) + Pow2(width - 1);
    }
  }

  lemma DistRowExtra(sym: nat, width: nat)
    requires sym == 2 + 2 * width && width >= 1
    ensures DistExtra(sym) == width == DistExtra(sym + 1) && DistBase(sym + 1) == DistBase(sym) + Pow2(width)
  {
  }

  lemma HalfOfRow(m: nat, span: nat)
    requires m < 2 * span
    ensures m / span == (if m < span then 0 else 1) && m % span == if m < span then m else m - span
  {
    if m >= span {
      Quotient(m, 2, span);
    }
  }

  lemma DistRow(dist: nat, first: nat, sym: nat, width: nat, span: nat)
    requires 1 <= width <= 13 && span == Pow2(width) && sym == 2 + 2 * width && first == 1 + 2 * span
    requires first <= dist < first + 2 * span
    ensures IsDist(InRow(dist, first, sym, width, span), dist)
  {
    var m := dist - first;
    DistRowStart(width);
    DistRowExtra(sym, width);
    HalfOfRow(m, span);
  }

  lemma DistIsSent(dist: nat)
    requires 1 <= dist <= 32768
    ensures IsDist(DistSent(dist), dist)
  {
    ZlibDecoder.Pow2Medium();
    if dist <= 4 {
      FirstDists();
    } else if dist <= 8 {
      DistRow(dist, 5, 4, 1, 2);
    } else if dist <= 16 {
      DistRow(dist, 9, 6, 2, 4);
    } else if dist <= 32 {
      DistRow(dist, 17, 8, 3, 8);
    } else if dist <= 64 {
      DistRow(dist, 33, 10, 4, 16);
    } else if dist <= 128 {
      DistRow(dist, 65, 12, 5, 32);
    } else if dist <= 256 {
      DistRow(dist, 129, 14, 6, 64);
    } else if dist <= 512 {
      DistRow(dist, 257, 16, 7, 128);
    } else if dist <= 1024 {
      DistRow(dist, 513, 18, 8, 256);
    } else if dist <= 2048 {
      DistRow(dist, 1025, 20, 9, 512);
    } else if dist <= 4096 {
      DistRow(dist, 2049, 22, 10, 1024);
    } else if dist <= 8192 {
      DistRow(dist, 4097, 24, 11, 2048);
    } else if dist <= 16384 {
      DistRow(dist, 8193, 26, 12, 4096);
    } else {
      DistRow(dist, 16385, 28, 13, 8192);
    }
  }

  lemma FirstDists()
    ensures DistBase(0) == 1 && DistBase(1) == 2 && DistBase(2) == 3 && DistBase(3) == 4
  {
  }

  // ---- What a compressor sends ---------------------------------------------------------------------------

  /** A byte; or a copy of so many bytes from so far back. */
  datatype Item = Byte(b: byte) | Copy(len: nat, dist: nat)

  predicate InRange(i: Item) {
    i.Copy? ==> 3 <= i.len <= 258 && 1 <= i.dist <= 32768
  }

  predicate AllInRange(items: seq<Item>) {
    forall i | 0 <= i < |items| :: InRange(items[i])
  }

  /** The items spell the data from n on. */
  predicate Spells(items: seq<Item>, data: seq<byte>, n: nat)
    decreases |items|
  {
    if items == [] then n == |data|
    else
      match items[0]
      case Byte(b) => n < |data| && data[n] == b && Spells(items[1..], data, n + 1)
      case Copy(len, dist) =>
        1 <= dist <= n && n + len <= |data| && (forall k | n <= k < n + len :: Echoes(data, k, dist)) &&
        Spells(items[1..], data, n + len)
  }

  /** The byte at k is the one dist before it. */
  predicate Echoes(data: seq<byte>, k: nat, dist: nat)
    requires dist <= k < |data|
  {
    data[k] == data[k - dist]
  }

  function ByteCode(b: byte): BitString {
    if b < 144 then MsbBits(0x30 + b as nat, 8) else MsbBits(0x190 + (b as nat - 144), 9)
  }

  function LengthCode(sym: nat): BitString
    requires 256 <= sym < 288
  {
    if sym < 280 then MsbBits(sym - 256, 7) else MsbBits(0xC0 + (sym - 280), 8)
  }

  function CopyBits(l: Sent, d: Sent): BitString
    requires 256 <= l.sym < 288
  {
    LengthCode(l.sym) + (BitsOf(l.extra, l.width) + (MsbBits(d.sym, 5) + BitsOf(d.extra, d.width)))
  }

  function ItemBits(i: Item): BitString
    requires InRange(i)
  {
    match i
    case Byte(b) => ByteCode(b)
    case Copy(len, dist) => LengthIsSent(len); CopyBits(LengthSent(len), DistSent(dist))
  }

  /** The items' bits, and the end of block: seven zeros. */
  function ItemsBits(items: seq<Item>): BitString
    requires AllInRange(items)
  {
    if items == [] then [0, 0, 0, 0, 0, 0, 0] else ItemBits(items[0]) + ItemsBits(items[1..])
  }

  // ---- The same as tokens --------------------------------------------------------------------------------

  function TokenOf(i: Item): Token
    requires InRange(i)
  {
    match i
    case Byte(b) => Literal(b)
    case Copy(len, dist) =>
      var l, d := LengthSent(len), DistSent(dist);
      LengthIsSent(len);
      Match(l.sym - 257, l.extra, d.sym, d.extra)
  }

  function TokensOf(items: seq<Item>): (tokens: seq<Token>)
    requires AllInRange(items)
    ensures |tokens| == |items|
  {
    if items == [] then [] else [TokenOf(items[0])] + TokensOf(items[1..])
  }

  lemma TokenIs(i: Item)
    requires InRange(i)
    ensures var t := TokenOf(i);
            i.Byte? == t.Literal? && (i.Byte? ==> t.b == i.b) && (t.Match? ==> MatchLength(t) == i.len && MatchDistance(t) == i.dist)
    ensures Sendable(FixedLit(), FixedDist(), TokenOf(i))
  {
    if i.Copy? {
      LengthIsSent(i.len);
      DistIsSent(i.dist);
    }
  }

  lemma ByteCodeIs(b: byte)
    ensures SymbolBits(FixedLit(), b as nat) == ByteCode(b)
  {
    FixedCode(b as nat);
  }

  lemma LengthCodeIs(sym: nat)
    requires 256 <= sym < 288
    ensures HasCode(FixedLit(), sym) && SymbolBits(FixedLit(), sym) == LengthCode(sym)
  {
    FixedCode(sym);
  }

  lemma DistCodeIs(d: nat)
    requires d < 32
    ensures HasCode(FixedDist(), d) && SymbolBits(FixedDist(), d) == MsbBits(d, 5)
  {
    FixedDistCode(d);
  }

  lemma ItemBitsAre(i: Item)
    requires InRange(i)
    ensures Sendable(FixedLit(), FixedDist(), TokenOf(i)) && TokenBits(FixedLit(), FixedDist(), TokenOf(i)) == ItemBits(i)
  {
    TokenIs(i);
    match i {
      case Byte(b) => ByteCodeIs(b);
      case Copy(len, dist) =>
        LengthIsSent(len);
        DistIsSent(dist);
        LengthCodeIs(LengthSent(len).sym);
        DistCodeIs(DistSent(dist).sym);
    }
  }

  lemma EndIs()
    ensures HasCode(FixedLit(), 256) && SymbolBits(FixedLit(), 256) == [0, 0, 0, 0, 0, 0, 0]
  {
    LengthCodeIs(256);
    assert MsbBits(0, 7) == [0, 0, 0, 0, 0, 0, 0];
  }

  lemma {:induction false} ItemsBitsAre(items: seq<Item>)
    requires AllInRange(items)
    ensures AllSendable(FixedLit(), FixedDist(), TokensOf(items))
    ensures BlockBits(FixedLit(), FixedDist(), TokensOf(items)) == ItemsBits(items)
    decreases |items|
  {
    EndIs();
    if items != [] {
      var tokens := TokensOf(items);
      ItemBitsAre(items[0]);
      ItemsBitsAre(items[1..]);
      assert tokens[1..] == TokensOf(items[1..]);
      SendableFirst(FixedLit(), FixedDist(), tokens);
    }
  }

  lemma SendableFirst(lit: seq<nat>, dist: seq<nat>, tokens: seq<Token>)
    requires tokens != [] && Sendable(lit, dist, tokens[0]) && AllSendable(lit, dist, tokens[1..])
    ensures AllSendable(lit, dist, tokens)
  {
    forall i | 0 <= i < |tokens| ensures Sendable(lit, dist, tokens[i]) {
      assert i > 0 ==> tokens[i] == tokens[1..][i - 1];
    }
  }

  /** A copy that the data repeat gives the data. */
  lemma {:induction false} CopyGives(data: seq<byte>, n: nat, dist: nat, len: nat)
    requires 1 <= dist <= n && n + len <= |data| && forall k | n <= k < n + len :: Echoes(data, k, dist)
    ensures CopyMatch(data[..n], dist, len) == data[..n + len]
    decreases len
  {
    if len > 0 {
      assert Echoes(data, n, dist);
      assert data[..n] + [data[..n][n - dist]] == data[..n + 1];
      CopyGives(data, n + 1, dist, len - 1);
    }
  }

  lemma ExpandByte(out: seq<byte>, tokens: seq<Token>, b: byte)
    requires tokens != [] && tokens[0] == Literal(b)
    ensures Expand(out, tokens) == Expand(out + [b], tokens[1..])
  {
  }

  lemma ExpandCopy(out: seq<byte>, tokens: seq<Token>, dist: nat, len: nat)
    requires tokens != [] && tokens[0].Match? && MatchLength(tokens[0]) == len && MatchDistance(tokens[0]) == dist <= |out|
    ensures Expand(out, tokens) == Expand(CopyMatch(out, dist, len), tokens[1..])
  {
  }

  /** The first item's token, and the others'. */
  lemma FirstToken(items: seq<Item>, tokens: seq<Token>)
    requires items != [] && AllInRange(items) && tokens == TokensOf(items)
    ensures tokens != [] && tokens[0] == TokenOf(items[0]) && tokens[1..] == TokensOf(items[1..])
  {
  }

  lemma ByteSpelt(item: Item, tokens: seq<Token>, data: seq<byte>, n: nat)
    requires item.Byte? && tokens != [] && tokens[0] == TokenOf(item) && n < |data| && data[n] == item.b
    ensures Expand(data[..n], tokens) == Expand(data[..n + 1], tokens[1..])
  {
    ExpandByte(data[..n], tokens, item.b);
    assert data[..n] + [item.b] == data[..n + 1];
  }

  lemma CopySpelt(tokens: seq<Token>, data: seq<byte>, n: nat, len: nat, dist: nat)
    requires tokens != [] && tokens[0].Match? && MatchLength(tokens[0]) == len && MatchDistance(tokens[0]) == dist
    requires dist <= n && n + len <= |data| && forall k | n <= k < n + len :: Echoes(data, k, dist)
    ensures Expand(data[..n], tokens) == Expand(data[..n + len], tokens[1..])
  {
    CopyGives(data, n, dist, len);
    ExpandCopy(data[..n], tokens, dist, len);
  }

  lemma {:induction false} SpeltExpands(items: seq<Item>, data: seq<byte>, n: nat)
    requires AllInRange(items) && Spells(items, data, n)
    ensures n <= |data| && Expand(data[..n], TokensOf(items)) == Some(data)
    decreases |items|
  {
    if items == [] {
      assert data[..n] == data;
    } else {
      var tokens := TokensOf(items);
      FirstToken(items, tokens);
      match items[0] {
        case Byte(b) =>
          SpeltExpands(items[1..], data, n + 1);
          ByteSpelt(items[0], tokens, data, n);
        case Copy(len, dist) =>
          SpeltExpands(items[1..], data, n + len);
          TokenIs(items[0]);
          CopySpelt(tokens, data, n, len, dist);
      }
    }
  }

  // ---- The program inflates them -------------------------------------------------------------------------

  /** One block, which is the final one, in the fixed codes: the bits 1, 1 and 0, and the items. */
  function FixedStream(header: seq<byte>, items: seq<Item>): seq<byte>
    requires AllInRange(items)
  {
    header + Packed([1, 1, 0] + ItemsBits(items))
  }

  lemma HeaderFixed(rest: BitString)
    ensures HeaderBits(1, 1, rest) == [1, 1, 0] + rest
  {
    assert BitsOf(1, 1) == [1] && BitsOf(1, 2) == [1, 0];
  }

  /** The bits of the only block. */
  lemma OneBlock(blocks: seq<Block>, block: Block, body: BitString)
    requires blocks == [block] && ValidBlock(block) && ValidBlocks(blocks) && body == BodyBits(block, 19)
    ensures StreamBits(blocks, 16) == HeaderBits(1, Kind(block), body)
  {
    LastBehind(blocks, block, body);
  }

  lemma LastBehind(blocks: seq<Block>, block: Block, body: BitString)
    requires blocks == [block] && ValidBlocks(blocks)
    ensures BitsBehind(blocks, body, 16) == HeaderBits(1, Kind(block), body)
  {
    assert body + [] == body;
  }

  lemma FixedBody(tokens: seq<Token>, body: BitString)
    requires AllSendable(FixedLit(), FixedDist(), tokens) && body == BlockBits(FixedLit(), FixedDist(), tokens)
    ensures ValidBlock(FixedBlock(tokens)) && BodyBits(FixedBlock(tokens), 19) == body
  {
    assert Guard(0);
  }

  lemma StreamIsFixed(header: seq<byte>, items: seq<Item>, blocks: seq<Block>)
    requires AllInRange(items) && blocks == [FixedBlock(TokensOf(items))]
    ensures ValidBlocks(blocks) && Compressed(header, blocks) == FixedStream(header, items)
  {
    ItemsBitsAre(items);
    FixedBody(TokensOf(items), ItemsBits(items));
    OneBlock(blocks, blocks[0], ItemsBits(items));
    HeaderFixed(ItemsBits(items));
  }

  /** Whatever data the items spell, inflating the stream gives it, and ends within the stream. */
  lemma FixedInflates(header: seq<byte>, items: seq<Item>, data: seq<byte>, more: seq<byte>, cap: nat)
    requires HeaderBytes(header) && AllInRange(items) && Spells(items, data, 0) && |data| <= cap
    ensures var r := Inflate(FixedStream(header, items) + more, true, [], cap);
            r.Some? && r.value.out == data && r.value.pos <= 8 * |FixedStream(header, items)|
  {
    var tokens := TokensOf(items);
    var blocks := [FixedBlock(tokens)];
    StreamIsFixed(header, items, blocks);
    SpeltExpands(items, data, 0);
    assert data[..0] == [];
    assert AddsAll([], blocks) == Adds([], blocks[0]) == Some(data);
    RoundTrip(header, blocks, more, cap);
  }

  /** The bits of literal bytes only. */
  function LiteralBits(data: seq<byte>): BitString {
    if data == [] then []
    else (if data[0] < 144 then MsbBits(0x30 + data[0] as nat, 8) else MsbBits(0x190 + (data[0] as nat - 144), 9)) + LiteralBits(data[1..])
  }

  function BytesOf(data: seq<byte>): (items: seq<Item>)
    ensures AllInRange(items)
  {
    if data == [] then [] else [Byte(data[0])] + BytesOf(data[1..])
  }

  lemma {:induction false} BytesSpell(data: seq<byte>, n: nat)
    requires n <= |data|
    ensures Spells(BytesOf(data[n..]), data, n)
    decreases |data| - n
  {
    if n < |data| {
      BytesSpell(data, n + 1);
      assert data[n..][1..] == data[n + 1..];
      assert BytesOf(data[n..])[1..] == BytesOf(data[n + 1..]);
    }
  }

  lemma {:induction false} BytesBits(data: seq<byte>)
    ensures ItemsBits(BytesOf(data)) == LiteralBits(data) + [0, 0, 0, 0, 0, 0, 0]
    decreases |data|
  {
    if data != [] {
      BytesBits(data[1..]);
      var items := BytesOf(data);
      assert items[0] == Byte(data[0]) && items[1..] == BytesOf(data[1..]);
    }
  }

  /** Any bytes as literals. */
  lemma BytesInflate(header: seq<byte>, data: seq<byte>, more: seq<byte>, cap: nat)
    requires HeaderBytes(header) && |data| <= cap
    ensures var stream := header + Packed([1, 1, 0] + LiteralBits(data) + [0, 0, 0, 0, 0, 0, 0]);
            var r := Inflate(stream + more, true, [], cap);
            r.Some? && r.value.out == data && r.value.pos <= 8 * |stream|
  {
    BytesBits(data);
    BytesSpell(data, 0);
    assert data[0..] == data;
    assert [1, 1, 0] + LiteralBits(data) + [0, 0, 0, 0, 0, 0, 0] == [1, 1, 0] + ItemsBits(BytesOf(data));
    FixedInflates(header, BytesOf(data), data, more, cap);
  }

  /** So does the program. */
  method InflateFixed(z: ZlibDecoder.ZBuf, ghost header: seq<byte>, ghost items: seq<Item>, ghost data: seq<byte>, ghost more: seq<byte>)
    returns (ok: bool)
    requires HeaderBytes(header) && AllInRange(items) && Spells(items, data, 0) && z.zbuffer == FixedStream(header, items) + more
    requires z.zpos == 0 && z.ValidOut() && z.ValidTables() && z.out == [] && |data| <= z.cap
    modifies z, z.buffer, z.zLength, z.zDistance
    ensures ok && z.Valid() && z.out == data
  {
    FixedInflates(header, items, data, more, z.cap);
    ok := z.ParseZlib(true);
  }
}
