/** Bytes, shifts, and the two ways in which DEFLATE reads bits.

    Section 3.1.1 of RFC 1951: data elements are packed starting at the least significant bit of
    each byte, except Huffman codes, which are packed starting at their most significant bit.

    Shifts are defined one bit at a time, so that every fact about them is a linear induction. */
module Bits {
  newtype byte = x: int | 0 <= x < 0x100 witness 0
  newtype uint16 = x: int | 0 <= x < 0x1_0000 witness 0

  const UINT_MAX: nat := 0xFFFF_FFFF

  function Pow2(n: nat): (r: nat)
    ensures r >= 1
  {
    if n == 0 then 1 else 2 * Pow2(n - 1)
  }

  /** v << n */
  function Shl(v: nat, n: nat): nat
    decreases n, v
  {
    if n == 0 then v else 2 * Shl(v, n - 1)
  }

  /** v >> n */
  function Shr(v: nat, n: nat): nat
    decreases n, v
  {
    if n == 0 then v else Shr(v / 2, n - 1)
  }

  /** The low n bits of v. */
  function Low(v: nat, n: nat): nat
    decreases n, v
  {
    if n == 0 then 0 else v % 2 + 2 * Low(v / 2, n - 1)
  }

  lemma {:induction false} Pow2Mono(m: nat, n: nat)
    requires m <= n
    ensures Pow2(m) <= Pow2(n)
    decreases n
  {
    if m < n {
      Pow2Mono(m, n - 1);
    }
  }

  lemma Pow2Small()
    ensures Pow2(0) == 1 && Pow2(1) == 2 && Pow2(2) == 4 && Pow2(3) == 8 && Pow2(4) == 16
    ensures Pow2(5) == 32 && Pow2(6) == 64 && Pow2(7) == 128 && Pow2(8) == 256 && Pow2(9) == 512
    ensures Pow2(13) == 0x2000 && Pow2(15) == 0x8000 && Pow2(16) == 0x1_0000
  {
  }

  // ---- Shifts -----------------------------------------------------------------------------------

  lemma {:induction false} ShlOne(n: nat)
    ensures Shl(1, n) == Pow2(n)
  {
    if n > 0 {
      ShlOne(n - 1);
    }
  }

  lemma {:induction false} ShlZero(n: nat)
    ensures Shl(0, n) == 0
  {
    if n > 0 {
      ShlZero(n - 1);
    }
  }

  lemma {:induction false} ShlAdd(a: nat, b: nat, n: nat)
    ensures Shl(a + b, n) == Shl(a, n) + Shl(b, n)
  {
    if n > 0 {
      ShlAdd(a, b, n - 1);
    }
  }

  lemma {:induction false} ShlShl(v: nat, m: nat, n: nat)
    ensures Shl(Shl(v, m), n) == Shl(v, m + n)
    decreases n
  {
    if n > 0 {
      ShlShl(v, m, n - 1);
    }
  }

  lemma {:induction false} ShlMono(a: nat, b: nat, n: nat)
    requires a <= b
    ensures Shl(a, n) <= Shl(b, n)
  {
    if n > 0 {
      ShlMono(a, b, n - 1);
    }
  }

  lemma ShlStrict(a: nat, b: nat, n: nat)
    requires a < b
    ensures Shl(a, n) + Pow2(n) <= Shl(b, n)
  {
    ShlAdd(a, 1, n);
    ShlOne(n);
    ShlMono(a + 1, b, n);
  }

  lemma {:induction false} ShlBelow(v: nat, m: nat, s: nat)
    requires v < Pow2(m)
    ensures Shl(v, s) < Pow2(m + s)
  {
    if s > 0 {
      ShlBelow(v, m, s - 1);
    }
  }

  lemma {:induction false} LowBound(v: nat, n: nat)
    ensures Low(v, n) < Pow2(n)
    decreases n
  {
    if n > 0 {
      LowBound(v / 2, n - 1);
    }
  }

  lemma {:induction false} Split(v: nat, n: nat)
    ensures v == Low(v, n) + Shl(Shr(v, n), n)
    decreases n
  {
    if n > 0 {
      Split(v / 2, n - 1);
    }
  }

  /** Low and high parts are determined by the whole. */
  lemma {:induction false} Join(lo: nat, hi: nat, n: nat)
    requires lo < Pow2(n)
    ensures Low(lo + Shl(hi, n), n) == lo && Shr(lo + Shl(hi, n), n) == hi
    decreases n
  {
    if n > 0 {
      Join(lo / 2, hi, n - 1);
      assert (lo + Shl(hi, n)) / 2 == lo / 2 + Shl(hi, n - 1);
    }
  }

  lemma LowSmall(v: nat, n: nat)
    requires v < Pow2(n)
    ensures Low(v, n) == v && Shr(v, n) == 0
  {
    ShlZero(n);
    Join(v, 0, n);
  }

  lemma ShrBounds(k: nat, n: nat)
    ensures Shl(Shr(k, n), n) <= k < Shl(Shr(k, n), n) + Pow2(n)
  {
    Split(k, n);
    LowBound(k, n);
  }

  lemma ShrRange(k: nat, n: nat, lo: nat, hi: nat)
    requires Shl(lo, n) <= k < Shl(hi, n)
    ensures lo <= Shr(k, n) < hi
  {
    ShrBounds(k, n);
    if Shr(k, n) < lo {
      ShlStrict(Shr(k, n), lo, n);
    }
    if hi <= Shr(k, n) {
      ShlMono(hi, Shr(k, n), n);
    }
  }

  lemma {:induction false} ShrShr(v: nat, m: nat, n: nat)
    ensures Shr(Shr(v, m), n) == Shr(v, m + n)
    decreases m
  {
    if m > 0 {
      ShrShr(v / 2, m - 1, n);
    }
  }

  /** The top bits of a byte shifted left are the bits below those shifted out. */
  lemma OnTop(b: nat, s: nat, d: nat, n: nat)
    requires b < Pow2(n) && s + d <= n
    ensures Shr(Low(Shl(b, s), n), n - d) == Low(Shr(b, n - d - s), d)
  {
    var k := n - d - s;
    var low, up := Low(b, k), Shr(b, k);
    Split(b, k);
    LowBound(b, k);
    Split(up, d);
    LowBound(up, d);
    OnTopLeft(low, Low(up, d), Shr(up, d), k, d, s);
  }

  lemma OnTopLeft(low: nat, mid: nat, hi: nat, k: nat, d: nat, s: nat)
    requires low < Pow2(k) && mid < Pow2(d)
    ensures Shr(Low(Shl(low + Shl(mid + Shl(hi, d), k), s), k + d + s), k + s) == mid
  {
    var m := k + s;
    ShiftedDigits(low, mid, hi, k, d, s);
    ShlBelow(low, k, s);
    DigitsBelow(Shl(low, s), mid, m, d);
    Join(Shl(low, s) + Shl(mid, m), hi, m + d);
    Join(Shl(low, s), mid, m);
    assert k + d + s == m + d;
  }

  lemma ShiftedDigits(low: nat, mid: nat, hi: nat, k: nat, d: nat, s: nat)
    ensures Shl(low + Shl(mid + Shl(hi, d), k), s) == Shl(low, s) + Shl(mid, k + s) + Shl(hi, d + (k + s))
  {
    ShlAdd(low, Shl(mid + Shl(hi, d), k), s);
    ShlShl(mid + Shl(hi, d), k, s);
    ShlAdd(mid, Shl(hi, d), k + s);
    ShlShl(hi, d, k + s);
  }

  lemma DigitsBelow(lo: nat, hi: nat, m: nat, d: nat)
    requires lo < Pow2(m) && hi < Pow2(d)
    ensures lo + Shl(hi, m) < Pow2(m + d)
  {
    ShlStrict(hi, Pow2(d), m);
    ShlOne(d);
    ShlShl(1, d, m);
    ShlOne(d + m);
  }

  // ---- The bit string of a byte string, continued by zero bits ------------------------------

  /** Bit i of the bit string, each byte giving its low bit first. */
  function Bit(data: seq<byte>, i: nat): (b: nat)
    ensures b < 2
    decreases i
  {
    if data == [] then 0 else if i < 8 then Shr(data[0] as nat, i) % 2 else Bit(data[1..], i - 8)
  }

  /** The value of n bits at position p, the first bit being the least significant. */
  function Val(data: seq<byte>, p: nat, n: nat): nat
    decreases n, p
  {
    if n == 0 then 0 else Bit(data, p) + 2 * Val(data, p + 1, n - 1)
  }

  /** The value of n bits at position p, the first bit being the most significant. */
  function MsbVal(data: seq<byte>, p: nat, n: nat): nat
    decreases n, p
  {
    if n == 0 then 0 else 2 * MsbVal(data, p, n - 1) + Bit(data, p + n - 1)
  }

  lemma {:induction false} ValBound(data: seq<byte>, p: nat, n: nat)
    ensures Val(data, p, n) < Pow2(n)
    decreases n
  {
    if n > 0 {
      ValBound(data, p + 1, n - 1);
    }
  }

  lemma {:induction false} ValSplit(data: seq<byte>, p: nat, m: nat, n: nat)
    ensures Val(data, p, m + n) == Val(data, p, m) + Shl(Val(data, p + m, n), m)
    decreases m
  {
    if m > 0 {
      ValSplit(data, p + 1, m - 1, n);
    }
  }

  /** Masking and shifting a buffer that holds the next bits reads and drops them. */
  lemma {:induction false} ValTake(data: seq<byte>, p: nat, n: nat, m: nat)
    requires m <= n
    ensures Low(Val(data, p, n), m) == Val(data, p, m)
    ensures Shr(Val(data, p, n), m) == Val(data, p + m, n - m)
    decreases m
  {
    if m > 0 {
      ValTake(data, p + 1, n - 1, m - 1);
      assert Val(data, p, n) / 2 == Val(data, p + 1, n - 1);
    }
  }

  lemma {:induction false} ValPastEnd(data: seq<byte>, p: nat, n: nat)
    requires p >= 8 * |data|
    ensures Val(data, p, n) == 0
    decreases n
  {
    if n > 0 {
      BitPastEnd(data, p);
      ValPastEnd(data, p + 1, n - 1);
    }
  }

  /** Eight bits at a byte boundary are that byte, or zero past the end. */
  lemma ValByte(data: seq<byte>, j: nat, p: nat, n: nat)
    requires p == 8 * j && n == 8
    ensures Val(data, p, n) == if j < |data| then data[j] as nat else 0
  {
    if j < |data| {
      BitsOfByte(data, j, p, 0, n);
    } else {
      ValPastEnd(data, p, n);
    }
  }

  /** The n bits of a byte from bit i on. */
  lemma {:induction false} BitsOfByte(data: seq<byte>, j: nat, p: nat, i: nat, n: nat)
    requires j < |data| && i + n == 8 && p == 8 * j + i
    ensures Val(data, p, n) == Shr(data[j] as nat, i)
    decreases n
  {
    var d := data[j] as nat;
    if n == 0 {
      Pow2Small();
      LowSmall(d, i);
    } else {
      BitsOfByte(data, j, p + 1, i + 1, n - 1);
      BitAt(data, j, p, i);
      ShrShr(d, i, 1);
      ShrOne(Shr(d, i));
    }
  }

  lemma {:induction false} BitAt(data: seq<byte>, j: nat, p: nat, i: nat)
    requires j < |data| && i < 8 && p == 8 * j + i
    ensures Bit(data, p) == Shr(data[j] as nat, i) % 2
    decreases j
  {
    if j > 0 {
      BitAt(data[1..], j - 1, p - 8, i);
    }
  }

  lemma {:induction false} BitPastEnd(data: seq<byte>, p: nat)
    requires p >= 8 * |data|
    ensures Bit(data, p) == 0
    decreases p
  {
    if data != [] {
      BitPastEnd(data[1..], p - 8);
    }
  }

  lemma ShrOne(v: nat)
    ensures Shr(v, 1) == v / 2
  {
  }

  lemma {:induction false} MsbBound(data: seq<byte>, p: nat, n: nat)
    ensures MsbVal(data, p, n) < Pow2(n)
  {
    if n > 0 {
      MsbBound(data, p, n - 1);
    }
  }

  /** A shorter code read at p is a prefix of a longer one. */
  lemma {:induction false} MsbPrefix(data: seq<byte>, p: nat, n: nat, m: nat)
    requires m <= n
    ensures Shr(MsbVal(data, p, n), n - m) == MsbVal(data, p, m)
  {
    if m < n {
      MsbPrefix(data, p, n - 1, m);
      assert MsbVal(data, p, n) / 2 == MsbVal(data, p, n - 1);
    }
  }

  lemma {:induction false} MsbShift(data: seq<byte>, p: nat, n: nat)
    requires n > 0
    ensures MsbVal(data, p, n) == Shl(Bit(data, p), n - 1) + MsbVal(data, p + 1, n - 1)
  {
    if n > 1 {
      MsbShift(data, p, n - 1);
      assert p + 1 + (n - 1) - 1 == p + n - 1;
    } else {
      assert MsbVal(data, p, 1) == 2 * MsbVal(data, p, 0) + Bit(data, p);
    }
  }

  // ---- Bit reversal ---------------------------------------------------------------------------

  /** Reverses the low n bits of v. */
  function Rev(v: nat, n: nat): nat
    decreases n, v
  {
    if n == 0 then 0 else Shl(v % 2, n - 1) + Rev(v / 2, n - 1)
  }

  lemma {:induction false} RevBound(v: nat, n: nat)
    ensures Rev(v, n) < Pow2(n)
    decreases n
  {
    if n > 0 {
      RevBound(v / 2, n - 1);
      ShlMono(v % 2, 1, n - 1);
      ShlOne(n - 1);
    }
  }

  /** The high s bits of a reversal are the reversal of the low s bits. */
  lemma {:induction false} RevSplit(v: nat, s: nat, n: nat)
    requires s <= n
    ensures Rev(v, n) == Shl(Rev(v, s), n - s) + Rev(Shr(v, s), n - s)
    decreases s
  {
    if s == 0 {
      ShlZero(n);
    } else {
      RevSplit(v / 2, s - 1, n - 1);
      ShlAdd(Shl(v % 2, s - 1), Rev(v / 2, s - 1), n - s);
      ShlShl(v % 2, s - 1, n - s);
    }
  }

  lemma {:induction false} RevLow(v: nat, s: nat)
    ensures Rev(v, s) == Rev(Low(v, s), s)
    decreases s
  {
    if s > 0 {
      RevLow(v / 2, s - 1);
      assert Low(v, s) / 2 == Low(v / 2, s - 1) && Low(v, s) % 2 == v % 2;
    }
  }

  lemma RevPrefix(v: nat, s: nat, n: nat)
    requires s <= n
    ensures Shr(Rev(v, n), n - s) == Rev(v, s)
  {
    RevSplit(v, s, n);
    RevBound(Shr(v, s), n - s);
    Join(Rev(Shr(v, s), n - s), Rev(v, s), n - s);
  }

  lemma {:induction false} RevInvolution(v: nat, n: nat)
    requires v < Pow2(n)
    ensures Rev(Rev(v, n), n) == v
    decreases n
  {
    if n > 0 {
      var b, w := v % 2, v / 2;
      var r := Rev(w, n - 1);
      RevBound(w, n - 1);
      RevInvolution(w, n - 1);
      Join(r, b, n - 1);
      RevSplit(r + Shl(b, n - 1), n - 1, n);
      RevLow(r + Shl(b, n - 1), n - 1);
      RevOne(b);
      DoubleShl(w);
    }
  }

  lemma RevOne(b: nat)
    requires b < 2
    ensures Rev(b, 1) == b
  {
    assert Rev(b, 1) == Shl(b % 2, 0) + Rev(b / 2, 0);
  }

  lemma DoubleShl(w: nat)
    ensures Shl(w, 1) == 2 * w
  {
  }

  /** Reversing bits that were packed from the low end yields the Huffman reading of them. */
  lemma {:induction false} RevVal(data: seq<byte>, p: nat, n: nat)
    ensures Rev(Val(data, p, n), n) == MsbVal(data, p, n)
    decreases n
  {
    if n > 0 {
      RevVal(data, p + 1, n - 1);
      MsbShift(data, p, n);
      assert Val(data, p, n) % 2 == Bit(data, p) && Val(data, p, n) / 2 == Val(data, p + 1, n - 1);
    }
  }

  // ---- The C operators & and | on non-negative numbers ---------------------------------------

  predicate TestBit(n: nat, i: nat)
    decreases i
  {
    if i == 0 then n % 2 == 1 else TestBit(n / 2, i - 1)
  }

  function And(a: nat, b: nat): nat {
    if a == 0 || b == 0 then 0 else (if a % 2 == 1 && b % 2 == 1 then 1 else 0) + 2 * And(a / 2, b / 2)
  }

  function Or(a: nat, b: nat): nat
    decreases a + b
  {
    if a == 0 then b else if b == 0 then a
    else (if a % 2 == 1 || b % 2 == 1 then 1 else 0) + 2 * Or(a / 2, b / 2)
  }

  lemma {:induction false} TestZero(i: nat)
    ensures !TestBit(0, i)
  {
    if i > 0 {
      TestZero(i - 1);
    }
  }

  lemma {:induction false} TestAnd(a: nat, b: nat, i: nat)
    ensures TestBit(And(a, b), i) == (TestBit(a, i) && TestBit(b, i))
    decreases i
  {
    if a == 0 || b == 0 {
      TestZero(i);
    } else if i > 0 {
      TestAnd(a / 2, b / 2, i - 1);
    }
  }

  lemma {:induction false} TestOr(a: nat, b: nat, i: nat)
    ensures TestBit(Or(a, b), i) == (TestBit(a, i) || TestBit(b, i))
    decreases i
  {
    if a == 0 || b == 0 {
      TestZero(i);
    } else if i > 0 {
      TestOr(a / 2, b / 2, i - 1);
    }
  }

  lemma {:induction false} TestShr(a: nat, k: nat, i: nat)
    ensures TestBit(Shr(a, k), i) == TestBit(a, i + k)
    decreases k
  {
    if k > 0 {
      TestShr(a / 2, k - 1, i);
    }
  }

  lemma {:induction false} TestShl(a: nat, k: nat, i: nat)
    ensures TestBit(Shl(a, k), i) == (i >= k && TestBit(a, i - k))
    decreases k
  {
    if k > 0 {
      if i > 0 {
        TestShl(a, k - 1, i - 1);
      }
    }
  }

  lemma {:induction false} TestHigh(a: nat, i: nat)
    requires a < Pow2(i)
    ensures !TestBit(a, i)
    decreases i
  {
    if i > 0 {
      TestHigh(a / 2, i - 1);
    }
  }

  lemma {:induction false} SameBits(a: nat, b: nat)
    requires forall i: nat :: TestBit(a, i) == TestBit(b, i)
    ensures a == b
    decreases a + b
  {
    assert TestBit(a, 0) == TestBit(b, 0);
    if a > 0 || b > 0 {
      forall i: nat
        ensures TestBit(a / 2, i) == TestBit(b / 2, i)
      {
        assert TestBit(a, i + 1) == TestBit(b, i + 1);
      }
      SameBits(a / 2, b / 2);
    }
  }

  /** code & ((1 << k) - 1) keeps the low k bits. */
  lemma {:induction false} AndMask(a: nat, k: nat)
    ensures And(a, Pow2(k) - 1) == Low(a, k)
    decreases k
  {
    if a == 0 {
      LowZero(k);
    } else if k > 0 {
      AndMask(a / 2, k - 1);
    }
  }

  lemma {:induction false} LowZero(k: nat)
    ensures Low(0, k) == 0
  {
    if k > 0 {
      LowZero(k - 1);
    }
  }

  /** buffer | (b << k) appends b above the k bits the buffer holds. */
  lemma {:induction false} OrAppend(a: nat, b: nat, k: nat)
    requires a < Pow2(k)
    ensures Or(a, Shl(b, k)) == a + Shl(b, k)
    decreases k
  {
    if k > 0 {
      OrAppend(a / 2, b, k - 1);
    }
  }

  lemma {:induction false} TestAppend(a: nat, b: nat, k: nat, i: nat)
    requires a < Pow2(k) && b < 2
    ensures TestBit(Shl(b, k) + a, i) == if i < k then TestBit(a, i) else i == k && b == 1
    decreases k
  {
    if k > 0 {
      assert (Shl(b, k) + a) / 2 == Shl(b, k - 1) + a / 2;
      if i > 0 {
        TestAppend(a / 2, b, k - 1, i - 1);
      }
    } else if i > 0 {
      TestZero(i - 1);
    }
  }

  lemma {:induction false} TestRev(v: nat, n: nat, i: nat)
    ensures TestBit(Rev(v, n), i) == (i < n && TestBit(v, n - 1 - i))
    decreases n
  {
    if n == 0 {
      TestZero(i);
    } else {
      RevBound(v / 2, n - 1);
      TestAppend(Rev(v / 2, n - 1), v % 2, n - 1, i);
      TestRev(v / 2, n - 1, i);
    }
  }

  // ---- stbi__bitreverse16 ---------------------------------------------------------------------

  /** One line of stbi__bitreverse16: exchange neighbouring groups of k bits. */
  function SwapGroups(n: nat, k: nat, hi: nat, lo: nat): nat {
    Or(Shr(And(n, hi), k), Shl(And(n, lo), k))
  }

  function BitReverse16(n: nat): nat {
    var n1 := SwapGroups(n, 1, 0xAAAA, 0x5555);
    var n2 := SwapGroups(n1, 2, 0xCCCC, 0x3333);
    var n3 := SwapGroups(n2, 4, 0xF0F0, 0x0F0F);
    SwapGroups(n3, 8, 0xFF00, 0x00FF)
  }

  /** stbi__bit_reverse: reverse 16 bits and shift. */
  function BitReverse(v: nat, bits: nat): nat
    requires bits <= 16
  {
    Shr(BitReverse16(v), 16 - bits)
  }

  /** Whether bit i lies in the upper group of its pair of groups of k bits. */
  predicate Upper(i: nat, k: nat) {
    if k == 1 then i % 2 == 1 else if k == 2 then i / 2 % 2 == 1 else if k == 4 then i / 4 % 2 == 1 else i / 8 % 2 == 1
  }

  /** The bit that lands in position i when groups of k bits are exchanged. */
  function Swapped(i: nat, k: nat): (j: int)
  {
    if Upper(i, k) then i - k else i + k
  }

  ghost predicate GroupMasks(k: nat, hi: nat, lo: nat)
  {
    && hi < 0x1_0000 && lo < 0x1_0000
    && forall i: nat | i < 16 :: TestBit(hi, i) == Upper(i, k) && TestBit(lo, i) == !Upper(i, k)
  }

  lemma ShrFour(m: nat, k: nat)
    requires k >= 4
    ensures Shr(m, k) == Shr(m / 16, k - 4)
  {
    assert Shr(m, k) == Shr(m / 2, k - 1);
    assert Shr(m / 2, k - 1) == Shr(m / 4, k - 2);
    assert Shr(m / 4, k - 2) == Shr(m / 8, k - 3);
  }

  lemma ShrEight(m: nat, k: nat)
    requires k == 8
    ensures Shr(m, k) == m / 256
  {
    ShrFour(m, k);
    ShrFour(m / 16, k - 4);
  }

  lemma HighByte(m: nat, k: nat)
    requires k == 8
    ensures forall i: nat | k <= i < 16 :: TestBit(m, i) == TestBit(m / 256, i - k)
  {
    forall i: nat | k <= i < 16
      ensures TestBit(m, i) == TestBit(m / 256, i - k)
    {
      TestShr(m, k, i - k);
      ShrEight(m, k);
    }
  }

  lemma Masks1()
    ensures GroupMasks(1, 0xAAAA, 0x5555)
  {
    assert !TestBit(0xAAAA, 0) && TestBit(0xAAAA, 1) && !TestBit(0xAAAA, 2) && TestBit(0xAAAA, 3) && !TestBit(0xAAAA, 4) && TestBit(0xAAAA, 5) && !TestBit(0xAAAA, 6) && TestBit(0xAAAA, 7);
    assert !TestBit(0xAA, 0) && TestBit(0xAA, 1) && !TestBit(0xAA, 2) && TestBit(0xAA, 3) && !TestBit(0xAA, 4) && TestBit(0xAA, 5) && !TestBit(0xAA, 6) && TestBit(0xAA, 7);
    HighByte(0xAAAA, 8);
    assert TestBit(0x5555, 0) && !TestBit(0x5555, 1) && TestBit(0x5555, 2) && !TestBit(0x5555, 3) && TestBit(0x5555, 4) && !TestBit(0x5555, 5) && TestBit(0x5555, 6) && !TestBit(0x5555, 7);
    assert TestBit(0x55, 0) && !TestBit(0x55, 1) && TestBit(0x55, 2) && !TestBit(0x55, 3) && TestBit(0x55, 4) && !TestBit(0x55, 5) && TestBit(0x55, 6) && !TestBit(0x55, 7);
    HighByte(0x5555, 8);
  }

  lemma Masks2()
    ensures GroupMasks(2, 0xCCCC, 0x3333)
  {
    assert !TestBit(0xCCCC, 0) && !TestBit(0xCCCC, 1) && TestBit(0xCCCC, 2) && TestBit(0xCCCC, 3) && !TestBit(0xCCCC, 4) && !TestBit(0xCCCC, 5) && TestBit(0xCCCC, 6) && TestBit(0xCCCC, 7);
    assert !TestBit(0xCC, 0) && !TestBit(0xCC, 1) && TestBit(0xCC, 2) && TestBit(0xCC, 3) && !TestBit(0xCC, 4) && !TestBit(0xCC, 5) && TestBit(0xCC, 6) && TestBit(0xCC, 7);
    HighByte(0xCCCC, 8);
    assert TestBit(0x3333, 0) && TestBit(0x3333, 1) && !TestBit(0x3333, 2) && !TestBit(0x3333, 3) && TestBit(0x3333, 4) && TestBit(0x3333, 5) && !TestBit(0x3333, 6) && !TestBit(0x3333, 7);
    assert TestBit(0x33, 0) && TestBit(0x33, 1) && !TestBit(0x33, 2) && !TestBit(0x33, 3) && TestBit(0x33, 4) && TestBit(0x33, 5) && !TestBit(0x33, 6) && !TestBit(0x33, 7);
    HighByte(0x3333, 8);
  }

  lemma Masks4()
    ensures GroupMasks(4, 0xF0F0, 0x0F0F)
  {
    assert !TestBit(0xF0F0, 0) && !TestBit(0xF0F0, 1) && !TestBit(0xF0F0, 2) && !TestBit(0xF0F0, 3) && TestBit(0xF0F0, 4) && TestBit(0xF0F0, 5) && TestBit(0xF0F0, 6) && TestBit(0xF0F0, 7);
    assert !TestBit(0xF0, 0) && !TestBit(0xF0, 1) && !TestBit(0xF0, 2) && !TestBit(0xF0, 3) && TestBit(0xF0, 4) && TestBit(0xF0, 5) && TestBit(0xF0, 6) && TestBit(0xF0, 7);
    HighByte(0xF0F0, 8);
    assert TestBit(0x0F0F, 0) && TestBit(0x0F0F, 1) && TestBit(0x0F0F, 2) && TestBit(0x0F0F, 3) && !TestBit(0x0F0F, 4) && !TestBit(0x0F0F, 5) && !TestBit(0x0F0F, 6) && !TestBit(0x0F0F, 7);
    assert TestBit(0x0F, 0) && TestBit(0x0F, 1) && TestBit(0x0F, 2) && TestBit(0x0F, 3) && !TestBit(0x0F, 4) && !TestBit(0x0F, 5) && !TestBit(0x0F, 6) && !TestBit(0x0F, 7);
    HighByte(0x0F0F, 8);
  }

  lemma Masks8()
    ensures GroupMasks(8, 0xFF00, 0x00FF)
  {
    assert !TestBit(0xFF00, 0) && !TestBit(0xFF00, 1) && !TestBit(0xFF00, 2) && !TestBit(0xFF00, 3) && !TestBit(0xFF00, 4) && !TestBit(0xFF00, 5) && !TestBit(0xFF00, 6) && !TestBit(0xFF00, 7);
    assert TestBit(0xFF, 0) && TestBit(0xFF, 1) && TestBit(0xFF, 2) && TestBit(0xFF, 3) && TestBit(0xFF, 4) && TestBit(0xFF, 5) && TestBit(0xFF, 6) && TestBit(0xFF, 7);
    HighByte(0xFF00, 8);
    assert TestBit(0x00FF, 0) && TestBit(0x00FF, 1) && TestBit(0x00FF, 2) && TestBit(0x00FF, 3) && TestBit(0x00FF, 4) && TestBit(0x00FF, 5) && TestBit(0x00FF, 6) && TestBit(0x00FF, 7);
    assert !TestBit(0x00, 0) && !TestBit(0x00, 1) && !TestBit(0x00, 2) && !TestBit(0x00, 3) && !TestBit(0x00, 4) && !TestBit(0x00, 5) && !TestBit(0x00, 6) && !TestBit(0x00, 7);
    HighByte(0x00FF, 8);
  }

  lemma TestMaskedShifts(n: nat, k: nat, hi: nat, lo: nat, i: nat)
    ensures TestBit(SwapGroups(n, k, hi, lo), i)
         == ((TestBit(n, i + k) && TestBit(hi, i + k)) || (i >= k && TestBit(n, i - k) && TestBit(lo, i - k)))
  {
    TestOr(Shr(And(n, hi), k), Shl(And(n, lo), k), i);
    TestShr(And(n, hi), k, i);
    TestAnd(n, hi, i + k);
    TestShl(And(n, lo), k, i);
    if i >= k {
      TestAnd(n, lo, i - k);
    }
  }

  lemma Neighbours(i: nat, k: nat)
    requires (k == 1 || k == 2 || k == 4 || k == 8) && i < 16
    ensures if Upper(i, k) then i >= k && !Upper(i - k, k) && !Upper(i + k, k)
            else i + k < 16 && Upper(i + k, k) && (i >= k ==> Upper(i - k, k))
  {
    if k == 1 {
    } else if k == 2 {
      assert i < 2 || (i - 2) / 2 == i / 2 - 1;
    } else if k == 4 {
      assert i < 4 || (i - 4) / 4 == i / 4 - 1;
    } else {
      assert i < 8 || (i - 8) / 8 == i / 8 - 1;
    }
  }

  lemma TestSwapGroups(n: nat, k: nat, hi: nat, lo: nat, i: nat)
    requires (k == 1 || k == 2 || k == 4 || k == 8) && GroupMasks(k, hi, lo) && i < 16
    ensures 0 <= Swapped(i, k) < 16
    ensures TestBit(SwapGroups(n, k, hi, lo), i) == TestBit(n, Swapped(i, k))
  {
    TestMaskedShifts(n, k, hi, lo, i);
    Neighbours(i, k);
    if i + k >= 16 {
      MaskHigh(hi, i + k);
    } else {
      assert TestBit(hi, i + k) == Upper(i + k, k);
    }
    if i >= k {
      assert TestBit(lo, i - k) == !Upper(i - k, k);
    }
  }

  lemma SwappedFour(i: nat, i3: nat, i2: nat, i1: nat)
    requires i < 16 && i3 == Swapped(i, 8) && i2 == Swapped(i3, 4) && i1 == Swapped(i2, 2)
    ensures Swapped(i1, 1) == 15 - i
  {
    assert i3 == if i < 8 then i + 8 else i - 8;
    assert i2 == if i < 4 then i + 12 else if i < 8 then i + 4 else if i < 12 then i - 4 else i - 12;
    assert i1 % 2 == i % 2;
  }

  lemma MaskHigh(m: nat, i: nat)
    requires m < 0x1_0000 && i >= 16
    ensures !TestBit(m, i)
  {
    Pow2Small();
    Pow2Mono(16, i);
    TestHigh(m, i);
  }

  lemma BitReverseHigh(n: nat, i: nat)
    requires i >= 16
    ensures !TestBit(SwapGroups(n, 8, 0xFF00, 0x00FF), i)
  {
    TestMaskedShifts(n, 8, 0xFF00, 0x00FF, i);
    MaskHigh(0xFF00, i + 8);
    Masks8();
    if i - 8 >= 16 {
      MaskHigh(0x00FF, i - 8);
    }
  }

  /** The masks and shifts reverse the low sixteen bits. */
  lemma BitReverse16IsRev(n: nat)
    ensures BitReverse16(n) == Rev(n, 16)
  {
    Masks1();
    Masks2();
    Masks4();
    Masks8();
    var n1 := SwapGroups(n, 1, 0xAAAA, 0x5555);
    var n2 := SwapGroups(n1, 2, 0xCCCC, 0x3333);
    var n3 := SwapGroups(n2, 4, 0xF0F0, 0x0F0F);
    forall i: nat
      ensures TestBit(BitReverse16(n), i) == TestBit(Rev(n, 16), i)
    {
      var bits := 16;
      TestRev(n, bits, i);
      if i < 16 {
        TestSwapGroups(n3, 8, 0xFF00, 0x00FF, i);
        var i3 := Swapped(i, 8);
        TestSwapGroups(n2, 4, 0xF0F0, 0x0F0F, i3);
        var i2 := Swapped(i3, 4);
        TestSwapGroups(n1, 2, 0xCCCC, 0x3333, i2);
        var i1 := Swapped(i2, 2);
        TestSwapGroups(n, 1, 0xAAAA, 0x5555, i1);
        SwappedFour(i, i3, i2, i1);
      } else {
        BitReverseHigh(n3, i);
      }
    }
    SameBits(BitReverse16(n), Rev(n, 16));
  }

  /** For a code of at most that many bits, stbi__bit_reverse reverses it. */
  lemma BitReverseIsRev(v: nat, bits: nat)
    requires bits <= 16 && v < Pow2(bits)
    ensures BitReverse(v, bits) == Rev(v, bits)
  {
    var word := 16;
    BitReverse16IsRev(v);
    RevPrefix(v, bits, word);
  }
}
