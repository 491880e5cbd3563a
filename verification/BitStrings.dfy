/** Bit strings, and how encoders pack them into bytes, low bits first. */
module BitStrings {
  import opened Bits

  type BitString = s: seq<nat> | forall i | 0 <= i < |s| :: s[i] < 2

  function BitsOf(v: nat, n: nat): (b: BitString)
    ensures |b| == n
  {
    if n == 0 then [] else [v % 2] + BitsOf(v / 2, n - 1)
  }

  /** The value of the first n bits. */
  function ValueOf(b: BitString, n: nat): (v: nat)
    ensures v < Pow2(n)
    decreases n, |b|
  {
    if n == 0 || b == [] then 0 else b[0] + 2 * ValueOf(b[1..], n - 1)
  }

  /** The bytes of a bit string, the last one filled up with zeros. */
  function Packed(b: BitString): (data: seq<byte>)
    ensures |b| <= 8 * |data|
    decreases |b|
  {
    if b == [] then []
    else
      var n := 8;
      Pow2Small();
      [ValueOf(b, n) as byte] + Packed(if |b| <= 8 then [] else b[8..])
  }

  lemma {:induction false} ValueBit(b: BitString, n: nat, i: nat)
    requires i < n && i < |b|
    ensures Shr(ValueOf(b, n), i) % 2 == b[i]
    decreases i
  {
    if i > 0 {
      ValueBit(b[1..], n - 1, i - 1);
      assert ValueOf(b, n) / 2 == ValueOf(b[1..], n - 1);
    }
  }

  /** Packing keeps every bit. */
  lemma {:induction false} PackedBit(b: BitString, i: nat)
    requires i < |b|
    ensures Bit(Packed(b), i) == b[i]
    decreases i
  {
    if i < 8 {
      ValueBit(b, 8, i);
    } else {
      PackedBit(b[8..], i - 8);
    }
  }

  lemma {:induction false} BitsHold(data: seq<byte>, pos: nat, v: nat, n: nat)
    requires v < Pow2(n) && forall k | 0 <= k < n :: Bit(data, pos + k) == BitsOf(v, n)[k]
    ensures Val(data, pos, n) == v
    decreases n
  {
    if n > 0 {
      var b, others := BitsOf(v, n), BitsOf(v / 2, n - 1);
      assert Bit(data, pos + 0) == b[0];
      forall k | 0 <= k < n - 1 ensures Bit(data, pos + 1 + k) == others[k] {
        assert Bit(data, pos + (k + 1)) == b[k + 1];
      }
      BitsHold(data, pos + 1, v / 2, n - 1);
    }
  }

  /** The bits stand at pos. */
  predicate Stands(data: seq<byte>, pos: nat, b: BitString) {
    pos + |b| <= 8 * |data| && forall k | 0 <= k < |b| :: Bit(data, pos + k) == b[k]
  }

  lemma StandsSplit(data: seq<byte>, pos: nat, a: BitString, b: BitString)
    requires Stands(data, pos, a + b)
    ensures Stands(data, pos, a) && Stands(data, pos + |a|, b)
  {
    assert forall k | 0 <= k < |a| :: (a + b)[k] == a[k];
    forall k | 0 <= k < |b| ensures Bit(data, pos + |a| + k) == b[k] {
      assert (a + b)[|a| + k] == b[k];
      assert Bit(data, pos + (|a| + k)) == (a + b)[|a| + k];
    }
  }

  /** The low n bits of v, the most significant one first. */
  function MsbBits(v: nat, n: nat): (b: BitString)
    ensures |b| == n
  {
    if n == 0 then [] else MsbBits(v / 2, n - 1) + [v % 2]
  }

  lemma {:induction false} MsbBitsHold(data: seq<byte>, pos: nat, v: nat, n: nat)
    requires v < Pow2(n) && forall k | 0 <= k < n :: Bit(data, pos + k) == MsbBits(v, n)[k]
    ensures MsbVal(data, pos, n) == v
    decreases n
  {
    if n > 0 {
      var b, front := MsbBits(v, n), MsbBits(v / 2, n - 1);
      assert Bit(data, pos + (n - 1)) == b[n - 1];
      forall k | 0 <= k < n - 1 ensures Bit(data, pos + k) == front[k] {
        assert Bit(data, pos + k) == b[k];
      }
      MsbBitsHold(data, pos, v / 2, n - 1);
    }
  }

  /** Packed bits stand at the start, and behind whole bytes put before them. */
  lemma PackedStands(b: BitString)
    ensures Stands(Packed(b), 0, b)
  {
    forall k | 0 <= k < |b| ensures Bit(Packed(b), 0 + k) == b[k] {
      PackedBit(b, k);
    }
  }

  lemma {:induction false} BitBehind(front: seq<byte>, data: seq<byte>, i: nat)
    ensures Bit(front + data, 8 * |front| + i) == Bit(data, i)
    decreases |front|
  {
    if front == [] {
      assert front + data == data;
    } else {
      assert (front + data)[1..] == front[1..] + data;
      BitBehind(front[1..], data, i);
    }
  }

  lemma StandsBehind(front: seq<byte>, data: seq<byte>, b: BitString)
    requires Stands(data, 0, b)
    ensures Stands(front + data, 8 * |front|, b)
  {
    forall k | 0 <= k < |b| ensures Bit(front + data, 8 * |front| + k) == b[k] {
      BitBehind(front, data, k);
      assert Bit(data, 0 + k) == b[k];
    }
  }
}
