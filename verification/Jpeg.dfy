/** The JPEG decoder's bit reader and the decoding of AC coefficients, with and without the table that
    decodes small coefficients in one go. */
module JpegDecoder {
  import opened Bits
  import opened Context
  import opened Folding
  import opened JpegHuffmanTables
  import opened JpegOrder
  import opened JpegSpec
  import opened Options

  class Jpeg {
    const s: Source
    var codeBuffer: nat
    var codeBits: int
    var marker: byte
    var nomore: bool
    /** The data bytes of the scan, how many of them (or of the zeros behind them) have been read, and the
        position of the next bit. */
    ghost const data: seq<byte>
    ghost var fed: nat
    ghost var pos: nat

    constructor (source: Source)
      ensures Valid() && s == source && data == Unstuffed(source.Rest()) && pos == 0
    {
      s, codeBuffer, codeBits, marker, nomore := source, 0, 0, 0xFF, false;
      data, fed, pos := Unstuffed(source.Rest()), 0, 0;
      new;
      ShlZero(32);
    }

    /** The data bytes still unread. */
    ghost function Ahead(): seq<byte>
      reads this, s
    {
      if nomore then [] else Unstuffed(s.Rest())
    }

    /** The bytes read and those ahead are the data, or the data has ended. */
    ghost predicate Fed()
      reads this, s
    {
      if fed <= |data| then data[fed..] == Ahead() else Ahead() == []
    }

    /** The buffer holds the next bits at its top and zeros below. */
    ghost predicate Valid()
      reads this, s
    {
      0 <= codeBits <= 32 && 8 * fed == pos + codeBits && Fed() &&
      codeBuffer == Shl(Stream(data, pos, codeBits), 32 - codeBits)
    }

    /** No marker is still to be met: behind the data the program reads zeros. */
    ghost predicate Endless()
      reads this, s
    {
      nomore || !Marked(s.Rest())
    }

    /** The limit is the end of the data; or there is none, which needs that no marker is still to be met. */
    ghost predicate Within(limit: Option<nat>)
      reads this, s
    {
      if limit.Some? then limit.value == 8 * |data| else Endless()
    }

    /** The next data byte, or a zero behind the data; false at the marker that ends the data. */
    method NextByte() returns (b: byte, more: bool)
      modifies this`marker, this`nomore, s
      ensures old(Endless()) ==> more && Endless()
      ensures if more then b == Head(old(Ahead())) && Ahead() == Tail(old(Ahead())) else nomore && old(Ahead()) == []
    {
      more, b := true, 0;
      if nomore {
        return;
      }
      b := s.Get8();
      if b == 0xFF {
        ghost var first := s.Rest();
        ghost var x := first;
        var c := s.Get8();
        while c == 0xFF
          invariant c == Head(x) && s.Rest() == Tail(x) && SkipFill(x) == SkipFill(first) && !nomore
          decreases |x|
        {
          x := x[1..];
          c := s.Get8();
        }
        if c != 0 {
          marker, nomore, more := c, true, false;
        }
      }
    }

    /** All bits that are not in the buffer are zeros. */
    ghost predicate Ended()
      reads this, s
    {
      fed >= |data| && Ahead() == []
    }

    method AddByte(b: byte)
      requires 0 <= codeBits <= 24 && 8 * fed == pos + codeBits && b as nat == Stream(data, 8 * fed, 8)
      requires codeBuffer == Shl(Stream(data, pos, codeBits), 32 - codeBits)
      modifies this`codeBuffer, this`codeBits, this`fed
      ensures codeBits == old(codeBits) + 8 && fed == old(fed) + 1
      ensures codeBuffer == Shl(Stream(data, pos, codeBits), 32 - codeBits)
    {
      Appended(Stream(data, pos, codeBits), b as nat, 24 - codeBits);
      StreamSplit(data, pos, codeBits, 8);
      codeBuffer := Or(Shl(b as nat, 24 - codeBits), codeBuffer);
      codeBits, fed := codeBits + 8, fed + 1;
    }

    /** One more byte, unless a marker ends the data. */
    method GrowByte() returns (more: bool)
      requires Valid() && codeBits <= 24
      modifies this`codeBuffer, this`codeBits, this`fed, this`marker, this`nomore, s
      ensures Valid() && if more then codeBits == old(codeBits) + 8 else codeBits == old(codeBits) && Ended()
      ensures old(Endless()) ==> more && Endless()
    {
      var b;
      b, more := NextByte();
      if more {
        NextIs(fed, b);
        AddByte(b);
      }
    }

    /** A byte read is the next eight bits of the data, zeros behind it included. */
    lemma NextIs(k: nat, b: byte)
      requires b == if k < |data| then data[k] else 0
      ensures b as nat == Stream(data, 8 * k, 8)
    {
      StreamByte(data, k, 8 * k, 8);
    }

    /** Reads bytes until there are more than 24 bits, or a marker ends the data. */
    method GrowBuffer()
      requires Valid() && codeBits <= 24
      modifies this`codeBuffer, this`codeBits, this`fed, this`marker, this`nomore, s
      ensures Valid() && codeBits >= old(codeBits) && (codeBits > 24 || Ended())
      ensures old(Endless()) ==> codeBits > 24 && Endless()
    {
      var again := true;
      while again
        invariant Valid() && old(codeBits) <= codeBits && (again ==> codeBits <= 24) && (!again ==> codeBits > 24)
        invariant old(Endless()) ==> Endless()
        decreases 32 - codeBits
      {
        var more := GrowByte();
        if !more {
          return;
        }
        again := codeBits <= 24;
      }
    }

    /** The top bits of the buffer are the next bits of the data, if enough of them are in it. */
    lemma TopBits(n: nat)
      requires Valid() && n <= 32 && (codeBits >= n || Ended())
      ensures Shr(codeBuffer, 32 - n) == Stream(data, pos, n)
    {
      if codeBits >= n {
        TopOfBuffer(Stream(data, pos, codeBits), codeBits, n);
        StreamTop(data, pos, n, codeBits);
      } else {
        StreamSplit(data, pos, codeBits, n - codeBits);
        StreamPastEnd(data, 8 * fed, n - codeBits);
        PaddedBuffer(Stream(data, pos, codeBits), codeBits, n);
      }
    }

    /** Drops the next n bits. */
    method Consume(n: nat)
      requires Valid() && n <= codeBits
      modifies this`codeBuffer, this`codeBits, this`pos
      ensures Valid() && pos == old(pos) + n && codeBits == old(codeBits) - n
    {
      var w := 32;
      Consumed(data, pos, n, codeBits - n, w - (codeBits - n));
      codeBuffer := Low(Shl(codeBuffer, n), w);
      codeBits, pos := codeBits - n, pos + n;
    }

    // ---- Symbols and values ---------------------------------------------------------------------------

    /** The value of the next symbol as the program reads it, or -1 if there is none or it ends behind the limit. */
    method HuffDecode(h: Huffman, ghost sizes: seq<nat>, ghost read: Option<Reading>, ghost limit: Option<nat>) returns (v: int)
      requires Valid() && Within(limit) && h.Tables(sizes) && Reads(sizes, data, pos, read)
      modifies this`codeBuffer, this`codeBits, this`fed, this`pos, this`marker, this`nomore, s
      ensures Decoded(read, v, old(pos), h.values, limit) && Within(limit)
    {
      var w := NextWord(limit);
      var i, len := h.FindSymbol(w, sizes);
      FoundRead(sizes, data, pos, read, i, len);
      v := -1;
      if len == 17 {
        codeBits := codeBits - 16;
      } else if len <= codeBits && 0 <= i < 256 {
        Consume(len);
        v := h.values[i] as int;
      }
    }

    /** What HuffDecode promises, given the reading of the next 16 bits. */
    ghost predicate Decoded(r: Option<Reading>, v: int, before: nat, values: seq<byte>, limit: Option<nat>)
      requires |values| == 256 && (r.Some? ==> r.value.symbol < 256)
      reads this, s
    {
      match r
      case None => v == -1
      case Some(x) =>
        if v == -1 then Beyond(limit, before + x.len)
        else Valid() && v == values[x.symbol] as int && pos == before + x.len
    }

    /** Makes the buffer hold n bits, unless the limit is in the way. */
    method Fill(n: nat, ghost limit: Option<nat>)
      requires Valid() && Within(limit) && n <= 16
      modifies this`codeBuffer, this`codeBits, this`fed, this`marker, this`nomore, s
      ensures Valid() && Within(limit) && (codeBits >= n || (Ended() && Beyond(limit, pos + n)))
    {
      if codeBits < n {
        GrowBuffer();
      }
    }

    /** The next 16 bits, zeros standing in behind the data. */
    method NextWord(ghost limit: Option<nat>) returns (w: nat)
      requires Valid() && Within(limit)
      modifies this`codeBuffer, this`codeBits, this`fed, this`marker, this`nomore, s
      ensures Valid() && Within(limit) && w == Stream(data, pos, 16) < 0x1_0000 && (codeBits >= 16 || (Ended() && Beyond(limit, pos + 16)))
    {
      Fill(16, limit);
      TopBits(16);
      StreamWord(data, pos, 16);
      w := Shr(codeBuffer, 16);
    }

    /** The next n bits as a value; false if they end behind the limit. */
    method ExtendReceive(n: nat, ghost limit: Option<nat>) returns (v: int, ghost got: bool)
      requires Valid() && Within(limit) && 0 < n <= 15
      modifies this`codeBuffer, this`codeBits, this`fed, this`pos, this`marker, this`nomore, s
      ensures Valid() && Within(limit) && (!got ==> Beyond(limit, old(pos) + n))
      ensures got ==> v == Extend(Stream(data, old(pos), n), n) && pos == old(pos) + n
    {
      Fill(n, limit);
      if codeBits < n {
        return 0, false;
      }
      TopBits(1);
      TopBits(n);
      SignBit(data, pos, n);
      var positive := Shr(codeBuffer, 31) == 1;
      v := Shr(codeBuffer, 32 - n);
      Consume(n);
      if !positive {
        v := v - Shl(1, n) + 1;
      }
      ShlOne(n);
      got := true;
    }

    // ---- AC coefficients ------------------------------------------------------------------------------

    /** What one turn of the coefficient loop read. Behind the limit nothing is promised but a valid buffer. */
    ghost predicate Took(ac: Ac, kind: Kind, run: nat, v: int)
      reads this, s
    {
      (kind != Bad ==> Valid()) && (kind == Value ==> run < 16) &&
      match ac
      case NoCode => kind == Bad
      case Overrun => true
      case EndOfBlock(p) => kind == End && pos == p
      case SixteenZeros(p) => kind == Zeros && pos == p
      case Coefficient(r, value, p) => kind == Value && run == r && v == value && pos == p
    }

    /** A code by the Huffman tables, and its additional bits. */
    method SlowAc(h: Huffman, ghost sizes: seq<nat>, ghost read: Option<Reading>, ghost limit: Option<nat>)
      returns (kind: Kind, run: nat, v: int)
      requires Valid() && Within(limit) && h.Tables(sizes) && Reads(sizes, data, pos, read)
      modifies this`codeBuffer, this`codeBits, this`fed, this`pos, this`marker, this`nomore, s
      ensures Took(AcOf(read, h.values, data, limit, old(pos)), kind, run, v) && Within(limit)
    {
      kind, run, v := Bad, 0, 0;
      var rs := HuffDecode(h, sizes, read, limit);
      if rs >= 0 {
        var t := rs % 16;
        run := rs / 16;
        if t == 0 {
          kind := if rs != 0xF0 then End else Zeros;
        } else {
          ghost var got;
          v, got := ExtendReceive(t, limit);
          kind := Value;
        }
      }
    }

    /** A code and its additional bits in one go, if the table has an entry for the next nine bits. */
    method FastAc(fac: array<int>, h: Huffman, ghost sizes: seq<nat>, ghost limit: Option<nat>)
      returns (hit: bool, kind: Kind, run: nat, v: int)
      requires Valid() && Within(limit) && h.Tables(sizes) && FacTable(fac, h, sizes)
      modifies this`codeBuffer, this`codeBits, this`fed, this`pos, this`marker, this`nomore, s
      ensures if hit then Took(NextAc(sizes, h.values, data, limit, old(pos), true), kind, run, v) else Valid() && pos == old(pos)
      ensures Within(limit)
    {
      if codeBits < 16 {
        GrowBuffer();
      }
      TopBits(9);
      NineBits(data, pos, 9);
      var c := Shr(codeBuffer, 32 - FAST_BITS);
      var r := fac[c];
      hit, kind, run, v := r != 0, Bad, 0, 0;
      if hit {
        FacAgrees(fac, h, sizes, data, limit, pos, c);
        var n := r % 16;
        run, v := r / 16 % 16, r / 256;
        if n <= codeBits {
          Consume(n);
          kind := Value;
        }
      }
    }

    /** One coefficient or what stands for several: by the table of small coefficients if it has an entry,
        else by the Huffman tables. */
    method TakeAc(fac: array<int>, h: Huffman, ghost sizes: seq<nat>, ghost ac: Ac, ghost limit: Option<nat>)
      returns (kind: Kind, run: nat, v: int)
      requires Valid() && Within(limit) && h.Tables(sizes) && FacTable(fac, h, sizes) && IsNext(sizes, h.values, data, limit, pos, ac)
      modifies this`codeBuffer, this`codeBits, this`fed, this`pos, this`marker, this`nomore, s
      ensures Took(ac, kind, run, v) && Within(limit)
    {
      assert Guard(0);
      ghost var read := Read(sizes, Stream(data, pos, 16), true);
      var hit;
      hit, kind, run, v := FastAc(fac, h, sizes, limit);
      if !hit {
        kind, run, v := SlowAc(h, sizes, read, limit);
      }
    }

    /** What a decoded block must be. */
    ghost predicate BlockIs(whole: Block, ok: bool, out: seq<int>)
      reads this, s
    {
      match whole
      case Block(coefs, p) => ok && Valid() && out == coefs && pos == p
      case Undecodable => !ok
      case Truncated => true
    }

    /** The block holds the values read, each at its place by rows and columns. */
    ghost predicate HoldsValues(r: Values, quant: seq<nat>, ok: bool, before: seq<int>, out: seq<int>)
      reads this, s
    {
      r.Values? ==> ok && Valid() && pos == r.pos && Laid(r.coefs, quant, before, out)
    }

    /** One turn of the coefficient loop. */
    method AcTurn(fac: array<int>, h: Huffman, out: array<int>, quant: seq<nat>, k: nat, ghost sizes: seq<nat>, ghost whole: Block,
                  ghost limit: Option<nat>)
      returns (kind: Kind, k': nat)
      requires Valid() && Within(limit) && h.Tables(sizes) && FacTable(fac, h, sizes)
      requires out.Length == 64 && |quant| == 64 && out != fac && k < 64
      requires Leads(sizes, h.values, quant, data, limit, pos, k, out[..], whole)
      modifies this`codeBuffer, this`codeBits, this`fed, this`pos, this`marker, this`nomore, s, out
      ensures Within(limit)
      ensures kind == Bad ==> whole == Truncated || whole == Undecodable
      ensures kind == End ==> BlockIs(whole, true, out[..])
      ensures kind == Zeros || kind == Value ==>
                k' > k && Valid() && Leads(sizes, h.values, quant, data, limit, pos, k', out[..], whole)
    {
      ghost var coefs := out[..];
      ghost var ac := NextCoefficient(sizes, h.values, quant, data, limit, pos, k, coefs, whole);
      var run, v;
      kind, run, v := TakeAc(fac, h, sizes, ac, limit);
      k' := k + 16;
      if kind == Value {
        var zig := Zigzag(k + run);
        out[zig] := Dequantized(v, quant[zig]);
        k' := k + run + 1;
        assert out[..] == coefs[zig := Dequantized(v, quant[zig])];
      }
      if kind == Value || kind == Zeros {
        AfterCode(sizes, h.values, quant, data, limit, k, coefs, whole, ac, kind, run, v, pos, k', out[..]);
      }
    }

    method AcLoop(fac: array<int>, h: Huffman, out: array<int>, quant: seq<nat>, ghost sizes: seq<nat>, ghost whole: Block, ghost limit: Option<nat>)
      returns (ok: bool)
      requires Valid() && Within(limit) && h.Tables(sizes) && FacTable(fac, h, sizes)
      requires out.Length == 64 && |quant| == 64 && out != fac
      requires Leads(sizes, h.values, quant, data, limit, pos, 1, out[..], whole)
      modifies this`codeBuffer, this`codeBits, this`fed, this`pos, this`marker, this`nomore, s, out
      ensures BlockIs(whole, ok, out[..]) && Within(limit)
    {
      var k: nat := 1;
      while k < 64
        invariant Valid() && Within(limit) && Leads(sizes, h.values, quant, data, limit, pos, k, out[..], whole)
      {
        var kind;
        kind, k := AcTurn(fac, h, out, quant, k, sizes, whole, limit);
        if kind == Bad || kind == End {
          return kind == End;
        }
      }
      LastCoefficient(sizes, h.values, quant, data, limit, pos, k, out[..], whole);
      ok := true;
    }

    /** The limit of a block: the end of the data if a marker is still to be met; otherwise there is none. */
    ghost function Limit(): Option<nat>
      reads this, s
    {
      if Endless() then None else Some(8 * |data|)
    }

    /** The AC coefficients of a block, in row-major order and dequantized, from the symbols as the program reads
        them; with a regular table, as T.81 says. A code that does not exist is refused. Once the marker at the end of
        the data has been met, or if there is none, the data goes on in zeros, and every block is as these say; before
        that, a block whose bits do not end within the data may be refused. */
    method DecodeAcBlock(fac: array<int>, h: Huffman, out: array<int>, quant: seq<nat>, ghost sizes: seq<nat>) returns (ok: bool)
      requires Valid() && h.Tables(sizes) && FacTable(fac, h, sizes)
      requires out.Length == 64 && |quant| == 64 && out != fac
      modifies this`codeBuffer, this`codeBits, this`fed, this`pos, this`marker, this`nomore, s, out
      ensures BlockIs(AcBlock(sizes, h.values, quant, data, old(Limit()), old(pos), 1, old(out[..]), true), ok, out[..])
      ensures Regular(sizes) ==>
                BlockIs(AcBlock(sizes, h.values, quant, data, old(Limit()), old(pos), 1, old(out[..]), false), ok, out[..])
      ensures HoldsValues(AcValues(sizes, h.values, data, old(Limit()), old(pos), 1, NoCoefs(), true), quant, ok, old(out[..]), out[..])
      ensures Regular(sizes) ==>
                HoldsValues(AcValues(sizes, h.values, data, old(Limit()), old(pos), 1, NoCoefs(), false), quant, ok, old(out[..]), out[..])
      ensures old(Endless()) ==> Endless()
    {
      ghost var limit := Limit();
      WholeBlockIsLaid(sizes, h.values, quant, data, limit, pos, out[..], true);
      WholeBlockIsLaid(sizes, h.values, quant, data, limit, pos, out[..], false);
      if Regular(sizes) {
        RegularBlock(sizes, h.values, quant, data, limit, pos, 1, out[..]);
      }
      ghost var whole := AcBlock(sizes, h.values, quant, data, limit, pos, 1, out[..], true);
      FirstCoefficient(sizes, h.values, quant, data, limit, pos, out[..], whole);
      ok := AcLoop(fac, h, out, quant, sizes, whole, limit);
    }
  }

  datatype Kind = Bad | End | Zeros | Value

  /** A small coefficient: its value, from the t bits of c behind a code of l bits. */
  ghost function SmallValue(c: nat, l: nat, t: nat): int
    requires 0 < t && l + t <= 9
  {
    Extend(Low(Shr(c, 9 - l - t), t), t)
  }

  /** Entry c of the table of small coefficients, given the fast symbol: the value, the run of zeros and the
      number of bits, if all bits are in c and the value fits; or zero. */
  ghost predicate FacIs(sizes: seq<nat>, values: seq<byte>, f: byte, c: nat, r: int)
    requires |values| == 256
  {
    if f < 255 && f as nat < |sizes| && 0 < values[f] as nat % 16 && sizes[f] + values[f] as nat % 16 <= 9 &&
       -128 <= SmallValue(c, sizes[f], values[f] as nat % 16) <= 127
    then r == Packed(SmallValue(c, sizes[f], values[f] as nat % 16), values[f] as nat / 16, sizes[f] + values[f] as nat % 16)
    else r == 0
  }

  ghost predicate FacTable(fac: array<int>, h: Huffman, sizes: seq<nat>)
    reads fac, h
  {
    fac.Length == 512 && |h.fast| == 512 && |h.values| == 256 &&
    forall c | 0 <= c < 512 :: FacIs(sizes, h.values, h.fast[c], c, fac[c])
  }

  /** Adding 1 - 2^t in 32-bit unsigned arithmetic, the result read as signed. */
  method Negative(k: nat, t: nat) returns (v: int)
    requires 0 < t <= 15 && k < Pow2(t)
    ensures v == k - Pow2(t) + 1
  {
    ShlOne(t);
    var fifteen := 15;
    Pow2Mono(t, fifteen);
    Pow2Small();
    var u := (k + (0x1_0000_0000 - Shl(1, t)) + 1) % 0x1_0000_0000;
    v := if u >= 0x8000_0000 then u - 0x1_0000_0000 else u;
  }

  /** The value in the t bits of i behind a code of len bits. */
  method SmallExtend(i: nat, len: nat, t: nat) returns (k: int)
    requires i < 512 && 0 < t && len + t <= 9
    ensures k == SmallValue(i, len, t)
  {
    var nine := 9;
    Pow2Small();
    OnTop(i, len, t, nine);
    LowBound(Shr(i, 9 - len - t), t);
    ShlOne(t - 1);
    Pow2Mono(t - 1, t);
    k := Shr(Low(Shl(i, len), nine), nine - t);
    if k < Shl(1, t - 1) {
      k := Negative(k, t);
    }
  }

  /** Entry i of the table of small coefficients. */
  method SmallEntry(i: nat, h: Huffman, ghost sizes: seq<nat>) returns (r: int)
    requires i < 512 && h.Tables(sizes)
    ensures FacIs(sizes, h.values, h.fast[i], i, r)
  {
    r := 0;
    var fast := h.fast[i] as nat;
    assert FastIs(sizes, |sizes|, i, h.fast[i]) by {
      assert Guard(0);
    }
    if fast < 255 {
      var rs := h.values[fast] as nat;
      var run, magbits, len := rs / 16, rs % 16, h.size[fast];
      assert len == sizes[fast];
      if magbits > 0 && len + magbits <= FAST_BITS {
        var k := SmallExtend(i, len, magbits);
        if -128 <= k <= 127 {
          r := Packed(k, run, len + magbits);
        }
      }
    }
  }

  /** The table of small coefficients. */
  method BuildFastAc(fac: array<int>, h: Huffman, ghost sizes: seq<nat>)
    requires fac.Length == 512 && h.Tables(sizes)
    modifies fac
    ensures FacTable(fac, h, sizes)
  {
    for i := 0 to 512
      invariant forall c | 0 <= c < i :: FacIs(sizes, h.values, h.fast[c], c, fac[c])
    {
      fac[i] := SmallEntry(i, h, sizes);
    }
  }

  lemma NineBits(data: seq<byte>, p: nat, n: nat)
    requires n == 9
    ensures Stream(data, p, n) < 512
  {
    StreamBound(data, p, n);
    Pow2Small();
  }

  /** The bits behind a code of l bits in the next nine. */
  lemma SmallBits(data: seq<byte>, p: nat, l: nat, t: nat, n: nat)
    requires l + t <= n
    ensures Low(Shr(Stream(data, p, n), n - l - t), t) == Stream(data, p + l, t)
  {
    StreamTop(data, p, l + t, n);
    StreamTop(data, p, l, l + t);
    assert n - (l + t) == n - l - t && (l + t) - l == t;
  }

  lemma SmallValueIs(data: seq<byte>, p: nat, c: nat, l: nat, t: nat, n: nat)
    requires 0 < t && l + t <= n == 9 && c == Stream(data, p, n)
    ensures SmallValue(c, l, t) == Extend(Stream(data, p + l, t), t)
  {
    SmallBits(data, p, l, t, n);
  }

  /** Value, run and number of bits in one number. */
  function Packed(e: int, run: nat, n: nat): int {
    e * 256 + run * 16 + n
  }

  lemma Digit(q: int, n: nat)
    requires n < 16
    ensures (q * 16 + n) / 16 == q && (q * 16 + n) % 16 == n
  {
  }

  lemma Unpacked(e: int, run: nat, n: nat, r: int)
    requires run < 16 && n < 16 && r == Packed(e, run, n)
    ensures r / 256 == e && r / 16 % 16 == run && r % 16 == n
  {
    Digit(e * 16 + run, n);
    Digit(e, run);
    assert r / 256 == r / 16 / 16;
  }

  lemma ReadIs(sizes: seq<nat>, w: nat, i: nat)
    requires ValidSizes(sizes) && Decode(sizes, w, |sizes|) == Some(i) && !Mistaken(sizes, w)
    ensures i < |sizes| && Read(sizes, w, true) == Some(Reading(i, sizes[i]))
  {
  }

  lemma ReadingIs(values: seq<byte>, data: seq<byte>, limit: Option<nat>, pos: nat, i: nat, len: nat, run: nat, t: nat, v: int)
    requires |values| == 256 && i < 256 && t == values[i] as nat % 16 > 0 && run == values[i] as nat / 16
    requires v == Extend(Stream(data, pos + len, t), t)
    ensures var n := len + t;
            AcOf(Some(Reading(i, len)), values, data, limit, pos) == if Beyond(limit, pos + n) then Overrun else Coefficient(run, v, pos + n)
  {
    assert pos + len + t == pos + (len + t);
  }

  lemma CoefficientIs(sizes: seq<nat>, values: seq<byte>, data: seq<byte>, limit: Option<nat>, pos: nat, i: nat, run: nat, t: nat, v: int)
    requires ValidSizes(sizes) && |values| == 256 && Decode(sizes, Stream(data, pos, 16), |sizes|) == Some(i)
    requires !Mistaken(sizes, Stream(data, pos, 16))
    requires i < 256 && t == values[i] as nat % 16 > 0 && run == values[i] as nat / 16
    requires v == Extend(Stream(data, pos + sizes[i], t), t)
    ensures var n := sizes[i] + t;
            NextAc(sizes, values, data, limit, pos, true) == if Beyond(limit, pos + n) then Overrun else Coefficient(run, v, pos + n)
  {
    var w := Stream(data, pos, 16);
    ReadIs(sizes, w, i);
    ReadingIs(values, data, limit, pos, i, sizes[i], run, t, v);
  }

  /** What a coefficient is in terms of its entry. */
  lemma PackedIs(ac: Ac, data: seq<byte>, limit: Option<nat>, pos: nat, n: nat, run: nat, v: int, r: int)
    requires run < 16 && n < 16 && r == Packed(v, run, n)
    requires ac == if Beyond(limit, pos + n) then Overrun else Coefficient(run, v, pos + n)
    ensures ac == if Beyond(limit, pos + r % 16) then Overrun else Coefficient(r / 16 % 16, r / 256, pos + r % 16)
  {
    Unpacked(v, run, n, r);
  }

  /** An entry of the table stands for the very code, run, value and bits that the Huffman code and the
      extension of the value's bits give. */
  lemma SmallCoefficient(sizes: seq<nat>, values: seq<byte>, data: seq<byte>, limit: Option<nat>, pos: nat, c: nat, f: byte, r: int)
    requires ValidSizes(sizes) && |values| == 256 && c == Stream(data, pos, 9)
    requires FastIs(sizes, |sizes|, c, f) && FacIs(sizes, values, f, c, r) && r != 0
    ensures NextAc(sizes, values, data, limit, pos, true) ==
            if Beyond(limit, pos + r % 16) then Overrun else Coefficient(r / 16 % 16, r / 256, pos + r % 16)
  {
    var i := f as nat;
    var l, t, run := sizes[i], values[i] as nat % 16, values[i] as nat / 16;
    var v := SmallValue(c, l, t);
    SmallDecoded(sizes, data, pos, c, f, 9, 16);
    SmallValueIs(data, pos, c, l, t, 9);
    CoefficientIs(sizes, values, data, limit, pos, i, run, t, v);
    PackedIs(NextAc(sizes, values, data, limit, pos, true), data, limit, pos, l + t, run, v, r);
  }

  lemma SmallDecoded(sizes: seq<nat>, data: seq<byte>, pos: nat, c: nat, f: byte, nine: nat, word: nat)
    requires ValidSizes(sizes) && nine == 9 && word == 16 && c == Stream(data, pos, nine)
    requires FastIs(sizes, |sizes|, c, f) && f < 255
    ensures f as nat < |sizes| && Decode(sizes, Stream(data, pos, word), |sizes|) == Some(f as nat)
    ensures !Mistaken(sizes, Stream(data, pos, word))
  {
    StreamTop(data, pos, nine, word);
    FastHit(sizes, Stream(data, pos, word), f as nat);
  }

  lemma FacAgrees(fac: array<int>, h: Huffman, sizes: seq<nat>, data: seq<byte>, limit: Option<nat>, pos: nat, c: nat)
    requires h.Tables(sizes) && FacTable(fac, h, sizes) && c == Stream(data, pos, 9) < 512 && fac[c] != 0
    ensures var r := fac[c];
            NextAc(sizes, h.values, data, limit, pos, true) ==
            if Beyond(limit, pos + r % 16) then Overrun else Coefficient(r / 16 % 16, r / 256, pos + r % 16)
  {
    assert FastIs(sizes, |sizes|, c, h.fast[c]) by {
      assert Guard(0);
    }
    SmallCoefficient(sizes, h.values, data, limit, pos, c, h.fast[c], fac[c]);
  }

  /** The rest of the block, from coefficient k on, comes to whole; unless the block is truncated. */
  ghost predicate Leads(sizes: seq<nat>, values: seq<byte>, quant: seq<nat>, data: seq<byte>, limit: Option<nat>, pos: nat, k: nat, coefs: seq<int>, whole: Block)
    requires ValidSizes(sizes) && |values| == 256 && |quant| == 64 && |coefs| == 64
  {
    forall g: nat :: Guard(g) ==> whole == Truncated || AcBlock(sizes, values, quant, data, limit, pos, k, coefs, true) == whole
  }

  lemma FirstCoefficient(sizes: seq<nat>, values: seq<byte>, quant: seq<nat>, data: seq<byte>, limit: Option<nat>, pos: nat, coefs: seq<int>, whole: Block)
    requires ValidSizes(sizes) && |values| == 256 && |quant| == 64 && |coefs| == 64
    requires whole == AcBlock(sizes, values, quant, data, limit, pos, 1, coefs, true)
    ensures Leads(sizes, values, quant, data, limit, pos, 1, coefs, whole)
  {
  }

  /** What the block comes to after one more code. */
  ghost predicate Goes(sizes: seq<nat>, values: seq<byte>, quant: seq<nat>, data: seq<byte>, limit: Option<nat>, k: nat, coefs: seq<int>, whole: Block, ac: Ac)
    requires ValidSizes(sizes) && |values| == 256 && |quant| == 64 && |coefs| == 64 && k < 64
  {
    match ac
    case NoCode => whole == Truncated || whole == Undecodable
    case Overrun => whole == Truncated
    case EndOfBlock(p) => whole == Truncated || whole == Block(coefs, p)
    case SixteenZeros(p) => Leads(sizes, values, quant, data, limit, p, k + 16, coefs, whole)
    case Coefficient(run, v, p) =>
      run < 16 &&
      var z := Zigzag(k + run);
      Leads(sizes, values, quant, data, limit, p, k + run + 1, coefs[z := Dequantized(v, quant[z])], whole)
  }

  lemma AfterCode(sizes: seq<nat>, values: seq<byte>, quant: seq<nat>, data: seq<byte>, limit: Option<nat>, k: nat, coefs: seq<int>, whole: Block,
                  ac: Ac, kind: Kind, run: nat, v: int, pos': nat, k': nat, coefs': seq<int>)
    requires ValidSizes(sizes) && |values| == 256 && |quant| == 64 && |coefs| == 64 && |coefs'| == 64 && k < 64
    requires Goes(sizes, values, quant, data, limit, k, coefs, whole, ac)
    requires ac == Overrun || (if kind == Value then ac == Coefficient(run, v, pos') else ac == SixteenZeros(pos'))
    requires kind == Value ==> run < 16 && k' == k + run + 1
    requires kind == Value ==> coefs' == coefs[Zigzag(k + run) := Dequantized(v, quant[Zigzag(k + run)])]
    requires kind == Zeros ==> k' == k + 16 && coefs' == coefs
    requires kind == Value || kind == Zeros
    ensures Leads(sizes, values, quant, data, limit, pos', k', coefs', whole)
  {
  }

  /** What the next 16 bits are read as; kept folded, as is what that stands for. */
  ghost predicate Reads(sizes: seq<nat>, data: seq<byte>, pos: nat, read: Option<Reading>)
    requires ValidSizes(sizes)
  {
    (read.Some? ==> read.value.symbol < 256) && forall g: nat :: Guard(g) ==> read == Read(sizes, Stream(data, pos, 16), true)
  }

  lemma FoundRead(sizes: seq<nat>, data: seq<byte>, pos: nat, read: Option<Reading>, i: int, len: nat)
    requires ValidSizes(sizes) && Reads(sizes, data, pos, read) && Found(sizes, Stream(data, pos, 16), i, len)
    ensures if read.Some? then i == read.value.symbol && len == read.value.len <= 16 else len == 17 || i < 0 || i >= 256
  {
    assert Guard(0);
  }

  ghost predicate IsNext(sizes: seq<nat>, values: seq<byte>, data: seq<byte>, limit: Option<nat>, pos: nat, ac: Ac)
    requires ValidSizes(sizes) && |values| == 256
  {
    forall g: nat :: Guard(g) ==> ac == NextAc(sizes, values, data, limit, pos, true)
  }

  lemma NextCoefficient(sizes: seq<nat>, values: seq<byte>, quant: seq<nat>, data: seq<byte>, limit: Option<nat>, pos: nat, k: nat, coefs: seq<int>, whole: Block)
    returns (ac: Ac)
    requires ValidSizes(sizes) && |values| == 256 && |quant| == 64 && |coefs| == 64 && k < 64
    requires Leads(sizes, values, quant, data, limit, pos, k, coefs, whole)
    ensures IsNext(sizes, values, data, limit, pos, ac) && Goes(sizes, values, quant, data, limit, k, coefs, whole, ac)
  {
    assert Guard(0);
    ac := NextAc(sizes, values, data, limit, pos, true);
  }

  lemma LastCoefficient(sizes: seq<nat>, values: seq<byte>, quant: seq<nat>, data: seq<byte>, limit: Option<nat>, pos: nat, k: nat, coefs: seq<int>, whole: Block)
    requires ValidSizes(sizes) && |values| == 256 && |quant| == 64 && |coefs| == 64
    ensures k >= 64 && Leads(sizes, values, quant, data, limit, pos, k, coefs, whole) ==> whole == Truncated || whole == Block(coefs, pos)
  {
    assert Guard(0);
  }

  lemma StreamWord(data: seq<byte>, p: nat, n: nat)
    requires n == 16
    ensures Stream(data, p, n) < 0x1_0000
  {
    StreamBound(data, p, n);
    Pow2Small();
  }

  /** The first of n bits says which half of the values the others are in. */
  lemma SignBit(data: seq<byte>, p: nat, n: nat)
    requires n > 0
    ensures Stream(data, p, 1) == 1 <==> Stream(data, p, n) >= Pow2(n - 1)
    ensures Stream(data, p, 1) < 2
  {
    StreamSplit(data, p, 1, n - 1);
    StreamBound(data, p, 1);
    StreamBound(data, p + 1, n - 1);
    ShlOne(n - 1);
    ShlZero(n - 1);
    Pow2Small();
  }

  lemma Appended(v: nat, b: nat, k: nat)
    requires b < 256
    ensures Or(Shl(b, k), Shl(v, k + 8)) == Shl(Shl(v, 8) + b, k)
  {
    var eight := 8;
    Pow2Small();
    ShlBelow(b, eight, k);
    OrAppend(Shl(b, k), v, k + eight);
    ShlAdd(Shl(v, eight), b, k);
    ShlShl(v, eight, k);
  }

  lemma TopOfBuffer(v: nat, bits: nat, n: nat)
    requires n <= bits <= 32
    ensures Shr(Shl(v, 32 - bits), 32 - n) == Shr(v, bits - n)
  {
    Join(0, v, 32 - bits);
    ShrShr(Shl(v, 32 - bits), 32 - bits, bits - n);
  }

  lemma PaddedBuffer(v: nat, bits: nat, n: nat)
    requires bits <= n <= 32
    ensures Shr(Shl(v, 32 - bits), 32 - n) == Shl(v, n - bits)
  {
    ShlShl(v, n - bits, 32 - n);
    Join(0, Shl(v, n - bits), 32 - n);
  }

  /** A buffer shifted left loses its first bits. */
  lemma Consumed(data: seq<byte>, pos: nat, n: nat, m: nat, k: nat)
    requires n <= k
    ensures Low(Shl(Shl(Stream(data, pos, n + m), k - n), n), m + k) == Shl(Stream(data, pos + n, m), k)
  {
    StreamSplit(data, pos, n, m);
    StreamBound(data, pos + n, m);
    DroppedBits(Stream(data, pos, n), Stream(data, pos + n, m), n, m, k);
  }

  lemma DroppedBits(hi: nat, lo: nat, n: nat, m: nat, k: nat)
    requires lo < Pow2(m) && n <= k
    ensures Low(Shl(Shl(Shl(hi, m) + lo, k - n), n), m + k) == Shl(lo, k)
  {
    ShlShl(Shl(hi, m) + lo, k - n, n);
    ShlAdd(Shl(hi, m), lo, k);
    ShlShl(hi, m, k);
    ShlBelow(lo, m, k);
    Join(Shl(lo, k), hi, m + k);
  }
}
