/** Codes as the bits of GIF image data; and the round trip of pixels through the encoder and the decoder. */
module GifPack {
  import opened Bits
  import opened BitStrings
  import opened Folding
  import opened GifEncode
  import opened GifSpec

  /** The bits of codes, each at the width at which it is sent. */
  function CodeBits(codes: seq<Sent>): BitString {
    if codes == [] then [] else BitsOf(codes[0].code, codes[0].width) + CodeBits(codes[1..])
  }

  /** A code's bits are read as the code, and the others stand behind them. */
  lemma ReadsCode(data: seq<byte>, pos: nat, code: nat, width: nat, rest: BitString)
    requires Stands(data, pos, BitsOf(code, width) + rest) && code < Pow2(width)
    ensures pos + width <= 8 * |data| && Val(data, pos, width) == code && Stands(data, pos + width, rest)
  {
    StandsSplit(data, pos, BitsOf(code, width), rest);
    BitsHold(data, pos, code, width);
  }

  lemma ReadsFirst(data: seq<byte>, pos: nat, codes: seq<Sent>, width: nat)
    requires codes != [] && codes[0].width == width && codes[0].code < Pow2(width) && Stands(data, pos, CodeBits(codes))
    ensures pos + width <= 8 * |data| && Val(data, pos, width) == codes[0].code
    ensures Stands(data, pos + width, CodeBits(codes[1..]))
  {
    ReadsCode(data, pos, codes[0].code, width, CodeBits(codes[1..]));
  }

  /** Where a code stands, decoding comes to what it comes to after it. */
  lemma DecodesOne(cs: nat, data: seq<byte>, pos: nat, st: Lzw, r: LzwStep, whole: Raster)
    requires cs <= 12 && ValidLzw(cs, st) && pos + st.width <= 8 * |data| && !r.Bad?
    requires r == CodeStep(cs, st, Val(data, pos, st.width))
    requires r.Next? ==> ValidLzw(cs, r.st) && Leads(cs, data, pos + st.width, r.st, whole)
    requires r.End? ==> whole == Drawn(st.out)
    ensures Leads(cs, data, pos, st, whole)
  {
    assert Guard(0);
  }

  lemma PlaysOn(cs: nat, st: Lzw, codes: seq<Sent>, out: seq<byte>, r: LzwStep)
    requires cs <= 12 && ValidLzw(cs, st) && codes != [] && Plays(cs, st, codes, out) && r == CodeStep(cs, st, codes[0].code)
    ensures codes[0].width == st.width && codes[0].code < Pow2(st.width)
    ensures !r.Bad? && (r.Next? ==> ValidLzw(cs, r.st) && Plays(cs, r.st, codes[1..], out)) && (r.End? ==> out == st.out)
  {
    CodeStepValid(cs, st, codes[0].code);
  }

  /** Where the bits of codes stand, the decoder reads just these codes. */
  lemma {:induction false} DecodesCodes(cs: nat, data: seq<byte>, pos: nat, st: Lzw, codes: seq<Sent>, out: seq<byte>)
    requires cs <= 12 && ValidLzw(cs, st) && Plays(cs, st, codes, out) && Stands(data, pos, CodeBits(codes))
    ensures Leads(cs, data, pos, st, Drawn(out))
    decreases |codes|
  {
    var r := CodeStep(cs, st, codes[0].code);
    PlaysOn(cs, st, codes, out, r);
    ReadsFirst(data, pos, codes, st.width);
    if r.Next? {
      DecodesCodes(cs, data, pos + st.width, r.st, codes[1..], out);
    }
    DecodesOne(cs, data, pos, st, r, Drawn(out));
  }

  /** An image's pixels as image data: a clear code, and their codes. */
  function Encode(cs: nat, pixels: seq<byte>): seq<byte>
    requires 2 <= cs <= 11 && PixelsFit(cs, pixels)
  {
    FreshFits(cs);
    Packed(CodeBits([Control(Clear(cs), FreshDict(cs))] + Codes(cs, FreshDict(cs), pixels)))
  }

  /** Decoding gives back whatever has been encoded. */
  lemma RoundTrip(cs: nat, pixels: seq<byte>)
    requires 2 <= cs <= 11 && PixelsFit(cs, pixels)
    ensures DecodeData(cs, Encode(cs, pixels)) == Drawn(pixels)
  {
    StartValid(cs);
    StartWidth(cs);
    FreshFits(cs);
    var codes := Codes(cs, FreshDict(cs), pixels);
    var cleared := Lzw(cs + 1, FreshDict(cs), [], true, []);
    CodesPlay(cs, FreshDict(cs), pixels, cleared, codes);
    assert [] + pixels == pixels;
    ClearPlays(cs, Start(cs), codes, pixels);
    var sent := [Control(Clear(cs), FreshDict(cs))] + codes;
    PackedStands(CodeBits(sent));
    DecodesCodes(cs, Packed(CodeBits(sent)), 0, Start(cs), sent, pixels);
    assert Guard(0);
  }
}
