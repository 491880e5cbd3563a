/** The encoder that Appendix F of GIF89a describes, and that the decoder gives back what it encodes. */
module GifEncode {
  import opened Bits
  import opened Folding
  import opened GifSpec

  /** The encoder's dictionary is full at this size; it then sends a clear code. */
  const FULL: nat := 4096

  /** The longest string of the dictionary, among its first n codes, that the pixels start with; by default the
      code of the first pixel. */
  function Longest(cs: nat, dict: seq<seq<byte>>, pixels: seq<byte>, n: nat): nat
    requires n <= |dict| && pixels != []
  {
    if n == 0 then pixels[0] as nat
    else
      var best := Longest(cs, dict, pixels, n - 1);
      if IsString(cs, n - 1) && dict[n - 1] != [] && dict[n - 1] <= pixels && best < |dict| && |dict[n - 1]| > |dict[best]|
      then n - 1 else best
  }

  predicate PixelsFit(cs: nat, pixels: seq<byte>) {
    forall i | 0 <= i < |pixels| :: (pixels[i] as nat) < Clear(cs)
  }

  /** The encoder's dictionary: one string a pixel value, the two codes that stand for none, and strings added. */
  predicate EncoderDict(cs: nat, dict: seq<seq<byte>>) {
    ValidDict(cs, dict) && FreshDict(cs) <= dict && |dict| <= FULL
  }

  lemma OnePixel(cs: nat, dict: seq<seq<byte>>, p: byte)
    requires EncoderDict(cs, dict) && p as nat < Clear(cs)
    ensures p as nat < |dict| && IsString(cs, p as nat) && dict[p] == [p]
  {
    assert FreshDict(cs)[p] == [p];
  }

  lemma {:induction false} LongestMatches(cs: nat, dict: seq<seq<byte>>, pixels: seq<byte>, n: nat)
    requires cs <= 11 && EncoderDict(cs, dict) && PixelsFit(cs, pixels) && pixels != [] && n <= |dict|
    ensures var code := Longest(cs, dict, pixels, n);
            code < |dict| && IsString(cs, code) && dict[code] != [] && dict[code] <= pixels
    decreases n
  {
    if n == 0 {
      OnePixel(cs, dict, pixels[0]);
    } else {
      LongestMatches(cs, dict, pixels, n - 1);
    }
  }

  /** No other code stands for a longer string that the pixels start with. */
  lemma {:induction false} LongestIsLongest(cs: nat, dict: seq<seq<byte>>, pixels: seq<byte>, n: nat, i: nat)
    requires cs <= 11 && EncoderDict(cs, dict) && PixelsFit(cs, pixels) && pixels != [] && i < n <= |dict|
    requires IsString(cs, i) && dict[i] <= pixels
    ensures Longest(cs, dict, pixels, n) < |dict| && |dict[i]| <= |dict[Longest(cs, dict, pixels, n)]|
    decreases n
  {
    LongestMatches(cs, dict, pixels, n);
    LongestMatches(cs, dict, pixels, n - 1);
    if i < n - 1 {
      LongestIsLongest(cs, dict, pixels, n - 1, i);
    }
  }

  lemma FreshFits(cs: nat)
    requires cs <= 11
    ensures EncoderDict(cs, FreshDict(cs))
  {
    Pow2Mono(cs, 11);
    Pow2Small();
  }

  /** How many bits a number needs. */
  function BitsFor(n: nat): nat {
    if n == 0 then 0 else 1 + BitsFor(n / 2)
  }

  /** The width at which the encoder sends a code if it must be possible to send n: at most 12 bits. */
  function WidthFor(n: nat): nat {
    if BitsFor(n) < 12 then BitsFor(n) else 12
  }

  /** A code and the number of bits in which it is sent. */
  datatype Sent = Sent(code: nat, width: nat)

  /** The clear code, or the end code, behind a string or at the start: as wide as the code that the dictionary
      would get next. */
  function Control(code: nat, dict: seq<seq<byte>>): Sent {
    Sent(code, WidthFor(|dict|))
  }

  /** The codes of the pixels, given the dictionary: the longest string's, as wide as the last code of the
      dictionary, and those of the pixels after it. */
  function Codes(cs: nat, dict: seq<seq<byte>>, pixels: seq<byte>): seq<Sent>
    requires cs <= 11 && EncoderDict(cs, dict) && PixelsFit(cs, pixels)
    decreases |pixels|, 1
  {
    if pixels == [] then [Control(Clear(cs) + 1, dict)]
    else
      LongestMatches(cs, dict, pixels, |dict|);
      var code := Longest(cs, dict, pixels, |dict|);
      [Sent(code, WidthFor(|dict| - 1))] + More(cs, dict, dict[code], pixels[|dict[code]|..])
  }

  /** The codes after a string's: the string and the pixel after it become a new string, unless the dictionary is
      full, which is then cleared; without pixels, the end code. */
  function More(cs: nat, dict: seq<seq<byte>>, s: seq<byte>, rest: seq<byte>): seq<Sent>
    requires cs <= 11 && EncoderDict(cs, dict) && PixelsFit(cs, rest)
    decreases |rest|, 2
  {
    if rest == [] then [Control(Clear(cs) + 1, dict)]
    else if |dict| < FULL then Codes(cs, dict + [s + [rest[0]]], rest)
    else FreshFits(cs); [Control(Clear(cs), dict)] + Codes(cs, FreshDict(cs), rest)
  }

  // ---- The encoder's width is the decoder's -------------------------------------------------------------

  lemma {:induction false} BitsForIs(n: nat, w: nat)
    requires Pow2(w) <= n < Pow2(w + 1)
    ensures BitsFor(n) == w + 1
    decreases w
  {
    if w > 0 {
      BitsForIs(n / 2, w - 1);
    }
  }

  lemma {:induction false} BitsForMany(n: nat, w: nat)
    requires n >= Pow2(w)
    ensures BitsFor(n) > w
    decreases w
  {
    if w > 0 {
      BitsForMany(n / 2, w - 1);
    }
  }

  /** The standard width is the one for the next free code. */
  lemma StandardIs(cs: nat, st: Lzw)
    requires StandardWidth(cs, st)
    ensures st.width == WidthFor(|st.dict|)
  {
    if |st.dict| < Pow2(st.width) {
      BitsForIs(|st.dict|, st.width - 1);
    } else {
      BitsForMany(|st.dict|, st.width);
    }
  }

  /** With the fresh dictionary, the last code and the next free one are as wide. */
  lemma FreshWidth(cs: nat)
    requires 2 <= cs <= 11
    ensures |FreshDict(cs)| == Clear(cs) + 2 && WidthFor(|FreshDict(cs)|) == WidthFor(|FreshDict(cs)| - 1) == cs + 1
  {
    var clear, two := Clear(cs), 2;
    ShlOne(cs);
    Pow2Mono(two, cs);
    Pow2Small();
    WidthBetween(clear + 2, cs);
    WidthBetween(clear + 1, cs);
  }

  lemma WidthBetween(n: nat, w: nat)
    requires Pow2(w) <= n < Pow2(w + 1) && w < 12
    ensures WidthFor(n) == w + 1
  {
    BitsForIs(n, w);
  }

  // ---- What the decoder makes of them ------------------------------------------------------------------

  /** Each code is sent at the width that the decoder has reached, and fits it; and they end with the end code, out
      being drawn. */
  predicate Plays(cs: nat, st: Lzw, codes: seq<Sent>, out: seq<byte>)
    requires cs <= 12 && ValidLzw(cs, st)
    decreases |codes|
  {
    codes != [] && codes[0].width == st.width && codes[0].code < Pow2(st.width) &&
    (CodeStepValid(cs, st, codes[0].code);
     match CodeStep(cs, st, codes[0].code)
     case Next(st') => Plays(cs, st', codes[1..], out)
     case End => |codes| == 1 && out == st.out
     case Bad(_) => false)
  }

  lemma PlaysFirst(cs: nat, st: Lzw, code: Sent, next: Lzw, codes: seq<Sent>, out: seq<byte>)
    requires cs <= 12 && ValidLzw(cs, st) && code.width == st.width && code.code < Pow2(st.width)
    requires CodeStep(cs, st, code.code) == Next(next)
    requires ValidLzw(cs, next) && Plays(cs, next, codes, out)
    ensures Plays(cs, st, [code] + codes, out)
  {
    assert ([code] + codes)[1..] == codes;
  }

  /** The decoder's dictionary is the encoder's, a fresh one, or is one string behind it: the last string and its
      next pixel, which the decoder has yet to see. */
  predicate Behind(cs: nat, dict: seq<seq<byte>>, pixels: seq<byte>, st: Lzw) {
    st.cleared && ValidLzw(cs, st) &&
    if st.last == [] then st.dict == dict == FreshDict(cs)
    else pixels != [] && dict == st.dict + [st.last + [pixels[0]]]
  }

  /** One code: the decoder knows its string, even if the encoder has only just made it. */
  lemma OneCode(cs: nat, dict: seq<seq<byte>>, pixels: seq<byte>, st: Lzw, code: nat)
    requires cs <= 11 && EncoderDict(cs, dict) && Behind(cs, dict, pixels, st) && pixels != []
    requires code < |dict| && IsString(cs, code) && dict[code] != [] && dict[code] <= pixels
    ensures var r, rest := CodeStep(cs, st, code), pixels[|dict[code]|..];
            r.Next? && r.st.last == dict[code] && r.st.out == st.out + dict[code] && r.st.dict == dict && r.st.cleared
  {
    if st.last != [] {
      assert dict[|st.dict|] == st.last + [pixels[0]];
      assert dict[code][0] == pixels[0];
      if code < |st.dict| {
        assert dict[code] == st.dict[code];
      } else {
        assert dict[code][0] == st.last[0];
      }
    }
  }

  /** A code of the dictionary, or the next one to be added to it, fits the width. */
  lemma WidthSuffices(cs: nat, st: Lzw, code: nat)
    requires 2 <= cs <= 11 && ValidLzw(cs, st) && StandardWidth(cs, st) && code <= |st.dict| && code < FULL
    ensures code < Pow2(st.width)
  {
    Pow2Small();
    assert Pow2(13) == 2 * Pow2(12);
  }

  /** The first code of the pixels, and the codes after it. */
  lemma FirstCode(cs: nat, dict: seq<seq<byte>>, pixels: seq<byte>)
    requires cs <= 11 && EncoderDict(cs, dict) && PixelsFit(cs, pixels) && pixels != []
    ensures var codes := Codes(cs, dict, pixels);
            codes != [] && codes[0].width == WidthFor(|dict| - 1) &&
            var code := codes[0].code;
            code < |dict| && IsString(cs, code) && dict[code] != [] && dict[code] <= pixels &&
            codes[1..] == More(cs, dict, dict[code], pixels[|dict[code]|..])
  {
    LongestMatches(cs, dict, pixels, |dict|);
    var code := Longest(cs, dict, pixels, |dict|);
    var more := More(cs, dict, dict[code], pixels[|dict[code]|..]);
    assert ([Sent(code, WidthFor(|dict| - 1))] + more)[1..] == more;
  }

  /** A clear code sets encoder and decoder back to the start. */
  lemma ClearPlays(cs: nat, st: Lzw, codes: seq<Sent>, out: seq<byte>)
    requires 2 <= cs <= 11 && ValidLzw(cs, st) && StandardWidth(cs, st)
    requires var st' := Lzw(cs + 1, FreshDict(cs), [], true, st.out); ValidLzw(cs, st') && Plays(cs, st', codes, out)
    ensures Plays(cs, st, [Control(Clear(cs), st.dict)] + codes, out)
  {
    ClearBound(cs);
    FreshFits(cs);
    StandardIs(cs, st);
    WidthSuffices(cs, st, Clear(cs));
    PlaysFirst(cs, st, Control(Clear(cs), st.dict), Lzw(cs + 1, FreshDict(cs), [], true, st.out), codes, out);
  }

  lemma EndPlays(cs: nat, st: Lzw)
    requires 2 <= cs <= 11 && ValidLzw(cs, st) && StandardWidth(cs, st)
    ensures Plays(cs, st, [Control(Clear(cs) + 1, st.dict)], st.out)
  {
    FreshFits(cs);
    StandardIs(cs, st);
    WidthSuffices(cs, st, Clear(cs) + 1);
  }

  /** The codes are those of the pixels. */
  ghost predicate Coded(cs: nat, dict: seq<seq<byte>>, pixels: seq<byte>, codes: seq<Sent>)
    requires cs <= 11
  {
    forall k: nat :: Guard(k) ==> EncoderDict(cs, dict) && PixelsFit(cs, pixels) && codes == Codes(cs, dict, pixels)
  }

  lemma NoPixels(cs: nat, dict: seq<seq<byte>>, codes: seq<Sent>)
    requires cs <= 11 && Coded(cs, dict, [], codes)
    ensures codes == [Control(Clear(cs) + 1, dict)]
  {
    assert Guard(0);
  }

  /** After a code for a string, the decoder has the encoder's dictionary, and that string as the last. */
  predicate CaughtUp(cs: nat, dict: seq<seq<byte>>, s: seq<byte>, st: Lzw) {
    ValidLzw(cs, st) && StandardWidth(cs, st) && st.cleared && st.dict == dict && st.last == s && s != []
  }

  /** A decoder that is no more than one string behind has the width of the last code of the encoder's dictionary. */
  lemma BehindWidth(cs: nat, dict: seq<seq<byte>>, pixels: seq<byte>, st: Lzw)
    requires 2 <= cs <= 11 && Behind(cs, dict, pixels, st) && StandardWidth(cs, st)
    ensures dict != [] && st.width == WidthFor(|dict| - 1)
  {
    StandardIs(cs, st);
    FreshWidth(cs);
    BehindSize(cs, dict, pixels, st);
  }

  lemma BehindSize(cs: nat, dict: seq<seq<byte>>, pixels: seq<byte>, st: Lzw)
    requires Behind(cs, dict, pixels, st)
    ensures st.dict == dict == FreshDict(cs) || |dict| == |st.dict| + 1
  {
  }

  /** The decoder draws the string of the first code, and has caught up. */
  lemma StringPlays(cs: nat, dict: seq<seq<byte>>, pixels: seq<byte>, st: Lzw, codes: seq<Sent>)
    returns (code: nat, next: Lzw)
    requires 2 <= cs <= 11 && pixels != [] && Coded(cs, dict, pixels, codes)
    requires Behind(cs, dict, pixels, st) && StandardWidth(cs, st)
    ensures codes != [] && codes[0] == Sent(code, st.width) && code < |dict|
    ensures dict[code] <= pixels && CaughtUp(cs, dict, dict[code], next)
    ensures Following(cs, dict, dict[code], pixels[|dict[code]|..], codes[1..])
    ensures code < Pow2(st.width) && CodeStep(cs, st, code) == Next(next) && next.out == st.out + dict[code]
  {
    assert Guard(0);
    FirstCode(cs, dict, pixels);
    code := codes[0].code;
    BehindWidth(cs, dict, pixels, st);
    OneCode(cs, dict, pixels, st, code);
    WidthSuffices(cs, st, code);
    CodeStepValid(cs, st, code);
    WidthStep(cs, st, code);
    next := CodeStep(cs, st, code).st;
  }

  /** The codes of pixels make a decoder that is no more than one string behind draw them after what it has drawn. */
  lemma {:induction false} CodesPlay(cs: nat, dict: seq<seq<byte>>, pixels: seq<byte>, st: Lzw, codes: seq<Sent>)
    requires 2 <= cs <= 11 && Coded(cs, dict, pixels, codes) && Behind(cs, dict, pixels, st) && StandardWidth(cs, st)
    ensures Plays(cs, st, codes, st.out + pixels)
    decreases |pixels|, 1
  {
    if pixels == [] {
      NoPixels(cs, dict, codes);
      EndPlays(cs, st);
      assert st.out + pixels == st.out;
    } else {
      var code, next := StringPlays(cs, dict, pixels, st, codes);
      var rest := pixels[|dict[code]|..];
      assert st.out + pixels == next.out + rest;
      RestPlays(cs, dict, dict[code], rest, next, codes[1..]);
      assert codes == [codes[0]] + codes[1..];
      PlaysFirst(cs, st, codes[0], next, codes[1..], next.out + rest);
    }
  }

  /** What comes after a string's code. */
  ghost predicate Following(cs: nat, dict: seq<seq<byte>>, s: seq<byte>, rest: seq<byte>, codes: seq<Sent>)
    requires cs <= 11
  {
    forall k: nat :: Guard(k) ==> EncoderDict(cs, dict) && PixelsFit(cs, rest) && codes == More(cs, dict, s, rest)
  }

  lemma WhatFollows(cs: nat, dict: seq<seq<byte>>, s: seq<byte>, rest: seq<byte>, codes: seq<Sent>)
    requires cs <= 11 && Following(cs, dict, s, rest, codes)
    ensures if rest == [] then codes == [Control(Clear(cs) + 1, dict)]
            else if |dict| < FULL then Coded(cs, dict + [s + [rest[0]]], rest, codes)
            else codes != [] && codes[0] == Control(Clear(cs), dict) && Coded(cs, FreshDict(cs), rest, codes[1..])
  {
    assert Guard(0);
    FreshFits(cs);
    if rest != [] && |dict| >= FULL {
      assert codes[1..] == Codes(cs, FreshDict(cs), rest);
    }
  }

  lemma {:induction false} RestPlays(cs: nat, dict: seq<seq<byte>>, s: seq<byte>, rest: seq<byte>, next: Lzw, codes: seq<Sent>)
    requires 2 <= cs <= 11 && Following(cs, dict, s, rest, codes) && CaughtUp(cs, dict, s, next)
    ensures Plays(cs, next, codes, next.out + rest)
    decreases |rest|, 2
  {
    WhatFollows(cs, dict, s, rest, codes);
    if rest == [] {
      EndPlays(cs, next);
      assert next.out + rest == next.out;
    } else if |dict| < FULL {
      CodesPlay(cs, dict + [s + [rest[0]]], rest, next, codes);
    } else {
      var cleared := Lzw(cs + 1, FreshDict(cs), [], true, next.out);
      StartWidth(cs);
      CodesPlay(cs, FreshDict(cs), rest, cleared, codes[1..]);
      ClearPlays(cs, next, codes[1..], next.out + rest);
      assert codes == [codes[0]] + codes[1..];
    }
  }
}
