/** GIF image data as Appendix F of GIF89a describes it: data sub-blocks, variable-length codes, and a
    dictionary of strings. The limits and errors are those of the program. */
module GifSpec {
  import opened Bits
  import opened Context
  import opened Folding

  // ---- Data sub-blocks --------------------------------------------------------------------------

  /** The image data when len bytes of the current sub-block are still unread. */
  function Data(rest: seq<byte>, len: nat): seq<byte>
    decreases |rest|, len
  {
    if len > 0 then [Head(rest)] + Data(Tail(rest), len - 1)
    else if Head(rest) == 0 then []
    else Data(Tail(rest), Head(rest) as nat)
  }

  /** The input that follows the zero-length sub-block ending the image data. */
  function After(rest: seq<byte>, len: nat): seq<byte>
    decreases |rest|, len
  {
    if len > 0 then After(Tail(rest), len - 1)
    else if Head(rest) == 0 then Tail(rest)
    else After(Tail(rest), Head(rest) as nat)
  }

  lemma {:induction false} AfterSkip(rest: seq<byte>, len: nat)
    ensures After(rest, len) == After(Drop(rest, len), 0)
    decreases len
  {
    if len > 0 {
      AfterSkip(Tail(rest), len - 1);
      assert Drop(Tail(rest), len - 1) == Drop(rest, len);
    }
  }

  // ---- Codes ----------------------------------------------------------------------------------------

  const MAX_CODES: nat := 8192

  /** The decoder between two codes: code width, dictionary, the string of the previous code (empty
      after a clear code), whether a clear code has been seen, and the pixel indices so far. */
  datatype Lzw = Lzw(width: nat, dict: seq<seq<byte>>, last: seq<byte>, cleared: bool, out: seq<byte>)

  datatype LzwError = NoClearCode | TooManyCodes | IllegalCode

  datatype LzwStep = Next(st: Lzw) | End | Bad(error: LzwError)

  function Clear(cs: nat): nat {
    Pow2(cs)
  }

  /** A code that stands for a string, rather than clear or end. */
  predicate IsString(cs: nat, code: int) {
    code != Clear(cs) && code != Clear(cs) + 1
  }

  /** One string per pixel value, and the two codes that stand for none. */
  function FreshDict(cs: nat): (d: seq<seq<byte>>)
    ensures |d| == Clear(cs) + 2
    ensures forall i | 0 <= i < Clear(cs) :: d[i] == [(i % 256) as byte]
  {
    seq(Clear(cs) + 2, i => if 0 <= i < Clear(cs) then [(i % 256) as byte] else [])
  }

  predicate ValidDict(cs: nat, dict: seq<seq<byte>>) {
    Clear(cs) + 2 <= |dict| <= MAX_CODES && forall i {:trigger dict[i]} | 0 <= i < |dict| && IsString(cs, i) :: dict[i] != []
  }

  /** The width after a code, given the number of codes now assigned. */
  function NextWidth(width: nat, avail: nat): nat {
    if Low(avail, width) == 0 && avail <= 0xFFF then width + 1 else width
  }

  /** The string of a code, which may be the one about to be added: the previous string followed by
      its own first symbol. */
  function StringOf(dict: seq<seq<byte>>, last: seq<byte>, code: nat): seq<byte>
    requires code <= |dict| && last != []
  {
    if code < |dict| then dict[code] else last + [last[0]]
  }

  function CodeStep(cs: nat, st: Lzw, code: nat): LzwStep
    requires ValidDict(cs, st.dict)
  {
    if code == Clear(cs) then Next(Lzw(cs + 1, FreshDict(cs), [], true, st.out))
    else if code == Clear(cs) + 1 then End
    else if code > |st.dict| then Bad(IllegalCode)
    else if !st.cleared then Bad(NoClearCode)
    else if st.last == [] then
      if code == |st.dict| then Bad(IllegalCode)
      else Next(Lzw(NextWidth(st.width, |st.dict|), st.dict, st.dict[code], true, st.out + st.dict[code]))
    else if |st.dict| >= MAX_CODES then Bad(TooManyCodes)
    else
      var s := StringOf(st.dict, st.last, code);
      Next(Lzw(NextWidth(st.width, |st.dict| + 1), st.dict + [st.last + [s[0]]], s, true, st.out + s))
  }

  /** A code is refused exactly if it is beyond the next free one; if no clear code has come, unless it is clear or end
      itself; if the next free one is the first after a clear code; or if all 8192 codes are assigned. */
  lemma RefusedExactlyWhen(cs: nat, st: Lzw, code: nat)
    requires cs <= 12 && ValidLzw(cs, st)
    ensures CodeStep(cs, st, code).Bad? <==>
            code != Pow2(cs) && code != Pow2(cs) + 1 &&
            (code > |st.dict| || !st.cleared || (st.last == [] && code == |st.dict|) || (st.last != [] && |st.dict| == 8192))
    ensures CodeStep(cs, st, code) == Bad(NoClearCode) <==> code != Pow2(cs) && code != Pow2(cs) + 1 && code <= |st.dict| && !st.cleared
    ensures CodeStep(cs, st, code) == Bad(TooManyCodes) <==>
            code != Pow2(cs) && code != Pow2(cs) + 1 && code <= |st.dict| && st.cleared && st.last != [] && |st.dict| == 8192
  {
  }

  /** How image data ends: all its codes read, or a corrupt one; and the pixel indices until then. */
  datatype Raster = Drawn(out: seq<byte>) | Corrupt(error: LzwError, out: seq<byte>)

  predicate ValidLzw(cs: nat, st: Lzw) {
    ValidDict(cs, st.dict) && st.width > 0
  }

  function Decode(cs: nat, data: seq<byte>, pos: nat, st: Lzw): Raster
    requires ValidLzw(cs, st)
    requires cs <= 12
    decreases 8 * |data| - pos
  {
    if pos + st.width > 8 * |data| then Drawn(st.out)
    else
      CodeStepValid(cs, st, Val(data, pos, st.width));
      match CodeStep(cs, st, Val(data, pos, st.width))
      case End => Drawn(st.out)
      case Bad(e) => Corrupt(e, st.out)
      case Next(st') => Decode(cs, data, pos + st.width, st')
  }

  lemma ClearBound(cs: nat)
    requires cs <= 12
    ensures Clear(cs) <= 4096
  {
    Pow2Mono(cs, 12);
    Pow2Small();
    assert Pow2(13) == 2 * Pow2(12);
  }

  lemma CodeStepValid(cs: nat, st: Lzw, code: nat)
    requires ValidLzw(cs, st) && cs <= 12
    ensures CodeStep(cs, st, code).Next? ==> ValidLzw(cs, CodeStep(cs, st, code).st)
  {
    ClearBound(cs);
  }

  /** Before the first code. No clear code is needed for the dictionary, only for the strings. */
  function Start(cs: nat): Lzw {
    Lzw(cs + 1, FreshDict(cs), [], false, [])
  }

  lemma StartValid(cs: nat)
    requires cs <= 12
    ensures ValidLzw(cs, Start(cs))
  {
    ClearBound(cs);
  }

  /** Decoding from a state comes to whole. */
  ghost predicate Leads(cs: nat, data: seq<byte>, pos: nat, st: Lzw, whole: Raster)
    requires ValidLzw(cs, st) && cs <= 12
  {
    forall k: nat :: Guard(k) ==> Decode(cs, data, pos, st) == whole
  }

  /** What decoding comes to after one code. */
  ghost predicate Goes(cs: nat, data: seq<byte>, pos: nat, r: LzwStep, out: seq<byte>, whole: Raster)
    requires cs <= 12
  {
    match r
    case End => whole == Drawn(out)
    case Bad(e) => whole == Corrupt(e, out)
    case Next(st) => ValidLzw(cs, st) && Leads(cs, data, pos, st, whole)
  }

  lemma DecodeNext(cs: nat, data: seq<byte>, pos: nat, st: Lzw, whole: Raster)
    requires cs <= 12 && ValidLzw(cs, st) && pos + st.width <= 8 * |data| && Leads(cs, data, pos, st, whole)
    ensures Goes(cs, data, pos + st.width, CodeStep(cs, st, Val(data, pos, st.width)), st.out, whole)
  {
    assert Guard(0);
    CodeStepValid(cs, st, Val(data, pos, st.width));
  }

  function DecodeData(cs: nat, data: seq<byte>): Raster
    requires cs <= 12
  {
    StartValid(cs);
    Decode(cs, data, 0, Start(cs))
  }

  // ---- The code width ---------------------------------------------------------------------------------

  /** The width grows exactly when the next free code no longer fits, up to 12 bits (Appendix F). */
  predicate StandardWidth(cs: nat, st: Lzw) {
    cs < st.width <= 12 && Pow2(st.width - 1) <= |st.dict| &&
    (|st.dict| < Pow2(st.width) || st.width == 12)
  }

  lemma WidthStep(cs: nat, st: Lzw, code: nat)
    requires 2 <= cs <= 11 && ValidLzw(cs, st) && StandardWidth(cs, st)
    ensures var r := CodeStep(cs, st, code);
            r.Next? ==> StandardWidth(cs, r.st)
  {
    var r := CodeStep(cs, st, code);
    if r.Next? {
      if code == Clear(cs) {
        StartWidth(cs);
      } else {
        assert r.st.width == NextWidth(st.width, |r.st.dict|) && |st.dict| <= |r.st.dict| <= |st.dict| + 1;
        WidthGrows(st.width, |r.st.dict|);
      }
    }
  }

  lemma StartWidth(cs: nat)
    requires 2 <= cs <= 11
    ensures StandardWidth(cs, Start(cs))
  {
    Pow2Mono(2, cs);
    Pow2Small();
  }

  lemma WidthGrows(width: nat, avail: nat)
    requires 0 < width <= 12 && Pow2(width - 1) <= avail && (avail <= Pow2(width) || width == 12)
    ensures NextWidth(width, avail) == if width < 12 && avail == Pow2(width) then width + 1 else width
  {
    Pow2Small();
    assert Pow2(13) == 2 * Pow2(12);
    if avail < Pow2(width) {
      LowSmall(avail, width);
    } else if avail == Pow2(width) {
      ShlOne(width);
      Join(0, 1, width);
      if width < 12 {
        Pow2Mono(width, 11);
      }
    }
  }

  /** The decoder after any sequence of codes. */
  function AfterCodes(cs: nat, codes: seq<nat>): (r: LzwStep)
    requires cs <= 12
    ensures r.Next? ==> ValidLzw(cs, r.st)
  {
    StartValid(cs);
    if codes == [] then Next(Start(cs))
    else
      var n := |codes| - 1;
      match AfterCodes(cs, codes[..n])
      case Next(st) => (CodeStepValid(cs, st, codes[n]); CodeStep(cs, st, codes[n]))
      case r => r
  }

  /** For minimum code sizes 2 to 11 the code width is the standard one after every accepted code. */
  lemma {:induction false} WidthIsStandard(cs: nat, codes: seq<nat>)
    requires 2 <= cs <= 11
    ensures AfterCodes(cs, codes).Next? ==> StandardWidth(cs, AfterCodes(cs, codes).st)
    decreases |codes|
  {
    if codes == [] {
      StartWidth(cs);
    } else {
      var n := |codes| - 1;
      WidthIsStandard(cs, codes[..n]);
      if AfterCodes(cs, codes[..n]).Next? {
        WidthStep(cs, AfterCodes(cs, codes[..n]).st, codes[n]);
      }
    }
  }

  predicate WidthHolds(cs: nat, codes: seq<nat>)
    requires cs <= 12
  {
    AfterCodes(cs, codes).Next? ==> StandardWidth(cs, AfterCodes(cs, codes).st)
  }

  /** These are all the sizes for which it is: with the others the width is wrong from the start. */
  lemma WidthIsStandardExactlyFor(cs: nat)
    requires cs <= 12
    ensures 2 <= cs <= 11 <==> forall codes :: WidthHolds(cs, codes)
  {
    if 2 <= cs <= 11 {
      forall codes ensures WidthHolds(cs, codes) {
        WidthIsStandard(cs, codes);
      }
    } else {
      WrongStart(cs);
      assert !WidthHolds(cs, []);
    }
  }

  lemma WrongStart(cs: nat)
    requires cs <= 1 || cs == 12
    ensures !StandardWidth(cs, Start(cs))
  {
    Pow2Small();
  }
}
