/** What inflating refuses: exactly when a stored block, a copy or the head of a block with dynamic codes does not
    stand for anything. */
module InflateRefusals {
  import opened Bits
  import opened BitStrings
  import opened CanonicalCode
  import opened Folding
  import opened InflateEncode
  import opened InflateSpec
  import opened InflateStreams
  import opened Options
  import ZlibDecoder

  // ---- Stored blocks, and kinds of block -----------------------------------------------------------------

  /** Section 3.2.4: LEN and NLEN, low bytes first, are complements; the data must fit. */
  lemma StoredRefusedExactlyWhen(data: seq<byte>, pos: nat, out: seq<byte>, cap: nat)
    ensures var j := (pos + 7) / 8;
            var len := ByteAt(data, j) as nat + 256 * ByteAt(data, j + 1) as nat;
            var nlen := ByteAt(data, j + 2) as nat + 256 * ByteAt(data, j + 3) as nat;
            InflateBlock(data, pos, 0, out, cap).None? <==> len + nlen != 65535 || |out| + len > cap
  {
    var j := (pos + 7) / 8;
    StoredAtRefused(data, j, out, cap);
  }

  lemma StoredAtRefused(data: seq<byte>, j: nat, out: seq<byte>, cap: nat)
    ensures var len := ByteAt(data, j) as nat + 256 * ByteAt(data, j + 1) as nat;
            var nlen := ByteAt(data, j + 2) as nat + 256 * ByteAt(data, j + 3) as nat;
            StoredAt(data, j, out, cap).None? <==> len + nlen != 65535 || |out| + len > cap
  {
    ZlibDecoder.HeaderFields(data, j, [ByteAt(data, j), ByteAt(data, j + 1), ByteAt(data, j + 2), ByteAt(data, j + 3)]);
    StoredLengths(data, j, ByteAt(data, j) as nat + 256 * ByteAt(data, j + 1) as nat,
                  ByteAt(data, j + 2) as nat + 256 * ByteAt(data, j + 3) as nat, out, cap);
  }

  lemma StoredLengths(data: seq<byte>, j: nat, len: nat, nlen: nat, out: seq<byte>, cap: nat)
    requires Val(data, 8 * j, 16) == len && Val(data, 8 * j + 16, 16) == nlen
    ensures StoredAt(data, j, out, cap).None? <==> len + nlen != 65535 || |out| + len > cap
  {
    StoredBytesRefused(data, j + 4, len, nlen, out, cap);
  }

  lemma StoredBytesRefused(data: seq<byte>, j: nat, len: nat, nlen: nat, out: seq<byte>, cap: nat)
    ensures StoredBytes(data, j, len, nlen, out, cap).None? <==> len + nlen != 65535 || |out| + len > cap
  {
  }

  /** There are three kinds of block. */
  lemma FourthKindRefused(data: seq<byte>, pos: nat, out: seq<byte>, cap: nat)
    ensures InflateBlock(data, pos, 3, out, cap).None?
  {
  }

  // ---- Copies ----------------------------------------------------------------------------------------------

  /** Symbols 286 and 287, distance symbols 30 and 31, and distances that reach behind the start are refused, and what
      does not fit. */
  lemma CopyRefusedExactlyWhen(lit: seq<nat>, dist: seq<nat>, data: seq<byte>, pos: nat, sym: nat, p: nat, d: nat, far: nat, len: nat,
                               out: seq<byte>, cap: nat)
    requires DecodeSym(lit, data, pos) == Some(sym) && sym >= 257
    requires LengthValue(data, pos + lit[sym], sym - 257) == Number(len, p) && DecodeSym(dist, data, p) == Some(d)
    requires far == DistBase(d) + Val(data, p + dist[d], DistExtra(d))
    ensures SymbolStep(lit, dist, data, pos, out, cap).Stop? <==> sym > 285 || d > 29 || far > |out| || |out| + len > cap
    ensures SymbolStep(lit, dist, data, pos, out, cap).Stop? ==> InflateCodes(lit, dist, data, pos, out, cap) == None
  {
    ApplyRefused(dist, data, pos + lit[sym], sym, sym - 257, p, d, far, len, out, cap);
  }

  lemma ApplyRefused(dist: seq<nat>, data: seq<byte>, pos: nat, sym: nat, z: nat, p: nat, d: nat, far: nat, len: nat, out: seq<byte>, cap: nat)
    requires sym == 257 + z && LengthValue(data, pos, z) == Number(len, p)
    requires DecodeSym(dist, data, p) == Some(d) && far == DistBase(d) + Val(data, p + dist[d], DistExtra(d))
    ensures ApplyStep(dist, data, pos, sym, out, cap).Stop? <==> sym > 285 || d > 29 || far > |out| || |out| + len > cap
  {
    CopyStepRefused(dist, data, p, d, far, len, out, cap);
  }

  lemma CopyStepRefused(dist: seq<nat>, data: seq<byte>, p: nat, d: nat, far: nat, len: nat, out: seq<byte>, cap: nat)
    requires DecodeSym(dist, data, p) == Some(d) && far == DistBase(d) + Val(data, p + dist[d], DistExtra(d))
    ensures CopyStep(dist, data, p, len, out, cap).Stop? <==> d > 29 || far > |out| || |out| + len > cap
  {
  }

  // ---- Dynamic codes ---------------------------------------------------------------------------------------

  /** The runs go on until there are total lengths or more. */
  predicate Reaches(acc: seq<nat>, runs: seq<Run>, total: nat)
    decreases |runs|
  {
    if runs == [] then |acc| >= total
    else |acc| < total && AddRun(acc, runs[0]).Some? && Reaches(AddRun(acc, runs[0]).value, runs[1..], total)
  }

  /** The runs make up the lengths; folded. */
  ghost predicate MakeUp(acc: seq<nat>, runs: seq<Run>, total: nat, lens: seq<nat>) {
    forall g: nat :: Guard(g) ==> AddRuns(acc, runs) == Some(lens) && Reaches(acc, runs, total)
  }

  lemma FirstMakesUp(acc: seq<nat>, runs: seq<Run>, total: nat, lens: seq<nat>) returns (more: seq<nat>)
    requires runs != [] && MakeUp(acc, runs, total, lens)
    ensures |acc| < total && AddRun(acc, runs[0]) == Some(more) && MakeUp(more, runs[1..], total, lens)
  {
    assert Guard(0);
    more := AddRun(acc, runs[0]).value;
  }

  lemma NothingMakesUp(acc: seq<nat>, total: nat, lens: seq<nat>)
    requires MakeUp(acc, [], total, lens)
    ensures lens == acc && |acc| >= total
  {
    assert Guard(0);
  }

  /** The first run is read; the others stand behind it. */
  lemma RunRead(cl: seq<nat>, data: seq<byte>, pos: nat, runs: seq<Run>, bits: BitString, acc: seq<nat>, more: seq<nat>, total: nat)
    returns (others: BitString, next: nat)
    requires runs != [] && RunsAre(cl, runs, bits) && There(data, pos, bits) && AddRun(acc, runs[0]) == Some(more) && |acc| < total
    ensures RunsAre(cl, runs[1..], others) && There(data, next, others) && next + |others| == pos + |bits|
    ensures ReadLengths(cl, data, pos, acc, total) == ReadLengths(cl, data, next, more, total)
  {
    var first;
    first, others := RunsFirst(cl, runs, bits);
    next := pos + |first|;
    ThereSplit(data, pos, first, others);
    RunDecodes(cl, data, pos, runs[0], acc, more, next);
    ReadNext(cl, data, pos, acc, total, Lengths(more, next));
  }

  lemma {:induction false} RunsReach(cl: seq<nat>, data: seq<byte>, pos: nat, runs: seq<Run>, bits: BitString, acc: seq<nat>, lens: seq<nat>,
                                     total: nat, end: nat)
    requires RunsAre(cl, runs, bits) && There(data, pos, bits) && MakeUp(acc, runs, total, lens) && end == pos + |bits|
    ensures ReadLengths(cl, data, pos, acc, total) == if |lens| == total then Some(Lengths(lens, end)) else None
    decreases |runs|
  {
    if runs == [] {
      NothingMakesUp(acc, total, lens);
      NoBits(cl, bits);
    } else {
      var more := FirstMakesUp(acc, runs, total, lens);
      var others, next := RunRead(cl, data, pos, runs, bits, acc, more, total);
      RunsReach(cl, data, next, runs[1..], others, more, lens, total, end);
    }
  }

  lemma NoBits(cl: seq<nat>, bits: BitString)
    requires RunsAre(cl, [], bits)
    ensures bits == []
  {
    assert Guard(0);
  }

  /** Both codes are usable, and there is nothing else. */
  ghost predicate BothUsable(lens: seq<nat>, hlit: nat, hdist: nat) {
    |lens| == hlit + hdist && Kraft(lens[..hlit]) && Kraft(lens[hlit..])
  }

  /** Lengths of hlit and hdist symbols, and not one more, must stand for codes that are not over-subscribed. */
  lemma HeadRefusedExactlyWhen(data: seq<byte>, pos: nat, hlit: nat, hdist: nat, total: nat, n: nat, cl: seq<nat>, runs: seq<Run>,
                               bits: BitString, lens: seq<nat>)
    requires 257 <= hlit <= 288 && 1 <= hdist <= 32 && total == hlit + hdist && LengthCode(cl, n)
    requires RunsAre(cl, runs, bits) && MakeUp([], runs, total, lens)
    requires There(data, pos, CountsBits(hlit, hdist, n, LensBits(cl, 0, n) + bits))
    ensures DynamicCodes(data, pos).Some? <==> BothUsable(lens, hlit, hdist)
  {
    CountsDecode(data, pos, hlit, hdist, n, LensBits(cl, 0, n) + bits);
    PartsRefused(data, pos + 14, hlit, hdist, total, n, cl, runs, bits, lens);
  }

  lemma PartsRefused(data: seq<byte>, pos: nat, hlit: nat, hdist: nat, total: nat, n: nat, cl: seq<nat>, runs: seq<Run>, bits: BitString,
                     lens: seq<nat>)
    requires LengthCode(cl, n) && RunsAre(cl, runs, bits) && There(data, pos, LensBits(cl, 0, n) + bits)
    requires MakeUp([], runs, total, lens) && total == hlit + hdist
    ensures DynamicFrom(data, pos, Counts(hlit, hdist, n)).Some? <==> BothUsable(lens, hlit, hdist)
  {
    var p := pos + 3 * n;
    LensAt(data, pos, cl, n, bits, p);
    FromIs(cl, n, data, pos, p, hlit, hdist);
    RunsRefused(cl, data, p, hlit, hdist, total, runs, bits, lens, p + |bits|);
  }

  lemma RunsRefused(cl: seq<nat>, data: seq<byte>, p: nat, hlit: nat, hdist: nat, total: nat, runs: seq<Run>, bits: BitString, lens: seq<nat>, end: nat)
    requires RunsAre(cl, runs, bits) && There(data, p, bits) && MakeUp([], runs, total, lens) && total == hlit + hdist && end == p + |bits|
    ensures CodesFrom(cl, data, p, hlit, hdist).Some? <==> BothUsable(lens, hlit, hdist)
  {
    RunsReach(cl, data, p, runs, bits, [], lens, total, end);
    RunsUsable(cl, runs, bits);
    FromRuns(cl, data, p, hlit, hdist, total, lens, end);
  }

  lemma RunsUsable(cl: seq<nat>, runs: seq<Run>, bits: BitString)
    requires RunsAre(cl, runs, bits)
    ensures Kraft(cl)
  {
    assert Guard(0);
  }

  lemma FromRuns(cl: seq<nat>, data: seq<byte>, p: nat, hlit: nat, hdist: nat, total: nat, lens: seq<nat>, end: nat)
    requires Kraft(cl) && total == hlit + hdist
    requires ReadLengths(cl, data, p, [], total) == if |lens| == total then Some(Lengths(lens, end)) else None
    ensures CodesFrom(cl, data, p, hlit, hdist).Some? <==> BothUsable(lens, hlit, hdist)
  {
    if |lens| == total {
      assert CodesFrom(cl, data, p, hlit, hdist) == SplitCodes(lens, hlit, end);
    }
  }

  lemma LensAt(data: seq<byte>, pos: nat, cl: seq<nat>, n: nat, bits: BitString, p: nat)
    requires LengthCode(cl, n) && There(data, pos, LensBits(cl, 0, n) + bits) && p == pos + 3 * n
    ensures CodeLengthLens(data, pos, n) == cl && There(data, p, bits)
  {
    var lens := LensBits(cl, 0, n);
    LensBitsLength(cl, 0, n);
    ThereSplit(data, pos, lens, bits);
    LensDecode(data, pos, cl, n, lens);
  }

  /** An over-subscribed code length code is refused. */
  lemma LengthCodeRefused(data: seq<byte>, pos: nat, hlit: nat, hdist: nat, n: nat, cl: seq<nat>, bits: BitString)
    requires 257 <= hlit <= 288 && 1 <= hdist <= 32 && LengthCode(cl, n) && !Kraft(cl)
    requires There(data, pos, CountsBits(hlit, hdist, n, LensBits(cl, 0, n) + bits))
    ensures DynamicCodes(data, pos).None?
  {
    CountsDecode(data, pos, hlit, hdist, n, LensBits(cl, 0, n) + bits);
    LensAt(data, pos + 14, cl, n, bits, pos + 14 + 3 * n);
  }
}
