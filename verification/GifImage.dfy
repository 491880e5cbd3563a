/** A GIF frame's image data as an encoder may write them, sub-blocks included; and that the program draws the pixels they
    were made from. */
module GifImage {
  import opened Bits
  import opened Context
  import opened GifDecoder
  import opened GifEncode
  import opened GifOrder
  import opened GifPack
  import opened GifScan
  import opened GifSpec
  import opened Multiples

  /** Sub-blocks of 1 to 255 bytes. */
  predicate Chunks(chunks: seq<seq<byte>>) {
    forall i | 0 <= i < |chunks| :: 1 <= |chunks[i]| <= 255
  }

  /** Each behind its length, and an empty one. */
  function Blocked(chunks: seq<seq<byte>>): seq<byte>
    requires Chunks(chunks)
  {
    if chunks == [] then [0] else [|chunks[0]| as byte] + (chunks[0] + Blocked(chunks[1..]))
  }

  function Joined(chunks: seq<seq<byte>>): seq<byte> {
    if chunks == [] then [] else chunks[0] + Joined(chunks[1..])
  }

  lemma ByteRead(b: byte, rest: seq<byte>, whole: seq<byte>, len: nat)
    requires whole == [b] + rest && len > 0
    ensures Data(whole, len) == [b] + Data(rest, len - 1) && After(whole, len) == After(rest, len - 1)
  {
    assert Tail(whole) == rest;
  }

  /** A sub-block is read up to its end. */
  lemma {:induction false} ChunkRead(chunk: seq<byte>, rest: seq<byte>, whole: seq<byte>, len: nat)
    requires whole == chunk + rest && len == |chunk|
    ensures Data(whole, len) == chunk + Data(rest, 0) && After(whole, len) == After(rest, 0)
    decreases |chunk|
  {
    if chunk == [] {
      assert whole == rest;
    } else {
      ChunkRead(chunk[1..], rest, chunk[1..] + rest, len - 1);
      ByteRead(chunk[0], chunk[1..] + rest, whole, len);
      assert chunk == [chunk[0]] + chunk[1..];
    }
  }

  /** The length in front of a sub-block says how many bytes of it follow. */
  lemma LengthRead(len: byte, rest: seq<byte>, whole: seq<byte>)
    requires len > 0 && whole == [len] + rest
    ensures Data(whole, 0) == Data(rest, len as nat) && After(whole, 0) == After(rest, len as nat)
  {
    assert Tail(whole) == rest;
  }

  lemma FirstBlocked(chunks: seq<seq<byte>>, more: seq<byte>, rest: seq<byte>)
    requires Chunks(chunks) && chunks != [] && rest == Blocked(chunks[1..]) + more
    ensures Blocked(chunks) + more == [|chunks[0]| as byte] + (chunks[0] + rest)
  {
  }

  lemma {:induction false} BlocksRead(chunks: seq<seq<byte>>, more: seq<byte>, whole: seq<byte>)
    requires Chunks(chunks) && whole == Blocked(chunks) + more
    ensures Data(whole, 0) == Joined(chunks) && After(whole, 0) == more
    decreases |chunks|
  {
    if chunks == [] {
      assert Tail(whole) == more;
    } else {
      var c, rest := chunks[0], Blocked(chunks[1..]) + more;
      BlocksRead(chunks[1..], more, rest);
      ChunkRead(c, rest, c + rest, |c|);
      FirstBlocked(chunks, more, rest);
      LengthRead(|c| as byte, c + rest, whole);
    }
  }

  /** The program takes a frame encoded in any sub-blocks, goes on behind it, and the screen shows its pixels. */
  method DrawEncoded(g: Gif, s: Source, x: nat, y: nat, w: nat, h: nat, width: nat, interlaced: bool, table: seq<byte>, ghost f: Frame,
                     ghost cs: nat, ghost pixels: seq<byte>, ghost chunks: seq<seq<byte>>, ghost more: seq<byte>)
    returns (ok: bool)
    requires ValidFrame(f) && f == Frame(width, f.height, x, y, w, h, interlaced, table) && g.out != g.history
    requires g.history.Length == Times(f.height, width) && g.out.Length == 4 * g.history.Length && |g.codes| == MAX_CODES
    requires 2 <= cs <= 11 && PixelsFit(cs, pixels) && Chunks(chunks) && Joined(chunks) == Encode(cs, pixels)
    requires s.Rest() == [cs as byte] + (Blocked(chunks) + more)
    modifies s, g, g.out, g.history
    ensures ok && s.Rest() == more && Fits(f, old(g.Drawn()).picture)
    ensures ScreenShows(f, old(g.Drawn().picture), pixels, g.Drawn().picture)
  {
    BlocksRead(chunks, more, Blocked(chunks) + more);
    RoundTrip(cs, pixels);
    assert Tail(s.Rest()) == Blocked(chunks) + more;
    ok := g.LoadFrame(s, x, y, w, h, width, interlaced, table, f);
  }
}
