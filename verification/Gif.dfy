/** The GIF raster decoder: a table of codes whose strings are linked backwards, written pixel by pixel
    into the image. */
module GifDecoder {
  import opened Bits
  import opened Context
  import opened Folding
  import opened GifSpec
  import opened GifOrder
  import opened GifScan
  import opened Multiples
  import opened Options

  /** stbi__gif_lzw: the code of all but the last symbol, or -1; the first symbol; the last symbol. */
  datatype Entry = Entry(prefix: int, first: byte, suffix: byte)

  /** Entry i stands for string i of the dictionary, and its prefix comes earlier in the table. */
  predicate EntryIs(cs: nat, codes: seq<Entry>, dict: seq<seq<byte>>, i: nat)
    requires i < |codes| && i < |dict|
  {
    var e := codes[i];
    -1 <= e.prefix < i && IsString(cs, e.prefix) &&
    dict[i] == (if e.prefix == -1 then [] else dict[e.prefix]) + [e.suffix] && e.first == dict[i][0]
  }

  predicate DictIs(cs: nat, codes: seq<Entry>, dict: seq<seq<byte>>) {
    |codes| == MAX_CODES && ValidDict(cs, dict) &&
    forall i {:trigger EntryIs(cs, codes, dict, i)} | 0 <= i < |dict| && IsString(cs, i) :: EntryIs(cs, codes, dict, i)
  }

  /** The local variables of the raster loop stand for a state of the dictionary decoder. */
  predicate Holds(cs: nat, codes: seq<Entry>, st: Lzw, codesize: nat, avail: nat, oldcode: int, first: bool) {
    DictIs(cs, codes, st.dict) && FreshDict(cs) <= st.dict && codesize > 0 && st.width == codesize && |st.dict| == avail &&
    first == !st.cleared && -1 <= oldcode < avail && (oldcode == -1 <==> st.last == []) &&
    (oldcode >= 0 ==> IsString(cs, oldcode) && st.last == st.dict[oldcode])
  }

  /** What the raster loop has buffered: bits read from the first fed bytes of the image data, of which
      len bytes remain in the current sub-block. */
  predicate Buffered(data: seq<byte>, pos: nat, fed: nat, rest: seq<byte>, len: nat, bits: nat, validBits: nat) {
    fed <= |data| && pos + validBits == 8 * fed && data[fed..] == Data(rest, len) &&
    bits == Val(data, pos, validBits)
  }

  /** A byte above the buffered bits is the next eight bits. */
  lemma NextByte(data: seq<byte>, pos: nat, fed: nat, n: nat)
    requires fed < |data| && pos + n == 8 * fed
    ensures Or(Val(data, pos, n), Shl(data[fed] as nat, n)) == Val(data, pos, n + 8)
  {
    var b, k := data[fed] as nat, 8;
    ValByte(data, fed, pos + n, k);
    ValBound(data, pos, n);
    OrAppend(Val(data, pos, n), b, n);
    ValSplit(data, pos, n, k);
  }

  /** The entry that a code adds: its prefix is the previous code, its last symbol the first of the code's
      own string, which may be the string being added. */
  lemma EntryAdded(cs: nat, codes: seq<Entry>, codes': seq<Entry>, dict: seq<seq<byte>>, prev: nat, code: nat)
    requires DictIs(cs, codes, dict) && |dict| < MAX_CODES && prev < |dict| && code <= |dict|
    requires IsString(cs, prev) && IsString(cs, code) && |codes'| == |codes|
    requires forall i | 0 <= i < |dict| :: codes'[i] == codes[i]
    requires var e := codes'[|dict|];
             e.prefix == prev && e.first == codes[prev].first && e.suffix == codes'[code].first
    ensures DictIs(cs, codes', dict + [dict[prev] + [StringOf(dict, dict[prev], code)[0]]])
  {
    assert EntryIs(cs, codes, dict, prev);
    var last := StringOf(dict, dict[prev], code)[0];
    assert codes'[code].first == last by {
      if code < |dict| {
        assert EntryIs(cs, codes, dict, code);
      }
    }
    var added := dict[prev] + [last];
    var grown := dict + [added];
    EntryNew(cs, codes', dict, prev, last);
    forall i | 0 <= i < |grown| && IsString(cs, i) ensures EntryIs(cs, codes', grown, i) {
      if i < |dict| {
        EntryKept(cs, codes, codes', dict, added, i);
      }
    }
    assert ValidDict(cs, grown);
    assert DictIs(cs, codes', grown);
  }

  lemma EntryNew(cs: nat, codes: seq<Entry>, dict: seq<seq<byte>>, prev: nat, last: byte)
    requires prev < |dict| < |codes| && IsString(cs, prev) && dict[prev] != []
    requires codes[|dict|] == Entry(prev, dict[prev][0], last)
    ensures EntryIs(cs, codes, dict + [dict[prev] + [last]], |dict|)
  {
  }

  lemma EntryKept(cs: nat, codes: seq<Entry>, codes': seq<Entry>, dict: seq<seq<byte>>, added: seq<byte>, i: nat)
    requires |codes| == |codes'| && i < |dict| <= |codes| && EntryIs(cs, codes, dict, i) && codes'[i] == codes[i]
    ensures EntryIs(cs, codes', dict + [added], i)
  {
  }

  /** The entries of the pixel values outlive every clear code. */
  lemma FreshEntries(cs: nat, codes: seq<Entry>, dict: seq<seq<byte>>)
    requires DictIs(cs, codes, dict) && FreshDict(cs) <= dict
    ensures DictIs(cs, codes, FreshDict(cs))
  {
    var plain := FreshDict(cs);
    forall i | 0 <= i < |plain| && IsString(cs, i) ensures EntryIs(cs, codes, plain, i) {
      assert EntryIs(cs, codes, dict, i);
    }
  }

  datatype Status = More | Done | Failed

  class Gif {
    var out: array<byte>
    var history: array<byte>
    var codes: seq<Entry>
    var colorTable: seq<byte>
    var parse: nat
    var step: nat
    var startX: nat
    var startY: nat
    var maxX: nat
    var maxY: nat
    var curX: nat
    var curY: nat
    var lineSize: nat
    /** The frame and the cursor that these fields describe. */
    ghost var frame: Frame
    ghost var cursor: Cursor

    ghost predicate FrameIs()
      reads this`frame, this`colorTable, this`out, this`history
      reads this`lineSize, this`startX, this`startY, this`maxX, this`maxY
    {
      ValidFrame(frame) && out != history && forall k: nat :: Guard(k) ==> WindowIs()
    }

    ghost predicate WindowIs()
      reads this`frame, this`colorTable, this`out, this`history
      reads this`lineSize, this`startX, this`startY, this`maxX, this`maxY
    {
      colorTable == frame.table &&
      lineSize == 4 * frame.width && startX == 4 * frame.x && maxX == startX + 4 * frame.w &&
      startY == Times(frame.y, lineSize) && maxY == Times(frame.y + frame.h, lineSize) &&
      history.Length == Times(frame.height, frame.width) && out.Length == 4 * history.Length
    }

    ghost predicate CursorIs(c: Cursor)
      reads this
    {
      curX == startX + 4 * c.col && curY == Times(frame.y + c.row, lineSize) &&
      step == Times(c.step, lineSize) && parse == c.parse
    }

    ghost function Drawn(): Pen
      reads this`cursor, this`out, this`history, out, history
    {
      Pen(cursor, Picture(out[..], history[..]))
    }

    ghost predicate Valid()
      reads this, out, history
    {
      FrameIs() && CursorIs(cursor) && ValidPen(frame, Drawn())
    }

    // ---- One pixel ------------------------------------------------------------------------------------

    /** The fields of the image descriptor, in bytes rather than pixels. */
    method SetWindow(x: nat, y: nat, w: nat, h: nat, width: nat, table: seq<byte>)
      requires frame.width == width && frame.x == x && frame.y == y && frame.w == w && frame.h == h
      requires frame.table == table && ValidFrame(frame) && out != history
      requires history.Length == Times(frame.height, width) && out.Length == 4 * history.Length
      modifies this`lineSize, this`startX, this`startY, this`maxX, this`maxY, this`colorTable
      ensures FrameIs()
    {
      lineSize := 4 * width;
      startX := 4 * x;
      startY := Times(y, lineSize);
      maxX := startX + 4 * w;
      maxY := startY + Times(h, lineSize);
      colorTable := table;
      TimesAdd(y, h, lineSize);
    }

    /** The cursor goes to the first pixel, or past the last one if rows are empty. */
    method SetCursor(w: nat, interlaced: bool)
      requires FrameIs() && frame.w == w && frame.interlaced == interlaced
      modifies this`curX, this`curY, this`step, this`parse
      ensures CursorIs(First(w, frame.h, interlaced))
    {
      assert Guard(0);
      var passes := if interlaced then 8 else 1;
      curX := startX;
      curY := if w == 0 then maxY else startY;
      step := Times(passes, lineSize);
      parse := if interlaced then 3 else 0;
    }

    /** The frame of an image descriptor that lies within the screen. */
    method StartFrame(ghost f: Frame, x: nat, y: nat, w: nat, h: nat, width: nat, interlaced: bool, table: seq<byte>)
      requires ValidFrame(f) && f == Frame(width, f.height, x, y, w, h, interlaced, table) && out != history
      requires history.Length == Times(f.height, width) && out.Length == 4 * history.Length
      modifies this`frame, this`cursor, this`lineSize, this`startX, this`startY, this`maxX, this`maxY, this`colorTable
      modifies this`curX, this`curY, this`step, this`parse
      ensures Valid() && frame == f
      ensures Drawn() == Pen(First(w, f.h, interlaced), old(Drawn()).picture)
    {
      frame, cursor := f, First(w, f.h, interlaced);
      SetWindow(x, y, w, h, width, table);
      SetCursor(w, interlaced);
    }

    lemma RowPast(row: nat)
      requires FrameIs() && (frame.w > 0 || row >= frame.h)
      ensures Times(frame.y + row, lineSize) >= maxY <==> row >= frame.h
    {
      assert Guard(0);
      if row < frame.h {
        TimesMono(frame.y + row, frame.y + frame.h, lineSize);
      } else if row > frame.h {
        TimesMono(frame.y + frame.h, frame.y + row, lineSize);
      }
    }

    /** The cursor goes to the first row of the next pass. */
    method NextStart(ghost d: Cursor)
      requires FrameIs() && CursorIs(d) && d.col == 0 && parse > 0
      modifies this`curY, this`step, this`parse
      ensures CursorIs(NextOf(d))
    {
      assert Guard(0);
      ghost var half := Shl(1, parse - 1);
      step := Times(Shl(1, parse), lineSize);
      TimesAdd(half, half, lineSize);
      TimesAdd(frame.y, half, lineSize);
      curY := startY + step / 2;
      parse := parse - 1;
    }

    /** Starts the passes that the cursor e is past the bottom of. */
    method StartPass(ghost e: Cursor)
      requires FrameIs() && frame.w > 0 && CursorIs(e) && e.col == 0
      modifies this`curY, this`step, this`parse
      ensures CursorIs(NextPass(e, frame.h))
    {
      assert Guard(0);
      ghost var d := e;
      RowPast(d.row);
      while curY >= maxY && parse > 0
        invariant CursorIs(d) && d.col == 0 && NextPass(d, frame.h) == NextPass(e, frame.h)
        invariant curY >= maxY <==> d.row >= frame.h
        decreases parse
      {
        NextStart(d);
        d := NextOf(d);
        RowPast(d.row);
      }
    }

    /** The cursor goes on to the next pixel of the row, row of the pass, or pass. */
    method NextPixel(ghost c: Cursor)
      requires FrameIs() && CursorIs(c) && c.row < frame.h && c.col < frame.w
      modifies this`curX, this`curY, this`step, this`parse
      ensures CursorIs(Advance(c, frame.w, frame.h))
    {
      assert Guard(0);
      curX := curX + 4;
      if curX >= maxX {
        curX := startX;
        curY := curY + step;
        TimesAdd(frame.y + c.row, c.step, lineSize);
        assert frame.y + c.row + c.step == frame.y + (c.row + c.step);
        StartPass(RowDown(c));
      }
    }

    lemma PixelOffset(c: Cursor)
      requires FrameIs() && CursorIs(c) && c.row < frame.h && c.col < frame.w
      ensures curX + curY == 4 * PixelAt(frame, c.row, c.col) && PixelAt(frame, c.row, c.col) < history.Length
    {
      assert Guard(0);
      TimesFour(frame.y + c.row, frame.width);
      PixelInside(frame, c.row, c.col);
    }

    /** Writes the colour of an index at a byte offset. */
    method SetPixel(idx: nat, suffix: byte)
      requires FrameIs() && Fits(frame, Drawn().picture) && idx % 4 == 0 && idx / 4 < history.Length
      modifies out, history
      ensures Drawn().picture == Paint(frame, old(Drawn()).picture, idx / 4, suffix)
    {
      assert Guard(0);
      history[idx / 4] := 1;
      var c := 4 * suffix as nat;
      if colorTable[c + 3] > 128 {
        out[idx] := colorTable[c + 2];
        out[idx + 1] := colorTable[c + 1];
        out[idx + 2] := colorTable[c];
        out[idx + 3] := colorTable[c + 3];
      }
    }

    /** Writes the cursor's pixel and goes on to the next. */
    method DrawPixel(suffix: byte)
      requires Valid() && cursor.row < frame.h
      modifies this`curX, this`curY, this`step, this`parse, this`cursor, out, history
      ensures CursorIs(cursor) && Drawn() == Put(frame, old(Drawn()), suffix)
    {
      PixelOffset(cursor);
      SetPixel(curX + curY, suffix);
      NextPixel(cursor);
      cursor := Advance(cursor, frame.w, frame.h);
    }

    /** One pixel index goes to the cursor's pixel, or nowhere once the frame is full. */
    method PlacePixel(suffix: byte)
      requires Valid()
      modifies this`curX, this`curY, this`step, this`parse, this`cursor, out, history
      ensures Valid() && Drawn() == Put(frame, old(Drawn()), suffix)
    {
      RowPast(cursor.row);
      if curY < maxY {
        DrawPixel(suffix);
      }
    }

    /** Writes the string of a code, its prefix first. */
    method OutGifCode(cs: nat, code: nat, ghost dict: seq<seq<byte>>)
      requires Valid() && DictIs(cs, codes, dict) && code < |dict| && IsString(cs, code)
      modifies this`curX, this`curY, this`step, this`parse, this`cursor, out, history
      ensures Valid() && Drawn() == PutAll(frame, old(Drawn()), dict[code])
      decreases code
    {
      assert EntryIs(cs, codes, dict, code);
      if codes[code].prefix >= 0 {
        OutGifCode(cs, codes[code].prefix, dict);
      }
      PlacePixel(codes[code].suffix);
    }

    // ---- The raster -------------------------------------------------------------------------------------

    /** One code per pixel value. */
    method InitCodes(cs: nat)
      requires |codes| == MAX_CODES && cs <= 12
      modifies this`codes
      ensures DictIs(cs, codes, FreshDict(cs))
    {
      ClearBound(cs);
      var clear := Shl(1, cs);
      ShlOne(cs);
      var i := 0;
      while i < clear
        invariant 0 <= i <= clear && |codes| == MAX_CODES
        invariant forall k | 0 <= k < i :: codes[k] == Entry(-1, (k % 256) as byte, (k % 256) as byte)
      {
        codes := codes[i := Entry(-1, (i % 256) as byte, (i % 256) as byte)];
        i := i + 1;
      }
    }

    /** The next free entry becomes the previous code's string and the first symbol of this code's. */
    method AddEntry(cs: nat, avail: nat, oldcode: nat, code: nat, ghost dict: seq<seq<byte>>)
      requires DictIs(cs, codes, dict) && avail == |dict| < MAX_CODES && oldcode < avail && code <= avail
      requires IsString(cs, oldcode) && IsString(cs, code)
      modifies this`codes
      ensures DictIs(cs, codes, dict + [dict[oldcode] + [StringOf(dict, dict[oldcode], code)[0]]])
    {
      ghost var was := codes;
      codes := codes[avail := codes[avail].(prefix := oldcode)];
      codes := codes[avail := codes[avail].(first := codes[oldcode].first)];
      // The source compares the code with the count already increased, which it never equals; a code that
      // is the entry being added finds the first symbol set just above.
      codes := codes[avail := codes[avail].(suffix := codes[code].first)];
      EntryAdded(cs, was, codes, dict, oldcode, code);
    }

    /** The code width once avail codes are assigned. */
    method Widen(codesize: nat, avail: nat) returns (codesize': nat)
      ensures codesize' == NextWidth(codesize, avail)
    {
      codesize' := codesize;
      ShlOne(codesize);
      AndMask(avail, codesize);
      if And(avail, Shl(1, codesize) - 1) == 0 && avail <= 0x0FFF {
        codesize' := codesize + 1;
      }
    }

    /** The new entry that a code for a string makes, unless there is no previous code, or an error. */
    method ExtendTable(cs: nat, code: nat, codesize: nat, avail: nat, oldcode: int, first: bool, ghost st: Lzw)
      returns (error: Option<LzwError>, avail': nat, ghost dict: seq<seq<byte>>)
      requires cs <= 12 && Holds(cs, codes, st, codesize, avail, oldcode, first) && code <= avail && IsString(cs, code)
      modifies this`codes
      ensures error.Some? ==> CodeStep(cs, st, code) == Bad(error.value)
      ensures error.None? ==>
                DictIs(cs, codes, dict) && avail' == |dict| && code < |dict| && codesize == st.width &&
                CodeStep(cs, st, code) == Next(Lzw(NextWidth(codesize, avail'), dict, dict[code], true, st.out + dict[code]))
    {
      error, avail', dict := None, avail, st.dict;
      if first {
        return Some(NoClearCode), avail, dict;
      }
      if oldcode >= 0 {
        avail' := avail + 1;
        if avail' > 8192 {
          return Some(TooManyCodes), avail', dict;
        }
        AddEntry(cs, avail, oldcode, code, st.dict);
        dict := dict + [st.last + [StringOf(dict, st.last, code)[0]]];
      } else if code == avail {
        return Some(IllegalCode), avail, dict;
      }
    }

    /** A code that stands for a string: it may add an entry, its string is drawn, the width may grow. */
    method StringCode(cs: nat, code: nat, codesize: nat, avail: nat, oldcode: int, first: bool, ghost st: Lzw)
      returns (error: Option<LzwError>, codesize': nat, avail': nat)
      requires Valid() && cs <= 12 && Holds(cs, codes, st, codesize, avail, oldcode, first)
      requires code <= avail && IsString(cs, code)
      modifies this`codes, this`curX, this`curY, this`step, this`parse, this`cursor, out, history
      ensures Valid() && Took(CodeStep(cs, st, code), cs, code, error, codesize', avail', st, old(Drawn()))
    {
      ghost var r, dict := CodeStep(cs, st, code), [];
      codesize' := codesize;
      error, avail', dict := ExtendTable(cs, code, codesize, avail, oldcode, first, st);
      if error.None? {
        OutGifCode(cs, code, dict);
        codesize' := Widen(codesize, avail');
        assert r.st.out[|st.out|..] == dict[code];
      }
    }

    /** The table, the locals and the drawing after a code are those of the dictionary decoder. */
    ghost predicate Took(r: LzwStep, cs: nat, code: nat, error: Option<LzwError>, codesize: nat, avail: nat, st: Lzw, before: Pen)
      requires ValidPen(frame, before)
      reads this`cursor, this`out, this`history, this`frame, this`codes, out, history
    {
      match r
      case End => false
      case Bad(e) => error == Some(e) && Drawn() == before
      case Next(st') =>
        error == None && Holds(cs, codes, st', codesize, avail, code, false) &&
        st.out <= st'.out && Drawn() == PutAll(frame, before, st'.out[|st.out|..])
    }

    /** The next byte of the image data goes above the buffered bits, unless the data has ended. */
    method ReadByte(s: Source, len: nat, bits: nat, validBits: nat, ghost data: seq<byte>, ghost pos: nat, ghost fed: nat)
      returns (more: bool, len': nat, bits': nat, validBits': nat)
      requires Buffered(data, pos, fed, s.Rest(), len, bits, validBits)
      modifies s
      ensures more <==> fed < |data|
      ensures more ==> Buffered(data, pos, fed + 1, s.Rest(), len', bits', validBits') && After(s.Rest(), len') == old(After(s.Rest(), len))
      ensures !more ==> s.Rest() == old(After(s.Rest(), len))
    {
      len', bits', validBits' := len, bits, validBits;
      if len' == 0 {
        var n := s.Get8();
        len' := n as nat;
        if len' == 0 {
          return false, len', bits', validBits';
        }
        assert Data(s.Rest(), len') == data[fed..];
      }
      assert data[fed..] == [Head(s.Rest())] + Data(Tail(s.Rest()), len' - 1);
      assert data[fed + 1..] == data[fed..][1..];
      len' := len' - 1;
      var b := s.Get8();
      NextByte(data, pos, fed, validBits);
      bits' := Or(bits', Shl(b as nat, validBits'));
      validBits' := validBits' + 8;
      more := true;
    }

    /** Past what is left of the image data. */
    method SkipData(s: Source, len: nat)
      modifies s
      ensures s.Rest() == old(After(s.Rest(), len))
    {
      AfterSkip(s.Rest(), len);
      s.Skip(len);
      var n := s.Get8();
      while n > 0
        invariant (if n == 0 then s.Rest() else After(s.Rest(), n as nat)) == old(After(s.Rest(), len))
        decreases |s.Rest()|, n
      {
        AfterSkip(s.Rest(), n as nat);
        s.Skip(n as nat);
        n := s.Get8();
      }
    }

    /** Takes the next code off the buffered bits. */
    method NextCode(bits: nat, validBits: nat, codesize: nat, len: nat, ghost rest: seq<byte>, ghost data: seq<byte>, ghost pos: nat,
                    ghost fed: nat, ghost next: nat)
      returns (code: nat, bits': nat, validBits': nat)
      requires Buffered(data, pos, fed, rest, len, bits, validBits) && codesize <= validBits && next == pos + codesize
      ensures code == Val(data, pos, codesize)
      ensures Buffered(data, next, fed, rest, len, bits', validBits')
    {
      AndMask(bits, codesize);
      ShlOne(codesize);
      ValTake(data, pos, validBits, codesize);
      code := And(bits, Shl(1, codesize) - 1);
      bits', validBits' := Shr(bits, codesize), validBits - codesize;
    }

    /** One code: clear, end, or a string. */
    method TakeCode(cs: nat, clear: nat, code: nat, codesize: nat, avail: nat, oldcode: int, first: bool, ghost st: Lzw, ghost pen: Pen)
      returns (status: Status, codesize': nat, avail': nat, oldcode': int, first': bool)
      requires Valid() && cs <= 12 && clear == Clear(cs) && Holds(cs, codes, st, codesize, avail, oldcode, first)
      requires ValidPen(frame, pen) && Drawn() == PutAll(frame, pen, st.out)
      modifies this`codes, this`curX, this`curY, this`step, this`parse, this`cursor, out, history
      ensures Valid()
      ensures Went(CodeStep(cs, st, code), cs, status, codesize', avail', oldcode', first', st, pen)
    {
      status, codesize', avail', oldcode', first' := Failed, codesize, avail, oldcode, first;
      if code == clear {
        status, codesize', avail', oldcode', first' := More, cs + 1, clear + 2, -1, false;
        FreshEntries(cs, codes, st.dict);
      } else if code == clear + 1 {
        status := Done;
      } else if code <= avail {
        var error;
        error, codesize', avail' := StringCode(cs, code, codesize, avail, oldcode, first, st);
        if error.None? {
          status, oldcode', first' := More, code, false;
          ghost var st' := CodeStep(cs, st, code).st;
          PutAllConcat(frame, pen, st.out, st'.out[|st.out|..]);
          assert st'.out == st.out + st'.out[|st.out|..];
        }
      }
    }

    /** The loop goes on with the state after the code, or stops with the drawing as it was. */
    ghost predicate Went(r: LzwStep, cs: nat, status: Status, codesize: nat, avail: nat, oldcode: int, first: bool, st: Lzw, pen: Pen)
      requires ValidPen(frame, pen)
      reads this`cursor, this`out, this`history, this`frame, this`codes, out, history
    {
      match r
      case End => status == Done && Drawn() == PutAll(frame, pen, st.out)
      case Bad(_) => status == Failed && Drawn() == PutAll(frame, pen, st.out)
      case Next(st') =>
        status == More && Holds(cs, codes, st', codesize, avail, oldcode, first) && Drawn() == PutAll(frame, pen, st'.out)
    }

    /** The state of the raster loop: the codes taken so far have led to st, whose drawing is on the canvas,
        and decoding the rest of the data from there comes to whole. */
    ghost predicate Looping(cs: nat, st: Lzw, codesize: nat, avail: nat, oldcode: int, first: bool, pen: Pen,
                            data: seq<byte>, pos: nat, whole: Raster)
      requires ValidPen(frame, pen)
      reads this, out, history
    {
      cs <= 12 && Valid() && Holds(cs, codes, st, codesize, avail, oldcode, first) && ValidLzw(cs, st) &&
      Drawn() == PutAll(frame, pen, st.out) && Leads(cs, data, pos, st, whole)
    }

    /** Takes one code off the buffered bits and carries it out. */
    method LoopCode(cs: nat, clear: nat, code: nat, codesize: nat, avail: nat, oldcode: int, first: bool,
                    ghost st: Lzw, ghost pen: Pen, ghost data: seq<byte>, ghost pos: nat, ghost next: nat, ghost whole: Raster)
      returns (status: Status, codesize': nat, avail': nat, oldcode': int, first': bool, ghost st': Lzw)
      requires ValidPen(frame, pen) && Looping(cs, st, codesize, avail, oldcode, first, pen, data, pos, whole)
      requires clear == Clear(cs) && next == pos + codesize <= 8 * |data| && code == Val(data, pos, codesize)
      modifies this`codes, this`curX, this`curY, this`step, this`parse, this`cursor, out, history
      ensures Valid()
      ensures status == More ==> Looping(cs, st', codesize', avail', oldcode', first', pen, data, next, whole)
      ensures status != More ==> whole.Drawn? == (status == Done) && Drawn() == PutAll(frame, pen, whole.out)
    {
      ghost var went := CodeStep(cs, st, code);
      DecodeNext(cs, data, pos, st, whole);
      assert Goes(cs, data, next, went, st.out, whole);
      status, codesize', avail', oldcode', first' := TakeCode(cs, clear, code, codesize, avail, oldcode, first, st, pen);
      st' := if status == More then went.st else st;
    }

    /** The bits left over when the image data ends are not a code. */
    lemma DataEnds(cs: nat, st: Lzw, codesize: nat, avail: nat, oldcode: int, first: bool, pen: Pen,
                   data: seq<byte>, pos: nat, whole: Raster)
      requires ValidPen(frame, pen) && Looping(cs, st, codesize, avail, oldcode, first, pen, data, pos, whole)
      requires pos + codesize > 8 * |data|
      ensures Valid() && whole.Drawn? && Drawn() == PutAll(frame, pen, whole.out)
    {
      assert Guard(0);
    }

    /** What one turn of the loop leaves: the loop goes on from the new state, or the drawing is complete. */
    ghost predicate Turned(s: Source, cs: nat, status: Status, len: nat, bits: nat, validBits: nat, codesize: nat, avail: nat,
                           oldcode: int, first: bool, st: Lzw, pen: Pen, data: seq<byte>, pos: nat, fed: nat, whole: Raster, after: seq<byte>)
      requires ValidPen(frame, pen)
      reads this, out, history, s
    {
      forall g: nat :: Guard(g) ==> TurnedNow(s, cs, status, len, bits, validBits, codesize, avail, oldcode, first, st, pen, data, pos, fed, whole, after)
    }

    ghost predicate TurnedNow(s: Source, cs: nat, status: Status, len: nat, bits: nat, validBits: nat, codesize: nat, avail: nat,
                              oldcode: int, first: bool, st: Lzw, pen: Pen, data: seq<byte>, pos: nat, fed: nat, whole: Raster, after: seq<byte>)
      requires ValidPen(frame, pen)
      reads this, out, history, s
    {
      if status == More then
        Looping(cs, st, codesize, avail, oldcode, first, pen, data, pos, whole) &&
        Buffered(data, pos, fed, s.Rest(), len, bits, validBits) && After(s.Rest(), len) == after
      else
        Valid() && whole.Drawn? == (status == Done) && Drawn() == PutAll(frame, pen, whole.out) &&
        (status == Done ==> s.Rest() == after)
    }

    lemma OpenTurned(s: Source, cs: nat, status: Status, len: nat, bits: nat, validBits: nat, codesize: nat, avail: nat,
                     oldcode: int, first: bool, st: Lzw, pen: Pen, data: seq<byte>, pos: nat, fed: nat, whole: Raster, after: seq<byte>)
      requires ValidPen(frame, pen)
      requires Turned(s, cs, status, len, bits, validBits, codesize, avail, oldcode, first, st, pen, data, pos, fed, whole, after)
      ensures TurnedNow(s, cs, status, len, bits, validBits, codesize, avail, oldcode, first, st, pen, data, pos, fed, whole, after)
    {
      assert Guard(0);
    }

    lemma CloseTurned(s: Source, cs: nat, status: Status, len: nat, bits: nat, validBits: nat, codesize: nat, avail: nat,
                      oldcode: int, first: bool, st: Lzw, pen: Pen, data: seq<byte>, pos: nat, fed: nat, whole: Raster, after: seq<byte>)
      requires ValidPen(frame, pen)
      requires TurnedNow(s, cs, status, len, bits, validBits, codesize, avail, oldcode, first, st, pen, data, pos, fed, whole, after)
      ensures Turned(s, cs, status, len, bits, validBits, codesize, avail, oldcode, first, st, pen, data, pos, fed, whole, after)
    {
    }

    /** A turn that reads a byte, or finds the data at its end. */
    method ByteTurn(s: Source, cs: nat, len: nat, bits: nat, validBits: nat, codesize: nat, avail: nat, oldcode: int, first: bool,
                    ghost st: Lzw, ghost pen: Pen, ghost data: seq<byte>, ghost pos: nat, ghost fed: nat, ghost whole: Raster,
                    ghost after: seq<byte>, ghost next: nat)
      returns (status: Status, len': nat, bits': nat, validBits': nat)
      requires ValidPen(frame, pen) && validBits < codesize && next == fed + 1
      requires Turned(s, cs, More, len, bits, validBits, codesize, avail, oldcode, first, st, pen, data, pos, fed, whole, after)
      modifies s
      ensures (status == More && fed < |data|) || status == Done
      ensures Turned(s, cs, status, len', bits', validBits', codesize, avail, oldcode, first, st, pen, data, pos, next, whole, after)
    {
      OpenTurned(s, cs, More, len, bits, validBits, codesize, avail, oldcode, first, st, pen, data, pos, fed, whole, after);
      var more;
      more, len', bits', validBits' := ReadByte(s, len, bits, validBits, data, pos, fed);
      status := if more then More else Done;
      if !more {
        DataEnds(cs, st, codesize, avail, oldcode, first, pen, data, pos, whole);
      }
      CloseTurned(s, cs, status, len', bits', validBits', codesize, avail, oldcode, first, st, pen, data, pos, next, whole, after);
    }

    /** A turn that takes a code. */
    method CodeTurn(s: Source, cs: nat, clear: nat, len: nat, bits: nat, validBits: nat,
                    codesize: nat, avail: nat, oldcode: int, first: bool,
                    ghost st: Lzw, ghost pen: Pen, ghost data: seq<byte>, ghost pos: nat, ghost fed: nat, ghost whole: Raster,
                    ghost after: seq<byte>, ghost next: nat)
      returns (status: Status, bits': nat, validBits': nat, codesize': nat, avail': nat, oldcode': int, first': bool, ghost st': Lzw)
      requires ValidPen(frame, pen) && clear == Clear(cs) && validBits >= codesize && next == pos + codesize
      requires Turned(s, cs, More, len, bits, validBits, codesize, avail, oldcode, first, st, pen, data, pos, fed, whole, after)
      modifies s, this`codes, this`curX, this`curY, this`step, this`parse, this`cursor, out, history
      ensures pos < next <= 8 * |data|
      ensures Turned(s, cs, status, len, bits', validBits', codesize', avail', oldcode', first', st', pen, data, next, fed, whole, after)
    {
      OpenTurned(s, cs, More, len, bits, validBits, codesize, avail, oldcode, first, st, pen, data, pos, fed, whole, after);
      var code;
      code, bits', validBits' := NextCode(bits, validBits, codesize, len, s.Rest(), data, pos, fed, next);
      status, codesize', avail', oldcode', first', st' :=
        LoopCode(cs, clear, code, codesize, avail, oldcode, first, st, pen, data, pos, next, whole);
      if status == Done {
        SkipData(s, len);
      }
      CloseTurned(s, cs, status, len, bits', validBits', codesize', avail', oldcode', first', st', pen, data, next, fed, whole, after);
    }

    lemma LoopStarts(cs: nat, pen: Pen, data: seq<byte>)
      requires cs <= 12 && Valid() && DictIs(cs, codes, FreshDict(cs)) && pen == Drawn()
      ensures Looping(cs, Start(cs), cs + 1, Clear(cs) + 2, -1, true, pen, data, 0, DecodeData(cs, data))
    {
      StartValid(cs);
    }

    lemma RasterStarts(s: Source, cs: nat, codesize: nat, avail: nat, oldcode: int, first: bool, st: Lzw, pen: Pen, data: seq<byte>,
                       pos: nat, fed: nat, whole: Raster, after: seq<byte>)
      requires ValidPen(frame, pen) && Looping(cs, st, codesize, avail, oldcode, first, pen, data, pos, whole)
      requires data == Data(s.Rest(), 0) && after == After(s.Rest(), 0) && pos == 0 && fed == 0
      ensures Turned(s, cs, More, 0, 0, 0, codesize, avail, oldcode, first, st, pen, data, pos, fed, whole, after)
    {
      assert data[0..] == data;
    }

    lemma RasterEnds(s: Source, cs: nat, status: Status, len: nat, bits: nat, validBits: nat, codesize: nat, avail: nat,
                     oldcode: int, first: bool, st: Lzw, pen: Pen, data: seq<byte>, pos: nat, fed: nat, whole: Raster, after: seq<byte>)
      requires ValidPen(frame, pen) && status != More
      requires Turned(s, cs, status, len, bits, validBits, codesize, avail, oldcode, first, st, pen, data, pos, fed, whole, after)
      ensures Valid() && whole.Drawn? == (status == Done) && Drawn() == PutAll(frame, pen, whole.out)
      ensures status == Done ==> s.Rest() == after
    {
      assert Guard(0);
    }

    method RasterLoop(s: Source, cs: nat, clear: nat, ghost pen: Pen, ghost data: seq<byte>, ghost whole: Raster)
      returns (ok: bool)
      requires cs <= 12 && clear == Clear(cs) && data == Data(s.Rest(), 0) && whole == DecodeData(cs, data)
      requires ValidPen(frame, pen) && Looping(cs, Start(cs), cs + 1, clear + 2, -1, true, pen, data, 0, whole)
      modifies s, this`codes, this`curX, this`curY, this`step, this`parse, this`cursor, out, history
      ensures Valid() && ok == whole.Drawn? && Drawn() == PutAll(frame, pen, whole.out)
      ensures ok ==> s.Rest() == old(After(s.Rest(), 0))
    {
      var status := More;
      var bits: nat, validBits: nat, len: nat := 0, 0, 0;
      var codesize: nat, avail: nat, oldcode: int, first := cs + 1, clear + 2, -1, true;
      ghost var pos: nat, fed: nat, st, after := 0, 0, Start(cs), After(s.Rest(), 0);
      RasterStarts(s, cs, codesize, avail, oldcode, first, st, pen, data, pos, fed, whole, after);
      while status == More
        invariant Turned(s, cs, status, len, bits, validBits, codesize, avail, oldcode, first, st, pen, data, pos, fed, whole, after)
        decreases status == More, 8 * |data| - pos, |data| - fed
      {
        if validBits < codesize {
          ghost var next := fed + 1;
          status, len, bits, validBits :=
            ByteTurn(s, cs, len, bits, validBits, codesize, avail, oldcode, first, st, pen, data, pos, fed, whole, after, next);
          fed := next;
        } else {
          ghost var next := pos + codesize;
          status, bits, validBits, codesize, avail, oldcode, first, st :=
            CodeTurn(s, cs, clear, len, bits, validBits, codesize, avail, oldcode, first, st, pen, data, pos, fed, whole, after, next);
          pos := next;
        }
      }
      RasterEnds(s, cs, status, len, bits, validBits, codesize, avail, oldcode, first, st, pen, data, pos, fed, whole, after);
      ok := status == Done;
    }

    /** Decodes the image data of a frame. Unless the minimum code size is out of range, the frame shows what
        the dictionary decoder draws, and after success the input is left behind the image data. */
    method ProcessRaster(s: Source) returns (ok: bool)
      requires Valid() && |codes| == MAX_CODES
      modifies s, this`codes, this`curX, this`curY, this`step, this`parse, this`cursor, out, history
      ensures Valid()
      ensures var input := old(s.Rest());
              var cs := Head(input) as nat;
              if cs > 12 then !ok && Drawn() == old(Drawn())
              else
                var r := DecodeData(cs, Data(Tail(input), 0));
                ok == r.Drawn? && Drawn() == PutAll(frame, old(Drawn()), r.out) &&
                (ok ==> s.Rest() == After(Tail(input), 0))
    {
      ghost var pen := Drawn();
      var lzwCs := s.Get8();
      if lzwCs > 12 {
        return false;
      }
      var cs := lzwCs as nat;
      InitCodes(cs);
      ShlOne(cs);
      ghost var data := Data(s.Rest(), 0);
      LoopStarts(cs, pen, data);
      ok := RasterLoop(s, cs, Shl(1, cs), pen, data, DecodeData(cs, data));
    }

    /** The frame of an image descriptor: it shows the pixel indices decoded, up to an error if there is one, in scan
        order; a minimum code size out of range changes nothing. */
    method LoadFrame(s: Source, x: nat, y: nat, w: nat, h: nat, width: nat, interlaced: bool, table: seq<byte>, ghost f: Frame)
      returns (ok: bool)
      requires ValidFrame(f) && f == Frame(width, f.height, x, y, w, h, interlaced, table) && out != history
      requires history.Length == Times(f.height, width) && out.Length == 4 * history.Length && |codes| == MAX_CODES
      modifies s, this, out, history
      ensures Valid() && frame == f && Fits(f, old(Drawn()).picture)
      ensures var input := old(s.Rest());
              var cs := Head(input) as nat;
              if cs > 12 then !ok && Drawn().picture == old(Drawn().picture)
              else
                var r := DecodeData(cs, Data(Tail(input), 0));
                ok == r.Drawn? && Drawn().picture == Canvas(f, old(Drawn().picture), r.out) &&
                ScreenShows(f, old(Drawn().picture), r.out, Drawn().picture) && (ok ==> s.Rest() == After(Tail(input), 0))
    {
      ghost var data, p := Data(Tail(s.Rest()), 0), Drawn().picture;
      ghost var cs := Head(s.Rest()) as nat;
      StartFrame(f, x, y, w, h, width, interlaced, table);
      ok := ProcessRaster(s);
      if cs <= 12 {
        PutAllIsCanvas(f, p, DecodeData(cs, data).out);
        CanvasShows(f, p, DecodeData(cs, data).out);
      }
    }
  }
}
