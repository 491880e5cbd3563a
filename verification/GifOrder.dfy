/** In which order the rows of a frame are drawn, and so what each pixel of the screen shows, by rows and columns:
    from top to bottom, or in the four passes of Appendix E of GIF89a. */
module GifOrder {
  import opened Bits
  import opened GifScan
  import opened Multiples

  // ---- The order of the rows ----------------------------------------------------------------------------

  /** The passes of an interlaced frame: every 8th row from row 0, from row 4, every 4th from row 2, and the odd ones. */
  function PassOfRow(row: nat): (p: nat)
    ensures p < 4
  {
    if row % 8 == 0 then 0 else if row % 8 == 4 then 1 else if row % 4 == 2 then 2 else 3
  }

  /** How many rows are drawn before those of a pass: the multiples of 8, of 4 and of 2. */
  function PassStart(h: nat, p: nat): nat {
    if p == 0 then 0 else if p == 1 then (h + 7) / 8 else if p == 2 then (h + 3) / 4 else if p == 3 then (h + 1) / 2 else h
  }

  /** How many rows are drawn before this one. */
  function RowRank(h: nat, interlaced: bool, row: nat): nat {
    if !interlaced then row
    else
      match PassOfRow(row)
      case 0 => row / 8
      case 1 => PassStart(h, 1) + row / 8
      case 2 => PassStart(h, 2) + row / 4
      case _ => PassStart(h, 3) + row / 2
  }

  lemma FirstPass(h: nat, row: nat)
    requires row < h && row % 8 == 0
    ensures row / 8 < (h + 7) / 8
  {
  }

  lemma SecondPass(h: nat, row: nat)
    requires row < h && row % 8 == 4
    ensures (h + 7) / 8 + row / 8 < (h + 3) / 4
  {
  }

  lemma ThirdPass(h: nat, row: nat)
    requires row < h && row % 4 == 2
    ensures (h + 3) / 4 + row / 4 < (h + 1) / 2
  {
    var m, k := h / 4, row / 4;
    assert h == 4 * m + h % 4 && row == 4 * k + 2;
    assert k < m || (k == m && h % 4 == 3);
    assert (h + 3) / 4 == m + if h % 4 == 0 then 0 else 1;
    assert (h + 1) / 2 == 2 * m + (h % 4 + 1) / 2;
  }

  lemma FourthPass(h: nat, row: nat)
    requires row < h && row % 2 == 1
    ensures (h + 1) / 2 + row / 2 < h
  {
  }

  lemma OddRow(row: nat)
    ensures PassOfRow(row) == 3 <==> row % 2 == 1
  {
    Halves(row);
  }

  /** A pass's rows have the ranks of the pass. */
  lemma RankInPass(h: nat, row: nat)
    requires row < h
    ensures PassStart(h, PassOfRow(row)) <= RowRank(h, true, row) < PassStart(h, PassOfRow(row) + 1)
  {
    OddRow(row);
    match PassOfRow(row) {
      case 0 => FirstPass(h, row);
      case 1 => SecondPass(h, row);
      case 2 => ThirdPass(h, row);
      case _ => FourthPass(h, row);
    }
  }

  lemma PassesFollow(h: nat, p: nat, q: nat)
    requires p <= q <= 4
    ensures PassStart(h, p) <= PassStart(h, q) <= h
  {
  }

  lemma InOnePass(q: nat, r: nat, step: nat)
    requires (step == 8 || step == 4 || step == 2) && q % step == r % step
    ensures q / step < r / step <==> q < r
  {
    match step {
      case 8 =>
      case 4 =>
      case _ =>
    }
  }

  /** Rows of an earlier pass come before those of a later one, and within a pass from top to bottom. */
  lemma RankOrders(h: nat, q: nat, r: nat)
    requires q < h && r < h
    ensures RowRank(h, true, q) < RowRank(h, true, r) <==>
            PassOfRow(q) < PassOfRow(r) || (PassOfRow(q) == PassOfRow(r) && q < r)
  {
    var i, j := PassOfRow(q), PassOfRow(r);
    RankInPass(h, q);
    RankInPass(h, r);
    if i < j {
      PassesFollow(h, i + 1, j);
    } else if j < i {
      PassesFollow(h, j + 1, i);
    } else {
      OddRow(q);
      OddRow(r);
      InOnePass(q, r, if i < 2 then 8 else if i == 2 then 4 else 2);
    }
  }

  // ---- The cursor follows it ------------------------------------------------------------------------------

  /** The pass of an interlaced frame that the cursor is in. */
  function CursorPass(c: Cursor): (p: nat)
    ensures p < 4
  {
    if c.parse > 3 then 0 else 3 - c.parse
  }

  /** The rows drawn before the cursor's, also when it is past the bottom. */
  function CursorRank(c: Cursor, h: nat): nat {
    if c.step == 1 then c.row
    else if CursorPass(c) < 2 then PassStart(h, CursorPass(c)) + c.row / 8
    else if CursorPass(c) == 2 then PassStart(h, 2) + c.row / 4
    else PassStart(h, 3) + c.row / 2
  }

  /** The cursor is in a pass of the frame, and less than a step past the bottom. */
  predicate OnPass(c: Cursor, h: nat, interlaced: bool) {
    InPass(c) && (c.step == 1 <==> !interlaced) && c.row < h + c.step
  }

  lemma PassIs(c: Cursor, h: nat)
    requires OnPass(c, h, true)
    ensures PassOfRow(c.row) == CursorPass(c)
  {
    OddRow(c.row);
    Halves(c.row);
  }

  lemma RankIs(c: Cursor, h: nat, interlaced: bool)
    requires OnPass(c, h, interlaced)
    ensures CursorRank(c, h) == RowRank(h, interlaced, c.row)
  {
    if interlaced {
      PassIs(c, h);
    }
  }

  lemma DownOne(c: Cursor, h: nat, interlaced: bool)
    requires OnPass(c, h, interlaced) && c.row < h
    ensures OnPass(RowDown(c), h, interlaced) && CursorRank(RowDown(c), h) == CursorRank(c, h) + 1
  {
    match c.step {
      case 8 => assert (c.row + 8) / 8 == c.row / 8 + 1;
      case 4 => assert (c.row + 4) / 4 == c.row / 4 + 1;
      case 2 => assert (c.row + 2) / 2 == c.row / 2 + 1;
      case _ =>
    }
  }

  /** Just past the bottom, the passes so far are done. */
  lemma PastBottom(h: nat, row: nat)
    ensures row % 8 == 0 && h <= row < h + 8 ==> row / 8 == (h + 7) / 8
    ensures row % 8 == 4 && h <= row < h + 8 ==> (h + 7) / 8 + row / 8 == (h + 3) / 4
    ensures row % 4 == 2 && h <= row < h + 4 ==> (h + 3) / 4 + row / 4 == (h + 1) / 2
  {
    PastFirst(h, row);
    PastSecond(h, row);
    PastThird(h, row);
  }

  lemma PastFirst(h: nat, row: nat)
    ensures row % 8 == 0 && h <= row < h + 8 ==> row / 8 == (h + 7) / 8
  {
  }

  lemma PastSecond(h: nat, row: nat)
    ensures row % 8 == 4 && h <= row < h + 8 ==> (h + 7) / 8 + row / 8 == (h + 3) / 4
  {
  }

  lemma PastThird(h: nat, row: nat)
    ensures row % 4 == 2 && h <= row < h + 4 ==> (h + 3) / 4 + row / 4 == (h + 1) / 2
  {
  }

  lemma NextOfRank(c: Cursor, h: nat, interlaced: bool)
    requires OnPass(c, h, interlaced) && c.row >= h && c.parse > 0
    ensures OnPass(NextOf(c), h, interlaced) && CursorRank(NextOf(c), h) == CursorRank(c, h)
  {
    NextOfIs(c);
    PastBottom(h, c.row);
  }

  /** Starting the next pass that has rows passes none by. */
  lemma {:induction false} NextPassRank(c: Cursor, h: nat, interlaced: bool)
    requires OnPass(c, h, interlaced)
    ensures OnPass(NextPass(c, h), h, interlaced) && CursorRank(NextPass(c, h), h) == CursorRank(c, h)
    decreases c.parse
  {
    if c.row >= h && c.parse > 0 {
      NextOfRank(c, h, interlaced);
      NextPassRank(NextOf(c), h, interlaced);
    }
  }

  /** At the end of a row the cursor goes to the row drawn next. */
  lemma NextRowRank(c: Cursor, w: nat, h: nat, interlaced: bool)
    requires OnPass(c, h, interlaced) && c.row < h && c.col < w && c.col + 1 >= w
    ensures var d := Advance(c, w, h);
            OnPass(d, h, interlaced) && d.col == 0 && RowRank(h, interlaced, d.row) == RowRank(h, interlaced, c.row) + 1
  {
    RankIs(c, h, interlaced);
    DownOne(c, h, interlaced);
    NextPassRank(RowDown(c), h, interlaced);
    RankIs(NextPass(RowDown(c), h), h, interlaced);
    NextPassColumn(RowDown(c), h);
  }

  lemma NextRow(r: nat, w: nat)
    ensures (r + 1) * w == r * w + w
  {
  }

  /** The cursor is in its pass, at the pixel with k before it. */
  ghost predicate Stand(c: Cursor, w: nat, h: nat, interlaced: bool, k: nat) {
    OnPass(c, h, interlaced) && c.col < w && k == RowRank(h, interlaced, c.row) * w + c.col
  }

  lemma StandNext(c: Cursor, w: nat, h: nat, interlaced: bool, k: nat)
    requires Stand(c, w, h, interlaced, k) && c.row < h
    ensures Stand(Advance(c, w, h), w, h, interlaced, k + 1)
  {
    if c.col + 1 >= w {
      NextRowRank(c, w, h, interlaced);
      NextRow(RowRank(h, interlaced, c.row), w);
    }
  }

  lemma FirstStands(w: nat, h: nat, interlaced: bool)
    requires w > 0 && h > 0
    ensures Stand(First(w, h, interlaced), w, h, interlaced, 0)
  {
  }

  /** So many pixels are drawn before the cursor's. */
  lemma {:induction false} VisitRank(w: nat, h: nat, interlaced: bool, k: nat)
    requires Visit(w, h, interlaced, k).row < h
    ensures Stand(Visit(w, h, interlaced, k), w, h, interlaced, k)
    decreases k
  {
    VisitRowPositive(w, h, interlaced, k);
    if k == 0 {
      FirstStands(w, h, interlaced);
    } else {
      VisitRank(w, h, interlaced, k - 1);
      StandNext(Visit(w, h, interlaced, k - 1), w, h, interlaced, k - 1);
    }
  }

  /** The pixel of a row and column is drawn after those of the rows before it and those left of it. */
  lemma VisitedInOrder(w: nat, h: nat, interlaced: bool, row: nat, col: nat)
    requires row < h && col < w
    ensures var c := Visit(w, h, interlaced, RowRank(h, interlaced, row) * w + col);
            c.row == row && c.col == col
  {
    var k := EveryPixelVisited(w, h, interlaced, row, col);
    VisitRank(w, h, interlaced, k);
  }

  /** Without interlacing, row by row. */
  lemma InPlainOrder(w: nat, h: nat, k: nat)
    requires w > 0 && k < h * w
    ensures Visit(w, h, false, k).row == k / w && Visit(w, h, false, k).col == k % w
  {
    var row, col := k / w, k % w;
    assert k == row * w + col;
    if row >= h {
      MulMono(h, row, w);
    }
    VisitedInOrder(w, h, false, row, col);
  }

  lemma RankBelow(h: nat, interlaced: bool, row: nat)
    requires row < h
    ensures RowRank(h, interlaced, row) < h
  {
    if interlaced {
      RankInPass(h, row);
      PassesFollow(h, PassOfRow(row) + 1, 4);
    }
  }

  lemma RowsBefore(r: nat, h: nat, w: nat)
    requires r < h
    ensures r * w + w <= h * w
  {
    assert h * w == (r + 1) * w + (h - (r + 1)) * w;
  }

  /** After all of them, nowhere. */
  lemma VisitedAll(w: nat, h: nat, interlaced: bool, k: nat)
    requires k >= h * w
    ensures Visit(w, h, interlaced, k).row >= h
  {
    var c := Visit(w, h, interlaced, k);
    if c.row < h {
      VisitRank(w, h, interlaced, k);
      RankBelow(h, interlaced, c.row);
      RowsBefore(RowRank(h, interlaced, c.row), h, w);
    }
  }

  // ---- What the screen shows ----------------------------------------------------------------------------

  /** The four bytes of pixel i are these. */
  predicate PixelIs(p: Picture, i: nat, r: byte, g: byte, b: byte, a: byte) {
    4 * i + 3 < |p.out| && p.out[4 * i] == r && p.out[4 * i + 1] == g && p.out[4 * i + 2] == b && p.out[4 * i + 3] == a
  }

  /** The pixel is as before. */
  predicate PixelKept(p0: Picture, p: Picture, i: nat) {
    i < |p.history| == |p0.history| && 4 * i + 3 < |p0.out| && p.history[i] == p0.history[i] &&
    PixelIs(p, i, p0.out[4 * i], p0.out[4 * i + 1], p0.out[4 * i + 2], p0.out[4 * i + 3])
  }

  /** Pixel i shows an index: its colour, from a table in the order B, G, R, A, unless that is transparent. */
  predicate PixelShows(table: seq<byte>, p0: Picture, p: Picture, i: nat, index: byte)
    requires |table| == 1024
  {
    var c := 4 * index as nat;
    i < |p.history| && p.history[i] == 1 && 4 * i + 3 < |p0.out| &&
    if table[c + 3] > 128 then PixelIs(p, i, table[c + 2], table[c + 1], table[c], table[c + 3])
    else PixelIs(p, i, p0.out[4 * i], p0.out[4 * i + 1], p0.out[4 * i + 2], p0.out[4 * i + 3])
  }

  /** The place of the frame's row and column on the screen, row by row. */
  function PlaceOf(f: Frame, row: nat, col: nat): nat {
    (f.y + row) * f.width + f.x + col
  }

  /** How many pixels are drawn before it. */
  function Nth(f: Frame, row: nat, col: nat): nat {
    RowRank(f.h, f.interlaced, row) * f.w + col
  }

  /** Pixel i shows index k if there are that many, and is else as before. */
  predicate ShowsNth(table: seq<byte>, p0: Picture, s: seq<byte>, p: Picture, i: nat, k: nat)
    requires |table| == 1024
  {
    if k < |s| then PixelShows(table, p0, p, i, s[k]) else PixelKept(p0, p, i)
  }

  /** The pixel of the frame's row and column. */
  predicate InFrame(f: Frame, p0: Picture, s: seq<byte>, p: Picture, row: nat, col: nat)
    requires |f.table| == 1024
  {
    ShowsNth(f.table, p0, s, p, PlaceOf(f, row, col), Nth(f, row, col))
  }

  /** The pixel of the screen's row and column is as before if it lies outside the frame. */
  predicate OutOfFrame(f: Frame, p0: Picture, p: Picture, row: nat, col: nat) {
    (f.y <= row < f.y + f.h && f.x <= col < f.x + f.w) || PixelKept(p0, p, row * f.width + col)
  }

  /** The screen after the pixel indices s. */
  ghost predicate ScreenShows(f: Frame, p0: Picture, s: seq<byte>, p: Picture)
    requires |f.table| == 1024
  {
    (forall row: nat, col: nat | row < f.h && col < f.w :: InFrame(f, p0, s, p, row, col)) &&
    forall row: nat, col: nat | row < f.height && col < f.width :: OutOfFrame(f, p0, p, row, col)
  }

  lemma PlaceIs(f: Frame, row: nat, col: nat, i: nat, k: nat)
    requires ValidFrame(f) && row < f.h && col < f.w && i == PlaceOf(f, row, col) && k == Nth(f, row, col)
    ensures i < Times(f.height, f.width) && Target(f, k) == i
  {
    TimesIs(f.y + row, f.width);
    PixelInside(f, row, col);
    VisitedInOrder(f.w, f.h, f.interlaced, row, col);
  }

  lemma ShowsIs(f: Frame, p0: Picture, p: Picture, i: nat, index: byte)
    requires ValidFrame(f) && Fits(f, p0) && Fits(f, p) && i < |p.history| && Shows(f, p, p0, i, index)
    ensures PixelShows(f.table, p0, p, i, index)
  {
  }

  lemma SameIs(f: Frame, p0: Picture, p: Picture, i: nat)
    requires Fits(f, p0) && Fits(f, p) && i < |p.history| && Same(f, p, p0, i)
    ensures PixelKept(p0, p, i)
  {
  }

  /** The k-th target shows index k, or is as before. */
  lemma TargetShows(f: Frame, p0: Picture, s: seq<byte>, p: Picture, k: nat, i: nat)
    requires ValidFrame(f) && Fits(f, p0) && p == Canvas(f, p0, s) && Target(f, k) == i
    ensures ShowsNth(f.table, p0, s, p, i, k)
  {
    if k < |s| {
      VisitedPixel(f, p0, s, k);
      ShowsIs(f, p0, p, i, s[k]);
    } else {
      forall j | 0 <= j < |s| ensures Target(f, j) != i {
        TargetsDistinct(f, j, k);
      }
      UnvisitedPixel(f, p0, s, i);
      SameIs(f, p0, p, i);
    }
  }

  lemma FrameShows(f: Frame, p0: Picture, s: seq<byte>, p: Picture, row: nat, col: nat)
    requires ValidFrame(f) && Fits(f, p0) && p == Canvas(f, p0, s) && row < f.h && col < f.w
    ensures InFrame(f, p0, s, p, row, col)
  {
    var i, k := PlaceOf(f, row, col), Nth(f, row, col);
    PlaceIs(f, row, col, i, k);
    TargetShows(f, p0, s, p, k, i);
  }

  /** Rows and columns of one place are the same. */
  lemma OnePlace(width: nat, row: nat, col: nat, row': nat, col': nat)
    requires col < width && col' < width && Times(row, width) + col == Times(row', width) + col'
    ensures row == row' && col == col'
  {
    if row < row' {
      TimesMono(row, row', width);
    } else if row > row' {
      TimesMono(row', row, width);
    }
  }

  /** Targets lie in the frame. */
  lemma TargetInside(f: Frame, k: nat, row: nat, col: nat)
    requires ValidFrame(f) && col < f.width && Target(f, k) == Times(row, f.width) + col
    ensures f.y <= row < f.y + f.h && f.x <= col < f.x + f.w
  {
    var c := Visit(f.w, f.h, f.interlaced, k);
    VisitRowPositive(f.w, f.h, f.interlaced, k);
    VisitInFrame(f.w, f.h, f.interlaced, k);
    OnePlace(f.width, row, col, f.y + c.row, f.x + c.col);
  }

  lemma OutsideKept(f: Frame, p0: Picture, s: seq<byte>, p: Picture, row: nat, col: nat, i: nat)
    requires ValidFrame(f) && Fits(f, p0) && p == Canvas(f, p0, s) && row < f.height && col < f.width
    requires i == Times(row, f.width) + col && !(f.y <= row < f.y + f.h && f.x <= col < f.x + f.w)
    ensures PixelKept(p0, p, i)
  {
    TimesMono(row, f.height, f.width);
    forall j | 0 <= j < |s| ensures Target(f, j) != i {
      if Target(f, j) == i {
        TargetInside(f, j, row, col);
      }
    }
    UnvisitedPixel(f, p0, s, i);
    SameIs(f, p0, p, i);
  }

  lemma ScreenKept(f: Frame, p0: Picture, s: seq<byte>, p: Picture, row: nat, col: nat)
    requires ValidFrame(f) && Fits(f, p0) && p == Canvas(f, p0, s) && row < f.height && col < f.width
    ensures OutOfFrame(f, p0, p, row, col)
  {
    if !(f.y <= row < f.y + f.h && f.x <= col < f.x + f.w) {
      TimesIs(row, f.width);
      OutsideKept(f, p0, s, p, row, col, row * f.width + col);
    }
  }

  /** So the canvas is what the screen shows. */
  lemma CanvasShows(f: Frame, p0: Picture, s: seq<byte>)
    requires ValidFrame(f) && Fits(f, p0)
    ensures ScreenShows(f, p0, s, Canvas(f, p0, s))
  {
    forall row: nat, col: nat | row < f.h && col < f.w ensures InFrame(f, p0, s, Canvas(f, p0, s), row, col) {
      FrameShows(f, p0, s, Canvas(f, p0, s), row, col);
    }
    forall row: nat, col: nat | row < f.height && col < f.width ensures OutOfFrame(f, p0, Canvas(f, p0, s), row, col) {
      ScreenKept(f, p0, s, Canvas(f, p0, s), row, col);
    }
  }
}
