/** The order in which a GIF frame's pixels are visited, interlaced (Appendix E of GIF89a) or not, and
    the canvas after any number of pixels. */
module GifScan {
  import opened Bits
  import opened Multiples

  /** Column and row within the frame, the row step of the current pass, and the passes left. */
  datatype Cursor = Cursor(col: nat, row: nat, step: nat, parse: nat)

  /** The first row of the next pass. */
  function NextOf(c: Cursor): Cursor
    requires c.parse > 0
  {
    Cursor(c.col, Shl(1, c.parse) / 2, Shl(1, c.parse), c.parse - 1)
  }

  /** The cursor one step of its pass further down, in the first column. */
  function RowDown(c: Cursor): Cursor {
    Cursor(0, c.row + c.step, c.step, c.parse)
  }

  /** The loop that starts the next pass while the row is past the bottom. */
  function NextPass(c: Cursor, h: nat): Cursor
    decreases c.parse
  {
    if c.row >= h && c.parse > 0 then
      NextPass(NextOf(c), h)
    else c
  }

  function Advance(c: Cursor, w: nat, h: nat): Cursor {
    if c.row >= h then c
    else if c.col + 1 >= w then NextPass(RowDown(c), h)
    else c.(col := c.col + 1)
  }

  function First(w: nat, h: nat, interlaced: bool): Cursor {
    Cursor(0, if w == 0 then h else 0, if interlaced then 8 else 1, if interlaced then 3 else 0)
  }

  /** Where pixel k of the frame goes; a row past the bottom means nowhere. */
  function Visit(w: nat, h: nat, interlaced: bool, k: nat): Cursor {
    if k == 0 then First(w, h, interlaced) else Advance(Visit(w, h, interlaced, k - 1), w, h)
  }

  // ---- Every pixel once -------------------------------------------------------------------------------

  /** The passes: every row; or every 8th from 0, every 8th from 4, every 4th from 2, every 2nd from 1. */
  predicate InPass(c: Cursor) {
    match c.parse
    case 3 => c.step == 8 && c.row % 8 == 0
    case 2 => c.step == 8 && c.row % 8 == 4
    case 1 => c.step == 4 && c.row % 4 == 2
    case 0 => (c.step == 2 && c.row % 2 == 1) || c.step == 1
    case _ => false
  }

  /** Row q is still to come after the cursor's row. */
  predicate LaterRow(c: Cursor, q: nat) {
    match c.parse
    case 3 => q % 8 != 0 || q > c.row
    case 2 => q % 4 != 0 || (q % 8 == 4 && q > c.row)
    case 1 => q % 2 != 0 || (q % 4 == 2 && q > c.row)
    case _ => (c.step == 2 ==> q % 2 == 1) && q > c.row
  }

  /** Row q is the cursor's or is still to come. */
  predicate ComingRow(c: Cursor, q: nat) {
    q == c.row || LaterRow(c, q)
  }

  predicate Coming(c: Cursor, row: nat, col: nat) {
    (row == c.row && col >= c.col) || LaterRow(c, row)
  }

  lemma NextOfIs(c: Cursor)
    requires InPass(c) && c.parse > 0
    ensures NextOf(c) == Cursor(c.col, if c.parse == 3 then 4 else if c.parse == 2 then 2 else 1,
                                if c.parse == 3 then 8 else if c.parse == 2 then 4 else 2, c.parse - 1)
  {
  }

  lemma {:induction false} NextPassFits(c: Cursor, h: nat)
    requires InPass(c)
    ensures var d := NextPass(c, h);
            InPass(d) && d.col == c.col && (d.row >= h ==> d.parse == 0)
    decreases c.parse
  {
    if c.row >= h && c.parse > 0 {
      NextOfIs(c);
      NextPassFits(NextOf(c), h);
    }
  }

  /** Past the bottom, the rows to come are the next pass's, from its first. */
  lemma PassDown(c: Cursor, d: Cursor, q: nat)
    requires InPass(c) && c.row > q && c.parse > 0
    requires d == Cursor(c.col, if c.parse == 3 then 4 else if c.parse == 2 then 2 else 1,
                         if c.parse == 3 then 8 else if c.parse == 2 then 4 else 2, c.parse - 1)
    ensures InPass(d) && (ComingRow(d, q) <==> ComingRow(c, q))
  {
  }

  /** The next pass starts with exactly the rows that were still to come. */
  lemma {:induction false} NextPassKeepsRow(c: Cursor, h: nat, q: nat)
    requires InPass(c) && q < h
    ensures ComingRow(NextPass(c, h), q) <==> ComingRow(c, q)
    decreases c.parse
  {
    if c.row >= h && c.parse > 0 {
      NextOfIs(c);
      PassDown(c, NextOf(c), q);
      NextPassKeepsRow(NextOf(c), h, q);
    }
  }

  lemma Halves(q: nat)
    ensures q % 8 % 4 == q % 4 && q % 4 % 2 == q % 2
  {
    var k := q / 8;
    assert q == 8 * k + q % 8;
    assert q == 4 * (2 * k) + q % 8;
  }

  /** Rows of one pass are a whole number of steps apart. */
  lemma Apart8(q: nat, row: nat)
    requires q % 8 == row % 8
    ensures (q > row <==> q >= row + 8) && (row + 8) % 8 == row % 8
  {
  }

  lemma Apart4(q: nat, row: nat)
    requires q % 4 == row % 4
    ensures (q > row <==> q >= row + 4) && (row + 4) % 4 == row % 4
  {
  }

  lemma Apart2(q: nat, row: nat)
    requires q % 2 == row % 2
    ensures (q > row <==> q >= row + 2) && (row + 2) % 2 == row % 2
  {
  }

  /** The rows after the cursor's are its step further down and what comes after that. */
  lemma StepDown(c: Cursor, q: nat)
    requires InPass(c)
    ensures InPass(RowDown(c)) && (ComingRow(RowDown(c), q) <==> LaterRow(c, q))
  {
    var row := c.row;
    if c.parse == 3 || c.parse == 2 {
      Halves(row + 8);
      Apart8(row, row);
      if q % 8 == row % 8 {
        Apart8(q, row);
        Halves(q);
      }
    } else if c.parse == 1 {
      Apart4(row, row);
      Halves(row + 4);
      if q % 4 == row % 4 {
        Apart4(q, row);
        Halves(q);
      }
    } else if c.step == 2 {
      Apart2(row, row);
      if q % 2 == row % 2 {
        Apart2(q, row);
      }
    }
  }

  lemma AdvanceFits(c: Cursor, w: nat, h: nat)
    requires InPass(c) && c.row < h && c.col < w
    ensures var d := Advance(c, w, h);
            InPass(d) && d.col < w && (d.row >= h ==> d.parse == 0)
  {
    if c.col + 1 >= w {
      StepDown(c, c.row);
      NextPassFits(RowDown(c), h);
    }
  }

  lemma OwnRow(c: Cursor)
    requires InPass(c)
    ensures !LaterRow(c, c.row)
  {
    Halves(c.row);
  }

  lemma FirstColumn(c: Cursor, row: nat, col: nat)
    requires c.col == 0
    ensures Coming(c, row, col) <==> ComingRow(c, row)
  {
  }

  /** Moving on takes exactly the cursor's own pixel off the pixels to come. */
  lemma AdvanceTakesOne(c: Cursor, w: nat, h: nat, row: nat, col: nat)
    requires InPass(c) && c.row < h && c.col < w && row < h && col < w
    ensures Coming(Advance(c, w, h), row, col) <==> Coming(c, row, col) && (row, col) != (c.row, c.col)
  {
    OwnRow(c);
    if c.col + 1 >= w {
      StepDown(c, row);
      NextPassFits(RowDown(c), h);
      NextPassKeepsRow(RowDown(c), h, row);
      FirstColumn(NextPass(RowDown(c), h), row, col);
    }
  }

  lemma {:induction false} VisitInFrame(w: nat, h: nat, interlaced: bool, k: nat)
    requires w > 0
    ensures var c := Visit(w, h, interlaced, k);
            InPass(c) && c.col < w && (h > 0 && c.row >= h ==> c.parse == 0)
    decreases k
  {
    if k > 0 {
      VisitInFrame(w, h, interlaced, k - 1);
      var c := Visit(w, h, interlaced, k - 1);
      if c.row < h {
        AdvanceFits(c, w, h);
      }
    }
  }

  lemma {:induction false} VisitedIsGone(w: nat, h: nat, interlaced: bool, j: nat, k: nat)
    requires j < k && Visit(w, h, interlaced, j).row < h
    ensures var c := Visit(w, h, interlaced, j);
            c.col < w && !Coming(Visit(w, h, interlaced, k), c.row, c.col)
    decreases k
  {
    var d := Visit(w, h, interlaced, k - 1);
    VisitRowPositive(w, h, interlaced, j);
    VisitInFrame(w, h, interlaced, j);
    VisitInFrame(w, h, interlaced, k - 1);
    if j < k - 1 {
      VisitedIsGone(w, h, interlaced, j, k - 1);
    }
    if d.row < h {
      var c := Visit(w, h, interlaced, j);
      AdvanceTakesOne(d, w, h, c.row, c.col);
    }
  }

  lemma {:induction false} VisitRowPositive(w: nat, h: nat, interlaced: bool, j: nat)
    requires Visit(w, h, interlaced, j).row < h
    ensures w > 0
    decreases j
  {
    if j > 0 && Visit(w, h, interlaced, j - 1).row < h {
      VisitRowPositive(w, h, interlaced, j - 1);
    }
  }

  /** No pixel is visited twice. */
  lemma VisitsDistinct(w: nat, h: nat, interlaced: bool, j: nat, k: nat)
    requires j < k && Visit(w, h, interlaced, k).row < h
    ensures var c, d := Visit(w, h, interlaced, j), Visit(w, h, interlaced, k);
            c.row < h && (c.row, c.col) != (d.row, d.col)
  {
    VisitRowsBefore(w, h, interlaced, j, k);
    VisitedIsGone(w, h, interlaced, j, k);
  }

  lemma {:induction false} VisitRowsBefore(w: nat, h: nat, interlaced: bool, j: nat, k: nat)
    requires j <= k && Visit(w, h, interlaced, k).row < h
    ensures Visit(w, h, interlaced, j).row < h
    decreases k
  {
    if j < k {
      VisitRowsBefore(w, h, interlaced, j, k - 1);
    }
  }

  /** Every pixel of the frame is visited. */
  lemma EveryPixelVisited(w: nat, h: nat, interlaced: bool, row: nat, col: nat) returns (k: nat)
    requires row < h && col < w
    ensures Visit(w, h, interlaced, k).row == row && Visit(w, h, interlaced, k).col == col
  {
    k := VisitFrom(w, h, interlaced, 0, row, col);
  }

  lemma {:induction false} VisitFrom(w: nat, h: nat, interlaced: bool, j: nat, row: nat, col: nat) returns (k: nat)
    requires row < h && col < w && Coming(Visit(w, h, interlaced, j), row, col)
    ensures Visit(w, h, interlaced, k).row == row && Visit(w, h, interlaced, k).col == col
    decreases Visit(w, h, interlaced, j).parse, h - Visit(w, h, interlaced, j).row, w - Visit(w, h, interlaced, j).col
  {
    var c := Visit(w, h, interlaced, j);
    VisitInFrame(w, h, interlaced, j);
    if c.row == row && c.col == col {
      return j;
    }
    AdvanceFits(c, w, h);
    AdvanceTakesOne(c, w, h, row, col);
    NextPassForward(RowDown(c), h);
    k := VisitFrom(w, h, interlaced, j + 1, row, col);
  }

  lemma {:induction false} NextPassForward(c: Cursor, h: nat)
    ensures var d := NextPass(c, h);
            d.parse < c.parse || d == c
    decreases c.parse
  {
    if c.row >= h && c.parse > 0 {
      NextPassForward(NextOf(c), h);
    }
  }

  // ---- The canvas -----------------------------------------------------------------------------------

  /** A frame on a screen, and the colour table its pixel indices refer to. */
  datatype Frame = Frame(width: nat, height: nat, x: nat, y: nat, w: nat, h: nat, interlaced: bool, table: seq<byte>)

  /** Four bytes a pixel, and whether the frame has touched it. */
  datatype Picture = Picture(out: seq<byte>, history: seq<byte>)

  predicate ValidFrame(f: Frame) {
    f.x + f.w <= f.width && f.y + f.h <= f.height && |f.table| == 1024
  }

  predicate Fits(f: Frame, p: Picture) {
    |p.history| == Times(f.height, f.width) && |p.out| == 4 * |p.history|
  }

  function PixelAt(f: Frame, row: nat, col: nat): nat {
    Times(f.y + row, f.width) + f.x + col
  }

  lemma PixelInside(f: Frame, row: nat, col: nat)
    requires ValidFrame(f) && row < f.h && col < f.w
    ensures PixelAt(f, row, col) < Times(f.height, f.width)
  {
    TimesMono(f.y + row, f.height, f.width);
  }

  lemma PixelsDiffer(f: Frame, row: nat, col: nat, row': nat, col': nat)
    requires ValidFrame(f) && col < f.w && col' < f.w && (row, col) != (row', col')
    ensures PixelAt(f, row, col) != PixelAt(f, row', col')
  {
    if row < row' {
      TimesMono(f.y + row, f.y + row', f.width);
    } else if row' < row {
      TimesMono(f.y + row', f.y + row, f.width);
    }
  }

  /** Writes one pixel, unless its colour is transparent. The colour table is in the order B, G, R, A. */
  function Paint(f: Frame, p: Picture, i: nat, index: byte): Picture
    requires ValidFrame(f) && Fits(f, p) && i < |p.history|
  {
    var c := 4 * index as nat;
    var t := f.table;
    var out := if t[c + 3] > 128
               then p.out[4 * i := t[c + 2]][4 * i + 1 := t[c + 1]][4 * i + 2 := t[c]][4 * i + 3 := t[c + 3]]
               else p.out;
    Picture(out, p.history[i := 1])
  }

  /** The pixel that index k of the frame goes to, or -1 past the end of the frame. */
  function Target(f: Frame, k: nat): (i: int)
    requires ValidFrame(f)
    ensures -1 <= i && (i >= 0 ==> i < Times(f.height, f.width))
  {
    var c := Visit(f.w, f.h, f.interlaced, k);
    if c.row >= f.h then -1
    else
      VisitRowPositive(f.w, f.h, f.interlaced, k);
      VisitInFrame(f.w, f.h, f.interlaced, k);
      PixelInside(f, c.row, c.col);
      PixelAt(f, c.row, c.col)
  }

  /** The picture after the pixels s; those past the end of the frame are dropped. */
  function Canvas(f: Frame, p: Picture, s: seq<byte>): (r: Picture)
    requires ValidFrame(f) && Fits(f, p)
    ensures Fits(f, r)
  {
    if s == [] then p
    else
      var k := |s| - 1;
      var before := Canvas(f, p, s[..k]);
      if Target(f, k) < 0 then before else Paint(f, before, Target(f, k), s[k])
  }

  /** Distinct pixel indices go to distinct pixels. */
  lemma TargetsDistinct(f: Frame, j: nat, k: nat)
    requires ValidFrame(f) && j < k && Target(f, k) >= 0
    ensures 0 <= Target(f, j) != Target(f, k)
  {
    var c, d := Visit(f.w, f.h, f.interlaced, j), Visit(f.w, f.h, f.interlaced, k);
    VisitsDistinct(f.w, f.h, f.interlaced, j, k);
    VisitRowPositive(f.w, f.h, f.interlaced, k);
    VisitInFrame(f.w, f.h, f.interlaced, j);
    VisitInFrame(f.w, f.h, f.interlaced, k);
    PixelsDiffer(f, c.row, c.col, d.row, d.col);
  }

  /** Every pixel of the frame is the target of some index. */
  lemma TargetsCover(f: Frame, row: nat, col: nat) returns (k: nat)
    requires ValidFrame(f) && row < f.h && col < f.w
    ensures Target(f, k) == PixelAt(f, row, col)
  {
    k := EveryPixelVisited(f.w, f.h, f.interlaced, row, col);
  }

  datatype Colour = Colour(r: byte, g: byte, b: byte, a: byte)

  function ColourAt(f: Frame, p: Picture, i: nat): Colour
    requires Fits(f, p) && i < |p.history|
  {
    Colour(p.out[4 * i], p.out[4 * i + 1], p.out[4 * i + 2], p.out[4 * i + 3])
  }

  function TableColour(f: Frame, index: byte): Colour
    requires ValidFrame(f)
  {
    var c := 4 * index as nat;
    Colour(f.table[c + 2], f.table[c + 1], f.table[c], f.table[c + 3])
  }

  /** Pixel i of the picture has the colour of an index, or keeps what it had if that is transparent. */
  predicate Shows(f: Frame, p: Picture, p0: Picture, i: nat, index: byte)
    requires ValidFrame(f) && Fits(f, p) && Fits(f, p0) && i < |p.history|
  {
    p.history[i] == 1 &&
    ColourAt(f, p, i) == if TableColour(f, index).a > 128 then TableColour(f, index) else ColourAt(f, p0, i)
  }

  predicate Same(f: Frame, p: Picture, p0: Picture, i: nat)
    requires Fits(f, p) && Fits(f, p0) && i < |p.history|
  {
    p.history[i] == p0.history[i] && ColourAt(f, p, i) == ColourAt(f, p0, i)
  }

  lemma PaintAt(f: Frame, p: Picture, i: nat, index: byte, j: nat)
    requires ValidFrame(f) && Fits(f, p) && i < |p.history| && j < |p.history|
    ensures i == j ==> Shows(f, Paint(f, p, i, index), p, i, index)
    ensures i != j ==> Same(f, Paint(f, p, i, index), p, j)
  {
  }

  /** What the last index does to pixel j. */
  lemma CanvasLast(f: Frame, p: Picture, s: seq<byte>, j: nat)
    requires ValidFrame(f) && Fits(f, p) && s != [] && j < |p.history|
    ensures var n := |s| - 1;
            if Target(f, n) == j then Shows(f, Canvas(f, p, s), Canvas(f, p, s[..n]), j, s[n])
            else Same(f, Canvas(f, p, s), Canvas(f, p, s[..n]), j)
  {
    var n := |s| - 1;
    if Target(f, n) >= 0 {
      PaintAt(f, Canvas(f, p, s[..n]), Target(f, n), s[n], j);
    }
  }

  /** Pixels that no index went to are as before. */
  lemma {:induction false} UnvisitedPixel(f: Frame, p: Picture, s: seq<byte>, i: nat)
    requires ValidFrame(f) && Fits(f, p) && i < |p.history|
    requires forall k | 0 <= k < |s| :: Target(f, k) != i
    ensures Same(f, Canvas(f, p, s), p, i)
    decreases |s|
  {
    if s != [] {
      UnvisitedPixel(f, p, s[..|s| - 1], i);
      CanvasLast(f, p, s, i);
    }
  }

  /** Index k shows at the k-th pixel of the scan, whatever comes after it. */
  lemma {:induction false} VisitedPixel(f: Frame, p: Picture, s: seq<byte>, k: nat)
    requires ValidFrame(f) && Fits(f, p) && k < |s| && Target(f, k) >= 0
    ensures Shows(f, Canvas(f, p, s), p, Target(f, k), s[k])
    decreases |s|
  {
    var n := |s| - 1;
    var i := Target(f, k);
    if k == n {
      forall j | 0 <= j < n ensures Target(f, j) != i {
        TargetsDistinct(f, j, k);
      }
      UnvisitedPixel(f, p, s[..n], i);
    } else {
      VisitedPixel(f, p, s[..n], k);
      if Target(f, n) >= 0 {
        TargetsDistinct(f, k, n);
      }
    }
    CanvasLast(f, p, s, i);
  }

  // ---- One pixel index at a time ---------------------------------------------------------------------

  /** The cursor and the picture. */
  datatype Pen = Pen(cursor: Cursor, picture: Picture)

  predicate ValidPen(f: Frame, pen: Pen) {
    ValidFrame(f) && Fits(f, pen.picture) && (pen.cursor.row < f.h ==> pen.cursor.col < f.w)
  }

  function Put(f: Frame, pen: Pen, index: byte): (r: Pen)
    requires ValidPen(f, pen)
    ensures ValidPen(f, r)
  {
    var c := pen.cursor;
    if c.row >= f.h then pen
    else
      PixelInside(f, c.row, c.col);
      NextPassColumn(Cursor(0, c.row + c.step, c.step, c.parse), f.h);
      Pen(Advance(c, f.w, f.h), Paint(f, pen.picture, PixelAt(f, c.row, c.col), index))
  }

  lemma {:induction false} NextPassColumn(c: Cursor, h: nat)
    ensures NextPass(c, h).col == c.col
    decreases c.parse
  {
    if c.row >= h && c.parse > 0 {
      NextPassColumn(Cursor(c.col, Shl(1, c.parse) / 2, Shl(1, c.parse), c.parse - 1), h);
    }
  }

  function PutAll(f: Frame, pen: Pen, s: seq<byte>): (r: Pen)
    requires ValidPen(f, pen)
    ensures ValidPen(f, r)
  {
    if s == [] then pen else Put(f, PutAll(f, pen, s[..|s| - 1]), s[|s| - 1])
  }

  lemma PutLast(f: Frame, pen: Pen, s: seq<byte>, index: byte)
    requires ValidPen(f, pen)
    ensures PutAll(f, pen, s + [index]) == Put(f, PutAll(f, pen, s), index)
  {
    assert (s + [index])[..|s|] == s;
  }

  lemma {:induction false} PutAllConcat(f: Frame, pen: Pen, s: seq<byte>, t: seq<byte>)
    requires ValidPen(f, pen)
    ensures PutAll(f, pen, s + t) == PutAll(f, PutAll(f, pen, s), t)
    decreases |t|
  {
    if t == [] {
      assert s + t == s;
    } else {
      var n := |t| - 1;
      PutAllConcat(f, pen, s, t[..n]);
      PutLast(f, pen, s + t[..n], t[n]);
      assert s + t == s + t[..n] + [t[n]];
      PutLast(f, PutAll(f, pen, s), t[..n], t[n]);
      assert t == t[..n] + [t[n]];
    }
  }

  /** Putting pixel indices one after the other draws the canvas. */
  lemma {:induction false} PutAllIsCanvas(f: Frame, p: Picture, s: seq<byte>)
    requires ValidFrame(f) && Fits(f, p)
    ensures var c := First(f.w, f.h, f.interlaced);
            ValidPen(f, Pen(c, p)) &&
            PutAll(f, Pen(c, p), s) == Pen(Visit(f.w, f.h, f.interlaced, |s|), Canvas(f, p, s))
    decreases |s|
  {
    if s != [] {
      PutAllIsCanvas(f, p, s[..|s| - 1]);
    }
  }
}
