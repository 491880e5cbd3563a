/** Adam7 interlacing, section 2.6 of RFC 2083: seven passes over the pixels of an image. */
module Adam7 {
  const MAX_DIMENSION: nat := 0x100_0000

  function XOrigin(p: nat): nat {
    match p
    case 1 => 4
    case 3 => 2
    case 5 => 1
    case _ => 0
  }

  function YOrigin(p: nat): nat {
    match p
    case 2 => 4
    case 4 => 2
    case 6 => 1
    case _ => 0
  }

  function XSpacing(p: nat): (s: nat)
    ensures IsSpacing(s)
  {
    match p
    case 0 => 8
    case 1 => 8
    case 2 => 4
    case 3 => 4
    case 4 => 2
    case 5 => 2
    case _ => 1
  }

  function YSpacing(p: nat): (s: nat)
    ensures IsSpacing(s)
  {
    match p
    case 0 => 8
    case 1 => 8
    case 2 => 8
    case 3 => 4
    case 4 => 4
    case 5 => 2
    case _ => 2
  }

  /** i * s and v / s for the spacings of the passes. */
  function Spaced(i: nat, s: nat): nat {
    if s == 8 then 8 * i else if s == 4 then 4 * i else if s == 2 then 2 * i else i
  }

  function Divided(v: nat, s: nat): nat {
    if s == 8 then v / 8 else if s == 4 then v / 4 else if s == 2 then v / 2 else v
  }

  predicate IsSpacing(s: nat) {
    s == 1 || s == 2 || s == 4 || s == 8
  }

  lemma SpacedIs(i: nat, s: nat)
    requires IsSpacing(s)
    ensures Spaced(i, s) == i * s && Divided(i, s) == i / s
  {
  }

  /** The size of a pass in one direction, in 32-bit unsigned arithmetic: where the image ends before the
      pass begins, the subtraction wraps around and the addition wraps back. */
  function PassSize(size: nat, origin: nat, spacing: nat): nat
  {
    Divided(((size - origin) % 0x1_0000_0000 + spacing - 1) % 0x1_0000_0000, spacing)
  }

  function PassWidth(w: nat, p: nat): nat {
    PassSize(w, XOrigin(p), XSpacing(p))
  }

  function PassHeight(h: nat, p: nat): nat {
    PassSize(h, YOrigin(p), YSpacing(p))
  }

  /** Where pixel (i, j) of pass p goes. */
  function OutX(p: nat, i: nat): nat {
    Spaced(i, XSpacing(p)) + XOrigin(p)
  }

  function OutY(p: nat, j: nat): nat {
    Spaced(j, YSpacing(p)) + YOrigin(p)
  }

  /** The pass that a pixel of the image is in, by its place in an eight by eight block. */
  function PassOf(x: nat, y: nat): (p: nat)
    ensures p < 7
  {
    if y % 2 == 1 then 6
    else if x % 2 == 1 then 5
    else if y % 4 == 2 then 4
    else if x % 4 == 2 then 3
    else if y % 8 == 4 then 2
    else if x % 8 == 4 then 1
    else 0
  }

  function InX(x: nat, y: nat): nat {
    Divided(x, XSpacing(PassOf(x, y)))
  }

  function InY(x: nat, y: nat): nat {
    Divided(y, YSpacing(PassOf(x, y)))
  }

  lemma PassSizeIs(size: nat, origin: nat, spacing: nat)
    requires 0 < size <= MAX_DIMENSION && origin < spacing <= 8
    ensures PassSize(size, origin, spacing) == Divided(size - origin + spacing - 1, spacing)
  {
    assert (size - origin) % 0x1_0000_0000 == if size < origin then size - origin + 0x1_0000_0000 else size - origin;
  }

  /** The columns of a pass are exactly those that stay inside the image. */
  lemma PassWidthIs(w: nat, p: nat, i: nat)
    requires 0 < w <= MAX_DIMENSION && p < 7
    ensures i < PassWidth(w, p) <==> OutX(p, i) < w
  {
    PassSizeIs(w, XOrigin(p), XSpacing(p));
  }

  lemma PassHeightIs(h: nat, p: nat, j: nat)
    requires 0 < h <= MAX_DIMENSION && p < 7
    ensures j < PassHeight(h, p) <==> OutY(p, j) < h
  {
    PassSizeIs(h, YOrigin(p), YSpacing(p));
  }

  lemma Residues(v: nat)
    ensures v % 4 == v % 8 % 4 && v % 2 == v % 4 % 2
  {
    ByFour(2 * (v / 8) + v % 8 / 4, v % 8 % 4);
    ByTwo(2 * (v / 4) + v % 4 / 2, v % 4 % 2);
  }

  lemma ByFour(k: nat, b: nat)
    requires b < 4
    ensures (4 * k + b) % 4 == b
  {
  }

  lemma ByTwo(k: nat, b: nat)
    requires b < 2
    ensures (2 * k + b) % 2 == b
  {
  }

  /** Multiples of a spacing, offset by less than it. */
  lemma Spread(i: nat, s: nat, o: nat)
    requires IsSpacing(s) && o < s
    ensures Divided(Spaced(i, s) + o, s) == i
    ensures s == 8 ==> (Spaced(i, s) + o) % 8 == o
    ensures s == 4 ==> (Spaced(i, s) + o) % 4 == o
    ensures s == 2 ==> (Spaced(i, s) + o) % 2 == o
  {
  }

  /** Each pixel of a pass goes to a pixel that comes from it. */
  lemma ThereAndBack(p: nat, i: nat, j: nat)
    requires p < 7
    ensures var x, y := OutX(p, i), OutY(p, j);
            PassOf(x, y) == p && InX(x, y) == i && InY(x, y) == j
  {
    Spread(i, XSpacing(p), XOrigin(p));
    Spread(j, YSpacing(p), YOrigin(p));
    Residues(OutX(p, i));
    Residues(OutY(p, j));
  }

  lemma Rounds(v: nat, s: nat, o: nat)
    requires IsSpacing(s) && o < s
    requires s == 8 ==> v % 8 == o
    requires s == 4 ==> v % 4 == o
    requires s == 2 ==> v % 2 == o
    ensures Spaced(Divided(v, s), s) + o == v
  {
  }

  /** Each pixel of the image comes from a pixel of a pass. */
  lemma BackAndThere(x: nat, y: nat)
    ensures OutX(PassOf(x, y), InX(x, y)) == x && OutY(PassOf(x, y), InY(x, y)) == y
  {
    var p := PassOf(x, y);
    Residues(x);
    Residues(y);
    assert XSpacing(p) == 8 ==> x % 8 == XOrigin(p);
    assert YSpacing(p) == 8 ==> y % 8 == YOrigin(p);
    assert XSpacing(p) == 4 ==> x % 4 == XOrigin(p);
    assert YSpacing(p) == 4 ==> y % 4 == YOrigin(p);
    Rounds(x, XSpacing(p), XOrigin(p));
    Rounds(y, YSpacing(p), YOrigin(p));
  }

  /** The pixels of the seven passes. */
  predicate InPass(w: nat, h: nat, p: nat, i: nat, j: nat) {
    p < 7 && i < PassWidth(w, p) && j < PassHeight(h, p)
  }

  /** The seven passes map one to one onto the pixels of the image: all in bounds, none missing, none twice. */
  lemma PassesCoverOnce(w: nat, h: nat)
    requires 1 <= w <= MAX_DIMENSION && 1 <= h <= MAX_DIMENSION
    ensures forall p: nat, i: nat, j: nat | InPass(w, h, p, i, j) :: OutX(p, i) < w && OutY(p, j) < h
    ensures forall x: nat, y: nat | x < w && y < h ::
              var p := PassOf(x, y);
              InPass(w, h, p, InX(x, y), InY(x, y)) && OutX(p, InX(x, y)) == x && OutY(p, InY(x, y)) == y
    ensures forall p: nat, i: nat, j: nat | InPass(w, h, p, i, j) ::
              var x, y := OutX(p, i), OutY(p, j);
              p == PassOf(x, y) && i == InX(x, y) && j == InY(x, y)
  {
    forall p: nat, i: nat, j: nat | InPass(w, h, p, i, j)
      ensures var x, y := OutX(p, i), OutY(p, j);
              x < w && y < h && p == PassOf(x, y) && i == InX(x, y) && j == InY(x, y)
    {
      ThereAndBack(p, i, j);
      PassWidthIs(w, p, i);
      PassHeightIs(h, p, j);
    }
    forall x: nat, y: nat | x < w && y < h
      ensures var p := PassOf(x, y);
              InPass(w, h, p, InX(x, y), InY(x, y)) && OutX(p, InX(x, y)) == x && OutY(p, InY(x, y)) == y
    {
      BackAndThere(x, y);
      PassWidthIs(w, PassOf(x, y), InX(x, y));
      PassHeightIs(h, PassOf(x, y), InY(x, y));
    }
  }

  // ---- As the standard has it -----------------------------------------------------------------------------

  /** The passes of an eight by eight block, as section 2.6 of RFC 2083 draws them. */
  function Block(x: nat, y: nat): (p: nat)
    requires x < 8 && y < 8
    ensures 1 <= p <= 7
  {
    match y
    case 0 => [1, 6, 4, 6, 2, 6, 4, 6][x]
    case 1 => 7
    case 2 => [5, 6, 5, 6, 5, 6, 5, 6][x]
    case 3 => 7
    case 4 => [3, 6, 4, 6, 3, 6, 4, 6][x]
    case 5 => 7
    case 6 => [5, 6, 5, 6, 5, 6, 5, 6][x]
    case _ => 7
  }

  lemma PassOfEights(x: nat, y: nat)
    ensures PassOf(x, y) == PassOf(x % 8, y % 8)
  {
    Residues(x);
    Residues(y);
  }

  lemma PassInBlock(x: nat, y: nat)
    requires x < 8 && y < 8
    ensures PassOf(x, y) + 1 == Block(x, y)
  {
  }

  /** How far apart the columns and the rows of a pass are. */
  function ColumnsApart(p: nat): (s: nat)
    requires p < 7
    ensures s > 0
  {
    [8, 8, 4, 4, 2, 2, 1][p]
  }

  function RowsApart(p: nat): (s: nat)
    requires p < 7
    ensures s > 0
  {
    [8, 8, 8, 4, 4, 2, 2][p]
  }

  /** How many columns and rows of an image are in a pass. */
  function ColumnsOf(w: nat, p: nat): nat
    requires p < 7
  {
    (w + [7, 3, 3, 1, 1, 0, 0][p]) / ColumnsApart(p)
  }

  function RowsOf(h: nat, p: nat): nat
    requires p < 7
  {
    (h + [7, 7, 3, 3, 1, 1, 0][p]) / RowsApart(p)
  }

  /** A pixel's pass, and its place there, are those of the drawing. */
  lemma PassIsBlock(x: nat, y: nat)
    ensures var p := PassOf(x, y);
            p + 1 == Block(x % 8, y % 8) && InX(x, y) == x / ColumnsApart(p) && InY(x, y) == y / RowsApart(p)
  {
    PassOfEights(x, y);
    PassInBlock(x % 8, y % 8);
  }

  lemma PassSizesAre(w: nat, h: nat, p: nat)
    requires 0 < w <= MAX_DIMENSION && 0 < h <= MAX_DIMENSION && p < 7
    ensures PassWidth(w, p) == ColumnsOf(w, p) && PassHeight(h, p) == RowsOf(h, p)
  {
    PassSizeIs(w, XOrigin(p), XSpacing(p));
    PassSizeIs(h, YOrigin(p), YSpacing(p));
  }
}
