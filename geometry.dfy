/** The geometry that main.py writes once, in Rectangle, and that Square
    inherits unchanged: every query depends only on a shape's width and
    height, so it is stated here over that pair. */
module Geometry {

  /** The structural capability the queries need: a width and a height. */
  datatype Dims = Dims(width: nat, height: nat)

  /** Pictures are refused from this side length on. */
  const PictureLimit: nat := 50

  const TooBigMessage: string := "Too big for picture."

  function Area(s: Dims): nat {
    s.width * s.height
  }

  function Perimeter(s: Dims): nat {
    s.width * 2 + s.height * 2
  }

  // ---------------------------------------------------------------------
  // String repetition, Python's `text * n` for a non-negative count n.

  function Repeat(text: string, n: nat): (r: string)
    ensures |r| == n * |text|
  {
    if n == 0 then [] else text + Repeat(text, n - 1)
  }

  /** The k-th copy inside a repetition is the repeated text itself. */
  lemma {:induction false} RepeatBlock(text: string, n: nat, k: nat)
    requires k < n
    ensures (k + 1) * |text| <= |Repeat(text, n)|
    ensures Repeat(text, n)[k * |text|..(k + 1) * |text|] == text
  {
    var rest := Repeat(text, n - 1);
    assert Repeat(text, n) == text + rest;
    if k > 0 {
      RepeatBlock(text, n - 1, k - 1);
      assert k * |text| == |text| + (k - 1) * |text|;
      assert (k + 1) * |text| == |text| + k * |text|;
      assert (text + rest)[k * |text|..(k + 1) * |text|] == rest[(k - 1) * |text|..k * |text|];
    }
  }

  /** Character i of a repetition is character i mod |text| of the text. */
  lemma {:induction false} RepeatAt(text: string, n: nat, i: nat)
    requires i < |Repeat(text, n)|
    ensures |text| > 0 && Repeat(text, n)[i] == text[i % |text|]
  {
    var rest := Repeat(text, n - 1);
    assert Repeat(text, n) == text + rest;
    if i < |text| {
      DivModUnique(i, |text|, 0, i);
    } else {
      RepeatAt(text, n - 1, i - |text|);
      DivModShift(i, |text|);
    }
  }

  /** Quotient and remainder are determined by x == q * m + r with 0 <= r < m. */
  lemma DivModUnique(x: int, m: int, q: int, r: int)
    requires m > 0 && 0 <= r < m && x == q * m + r
    ensures x / m == q && x % m == r
  {
    var q', r' := x / m, x % m;
    assert x == q' * m + r';
    if q > q' {
      MulStep(q', q, m);
    } else if q < q' {
      MulStep(q, q', m);
    }
  }

  /** A larger factor adds at least one more m. */
  lemma MulStep(a: int, b: int, m: int)
    requires a < b && m > 0
    ensures a * m + m <= b * m
  {
    MulPositive(b - a, m);
    MulDistributes(a, b, m);
  }

  lemma MulDistributes(a: int, b: int, m: int)
    ensures b * m == a * m + (b - a) * m
  {
  }

  lemma MulPositive(d: int, m: int)
    requires d >= 1 && m > 0
    ensures d * m >= m
  {
  }

  /** Taking m away from x lowers the quotient by one and keeps the remainder. */
  lemma DivModShift(x: int, m: int)
    requires m > 0 && x >= m
    ensures (x - m) / m == x / m - 1 && (x - m) % m == x % m
  {
    DivModUnique(x - m, m, x / m - 1, x % m);
  }

  // ---------------------------------------------------------------------
  // Counting characters.

  function Count(s: string, c: char): nat {
    if |s| == 0 then 0 else (if s[0] == c then 1 else 0) + Count(s[1..], c)
  }

  lemma {:induction false} CountConcat(a: string, b: string, c: char)
    ensures Count(a + b, c) == Count(a, c) + Count(b, c)
  {
    if |a| > 0 {
      assert (a + b)[1..] == a[1..] + b;
      CountConcat(a[1..], b, c);
    } else {
      assert a + b == b;
    }
  }

  lemma {:induction false} CountRepeat(text: string, n: nat, c: char)
    ensures Count(Repeat(text, n), c) == n * Count(text, c)
  {
    if n > 0 {
      CountConcat(text, Repeat(text, n - 1), c);
      CountRepeat(text, n - 1, c);
    }
  }

  // ---------------------------------------------------------------------
  // The picture: `height` lines of `width` asterisks each ended by a newline,
  // or the fixed refusal message when either side reaches the limit.

  predicate Fits(s: Dims) {
    s.width < PictureLimit && s.height < PictureLimit
  }

  function PictureLine(s: Dims): string {
    Repeat("*", s.width) + "\n"
  }

  function Picture(s: Dims): string {
    if !Fits(s) then TooBigMessage else Repeat(PictureLine(s), s.height)
  }

  /** The picture is the refusal message exactly when a side is 50 or more. */
  lemma PictureTooBig(s: Dims)
    ensures Picture(s) == TooBigMessage <==> !Fits(s)
  {
    if Fits(s) && s.height > 0 {
      PictureAt(s, 0);
      assert Picture(s)[0] != TooBigMessage[0];
    }
  }

  /** Character by character, a picture that fits is a grid of `height` rows
      whose last column is the newline and whose other columns are '*'. */
  lemma PictureAt(s: Dims, i: nat)
    requires Fits(s) && i < s.height * (s.width + 1)
    ensures |Picture(s)| == s.height * (s.width + 1)
    ensures Picture(s)[i] == if i % (s.width + 1) == s.width then '\n' else '*'
  {
    var line := PictureLine(s);
    RepeatAt(line, s.height, i);
    var j := i % (s.width + 1);
    if j < s.width {
      RepeatAt("*", s.width, j);
      assert line[j] == Repeat("*", s.width)[j];
    }
  }

  /** A picture that fits is exactly that grid, and so consists of '*' and
      newlines only. */
  lemma PictureGrid(s: Dims)
    requires Fits(s)
    ensures |Picture(s)| == s.height * (s.width + 1)
    ensures forall i :: 0 <= i < |Picture(s)| ==>
      Picture(s)[i] == if i % (s.width + 1) == s.width then '\n' else '*'
    ensures forall i :: 0 <= i < |Picture(s)| ==> Picture(s)[i] in {'*', '\n'}
  {
    forall i | 0 <= i < |Picture(s)|
      ensures Picture(s)[i] == if i % (s.width + 1) == s.width then '\n' else '*'
    {
      PictureAt(s, i);
    }
  }

  /** Line k of a picture that fits is `width` asterisks and a newline. */
  lemma PictureRow(s: Dims, k: nat)
    requires Fits(s) && k < s.height
    ensures (k + 1) * (s.width + 1) <= |Picture(s)|
    ensures Picture(s)[k * (s.width + 1)..(k + 1) * (s.width + 1)] == Repeat("*", s.width) + "\n"
  {
    RepeatBlock(PictureLine(s), s.height, k);
  }

  /** A picture that fits holds one '*' per unit of area and one newline per row. */
  lemma PictureCounts(s: Dims)
    requires Fits(s)
    ensures Count(Picture(s), '*') == Area(s)
    ensures Count(Picture(s), '\n') == s.height
  {
    var stars := Repeat("*", s.width);
    CountRepeat("*", s.width, '*');
    CountRepeat("*", s.width, '\n');
    CountConcat(stars, "\n", '*');
    CountConcat(stars, "\n", '\n');
    CountRepeat(PictureLine(s), s.height, '*');
    CountRepeat(PictureLine(s), s.height, '\n');
  }

  // ---------------------------------------------------------------------
  // Containment: unrotated copies of `inner` side by side inside `outer`.

  /** How many pieces of length `piece`, laid end to end, fit in `length`. */
  function FitsAlong(length: nat, piece: nat): nat
    requires piece > 0
    decreases length
  {
    if length < piece then 0 else 1 + FitsAlong(length - piece, piece)
  }

  /** FitsAlong is the largest count whose pieces still fit. */
  lemma {:induction false} FitsAlongMaximal(length: nat, piece: nat)
    requires piece > 0
    ensures FitsAlong(length, piece) * piece <= length < (FitsAlong(length, piece) + 1) * piece
  {
    if length >= piece {
      FitsAlongMaximal(length - piece, piece);
    }
  }

  /** Truncated division per axis, then the product of the two quotients. */
  function AmountInside(outer: Dims, inner: Dims): nat
    requires inner.width > 0 && inner.height > 0
  {
    (outer.height / inner.height) * (outer.width / inner.width)
  }

  /** Each truncated quotient is the number of copies that fit along that axis. */
  lemma {:induction false} FitsAlongIsQuotient(length: nat, piece: nat)
    requires piece > 0
    ensures FitsAlong(length, piece) == length / piece
  {
    if length >= piece {
      FitsAlongIsQuotient(length - piece, piece);
      DivModShift(length, piece);
    }
  }

  /** The containment count is a full grid of copies: rows times columns. */
  lemma AmountInsideCountsGrid(outer: Dims, inner: Dims)
    requires inner.width > 0 && inner.height > 0
    ensures AmountInside(outer, inner)
         == FitsAlong(outer.height, inner.height) * FitsAlong(outer.width, inner.width)
  {
    FitsAlongIsQuotient(outer.height, inner.height);
    FitsAlongIsQuotient(outer.width, inner.width);
  }

  /** The copies counted never cover more than the outer shape's area. */
  lemma AmountInsideArea(outer: Dims, inner: Dims)
    requires inner.width > 0 && inner.height > 0
    ensures AmountInside(outer, inner) * Area(inner) <= Area(outer)
  {
    var rows := outer.height / inner.height;
    var cols := outer.width / inner.width;
    assert rows * inner.height <= outer.height;
    assert cols * inner.width <= outer.width;
    MulMonotone(rows * inner.height, outer.height, cols * inner.width, outer.width);
    assert AmountInside(outer, inner) * Area(inner)
        == (rows * inner.height) * (cols * inner.width);
  }

  lemma MulMonotone(a: nat, b: nat, c: nat, d: nat)
    requires a <= b && c <= d
    ensures a * c <= b * d
  {
  }

  /** A shape fits inside an equal-sized shape exactly once. */
  lemma AmountInsideSelf(s: Dims)
    requires s.width > 0 && s.height > 0
    ensures AmountInside(s, s) == 1
  {
  }

  /** No copy fits exactly when the inner shape is longer along some axis. */
  lemma AmountInsideZero(outer: Dims, inner: Dims)
    requires inner.width > 0 && inner.height > 0
    ensures AmountInside(outer, inner) == 0
        <==> inner.width > outer.width || inner.height > outer.height
  {
  }

  /** Truncating each axis separately never counts more copies than the
      truncated ratio of the areas, and can count fewer (a 10 by 4 shape holds
      three 3 by 3 copies, while the truncated area ratio is four). */
  lemma AmountInsidePerAxis(outer: Dims, inner: Dims)
    requires inner.width > 0 && inner.height > 0
    ensures AmountInside(outer, inner) <= Area(outer) / Area(inner)
  {
    AmountInsideArea(outer, inner);
    MulPositive(inner.width, inner.height);
    QuotientUpperBound(AmountInside(outer, inner), Area(inner), Area(outer));
  }

  /** A count whose multiple fits in x is at most the truncated quotient. */
  lemma QuotientUpperBound(q: nat, m: nat, x: nat)
    requires m > 0 && q * m <= x
    ensures q <= x / m
  {
    if q > x / m {
      MulStep(x / m, q, m);
    }
  }
}
