/** The text forms of the two shapes, as their __str__ methods build them. */
module Forms {
  import opened Decimal

  function RectangleText(width: nat, height: nat): string {
    "Rectangle(width=" + NatToString(width) + ", height=" + NatToString(height) + ")"
  }

  function SquareText(side: nat): string {
    "Square(side=" + NatToString(side) + ")"
  }

  /** A run of digits followed by a non-digit can be split in only one way. */
  lemma SplitAtNonDigit(x1: string, t1: string, x2: string, t2: string)
    requires AllDigits(x1) && AllDigits(x2)
    requires |t1| > 0 && |t2| > 0 && !IsDigit(t1[0]) && !IsDigit(t2[0])
    requires x1 + t1 == x2 + t2
    ensures x1 == x2 && t1 == t2
  {
    FirstNonDigit(x1, t1);
    FirstNonDigit(x2, t2);
    assert |x1| == |x2|;
    assert x1 == (x1 + t1)[..|x1|];
    assert x2 == (x2 + t2)[..|x2|];
    assert t1 == (x1 + t1)[|x1|..];
    assert t2 == (x2 + t2)[|x2|..];
  }

  /** In digits followed by a non-digit, the first non-digit sits at |x|. */
  lemma FirstNonDigit(x: string, t: string)
    requires AllDigits(x) && |t| > 0 && !IsDigit(t[0])
    ensures forall i :: 0 <= i < |x| ==> IsDigit((x + t)[i])
    ensures !IsDigit((x + t)[|x|])
  {
  }

  /** Equal prefixes can be dropped from equal strings. */
  lemma DropPrefix(p: string, a: string, b: string)
    requires p + a == p + b
    ensures a == b
  {
    assert a == (p + a)[|p|..];
    assert b == (p + b)[|p|..];
  }

  /** The rectangle's text form determines its width and height. */
  lemma RectangleTextInjective(w1: nat, h1: nat, w2: nat, h2: nat)
    ensures RectangleText(w1, h1) == RectangleText(w2, h2) <==> w1 == w2 && h1 == h2
  {
    if RectangleText(w1, h1) == RectangleText(w2, h2) {
      var head := "Rectangle(width=";
      var mid := ", height=";
      var x1, y1 := NatToString(w1), NatToString(h1);
      var x2, y2 := NatToString(w2), NatToString(h2);
      assert RectangleText(w1, h1) == head + (x1 + (mid + y1 + ")"));
      assert RectangleText(w2, h2) == head + (x2 + (mid + y2 + ")"));
      DropPrefix(head, x1 + (mid + y1 + ")"), x2 + (mid + y2 + ")"));
      SplitAtNonDigit(x1, mid + y1 + ")", x2, mid + y2 + ")");
      assert mid + y1 + ")" == mid + (y1 + ")");
      assert mid + y2 + ")" == mid + (y2 + ")");
      DropPrefix(mid, y1 + ")", y2 + ")");
      SplitAtNonDigit(y1, ")", y2, ")");
      NatToStringInjective(w1, w2);
      NatToStringInjective(h1, h2);
    }
  }

  /** The square's text form determines its side. */
  lemma SquareTextInjective(s1: nat, s2: nat)
    ensures SquareText(s1) == SquareText(s2) <==> s1 == s2
  {
    if SquareText(s1) == SquareText(s2) {
      var head := "Square(side=";
      var x1, x2 := NatToString(s1), NatToString(s2);
      assert SquareText(s1) == head + (x1 + ")");
      assert SquareText(s2) == head + (x2 + ")");
      DropPrefix(head, x1 + ")", x2 + ")");
      SplitAtNonDigit(x1, ")", x2, ")");
      NatToStringInjective(s1, s2);
    }
  }

  /** A square never prints as a rectangle, whatever the rectangle's sides. */
  lemma SquareTextIsNotRectangleText(side: nat)
    ensures forall width: nat, height: nat :: SquareText(side) != RectangleText(width, height)
  {
    forall width: nat, height: nat
      ensures SquareText(side) != RectangleText(width, height)
    {
      assert SquareText(side)[0] == 'S';
      assert RectangleText(width, height)[0] == 'R';
    }
  }
}
