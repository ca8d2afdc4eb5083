/** Clients of Shapes: concrete uses whose outcomes follow from the classes'
    contracts alone. */
module Scenarios {
  import Geometry
  import opened Shapes

  /** A 10 by 10 rectangle holds nine 3 by 3 rectangles; a 10 by 4 rectangle
      holds three squares of side 3 (a Square stands in for a Rectangle). */
  method Containment() returns (grid: nat, strip: nat)
    ensures grid == 9 && strip == 3
  {
    var big := new Rectangle(10, 10);
    var small := new Rectangle(3, 3);
    grid := big.AmountInside(small.Dimensions());
    var wide := new Rectangle(10, 4);
    var square := new Square(3);
    strip := wide.AmountInside(square.Dimensions());
  }

  /** A 3 by 2 picture, and the two refusals at side 50. */
  method Pictures() returns (small: string, wide: string, tall: string)
    ensures small == "***\n***\n"
    ensures wide == Geometry.TooBigMessage && tall == Geometry.TooBigMessage
  {
    var r := new Rectangle(3, 2);
    small := r.Picture();
    r.SetWidth(50);
    r.SetHeight(1);
    wide := r.Picture();
    r.SetWidth(1);
    r.SetHeight(50);
    tall := r.Picture();
  }

  /** The text forms of a 5 by 10 rectangle and of a square of side 7. */
  method Texts() returns (rect: string, square: string)
    ensures rect == "Rectangle(width=5, height=10)"
    ensures square == "Square(side=7)"
  {
    var r := new Rectangle(5, 10);
    rect := r.ToString();
    var s := new Square(7);
    square := s.ToString();
  }

  /** On a Rectangle, setting one side leaves the other as it was. */
  method RectangleSetters(w: nat, h: nat, w': nat, h': nat) returns (afterWidth: nat, afterHeight: nat)
    ensures afterWidth == h && afterHeight == w'
  {
    var r := new Rectangle(w, h);
    r.SetWidth(w');
    afterWidth := r.height;
    r.SetHeight(h');
    afterHeight := r.width;
  }

  /** The three setters of a Square, as values a client can sequence. */
  datatype Setter = SetSide(v: nat) | SetWidth(v: nat) | SetHeight(v: nat)

  /** On a Square, any sequence of setters keeps the sides equal and leaves
      both at the last value set. */
  method SquareSetters(s: Square, ops: seq<Setter>)
    requires s.Valid()
    modifies s
    ensures s.Valid()
    ensures |ops| > 0 ==> s.width == ops[|ops| - 1].v && s.height == ops[|ops| - 1].v
    ensures |ops| == 0 ==> s.width == old(s.width) && s.height == old(s.height)
  {
    var i := 0;
    while i < |ops|
      invariant 0 <= i <= |ops|
      invariant s.Valid()
      invariant i > 0 ==> s.width == ops[i - 1].v
      invariant i == 0 ==> s.width == old(s.width) && s.height == old(s.height)
    {
      match ops[i] {
        case SetSide(v) => s.SetSide(v);
        case SetWidth(v) => s.SetWidth(v);
        case SetHeight(v) => s.SetHeight(v);
      }
      i := i + 1;
    }
  }
}
