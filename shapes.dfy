/** The two classes of main.py. Both hold a width and a height that their
    setters change in place; Square additionally keeps the two equal. The
    queries Square inherits from Rectangle are written once, in Geometry and
    Forms, and both classes delegate to them. */
module Shapes {
  import Geometry
  import Forms

  class Rectangle {
    var width: nat
    var height: nat

    constructor (width: nat, height: nat)
      ensures this.width == width && this.height == height
    {
      this.width := width;
      this.height := height;
    }

    /** Changes the width and nothing else. */
    method SetWidth(newWidth: nat)
      modifies this`width
      ensures width == newWidth && height == old(height)
    {
      width := newWidth;
    }

    /** Changes the height and nothing else. */
    method SetHeight(newHeight: nat)
      modifies this`height
      ensures height == newHeight && width == old(width)
    {
      height := newHeight;
    }

    /** What another shape's containment query needs of this one. */
    function Dimensions(): Geometry.Dims
      reads this
    {
      Geometry.Dims(width, height)
    }

    function Area(): (r: nat)
      reads this
      ensures r == width * height
      ensures Geometry.Fits(Dimensions()) ==> Geometry.Count(Picture(), '*') == r
    {
      if Geometry.Fits(Dimensions()) then
        Geometry.PictureCounts(Dimensions());
        Geometry.Area(Dimensions())
      else
        Geometry.Area(Dimensions())
    }

    function Perimeter(): (r: nat)
      reads this
      ensures r == 2 * (width + height)
    {
      Geometry.Perimeter(Dimensions())
    }

    /** `height` rows of `width` asterisks, or the refusal message. */
    function Picture(): (r: string)
      reads this
      ensures r == Geometry.TooBigMessage <==> width >= 50 || height >= 50
      ensures width < 50 && height < 50 ==>
        && |r| == height * (width + 1)
        && (forall i :: 0 <= i < |r| ==> r[i] == if i % (width + 1) == width then '\n' else '*')
        && (forall i :: 0 <= i < |r| ==> r[i] in {'*', '\n'})
    {
      Geometry.PictureTooBig(Dimensions());
      if Geometry.Fits(Dimensions()) then
        Geometry.PictureGrid(Dimensions());
        Geometry.Picture(Dimensions())
      else
        Geometry.Picture(Dimensions())
    }

    /** How many unrotated copies of `other` fit inside this rectangle. */
    function AmountInside(other: Geometry.Dims): (r: nat)
      reads this
      requires other.width > 0 && other.height > 0
      ensures r == (height / other.height) * (width / other.width)
      ensures r * (other.width * other.height) <= width * height
      ensures r == 0 <==> other.width > width || other.height > height
    {
      Geometry.AmountInsideArea(Dimensions(), other);
      Geometry.AmountInsideZero(Dimensions(), other);
      Geometry.AmountInside(Dimensions(), other)
    }

    function ToString(): (r: string)
      reads this
      ensures r == Forms.RectangleText(width, height)
    {
      Forms.RectangleText(width, height)
    }
  }

  class Square {
    var width: nat
    var height: nat

    /** The class invariant: the two sides are equal. */
    ghost predicate Valid()
      reads this
    {
      width == height
    }

    constructor (sides: nat)
      ensures Valid() && width == sides && height == sides
    {
      width := sides;
      height := sides;
    }

    method SetSide(newSides: nat)
      modifies this
      ensures Valid() && width == newSides && height == newSides
    {
      width := newSides;
      height := newSides;
    }

    /** Unlike Rectangle's setter, writes both sides. */
    method SetWidth(newWidth: nat)
      modifies this
      ensures Valid() && width == newWidth && height == newWidth
    {
      width := newWidth;
      height := newWidth;
    }

    /** Unlike Rectangle's setter, writes both sides. */
    method SetHeight(newHeight: nat)
      modifies this
      ensures Valid() && width == newHeight && height == newHeight
    {
      height := newHeight;
      width := newHeight;
    }

    function Dimensions(): Geometry.Dims
      reads this
    {
      Geometry.Dims(width, height)
    }

    function Area(): (r: nat)
      reads this
      requires Valid()
      ensures r == width * width
    {
      Geometry.Area(Dimensions())
    }

    function Perimeter(): (r: nat)
      reads this
      requires Valid()
      ensures r == 4 * width
    {
      Geometry.Perimeter(Dimensions())
    }

    function Picture(): (r: string)
      reads this
      requires Valid()
      ensures r == Geometry.TooBigMessage <==> width >= 50
      ensures width < 50 ==>
        && |r| == width * (width + 1)
        && (forall i :: 0 <= i < |r| ==> r[i] == if i % (width + 1) == width then '\n' else '*')
    {
      Geometry.PictureTooBig(Dimensions());
      if Geometry.Fits(Dimensions()) then
        Geometry.PictureGrid(Dimensions());
        Geometry.Picture(Dimensions())
      else
        Geometry.Picture(Dimensions())
    }

    function AmountInside(other: Geometry.Dims): (r: nat)
      reads this
      requires Valid()
      requires other.width > 0 && other.height > 0
      ensures r == (width / other.height) * (width / other.width)
      ensures r * (other.width * other.height) <= width * width
    {
      Geometry.AmountInsideArea(Dimensions(), other);
      Geometry.AmountInside(Dimensions(), other)
    }

    /** Prints the common side, never as a Rectangle. */
    function ToString(): (r: string)
      reads this
      requires Valid()
      ensures r == Forms.SquareText(width)
      ensures forall w: nat, h: nat :: r != Forms.RectangleText(w, h)
    {
      Forms.SquareTextIsNotRectangleText(width);
      Forms.SquareText(width)
    }
  }
}
