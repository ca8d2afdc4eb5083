# Polygon area calculator, modelled in Dafny

The system is one Python module, `main.py`, with two shape classes.

- A `Rectangle` holds a mutable `width` and `height`. Its setters change one side each. It answers area, perimeter, a text "picture" and a containment count, and it prints as `Rectangle(width=W, height=H)`.
- A `Square` is a `Rectangle` whose sides stay equal. Its constructor takes one side, and every setter writes both sides. It prints as `Square(side=S)`.

The model has five modules:

- `Shapes` holds the two classes. Their fields are updated in place by constructors and setters marked `modifies`. Their queries are functions that `reads this`. `Square.Valid()` is the equal-sides invariant that every mutator re-establishes.
- `Geometry` holds the inherited queries, written once over a `Dims(width, height)` value. Python's `Square` inherits them, and both classes here delegate to the same definitions. `Dims` is also the duck-typed argument of the containment query: any shape passes its `Dimensions()`.
- `Geometry` also proves what the picture and the containment count mean. The picture is compared with a character grid, the star count and the row layout. The containment count is compared with copies laid end to end along each axis, and bounded by area.
- `Forms` and `Decimal` build the text forms. `Decimal` renders a natural number in decimal, as `str()` does. The lemmas there show that reading the digits back gives the number, so each text form determines the shape's sides.
- `Scenarios` holds client methods. Their outcomes follow from the class contracts alone.

Dimensions are natural numbers, so zero is allowed. Python's `math.trunc(a / b)` and Dafny's `a / b` agree on non-negative operands below 2^53.

## Model

| member | source | states |
|---|---|---|
| `Shapes.Rectangle.constructor` | main.py:25-33 | the new rectangle has exactly the given width and height |
| `Shapes.Rectangle.SetWidth` | main.py:35-37 | width becomes the argument; height is unchanged, and the frame allows no other field to change |
| `Shapes.Rectangle.SetHeight` | main.py:39-41 | height becomes the argument; width is unchanged |
| `Shapes.Rectangle.Area` | main.py:43-45 | area is width times height (`Geometry.Area`), and for a picturable rectangle it equals the number of '*' in its picture; reads only, changes nothing |
| `Shapes.Rectangle.Perimeter` | main.py:47-49 | perimeter is twice the sum of the sides (`Geometry.Perimeter`); reads only |
| `Shapes.Rectangle.Picture` | main.py:55-61 | the result (`Geometry.Picture`) is the refusal message if and only if a side is 50 or more; otherwise it has height*(width+1) characters, the last column of each row is a newline and every other character is '*' |
| `Shapes.Rectangle.AmountInside` | main.py:63-77 | the result (`Geometry.AmountInside`) is the product of the two per-axis truncated quotients, the copies never cover more than this rectangle's area, and the result is zero exactly when the other shape is longer along some axis |
| `Shapes.Rectangle.ToString` | main.py:79-81 | the text (`Forms.RectangleText`) is "Rectangle(width=" + decimal width + ", height=" + decimal height + ")" |
| `Shapes.Square.constructor` | main.py:93-99 | both sides equal the given side, so the invariant holds |
| `Shapes.Square.SetSide` | main.py:101-104 | both sides become the argument; the invariant holds afterwards |
| `Shapes.Square.SetWidth` | main.py:106-109 | unlike Rectangle's setter, both sides become the argument; the invariant holds afterwards |
| `Shapes.Square.SetHeight` | main.py:111-114 | both sides become the argument; the invariant holds afterwards |
| `Shapes.Square.Area` | main.py:43-45 | the inherited area (`Geometry.Area`) on a square is side squared |
| `Shapes.Square.Perimeter` | main.py:47-49 | the inherited perimeter (`Geometry.Perimeter`) on a square is four times the side |
| `Shapes.Square.Picture` | main.py:55-61 | the inherited picture (`Geometry.Picture`) is the refusal message if and only if the side is 50 or more; otherwise a side by side grid of '*' with a newline ending each row |
| `Shapes.Square.AmountInside` | main.py:63-77 | the inherited count (`Geometry.AmountInside`) on a square uses the side on both axes and never exceeds the square's area |
| `Shapes.Square.ToString` | main.py:116-118 | the text (`Forms.SquareText`) is "Square(side=" + decimal side + ")" and differs from every Rectangle text form |
| `Geometry.Repeat` | main.py:59-60 | repeating a text n times gives n times its length |
| `Geometry.RepeatBlock` | main.py:59-60 | the k-th block of a repetition is the repeated text |
| `Geometry.RepeatAt` | main.py:59-60 | character i of a repetition is character i mod length of the text |
| `Geometry.PictureTooBig` | main.py:57-58 | the picture is the refusal message if and only if width or height is at least 50 (both directions) |
| `Geometry.PictureAt` | main.py:59-61 | in a picture that fits, character i is a newline when i mod (width+1) is width and '*' otherwise |
| `Geometry.PictureGrid` | main.py:59-61 | a picture that fits has length height*(width+1), equals the character grid everywhere, and holds only '*' and newlines |
| `Geometry.PictureRow` | main.py:59-61 | line k of a picture that fits is width asterisks followed by a newline |
| `Geometry.PictureCounts` | main.py:59-61 | a picture that fits holds width*height asterisks and height newlines |
| `Geometry.FitsAlongMaximal` | main.py:74-75 | the end-to-end count is the largest number of pieces whose total length fits |
| `Geometry.FitsAlongIsQuotient` | main.py:74-75 | the end-to-end count equals the truncated quotient of the lengths |
| `Geometry.AmountInsideCountsGrid` | main.py:74-77 | the containment count equals rows of copies times columns of copies, each counted by laying copies end to end |
| `Geometry.AmountInsideArea` | main.py:74-77 | the counted copies' total area never exceeds the outer shape's area |
| `Geometry.AmountInsideSelf` | main.py:74-77 | a shape with positive sides fits inside an equal-sized shape exactly once |
| `Geometry.AmountInsideZero` | main.py:74-77 | the count is zero if and only if the inner shape is longer along some axis |
| `Geometry.AmountInsidePerAxis` | main.py:74-77 | for all inputs, truncating each axis separately never gives more than the truncated ratio of the areas |
| `Decimal.NatToString` | main.py:81 | the decimal text is non-empty, all digits, has no leading zero, and has one digit exactly below ten |
| `Decimal.NatToStringRoundTrip` | main.py:81 | reading back the decimal text of n gives n |
| `Decimal.NatToStringInjective` | main.py:81 | two numbers have equal decimal texts if and only if they are equal |
| `Forms.RectangleTextInjective` | main.py:79-81 | two rectangle text forms are equal if and only if both widths and both heights are equal |
| `Forms.SquareTextInjective` | main.py:116-118 | two square text forms are equal if and only if the sides are equal |
| `Forms.SquareTextIsNotRectangleText` | main.py:116-118 | no square text form equals any rectangle text form |
| `Scenarios.Containment` | main.py:63-77 | a 10 by 10 rectangle holds nine 3 by 3 rectangles; a 10 by 4 rectangle holds three squares of side 3 |
| `Scenarios.Pictures` | main.py:55-61 | a 3 by 2 picture is "***\n***\n"; 50 by 1 and 1 by 50 give the refusal message |
| `Scenarios.Texts` | main.py:79-81 | a 5 by 10 rectangle prints "Rectangle(width=5, height=10)"; a square of side 7 prints "Square(side=7)" |
| `Scenarios.RectangleSetters` | main.py:35-41 | on a rectangle, setting one side leaves the other as it was |
| `Scenarios.SquareSetters` | main.py:101-114 | on a square, after any sequence of `SetSide`, `SetWidth` and `SetHeight` calls the sides are still equal and both hold the last value set; an empty sequence changes nothing |

## Left out

- `get_diagonal` (main.py:51-53) is not modelled. It returns a floating-point square root.
- Negative, non-integer and boolean dimensions are not modelled: sides are `nat`. Python does accept them, and there `"*" * n` is empty for negative n, division truncates toward zero, and `str()` prints signs or decimals. Zero is in the model.
- Division by zero in `get_amount_inside` is a precondition, `other.width > 0 && other.height > 0`. Python raises `ZeroDivisionError` there and the code does not handle it.
- `Shapes.Rectangle.AmountInside`: the model uses exact integer division. Python divides in floating point before truncating, which can differ for sides above 2^53. Beyond the float range Python raises `OverflowError`, while the model returns the exact quotient.
- `Shapes.Square.Area`, `Shapes.Square.Perimeter`, `Shapes.Square.Picture`, `Shapes.Square.AmountInside`, `Shapes.Square.ToString`: these require `Valid()`, the equal-sides invariant. That invariant holds after construction and after every setter. Python only breaks it by assigning a field directly, outside the class's methods.
- Inheritance and dynamic dispatch are not modelled as such. `Square` is a separate class with the same two fields. Its inherited queries delegate to the same `Geometry` definitions that `Rectangle` uses. A `Square` passes to `get_amount_inside` through its `Dimensions()` value, not as a `Rectangle` object.
- Aliasing is not modelled: `AmountInside` reads the other shape's dimensions as a value taken at the call.
