/** Points, rectangles and colours, as Go's `image` and `image/color`
    packages define the parts the toolkit uses. */
module Image {
  import opened Ints

  datatype Point = Point(x: int, y: int)

  /** `image.Rectangle`: `min` is inclusive, `max` the opposite corner. */
  datatype Rectangle = Rectangle(min: Point, max: Point) {
    predicate WellFormed() {
      min.x <= max.x && min.y <= max.y
    }
  }

  /** `image.Rect(x0, y0, x1, y1)`: the rectangle with those corners, the
      coordinates swapped on an axis where they are given the wrong way round. */
  function Rect(x0: int, y0: int, x1: int, y1: int): (r: Rectangle)
    ensures r.WellFormed()
    ensures r.min.x == Min(x0, x1) && r.max.x == Max(x0, x1)
    ensures r.min.y == Min(y0, y1) && r.max.y == Max(y0, y1)
  {
    var (minX, maxX) := if x0 > x1 then (x1, x0) else (x0, x1);
    var (minY, maxY) := if y0 > y1 then (y1, y0) else (y0, y1);
    Rectangle(Point(minX, minY), Point(maxX, maxY))
  }

  /** The zero `image.Rectangle`, the recorded area of a component never drawn. */
  const EmptyRectangle := Rectangle(Point(0, 0), Point(0, 0))

  type Byte = b: int | 0 <= b < 256

  /** `color.RGBA` with 8-bit channels. */
  datatype Color = Color(r: Byte, g: Byte, b: Byte, a: Byte)

  const White := Color(255, 255, 255, 255)

  function Xs(ps: seq<Point>): (r: seq<int>)
    ensures |r| == |ps| && forall i | 0 <= i < |ps| :: r[i] == ps[i].x
  {
    seq(|ps|, i requires 0 <= i < |ps| => ps[i].x)
  }

  function Ys(ps: seq<Point>): (r: seq<int>)
    ensures |r| == |ps| && forall i | 0 <= i < |ps| :: r[i] == ps[i].y
  {
    seq(|ps|, i requires 0 <= i < |ps| => ps[i].y)
  }

  /** One more point in a prefix adds one more term to the running maxima
      and sums of its coordinates. */
  lemma PrefixStep(ps: seq<Point>, i: int)
    requires 0 <= i < |ps|
    ensures MaxOf(Xs(ps[..i + 1])) == Max(MaxOf(Xs(ps[..i])), ps[i].x)
    ensures MaxOf(Ys(ps[..i + 1])) == Max(MaxOf(Ys(ps[..i])), ps[i].y)
    ensures SumOf(Xs(ps[..i + 1])) == SumOf(Xs(ps[..i])) + ps[i].x
    ensures SumOf(Ys(ps[..i + 1])) == SumOf(Ys(ps[..i])) + ps[i].y
  {
    assert Xs(ps[..i + 1]) == Xs(ps[..i]) + [ps[i].x];
    assert Ys(ps[..i + 1]) == Ys(ps[..i]) + [ps[i].y];
    MaxOfSnoc(Xs(ps[..i]), ps[i].x);
    MaxOfSnoc(Ys(ps[..i]), ps[i].y);
    SumOfSnoc(Xs(ps[..i]), ps[i].x);
    SumOfSnoc(Ys(ps[..i]), ps[i].y);
  }
}
