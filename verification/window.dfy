/** The window of window.go: an unstyled vertical stack of components,
    over the sizes of its children. */
module WindowLayout {
  import opened Ints
  import opened Image

  /** `GetSize`: as wide as the widest child, as tall as all children
      together. Unlike a view, a window does not skip floating children. */
  function Size(sizes: seq<Point>): Point {
    Point(MaxOf(Xs(sizes)), SumOf(Ys(sizes)))
  }

  /** The loop of `GetSize` as window.go writes it. */
  method GetSize(sizes: seq<Point>) returns (p: Point)
    ensures p == Size(sizes)
    ensures p.x >= 0 && forall i | 0 <= i < |sizes| :: sizes[i].x <= p.x
    ensures |sizes| == 0 ==> p == Point(0, 0)
  {
    var x, y := 0, 0;
    var i := 0;
    while i < |sizes|
      invariant 0 <= i <= |sizes|
      invariant x == MaxOf(Xs(sizes[..i])) && y == SumOf(Ys(sizes[..i]))
    {
      var contentSize := sizes[i];
      if x <= contentSize.x {
        x := contentSize.x;
      }
      y := y + contentSize.y;
      PrefixStep(sizes, i);
      i := i + 1;
    }
    assert sizes[..i] == sizes;
    p := Point(x, y);
  }

  /** Where `Draw` paints each child of a window drawn at (x, y): at the
      window's x, below all earlier children. */
  function Offsets(sizes: seq<Point>, x: int, y: int): (r: seq<Point>)
    ensures |r| == |sizes|
    ensures forall i | 0 <= i < |sizes| :: r[i] == Point(x, y + SumOf(Ys(sizes[..i])))
  {
    seq(|sizes|, i requires 0 <= i < |sizes| => Point(x, y + SumOf(Ys(sizes[..i]))))
  }

  /** The loop of `Draw` as window.go writes it, with a running y. */
  method DrawOffsets(sizes: seq<Point>, x: int, y: int) returns (offsets: seq<Point>)
    ensures offsets == Offsets(sizes, x, y)
  {
    offsets := [];
    var dy := 0;
    var i := 0;
    while i < |sizes|
      invariant 0 <= i <= |sizes|
      invariant offsets == Offsets(sizes, x, y)[..i]
      invariant dy == SumOf(Ys(sizes[..i]))
    {
      ghost var all := Offsets(sizes, x, y);
      assert all[i] == Point(x, y + dy);
      assert all[..i + 1] == all[..i] + [all[i]];
      offsets := offsets + [Point(x, y + dy)];
      dy := dy + sizes[i].y;
      PrefixStep(sizes, i);
      i := i + 1;
    }
  }

  /** The children are stacked without gaps or overlap: each starts where
      the one before ends, and the last ends at the bottom of the window. */
  lemma OffsetsStack(sizes: seq<Point>, x: int, y: int)
    ensures forall i | 0 <= i < |sizes| - 1 ::
              Offsets(sizes, x, y)[i + 1].y == Offsets(sizes, x, y)[i].y + sizes[i].y
    ensures |sizes| > 0 ==> Offsets(sizes, x, y)[|sizes| - 1].y + sizes[|sizes| - 1].y == y + Size(sizes).y
  {
    forall i | 0 <= i < |sizes|
      ensures SumOf(Ys(sizes[..i + 1])) == SumOf(Ys(sizes[..i])) + sizes[i].y
    {
      PrefixStep(sizes, i);
    }
    assert sizes[..|sizes|] == sizes;
  }

  /** Drawing a window is drawing its first child at (x, y) and the rest
      as a window one first-child height lower. */
  lemma OffsetsShift(sizes: seq<Point>, x: int, y: int)
    requires |sizes| > 0
    ensures Offsets(sizes, x, y) == [Point(x, y)] + Offsets(sizes[1..], x, y + sizes[0].y)
  {
    var rest := sizes[1..];
    assert [sizes[0].y][..0] == [];
    forall i | 1 <= i < |sizes|
      ensures SumOf(Ys(sizes[..i])) == sizes[0].y + SumOf(Ys(rest[..i - 1]))
    {
      assert Ys(sizes[..i]) == [sizes[0].y] + Ys(rest[..i - 1]);
      SumOfAppend([sizes[0].y], Ys(rest[..i - 1]));
    }
    assert sizes[..0] == [];
  }
}
