/** The integer layout of view.go: content size from the children and the
    edge quads, box size with the explicit size as a floor, the clamped
    corner radii, the alignment anchors, the recorded hit-test area and the
    place each child is painted at. Every function here takes the view's
    effective (merged) style. */
module ViewLayout {
  import opened Ints
  import opened Image
  import opened Optional
  import opened ViewStyles

  /** What a view reads from one child: its size and whether it floats. */
  datatype Child = Child(size: Point, floating: bool)

  /** A nil edge quad resolves to zeros (the zero-valued locals of `Draw`). */
  function EdgesOf(e: Option<Edges>): Edges {
    e.GetOr(NoEdges)
  }

  /** A nil direction flows vertically. */
  predicate FlowsVertically(style: ViewStyle) {
    style.direction.None? || style.direction == Some(Vertical)
  }

  /** The sizes of the children that take part in the flow, in order. */
  function InFlow(cs: seq<Child>): seq<Point>
    decreases |cs|
  {
    if |cs| == 0 then []
    else
      var front := InFlow(cs[..|cs| - 1]);
      if cs[|cs| - 1].floating then front else front + [cs[|cs| - 1].size]
  }

  lemma InFlowSnoc(cs: seq<Child>, c: Child)
    ensures InFlow(cs + [c]) == InFlow(cs) + (if c.floating then [] else [c.size])
  {
    assert (cs + [c])[..|cs|] == cs;
  }

  lemma {:induction false} InFlowAppend(a: seq<Child>, b: seq<Child>)
    ensures InFlow(a + b) == InFlow(a) + InFlow(b)
    decreases |b|
  {
    if |b| == 0 {
      assert a + b == a;
    } else {
      var n := |b| - 1;
      assert a + b == (a + b[..n]) + [b[n]];
      InFlowSnoc(a + b[..n], b[n]);
      InFlowAppend(a, b[..n]);
      InFlowSnoc(b[..n], b[n]);
      assert b == b[..n] + [b[n]];
    }
  }

  /** The child loop of `getContentSize`: floating children are skipped; the
      others are maxed across the flow and summed along it. */
  function Flow(vertical: bool, cs: seq<Child>): Point
    decreases |cs|
  {
    if |cs| == 0 then Point(0, 0)
    else
      var p := Flow(vertical, cs[..|cs| - 1]);
      var c := cs[|cs| - 1];
      if c.floating then p
      else if vertical then Point(Max(p.x, c.size.x), p.y + c.size.y)
      else Point(p.x + c.size.x, Max(p.y, c.size.y))
  }

  lemma XsSnoc(ps: seq<Point>, p: Point)
    ensures Xs(ps + [p]) == Xs(ps) + [p.x] && Ys(ps + [p]) == Ys(ps) + [p.y]
  {
  }

  lemma FlowSnoc(vertical: bool, cs: seq<Child>, c: Child)
    ensures var p := Flow(vertical, cs);
            Flow(vertical, cs + [c]) ==
              if c.floating then p
              else if vertical then Point(Max(p.x, c.size.x), p.y + c.size.y)
              else Point(p.x + c.size.x, Max(p.y, c.size.y))
  {
    assert (cs + [c])[..|cs|] == cs;
  }

  /** Vertical flow: width is the widest in-flow child, height the sum of
      their heights; horizontal flow swaps the two. A flow without in-flow
      children is 0 by 0. */
  lemma {:induction false} FlowIsMaxAndSum(cs: seq<Child>)
    ensures Flow(true, cs) == Point(MaxOf(Xs(InFlow(cs))), SumOf(Ys(InFlow(cs))))
    ensures Flow(false, cs) == Point(SumOf(Xs(InFlow(cs))), MaxOf(Ys(InFlow(cs))))
    decreases |cs|
  {
    if |cs| > 0 {
      var n := |cs| - 1;
      var front, c := cs[..n], cs[n];
      assert cs == front + [c];
      FlowIsMaxAndSum(front);
      FlowSnoc(true, front, c);
      FlowSnoc(false, front, c);
      InFlowSnoc(front, c);
      var ps := InFlow(front);
      if !c.floating {
        XsSnoc(ps, c.size);
        MaxOfSnoc(Xs(ps), c.size.x);
        SumOfSnoc(Xs(ps), c.size.x);
        MaxOfSnoc(Ys(ps), c.size.y);
        SumOfSnoc(Ys(ps), c.size.y);
      }
    }
  }

  /** Each child with its width and height exchanged. */
  function Transposed(cs: seq<Child>): (r: seq<Child>)
    ensures |r| == |cs|
    ensures forall i | 0 <= i < |cs| :: r[i] == Child(Point(cs[i].size.y, cs[i].size.x), cs[i].floating)
  {
    seq(|cs|, i requires 0 <= i < |cs| => Child(Point(cs[i].size.y, cs[i].size.x), cs[i].floating))
  }

  /** A horizontal flow is a vertical flow of the transposed children, transposed. */
  lemma {:induction false} FlowDuality(cs: seq<Child>)
    ensures var v := Flow(true, Transposed(cs)); Flow(false, cs) == Point(v.y, v.x)
    decreases |cs|
  {
    if |cs| > 0 {
      var n := |cs| - 1;
      FlowDuality(cs[..n]);
      assert Transposed(cs)[..n] == Transposed(cs[..n]);
    }
  }

  /** Inserting a floating child anywhere leaves the flow unchanged. */
  lemma FloatingChildIgnored(vertical: bool, cs: seq<Child>, i: int, f: Child)
    requires 0 <= i <= |cs| && f.floating
    ensures Flow(vertical, cs[..i] + [f] + cs[i..]) == Flow(vertical, cs)
  {
    InFlowAppend(cs[..i] + [f], cs[i..]);
    InFlowAppend(cs[..i], [f]);
    assert [f] == [] + [f];
    InFlowSnoc([], f);
    InFlowAppend(cs[..i], cs[i..]);
    assert cs[..i] + cs[i..] == cs;
    FlowIsMaxAndSum(cs[..i] + [f] + cs[i..]);
    FlowIsMaxAndSum(cs);
  }

  /** What one edge quad adds to the content size: left+right and
      top+bottom when present, nothing when absent. */
  function EdgeExtent(q: Option<Edges>): (r: Point)
    ensures r == Point(EdgesOf(q).Width(), EdgesOf(q).Height())
  {
    if q.None? then Point(0, 0) else Point(q.value.Width(), q.value.Height())
  }

  /** The edge loop of `getContentSize`, over padding, margin and border. */
  function EdgeSum(quads: seq<Option<Edges>>): Point
    decreases |quads|
  {
    if |quads| == 0 then Point(0, 0)
    else
      var e, rest := EdgeExtent(quads[0]), EdgeSum(quads[1..]);
      Point(e.x + rest.x, e.y + rest.y)
  }

  /** `getContentSize`: the flow of the children plus padding, margin and border. */
  function ContentSize(style: ViewStyle, cs: seq<Child>): (r: Point)
    ensures var f := Flow(FlowsVertically(style), cs);
            && r.x == f.x + EdgesOf(style.padding).Width() + EdgesOf(style.margin).Width() + EdgesOf(style.borderWidth).Width()
            && r.y == f.y + EdgesOf(style.padding).Height() + EdgesOf(style.margin).Height() + EdgesOf(style.borderWidth).Height()
  {
    var f := Flow(FlowsVertically(style), cs);
    var quads := [style.padding, style.margin, style.borderWidth];
    assert quads[1..] == [style.margin, style.borderWidth];
    assert quads[1..][1..] == [style.borderWidth];
    assert quads[1..][1..][1..] == [];
    var eb, em, ep := EdgeExtent(style.borderWidth), EdgeExtent(style.margin), EdgeExtent(style.padding);
    assert EdgeSum(quads[1..][1..]) == Point(eb.x, eb.y);
    assert EdgeSum(quads[1..]) == Point(em.x + eb.x, em.y + eb.y);
    var e := EdgeSum(quads);
    assert e == Point(ep.x + em.x + eb.x, ep.y + em.y + eb.y);
    Point(f.x + e.x, f.y + e.y)
  }

  /** `GetSize`: the content size, raised to the explicit width and height
      where they are set (an unset one counts as 0). */
  function BoxSize(style: ViewStyle, cs: seq<Child>): (r: Point)
    ensures var content := ContentSize(style, cs);
            && r.x >= content.x && r.y >= content.y
            && r.x >= style.width.GetOr(0) && r.y >= style.height.GetOr(0)
            && (r.x == content.x || r.x == style.width.GetOr(0))
            && (r.y == content.y || r.y == style.height.GetOr(0))
            && (content.x >= style.width.GetOr(0) ==> r.x == content.x)
            && (content.y >= style.height.GetOr(0) ==> r.y == content.y)
  {
    var content := ContentSize(style, cs);
    var width := if style.width.Some? then style.width.value else 0;
    var height := if style.height.Some? then style.height.value else 0;
    Point(if content.x < width then width else content.x,
          if content.y < height then height else content.y)
  }

  /** Half the smaller of the box's width and height inside margin and
      border, rounded toward zero: the largest radius `Draw` lets a corner have. */
  function RadiusBound(style: ViewStyle, size: Point): int {
    var m, b := EdgesOf(style.margin), EdgesOf(style.borderWidth);
    Half(Min(size.x - m.Width() - b.Width(), size.y - m.Height() - b.Height()))
  }

  function ClampRadius(requested: int, bound: int): (r: int)
    ensures r <= bound
    ensures requested <= bound ==> r == requested
    ensures r == requested || r == bound
  {
    if bound < requested then bound else requested
  }

  /** The corner radii `Draw` uses: the requested ones (0 when unset), each
      clamped to `RadiusBound` on its own. On a box whose inside of margin and
      border is not negative, two corners side by side then never need more
      than that width or height. */
  function Radii(style: ViewStyle, size: Point): (r: Corners<int>)
    ensures var bound, req := RadiusBound(style, size), style.radius.GetOr(Corners(0, 0, 0, 0));
            forall k | 0 <= k < 4 ::
              && CornerAt(r, k) <= bound
              && (CornerAt(req, k) <= bound ==> CornerAt(r, k) == CornerAt(req, k))
              && (CornerAt(r, k) == CornerAt(req, k) || CornerAt(r, k) == bound)
    ensures var w := size.x - EdgesOf(style.margin).Width() - EdgesOf(style.borderWidth).Width();
            var h := size.y - EdgesOf(style.margin).Height() - EdgesOf(style.borderWidth).Height();
            w >= 0 && h >= 0 ==> forall k | 0 <= k < 4 :: 2 * CornerAt(r, k) <= Min(w, h)
  {
    var bound := RadiusBound(style, size);
    var req := if style.radius.Some? then style.radius.value else Corners(0, 0, 0, 0);
    Corners(ClampRadius(req.topLeft, bound), ClampRadius(req.topRight, bound),
            ClampRadius(req.bottomRight, bound), ClampRadius(req.bottomLeft, bound))
  }

  /** On a box whose inside of margin and border is not negative, two
      clamped corners side by side never need more than that width or height. */
  lemma RadiiDoNotOverlap(style: ViewStyle, size: Point)
    requires size.x - EdgesOf(style.margin).Width() - EdgesOf(style.borderWidth).Width() >= 0
    requires size.y - EdgesOf(style.margin).Height() - EdgesOf(style.borderWidth).Height() >= 0
    ensures var r := Radii(style, size);
            var w := size.x - EdgesOf(style.margin).Width() - EdgesOf(style.borderWidth).Width();
            var h := size.y - EdgesOf(style.margin).Height() - EdgesOf(style.borderWidth).Height();
            && 2 * r.topLeft <= Min(w, h) && 2 * r.topRight <= Min(w, h)
            && 2 * r.bottomRight <= Min(w, h) && 2 * r.bottomLeft <= Min(w, h)
  {
  }

  /** The alignment anchor applied to a slack `d`: First (or unset) takes
      none of it, Last all of it, Center half of it rounded toward zero. */
  function Anchor(p: Option<Position>, d: int): (r: int)
    ensures p.None? || p == Some(First) ==> r == 0
    ensures p == Some(Last) ==> r == d
    ensures p == Some(Center) && d >= 0 ==> 0 <= d - 2 * r <= 1
    ensures p == Some(Center) && d < 0 ==> -1 <= d - 2 * r <= 0
    ensures Min(0, d) <= r <= Max(0, d)
  {
    match p
    case Some(Center) => Half(d)
    case Some(Last) => d
    case _ => 0
  }

  /** The area `Draw` records for hit-testing: the box without its margin,
      its top-left corner just inside the left and top margins. */
  function DrawnArea(style: ViewStyle, size: Point, x: int, y: int): (r: Rectangle)
    ensures r.WellFormed()
    ensures var m := EdgesOf(style.margin);
            size.x >= m.Width() && size.y >= m.Height() ==>
              && r.min == Point(x + m.left, y + m.top)
              && r.max == Point(x + size.x - m.right, y + size.y - m.bottom)
  {
    var m := EdgesOf(style.margin);
    Rect(x + m.left, y + m.top, x + m.left + size.x - m.Width(), y + m.top + size.y - m.Height())
  }

  /** The border is painted when a border colour is set, some border width
      is positive and some corner colour is not fully transparent. */
  predicate PaintsBorder(style: ViewStyle) {
    var b := EdgesOf(style.borderWidth);
    style.borderColor.Some? && (b.Width() > 0 || b.Height() > 0) && AnyOpaque(style.borderColor.value)
  }

  /** The background is painted when a background colour is set and some
      corner colour is not fully transparent. */
  predicate PaintsBackground(style: ViewStyle) {
    style.backgroundColor.Some? && AnyOpaque(style.backgroundColor.value)
  }

  predicate AnyOpaque(cs: Corners<Color>) {
    cs.topLeft.a > 0 || cs.topRight.a > 0 || cs.bottomRight.a > 0 || cs.bottomLeft.a > 0
  }

  /** Corner `k` in Go's order: top-left, top-right, bottom-right, bottom-left. */
  function CornerAt<T>(cs: Corners<T>, k: int): T
    requires 0 <= k < 4
  {
    if k == 0 then cs.topLeft else if k == 1 then cs.topRight else if k == 2 then cs.bottomRight else cs.bottomLeft
  }

  /** Where the child cursor starts, relative to the view's origin: inside
      margin, border and padding, moved by the anchors over the slack between
      box size and content size. */
  function Start(style: ViewStyle, cs: seq<Child>): Point {
    var m, b, p := EdgesOf(style.margin), EdgesOf(style.borderWidth), EdgesOf(style.padding);
    var content, size := ContentSize(style, cs), BoxSize(style, cs);
    Point(m.left + b.left + p.left + Anchor(style.positionHorizontal, size.x - content.x),
          m.top + b.top + p.top + Anchor(style.positionVertical, size.y - content.y))
  }

  /** The content size without margin, border and padding: the room the
      children are aligned in across the flow. */
  function Inner(style: ViewStyle, cs: seq<Child>): (r: Point)
    ensures r == Flow(FlowsVertically(style), cs)
  {
    var m, b, p := EdgesOf(style.margin), EdgesOf(style.borderWidth), EdgesOf(style.padding);
    var content := ContentSize(style, cs);
    Point(content.x - m.Width() - b.Width() - p.Width(), content.y - m.Height() - b.Height() - p.Height())
  }

  /** A child's offset across the flow: aligned within `Inner`; along the flow it is 0. */
  function Cross(style: ViewStyle, inner: Point, c: Child): Point {
    if FlowsVertically(style) then Point(Anchor(style.positionHorizontal, inner.x - c.size.x), 0)
    else Point(0, Anchor(style.positionVertical, inner.y - c.size.y))
  }

  /** How far along the flow the in-flow children before child `i` reach. */
  function Along(style: ViewStyle, cs: seq<Child>, i: int): Point
    requires 0 <= i <= |cs|
  {
    if FlowsVertically(style) then Point(0, SumOf(Ys(InFlow(cs[..i]))))
    else Point(SumOf(Xs(InFlow(cs[..i]))), 0)
  }

  /** Each in-flow child moves the cursor along the flow by its own size;
      a floating one does not move it. */
  lemma AlongSnoc(style: ViewStyle, cs: seq<Child>, i: int)
    requires 0 <= i < |cs|
    ensures var a, c := Along(style, cs, i), cs[i];
            Along(style, cs, i + 1) ==
              if c.floating then a
              else if FlowsVertically(style) then Point(a.x, a.y + c.size.y)
              else Point(a.x + c.size.x, a.y)
  {
    var c := cs[i];
    assert cs[..i + 1] == cs[..i] + [c];
    InFlowSnoc(cs[..i], c);
    if !c.floating {
      XsSnoc(InFlow(cs[..i]), c.size);
      SumOfSnoc(Xs(InFlow(cs[..i])), c.size.x);
      SumOfSnoc(Ys(InFlow(cs[..i])), c.size.y);
    }
  }

  /** Where child `i` is painted, for a view drawn at (x, y): the start
      cursor, plus the sizes of the earlier in-flow children along the flow,
      plus the child's own alignment across it. */
  function ChildOrigin(style: ViewStyle, cs: seq<Child>, i: int, x: int, y: int): Point
    requires 0 <= i < |cs|
  {
    var start, along, cross := Start(style, cs), Along(style, cs, i), Cross(style, Inner(style, cs), cs[i]);
    Point(x + start.x + along.x + cross.x, y + start.y + along.y + cross.y)
  }

  function ChildOrigins(style: ViewStyle, cs: seq<Child>, x: int, y: int): (r: seq<Point>)
    ensures |r| == |cs|
    ensures forall i | 0 <= i < |cs| :: r[i] == ChildOrigin(style, cs, i, x, y)
  {
    seq(|cs|, i requires 0 <= i < |cs| => ChildOrigin(style, cs, i, x, y))
  }

  /** The child loop of `Draw` (view.go:368-388), a cursor that a child
      moves along the flow by its own size unless it floats. */
  method PlaceChildren(style: ViewStyle, cs: seq<Child>, x: int, y: int) returns (origins: seq<Point>)
    ensures origins == ChildOrigins(style, cs, x, y)
  {
    var m, b, p := EdgesOf(style.margin), EdgesOf(style.borderWidth), EdgesOf(style.padding);
    var contentSize := ContentSize(style, cs);
    var size := BoxSize(style, cs);
    var vertical := FlowsVertically(style);
    var cx := m.left + b.left + p.left + Anchor(style.positionHorizontal, size.x - contentSize.x);
    var cy := m.top + b.top + p.top + Anchor(style.positionVertical, size.y - contentSize.y);
    ghost var start := Start(style, cs);
    ghost var inner := Inner(style, cs);
    assert inner == Point(contentSize.x - m.Width() - b.Width() - p.Width(), contentSize.y - m.Height() - b.Height() - p.Height());
    origins := [];
    var i := 0;
    assert cs[..0] == [];
    while i < |cs|
      invariant 0 <= i <= |cs|
      invariant |origins| == i
      invariant forall k | 0 <= k < i :: origins[k] == ChildOrigin(style, cs, k, x, y)
      invariant cx == start.x + Along(style, cs, i).x && cy == start.y + Along(style, cs, i).y
    {
      var c := cs[i];
      var ox := Anchor(style.positionHorizontal, (contentSize.x - m.Width() - b.Width() - p.Width()) - c.size.x);
      var oy := Anchor(style.positionVertical, (contentSize.y - m.Height() - b.Height() - p.Height()) - c.size.y);
      if vertical {
        oy := 0;
      } else {
        ox := 0;
      }
      assert Point(ox, oy) == Cross(style, inner, c);
      assert Point(x + cx + ox, y + cy + oy) == ChildOrigin(style, cs, i, x, y);
      origins := origins + [Point(x + cx + ox, y + cy + oy)];
      if !c.floating {
        if vertical {
          cy := cy + c.size.y;
        } else {
          cx := cx + c.size.x;
        }
      }
      AlongSnoc(style, cs, i);
      i := i + 1;
    }
  }

  /** In a vertical flow an in-flow child never sticks out to the left of
      the interior and never past its right edge: its horizontal alignment
      offset lies within the spare width. */
  lemma CrossOffsetWithinInterior(style: ViewStyle, cs: seq<Child>, i: int)
    requires FlowsVertically(style) && 0 <= i < |cs| && !cs[i].floating
    ensures var off := Cross(style, Inner(style, cs), cs[i]).x;
            0 <= off && off + cs[i].size.x <= Inner(style, cs).x
  {
    assert cs == cs[..i] + [cs[i]] + cs[i + 1..];
    InFlowAppend(cs[..i] + [cs[i]], cs[i + 1..]);
    InFlowAppend(cs[..i], [cs[i]]);
    assert [cs[i]] == [] + [cs[i]];
    InFlowSnoc([], cs[i]);
    FlowIsMaxAndSum(cs);
    var k := |InFlow(cs[..i])|;
    assert InFlow(cs)[k] == cs[i].size;
    assert Xs(InFlow(cs))[k] == cs[i].size.x;
  }

  /** In a horizontal flow an in-flow child never sticks out above the
      interior and never past its bottom edge: its vertical alignment offset
      lies within the spare height. */
  lemma CrossOffsetWithinInteriorHorizontal(style: ViewStyle, cs: seq<Child>, i: int)
    requires !FlowsVertically(style) && 0 <= i < |cs| && !cs[i].floating
    ensures var off := Cross(style, Inner(style, cs), cs[i]).y;
            0 <= off && off + cs[i].size.y <= Inner(style, cs).y
  {
    assert cs == cs[..i] + [cs[i]] + cs[i + 1..];
    InFlowAppend(cs[..i] + [cs[i]], cs[i + 1..]);
    InFlowAppend(cs[..i], [cs[i]]);
    assert [cs[i]] == [] + [cs[i]];
    InFlowSnoc([], cs[i]);
    FlowIsMaxAndSum(cs);
    var k := |InFlow(cs[..i])|;
    assert InFlow(cs)[k] == cs[i].size;
    assert Ys(InFlow(cs))[k] == cs[i].size.y;
  }

  /** With uniform margin 5, border 2 and padding 3 around one 10 by 10
      child, the content size is 30 by 30. */
  lemma UniformEdgesExample(style: ViewStyle)
    requires style.margin == Some(Edges(5, 5, 5, 5))
    requires style.borderWidth == Some(Edges(2, 2, 2, 2))
    requires style.padding == Some(Edges(3, 3, 3, 3))
    ensures ContentSize(style, [Child(Point(10, 10), false)]) == Point(30, 30)
  {
    var cs := [Child(Point(10, 10), false)];
    assert cs[..0] == [];
  }
}
