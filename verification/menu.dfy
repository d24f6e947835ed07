/** Hit-testing of the menu example: which of a list of painted cells the
    cursor is over. The cursor position is a parameter. */
module Menu {
  import opened Optional
  import opened Image
  import opened Components
  import Texts

  /** `CheckPointInArea`: inside, with all four edges included. */
  function CheckPointInArea(px: int, py: int, minPoint: Point, maxPoint: Point): (r: bool)
    ensures r ==> minPoint.x <= maxPoint.x && minPoint.y <= maxPoint.y
  {
    minPoint.x <= px && px <= maxPoint.x && minPoint.y <= py && py <= maxPoint.y
  }

  /** Go's own `Point.In`, which leaves out the right and bottom edges. */
  predicate InHalfOpen(p: Point, r: Rectangle) {
    r.min.x <= p.x < r.max.x && r.min.y <= p.y < r.max.y
  }

  /** The area test is `Point.In` on the area grown by one pixel to the
      right and downwards: the far edges count as inside. */
  lemma ClosedEdges(p: Point, r: Rectangle)
    requires r.WellFormed()
    ensures CheckPointInArea(p.x, p.y, r.min, r.max) <==> InHalfOpen(p, Rect(r.min.x, r.min.y, r.max.x + 1, r.max.y + 1))
  {
  }

  /** All four corners of a well-formed area are inside it. */
  lemma CornersInside(r: Rectangle)
    requires r.WellFormed()
    ensures CheckPointInArea(r.min.x, r.min.y, r.min, r.max)
    ensures CheckPointInArea(r.max.x, r.min.y, r.min, r.max)
    ensures CheckPointInArea(r.min.x, r.max.y, r.min, r.max)
    ensures CheckPointInArea(r.max.x, r.max.y, r.min, r.max)
  {
  }

  /** Only a point outside the area is refused: each refusal names an edge
      the point lies beyond. */
  lemma OutsideIsBeyondAnEdge(px: int, py: int, minPoint: Point, maxPoint: Point)
    requires !CheckPointInArea(px, py, minPoint, maxPoint)
    ensures px < minPoint.x || maxPoint.x < px || py < minPoint.y || maxPoint.y < py
  {
  }

  /** Whether the cursor is over a cell, by the area of its last paint. */
  predicate Hovered(cell: View, cursor: Point) {
    CheckPointInArea(cursor.x, cursor.y, Area(cell).min, Area(cell).max)
  }

  /** `FindHoveredCell`: the first cell under the cursor and its index, or
      -1 and no cell when the cursor is over none of them. */
  method FindHoveredCell(cells: seq<View>, cursor: Point) returns (index: int, cell: Option<View>)
    ensures -1 <= index < |cells|
    ensures index == -1 <==> cell == None
    ensures index == -1 <==> forall j | 0 <= j < |cells| :: !Hovered(cells[j], cursor)
    ensures 0 <= index ==> cell == Some(cells[index]) && Hovered(cells[index], cursor)
    ensures forall j | 0 <= j < index :: !Hovered(cells[j], cursor)
  {
    var j := 0;
    while j < |cells|
      invariant 0 <= j <= |cells|
      invariant forall k | 0 <= k < j :: !Hovered(cells[k], cursor)
    {
      var area := Area(cells[j]);
      if CheckPointInArea(cursor.x, cursor.y, area.min, area.max) {
        return j, Some(cells[j]);
      }
      j := j + 1;
    }
    return -1, None;
  }

  /** A painted view is hovered when the cursor sits on the top-left corner
      of the area its paint recorded. */
  lemma PaintedViewHoveredAtCorner(v: View, x: int, y: int, m: Texts.Metrics)
    ensures var painted := Draw(ViewNode(v), x, y, m).view;
            Hovered(painted, Area(painted).min)
  {
    ViewRecordsArea(v, x, y, m);
  }
}
