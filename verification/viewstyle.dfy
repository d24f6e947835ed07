/** The box style of view.go: a record of nullable fields, merged
    field by field with the last present override winning, and the
    floating flag OR-ed. */
module ViewStyles {
  import opened Optional
  import opened Image

  datatype Direction = Horizontal | Vertical

  datatype Position = First | Center | Last

  /** An edge quad in CSS order: top, right, bottom, left (resolved pixels). */
  datatype Edges = Edges(top: int, right: int, bottom: int, left: int) {
    /** What the quad adds to a width. */
    function Width(): int { left + right }
    /** What the quad adds to a height. */
    function Height(): int { top + bottom }
  }

  const NoEdges := Edges(0, 0, 0, 0)

  /** A corner quad: top-left, top-right, bottom-right, bottom-left. */
  datatype Corners<T> = Corners(topLeft: T, topRight: T, bottomRight: T, bottomLeft: T)

  datatype ViewStyle = ViewStyle(
    backgroundColor: Option<Corners<Color>>,
    borderColor: Option<Corners<Color>>,
    padding: Option<Edges>,
    margin: Option<Edges>,
    borderWidth: Option<Edges>,
    radius: Option<Corners<int>>,
    width: Option<int>,
    height: Option<int>,
    direction: Option<Direction>,
    positionHorizontal: Option<Position>,
    positionVertical: Option<Position>,
    isFloating: bool)

  /** `ViewStyle{}`: nothing set, not floating. */
  const EmptyStyle := ViewStyle(None, None, None, None, None, None, None, None, None, None, None, false)

  /** One iteration of the merge loop: `style` laid over `target`. */
  function Overlay(target: ViewStyle, style: ViewStyle): ViewStyle {
    ViewStyle(
      Pick(target.backgroundColor, style.backgroundColor),
      Pick(target.borderColor, style.borderColor),
      Pick(target.padding, style.padding),
      Pick(target.margin, style.margin),
      Pick(target.borderWidth, style.borderWidth),
      Pick(target.radius, style.radius),
      Pick(target.width, style.width),
      Pick(target.height, style.height),
      Pick(target.direction, style.direction),
      Pick(target.positionHorizontal, style.positionHorizontal),
      Pick(target.positionVertical, style.positionVertical),
      target.isFloating || style.isFloating)
  }

  /** `mergeViewStyle`: the styles laid over `target` in list order. */
  function Merge(target: ViewStyle, styles: seq<ViewStyle>): ViewStyle
    decreases |styles|
  {
    if |styles| == 0 then target
    else Overlay(Merge(target, styles[..|styles| - 1]), styles[|styles| - 1])
  }

  /** Merging one more style is laying it over the merge of the others. */
  lemma MergeSnoc(target: ViewStyle, styles: seq<ViewStyle>, style: ViewStyle)
    ensures Merge(target, styles + [style]) == Overlay(Merge(target, styles), style)
  {
    assert (styles + [style])[..|styles|] == styles;
  }

  /** The merged floating flag is the target's OR any style's: once some
      style floats, the merge floats, whatever the order. */
  lemma {:induction false} MergeFloating(target: ViewStyle, styles: seq<ViewStyle>)
    ensures Merge(target, styles).isFloating <==>
            target.isFloating || exists i | 0 <= i < |styles| :: styles[i].isFloating
    decreases |styles|
  {
    if |styles| > 0 {
      var n := |styles| - 1;
      MergeFloating(target, styles[..n]);
      assert forall i | 0 <= i < n :: styles[..n][i] == styles[i];
      if styles[n].isFloating {
        assert exists i | 0 <= i < |styles| :: styles[i].isFloating;
      }
    }
  }

  /** The colour and radius fields of the merge: the last present value among
      the styles, or the target's own. */
  lemma {:induction false} MergeColorsLastWins(target: ViewStyle, styles: seq<ViewStyle>)
    ensures var r := Merge(target, styles);
      && r.backgroundColor == LastPresent(target.backgroundColor, seq(|styles|, i requires 0 <= i < |styles| => styles[i].backgroundColor))
      && r.borderColor == LastPresent(target.borderColor, seq(|styles|, i requires 0 <= i < |styles| => styles[i].borderColor))
      && r.radius == LastPresent(target.radius, seq(|styles|, i requires 0 <= i < |styles| => styles[i].radius))
    decreases |styles|
  {
    if |styles| > 0 {
      var n := |styles| - 1;
      var front := styles[..n];
      MergeColorsLastWins(target, front);
      assert seq(|front|, i requires 0 <= i < |front| => front[i].backgroundColor) == seq(|styles|, i requires 0 <= i < |styles| => styles[i].backgroundColor)[..n];
      assert seq(|front|, i requires 0 <= i < |front| => front[i].borderColor) == seq(|styles|, i requires 0 <= i < |styles| => styles[i].borderColor)[..n];
      assert seq(|front|, i requires 0 <= i < |front| => front[i].radius) == seq(|styles|, i requires 0 <= i < |styles| => styles[i].radius)[..n];
    }
  }

  /** The edge fields of the merge (padding, margin, border width): the last
      present value among the styles, or the target's own. */
  lemma {:induction false} MergeEdgesLastWins(target: ViewStyle, styles: seq<ViewStyle>)
    ensures var r := Merge(target, styles);
      && r.padding == LastPresent(target.padding, seq(|styles|, i requires 0 <= i < |styles| => styles[i].padding))
      && r.margin == LastPresent(target.margin, seq(|styles|, i requires 0 <= i < |styles| => styles[i].margin))
      && r.borderWidth == LastPresent(target.borderWidth, seq(|styles|, i requires 0 <= i < |styles| => styles[i].borderWidth))
    decreases |styles|
  {
    if |styles| > 0 {
      var n := |styles| - 1;
      var front := styles[..n];
      MergeEdgesLastWins(target, front);
      assert seq(|front|, i requires 0 <= i < |front| => front[i].padding) == seq(|styles|, i requires 0 <= i < |styles| => styles[i].padding)[..n];
      assert seq(|front|, i requires 0 <= i < |front| => front[i].margin) == seq(|styles|, i requires 0 <= i < |styles| => styles[i].margin)[..n];
      assert seq(|front|, i requires 0 <= i < |front| => front[i].borderWidth) == seq(|styles|, i requires 0 <= i < |styles| => styles[i].borderWidth)[..n];
    }
  }

  /** The size, direction and position fields of the merge: the last present
      value among the styles, or the target's own. */
  lemma {:induction false} MergePlacementLastWins(target: ViewStyle, styles: seq<ViewStyle>)
    ensures var r := Merge(target, styles);
      && r.width == LastPresent(target.width, seq(|styles|, i requires 0 <= i < |styles| => styles[i].width))
      && r.height == LastPresent(target.height, seq(|styles|, i requires 0 <= i < |styles| => styles[i].height))
      && r.direction == LastPresent(target.direction, seq(|styles|, i requires 0 <= i < |styles| => styles[i].direction))
      && r.positionHorizontal == LastPresent(target.positionHorizontal, seq(|styles|, i requires 0 <= i < |styles| => styles[i].positionHorizontal))
      && r.positionVertical == LastPresent(target.positionVertical, seq(|styles|, i requires 0 <= i < |styles| => styles[i].positionVertical))
    decreases |styles|
  {
    if |styles| > 0 {
      var n := |styles| - 1;
      var front := styles[..n];
      MergePlacementLastWins(target, front);
      assert seq(|front|, i requires 0 <= i < |front| => front[i].width) == seq(|styles|, i requires 0 <= i < |styles| => styles[i].width)[..n];
      assert seq(|front|, i requires 0 <= i < |front| => front[i].height) == seq(|styles|, i requires 0 <= i < |styles| => styles[i].height)[..n];
      assert seq(|front|, i requires 0 <= i < |front| => front[i].direction) == seq(|styles|, i requires 0 <= i < |styles| => styles[i].direction)[..n];
      assert seq(|front|, i requires 0 <= i < |front| => front[i].positionHorizontal) == seq(|styles|, i requires 0 <= i < |styles| => styles[i].positionHorizontal)[..n];
      assert seq(|front|, i requires 0 <= i < |front| => front[i].positionVertical) == seq(|styles|, i requires 0 <= i < |styles| => styles[i].positionVertical)[..n];
    }
  }

  /** Each nullable field of the merge is the last present value among the
      styles, or the target's own when no style sets it (see `LastPresent` and
      `LastWins`). */
  lemma MergeLastWins(target: ViewStyle, styles: seq<ViewStyle>)
    ensures var r := Merge(target, styles);
      && r.backgroundColor == LastPresent(target.backgroundColor, seq(|styles|, i requires 0 <= i < |styles| => styles[i].backgroundColor))
      && r.borderColor == LastPresent(target.borderColor, seq(|styles|, i requires 0 <= i < |styles| => styles[i].borderColor))
      && r.padding == LastPresent(target.padding, seq(|styles|, i requires 0 <= i < |styles| => styles[i].padding))
      && r.margin == LastPresent(target.margin, seq(|styles|, i requires 0 <= i < |styles| => styles[i].margin))
      && r.borderWidth == LastPresent(target.borderWidth, seq(|styles|, i requires 0 <= i < |styles| => styles[i].borderWidth))
      && r.radius == LastPresent(target.radius, seq(|styles|, i requires 0 <= i < |styles| => styles[i].radius))
      && r.width == LastPresent(target.width, seq(|styles|, i requires 0 <= i < |styles| => styles[i].width))
      && r.height == LastPresent(target.height, seq(|styles|, i requires 0 <= i < |styles| => styles[i].height))
      && r.direction == LastPresent(target.direction, seq(|styles|, i requires 0 <= i < |styles| => styles[i].direction))
      && r.positionHorizontal == LastPresent(target.positionHorizontal, seq(|styles|, i requires 0 <= i < |styles| => styles[i].positionHorizontal))
      && r.positionVertical == LastPresent(target.positionVertical, seq(|styles|, i requires 0 <= i < |styles| => styles[i].positionVertical))
  {
    MergeColorsLastWins(target, styles);
    MergeEdgesLastWins(target, styles);
    MergePlacementLastWins(target, styles);
  }

  /** The two forms of the law for one field, padding: a style that sets it
      with no later style setting it decides it; no style setting it leaves
      the target's. */
  lemma PaddingLastWins(target: ViewStyle, styles: seq<ViewStyle>)
    ensures (forall i | 0 <= i < |styles| :: styles[i].padding.None?) ==>
            Merge(target, styles).padding == target.padding
    ensures forall i | 0 <= i < |styles| && styles[i].padding.Some? &&
                       (forall j | i < j < |styles| :: styles[j].padding.None?) ::
              Merge(target, styles).padding == styles[i].padding
  {
    var paddings := seq(|styles|, i requires 0 <= i < |styles| => styles[i].padding);
    MergeEdgesLastWins(target, styles);
    LastWins(target.padding, paddings);
    forall i | 0 <= i < |styles| && styles[i].padding.Some? &&
               (forall j | i < j < |styles| :: styles[j].padding.None?)
      ensures Merge(target, styles).padding == styles[i].padding
    {
      assert paddings[i].Some? && forall j | i < j < |styles| :: paddings[j].None?;
    }
  }
}
