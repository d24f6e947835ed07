/** The component tree: texts, views and windows, with what every component
    answers (size, floating, children) and what painting a tree does to it
    (areas recorded, text sizes memoised). Rendering itself is not modelled;
    `Draw` returns the tree as painting leaves it. */
module Components {
  import opened Optional
  import opened Ints
  import opened Image
  import opened ViewStyles
  import opened ViewLayout
  import Texts
  import WindowLayout

  datatype Component = TextNode(text: Texts.Text) | ViewNode(view: View) | WindowNode(window: Window)

  /** A view: its children, its base style, the stack of extra styles laid
      over it, and the area recorded by the last paint. */
  datatype View = View(components: seq<Component>, style: ViewStyle, extraStyles: seq<ViewStyle>, drawnArea: Rectangle)

  datatype Window = Window(components: seq<Component>)

  // ---- views and their style stack

  /** The style a view is laid out and painted with: the extra styles laid
      over the base style, topmost last. */
  function Effective(v: View): ViewStyle {
    Merge(v.style, v.extraStyles)
  }

  /** `NewView`: the styles merged over the empty style become the base
      style; the extra stack starts empty. */
  function NewView(components: seq<Component>, styles: seq<ViewStyle>): (v: View)
    ensures v.components == components && v.extraStyles == [] && v.drawnArea == EmptyRectangle
    ensures Effective(v) == Merge(EmptyStyle, styles)
    ensures IsFloating(ViewNode(v)) <==> exists i | 0 <= i < |styles| :: styles[i].isFloating
  {
    MergeFloating(EmptyStyle, styles);
    View(components, Merge(EmptyStyle, styles), [], EmptyRectangle)
  }

  /** `PushStyle`: the style goes on top of the stack and so takes priority
      for every field it sets; nothing else about the view changes. */
  function PushStyle(v: View, s: ViewStyle): (r: View)
    ensures r.extraStyles == v.extraStyles + [s]
    ensures r.(extraStyles := v.extraStyles) == v
    ensures Effective(r) == Overlay(Effective(v), s)
  {
    MergeSnoc(v.style, v.extraStyles, s);
    v.(extraStyles := v.extraStyles + [s])
  }

  /** `PopStyle`: the top style goes; an empty stack stays empty. */
  function PopStyle(v: View): (r: View)
    ensures |v.extraStyles| > 0 ==> r.extraStyles == v.extraStyles[..|v.extraStyles| - 1]
    ensures |v.extraStyles| == 0 ==> r == v
    ensures r.(extraStyles := v.extraStyles) == v
  {
    if |v.extraStyles| > 0 then v.(extraStyles := v.extraStyles[..|v.extraStyles| - 1]) else v
  }

  /** `ReplaceStyle`: a slot inside the stack is overwritten in place; a
      position at or past the top pushes instead. A negative position is an
      index-out-of-range panic in Go, so positions are natural numbers. */
  function ReplaceStyle(v: View, position: nat, s: ViewStyle): (r: View)
    ensures position < |v.extraStyles| ==>
              && |r.extraStyles| == |v.extraStyles| && r.extraStyles[position] == s
              && forall i | 0 <= i < |v.extraStyles| && i != position :: r.extraStyles[i] == v.extraStyles[i]
    ensures position >= |v.extraStyles| ==> r.extraStyles == v.extraStyles + [s]
    ensures r.(extraStyles := v.extraStyles) == v
  {
    if position >= GetStylesCount(v) then v.(extraStyles := v.extraStyles + [s])
    else v.(extraStyles := v.extraStyles[position := s])
  }

  function GetStylesCount(v: View): nat {
    |v.extraStyles|
  }

  /** The count follows the stack: a push adds one, a pop removes one
      unless the stack is empty, and a replace adds one only when its
      position is at or past the top, however far past. */
  lemma StylesCountTracksStack(v: View, s: ViewStyle, position: nat)
    ensures GetStylesCount(PushStyle(v, s)) == GetStylesCount(v) + 1
    ensures GetStylesCount(PopStyle(v)) == Max(0, GetStylesCount(v) - 1)
    ensures position < GetStylesCount(v) ==> GetStylesCount(ReplaceStyle(v, position, s)) == GetStylesCount(v)
    ensures position >= GetStylesCount(v) ==> GetStylesCount(ReplaceStyle(v, position, s)) == GetStylesCount(v) + 1
  {
  }

  /** Popping undoes a push: push(A); push(B); pop is push(A). */
  lemma PopUndoesPush(v: View, s: ViewStyle)
    ensures PopStyle(PushStyle(v, s)) == v
  {
    assert (v.extraStyles + [s])[..|v.extraStyles|] == v.extraStyles;
  }

  /** Replacing at the top of the stack (slot 0 of an empty one) is a push. */
  lemma ReplaceAtTopIsPush(v: View, s: ViewStyle)
    ensures ReplaceStyle(v, GetStylesCount(v), s) == PushStyle(v, s)
  {
  }

  /** Replacing the same slot twice keeps only the second style: the slot
      behaves as a named state, and the stack grows by at most one. */
  lemma ReplaceSameSlot(v: View, position: nat, a: ViewStyle, b: ViewStyle)
    requires position <= GetStylesCount(v)
    ensures ReplaceStyle(ReplaceStyle(v, position, a), position, b) == ReplaceStyle(v, position, b)
    ensures GetStylesCount(ReplaceStyle(ReplaceStyle(v, position, a), position, b)) == Max(GetStylesCount(v), position + 1)
  {
    if position == |v.extraStyles| {
      assert (v.extraStyles + [a])[position := b] == v.extraStyles + [b];
    } else {
      assert v.extraStyles[position := a][position := b] == v.extraStyles[position := b];
    }
  }

  /** Past the top of the stack a replace is a push, so replacing there twice
      pushes both styles rather than keeping only the second. */
  lemma ReplacePastTopPushesBoth(v: View, position: nat, a: ViewStyle, b: ViewStyle)
    requires position > GetStylesCount(v)
    ensures ReplaceStyle(ReplaceStyle(v, position, a), position, b).extraStyles == v.extraStyles + [a, b]
    ensures a != b ==> ReplaceStyle(ReplaceStyle(v, position, a), position, b) != ReplaceStyle(v, position, b)
  {
    var once := ReplaceStyle(v, position, a);
    assert once.extraStyles == v.extraStyles + [a];
    assert once.extraStyles + [b] == v.extraStyles + [a, b];
    if a != b {
      assert (v.extraStyles + [a, b])[|v.extraStyles|] != ReplaceStyle(v, position, b).extraStyles[|v.extraStyles|];
    }
  }

  /** A view paints no border unless some style on its stack sets a border
      colour and some style sets a border width, and no background unless some
      style sets a background colour. */
  lemma UnstyledIsNotPainted(v: View)
    ensures (v.style.borderColor.None? && forall i | 0 <= i < |v.extraStyles| :: v.extraStyles[i].borderColor.None?)
              ==> !PaintsBorder(Effective(v))
    ensures (v.style.borderWidth.None? && forall i | 0 <= i < |v.extraStyles| :: v.extraStyles[i].borderWidth.None?)
              ==> !PaintsBorder(Effective(v))
    ensures (v.style.backgroundColor.None? && forall i | 0 <= i < |v.extraStyles| :: v.extraStyles[i].backgroundColor.None?)
              ==> !PaintsBackground(Effective(v))
  {
    var ss := v.extraStyles;
    if v.style.borderColor.None? && forall i | 0 <= i < |ss| :: ss[i].borderColor.None? {
      MergeColorsLastWins(v.style, ss);
      LastWins(v.style.borderColor, seq(|ss|, i requires 0 <= i < |ss| => ss[i].borderColor));
    }
    if v.style.borderWidth.None? && forall i | 0 <= i < |ss| :: ss[i].borderWidth.None? {
      MergeEdgesLastWins(v.style, ss);
      LastWins(v.style.borderWidth, seq(|ss|, i requires 0 <= i < |ss| => ss[i].borderWidth));
    }
    if v.style.backgroundColor.None? && forall i | 0 <= i < |ss| :: ss[i].backgroundColor.None? {
      MergeColorsLastWins(v.style, ss);
      LastWins(v.style.backgroundColor, seq(|ss|, i requires 0 <= i < |ss| => ss[i].backgroundColor));
    }
  }

  /** A style pushed on top of the stack decides what is painted: a visible
      background colour is painted, and so is a visible border colour with a
      positive border width or height. */
  lemma PushedStyleIsPainted(v: View, s: ViewStyle)
    ensures s.backgroundColor.Some? && AnyOpaque(s.backgroundColor.value) ==> PaintsBackground(Effective(PushStyle(v, s)))
    ensures (&& s.borderColor.Some? && AnyOpaque(s.borderColor.value) && s.borderWidth.Some?
             && (s.borderWidth.value.Width() > 0 || s.borderWidth.value.Height() > 0))
              ==> PaintsBorder(Effective(PushStyle(v, s)))
  {
  }

  // ---- what every component answers

  /** `IsFloating`: a view floats when its base style or any extra style
      floats; texts and windows never float. */
  function IsFloating(c: Component): (r: bool)
    ensures c.ViewNode? ==>
              (r <==> c.view.style.isFloating ||
                      exists i | 0 <= i < |c.view.extraStyles| :: c.view.extraStyles[i].isFloating)
    ensures !c.ViewNode? ==> !r
  {
    match c
    case ViewNode(v) => MergeFloating(v.style, v.extraStyles); Effective(v).isFloating
    case _ => false
  }

  /** `Components`: a text has none; a view and a window give theirs as they are. */
  function Children(c: Component): (r: seq<Component>)
    ensures c.TextNode? ==> r == []
    ensures c.ViewNode? ==> r == c.view.components
    ensures c.WindowNode? ==> r == c.window.components
  {
    match c
    case TextNode(_) => []
    case ViewNode(v) => v.components
    case WindowNode(w) => w.components
  }

  /** `Area`: the area recorded by a view's last paint. */
  function Area(v: View): Rectangle {
    v.drawnArea
  }

  /** `GetSize` of any component. */
  function SizeOf(c: Component, m: Texts.Metrics): Point
    decreases c, 1
  {
    match c
    case TextNode(t) => Texts.GetSize(t, m).size
    case ViewNode(v) => BoxSize(Effective(v), Infos(v.components, m))
    case WindowNode(w) => WindowLayout.Size(Sizes(Infos(w.components, m)))
  }

  /** `GetSize` of a text answers its memo when it has one. */
  lemma TextSizeIsMemo(t: Texts.Text, m: Texts.Metrics)
    requires t.size.Some?
    ensures SizeOf(TextNode(t), m) == t.size.value
  {
  }

  /** `GetSize` of a view is never smaller than its content, nor than its
      explicit width and height. */
  lemma ViewSizeBounds(v: View, m: Texts.Metrics)
    ensures var size, style := SizeOf(ViewNode(v), m), Effective(v);
            var content := ContentSize(style, Infos(v.components, m));
            && size.x >= content.x && size.y >= content.y
            && size.x >= style.width.GetOr(0) && size.y >= style.height.GetOr(0)
  {
    assert SizeOf(ViewNode(v), m) == BoxSize(Effective(v), Infos(v.components, m));
  }

  /** `GetSize` of a window is as wide as its widest child, never negative,
      and 0 by 0 when the window is empty. */
  lemma WindowSizeBounds(w: Window, m: Texts.Metrics)
    ensures var size := SizeOf(WindowNode(w), m);
            && size.x >= 0
            && (forall i | 0 <= i < |w.components| :: SizeOf(w.components[i], m).x <= size.x)
            && (|w.components| == 0 ==> size == Point(0, 0))
  {
    var sizes := Sizes(Infos(w.components, m));
    assert SizeOf(WindowNode(w), m) == WindowLayout.Size(sizes);
    forall i | 0 <= i < |w.components|
      ensures SizeOf(w.components[i], m).x <= SizeOf(WindowNode(w), m).x
    {
      assert Xs(sizes)[i] == SizeOf(w.components[i], m).x;
    }
  }

  /** What a parent reads from each child: its size and whether it floats. */
  function Infos(cs: seq<Component>, m: Texts.Metrics): (r: seq<Child>)
    ensures |r| == |cs|
    decreases cs, 0
  {
    seq(|cs|, i requires 0 <= i < |cs| => Child(SizeOf(cs[i], m), IsFloating(cs[i])))
  }

  function Sizes(infos: seq<Child>): (r: seq<Point>)
    ensures |r| == |infos| && forall i | 0 <= i < |infos| :: r[i] == infos[i].size
  {
    seq(|infos|, i requires 0 <= i < |infos| => infos[i].size)
  }

  // ---- painting

  /** `Draw` at (x, y), as the tree it leaves behind. A text memoises its
      size and records its area. A view records its area and paints each
      child at the place its layout gives. A window paints its children one
      under the other (see `WindowPaintsRunningY`). */
  function Draw(c: Component, x: int, y: int, m: Texts.Metrics): (r: Component)
    ensures c.TextNode? ==> r.TextNode? && r.text.style == c.text.style
    ensures c.ViewNode? ==> && r.ViewNode? && |r.view.components| == |c.view.components|
                            && r.view.style == c.view.style && r.view.extraStyles == c.view.extraStyles
    ensures c.WindowNode? ==> r.WindowNode? && |r.window.components| == |c.window.components|
    decreases c, 1
  {
    match c
    case TextNode(t) => TextNode(Texts.Draw(t, x, y, m).text)
    case ViewNode(v) =>
      var style := Effective(v);
      var infos := Infos(v.components, m);
      ViewNode(v.(components := DrawAt(v.components, ChildOrigins(style, infos, x, y), m),
                  drawnArea := DrawnArea(style, BoxSize(style, infos), x, y)))
    case WindowNode(w) => WindowNode(Window(DrawAt(w.components, StackOrigins(w.components, x, y, m), m)))
  }

  /** Each child painted at its own origin. */
  function DrawAt(cs: seq<Component>, origins: seq<Point>, m: Texts.Metrics): (r: seq<Component>)
    requires |origins| == |cs|
    ensures |r| == |cs|
    decreases cs, 0
  {
    seq(|cs|, i requires 0 <= i < |cs| => Draw(cs[i], origins[i].x, origins[i].y, m))
  }

  /** Where a window drawn at (x, y) puts its children: the first at (x, y),
      the rest as a window one first-child height lower. */
  function StackOrigins(cs: seq<Component>, x: int, y: int, m: Texts.Metrics): (r: seq<Point>)
    ensures |r| == |cs|
    ensures |cs| > 0 ==> r[0] == Point(x, y)
    decreases cs, 0
  {
    if |cs| == 0 then [] else [Point(x, y)] + StackOrigins(cs[1..], x, y + SizeOf(cs[0], m).y, m)
  }

  /** Painting changes neither the size of a component nor whether it
      floats, so the sizes read before painting a child are the sizes it
      has after. */
  lemma {:induction false} DrawKeepsSize(c: Component, x: int, y: int, m: Texts.Metrics)
    ensures SizeOf(Draw(c, x, y, m), m) == SizeOf(c, m)
    ensures IsFloating(Draw(c, x, y, m)) == IsFloating(c)
    decreases c, 1
  {
    match c
    case TextNode(t) =>
    case ViewNode(v) =>
      DrawAtKeepsInfos(v.components, ChildOrigins(Effective(v), Infos(v.components, m), x, y), m);
    case WindowNode(w) =>
      DrawAtKeepsInfos(w.components, StackOrigins(w.components, x, y, m), m);
  }

  lemma {:induction false} DrawAtKeepsInfos(cs: seq<Component>, origins: seq<Point>, m: Texts.Metrics)
    requires |origins| == |cs|
    ensures Infos(DrawAt(cs, origins, m), m) == Infos(cs, m)
    decreases cs, 0
  {
    var drawn := DrawAt(cs, origins, m);
    forall i | 0 <= i < |cs|
      ensures Infos(drawn, m)[i] == Infos(cs, m)[i]
    {
      DrawKeepsSize(cs[i], origins[i].x, origins[i].y, m);
    }
  }

  /** The running y of the window loop: each place is at the window's x,
      and the next is lower by the height of the child placed here. */
  lemma {:induction false} StackOriginsStep(cs: seq<Component>, x: int, y: int, m: Texts.Metrics, i: int)
    requires 0 <= i < |cs|
    ensures var o := StackOrigins(cs, x, y, m);
            && o[0] == Point(x, y) && o[i].x == x
            && (i + 1 < |cs| ==> o[i + 1].y == o[i].y + SizeOf(cs[i], m).y)
    decreases i
  {
    if i > 0 {
      StackOriginsStep(cs[1..], x, y + SizeOf(cs[0], m).y, m, i - 1);
    }
  }

  /** A window drawn at (x, y) paints child i at the window's x and a
      running y that starts at y and grows, after each child is painted, by
      the height that painted child reports. */
  lemma WindowPaintsRunningY(w: Window, x: int, y: int, m: Texts.Metrics, i: int)
    requires 0 <= i < |w.components|
    ensures var r := Draw(WindowNode(w), x, y, m);
            var o := StackOrigins(w.components, x, y, m);
            && r.WindowNode? && |r.window.components| == |w.components|
            && r.window.components[i] == Draw(w.components[i], x, o[i].y, m)
            && o[0].y == y
            && (i + 1 < |w.components| ==> o[i + 1].y == o[i].y + SizeOf(r.window.components[i], m).y)
  {
    var cs := w.components;
    StackOriginsStep(cs, x, y, m, i);
    DrawKeepsSize(cs[i], x, StackOrigins(cs, x, y, m)[i].y, m);
  }

  /** Those places are `WindowLayout.Offsets` of the children's sizes: child
      i goes at the window's x and its y plus the heights of children 0 to i-1. */
  lemma {:induction false} StackOriginsAreOffsets(cs: seq<Component>, x: int, y: int, m: Texts.Metrics)
    ensures StackOrigins(cs, x, y, m) == WindowLayout.Offsets(Sizes(Infos(cs, m)), x, y)
    decreases |cs|
  {
    if |cs| > 0 {
      var tail, below := cs[1..], y + SizeOf(cs[0], m).y;
      assert StackOrigins(cs, x, y, m) == [Point(x, y)] + StackOrigins(tail, x, below, m);
      StackOriginsAreOffsets(tail, x, below, m);
      WindowOffsetsCons(cs, x, y, m);
    }
  }

  /** The offsets of a window's children: the first at (x, y), the rest as
      in a window one first-child height lower. */
  lemma WindowOffsetsCons(cs: seq<Component>, x: int, y: int, m: Texts.Metrics)
    requires |cs| > 0
    ensures WindowLayout.Offsets(Sizes(Infos(cs, m)), x, y)
            == [Point(x, y)] + WindowLayout.Offsets(Sizes(Infos(cs[1..], m)), x, y + SizeOf(cs[0], m).y)
  {
    var sizes := Sizes(Infos(cs, m));
    assert sizes[1..] == Sizes(Infos(cs[1..], m));
    WindowLayout.OffsetsShift(sizes, x, y);
  }

  /** After a view is painted, child i of it is child i painted at the
      origin the view's layout gives it. */
  lemma ViewPaintsChildrenInPlace(v: View, x: int, y: int, m: Texts.Metrics, i: int)
    requires 0 <= i < |v.components|
    ensures var r := Draw(ViewNode(v), x, y, m);
            var o := ChildOrigin(Effective(v), Infos(v.components, m), i, x, y);
            && r.ViewNode? && |r.view.components| == |v.components|
            && r.view.components[i] == Draw(v.components[i], o.x, o.y, m)
  {
  }

  /** `Area` is what the last paint recorded: changing the style stack does
      not move it until the view is painted again. */
  lemma StyleChangesKeepArea(v: View, s: ViewStyle, position: nat)
    ensures Area(PushStyle(v, s)) == Area(v)
    ensures Area(PopStyle(v)) == Area(v)
    ensures Area(ReplaceStyle(v, position, s)) == Area(v)
  {
  }

  /** After a view is painted, the area it records (the hit-test area) is
      its box without the margin, taken at its size before painting. */
  lemma ViewRecordsArea(v: View, x: int, y: int, m: Texts.Metrics)
    ensures var r := Draw(ViewNode(v), x, y, m);
            && r.ViewNode?
            && Area(r.view) == DrawnArea(Effective(v), SizeOf(ViewNode(v), m), x, y)
            && Area(r.view).WellFormed()
            && r.view.style == v.style && r.view.extraStyles == v.extraStyles
  {
  }
}
