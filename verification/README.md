# game-ui layout core in Dafny

game-ui is a small retained-mode UI library for the Ebiten game engine. A
screen is a tree of components. A **Text** is a string with a colour, a line
height, a font and an optional maximum width. A **View** is a box: it has
children, a base style, a stack of extra styles, padding, margin, border,
rounded corners and alignment. A **Window** is a bare vertical stack. Each
component reports its size, whether it floats (floating children take no
room in their parent's flow), and its children. It can be drawn at a
position. After a draw, a view records the area it covers, and the menu
example uses that area to hit-test the cursor.

This project models the integer layout core of the library as pure
functions over immutable data:

- `optional.dfy` (`Optional`): nullable fields as `Option`, and the "last
  present value wins" law behind every style merge.
- `ints.dfy` (`Ints`): max/min, Go's truncating halving, and the running
  maximum and sum over a list.
- `image.dfy` (`Image`): points, Go's `image.Rect` (which swaps its corners
  into order), and 8-bit RGBA colours.
- `colorcode.dfy` (`ColorCodes`): the `#RGB` / `#RRGGBB` / `#RRGGBBAA`
  parser of `base.go`, plus an encoder for the round trip.
- `viewstyle.dfy` (`ViewStyles`): `ViewStyle` and `mergeViewStyle`.
- `viewlayout.dfy` (`ViewLayout`): content size, box size, corner radii,
  alignment anchors, the recorded area and child placement of a view.
- `text.dfy` (`Texts`): text styles, `NewText`, word-free character
  wrapping, the memoised `GetSize`, `ChangeText` and `Draw`.
- `window.dfy` (`WindowLayout`): a window's size and where it stacks its
  children.
- `components.dfy` (`Components`): the tree itself, a view's style stack,
  `IsFloating`, `Components`, `Area`, sizes over the whole tree, and `Draw`
  as the tree that painting leaves behind.
- `menu.dfy` (`Menu`): `CheckPointInArea` and `FindHoveredCell` from
  `example/menu/util.go`.

Sizes are resolved pixel counts. The unit parser (`calcSize`, `sizeSeg`) is
not part of this model, so every padding, margin, border, width, height and
line height is already an `int`. Font measurement is a parameter
(`Texts.Metrics`): `advance` is the width the font library reports for a
string in a face, and `extent` is the width it reports at a given line
height. The cursor position is a parameter of `FindHoveredCell`. Go's
mutation of components during `GetSize` and `Draw` is modelled by returning
the updated value. A window's `Draw` is written as drawing child i at the
i-th place of `Components.StackOrigins`, where the heights are read before
drawing. Go's loop reads each height after drawing the child (window.go:33).
`Components.WindowPaintsRunningY` shows that the two give the same places in
this model, because here drawing never changes a size
(`Components.DrawKeepsSize`). That equality holds only because the model has
no viewport. In Go, `View.Draw` stores the screen size in `screenSize`
(view.go:182), and `GetSize` resolves edges, width and height against it
(view.go:147, view.go:161, view.go:165). So a view sized in viewport units,
such as the start menu's `Vw(1)` by `Vh(1)` view (example/start_menu.go:26-27),
can report one size before its first paint and another after it.

A corner radius is clamped to half the smaller inner side, and view.go:215
halves with Go's truncating `/=`. For a negative inner size (margin and
border larger than the box) the bound therefore rounds toward zero, not
down. `ViewLayout.RadiusBound` uses `Ints.Half`, which truncates.

## Model

| member | source | states |
|---|---|---|
| Optional.LastWins | view.go:48-86 | A field merged over a list of optional overrides is the last present override, or the base value when none is present. It is absent only if the base and every override are absent. |
| Ints.Half | view.go:215 | Halving rounds toward zero: for n ≥ 0 the remainder n − 2r is 0 or 1, and for n < 0 it is 0 or −1. |
| Image.Rect | view.go:248 | The rectangle built from two corners always has min ≤ max. Its min is the smaller and its max the larger coordinate on each axis. |
| ColorCodes.ColorCodeToColor | base.go:27-62 | A code gives a colour exactly when it is 4, 7 or 9 bytes long; any other length panics. The 4- and 7-byte forms are always opaque. |
| ColorCodes.ShortForm | base.go:34-39 | `#RGB` with hex digits gives each channel as its digit times 17, with alpha 255. |
| ColorCodes.LongForm | base.go:40-45 | `#RRGGBB` gives the three digit pairs as R, G and B, with alpha 255. |
| ColorCodes.AlphaForm | base.go:46-51 | `#RRGGBBAA` gives the four digit pairs as R, G, B and A. |
| ColorCodes.ShortFormDoublesDigits | base.go:34-45 | `#abc` is the same colour as `#aabbcc`. |
| ColorCodes.BadDigitGivesZero | base.go:32 | One non-hex digit makes the parse fail, so the number is 0. The result is black, transparent in the 9-byte form and opaque otherwise. |
| ColorCodes.CodeRoundTrip | base.go:27-62 | Parsing the lower-case code of any colour gives that colour back. |
| ViewStyles.MergeSnoc | view.go:48-86 | Merging one more style lays it over the merge of the styles before it. |
| ViewStyles.MergeFloating | view.go:83 | The merged style floats exactly when the target or some style floats. A later style cannot clear the flag. |
| ViewStyles.MergeLastWins | view.go:48-82 | Each of the eleven nullable fields of a merge is the last value any style sets, or the target's value if no style sets it. |
| ViewStyles.PaddingLastWins | view.go:53-55 | For padding: with no style setting it, the target's padding stays. Otherwise the last style that sets it decides. |
| ViewLayout.InFlowAppend | view.go:126-129 | The children taking part in a flow are the in-flow children of each part, in order. Floating ones are dropped. |
| ViewLayout.FlowIsMaxAndSum | view.go:126-142 | A vertical flow is as wide as the widest in-flow child and as tall as their heights added up. A horizontal flow is the same with the axes swapped. |
| ViewLayout.FlowDuality | view.go:131-141 | A horizontal flow equals the transposed vertical flow of the transposed children. |
| ViewLayout.FloatingChildIgnored | view.go:127-129 | Inserting a floating child anywhere leaves the content size unchanged. |
| ViewLayout.ContentSize | view.go:123-152 | The content size is the flow of the children plus the left+right and top+bottom of padding, margin and border. An unset quad adds nothing. |
| ViewLayout.UniformEdgesExample | view.go:143-150 | Margin 5, border 2 and padding 3 on all sides around one 10×10 child give 30×30. |
| ViewLayout.BoxSize | view.go:154-174 | The box is at least the content size and at least the explicit width and height. Each side equals one of them. |
| ViewLayout.ClampRadius | view.go:216-227 | A clamped radius never exceeds the bound. A request within the bound is kept; any other request becomes the bound. |
| ViewLayout.Radii | view.go:193-227 | No corner radius exceeds half the smaller side inside margin and border (rounded toward zero). A requested radius (0 when unset) within that bound is kept, and any other becomes the bound. When that inside is not negative, twice any radius fits in its smaller side. |
| ViewLayout.RadiiDoNotOverlap | view.go:211-227 | On a box whose inside of margin and border is not negative, the radii of two corners on one side add up to at most that side. |
| ViewLayout.Anchor | view.go:229-245 | Alignment of a slack d: First or unset gives 0, Last gives d, and Center gives half of d rounded toward zero. The offset always lies between 0 and d. |
| ViewLayout.DrawnArea | view.go:247-248 | The recorded area is always well-formed. When the box is at least as large as its margins, the area starts after the top-left margin and spans the box without its margin. |
| ViewLayout.Inner | view.go:372-373 | The room children are aligned in (content size minus padding, margin and border) is exactly the children's flow. |
| ViewLayout.AlongSnoc | view.go:383-387 | The placement cursor moves along the flow by each in-flow child's size. A floating child does not move it. |
| ViewLayout.ChildOrigins | view.go:368-388 | One origin per child; origin i is the start plus the sizes of the earlier in-flow children along the flow, plus the cross-axis alignment offset. |
| ViewLayout.PlaceChildren | view.go:368-388 | The cursor loop of `Draw` produces exactly `ChildOrigins`. |
| ViewLayout.CrossOffsetWithinInterior | view.go:372-378 | In a vertical flow, an in-flow child's horizontal alignment offset lies between 0 and the free width beside it. |
| ViewLayout.CrossOffsetWithinInteriorHorizontal | view.go:372-378 | In a horizontal flow, an in-flow child's vertical alignment offset lies between 0 and the free height beside it. |
| Texts.MergeLastWins | text.go:47-63 | Each text style field of a merge is the last value any style sets, or the target's value. |
| Texts.NewText | text.go:65-77 | A new text has the given string and no memoised size. Its colour, line height and font are the last ones the styles set, else white, 12 and the default font. Its width is the last one set, else none. |
| Texts.WrapStep | text.go:86-100 | A character that overflows a non-empty line finishes that line and starts the next one. A lone too-wide character becomes a line of its own. A character that fits extends the line. Finished lines are never changed. |
| Texts.WrapText | text.go:83-105 | The wrap loop, building its string directly, gives the finished lines each followed by a break, then the last line. |
| Texts.WrapKeepsCharacters | text.go:84-104 | Wrapping keeps every character in order: the lines run together are the original string. |
| Texts.WrapLinesFit | text.go:88-99 | Every finished line is non-empty. Each fits the width unless it is a single character. |
| Texts.WrapUnchangedWhenFits | text.go:83-105 | A string whose every prefix fits the width is not wrapped at all. |
| Texts.WrapAddsBreaks | text.go:84-104 | The wrapped string is the original characters plus one line break per finished line. |
| Texts.WrapTrailingBreak | text.go:89-103 | When the last character was too wide for any line, the wrapped string ends with a line break. That break counts as one more line of height. |
| Texts.GetSize | text.go:79-115 | A memoised size is returned unchanged. Otherwise the string is wrapped when a width is set, the size is memoised, and the height is the line count times the line height. |
| Texts.SizeIsMemoised | text.go:80-82 | Asking for the size a second time changes nothing and gives the same answer. |
| Texts.HeightCountsLines | text.go:107-113 | When the text is wrapped, its height is the number of wrapped lines times the line height. |
| Texts.ChangeText | text.go:132-135 | Changing the text replaces the string and drops the memoised size. Style and area are kept. |
| Texts.ChangeTextRecomputes | text.go:132-135 | After `ChangeText`, the size depends only on the new string and the style, not on the old string or memo. |
| Texts.Draw | text.go:117-130 | Drawing memoises the size and records the area from (x, y) spanning the size. The glyphs go at x plus the font's x adjustment, and at y plus the line height minus its truncated half plus the y adjustment. |
| WindowLayout.GetSize | window.go:17-27 | A window is as wide as its widest child, and never less than 0, and as tall as all children together. An empty window is 0×0. |
| WindowLayout.DrawOffsets | window.go:29-35 | The running-y loop draws child i at the window's x and its y plus the heights of children 0 to i−1. |
| WindowLayout.OffsetsStack | window.go:29-35 | Children are stacked without gap or overlap, and the last one ends at the bottom of the window. |
| WindowLayout.OffsetsShift | window.go:29-35 | Drawing a window is drawing its first child at (x, y) and the rest as a window one first-child height lower. |
| Components.NewView | view.go:88-91 | A new view has the given children, an empty style stack and no area. Its style is the styles merged over the empty style, and it floats exactly when one of them floats. |
| Components.PushStyle | view.go:100-102 | The style goes on top of the stack, and nothing else changes. The effective style becomes the pushed style laid over the previous effective style. |
| Components.PopStyle | view.go:103-107 | The top style is removed; popping an empty stack changes nothing. |
| Components.ReplaceStyle | view.go:108-114 | A position inside the stack overwrites that slot only. A position at or past the top pushes. |
| Components.PopUndoesPush | view.go:100-107 | Push then pop gives back the original view. |
| Components.ReplaceAtTopIsPush | view.go:108-117 | Replacing at the stack count (slot 0 of an empty stack) is a push. |
| Components.ReplaceSameSlot | view.go:108-117 | For a position at most the stack count, replacing the same slot twice keeps only the second style, and the stack grows to max(count, position + 1). |
| Components.ReplacePastTopPushesBoth | view.go:108-114 | For a position past the stack count, each replace pushes, so replacing twice leaves both styles on the stack. |
| Components.UnstyledIsNotPainted | view.go:251-256 | A view paints no border unless some style on its stack sets a border colour and some style sets a border width, and no background (view.go:315-320) unless some style sets a background colour. |
| Components.PushedStyleIsPainted | view.go:315-320 | A pushed style with a visible background colour makes the view paint its background. A visible border colour with a positive border width or height makes it paint its border (view.go:251-256). |
| Components.StylesCountTracksStack | view.go:115-117 | `GetStylesCount` follows the stack: a push adds one, a pop removes one unless the stack is empty, and a replace adds one exactly when its position is at or past the top. |
| Components.IsFloating | view.go:391-394 | A view floats exactly when its base style or one of its extra styles floats. Texts and windows never float (text.go:137-139, window.go:37-39). |
| Components.Children | view.go:396-398 | A text has no children (text.go:141-143). Views and windows give their own children (window.go:41-43). |
| Components.TextSizeIsMemo | text.go:79-82 | `GetSize` of a text with a memoised size answers that size. |
| Components.ViewSizeBounds | view.go:154-174 | `GetSize` of a view is at least its content size, and at least its explicit width and height. |
| Components.WindowSizeBounds | window.go:17-27 | `GetSize` of a window is never negative in width, at least as wide as each child, and 0×0 when the window is empty. |
| Components.Draw | view.go:176-388 | Drawing keeps the kind of a component and its number of children. A view keeps its base style and style stack, and a text keeps its style. |
| Components.StackOrigins | window.go:29-35 | A window gives one place per child, and the first child goes at the window's own (x, y). |
| Components.DrawKeepsSize | window.go:32-33 | Drawing changes neither a component's size nor whether it floats. So sizes read before drawing a child equal those read after. |
| Components.DrawAtKeepsInfos | view.go:370-388 | Drawing children at any origins leaves what the parent reads from them unchanged. |
| Components.StackOriginsStep | window.go:29-35 | The places a window gives its children are all at its x. The first is at its y, and each next one is lower by the height of the child before it. |
| Components.WindowPaintsRunningY | window.go:29-35 | After a window is drawn, it has as many children as before, and child i is that child drawn at the window's x and a running y. The running y starts at the window's y and grows by the height the drawn child reports, read after drawing as the loop does. |
| Components.StackOriginsAreOffsets | window.go:29-35 | Those places are `WindowLayout.Offsets` of the children's sizes: child i goes at the window's x, and at its y plus the heights of children 0 to i−1. |
| Components.ViewPaintsChildrenInPlace | view.go:368-388 | After a view is drawn, child i is that child drawn at the origin the view's layout gives it. |
| Components.ViewRecordsArea | view.go:247-248 | After a view is drawn, its area is the box without margin at its size, is well-formed, and the styles are unchanged. |
| Components.StyleChangesKeepArea | view.go:400-402 | `Area` is the area recorded by the last paint. Pushing, popping or replacing a style does not move it until the view is drawn again. |
| Menu.CheckPointInArea | example/menu/util.go:21-23 | A point can be inside only a non-inverted area. |
| Menu.ClosedEdges | example/menu/util.go:21-23 | The test includes the right and bottom edges. It equals Go's half-open `Point.In` on the area grown by one pixel right and down. |
| Menu.CornersInside | example/menu/util.go:21-23 | All four corners of a well-formed area are inside it. |
| Menu.OutsideIsBeyondAnEdge | example/menu/util.go:21-23 | A refused point lies beyond one of the four edges. |
| Menu.FindHoveredCell | example/menu/util.go:9-19 | Gives the first cell whose area holds the cursor, with its index. Gives −1 and no cell exactly when none does. |
| Menu.PaintedViewHoveredAtCorner | example/menu/util.go:9-19 | A drawn view is hovered when the cursor is on the top-left corner of the area it recorded. |

## Left out

- Path geometry and rasterising (view.go:250-366): the rounded-rectangle paths, anti-aliasing, vertex colouring and triangle submission. Only the integer inputs to it are modelled: radii, area and anchors. Whether a border or background is painted at all is modelled by `PaintsBorder` and `PaintsBackground`.
- Colours are 8-bit `color.RGBA` values, which is what `ColorCode` produces. Go's style fields hold any `color.Color`, and the paint decisions test the 16-bit alpha of `RGBA()` (view.go:251-255, view.go:316-320). Other colour models are not represented. For `color.RGBA`, `a > 0` here agrees with `RGBA()` alpha > 0, since that alpha is `a * 0x101`.
- `mixColorCode` (view.go:93-99): floating-point blending of corner colours for gradients. Floating point is not modelled.
- Font rendering and measurement (`text.BoundString`, `text.DrawWithOptions`) are foreign calls. They appear only as the `Metrics` parameter. `NewTextFont` just wraps a font face, so it is the `TextFont` constructor.
- `calcSize`, `sizeSeg`, `getSizePx` and the viewport (`screenSize`) are not part of this model, so sizes are resolved ints. In the source, `View.Draw` sets `screenSize` (view.go:182) and `GetSize` reads it, so a view in viewport units can change size at its first paint. A parent also reads its children's sizes before drawing them (view.go:130, view.go:371), so on a first frame it lays them out against a viewport they have not yet seen. None of this ordering is modelled, and `Components.DrawKeepsSize` holds only because of that.
- Components.ReplaceStyle: a negative position is an index-out-of-range panic in Go (view.go:112). The position is a natural number, so that panic is not modelled.
- A Go view is a pointer (`NewView` returns `&viewComponent{...}`, view.go:88-91), so the example's menu hit-tests `startMenuItems` (example/start_menu.go:73-74), the same views it draws inside its window (example/start_menu.go:207). Datatype values cannot share, so a caller must read the drawn views back out of the tree that `Components.Draw` returns.
- Go's `int` is 64 bits wide. Integers here are unbounded, and overflow in sizes, sums and colour arithmetic is not modelled.
- `Direction` and `Position` are closed enumerations here. Go's are strings and accept any value. An unknown direction flows horizontally (view.go:131, view.go:374), and an unknown position anchors like `First` (view.go:229-242).
- `NewWindow` (window.go:13-15) only stores its argument, so it is the `Window` constructor.
- The package `init` (filling a blank image white) and the example's scenes, input handling and game loop are plumbing.
- Texts.GetSize: Go memoises the size inside any `GetSize` call, for example when a parent measures its children. The model records the memo only on the text that is returned (and, in a tree, when the text is drawn). A repeated measurement gives the same value either way (`SizeIsMemoised`).
- Texts.WrapStep: works on characters, while Go's `len(line) == 0` counts bytes. The two agree because the code only asks whether the line is empty. Strings are modelled as sequences of Unicode code points, so valid UTF-8 is assumed. Go's `range` over a string (text.go:86) turns each invalid byte into U+FFFD, which `string(_char)` writes back as three bytes, so in Go wrapping rewrites such a string. That substitution is not modelled, and `Texts.WrapKeepsCharacters` holds only for valid UTF-8.
- Texts.GetSize: the wrapped string replaces the original once. A later change of width does not re-wrap from the original string, and the model keeps this.
- ColorCodes.ColorCodeToColor: `strconv.ParseInt` range errors are not modelled, since a colour code has at most 8 digits. The code's first byte is skipped without being checked, as in the source.
- Components.Area: a window has no area in the source, so `Area` is defined on views only. A text records its area in `Texts.Draw`.
- ViewLayout.Anchor: Go scales by the float factors 0, 0.5 and 1 and truncates. The model uses exact integer halving, which agrees for all slacks below 2^53.
