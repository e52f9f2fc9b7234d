/** The icon node shape's pure rules: its anchor points, the wrapper style
    chosen from the node's states, and the parameters its label is wrapped
    with. Drawing itself belongs to the host engine. */
module IconNode {
  import opened Js
  import opened Items
  import LabelWrap

  /** The fixed size of the node's key shape. */
  const KeyShapeWidth: real := 60.0
  const KeyShapeHeight: real := 60.0

  const DefaultColor := "#6580EB"

  // ---------------------------------------------------------------------
  // Anchor points

  /** The sides of the node box, in the order of the default anchors. */
  datatype Side = Left | Right | Top | Bottom

  /** The midpoint of a side, in coordinates relative to the node box
      (0 is the left or top edge, 1 the right or bottom edge). */
  function Midpoint(s: Side): (p: (real, real))
    ensures (p.0 == 0.5) != (p.1 == 0.5)
    ensures p.0 in {0.0, 0.5, 1.0} && p.1 in {0.0, 0.5, 1.0}
  {
    match s
    case Left => (0.0, 0.5)
    case Right => (1.0, 0.5)
    case Top => (0.5, 0.0)
    case Bottom => (0.5, 1.0)
  }

  function PointValue(p: (real, real)): Value {
    Arr([Num(p.0), Num(p.1)])
  }

  const DefaultAnchors: Value :=
    Arr([Arr([Num(0.0), Num(0.5)]), Arr([Num(1.0), Num(0.5)]), Arr([Num(0.5), Num(0.0)]), Arr([Num(0.5), Num(1.0)])])

  /** `getAnchorPoints(model)`: the model's own `anchorPoints` when it is an
      array, the four side midpoints otherwise. */
  function GetAnchorPoints(anchorPoints: Value): (r: Value)
    ensures r.Arr?
    ensures r == anchorPoints <==> anchorPoints.Arr?
    ensures !anchorPoints.Arr? ==> |r.items| == 4
  {
    if anchorPoints.Arr? then anchorPoints else DefaultAnchors
  }

  /** The defaults are the midpoints of the left, right, top and bottom
      sides, in that order, so anchor index `i` names side `i`. */
  lemma DefaultsAreMidpoints(anchorPoints: Value)
    requires !anchorPoints.Arr?
    ensures var r := GetAnchorPoints(anchorPoints);
      r.items == [PointValue(Midpoint(Left)), PointValue(Midpoint(Right)),
                  PointValue(Midpoint(Top)), PointValue(Midpoint(Bottom))]
    ensures forall i, j :: 0 <= i < j < 4 ==> GetAnchorPoints(anchorPoints).items[i] != GetAnchorPoints(anchorPoints).items[j]
  {
  }

  // ---------------------------------------------------------------------
  // Wrapper style

  /** A rectangle: top-left corner and size. */
  datatype Box = Box(x: real, y: real, width: real, height: real)

  datatype WrapperStyle = WrapperStyle(box: Box, stroke: Value)

  /** The default wrapper: the key shape's box, with an invisible stroke. */
  const DefaultStyle := WrapperStyle(Box(0.0, 0.0, KeyShapeWidth, KeyShapeHeight), Str("rgba(0, 0, 0, 0)"))

  /** The selected wrapper: 2 larger on every side, stroked in the theme
      colour, or the default colour when the theme colour is falsy. */
  function SelectedStyle(themeColor: Value): WrapperStyle {
    WrapperStyle(Box(-2.0, -2.0, KeyShapeWidth + 4.0, KeyShapeHeight + 4.0),
                 if Truthy(themeColor) then themeColor else Str(DefaultColor))
  }

  /** The centre of a rectangle. */
  function Centre(b: Box): (real, real) {
    (b.x + b.width / 2.0, b.y + b.height / 2.0)
  }

  /** The style `setState` applies to the wrapper, given the item's states
      once the host has applied the change. Only `selected` matters. */
  function WrapperStyleFor(states: Flags, themeColor: Value): (r: WrapperStyle)
    ensures r == SelectedStyle(themeColor) <==> Selected in states
    ensures r == DefaultStyle <==> Selected !in states
    ensures Truthy(r.stroke)
    // selected, the stroke is the theme colour when that is truthy, else the default colour
    ensures Selected in states ==> r.stroke == if Truthy(themeColor) then themeColor else Str(DefaultColor)
    // the selected frame shares the key shape's centre, 2 larger on each side
    ensures Centre(r.box) == Centre(DefaultStyle.box)
    ensures Selected in states ==>
      && r.box.x == DefaultStyle.box.x - 2.0 && r.box.y == DefaultStyle.box.y - 2.0
      && r.box.width == DefaultStyle.box.width + 4.0 && r.box.height == DefaultStyle.box.height + 4.0
  {
    if Selected in states then SelectedStyle(themeColor) else DefaultStyle
  }

  /** Setting `selected` on a node switches its wrapper to the selected
      style, clearing it switches back, and setting any other state keeps
      the style it had. */
  lemma StyleFollowsSelected(g: Graph, n: NodeId, f: Flag, v: bool, themeColor: Value)
    requires n in g.nodes
    ensures var after := SetNodeState(g, n, f, v).nodes[n];
      && (f == Selected ==> WrapperStyleFor(after, themeColor) == if v then SelectedStyle(themeColor) else DefaultStyle)
      && (f != Selected ==> WrapperStyleFor(after, themeColor) == WrapperStyleFor(g.nodes[n], themeColor))
  {
  }

  // ---------------------------------------------------------------------
  // Label

  /** `drawLabel` wraps the label to the key shape's width less 20... */
  const LabelMaxWidth: real := KeyShapeWidth - 20.0
  /** ...in at most `resetLabelText`'s default of two lines. */
  const LabelMaxLine: int := 2

  /** The text `drawLabel` shows for a model's `label`. */
  function LabelText(text: Value, measure: LabelWrap.Measure): Value {
    LabelWrap.ResetLabelText(text, LabelMaxWidth, LabelMaxLine, measure)
  }

  /** A node label is shown in at most two lines of width 40: at most one
      newline, and when the text needed more lines, the second ends in "...". */
  lemma LabelInTwoLines(text: string, measure: LabelWrap.Measure)
    requires |text| > 0 && measure("") <= 40.0
    ensures LabelMaxWidth == 40.0 && LabelMaxLine == 2
    ensures LabelText(Str(text), measure).Str? && multiset(LabelText(Str(text), measure).s)['\n'] <= 1
    ensures |LabelWrap.SplitLines(text, 40.0, measure)| > 2 ==>
      var s := LabelText(Str(text), measure).s; |s| >= 3 && s[|s| - 3..] == "..."
  {
    LabelWrap.AtMostMaxLines(text, LabelMaxWidth, LabelMaxLine, measure);
  }
}
