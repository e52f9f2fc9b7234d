/** The drag-add-node behavior: while a node is being dragged in from the item
    panel, a dashed delegate rectangle follows the pointer over the canvas;
    releasing the button drops it and issues one command adding the node. */
module DragAddNode {
  import opened Js

  /** The delegate rectangle: top-left corner, size, and whether it is still
      on the canvas (`remove` takes it off but the behavior keeps the
      reference). */
  datatype Delegate = Delegate(x: real, y: real, width: real, height: real, attached: bool)

  /** The behavior instance: its `shape` field and the host graph, reduced
      to the node model the item panel stored on it for the drag. */
  datatype Machine = Machine(shape: Option<Delegate>, graph: Option<Object>)

  /** The only command this behavior issues: add a node with this model. */
  datatype Command = AddNode(model: Object)

  datatype Output = Output(m: Machine, commands: seq<Command>)

  /** Width and height from the model's `size`, after the default of 100
      for a missing size: the first two entries of an array, otherwise
      `size || 0` for both. Arithmetic then reads them as numbers; `None`
      means one of them is NaN. `parse` is JavaScript's StringToNumber. */
  function Dimensions(size: Value, parse: string -> Option<real>): (d: Option<(real, real)>)
    // a missing size is 100 by 100
    ensures size.Undefined? ==> d == Some((100.0, 100.0))
    // a number is both sides; any other falsy size is 0 by 0
    ensures size.Num? ==> d == Some((size.n, size.n))
    ensures !Truthy(size) && !size.Undefined? ==> d == Some((0.0, 0.0))
    // `true` reads as 1; a non-empty string as the number it spells, if any
    ensures size == Bool(true) ==> d == Some((1.0, 1.0))
    ensures size.Str? && size.s != "" ==>
      (d.Some? <==> parse(size.s).Some?) && (d.Some? ==> d.value == (parse(size.s).value, parse(size.s).value))
    // an array is defined exactly when its first two entries read as numbers
    ensures size.Arr? ==>
      (d.Some? <==> ToNumber(At(size.items, 0), parse).Some? && ToNumber(At(size.items, 1), parse).Some?)
    ensures size.Arr? && |size.items| < 2 ==> d.None?
    ensures size.Arr? && |size.items| >= 2 && size.items[0].Num? && size.items[1].Num? ==>
      d == Some((size.items[0].n, size.items[1].n))
  {
    match size
    case Undefined => Some((100.0, 100.0))
    case Arr(items) =>
      var w, h := ToNumber(At(items, 0), parse), ToNumber(At(items, 1), parse);
      if w.Some? && h.Some? then Some((w.value, h.value)) else None
    case _ =>
      var n := ToNumber(if Truthy(size) then size else Num(0.0), parse);
      if n.Some? then Some((n.value, n.value)) else None
  }

  /** A size of the declared type (a number or a pair of numbers) or none
      gives finite dimensions, whatever the string conversion is. */
  lemma DeclaredSizes(size: Value, parse: string -> Option<real>, parse2: string -> Option<real>)
    requires size.Undefined? || size.Num?
          || (size.Arr? && |size.items| >= 2 && size.items[0].Num? && size.items[1].Num?)
    ensures Dimensions(size, parse).Some?
    ensures Dimensions(size, parse) == Dimensions(size, parse2)
  {
  }

  /** Array entries go through `ToNumber` one by one: a boolean entry is 0
      or 1, while an `undefined` entry or a nested array that does not join
      to a number is NaN. */
  lemma ArrayEntrySizes(parse: string -> Option<real>)
    ensures Dimensions(Arr([Bool(true), Num(10.0)]), parse) == Some((1.0, 10.0))
    ensures Dimensions(Arr([Undefined, Num(5.0)]), parse).None?
    ensures Dimensions(Arr([Arr([Bool(true)]), Num(5.0)]), parse).None?
    ensures Dimensions(Arr([Arr([Num(1.0), Num(2.0)]), Num(5.0)]), parse).None?
  {
  }

  /** The delegate's coordinates are numbers: no dimension is NaN. */
  predicate SizeOk(size: Value, parse: string -> Option<real>) {
    Dimensions(size, parse).Some?
  }

  function Centre(d: Delegate): (real, real) {
    (d.x + d.width / 2.0, d.y + d.height / 2.0)
  }

  /** `handleCanvasMouseEnter`: unless a delegate already exists or there is
      no graph, create one of the model's size centred on the pointer. */
  function CanvasMouseEnter(m: Machine, ex: real, ey: real, parse: string -> Option<real>): (r: Machine)
    requires m.graph.Some? ==> SizeOk(Get(m.graph.value, "size"), parse)
    ensures m.shape.Some? || m.graph.None? ==> r == m
    ensures m.shape.None? && m.graph.Some? ==>
      && r.graph == m.graph && r.shape.Some? && r.shape.value.attached
      && Centre(r.shape.value) == (ex, ey)
      && Some((r.shape.value.width, r.shape.value.height)) == Dimensions(Get(m.graph.value, "size"), parse)
  {
    if m.shape.Some? || m.graph.None? then m
    else
      var (w, h) := Dimensions(Get(m.graph.value, "size"), parse).value;
      m.(shape := Some(Delegate(ex - w / 2.0, ey - h / 2.0, w, h, true)))
  }

  /** `handleMouseMove`: re-centre the delegate on the pointer. */
  function MouseMove(m: Machine, ex: real, ey: real): (r: Machine)
    ensures m.graph.None? || m.shape.None? ==> r == m
    ensures m.graph.Some? && m.shape.Some? ==>
      && r.graph == m.graph && r.shape.Some?
      && r.shape.value.width == m.shape.value.width && r.shape.value.height == m.shape.value.height
      && r.shape.value.attached == m.shape.value.attached
      && Centre(r.shape.value) == (ex, ey)
  {
    if m.graph.None? || m.shape.None? then m
    else
      var d := m.shape.value;
      m.(shape := Some(d.(x := ex - d.width / 2.0, y := ey - d.height / 2.0)))
  }

  /** The drop position: the pointer, or, when the model's `center` is
      `'topLeft'`, the top-left corner of a delegate-sized box centred on
      the pointer. */
  function DropPosition(model: Object, d: Delegate, ex: real, ey: real): (p: (real, real))
    // for a 'topLeft' model the pointer is the centre of a delegate-sized box at `p`
    ensures Get(model, "center") == Str("topLeft") ==>
      Centre(Delegate(p.0, p.1, d.width, d.height, d.attached)) == (ex, ey)
    // for any other model the node is placed at the pointer itself
    ensures Get(model, "center") != Str("topLeft") ==> p == (ex, ey)
  {
    if Get(model, "center") == Str("topLeft") then (ex - d.width / 2.0, ey - d.height / 2.0) else (ex, ey)
  }

  /** The added node's model: a fresh id and the drop position, then every
      property of the dragged model on top. */
  function Payload(model: Object, freshId: string, pos: (real, real)): (p: Object)
    ensures p.Keys == model.Keys + {"id", "x", "y"}
    ensures forall k :: k in model ==> p[k] == model[k]
    ensures "id" !in model ==> p["id"] == Str(freshId)
    ensures "x" !in model ==> p["x"] == Num(pos.0)
    ensures "y" !in model ==> p["y"] == Num(pos.1)
  {
    Spread(map["id" := Str(freshId), "x" := Num(pos.0), "y" := Num(pos.1)], model)
  }

  /** `handleMouseUp`: take the delegate off the canvas and add the node.
      `freshId` is the value `guid()` returns. */
  function MouseUp(m: Machine, ex: real, ey: real, freshId: string): (r: Output)
    ensures m.graph.None? || m.shape.None? ==> r == Output(m, [])
    ensures m.graph.Some? && m.shape.Some? ==>
      && r.m == m.(shape := Some(m.shape.value.(attached := false)))
      && |r.commands| == 1
      && r.commands[0] == AddNode(Payload(m.graph.value, freshId, DropPosition(m.graph.value, m.shape.value, ex, ey)))
  {
    if m.graph.None? || m.shape.None? then Output(m, [])
    else
      var d := m.shape.value;
      var model := m.graph.value;
      Output(m.(shape := Some(d.(attached := false))), [AddNode(Payload(model, freshId, DropPosition(model, d, ex, ey)))])
  }

  datatype Handler = OnCanvasMouseEnter | OnMouseMove | OnMouseUp

  /** `getEvents()`. */
  function Events(): (r: map<string, Handler>)
    // exactly these three events are listened to
    ensures r.Keys == {"canvas:mouseenter", "mousemove", "mouseup"}
    // each handler is bound to exactly one event name
    ensures forall k :: k in r ==> (r[k] == OnCanvasMouseEnter <==> k == "canvas:mouseenter")
    ensures forall k :: k in r ==> (r[k] == OnMouseMove <==> k == "mousemove")
    ensures r.Values == {OnCanvasMouseEnter, OnMouseMove, OnMouseUp}
    ensures "mouseup" in r && r["mouseup"] == OnMouseUp
  {
    var r := map["canvas:mouseenter" := OnCanvasMouseEnter, "mousemove" := OnMouseMove, "mouseup" := OnMouseUp];
    assert r["canvas:mouseenter"] == OnCanvasMouseEnter && r["mousemove"] == OnMouseMove && r["mouseup"] == OnMouseUp;
    r
  }

  // ---------------------------------------------------------------------
  // Properties

  /** With `center: 'topLeft'` the node lands exactly where the delegate
      was drawn for that pointer position; otherwise it lands on the
      delegate's centre. (Unless the model itself fixes `x` or `y`.) */
  lemma DropMatchesDelegate(m: Machine, ex: real, ey: real, freshId: string)
    requires m.graph.Some? && m.shape.Some?
    requires "x" !in m.graph.value && "y" !in m.graph.value
    ensures var p := MouseUp(m, ex, ey, freshId).commands[0].model;
      var d := MouseMove(m, ex, ey).shape.value;
      && (Get(m.graph.value, "center") == Str("topLeft") ==> p["x"] == Num(d.x) && p["y"] == Num(d.y))
      && (Get(m.graph.value, "center") != Str("topLeft") ==> (p["x"], p["y"]) == (Num(Centre(d).0), Num(Centre(d).1)))
  {
  }

  /** The added node is the dragged model plus whichever of `id`, `x` and
      `y` it lacks: the model's own properties always win, so a model that
      carries an `id` keeps it and the fresh id goes unused. */
  lemma ModelOverrides(m: Machine, ex: real, ey: real, freshId: string)
    requires m.graph.Some? && m.shape.Some?
    ensures var p := MouseUp(m, ex, ey, freshId).commands[0].model;
      && p - {"id", "x", "y"} == m.graph.value - {"id", "x", "y"}
      && (forall k :: k in m.graph.value ==> p[k] == m.graph.value[k])
      && (forall k :: k in p && k !in m.graph.value ==> k in {"id", "x", "y"})
  {
    var p := MouseUp(m, ex, ey, freshId).commands[0].model;
    assert (p - {"id", "x", "y"}).Keys == (m.graph.value - {"id", "x", "y"}).Keys;
  }

  /** Releasing keeps the delegate reference, so entering the canvas again
      creates no new delegate, and a further release issues a second add
      command for the same model (the surrounding editor leaves this mode
      on release, which is outside this behavior). */
  lemma ReleaseKeepsReference(m: Machine, ex: real, ey: real, freshId: string, ex2: real, ey2: real, id2: string,
                              parse: string -> Option<real>)
    requires m.graph.Some? && m.shape.Some?
    requires SizeOk(Get(m.graph.value, "size"), parse)
    ensures var after := MouseUp(m, ex, ey, freshId).m;
      && CanvasMouseEnter(after, ex2, ey2, parse) == after
      && |MouseUp(after, ex2, ey2, id2).commands| == 1
  {
  }

  /** A full drag: enter, a move, release. Exactly one node is
      added, of the model's properties, and for a `'topLeft'` model it lands
      where the delegate was last drawn. */
  lemma EnterMoveRelease(model: Object, x0: real, y0: real, x1: real, y1: real, freshId: string,
                         parse: string -> Option<real>)
    requires SizeOk(Get(model, "size"), parse)
    requires "x" !in model && "y" !in model && Get(model, "center") == Str("topLeft")
    ensures var m1 := CanvasMouseEnter(Machine(None, Some(model)), x0, y0, parse);
      var m2 := MouseMove(m1, x1, y1);
      var out := MouseUp(m2, x1, y1, freshId);
      && |out.commands| == 1
      && out.commands[0].model["x"] == Num(m2.shape.value.x)
      && out.commands[0].model["y"] == Num(m2.shape.value.y)
      && !out.m.shape.value.attached
  {
    var m1 := CanvasMouseEnter(Machine(None, Some(model)), x0, y0, parse);
    var m2 := MouseMove(m1, x1, y1);
    DropMatchesDelegate(m2, x1, y1, freshId);
    assert MouseMove(m2, x1, y1) == m2;
  }
}
