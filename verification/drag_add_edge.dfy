/** The drag-add-edge behavior: pressing on a node's anchor starts a
    speculative edge whose target follows the pointer, snapping to anchors of
    other nodes, and releasing either commits the edge or removes it. Each
    event handler is a step function over the behavior's session and the
    graph it is bound to. */
module DragAddEdge {
  import opened Js
  import opened Items

  /** The behavior's configuration. */
  datatype Config = Config(edgeType: string, allowMultiEdge: bool)

  /** `getDefaultCfg()`: straight edges, parallel edges allowed. */
  const DefaultConfig := Config("line", true)

  /** The label every speculative edge is created with. */
  const EdgeLabel := "flowEdge"

  /** The behavior's own fields: the pending edge, the `addingEdge` flag and
      the last pressed node. */
  datatype Session = Session(edge: Option<EdgeId>, addingEdge: bool, sourceNode: Option<NodeId>)

  /** The fields of a fresh behavior instance. */
  const Fresh := Session(None, false, None)

  /** The session together with the graph the behavior is bound to, if any. */
  datatype Machine = Machine(session: Session, graph: Option<Graph>)

  /** A drag is in progress: the handlers' `this.addingEdge && this.edge`. */
  predicate Pending(s: Session) {
    s.addingEdge && s.edge.Some?
  }

  /** `this.edge.getSource().get('id')`: the source node of the pending edge,
      when there is one in the graph. */
  function PendingSource(m: Machine): (r: Option<NodeId>)
    ensures r.Some? <==> m.session.edge.Some? && m.graph.Some? && m.session.edge.value in m.graph.value.edges
    ensures r.Some? ==> r.value == m.graph.value.edges[m.session.edge.value].source
  {
    if m.session.edge.Some? && m.graph.Some? && m.session.edge.value in m.graph.value.edges
    then Some(m.graph.value.edges[m.session.edge.value].source)
    else None
  }

  /** `notSelf(ev)` for the node `n` under the pointer: false exactly when
      the pending edge starts at `n`. */
  predicate NotSelf(m: Machine, n: NodeId)
    ensures !NotSelf(m, n) <==>
      m.session.edge.Some? && m.graph.Some? && m.session.edge.value in m.graph.value.edges
      && m.graph.value.edges[m.session.edge.value].source == n
  {
    PendingSource(m) != Some(n)
  }

  /** Whether `node.getEdges()` lists edge `id` on node `n`. Committed edges
      are listed on both their ends. `relists` says whether the host also
      lists the pending edge on the node it has been snapped to by a move;
      that is host behaviour this model leaves open. */
  predicate ListedOn(g: Graph, n: NodeId, id: EdgeId, pending: Option<EdgeId>, relists: bool)
    requires id in g.edges
  {
    g.edges[id].source == n
    || (TargetNode(g.edges[id].target) == Some(n) && (relists || pending != Some(id)))
  }

  /** Some edge listed on `n` runs from `src` to `n`, in that direction. */
  predicate ListsEdgeFrom(g: Graph, n: NodeId, src: NodeId, pending: Option<EdgeId>, relists: bool) {
    exists id :: id in g.edges && ListedOn(g, n, id, pending, relists)
      && g.edges[id].source == src && TargetNode(g.edges[id].target) == Some(n)
  }

  /** `isOnlyOneEdge(node)`: true when parallel edges are allowed, when there
      is no pending source, when either id is the (falsy) empty string, and
      otherwise exactly when no edge listed on `n` already runs from the
      pending source to `n`. */
  predicate IsOnlyOneEdge(cfg: Config, relists: bool, m: Machine, n: NodeId)
    ensures cfg.allowMultiEdge ==> IsOnlyOneEdge(cfg, relists, m, n)
    // a release is refused only for a real edge from the pending source to `n`
    ensures !IsOnlyOneEdge(cfg, relists, m, n) ==>
      && PendingSource(m).Some? && PendingSource(m).value != "" && n != ""
      && exists id :: id in m.graph.value.edges && m.graph.value.edges[id].source == PendingSource(m).value
                      && TargetNode(m.graph.value.edges[id].target) == Some(n)
  {
    if cfg.allowMultiEdge then true
    else match PendingSource(m)
      case None => true
      case Some(src) =>
        if src == "" || n == "" then true
        else !ListsEdgeFrom(m.graph.value, n, src, m.session.edge, relists)
  }

  /** Every node other than `pressed` gets `addingEdge`; `pressed` gets
      `addingSource`. */
  function MarkForAdding(g: Graph, pressed: NodeId): (r: Graph)
    ensures r.edges == g.edges && r.nodes.Keys == g.nodes.Keys
    ensures forall n :: n in g.nodes && n != pressed ==> r.nodes[n] == g.nodes[n] + {AddingEdge}
    ensures pressed in g.nodes ==> r.nodes[pressed] == g.nodes[pressed] + {AddingSource}
  {
    g.(nodes := map n | n in g.nodes ::
                  if n != pressed then g.nodes[n] + {AddingEdge} else g.nodes[n] + {AddingSource})
  }

  /** The `hideAnchors` step: clear `addingEdge`, `limitLink` and
      `addingSource` on every node, leaving every other state alone. */
  function HideAnchors(g: Graph): (r: Graph)
    ensures r.edges == g.edges && r.nodes.Keys == g.nodes.Keys
    ensures forall n :: n in r.nodes ==> r.nodes[n] * Transient == {}
    ensures forall n :: n in r.nodes ==> r.nodes[n] - Transient == g.nodes[n] - Transient
  {
    g.(nodes := map n | n in g.nodes :: g.nodes[n] - Transient)
  }

  /** The speculative edge a press creates: from the pressed anchor to the
      pointer. */
  function NewEdge(cfg: Config, e: Event): Edge
    requires IsAnchor(e) && AnchorOwned(e)
  {
    Edge(e.item.value, e.index, Point(e.x, e.y), cfg.edgeType, EdgeLabel, {})
  }

  /** `onMousedown`. `freshId` is the value `guid()` returns. */
  function MouseDown(cfg: Config, m: Machine, e: Event, freshId: EdgeId): (r: Machine)
    requires AnchorOwned(e)
    // a press off an anchor changes nothing at all
    ensures !IsAnchor(e) ==> r == m
    // a press on an anchor records the pressed node, graph or not
    ensures IsAnchor(e) ==> r.session.sourceNode == e.item && r.graph.Some? == m.graph.Some?
    ensures IsAnchor(e) && m.graph.None? ==> r.session == m.session.(sourceNode := e.item)
    // with a graph: every other node is marked as a candidate target and the
    // pressed node as the source; no other state of any node changes
    ensures IsAnchor(e) && m.graph.Some? ==>
      var g, g' := m.graph.value, r.graph.value;
      && g'.nodes.Keys == g.nodes.Keys
      && (forall n :: n in g.nodes && n != e.item.value ==>
            AddingEdge in g'.nodes[n] && g'.nodes[n] - {AddingEdge} == g.nodes[n] - {AddingEdge})
      && (e.item.value in g.nodes ==>
            AddingSource in g'.nodes[e.item.value]
            && g'.nodes[e.item.value] - {AddingSource} == g.nodes[e.item.value] - {AddingSource})
    // a press during a drag creates no second edge
    ensures IsAnchor(e) && m.graph.Some? && (m.session.addingEdge || m.session.edge.Some?) ==>
      r.graph.value.edges == m.graph.value.edges
      && r.session == m.session.(sourceNode := e.item)
    // otherwise exactly one edge is added, from the pressed anchor to the pointer
    ensures IsAnchor(e) && m.graph.Some? && !m.session.addingEdge && m.session.edge.None? ==>
      && r.session == Session(Some(freshId), true, e.item)
      && r.graph.value.edges == m.graph.value.edges[freshId := NewEdge(cfg, e)]
      && r.graph.value.edges[freshId].source == e.item.value
      && r.graph.value.edges[freshId].sourceAnchor == e.index
      && r.graph.value.edges[freshId].target == Point(e.x, e.y)
      && r.graph.value.edges[freshId].shape == cfg.edgeType
  {
    if !IsAnchor(e) then m
    else
      var node := e.item.value;
      var s := m.session.(sourceNode := Some(node));
      match m.graph
      case None => Machine(s, None)
      case Some(g) =>
        var g1 := MarkForAdding(g, node);
        if !s.addingEdge && s.edge.None? then
          Machine(s.(edge := Some(freshId), addingEdge := true),
                  Some(g1.(edges := g1.edges[freshId := NewEdge(cfg, e)])))
        else Machine(s, Some(g1))
  }

  /** Where a move aims the pending edge: the anchor under the pointer when
      it belongs to a node other than the source, else the pointer itself. */
  function MoveTarget(m: Machine, e: Event): (t: Target)
    requires AnchorOwned(e)
    ensures t.NodeRef? <==> IsAnchor(e) && NotSelf(m, e.item.value)
    ensures t.NodeRef? ==> t.node == e.item.value && t.anchor == e.index
    ensures t.Point? ==> t.x == e.x && t.y == e.y
  {
    if IsAnchor(e) && NotSelf(m, e.item.value) then NodeRef(e.item.value, e.index)
    else Point(e.x, e.y)
  }

  /** `onMousemove`. */
  function MouseMove(m: Machine, e: Event): (r: Machine)
    requires AnchorOwned(e)
    // without a pending drag and a graph nothing happens
    ensures !(Pending(m.session) && m.graph.Some?) ==> r == m
    ensures r.graph.Some? == m.graph.Some?
    // with one, only the pending edge's target changes
    ensures Pending(m.session) && m.graph.Some? ==>
      var g, g', id := m.graph.value, r.graph.value, m.session.edge.value;
      && r.session == m.session
      && g'.nodes == g.nodes && g'.edges.Keys == g.edges.Keys
      && (forall k :: k in g.edges && k != id ==> g'.edges[k] == g.edges[k])
      && (id in g.edges ==> g'.edges[id] == g.edges[id].(target := g'.edges[id].target))
    // it snaps to (node, anchor) exactly when the pointer is on an anchor of
    // a node other than the source, and otherwise follows the pointer
    ensures Pending(m.session) && m.graph.Some? && m.session.edge.value in m.graph.value.edges ==>
      var t := r.graph.value.edges[m.session.edge.value].target;
      && (t.NodeRef? <==> IsAnchor(e) && e.item.value != m.graph.value.edges[m.session.edge.value].source)
      && (t.NodeRef? ==> t == NodeRef(e.item.value, e.index))
      && (t.Point? ==> t == Point(e.x, e.y))
  {
    if Pending(m.session) && m.graph.Some? then
      Machine(m.session, Some(Retarget(m.graph.value, m.session.edge.value, MoveTarget(m, e))))
    else m
  }

  /** `removEdge` followed by `hideAnchors`. */
  function Cancel(m: Machine): (r: Machine)
    requires m.graph.Some? && m.session.edge.Some?
    ensures r.session == m.session.(edge := None, addingEdge := false)
    ensures r.graph.Some?
    // exactly the pending edge is gone; every other edge is kept as it was
    ensures r.graph.value.edges.Keys == m.graph.value.edges.Keys - {m.session.edge.value}
    ensures forall k :: k in m.graph.value.edges && k != m.session.edge.value ==>
              k in r.graph.value.edges && r.graph.value.edges[k] == m.graph.value.edges[k]
    // every node loses the drag markers and keeps its other states
    ensures r.graph.value.nodes.Keys == m.graph.value.nodes.Keys
    ensures forall n :: n in m.graph.value.nodes ==> r.graph.value.nodes[n] == m.graph.value.nodes[n] - Transient
  {
    Machine(m.session.(edge := None, addingEdge := false),
            Some(HideAnchors(RemoveEdge(m.graph.value, m.session.edge.value))))
  }

  /** The commit branch of `onMouseup`: clear `drag` on the edge, aim it at
      the released anchor, end the session and hide the anchors. */
  function Commit(m: Machine, n: NodeId, anchor: Option<int>): (r: Machine)
    requires m.graph.Some? && m.session.edge.Some?
    ensures r.session == m.session.(edge := None, addingEdge := false)
    ensures r.graph.Some?
    // the committed edge stays, aimed at the released anchor with `drag` off;
    // its source, anchor, shape, label and other states are kept
    ensures r.graph.value.edges.Keys == m.graph.value.edges.Keys
    ensures var id := m.session.edge.value;
      id in m.graph.value.edges ==>
        && r.graph.value.edges[id].target == NodeRef(n, anchor)
        && Drag !in r.graph.value.edges[id].states
        && r.graph.value.edges[id].states + {Drag} == m.graph.value.edges[id].states + {Drag}
        && r.graph.value.edges[id].(target := m.graph.value.edges[id].target, states := m.graph.value.edges[id].states)
           == m.graph.value.edges[id]
    ensures forall k :: k in m.graph.value.edges && k != m.session.edge.value ==>
              r.graph.value.edges[k] == m.graph.value.edges[k]
    // every node loses the drag markers and keeps its other states
    ensures r.graph.value.nodes.Keys == m.graph.value.nodes.Keys
    ensures forall n :: n in m.graph.value.nodes ==> r.graph.value.nodes[n] == m.graph.value.nodes[n] - Transient
  {
    var id := m.session.edge.value;
    var g := SetEdgeState(m.graph.value, id, Drag, false);
    Machine(m.session.(edge := None, addingEdge := false),
            Some(HideAnchors(Retarget(g, id, NodeRef(n, anchor)))))
  }

  /** The release is rejected: the node under the pointer is the source, or
      it would duplicate an edge when parallel edges are not allowed. */
  predicate Rejected(cfg: Config, relists: bool, m: Machine, n: NodeId)
    // only a release with a pending edge in the graph can be rejected
    ensures Rejected(cfg, relists, m, n) ==> PendingSource(m).Some?
    // with parallel edges allowed, only a release on the source is rejected
    ensures cfg.allowMultiEdge ==> (Rejected(cfg, relists, m, n) <==> PendingSource(m) == Some(n))
  {
    !NotSelf(m, n) || !IsOnlyOneEdge(cfg, relists, m, n)
  }

  /** Under `getDefaultCfg()` parallel edges are allowed, so a release on an
      anchor is rejected only when it is on the pending edge's own source. */
  lemma DefaultRejectsOnlySelf(relists: bool, m: Machine, n: NodeId)
    ensures DefaultConfig.allowMultiEdge && DefaultConfig.edgeType == "line"
    ensures Rejected(DefaultConfig, relists, m, n) <==> PendingSource(m) == Some(n)
  {
  }

  /** `onMouseup`. */
  function MouseUp(cfg: Config, relists: bool, m: Machine, e: Event): (r: Machine)
    requires AnchorOwned(e)
    // no graph, or no pending drag: nothing happens
    ensures m.graph.None? ==> r == m
    ensures !Pending(m.session) ==> r == m
    // with a pending drag the session always ends and the anchors are hidden
    ensures m.graph.Some? && Pending(m.session) ==>
      && r.session == m.session.(edge := None, addingEdge := false)
      && r.graph.Some?
      && r.graph.value.nodes.Keys == m.graph.value.nodes.Keys
      && (forall n :: n in r.graph.value.nodes ==>
            r.graph.value.nodes[n] == m.graph.value.nodes[n] - Transient)
    // released off an anchor, on the source, or on a duplicate: the edge is removed
    ensures m.graph.Some? && Pending(m.session) && (!IsAnchor(e) || Rejected(cfg, relists, m, e.item.value)) ==>
      r.graph.value.edges == RemoveEdge(m.graph.value, m.session.edge.value).edges
    // released on any other anchor: the edge stays, aimed at that anchor
    ensures m.graph.Some? && Pending(m.session) && IsAnchor(e) && !Rejected(cfg, relists, m, e.item.value) ==>
      var g, g', id := m.graph.value, r.graph.value, m.session.edge.value;
      && g'.edges.Keys == g.edges.Keys
      && (forall k :: k in g.edges && k != id ==> g'.edges[k] == g.edges[k])
      && (id in g.edges ==>
            g'.edges[id] == g.edges[id].(target := NodeRef(e.item.value, e.index),
                                         states := g.edges[id].states - {Drag}))
  {
    match m.graph
    case None => m
    case Some(g) =>
      if !IsAnchor(e) then
        if Pending(m.session) then Cancel(m) else m
      else if Pending(m.session) then
        if Rejected(cfg, relists, m, e.item.value) then Cancel(m)
        else Commit(m, e.item.value, e.index)
      else m
  }

  /** The events this behavior listens to. */
  datatype Handler = OnMousedown | OnMousemove | OnMouseup

  /** `getEvents()`. */
  function Events(): (r: map<string, Handler>)
    // exactly these three events are listened to
    ensures r.Keys == {"node:mousedown", "mousemove", "mouseup"}
    // each handler is bound to exactly one event name
    ensures forall k :: k in r ==> (r[k] == OnMousedown <==> k == "node:mousedown")
    ensures forall k :: k in r ==> (r[k] == OnMousemove <==> k == "mousemove")
    ensures r.Values == {OnMousedown, OnMousemove, OnMouseup}
    ensures "mouseup" in r && r["mouseup"] == OnMouseup
  {
    var r := map["node:mousedown" := OnMousedown, "mousemove" := OnMousemove, "mouseup" := OnMouseup];
    assert r["node:mousedown"] == OnMousedown && r["mousemove"] == OnMousemove && r["mouseup"] == OnMouseup;
    r
  }
}
