/** The active-edge behavior: while the pointer is over an edge, the edge and
    both its ends are `active`. */
module ActiveEdge {
  import opened Js
  import opened Items

  /** `shouldBegin(e)`: `edge.getTarget().x` must be falsy. A node end has no
      `x` property; a point end is skipped only when its `x` is non-zero, so a
      free end at `x = 0` passes. */
  predicate ShouldBegin(edge: Edge)
    // every edge between nodes qualifies; of the free ends, only x = 0
    ensures edge.target.NodeRef? ==> ShouldBegin(edge)
    ensures edge.target.Point? ==> (ShouldBegin(edge) <==> edge.target.x == 0.0)
  {
    !(edge.target.Point? && edge.target.x != 0.0)
  }

  /** Set `active` to `v` on the edge, its target and its source, in that
      order. */
  function SetActive(g: Graph, id: EdgeId, v: bool): (r: Graph)
    requires id in g.edges
    ensures r.edges == g.edges[id := g.edges[id].(states := Toggle(g.edges[id].states, v))]
    ensures r.nodes.Keys == g.nodes.Keys
    ensures forall n :: n in g.nodes ==>
      r.nodes[n] == if n == g.edges[id].source || Some(n) == TargetNode(g.edges[id].target)
                    then Toggle(g.nodes[n], v) else g.nodes[n]
  {
    var edge := g.edges[id];
    var g1 := SetEdgeState(g, id, Active, v);
    var g2 := SetTargetState(g1, edge.target, Active, v);
    SetNodeState(g2, edge.source, Active, v)
  }

  /** A state set with `active` turned on or off. */
  function Toggle(fs: Flags, v: bool): Flags {
    if v then fs + {Active} else fs - {Active}
  }

  /** The edge and its two end nodes are the only items `SetActive` touches,
      and of those only the `active` state. */
  predicate ActiveSetOnly(g: Graph, g': Graph, id: EdgeId, v: bool)
    requires id in g.edges
  {
    var edge := g.edges[id];
    && g'.nodes.Keys == g.nodes.Keys && g'.edges.Keys == g.edges.Keys
    && g'.edges[id] == edge.(states := g'.edges[id].states)
    && (Active in g'.edges[id].states <==> v)
    && g'.edges[id].states - {Active} == edge.states - {Active}
    && (forall k :: k in g.edges && k != id ==> g'.edges[k] == g.edges[k])
    && (edge.source in g.nodes ==> (Active in g'.nodes[edge.source] <==> v))
    && (edge.target.NodeRef? && edge.target.node in g.nodes ==>
          (Active in g'.nodes[edge.target.node] <==> v))
    && (forall n :: n in g.nodes ==> g'.nodes[n] - {Active} == g.nodes[n] - {Active})
    && (forall n :: n in g.nodes && n != edge.source && Some(n) != TargetNode(edge.target) ==>
          g'.nodes[n] == g.nodes[n])
  }

  /** `setAllItemStates` (edge:mouseenter). */
  function SetAllItemStates(g: Option<Graph>, id: EdgeId): (r: Option<Graph>)
    ensures g.None? || id !in g.value.edges || !ShouldBegin(g.value.edges[id]) ==> r == g
    ensures g.Some? && id in g.value.edges && ShouldBegin(g.value.edges[id]) ==>
      r.Some? && ActiveSetOnly(g.value, r.value, id, true)
  {
    match g
    case None => None
    case Some(gr) =>
      if id in gr.edges && ShouldBegin(gr.edges[id]) then Some(SetActive(gr, id, true)) else g
  }

  /** `clearAllItemStates` (edge:mouseleave). */
  function ClearAllItemStates(g: Option<Graph>, id: EdgeId): (r: Option<Graph>)
    ensures g.None? || id !in g.value.edges || !ShouldBegin(g.value.edges[id]) ==> r == g
    ensures g.Some? && id in g.value.edges && ShouldBegin(g.value.edges[id]) ==>
      r.Some? && ActiveSetOnly(g.value, r.value, id, false)
  {
    match g
    case None => None
    case Some(gr) =>
      if id in gr.edges && ShouldBegin(gr.edges[id]) then Some(SetActive(gr, id, false)) else g
  }

  /** None of the three items `SetActive` touches is active. */
  predicate NoneActive(g: Graph, id: EdgeId)
    requires id in g.edges
  {
    && Active !in g.edges[id].states
    && (forall n :: n in g.nodes && (n == g.edges[id].source || Some(n) == TargetNode(g.edges[id].target)) ==>
          Active !in g.nodes[n])
  }

  lemma OnThenOff(g: Graph, id: EdgeId)
    requires id in g.edges
    ensures SetActive(SetActive(g, id, true), id, false) == SetActive(g, id, false)
  {
    var g1 := SetActive(g, id, true);
    var g2, c := SetActive(g1, id, false), SetActive(g, id, false);
    assert g1.edges[id].source == g.edges[id].source && g1.edges[id].target == g.edges[id].target;
    forall n | n in g.nodes ensures g2.nodes[n] == c.nodes[n] {
    }
    assert g2.nodes == c.nodes;
  }

  lemma OffWhenInactive(g: Graph, id: EdgeId)
    requires id in g.edges && NoneActive(g, id)
    ensures SetActive(g, id, false) == g
  {
    var c := SetActive(g, id, false);
    forall n | n in g.nodes ensures c.nodes[n] == g.nodes[n] {
    }
    assert c.nodes == g.nodes;
    assert g.edges[id].states - {Active} == g.edges[id].states;
    assert c.edges[id] == g.edges[id];
    assert c.edges == g.edges;
  }

  /** Enter then leave on the same edge is just the leave: all three
      `active` states end off and nothing else the enter did survives. When
      none of the three was active before, and under the guard only then,
      the pair changes nothing. */
  lemma EnterThenLeave(g: Option<Graph>, id: EdgeId)
    ensures ClearAllItemStates(SetAllItemStates(g, id), id) == ClearAllItemStates(g, id)
    ensures g.Some? && id in g.value.edges && NoneActive(g.value, id) ==>
      ClearAllItemStates(SetAllItemStates(g, id), id) == g
    // under the guard, a pair that starts with any of the three active does change the graph
    ensures g.Some? && id in g.value.edges && ShouldBegin(g.value.edges[id]) && !NoneActive(g.value, id) ==>
      ClearAllItemStates(SetAllItemStates(g, id), id) != g
  {
    if g.Some? && id in g.value.edges && ShouldBegin(g.value.edges[id]) {
      OnThenOff(g.value, id);
      if NoneActive(g.value, id) {
        OffWhenInactive(g.value, id);
      }
    }
  }

  /** An edge being dragged whose free end is away from `x = 0` is never
      highlighted; an edge between two nodes always is. */
  lemma GuardOnTargets(g: Graph, id: EdgeId)
    requires id in g.edges
    ensures g.edges[id].target.Point? && g.edges[id].target.x != 0.0 ==>
      SetAllItemStates(Some(g), id) == Some(g)
    ensures g.edges[id].target.NodeRef? ==>
      Active in SetAllItemStates(Some(g), id).value.edges[id].states
  {
  }
}
