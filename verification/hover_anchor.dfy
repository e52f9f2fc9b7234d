/** The hover-anchor behavior: while the pointer is over a node's anchor,
    that anchor's `activeAnchor{index}` state is on. */
module HoverAnchor {
  import opened Js
  import opened Items

  /** `shouldBegin(ev)`: the shape under the pointer is an anchor. */
  predicate ShouldBegin(e: Event) {
    IsAnchor(e)
  }

  /** `onEnterAnchor`. */
  function OnEnterAnchor(g: Option<Graph>, e: Event): (r: Option<Graph>)
    requires AnchorOwned(e)
    ensures !ShouldBegin(e) || g.None? ==> r == g
    ensures ShouldBegin(e) && g.Some? ==>
      r.Some? && r.value.edges == g.value.edges && r.value.nodes.Keys == g.value.nodes.Keys
      && Untouched(g.value, r.value, e.item.value, ActiveAnchor(e.index))
      && (e.item.value in g.value.nodes ==> ActiveAnchor(e.index) in r.value.nodes[e.item.value])
  {
    if !ShouldBegin(e) then g
    else match g
      case None => None
      case Some(gr) => Some(SetNodeState(gr, e.item.value, ActiveAnchor(e.index), true))
  }

  /** `onLeaveAnchor`. */
  function OnLeaveAnchor(g: Option<Graph>, e: Event): (r: Option<Graph>)
    requires AnchorOwned(e)
    ensures !ShouldBegin(e) || g.None? ==> r == g
    ensures ShouldBegin(e) && g.Some? ==>
      r.Some? && r.value.edges == g.value.edges && r.value.nodes.Keys == g.value.nodes.Keys
      && Untouched(g.value, r.value, e.item.value, ActiveAnchor(e.index))
      && (e.item.value in g.value.nodes ==> ActiveAnchor(e.index) !in r.value.nodes[e.item.value])
  {
    if !ShouldBegin(e) then g
    else match g
      case None => None
      case Some(gr) => Some(SetNodeState(gr, e.item.value, ActiveAnchor(e.index), false))
  }

  /** Apart from state `f` of node `n`, every state of every node is as
      before. */
  predicate Untouched(g: Graph, g': Graph, n: NodeId, f: Flag)
    requires g'.nodes.Keys == g.nodes.Keys
  {
    && (forall m :: m in g.nodes && m != n ==> g'.nodes[m] == g.nodes[m])
    && (n in g.nodes ==> g'.nodes[n] - {f} == g.nodes[n] - {f})
  }

  datatype Handler = Enter | Leave

  /** `getEvents()`: entering and moving over a shape both run the enter
      handler; leaving runs the leave handler. */
  function Events(): (r: map<string, Handler>)
    ensures forall k :: k in r ==> (r[k] == Leave <==> k == "mouseleave")
    ensures r.Keys == {"mouseenter", "mousemove", "mouseleave"}
  {
    map["mouseenter" := Enter, "mousemove" := Enter, "mouseleave" := Leave]
  }

  /** The host delivering event `kind` to this behavior. */
  function Dispatch(kind: string, g: Option<Graph>, e: Event): (r: Option<Graph>)
    requires AnchorOwned(e)
    // an event the behavior does not listen to changes nothing
    ensures kind !in Events() ==> r == g
    // leaving switches the anchor's state off; entering or moving switches it on
    ensures kind == "mouseleave" ==> r == OnLeaveAnchor(g, e)
    ensures kind == "mouseenter" || kind == "mousemove" ==> r == OnEnterAnchor(g, e)
  {
    if kind !in Events() then g
    else match Events()[kind]
      case Enter => OnEnterAnchor(g, e)
      case Leave => OnLeaveAnchor(g, e)
  }

  /** A move over an anchor does what entering it does, and entering twice is
      entering once. */
  lemma MoveIsEnterAndIdempotent(g: Option<Graph>, e: Event)
    requires AnchorOwned(e)
    ensures Dispatch("mousemove", g, e) == Dispatch("mouseenter", g, e)
    ensures OnEnterAnchor(OnEnterAnchor(g, e), e) == OnEnterAnchor(g, e)
  {
    if ShouldBegin(e) && g.Some? {
      var n := e.item.value;
      var g1 := OnEnterAnchor(g, e).value;
      var g2 := OnEnterAnchor(Some(g1), e).value;
      if n in g.value.nodes {
        assert g2.nodes[n] == g1.nodes[n];
      }
      assert g2.nodes == g1.nodes;
    }
  }

  /** Enter then leave on the same anchor is just the leave: the state ends
      off, and nothing the enter did survives. When the anchor was not active
      before, and only then, the pair changes nothing at all. */
  lemma EnterThenLeave(g: Option<Graph>, e: Event)
    requires AnchorOwned(e)
    ensures OnLeaveAnchor(OnEnterAnchor(g, e), e) == OnLeaveAnchor(g, e)
    ensures ShouldBegin(e) && g.Some? && e.item.value in g.value.nodes ==>
      ActiveAnchor(e.index) !in OnLeaveAnchor(OnEnterAnchor(g, e), e).value.nodes[e.item.value]
    ensures (g.Some? && e.item.Some? && e.item.value in g.value.nodes
             && ActiveAnchor(e.index) !in g.value.nodes[e.item.value]) || !ShouldBegin(e) || g.None? ==>
      OnLeaveAnchor(OnEnterAnchor(g, e), e) == g
    // and when it was active before, the pair does change the graph
    ensures ShouldBegin(e) && g.Some? && e.item.value in g.value.nodes
            && ActiveAnchor(e.index) in g.value.nodes[e.item.value] ==>
      OnLeaveAnchor(OnEnterAnchor(g, e), e) != g
  {
    if ShouldBegin(e) && g.Some? {
      var n, f := e.item.value, ActiveAnchor(e.index);
      var g0 := g.value;
      var g2 := OnLeaveAnchor(OnEnterAnchor(g, e), e).value;
      if n in g0.nodes {
        assert g2.nodes[n] == g0.nodes[n] - {f};
        assert g2.nodes == OnLeaveAnchor(g, e).value.nodes;
        if f !in g0.nodes[n] {
          assert g2.nodes[n] == g0.nodes[n];
          assert g2.nodes == g0.nodes;
        }
      }
    }
  }

  /** Hovering over two different anchors is independent: leaving one does
      not change whether the other is active. */
  lemma AnchorsIndependent(g: Option<Graph>, e1: Event, e2: Event)
    requires AnchorOwned(e1) && AnchorOwned(e2)
    requires ShouldBegin(e1) && ShouldBegin(e2) && g.Some?
    requires e1.item != e2.item || e1.index != e2.index
    requires e1.item.value in g.value.nodes
    ensures var r := OnLeaveAnchor(OnEnterAnchor(OnEnterAnchor(g, e1), e2), e2);
      ActiveAnchor(e1.index) in r.value.nodes[e1.item.value]
  {
  }
}
