/** Safety properties of the drag-add-edge behavior over whole event
    sequences: the invariant every reachable state keeps, what a complete
    press-move-release gesture does to the graph, and a few concrete
    gestures on a two-node graph. */
module DragAddEdgeProps {
  import opened Js
  import opened Items
  import opened DragAddEdge

  /** Edge `e` runs from `s` to node `t`. */
  predicate Connects(e: Edge, s: NodeId, t: NodeId) {
    e.source == s && TargetNode(e.target) == Some(t)
  }

  /** No edge whose target is a node ends where it starts. */
  predicate NoSelfLoops(g: Graph) {
    forall id :: id in g.edges && g.edges[id].target.NodeRef? ==>
      g.edges[id].target.node != g.edges[id].source
  }

  /** No two committed edges join the same ordered pair of (non-empty) node
      ids; the pending edge is not committed. */
  predicate NoDuplicates(g: Graph, pending: Option<EdgeId>) {
    forall i, j ::
      i in g.edges && j in g.edges && i != j && pending != Some(i) && pending != Some(j)
      && g.edges[i].source != "" && g.edges[i].target.NodeRef? && g.edges[i].target.node != ""
      ==> !Connects(g.edges[j], g.edges[i].source, g.edges[i].target.node)
  }

  /** What holds of the graph in every reachable state: only the pending
      edge may end at a free point, the drag markers are on only while a drag
      is pending, and the graph has no self-loops nor (when parallel edges are
      disallowed) duplicates. */
  predicate GraphInv(cfg: Config, g: Graph, pending: Option<EdgeId>) {
    && (pending.Some? ==> pending.value in g.edges)
    && (forall id :: id in g.edges && pending != Some(id) ==> g.edges[id].target.NodeRef?)
    && (pending.None? ==> forall n :: n in g.nodes ==> g.nodes[n] * Transient == {})
    && NoSelfLoops(g)
    && (!cfg.allowMultiEdge ==> NoDuplicates(g, pending))
  }

  /** The reachable-state invariant: the two session fields agree, and the
      bound graph satisfies `GraphInv`. */
  predicate Inv(cfg: Config, m: Machine) {
    && (m.session.addingEdge <==> m.session.edge.Some?)
    && (m.graph.Some? ==> GraphInv(cfg, m.graph.value, m.session.edge))
  }

  /** A fresh behavior bound to a clean graph satisfies the invariant. */
  lemma InitialInv(cfg: Config, g: Graph)
    requires forall id :: id in g.edges ==> g.edges[id].target.NodeRef?
    requires forall n :: n in g.nodes ==> g.nodes[n] * Transient == {}
    requires NoSelfLoops(g)
    requires !cfg.allowMultiEdge ==> NoDuplicates(g, None)
    ensures Inv(cfg, Machine(Fresh, Some(g)))
    ensures Inv(cfg, Machine(Fresh, None))
  {
  }

  lemma DownPreservesInv(cfg: Config, m: Machine, e: Event, freshId: EdgeId)
    requires Inv(cfg, m) && AnchorOwned(e)
    ensures Inv(cfg, MouseDown(cfg, m, e, freshId))
  {
    var r := MouseDown(cfg, m, e, freshId);
    if IsAnchor(e) && m.graph.Some? && !m.session.addingEdge && m.session.edge.None? {
      var g, g' := m.graph.value, r.graph.value;
      assert forall id :: id in g'.edges && id != freshId ==> id in g.edges && g'.edges[id] == g.edges[id];
    }
  }

  lemma MovePreservesInv(cfg: Config, m: Machine, e: Event)
    requires Inv(cfg, m) && AnchorOwned(e)
    ensures Inv(cfg, MouseMove(m, e))
  {
    var r := MouseMove(m, e);
    if Pending(m.session) && m.graph.Some? {
      var g, g', id := m.graph.value, r.graph.value, m.session.edge.value;
      assert g'.edges[id].target.NodeRef? ==> g'.edges[id].target.node != g'.edges[id].source;
    }
  }

  lemma UpPreservesInv(cfg: Config, relists: bool, m: Machine, e: Event)
    requires Inv(cfg, m) && AnchorOwned(e)
    ensures Inv(cfg, MouseUp(cfg, relists, m, e))
  {
    var r := MouseUp(cfg, relists, m, e);
    if m.graph.Some? && Pending(m.session) {
      var g, g', id := m.graph.value, r.graph.value, m.session.edge.value;
      if IsAnchor(e) && !Rejected(cfg, relists, m, e.item.value) {
        var n := e.item.value;
        var src := g.edges[id].source;
        assert n != src;
        if !cfg.allowMultiEdge && src != "" && n != "" {
          assert !ListsEdgeFrom(g, n, src, m.session.edge, relists);
          forall j | j in g.edges && j != id
            ensures !Connects(g.edges[j], src, n)
          {
            if Connects(g.edges[j], src, n) {
              assert ListedOn(g, n, j, m.session.edge, relists);
              assert false;
            }
          }
        }
        CommitKeepsInv(cfg, g, g', id, n, e.index);
      } else {
        CancelKeepsInv(cfg, g, g', id);
      }
    }
  }

  /** Removing the pending edge and the drag markers leaves a graph with
      nothing pending that satisfies the invariant. */
  lemma CancelKeepsInv(cfg: Config, g: Graph, g': Graph, id: EdgeId)
    requires GraphInv(cfg, g, Some(id))
    requires g'.edges == RemoveEdge(g, id).edges
    requires g'.nodes.Keys == g.nodes.Keys
    requires forall n :: n in g'.nodes ==> g'.nodes[n] == g.nodes[n] - Transient
    ensures GraphInv(cfg, g', None)
  {
  }

  /** Aiming the pending edge at a node other than its source, when that
      adds no duplicate, and removing the drag markers leaves a graph with
      nothing pending that satisfies the invariant. */
  lemma CommitKeepsInv(cfg: Config, g: Graph, g': Graph, id: EdgeId, n: NodeId, anchor: Option<int>)
    requires GraphInv(cfg, g, Some(id))
    requires n != g.edges[id].source
    requires !cfg.allowMultiEdge && g.edges[id].source != "" && n != "" ==>
      forall j :: j in g.edges && j != id ==> !Connects(g.edges[j], g.edges[id].source, n)
    requires g'.edges.Keys == g.edges.Keys
    requires forall k :: k in g.edges && k != id ==> g'.edges[k] == g.edges[k]
    requires g'.edges[id] == g.edges[id].(target := NodeRef(n, anchor), states := g.edges[id].states - {Drag})
    requires g'.nodes.Keys == g.nodes.Keys
    requires forall k :: k in g'.nodes ==> g'.nodes[k] == g.nodes[k] - Transient
    ensures GraphInv(cfg, g', None)
  {
    if !cfg.allowMultiEdge {
      forall i, j | i in g'.edges && j in g'.edges && i != j
        && g'.edges[i].source != "" && g'.edges[i].target.NodeRef? && g'.edges[i].target.node != ""
        ensures !Connects(g'.edges[j], g'.edges[i].source, g'.edges[i].target.node)
      {
        if i != id && j != id {
          assert g'.edges[i] == g.edges[i] && g'.edges[j] == g.edges[j];
        }
      }
    }
  }

  /** The pointer inputs the behavior receives; `Down` carries the id
      `guid()` returns for that press. */
  datatype Input = Down(e: Event, freshId: EdgeId) | Move(e: Event) | Up(e: Event)

  function Step(cfg: Config, relists: bool, m: Machine, i: Input): Machine
    requires AnchorOwned(i.e)
  {
    match i
    case Down(e, id) => MouseDown(cfg, m, e, id)
    case Move(e) => MouseMove(m, e)
    case Up(e) => MouseUp(cfg, relists, m, e)
  }

  predicate AllOwned(inputs: seq<Input>) {
    forall k :: 0 <= k < |inputs| ==> AnchorOwned(inputs[k].e)
  }

  function Run(cfg: Config, relists: bool, m: Machine, inputs: seq<Input>): Machine
    requires AllOwned(inputs)
    decreases |inputs|
  {
    if |inputs| == 0 then m
    else Run(cfg, relists, Step(cfg, relists, m, inputs[0]), inputs[1..])
  }

  /** Every state reachable by any sequence of events keeps the invariant:
      no self-loop is ever created, no duplicate when parallel edges are
      disallowed, and no free-ended edge other than the pending one. */
  lemma {:induction false} RunPreservesInv(cfg: Config, relists: bool, m: Machine, inputs: seq<Input>)
    requires Inv(cfg, m) && AllOwned(inputs)
    ensures Inv(cfg, Run(cfg, relists, m, inputs))
    decreases |inputs|
  {
    if |inputs| > 0 {
      var i := inputs[0];
      match i {
        case Down(e, id) => DownPreservesInv(cfg, m, e, id);
        case Move(e) => MovePreservesInv(cfg, m, e);
        case Up(e) => UpPreservesInv(cfg, relists, m, e);
      }
      RunPreservesInv(cfg, relists, Step(cfg, relists, m, i), inputs[1..]);
    }
  }

  /** After any release in a reachable state with a graph: no drag is
      pending, no node carries a drag marker, and every edge ends at a node
      (no half-formed edge survives a release). */
  lemma ReleaseLeavesNothingBehind(cfg: Config, relists: bool, m: Machine, e: Event)
    requires Inv(cfg, m) && AnchorOwned(e) && m.graph.Some?
    ensures var r := MouseUp(cfg, relists, m, e);
      && r.session.edge.None? && !r.session.addingEdge
      && r.graph.Some?
      && (forall n :: n in r.graph.value.nodes ==> r.graph.value.nodes[n] * Transient == {})
      && (forall id :: id in r.graph.value.edges ==> r.graph.value.edges[id].target.NodeRef?)
  {
    UpPreservesInv(cfg, relists, m, e);
  }

  /** A run of pointer moves. */
  function Moves(m: Machine, es: seq<Event>): Machine
    requires forall k :: 0 <= k < |es| ==> AnchorOwned(es[k])
    decreases |es|
  {
    if |es| == 0 then m else Moves(MouseMove(m, es[0]), es[1..])
  }

  /** `g'` is `g` with at most the target of edge `id` changed. */
  predicate SameButTarget(g: Graph, g': Graph, id: EdgeId) {
    && g'.nodes == g.nodes && g'.edges.Keys == g.edges.Keys
    && (forall k :: k in g.edges && k != id ==> g'.edges[k] == g.edges[k])
    && (id in g.edges ==> g'.edges[id] == g.edges[id].(target := g'.edges[id].target))
  }

  /** Moves never touch the session, the nodes, or any edge but the pending
      one, and of that only its target. */
  lemma {:induction false} MovesOnlyRetarget(m: Machine, es: seq<Event>)
    requires forall k :: 0 <= k < |es| ==> AnchorOwned(es[k])
    requires Pending(m.session) && m.graph.Some?
    ensures var r := Moves(m, es);
      r.session == m.session && r.graph.Some?
      && SameButTarget(m.graph.value, r.graph.value, m.session.edge.value)
    decreases |es|
  {
    if |es| > 0 {
      MovesOnlyRetarget(MouseMove(m, es[0]), es[1..]);
    }
  }

  /** The edge a committed gesture leaves in the graph. */
  function CommittedEdge(cfg: Config, d: Event, u: Event): Edge
    requires IsAnchor(d) && AnchorOwned(d) && IsAnchor(u) && AnchorOwned(u)
  {
    Edge(d.item.value, d.index, NodeRef(u.item.value, u.index), cfg.edgeType, EdgeLabel, {})
  }

  /** `m` is mid-gesture: the press on anchor `d` of a graph `g0` with no
      drag markers added pending edge `freshId`, which only moves have
      touched since. */
  predicate DragFrom(cfg: Config, g0: Graph, d: Event, freshId: EdgeId, m: Machine)
    requires IsAnchor(d) && AnchorOwned(d)
  {
    && m.session == Session(Some(freshId), true, d.item)
    && m.graph.Some?
    && m.graph.value.nodes == MarkForAdding(g0, d.item.value).nodes
    && freshId in m.graph.value.edges
    && m.graph.value.edges == g0.edges[freshId := m.graph.value.edges[freshId]]
    && m.graph.value.edges[freshId] == NewEdge(cfg, d).(target := m.graph.value.edges[freshId].target)
  }

  lemma {:induction false} PressThenMoves(cfg: Config, m0: Machine, d: Event, freshId: EdgeId, moves: seq<Event>)
    requires m0.graph.Some? && !m0.session.addingEdge && m0.session.edge.None?
    requires IsAnchor(d) && AnchorOwned(d)
    requires forall k :: 0 <= k < |moves| ==> AnchorOwned(moves[k])
    ensures DragFrom(cfg, m0.graph.value, d, freshId, Moves(MouseDown(cfg, m0, d, freshId), moves))
  {
    var m1 := MouseDown(cfg, m0, d, freshId);
    MovesOnlyRetarget(m1, moves);
    var g1, g2 := m1.graph.value, Moves(m1, moves).graph.value;
    assert g2.edges == g1.edges[freshId := g2.edges[freshId]];
  }

  /** Releasing mid-gesture ends the session and leaves either exactly the
      graph before the press, or that graph plus the committed edge. */
  lemma ReleaseFromDrag(cfg: Config, relists: bool, g0: Graph, d: Event, freshId: EdgeId, m: Machine, u: Event)
    requires IsAnchor(d) && AnchorOwned(d) && AnchorOwned(u)
    requires forall n :: n in g0.nodes ==> g0.nodes[n] * Transient == {}
    requires freshId !in g0.edges
    requires DragFrom(cfg, g0, d, freshId, m)
    ensures var r := MouseUp(cfg, relists, m, u);
      && r.session == Session(None, false, d.item)
      && ((!IsAnchor(u) || Rejected(cfg, relists, m, u.item.value)) ==> r.graph == Some(g0))
      && (IsAnchor(u) && !Rejected(cfg, relists, m, u.item.value) ==>
            u.item != d.item
            && r.graph == Some(g0.(edges := g0.edges[freshId := CommittedEdge(cfg, d, u)])))
  {
    var r := MouseUp(cfg, relists, m, u);
    var g3 := r.graph.value;
    MarkThenHide(g0, d.item.value, m.graph.value.nodes, g3.nodes);
    assert g3.nodes == g0.nodes;
    if !IsAnchor(u) || Rejected(cfg, relists, m, u.item.value) {
      assert g3.edges == g0.edges;
    } else {
      var g := m.graph.value;
      assert PendingSource(m) == Some(d.item.value);
      assert g.edges[freshId].states == {};
      assert g3.edges[freshId] == CommittedEdge(cfg, d, u);
      assert g3.edges == g0.edges[freshId := CommittedEdge(cfg, d, u)];
    }
  }

  /** Hiding the anchors undoes the press's marking on a graph that carried
      no drag markers before it. */
  lemma MarkThenHide(g0: Graph, pressed: NodeId, marked: map<NodeId, Flags>, hidden: map<NodeId, Flags>)
    requires forall n :: n in g0.nodes ==> g0.nodes[n] * Transient == {}
    requires marked == MarkForAdding(g0, pressed).nodes
    requires hidden.Keys == marked.Keys && forall n :: n in hidden ==> hidden[n] == marked[n] - Transient
    ensures hidden == g0.nodes
  {
    forall n | n in g0.nodes ensures hidden[n] == g0.nodes[n] {
      var fs := g0.nodes[n];
      assert fs * Transient == {};
      assert marked[n] == fs + {AddingEdge} || marked[n] == fs + {AddingSource};
      assert AddingEdge in Transient && AddingSource in Transient;
      assert hidden[n] == fs - Transient;
      forall x | x in fs ensures x !in Transient {
        assert x !in fs * Transient;
      }
      assert fs - Transient == fs;
    }
  }

  /** A whole gesture from an idle state: press on an anchor, any moves, a
      release. The session ends and the graph is either exactly what it was
      before the press (cancellation leaves nothing behind) or that graph
      plus one edge from the pressed anchor to the released anchor, which is
      on another node. */
  lemma Gesture(cfg: Config, relists: bool, m0: Machine, d: Event, freshId: EdgeId, moves: seq<Event>, u: Event)
    requires Inv(cfg, m0) && m0.graph.Some? && !Pending(m0.session)
    requires IsAnchor(d) && AnchorOwned(d) && freshId !in m0.graph.value.edges
    requires forall k :: 0 <= k < |moves| ==> AnchorOwned(moves[k])
    requires AnchorOwned(u)
    ensures var m2 := Moves(MouseDown(cfg, m0, d, freshId), moves);
      var m3 := MouseUp(cfg, relists, m2, u);
      && m3.session == Session(None, false, d.item)
      && ((!IsAnchor(u) || Rejected(cfg, relists, m2, u.item.value)) ==> m3.graph == m0.graph)
      && (IsAnchor(u) && !Rejected(cfg, relists, m2, u.item.value) ==>
            u.item != d.item
            && m3.graph == Some(m0.graph.value.(edges :=
                 m0.graph.value.edges[freshId := CommittedEdge(cfg, d, u)])))
  {
    PressThenMoves(cfg, m0, d, freshId, moves);
    ReleaseFromDrag(cfg, relists, m0.graph.value, d, freshId, Moves(MouseDown(cfg, m0, d, freshId), moves), u);
  }

  /** With parallel edges disallowed and a host that lists the pending edge
      on the node it is snapped to, a release on the node the pending edge is
      already snapped to is always rejected, whether or not a committed edge
      joins the two nodes. */
  lemma RelistedSnapIsRejected(cfg: Config, m: Machine, n: NodeId, a: Option<int>)
    requires !cfg.allowMultiEdge && Pending(m.session) && m.graph.Some?
    requires m.session.edge.value in m.graph.value.edges
    requires m.graph.value.edges[m.session.edge.value].target == NodeRef(n, a)
    requires m.graph.value.edges[m.session.edge.value].source != "" && n != ""
    ensures Rejected(cfg, true, m, n)
  {
    var id := m.session.edge.value;
    assert ListedOn(m.graph.value, n, id, m.session.edge, true);
  }

  /** With parallel edges disallowed and a host that does not list the
      pending edge on its snapped node, a release on an anchor of another node
      is rejected exactly when a committed edge already runs from the source
      to that node; an edge in the opposite direction does not count. */
  lemma UniqueReleaseIff(cfg: Config, m: Machine, n: NodeId)
    requires !cfg.allowMultiEdge && Pending(m.session) && m.graph.Some?
    requires m.session.edge.value in m.graph.value.edges
    requires m.graph.value.edges[m.session.edge.value].source != n
    requires m.graph.value.edges[m.session.edge.value].source != "" && n != ""
    ensures var g, id := m.graph.value, m.session.edge.value;
      Rejected(cfg, false, m, n) <==>
        exists k :: k in g.edges && k != id && Connects(g.edges[k], g.edges[id].source, n)
  {
    var g, id := m.graph.value, m.session.edge.value;
    var src := g.edges[id].source;
    if exists k :: k in g.edges && k != id && Connects(g.edges[k], src, n) {
      var k :| k in g.edges && k != id && Connects(g.edges[k], src, n);
      assert ListedOn(g, n, k, m.session.edge, false);
    }
  }

  // Scenarios on a two-node graph with no edges.

  const Nodes2: map<NodeId, Flags> := map["A" := {}, "B" := {}]
  const Empty2 := Graph(Nodes2, map[])

  function AnchorAt(n: NodeId, i: int): Event {
    Event("anchor", Some(i), Some(n), 0.0, 0.0)
  }

  /** Press on A's anchor 0, move to the empty canvas at (50, 50), release
      there: no edge exists and no node carries `addingEdge`. */
  lemma ScenarioCancelOnCanvas(cfg: Config, relists: bool)
    ensures var canvas := Event("canvas", None, None, 50.0, 50.0);
      var m := MouseUp(cfg, relists,
                 Moves(MouseDown(cfg, Machine(Fresh, Some(Empty2)), AnchorAt("A", 0), "e1"), [canvas]),
                 canvas);
      m.graph == Some(Empty2)
      && forall n :: n in m.graph.value.nodes ==> AddingEdge !in m.graph.value.nodes[n]
  {
    InitialInv(cfg, Empty2);
    var canvas := Event("canvas", None, None, 50.0, 50.0);
    Gesture(cfg, relists, Machine(Fresh, Some(Empty2)), AnchorAt("A", 0), "e1", [canvas], canvas);
  }

  /** Press on A's anchor 1, move over B's anchor 2, release there: exactly
      one edge, from (A, 1) to (B, 2), and no node keeps a drag marker.
      This needs a configuration in which
      the snapped pending edge cannot block its own release. */
  lemma ScenarioCommit(cfg: Config, relists: bool)
    requires cfg.allowMultiEdge || !relists
    ensures var m := MouseUp(cfg, relists,
                 Moves(MouseDown(cfg, Machine(Fresh, Some(Empty2)), AnchorAt("A", 1), "e1"), [AnchorAt("B", 2)]),
                 AnchorAt("B", 2));
      m.graph.Some? && m.graph.value.edges.Keys == {"e1"}
      && m.graph.value.edges["e1"].source == "A" && m.graph.value.edges["e1"].sourceAnchor == Some(1)
      && m.graph.value.edges["e1"].target == NodeRef("B", Some(2))
      && m.graph.value.nodes == Nodes2
      && m.session == Session(None, false, Some("A"))
  {
    InitialInv(cfg, Empty2);
    var m0 := Machine(Fresh, Some(Empty2));
    var m1 := MouseDown(cfg, m0, AnchorAt("A", 1), "e1");
    var m2 := Moves(m1, [AnchorAt("B", 2)]);
    Gesture(cfg, relists, m0, AnchorAt("A", 1), "e1", [AnchorAt("B", 2)], AnchorAt("B", 2));
    MovesOnlyRetarget(m1, [AnchorAt("B", 2)]);
    if !cfg.allowMultiEdge {
      UniqueReleaseIff(cfg, m2, "B");
    }
  }

  /** With parallel edges disallowed and an edge (A, 1) to (B, 2) already in
      the graph, the same gesture adds nothing. */
  lemma ScenarioDuplicate(relists: bool)
    ensures var cfg := Config("line", false);
      var g := Empty2.(edges := map["e0" := Edge("A", Some(1), NodeRef("B", Some(2)), "line", EdgeLabel, {})]);
      var m := MouseUp(cfg, relists,
                 Moves(MouseDown(cfg, Machine(Fresh, Some(g)), AnchorAt("A", 1), "e1"), [AnchorAt("B", 2)]),
                 AnchorAt("B", 2));
      m.graph == Some(g)
  {
    var cfg := Config("line", false);
    var g := Empty2.(edges := map["e0" := Edge("A", Some(1), NodeRef("B", Some(2)), "line", EdgeLabel, {})]);
    InitialInv(cfg, g);
    var m0 := Machine(Fresh, Some(g));
    var m1 := MouseDown(cfg, m0, AnchorAt("A", 1), "e1");
    var m2 := Moves(m1, [AnchorAt("B", 2)]);
    MovesOnlyRetarget(m1, [AnchorAt("B", 2)]);
    Gesture(cfg, relists, m0, AnchorAt("A", 1), "e1", [AnchorAt("B", 2)], AnchorAt("B", 2));
    assert ListedOn(m2.graph.value, "B", "e0", m2.session.edge, relists);
    assert Rejected(cfg, relists, m2, "B");
  }

  /** Press on A's anchor 0 and release on A's anchor 2: no edge is added. */
  lemma ScenarioSelfLoop(cfg: Config, relists: bool)
    ensures var m := MouseUp(cfg, relists,
                 MouseDown(cfg, Machine(Fresh, Some(Empty2)), AnchorAt("A", 0), "e1"),
                 AnchorAt("A", 2));
      m.graph == Some(Empty2)
  {
    InitialInv(cfg, Empty2);
    Gesture(cfg, relists, Machine(Fresh, Some(Empty2)), AnchorAt("A", 0), "e1", [], AnchorAt("A", 2));
  }
}
