/** The item-state store and graph facade the behaviors act on: nodes and
    edges, each carrying the set of named states that are currently on. */
module Items {
  import opened Js

  type NodeId = string
  type EdgeId = string

  /** Item state names the behaviors set or clear. `ActiveAnchor(i)` is the
      state `activeAnchor{i}`; an absent anchor index reads as `undefined`. */
  datatype Flag =
    | Selected
    | Active
    | AddingEdge
    | AddingSource
    | LimitLink
    | Drag
    | ActiveAnchor(index: Option<int>)

  /** The states of an item that are on (a state that is off is absent). */
  type Flags = set<Flag>

  /** The transient markers of an edge drag, cleared from every node when a
      drag ends. */
  const Transient: Flags := {AddingEdge, LimitLink, AddingSource}

  /** An edge end: a node with an optional anchor index, or a free point
      while the edge is being dragged. */
  datatype Target = NodeRef(node: NodeId, anchor: Option<int>) | Point(x: real, y: real)

  datatype Edge = Edge(
    source: NodeId,
    sourceAnchor: Option<int>,
    target: Target,
    shape: string,
    labelText: string,
    states: Flags)

  datatype Graph = Graph(nodes: map<NodeId, Flags>, edges: map<EdgeId, Edge>)

  /** A pointer event: the class name and anchor index of the shape hit, the
      item (node or edge) that shape belongs to, and the pointer position. */
  datatype Event = Event(className: string, index: Option<int>, item: Option<string>, x: real, y: real)

  /** The shape hit is an anchor: drag-add-edge's `isAnchor` (and so its
      `addEdgeCheck`) and hover-anchor's `shouldBegin`. */
  predicate IsAnchor(e: Event) {
    e.className == "anchor"
  }

  /** The host's guarantee that an anchor shape always belongs to a node:
      handlers read `ev.item` as soon as the anchor test passes. */
  predicate AnchorOwned(e: Event) {
    IsAnchor(e) ==> e.item.Some?
  }

  /** `graph.setItemState(node, f, v)`. */
  function SetNodeState(g: Graph, n: NodeId, f: Flag, v: bool): (r: Graph)
    ensures r.edges == g.edges && r.nodes.Keys == g.nodes.Keys
    ensures n in g.nodes ==> (f in r.nodes[n] <==> v)
    ensures n in g.nodes ==> r.nodes[n] - {f} == g.nodes[n] - {f}
    ensures forall m :: m in g.nodes && m != n ==> r.nodes[m] == g.nodes[m]
  {
    if n in g.nodes then
      g.(nodes := g.nodes[n := if v then g.nodes[n] + {f} else g.nodes[n] - {f}])
    else g
  }

  /** `graph.setItemState(edge, f, v)`. */
  function SetEdgeState(g: Graph, id: EdgeId, f: Flag, v: bool): (r: Graph)
    ensures r.nodes == g.nodes && r.edges.Keys == g.edges.Keys
    ensures id in g.edges ==> (f in r.edges[id].states <==> v)
    ensures id in g.edges ==> r.edges[id] == g.edges[id].(states := r.edges[id].states)
    ensures id in g.edges ==> r.edges[id].states - {f} == g.edges[id].states - {f}
    ensures forall k :: k in g.edges && k != id ==> r.edges[k] == g.edges[k]
  {
    if id in g.edges then
      var e := g.edges[id];
      g.(edges := g.edges[id := e.(states := if v then e.states + {f} else e.states - {f})])
    else g
  }

  /** `graph.updateItem(edge, {target})`: re-aims one edge. */
  function Retarget(g: Graph, id: EdgeId, t: Target): (r: Graph)
    ensures r.nodes == g.nodes && r.edges.Keys == g.edges.Keys
    ensures id in g.edges ==> r.edges[id] == g.edges[id].(target := t)
    ensures forall k :: k in g.edges && k != id ==> r.edges[k] == g.edges[k]
  {
    if id in g.edges then g.(edges := g.edges[id := g.edges[id].(target := t)]) else g
  }

  /** `graph.removeItem(edge)`. */
  function RemoveEdge(g: Graph, id: EdgeId): (r: Graph)
    ensures r.nodes == g.nodes
    ensures r.edges.Keys == g.edges.Keys - {id}
    ensures forall k :: k in r.edges ==> r.edges[k] == g.edges[k]
  {
    g.(edges := map k | k in g.edges && k != id :: g.edges[k])
  }

  /** The node an edge end names, if any. */
  function TargetNode(t: Target): Option<NodeId> {
    match t
    case NodeRef(n, _) => Some(n)
    case Point(_, _) => None
  }

  /** `graph.setItemState(edge.getTarget(), f, v)`: a state on a node end;
      a point end is not an item and nothing changes. */
  function SetTargetState(g: Graph, t: Target, f: Flag, v: bool): (r: Graph)
    ensures r.edges == g.edges && r.nodes.Keys == g.nodes.Keys
    ensures t.Point? ==> r == g
    ensures t.NodeRef? && t.node in g.nodes ==> (f in r.nodes[t.node] <==> v)
    ensures t.NodeRef? && t.node in g.nodes ==> r.nodes[t.node] - {f} == g.nodes[t.node] - {f}
    ensures forall m :: m in g.nodes && Some(m) != TargetNode(t) ==> r.nodes[m] == g.nodes[m]
  {
    match t
    case NodeRef(n, _) => SetNodeState(g, n, f, v)
    case Point(_, _) => g
  }
}
