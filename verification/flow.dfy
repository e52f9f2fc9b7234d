/** The flow component's rules that decide which built-in interactions may
    start, and the id filling it applies to incoming data. */
module Flow {
  import opened Js
  import opened Items

  /** The shape classes on which a press must not start a node drag. */
  const NoDragClasses: seq<string> := ["anchor", "banAnchor"]

  /** `canDragNode(e)`: the press is not on an anchor or a banned anchor. */
  predicate CanDragNode(e: Event)
    ensures CanDragNode(e) <==> e.className != "anchor" && e.className != "banAnchor"
  {
    assert NoDragClasses[0] == "anchor" && NoDragClasses[1] == "banAnchor";
    !(exists i :: 0 <= i < |NoDragClasses| && NoDragClasses[i] == e.className)
  }

  /** A press on an anchor goes to drag-add-edge and never to the node drag;
      a press elsewhere on a node goes to the node drag and starts no edge;
      a banned anchor starts neither. */
  lemma PressGoesToOneBehavior(e: Event)
    ensures IsAnchor(e) <==> !CanDragNode(e) && e.className != "banAnchor"
    ensures e.className == "banAnchor" ==> !CanDragNode(e) && !IsAnchor(e)
  {
  }

  /** The plug-in signals the host graph carries. */
  datatype Signals = Signals(showItemPopover: Value, showContextMenu: Value, showEditableLabel: Value)

  /** `canZoomCanvas()`: there is a graph and no item popover, context menu
      or label editor is showing. */
  predicate CanZoomCanvas(g: Option<Signals>)
    ensures CanZoomCanvas(g) ==> g.Some?
    ensures g.Some? ==>
      (CanZoomCanvas(g) <==> !Truthy(g.value.showItemPopover) && !Truthy(g.value.showContextMenu)
                             && !Truthy(g.value.showEditableLabel))
  {
    match g
    case None => false
    case Some(s) => !Truthy(s.showItemPopover) && !Truthy(s.showContextMenu) && !Truthy(s.showEditableLabel)
  }

  // ---------------------------------------------------------------------
  // parseData

  /** Items are plain objects; those with a truthy `id` keep it. */
  predicate HasId(item: Object) {
    Truthy(Get(item, "id"))
  }

  /** The number of items without an id, i.e. the number of `guid()` calls
      `parseData` makes for them. */
  function Missing(items: seq<Object>): (c: nat)
    ensures c <= |items|
    decreases |items|
  {
    if |items| == 0 then 0
    else Missing(items[..|items| - 1]) + if HasId(items[|items| - 1]) then 0 else 1
  }

  /** The items with ids filled in: the `k`-th item without an id (counting
      from 0) gets `guid(k)`, the `k`-th value `guid()` returns. */
  function FillIds(items: seq<Object>, guid: nat -> string): (r: seq<Object>)
    ensures |r| == |items|
    decreases |items|
  {
    if |items| == 0 then []
    else
      var init := items[..|items| - 1];
      var last := items[|items| - 1];
      FillIds(init, guid) + [if HasId(last) then last else last["id" := Str(guid(Missing(init)))]]
  }

  /** Each item is left alone or given the next fresh id in order, and
      nothing else about it changes. */
  lemma {:induction false} FillIdsPointwise(items: seq<Object>, guid: nat -> string, i: int)
    requires 0 <= i < |items|
    ensures HasId(items[i]) ==> FillIds(items, guid)[i] == items[i]
    ensures !HasId(items[i]) ==> FillIds(items, guid)[i] == items[i]["id" := Str(guid(Missing(items[..i])))]
    decreases |items|
  {
    if i < |items| - 1 {
      var init := items[..|items| - 1];
      FillIdsPointwise(init, guid, i);
      assert init[..i] == items[..i];
    } else {
      assert items[..|items| - 1] == items[..i];
    }
  }

  /** `parseData({nodes, edges})`: one pass over the nodes and then the
      edges, drawing a fresh id for each item that has none. The source
      mutates the items in place; here the filled arrays are returned. */
  method ParseData(nodes: seq<Object>, edges: seq<Object>, guid: nat -> string)
    returns (nodes': seq<Object>, edges': seq<Object>)
    ensures |nodes'| == |nodes| && |edges'| == |edges|
    ensures nodes' + edges' == FillIds(nodes + edges, guid)
    ensures forall i :: 0 <= i < |nodes| && HasId(nodes[i]) ==> nodes'[i] == nodes[i]
    ensures forall i :: 0 <= i < |edges| && HasId(edges[i]) ==> edges'[i] == edges[i]
  {
    var all := nodes + edges;
    var out: seq<Object> := [];
    var drawn := 0;
    var i := 0;
    while i < |all|
      invariant 0 <= i <= |all|
      invariant out == FillIds(all[..i], guid)
      invariant drawn == Missing(all[..i])
    {
      assert all[..i + 1][..i] == all[..i];
      var item := all[i];
      if HasId(item) {
        out := out + [item];
      } else {
        out := out + [item["id" := Str(guid(drawn))]];
        drawn := drawn + 1;
      }
      i := i + 1;
    }
    assert all[..|all|] == all;
    nodes' := out[..|nodes|];
    edges' := out[|nodes|..];
    assert nodes' + edges' == out;
    forall j | 0 <= j < |nodes| && HasId(nodes[j]) ensures nodes'[j] == nodes[j] {
      FillIdsPointwise(all, guid, j);
    }
    forall j | 0 <= j < |edges| && HasId(edges[j]) ensures edges'[j] == edges[j] {
      assert all[|nodes| + j] == edges[j];
      FillIdsPointwise(all, guid, |nodes| + j);
    }
  }

  /** When `guid()` never returns the empty string, every item ends with a
      truthy id. */
  lemma AllHaveIds(items: seq<Object>, guid: nat -> string)
    requires forall k :: guid(k) != ""
    ensures forall i :: 0 <= i < |items| ==> HasId(FillIds(items, guid)[i])
  {
    forall i | 0 <= i < |items| ensures HasId(FillIds(items, guid)[i]) {
      FillIdsPointwise(items, guid, i);
    }
  }

  lemma {:induction false} MissingGrows(items: seq<Object>, i: int, j: int)
    requires 0 <= i < j <= |items| && !HasId(items[i])
    ensures Missing(items[..i]) < Missing(items[..j])
    decreases j
  {
    if j == i + 1 {
      assert items[..j][..i] == items[..i];
    } else {
      MissingGrows(items, i, j - 1);
      assert items[..j][..j - 1] == items[..j - 1];
    }
  }

  /** When `guid()` never repeats, two items that both lacked an id end with
      different ids. */
  lemma NewIdsDistinct(items: seq<Object>, guid: nat -> string, i: int, j: int)
    requires forall a, b :: a != b ==> guid(a) != guid(b)
    requires 0 <= i < j < |items| && !HasId(items[i]) && !HasId(items[j])
    ensures Get(FillIds(items, guid)[i], "id") != Get(FillIds(items, guid)[j], "id")
  {
    FillIdsPointwise(items, guid, i);
    FillIdsPointwise(items, guid, j);
    MissingGrows(items, i, j);
  }

  /** Filling is idempotent: data whose ids were filled is left as it is. */
  lemma FillIdsIdempotent(items: seq<Object>, guid: nat -> string, guid2: nat -> string)
    requires forall k :: guid(k) != ""
    ensures FillIds(FillIds(items, guid), guid2) == FillIds(items, guid)
  {
    var r := FillIds(items, guid);
    AllHaveIds(items, guid);
    forall i | 0 <= i < |r| ensures FillIds(r, guid2)[i] == r[i] {
      FillIdsPointwise(r, guid2, i);
    }
  }
}
