# GBEditor interaction layer in Dafny

This project models the part of the GBEditor flow editor that turns pointer
events into graph edits, together with the small pure rules around it. Each
event handler is a pure step function over immutable data: the behavior's own
fields plus the graph it is bound to. The graph is an `Option`, so every "no
graph, do nothing" guard can be stated.

- **drag-add-edge** (`DragAddEdge`, `DragAddEdgeProps`). Pressing on a node's
  anchor creates a speculative edge whose target is a free point. Moves re-aim
  it, and it snaps to the anchors of other nodes. Releasing commits the edge
  or removes it.
  - The properties cover a reachable-state invariant: no self-loops, no
    duplicates when parallel edges are disallowed, no half-formed edge after
    a release, and no drag marker left on any node.
  - A whole-gesture theorem shows that a press, any number of moves and a
    release leave either exactly the graph from before the press, or that
    graph plus one edge.
- **hover-anchor** (`HoverAnchor`) and **active-edge** (`ActiveEdge`). These
  switch `activeAnchor{i}` on a node, and `active` on an edge and both its
  ends.
- **Behavior registry** (`BehaviorManager`). Behaviors are registered by name
  and their names are grouped by graph mode.
- **Icon node rules** (`IconNode`, `LabelWrap`): default anchor points, the
  wrapper style chosen from the node's states, and label wrapping with an
  ellipsis. Text width is an abstract function `string -> real`.
- **drag-add-node** (`DragAddNode`). A delegate rectangle follows the pointer,
  and the drop issues one add-node command.
- **Flow component rules** (`Flow`): `canDragNode`, `canZoomCanvas`, and the
  id filling done by `parseData`.

Shared data lives in two modules:
- `Js` holds JavaScript values with their truthiness rule, number conversion and object spread.
- `Items` holds the graph and its item states. An item's states are the set
  of state names that are on.

**Host assumption `relists`.** `isOnlyOneEdge` scans the edges the host lists
on the node under the pointer. By then the pending edge may already have been
snapped onto that node by a move. Whether the host lists it there is host
behaviour, not visible in the editor's code. The model leaves it as a boolean
parameter `relists`:
- `DragAddEdgeProps.RelistedSnapIsRejected` shows what happens when
  `relists` is true.
- `DragAddEdgeProps.UniqueReleaseIff` shows what happens when it is false.

Committed edges are always listed on both of their ends.

**Fresh ids.** `guid()` is a parameter. For drag-add-edge and drag-add-node it
is the value the call returns. For `parseData` it is a function from the
number of calls made so far to the value returned. Freshness and
non-emptiness of these ids are hypotheses of the theorems that need them.
They are never preconditions of the handlers.

## Model

| member | source | states |
|---|---|---|
| Items.SetNodeState | src/behavior/hoverAnchor.ts:31 | setting state `f` of node `n` to `v` makes `f` on exactly when `v`; no other state of `n`, no other node and no edge changes; an unknown node is a no-op |
| Items.SetEdgeState | src/behavior/dragAddEdge.ts:166 | setting a state on an edge changes only that state of that edge: its ends, shape, label, other edges and all nodes are kept |
| Items.Retarget | src/behavior/dragAddEdge.ts:120-123 | updating an edge's target changes that edge's target and nothing else in the graph |
| Items.RemoveEdge | src/behavior/dragAddEdge.ts:146 | removing an edge deletes exactly that id; every other edge and every node is kept as it was |
| Items.SetTargetState | src/behavior/activeEdge.ts:35 | a state set on an edge's target reaches the target node only: there the flag is on exactly when asked and the node's other states are kept; every other node and all edges are unchanged; a free-point target is not an item and nothing changes |
| Items.IsAnchor | src/behavior/dragAddEdge.ts:38-43 | the anchor test shared by drag-add-edge (`isAnchor`, and so `addEdgeCheck`) and hover-anchor (`shouldBegin`): the shape hit has class name `anchor` |
| DragAddEdge.PendingSource | src/behavior/dragAddEdge.ts:55 | the pending source exists exactly when a pending edge is present in the graph, and it is that edge's source node |
| DragAddEdge.NotSelf | src/behavior/dragAddEdge.ts:45-50 | the node under the pointer fails the test exactly when a pending edge is in the graph and starts at that node |
| DragAddEdge.IsOnlyOneEdge | src/behavior/dragAddEdge.ts:53-64 | with parallel edges allowed it always passes; it fails only when parallel edges are disallowed, both ids are non-empty, and some edge already runs from the pending source to the node |
| DragAddEdge.Rejected | src/behavior/dragAddEdge.ts:161 | a release can be rejected only while a pending edge is in the graph; with parallel edges allowed it is rejected exactly when released on the pending edge's own source |
| DragAddEdge.DefaultRejectsOnlySelf | src/behavior/dragAddEdge.ts:26-28 | the default configuration draws `line` edges and allows parallel edges, so a release is rejected exactly when it is on the source node |
| DragAddEdge.MoveTarget | src/behavior/dragAddEdge.ts:114-124 | a move aims the edge at (node, anchor index) exactly when the pointer is on an anchor of a node that is not the pending source, and at the pointer's point otherwise |
| DragAddEdge.Events | src/behavior/dragAddEdge.ts:30-36 | exactly `node:mousedown`, `mousemove` and `mouseup` are listened to, bound to the press, move and release handlers, one event per handler |
| DragAddEdge.MarkForAdding | src/behavior/dragAddEdge.ts:81-92 | a press marks every node other than the pressed one `addingEdge` and the pressed one `addingSource`, adding to their existing states; edges untouched |
| DragAddEdge.HideAnchors | src/behavior/dragAddEdge.ts:132-143 | after `hideAnchors` no node carries `addingEdge`, `limitLink` or `addingSource`, and every other state of every node is as before |
| DragAddEdge.MouseDown | src/behavior/dragAddEdge.ts:74-110 | a press off an anchor changes nothing; a press on one records the pressed node even without a graph, marks the nodes, and creates exactly one edge (pressed node and anchor to the pointer point, shape = configured edge type) only when no drag is pending; a press during a drag adds no second edge |
| DragAddEdge.MouseMove | src/behavior/dragAddEdge.ts:111-126 | without a pending drag and a graph a move changes nothing; with one it changes only the pending edge's target, which becomes (node, anchor) exactly when the pointer is on an anchor of a node other than the source, and the pointer point otherwise |
| DragAddEdge.Cancel | src/behavior/dragAddEdge.ts:145-149 | cancelling ends the session; exactly the pending edge is removed and every other edge is kept as it was; every node loses the three drag markers and keeps its other states |
| DragAddEdge.Commit | src/behavior/dragAddEdge.ts:166-173 | committing ends the session (no pending edge, `addingEdge` false, `sourceNode` kept); no edge is added or removed; the committed edge is aimed at the released node and anchor with `drag` off and its other fields kept; every other edge is unchanged; every node loses the drag markers and keeps its other states |
| DragAddEdge.MouseUp | src/behavior/dragAddEdge.ts:127-175 | without a graph or a pending drag a release changes nothing; with one the session always ends and the three drag markers are cleared from every node; off an anchor, on the source or on a duplicate the edge is removed; on any other anchor it stays, aimed at that anchor with `drag` off, and no other edge changes |
| DragAddEdgeProps.InitialInv | src/behavior/dragAddEdge.ts:5-8 | a fresh behavior (no edge, not adding, no source) on a clean graph, or with no graph, satisfies the invariant |
| DragAddEdgeProps.DownPreservesInv | src/behavior/dragAddEdge.ts:74-110 | a press keeps the invariant: session fields agree, only the pending edge ends at a point, markers only while a drag is pending, no self-loops, no duplicates when disallowed |
| DragAddEdgeProps.MovePreservesInv | src/behavior/dragAddEdge.ts:111-126 | a move keeps the invariant: in particular it never snaps the pending edge onto its own source |
| DragAddEdgeProps.UpPreservesInv | src/behavior/dragAddEdge.ts:150-174 | a release keeps the invariant: a committed edge is never a self-loop and, with parallel edges disallowed, never duplicates a committed edge |
| DragAddEdgeProps.CancelKeepsInv | src/behavior/dragAddEdge.ts:145-154 | removing the pending edge and hiding the anchors leaves a graph with nothing pending that keeps the invariant |
| DragAddEdgeProps.CommitKeepsInv | src/behavior/dragAddEdge.ts:166-173 | aiming the pending edge at a node other than its source, when no committed edge already joins the two, and hiding the anchors leaves a graph with nothing pending that keeps the invariant |
| DragAddEdgeProps.RunPreservesInv | src/behavior/dragAddEdge.ts:30-36 | every state reached by any sequence of presses, moves and releases satisfies the invariant |
| DragAddEdgeProps.ReleaseLeavesNothingBehind | src/behavior/dragAddEdge.ts:145-173 | after any release in a reachable state: no drag pending, no node carries a drag marker, and every edge ends at a node |
| DragAddEdgeProps.MovesOnlyRetarget | src/behavior/dragAddEdge.ts:111-126 | any run of moves during a drag leaves the session, all nodes and all other edges alone and changes at most the pending edge's target |
| DragAddEdgeProps.PressThenMoves | src/behavior/dragAddEdge.ts:94-108 | after a press from idle and any moves, the graph is the pre-press graph with the nodes marked and one extra edge: the created edge with only its target possibly changed |
| DragAddEdgeProps.ReleaseFromDrag | src/behavior/dragAddEdge.ts:150-174 | releasing mid-gesture restores exactly the pre-press graph when rejected or off an anchor, and otherwise yields the pre-press graph plus exactly the committed edge, on a node other than the source |
| DragAddEdgeProps.MarkThenHide | src/behavior/dragAddEdge.ts:132-139 | on nodes that carried no drag markers, hiding the anchors exactly undoes the marking a press made |
| DragAddEdgeProps.Gesture | src/behavior/dragAddEdge.ts:74-175 | a whole press, moves, release gesture either leaves the graph exactly as before the press or adds exactly one edge from the pressed anchor to the released anchor of another node |
| DragAddEdgeProps.RelistedSnapIsRejected | src/behavior/dragAddEdge.ts:53-64 | with parallel edges disallowed and a host that lists the snapped pending edge on its target, a release on the node it is snapped to is always rejected |
| DragAddEdgeProps.UniqueReleaseIff | src/behavior/dragAddEdge.ts:53-64 | with parallel edges disallowed and a host that does not list the pending edge, a release on another node is rejected if and only if a committed edge already runs from the source to that node; a reverse edge does not block |
| DragAddEdgeProps.ScenarioCancelOnCanvas | src/behavior/dragAddEdge.ts:150-156 | press on an anchor, move and release on the canvas: the graph is exactly as before |
| DragAddEdgeProps.ScenarioCommit | src/behavior/dragAddEdge.ts:159-173 | press on A's anchor, move over B's anchor, release there: exactly one edge A to B with those anchors, both nodes back to no states, and the session idle with A as the last pressed node |
| DragAddEdgeProps.ScenarioDuplicate | src/behavior/dragAddEdge.ts:161-165 | with parallel edges disallowed, repeating an existing A to B connection leaves the graph unchanged |
| DragAddEdgeProps.ScenarioSelfLoop | src/behavior/dragAddEdge.ts:161-165 | releasing on another anchor of the pressed node adds no edge |
| HoverAnchor.OnEnterAnchor | src/behavior/hoverAnchor.ts:25-33 | off an anchor or without a graph nothing changes; otherwise `activeAnchor{index}` is on for the hovered node and no other state of any node, and no edge, changes |
| HoverAnchor.OnLeaveAnchor | src/behavior/hoverAnchor.ts:34-42 | off an anchor or without a graph nothing changes; otherwise `activeAnchor{index}` is off for that node and nothing else changes |
| HoverAnchor.MoveIsEnterAndIdempotent | src/behavior/hoverAnchor.ts:12-16 | a `mousemove` does exactly what a `mouseenter` does, and entering twice is the same as entering once |
| HoverAnchor.EnterThenLeave | src/behavior/hoverAnchor.ts:25-42 | enter then leave equals leave alone, ends with the flag off, and restores the graph exactly when the flag was off before |
| HoverAnchor.AnchorsIndependent | src/behavior/hoverAnchor.ts:31-40 | leaving one anchor does not switch off a different anchor's (or another node's) flag that entering turned on |
| HoverAnchor.ShouldBegin | src/behavior/hoverAnchor.ts:18-24 | the handlers act only on anchor shapes; this is the shared anchor test |
| HoverAnchor.Events | src/behavior/hoverAnchor.ts:11-17 | `mouseenter`, `mousemove` and `mouseleave` are listened to, and only `mouseleave` runs the leave handler |
| HoverAnchor.Dispatch | src/behavior/hoverAnchor.ts:11-17 | an unlisted event changes nothing; `mouseleave` runs the leave handler; `mouseenter` and `mousemove` both run the enter handler |
| ActiveEdge.SetActive | src/behavior/activeEdge.ts:32-36 | turns `active` on or off on the edge, its target node and its source node, leaving every other state and item as it was |
| ActiveEdge.SetAllItemStates | src/behavior/activeEdge.ts:26-38 | nothing changes without a graph or when the edge's target is a point with non-zero x; otherwise `active` is on for the edge and both end nodes and nothing else changes |
| ActiveEdge.ClearAllItemStates | src/behavior/activeEdge.ts:40-50 | under the same guard, `active` is off for the edge and both end nodes and nothing else changes |
| ActiveEdge.OnThenOff | src/behavior/activeEdge.ts:46-48 | switching the three `active` states on and then off is the same as switching them off |
| ActiveEdge.OffWhenInactive | src/behavior/activeEdge.ts:46-48 | switching off states that were already off changes nothing |
| ActiveEdge.EnterThenLeave | src/behavior/activeEdge.ts:26-50 | enter then leave on an edge equals leave alone; when the guard holds, the graph is restored exactly when none of the three was active before |
| ActiveEdge.GuardOnTargets | src/behavior/activeEdge.ts:19-24 | an edge whose target is a point with non-zero x is never highlighted; an edge between nodes always is |
| ActiveEdge.ShouldBegin | src/behavior/activeEdge.ts:19-24 | an edge whose target is a node always passes; one whose target is a free point passes exactly when the point's x is 0, which JavaScript reads as falsy |
| BehaviorManager.Register | src/common/behaviorManager/index.ts:29-30 | registering stores the behavior under its name, replacing any earlier one, and keeps every other registration |
| BehaviorManager.GroupingUnique | src/common/behaviorManager/index.ts:13-27 | a grouping that lists every name under its mode and lists nothing else is the grouping, with exactly the modes in use as keys |
| BehaviorManager.Grouping | src/common/behaviorManager/index.ts:13-27 | the reference grouping: its keys are exactly the modes in use, and every registered name is listed under its own mode |
| BehaviorManager.ListedModes | src/common/behaviorManager/index.ts:16-22 | a grouping that lists every name under its mode, and nothing else, has exactly the modes in use as keys |
| BehaviorManager.ListedNames | src/common/behaviorManager/index.ts:22-24 | in such a grouping, the names under a mode are exactly the names registered in it, each mapped to itself |
| BehaviorManager.GetRegisteredBehaviors | src/common/behaviorManager/index.ts:13-27 | the result's keys are exactly the modes of registered behaviors (`'default'` when unset); every name appears under its own mode mapped to itself and nowhere else |
| BehaviorManager.EmptyGroupsNothing | src/common/behaviorManager/index.ts:9-11 | a fresh manager groups nothing |
| BehaviorManager.ExactlyOneMode | src/common/behaviorManager/index.ts:16-24 | a registered name is listed under a mode if and only if that mode is its behavior's mode |
| BehaviorManager.ReRegisterMoves | src/common/behaviorManager/index.ts:29-30 | re-registering a name lists it under the new behavior's mode and leaves other names under theirs |
| BehaviorManager.LoadedModes | src/behavior/dragAddNode.ts:26 | with the four behaviors loaded, `drag-add-node` is alone in the add-node mode and the other three are in `'default'` |
| IconNode.GetAnchorPoints | src/shape/nodes/iconNode.ts:219-224 | the result is always an array; it is the model's own value exactly when that is an array, and otherwise four points |
| IconNode.DefaultsAreMidpoints | src/shape/nodes/iconNode.ts:223 | the default anchors are the midpoints of the left, right, top and bottom sides of the unit box, in that order, and are pairwise distinct |
| IconNode.WrapperStyleFor | src/shape/nodes/iconNode.ts:206-249 | the selected wrapper style is applied if and only if the item's states include `selected`, the default style otherwise; the selected stroke is the theme colour when that is truthy, else #6580EB; the selected box has the key shape's centre and is 2 larger on every side |
| IconNode.StyleFollowsSelected | src/shape/nodes/iconNode.ts:206-216 | setting `selected` switches to the selected style, clearing it switches back, and setting any other state keeps the current style |
| IconNode.LabelInTwoLines | src/shape/nodes/iconNode.ts:110 | a node label is wrapped at width 60 - 20 = 40 into at most two lines (at most one newline), and ends in "..." when it needed more |
| LabelWrap.TrimEnd | src/shape/nodes/iconNode.ts:148 | removes exactly the trailing white space: the result is a prefix, the removed part is all white space, the result does not end in white space |
| LabelWrap.TrimStart | src/shape/nodes/iconNode.ts:148 | removes exactly the leading white space, symmetrically |
| LabelWrap.Trim | src/shape/nodes/iconNode.ts:148 | `trim` yields an infix of the text such that everything removed before and after it is white space, and the infix neither starts nor ends with white space |
| LabelWrap.ResetLabelText | src/shape/nodes/iconNode.ts:127-129 | a text that is not a string, or is empty, comes back unchanged; a string gives a string |
| LabelWrap.ResetLabelTextLoop | src/shape/nodes/iconNode.ts:127-185 | the source's procedure, with its two loops, computes the functional definition for every input |
| LabelWrap.SplitLoop | src/shape/nodes/iconNode.ts:137-162 | the line-splitting loop, run over a non-empty text, yields exactly the lines of the fold |
| LabelWrap.EllipsisLoop | src/shape/nodes/iconNode.ts:172-179 | the ellipsis loop yields exactly the characters the functional shortening keeps |
| LabelWrap.Feed | src/shape/nodes/iconNode.ts:143-156 | one loop pass never reopens a closed line and closes at most two lines (one at a line break, one on overflow) |
| LabelWrap.FeedAll | src/shape/nodes/iconNode.ts:142-158 | after the whole text the loop has closed at most two lines per character |
| LabelWrap.SplitLines | src/shape/nodes/iconNode.ts:159-161 | the final line is appended to the closed lines, giving between 1 and 2n + 1 lines for n characters |
| LabelWrap.KeepFitting | src/shape/nodes/iconNode.ts:173-179 | the shortening loop only ever appends: the kept text starts with what was kept before, and grows by at most the line's length |
| LabelWrap.JoinEnds | src/shape/nodes/iconNode.ts:181-184 | `join('\n')` ends with the last line, so a shown text whose last line was shortened ends in its "..." |
| LabelWrap.FeedAllKeepsText | src/shape/nodes/iconNode.ts:142-161 | without line breaks, the closed lines followed by the line being built spell out exactly the characters read |
| LabelWrap.SplitKeepsText | src/shape/nodes/iconNode.ts:152-161 | the lines of a label without line breaks concatenate back to the label: overflow cuts lines but loses or moves no character |
| LabelWrap.FeedAllBreakFree | src/shape/nodes/iconNode.ts:146-150 | when the empty string fits the width, no closed line and no line being built contains a line break |
| LabelWrap.FeedBreakFree | src/shape/nodes/iconNode.ts:143-156 | when the empty string fits, one loop pass keeps every closed line and the line being built free of line breaks |
| LabelWrap.SplitLinesBreakFree | src/shape/nodes/iconNode.ts:142-161 | when the empty string fits the width, no line contains a line break |
| LabelWrap.JoinNewlines | src/shape/nodes/iconNode.ts:166-168 | joining n break-free lines gives exactly n - 1 newlines |
| LabelWrap.KeepFittingFits | src/shape/nodes/iconNode.ts:173-179 | the ellipsis loop keeps a subsequence of the last line, and whenever it keeps anything the kept text measures under the width less the ellipsis |
| LabelWrap.AtMostMaxLines | src/shape/nodes/iconNode.ts:163-184 | when the empty string fits, the result has at most `maxLine - 1` newlines, and when there were more lines, exactly `maxLine - 1` newlines and a trailing "..." |
| LabelWrap.ShownBounds | src/shape/nodes/iconNode.ts:163-184 | for any break-free lines, what is shown has at most `maxLine - 1` newlines; when there were more lines than `maxLine`, exactly that many and a trailing "..." |
| LabelWrap.FewLines | src/shape/nodes/iconNode.ts:165-170 | the trimmed join of at most `maxLine` break-free lines has at most one newline fewer than lines |
| LabelWrap.ManyLines | src/shape/nodes/iconNode.ts:172-184 | the first `maxLine - 1` lines plus the shortened last one joined give exactly `maxLine - 1` newlines and end in "..." |
| LabelWrap.FitsUnchanged | src/shape/nodes/iconNode.ts:142-170 | a label without line breaks or surrounding white space whose every prefix fits is shown exactly as it is |
| DragAddNode.Dimensions | src/behavior/dragAddNode.ts:46-49 | a missing size is 100 by 100; a number is both sides; any other falsy size (`null`, `false`, `0`, `""`) is 0 by 0; `true` is 1 by 1; a non-empty string is the number it spells, or NaN; an array gives its first two entries read as numbers, and is NaN when it has fewer than two |
| DragAddNode.DeclaredSizes | src/behavior/dragAddNode.ts:46-49 | a size of the declared type (a number or a pair of numbers) or a missing one gives finite dimensions, whatever the string conversion |
| DragAddNode.ArrayEntrySizes | src/behavior/dragAddNode.ts:48-49 | array entries are read one by one as numbers: `[true, 10]` gives 1 by 10, while an `undefined` entry or a nested array such as `[true]` or `[1, 2]` gives NaN |
| DragAddNode.CanvasMouseEnter | src/behavior/dragAddNode.ts:36-78 | with a delegate already present or no graph nothing changes; otherwise a delegate of the model's size appears, centred on the pointer |
| DragAddNode.MouseMove | src/behavior/dragAddNode.ts:80-94 | without a graph or delegate nothing changes; otherwise the delegate keeps its size and is re-centred on the pointer |
| DragAddNode.DropPosition | src/behavior/dragAddNode.ts:101-109 | for a `'topLeft'` model the pointer is the centre of a delegate-sized box at the drop position; for any other model the drop position is the pointer |
| DragAddNode.Payload | src/behavior/dragAddNode.ts:113-121 | the added node has the model's properties, plus a fresh id and the drop position wherever the model lacks `id`, `x` or `y` |
| DragAddNode.MouseUp | src/behavior/dragAddNode.ts:96-122 | without a graph or delegate nothing happens and no command is issued; otherwise the delegate is taken off the canvas (the reference is kept) and exactly one add-node command is issued |
| DragAddNode.DropMatchesDelegate | src/behavior/dragAddNode.ts:101-109 | with `center: 'topLeft'` the node lands at the delegate's top-left corner for that pointer, otherwise at the delegate's centre |
| DragAddNode.ModelOverrides | src/behavior/dragAddNode.ts:113-121 | the added node is the dragged model plus at most the missing `id`, `x`, `y`; the model's own values always win |
| DragAddNode.ReleaseKeepsReference | src/behavior/dragAddNode.ts:111 | after a release the enter guard stays closed, and a further release would issue another add command |
| DragAddNode.EnterMoveRelease | src/behavior/dragAddNode.ts:36-122 | enter, move, release adds exactly one node, at the delegate's last drawn position for a `'topLeft'` model |
| DragAddNode.Events | src/behavior/dragAddNode.ts:28-34 | exactly `canvas:mouseenter`, `mousemove` and `mouseup` are listened to, bound to the enter, move and release handlers, one event per handler |
| Flow.CanDragNode | src/components/Flow/index.tsx:31-32 | a node drag may start if and only if the shape hit is neither `anchor` nor `banAnchor` |
| Flow.PressGoesToOneBehavior | src/components/Flow/index.tsx:31-32 | a press on an anchor starts an edge and never a node drag; a `banAnchor` starts neither |
| Flow.CanZoomCanvas | src/components/Flow/index.tsx:34-46 | zooming is refused without a graph, and with one is allowed if and only if no popover, context menu or label editor is showing |
| Flow.FillIds | src/components/Flow/index.tsx:51-59 | the reference id filling keeps the number of items; its pointwise behaviour is `Flow.FillIdsPointwise` |
| Flow.FillIdsPointwise | src/components/Flow/index.tsx:51-59 | an item with a truthy id is unchanged; an item without one gets only its `id` set, to the next fresh id in item order |
| Flow.ParseData | src/components/Flow/index.tsx:48-60 | the loop over nodes then edges gives the filled items, keeps both counts, and leaves every item with a truthy id unchanged |
| Flow.AllHaveIds | src/components/Flow/index.tsx:51-59 | when fresh ids are never empty, every item ends with a truthy id |
| Flow.NewIdsDistinct | src/components/Flow/index.tsx:58 | when fresh ids never repeat, two items that lacked an id end with different ids |
| Flow.FillIdsIdempotent | src/components/Flow/index.tsx:54-56 | filling already filled data changes nothing |

## Left out

- Rendering and repaint: `addShape`, `paint`, `setAutoPaint`, `refreshItem`, the `draw*`, `update`, `afterDraw` and `alignMenuIcon` methods, and every style dictionary beyond the selected/default wrapper choice. These are drawing done by the host engine.
- Text measurement: `measureText` with the label's font becomes an abstract `string -> real` function. No font or canvas is modelled.
- LabelWrap.ResetLabelText: walks the text one Dafny `char` (code point) at a time, while the source indexes UTF-16 code units. The two differ only for characters outside the Basic Multilingual Plane. It also requires `maxLine >= 1`: with `maxLine` 0 and more lines than that, the source reads `lines[-1]`, which is `undefined`, and the ellipsis loop's `for…of` throws. That error path is not modelled; the only caller passes the default 2.
- `guid()` becomes a parameter. `commandManager.execute` becomes a recorded `AddNode` command value. The command and undo subsystem is not part of this model.
- `handleAnchor` from `src/shape/anchor`: that file is not part of this model. So the anchor drawing that `setState` triggers is left out.
- G6's `registerBehavior` and `registerNode` side effects. Only the registry map is modelled.
- The commented-out `limitLink` and in/out-degree checks in drag-add-edge. `limitLink` is only ever cleared, and the model clears it.
- Items.Retarget: a target re-aimed at a point drops the stale `targetAnchor`. The source keeps it on the model, but nothing reads it while the target is a point.
- Items.SetTargetState: when an edge's target is a free point, the source passes a non-item to `setItemState`; the model treats this as a no-op.
- `initGraph`'s lodash `merge`/`omit` assembly of modes and the React/DOM glue. This covers the Graph, DetailPanel and ItemPanel components, and the ItemPanel's document `mouseup` listener that resets the mode.
- The values of `GraphMode.AddNode` and of the plug-in signal keys. They live in a constants file that is not part of this model. The add-node mode is a parameter of `BehaviorManager.LoadedModes`.
- DragAddNode.CanvasMouseEnter: requires that both dimensions read as numbers (`DragAddNode.SizeOk`). A size that yields NaN is not modelled: a string that spells no number, an array with fewer than two entries, or an array entry that is `undefined`, a non-numeric string, or a nested array such as `[true]` or `[1, 2]` (`DragAddNode.ArrayEntrySizes`). A boolean entry is not NaN: `true` reads as 1. NaN is not a real number.
- `Js.ToNumber`: JavaScript's string-to-number conversion is a parameter, not a definition.
- DragAddNode.MouseMove: the delegate's bounding box is taken as its declared width and height. Any stroke padding `getBBox` adds is not modelled. The release reads the same `getBBox`, so `DragAddNode.MouseUp`, `DragAddNode.DropPosition`, `DragAddNode.DropMatchesDelegate` and `DragAddNode.EnterMoveRelease` rest on the same simplification.
- DragAddNode.Machine: `graph` is `None` or the node model the item panel stored on the graph, so a graph without that model is not modelled. The source would throw reading `size` from it (dragAddNode.ts:46) or `center` (dragAddNode.ts:106), but the item panel always stores the model before the drag starts.
- DragAddEdgeProps.UpPreservesInv: the no-duplicate part of the invariant exempts edges whose source or target id is the empty string. The source's `!source \|\| !target` test treats such ids as falsy and skips the duplicate check for them.
- Flow.ParseData: returns new sequences instead of setting `id` on the caller's objects in place. An object listed twice gets two ids in the model; in the source, the second visit sees the id the first one set, so it gets one.
- Event objects: an anchor shape is assumed to belong to a node (`Items.AnchorOwned`), because the handlers read `ev.item` as soon as the anchor test passes.
