# egui_graph interaction core in Dafny

This project models the interactive graph view of egui_graph, a graph
widget for the egui immediate-mode GUI. The model covers two parts:

- **The interaction controller and viewport** (`src/graph_view.rs`). Each
  frame runs these handlers in a fixed order:
  1. fit-to-screen;
  2. zoom;
  3. pan;
  4. node drag;
  5. click and selection.

  The handlers update three things:
  - the persisted viewport `Metadata` (pan, zoom, first-frame flag);
  - each node's `selected`, `dragged` and `location`;
  - two append-only logs: `Change` records for the change channel and
    `Event` records for the navigation-event channel.
- **The graph access layer** (`src/graph_wrapper.rs`). These are read-only
  queries over a stable graph:
  - node and edge lookup;
  - edge endpoints;
  - the incident-edge count;
  - the `walk` traversal;
  - the hit test `node_by_pos`.

## Layout

- `wrappers.dfy` (module `Wrappers`): the `Option` type.
- `geometry.dfy` (module `Geometry`):
  - 2-D vectors and rectangles over `real`;
  - the transform `screen = graph * zoom + pan` and its inverse.
- `graph_access.dfy` (module `GraphAccess`): the graph as an arena of slots.
  - The id of a node or edge is its slot index. A removed entry leaves a
    vacant slot, so ids are never reused.
  - Traversal visits the occupied slots in increasing index order, as a
    stable graph does.
  - Every query of `GraphWrapper` is a function, with lemmas about it.
- `interaction.dfy` (module `Interaction`): every handler of the widget as a
  function on a `View`.
  - A `View` is viewport, graph, change log and event log.
  - The frame-start `ComputedState` snapshot is an argument and is never
    updated. It holds the selected ids, the dragged id, the bounds and the
    per-node radii.
  - A channel that is not registered receives nothing.
- `view_properties.dfy` (module `ViewProperties`): the lemmas that state
  what the controller promises:
  - the zoom-about-cursor and fit-to-screen equations;
  - the pan and drag rules;
  - the click and selection rules;
  - the exact records each emits;
  - scenarios.
- `graph_view.dfy` (module `GraphViewWidget`): the widget as a class
  `GraphView`.
  - Its fields are the viewport, the graph and the two logs.
  - It has one method per modelled source method, plus one per block of
    `handle_node_drag`; each updates the fields in place.
  - Each method is proved to leave the object in the state that the
    matching `Interaction` function computes from the state before the
    call.
  - `deselect_all` is a loop over the snapshot's selected list.

## Model

| member | source | states |
|---|---|---|
| Geometry.TransformRoundTrip | src/graph_wrapper.rs:41 | With a non-zero zoom, mapping a point from graph to screen coordinates and back (and from screen to graph and back) returns the point. |
| GraphAccess.Nodes | src/graph_wrapper.rs:55-57 | Lists exactly the present nodes, each with the node stored under its id, in strictly increasing id order. |
| GraphAccess.Edges | src/graph_wrapper.rs:59-61 | Lists exactly the present edges, each with its stored weight, in strictly increasing id order. |
| GraphAccess.LookupNode | src/graph_wrapper.rs:63-65 | A returned node is the one listed under that id by `nodes()`. The result is absent exactly when no listed node has that id. |
| GraphAccess.LookupEdge | src/graph_wrapper.rs:67-69 | A returned weight is the one listed under that id by `edges()`. The result is absent exactly when no listed edge has that id. |
| GraphAccess.EdgeEndpoints | src/graph_wrapper.rs:71-73 | Present exactly when the edge exists. The pair is then the stored (source, target) in either mode: the edge has the first as its source and the second as its target, so it is among the outgoing edges of the first and the incoming edges of the second. |
| GraphAccess.EdgeEndpointsPresent | src/graph_wrapper.rs:71-73 | In a well-formed graph, both reported endpoints are stored nodes. |
| GraphAccess.EdgesNumAbsent | src/graph_wrapper.rs:83-92 | In a well-formed graph, `edges_num` of an id that holds no node is 0. |
| GraphAccess.SameShapeKeepsWellFormed | src/graph_wrapper.rs:75-77 | Rewriting node contents, the only write the widget makes through `node_mut`, keeps every edge between stored nodes. |
| GraphAccess.SetNode | src/graph_wrapper.rs:75-77 | Writing through `node_mut(i)` puts the new node at `i` and leaves every other id's lookup as it was. The graph's shape is unchanged. |
| GraphAccess.EdgesNumDirected | src/graph_wrapper.rs:83-88 | In a directed graph the count equals the outgoing edges plus the incoming edges. It also equals the incident edges plus the self-loops, so a self-loop counts twice. |
| GraphAccess.EdgesNumUndirected | src/graph_wrapper.rs:89-91 | In an undirected graph the count is the number of incident edges, with a self-loop counted once. It equals the size of `edges_directed` in either direction. |
| GraphAccess.Walk | src/graph_wrapper.rs:25-32 | The walk visits, in order, exactly the entries of `nodes()` and then exactly the entries of `edges()`, so each node and each edge is visited once. Every visited node satisfies `node(idx) == Some(n)`, and every visited edge satisfies `edge(idx) == Some(e)`. |
| GraphAccess.WalkTrace | src/graph_wrapper.rs:25-32 | The recorded trace is one 'n' per node followed by one 'e' per edge. |
| GraphAccess.TestGraphWellFormed | src/graph_wrapper.rs:110-123 | The test graph's edges all join stored nodes. |
| GraphAccess.WalkTestGraph | src/graph_wrapper.rs:110-145 | Walking the four-node, four-edge test graph records "nnnneeee". |
| GraphAccess.FirstHit | src/graph_wrapper.rs:42-43 | The position returned is the first one whose node lies within its radius. No earlier node is within its radius. |
| GraphAccess.NodeByPosFirst | src/graph_wrapper.rs:34-44 | A hit is a stored node lying within its radius of `(pos - pan) / zoom`. No node with a smaller id lies within its own radius. |
| GraphAccess.NodeByPosNone | src/graph_wrapper.rs:42-43 | The hit test finds nothing exactly when no node lies within its radius. |
| GraphAccess.TouchCountIsCardinality | src/graph_wrapper.rs:83-92 | Counting the incident edges one slot at a time gives the size of the set of incident edges. |
| Interaction.ApplyZoom | src/graph_view.rs:348-362 | The new zoom is the old zoom times `1 + delta`, and it stays positive when `1 + delta > 0`. The graph, the change log and the first-frame flag are untouched. |
| Interaction.FitZoom | src/graph_view.rs:280-292 | The fitted zoom is positive. |
| Interaction.FitToScreen | src/graph_view.rs:270-304 | The zoom stays positive. The graph, the change log and the first-frame flag are untouched. |
| Interaction.HandleFitToScreen | src/graph_view.rs:157-164 | The zoom stays positive, and the graph and change log are untouched. Without a publisher the event log is unchanged. |
| Interaction.ZoomStep | src/graph_view.rs:328 | The step is `speed` or `-speed`. A factor above 1 gives `-speed` and a factor below 1 gives `+speed`. With a speed below 1 in magnitude, `1 + step > 0`. |
| Interaction.HandleZoom | src/graph_view.rs:317-331 | The zoom stays positive. The graph, the change log and the first-frame flag are untouched. |
| Interaction.HandlePan | src/graph_view.rs:333-345 | The zoom, the first-frame flag, the graph and the change log are untouched. |
| Interaction.HandleNavigation | src/graph_view.rs:306-315 | Zoom then pan keeps the zoom positive and leaves the graph and change log untouched. |
| Interaction.ToggleSelection | src/graph_view.rs:364-374 | The graph keeps its shape, and the viewport and event log are untouched. Without a sender nothing is logged. |
| Interaction.DeselectAll | src/graph_view.rs:392-396 | The graph keeps its shape, and the viewport and event log are untouched. |
| Interaction.MoveNode | src/graph_view.rs:398-408 | The graph keeps its shape, no selected flag changes, and the viewport and event log are untouched. |
| Interaction.SetDragged | src/graph_view.rs:410-420 | The graph keeps its shape, no selected flag changes, and the viewport and event log are untouched. |
| Interaction.HitTest | src/graph_view.rs:179-181 | A hit names a present node together with the node stored under that id. |
| Interaction.DragStart | src/graph_view.rs:246-253 | Marking the grabbed node keeps the graph's shape and every selected flag, and leaves the viewport alone. |
| Interaction.DragMove | src/graph_view.rs:255-262 | Moving the dragged node keeps the graph's shape and every selected flag, and leaves the viewport alone. |
| Interaction.DragRelease | src/graph_view.rs:264-267 | Releasing keeps the graph's shape and every selected flag, and leaves the viewport alone. |
| Interaction.HandleNodeDrag | src/graph_view.rs:241-268 | Node drag never changes the viewport, the event log, the graph's shape or any selected flag. |
| Interaction.HandleNodeClick | src/graph_view.rs:213-239 | A node click keeps the graph's shape and leaves the viewport and event log alone. |
| Interaction.HandleClick | src/graph_view.rs:166-201 | Click handling keeps the graph's shape and leaves the viewport and event log alone. |
| Interaction.NavigateAndDrag | src/graph_view.rs:54-57 | Fit, zoom, pan and drag keep the graph's shape and every selected flag, so the snapshot still describes the graph. |
| Interaction.Frame | src/graph_view.rs:48-58 | A frame keeps the graph's shape and a positive zoom. A log without a sink is unchanged. |
| ViewProperties.ZoomKeepsCenterFixed | src/graph_view.rs:348-362 | The new zoom is zoom·(1+delta). The graph point under the canvas-relative zoom centre is the same before and after. The events are Pan(new pan − old pan) then Zoom(new zoom − old zoom), when a publisher is registered. |
| ViewProperties.HandleZoomRule | src/graph_view.rs:317-331 | Disabled, or a factor of exactly 1, changes nothing. A factor above 1 scales the zoom by `1 - zoom_speed` and a factor below 1 by `1 + zoom_speed`. The point under the pointer stays fixed. |
| ViewProperties.FitToScreenResult | src/graph_view.rs:270-304 | The zoom is the smaller of the two axis ratios of canvas size to padded extent, and the pan is `rect.center - center(bounds) * zoom`, so the bounds' centre lands on the canvas centre. The events are Pan, Zoom(diff), Pan, and the two pan diffs sum to the total pan change. |
| ViewProperties.FitFallbackOnlyForPoint | src/graph_view.rs:275-278 | The fallback extent (1, 100) is used exactly when the extent is zero. An extent with just one zero side is not replaced, and no canvas and padding make it fittable. |
| ViewProperties.HandleFitToScreenRule | src/graph_view.rs:157-164 | Afterwards the first-frame flag is clear. Without the first frame or always-fit nothing changes. Otherwise the zoom is the fitted zoom and the bounds are centred. |
| ViewProperties.FitEmptyGraph | src/graph_view.rs:275-302 | A single-point graph on an 800×600 canvas gets zoom 6/(1+padding) and is centred at (400, 300). |
| ViewProperties.HandlePanRule | src/graph_view.rs:333-345 | The pan grows by the drag delta, which is published as one Pan event, if and only if these all hold: zoom/pan is enabled, a drag is under way, the snapshot has no dragged node, and the delta is non-zero. Otherwise the view is unchanged. |
| ViewProperties.Toggles | src/graph_view.rs:371-372 | The records of toggling a list are one SelectionChanged(id, old, !old) per id, in list order. |
| ViewProperties.ToggleEffect | src/graph_view.rs:364-374 | Exactly the toggled node's selected flag flips, and one SelectionChanged(old → !old) is sent. |
| ViewProperties.DeselectAllEffect | src/graph_view.rs:392-396 | Toggling a list of distinct ids flips exactly those nodes once each. It sends one SelectionChanged per id, in list order. |
| ViewProperties.DeselectSnapshot | src/graph_view.rs:392-396 | When the snapshot lists exactly the selected nodes, afterwards no node is selected, nothing else about any node changes, and one SelectionChanged(true → false) is sent per listed id. |
| ViewProperties.SelectedAfterSet | src/graph_view.rs:365-367 | Writing one node changes the selected set only at that node. |
| ViewProperties.ClickIgnored | src/graph_view.rs:166-177 | Without a click or double click, or with clicking and both selections disabled, the view is unchanged. |
| ViewProperties.ClickOnEmptySpace | src/graph_view.rs:179-190 | A miss with selection or multi-selection enabled leaves nothing selected, with one deselection record per snapshot id. With only clicking enabled the view is unchanged. |
| ViewProperties.NodeClickOnSelected | src/graph_view.rs:220-232 | Clicking an already selected node toggles only that node off. It sends Clicked (when clicking is enabled), then SelectionChanged(true → false). |
| ViewProperties.NodeClickSelectsOnly | src/graph_view.rs:220-238 | Without multi-selection, clicking an unselected node leaves exactly that node selected. It sends Clicked (when clicking is enabled), one deselection per snapshot id, then SelectionChanged(false → true). |
| ViewProperties.NodeClickAddsToSelection | src/graph_view.rs:234-238 | With multi-selection, clicking an unselected node adds just that node to the selected set and changes no other node. |
| ViewProperties.NodeClickWithoutSelection | src/graph_view.rs:213-226 | With selection disabled, a node click changes no node and sends at most Clicked. |
| ViewProperties.DoubleClickOnNode | src/graph_view.rs:196-211 | A double click on a node changes no node. It sends only DoubleClicked, and only when clicking is enabled. |
| ViewProperties.NodeDragMoves | src/graph_view.rs:255-262 | The snapshot's dragged node moves by drag_delta / zoom and nothing else in the graph changes. It sends one LocationMoved(old, old + delta / zoom). |
| ViewProperties.NodeDragAtZoomTwo | src/graph_view.rs:260-261 | A drag of (10, −5) at zoom 2 moves the node by (5, −2.5) and sends one record. |
| ViewProperties.NodeDragLocation | src/graph_view.rs:255-262 | Whether or not the drag also starts or ends in that frame, the snapshot's dragged node moves by drag_delta / zoom and no other node moves. |
| ViewProperties.NodeDragReleases | src/graph_view.rs:264-267 | Releasing clears the dragged flag of the snapshot's dragged node and sends DraggedChanged(true → false). |
| ViewProperties.NodeDragStarts | src/graph_view.rs:246-262 | A drag starting on a node marks it dragged and sends DraggedChanged(old → true). The node does not move in that frame, because the snapshot names no dragged node yet. |
| ViewProperties.DragMovesCanvasOrNode | src/graph_view.rs:255-262 | A continuing drag moves the canvas when the snapshot has no dragged node. When it has one, the drag moves that node by delta / zoom and leaves the pan alone. It never does both. |
| ViewProperties.GrabFramePansToo | src/graph_view.rs:246-253 | In the frame a drag starts on a node, with no dragged node in the snapshot, the canvas pans by the drag delta from the pan that fit-to-screen and zoom leave. The node under the pointer, hit-tested at the panned viewport, is marked dragged, but it does not move. |
| ViewProperties.DragHandlerWithin | src/graph_view.rs:241-268 | The drag handler adds at most the node grabbed under the pointer to the dragged nodes and removes the snapshot's node when the drag ends. |
| ViewProperties.DragExclusive | src/graph_view.rs:241-268 | If the snapshot names the one dragged node and a new drag starts only when no node is dragged or the old drag ends in the same frame, at most one node is dragged afterwards. |
| ViewProperties.SecondGrabKeepsFirst | src/graph_view.rs:246-253 | A drag starting on another node while the snapshot's node is still dragged and not released leaves both nodes dragged. |
| ViewProperties.FrameKeepsWellFormed | src/graph_view.rs:48-58 | A frame keeps every edge between stored nodes. |
| ViewProperties.FrameSilentWithoutSinks | src/graph_view.rs:438-450 | With neither a change sender nor an event publisher, a frame appends to neither log. |
| ViewProperties.FrameSelectsOnlyHit | src/graph_view.rs:54-58 | Across a whole frame without multi-selection, a single click on an unselected node leaves exactly that node selected. Fit, zoom, pan and drag leave the snapshot accurate. |
| ViewProperties.SecondOfTwoHit | src/graph_wrapper.rs:42-43 | In a two-node graph, a point inside node 1's radius and outside node 0's hits node 1. |
| ViewProperties.ClickSecondOfTwo | src/graph_view.rs:166-239 | Two nodes, node 0 selected: clicking inside node 1 only leaves {1} selected. It sends Clicked(1) (when clicking is enabled), then SelectionChanged(0, true, false), then SelectionChanged(1, false, true). |
| ViewProperties.ZoomAboutCursor | src/graph_view.rs:348-362 | A 0.1 step about (400, 300) from pan 0, zoom 1 gives zoom 1.1 and pan (−40, −30). It publishes Pan(−40, −30) then Zoom(0.1), and the cursor's graph point stays fixed. |
| GraphViewWidget.GraphView.constructor | src/graph_view.rs:47-52 | A widget over the graph with this frame's metadata and empty logs. |
| GraphViewWidget.GraphView.ResetMetadata | src/graph_view.rs:119-122 | The viewport becomes pan 0, zoom 1, first frame pending. Nothing else changes. |
| GraphViewWidget.GraphView.SendChanges | src/graph_view.rs:438-443 | Appends the record to the change log exactly when a sender is registered. |
| GraphViewWidget.GraphView.PublishEvent | src/graph_view.rs:445-450 | Appends the event to the event log exactly when a publisher is registered. |
| GraphViewWidget.GraphView.SetPan | src/graph_view.rs:422-428 | Stores the pan and publishes Pan(new − old). |
| GraphViewWidget.GraphView.SetZoom | src/graph_view.rs:430-436 | Stores the zoom and publishes Zoom(new − old). |
| GraphViewWidget.GraphView.Zoom | src/graph_view.rs:348-362 | The new state is `ApplyZoom` of the old state, and the zoom stays positive when `1 + delta > 0`. |
| GraphViewWidget.GraphView.FitToScreen | src/graph_view.rs:270-304 | The new state is `FitToScreen` of the old state, and the zoom stays positive. |
| GraphViewWidget.GraphView.HandleFitToScreen | src/graph_view.rs:157-164 | The new state is `HandleFitToScreen` of the old state. The zoom stays positive and the first-frame flag is clear. |
| GraphViewWidget.GraphView.HandleZoom | src/graph_view.rs:317-331 | The new state is `HandleZoom` of the old state, and the zoom stays positive. |
| GraphViewWidget.GraphView.HandlePan | src/graph_view.rs:333-345 | The new state is `HandlePan` of the old state, and the zoom is unchanged. |
| GraphViewWidget.GraphView.HandleNavigation | src/graph_view.rs:306-315 | The new state is `HandleNavigation` of the old state, and the zoom stays positive. |
| GraphViewWidget.GraphView.ToggleSelectionNode | src/graph_view.rs:364-374 | The new state is `ToggleSelection` of the old state. |
| GraphViewWidget.GraphView.SetNodeClicked | src/graph_view.rs:376-382 | Only a Clicked record is sent, and only to a registered sender. |
| GraphViewWidget.GraphView.SetNodeDoubleClicked | src/graph_view.rs:384-390 | Only a DoubleClicked record is sent, and only to a registered sender. |
| GraphViewWidget.GraphView.DeselectAll | src/graph_view.rs:392-396 | The loop over the snapshot's list leaves the state `DeselectAll` computes. Its invariant is that after k turns the state is the first k ids toggled. |
| GraphViewWidget.GraphView.MoveNode | src/graph_view.rs:398-408 | The new state is `MoveNode` of the old state. |
| GraphViewWidget.GraphView.SetDragged | src/graph_view.rs:410-420 | The new state is `SetDragged` of the old state. |
| GraphViewWidget.GraphView.HandleNodeDrag | src/graph_view.rs:241-268 | The new state is `HandleNodeDrag` of the old state. |
| GraphViewWidget.GraphView.GrabNode | src/graph_view.rs:246-253 | The drag-start block leaves the state `DragStart` computes. |
| GraphViewWidget.GraphView.FollowDrag | src/graph_view.rs:255-262 | The drag block leaves the state `DragMove` computes, at the zoom on entry. |
| GraphViewWidget.GraphView.ReleaseDrag | src/graph_view.rs:264-267 | The release block leaves the state `DragRelease` computes. |
| GraphViewWidget.GraphView.HandleNodeDoubleClick | src/graph_view.rs:203-211 | The new state is `HandleNodeDoubleClick` of the old state. |
| GraphViewWidget.GraphView.HandleNodeClick | src/graph_view.rs:213-239 | The new state is `HandleNodeClick` of the old state. |
| GraphViewWidget.GraphView.HandleClick | src/graph_view.rs:166-201 | The new state is `HandleClick` of the old state. |
| GraphViewWidget.GraphView.Ui | src/graph_view.rs:48-58 | One frame (fit, navigation, node drag, click in that order) leaves the state `Frame` computes, with a positive zoom. |

## Left out

- Drawing and host plumbing are not modelled: `allocate_painter`, `Drawer::draw`, `request_repaint`, and loading and storing `Metadata` in egui memory (src/graph_view.rs:49-52, 60-70). The viewport is a field of the widget object, and one frame is the method `Ui`.
- The model does not compute `compute_state` (src/graph_view.rs:139-153), because `ComputedState::compute_for_node`, `comp_iter_bounds` and the node radius are not part of this model. The frame takes the snapshot as an input: selected ids, dragged id, bounds and one radius per node.
- `Metadata::default` is not modelled. The model assumes reset restores pan 0, zoom 1 and first frame pending (`DefaultMetadata`). The zoom of 1 keeps the viewport invertible, and the pending first frame makes the next frame fit the graph.
- Channels are modelled as append-only logs. Sending on a closed channel panics in the source (`unwrap`); the model does not include that panic. The booleans `changesSender` and `eventsPublisher` model whether each optional sender is present. The compile-time `events` feature, which silences both sinks when it is off, is not modelled separately: it is the case where both booleans are false.
- Arithmetic is over `real`. f32 rounding, infinities and NaN are not modelled.
- Interaction.HandleZoom: requires `|zoom_speed| < 1` whenever a zoom gesture can run (`ZoomReady`), so the zoom stays positive. The source does not check this; with a speed of 1 or more, zooming out would make the zoom zero or negative.
- Interaction.FitToScreen: requires a positive canvas, a positive padded extent on both axes and `1 + padding > 0` (`FitReady`). In f32, an extent with exactly one zero side gives an infinite ratio on that axis, which `min` then discards; the model excludes that case rather than modelling infinities. `FitFallbackOnlyForPoint` states that such an extent bypasses the (1, 100) fallback.
- Every handler requires `zoom > 0`, because mapping a screen position into graph coordinates divides by the zoom.
- The model does not include the source's `unwrap` panics. The preconditions exclude them, and in each case the frame's own input guarantees the value:
  - `hover_pos().unwrap()` in `handle_click` and `handle_node_drag` (src/graph_view.rs:181, 249). `ClickReady` and `DragReady` require a hover position whenever a click or a drag start is handled. A click or a drag start is a pointer interaction with the widget, so the hover position is present.
  - `node_mut(idx).unwrap()` and `node(idx).unwrap()` (src/graph_view.rs:228, 365, 399, 411). `HasNode` and `ComputedFor` require each id to be a stored node. For an id from a hit test or from the frame's snapshot, this holds.
  - `comp.node_state(&i).unwrap()` (src/graph_wrapper.rs:52). `ComputedFor`, and the radius requirement of `NodeByPos`, give every stored node a radius, as `compute_state` computes one for each node.
- Edges are taken to join stored nodes only where `WellFormed` is required (`EdgeEndpointsPresent`, `EdgesNumAbsent`). The `Graph` type itself admits dangling endpoints; a stable graph's `add_edge` and `remove_node` rule them out, and these operations are not part of this model.
- `node_by_screen_pos` is not modelled; the model takes it to be `node_by_pos` at the current pan and zoom (`HitTest`).
- The hit-test radius does not depend on the viewport in this model. In the source the radius is `comp.radius(meta)` (src/graph_wrapper.rs:43), which takes the metadata, but its body is not part of this model. The model takes one radius per node from the frame-start snapshot. The frame's hit tests run after fit-to-screen and zoom have changed the viewport, so a radius that depends on the zoom would differ from the modelled one.
- The order in which `edges_directed` lists edges is not modelled: `EdgesDirected` is a set of edge ids. `edges_num` only counts edges, so order does not matter there.
- Node and edge payloads are opaque integers.
- The builder methods (`new`, `with_interactions`, `with_navigations`, `with_styles`, `with_changes`, `with_events`, `with_custom_node_draw`) are not modelled; they are field setters. The configuration is the `Config` the widget is constructed with.
- `src/draw/shape/displays.rs` is not modelled: it declares drawing traits with no bodies.
- Zoom gesture: `zoom` publishes Pan and then Zoom (`set_pan` then `set_zoom`, src/graph_view.rs:360-361), not a single event.
- Zoom direction is modelled as written: the step is `zoom_speed * signum(1 - factor)`, so a gesture factor above 1 reduces the zoom.
- Empty-space click: a miss also deselects when only multi-selection is enabled (src/graph_view.rs:184-186).
- Fit-to-screen centres the bounds on the absolute canvas centre `rect.center()`, while `zoom` uses a centre relative to the canvas's top-left corner. The model keeps both as written.
- A drag that starts on a node in this frame does not stop that frame's canvas pan. Panning and node movement both consult the frame-start snapshot, where no node is dragged yet. `GrabFramePansToo` states this over the frame's fit, zoom, pan and drag steps.
- In the source, `handle_node_drag` takes the snapshot mutably but never writes to it. The model passes it by value.
- At most one node is dragged only under an input discipline the source does not enforce (`DragExclusive`): the snapshot must name the graph's one dragged node, and a drag may start only when none is dragged or the old one ends in the same frame. `handle_node_drag` marks the grabbed node whatever the snapshot holds, so a second grab keeps both nodes dragged (`SecondGrabKeepsFirst`), and a release while dragging is disabled leaves the flag set.
