/**
 * The interaction controller of the graph view as functions on values.
 *
 * A `View` is everything one frame may change: the persisted viewport
 * (`Metadata`), the graph, and the two append-only logs that stand for the
 * change channel and the navigation-event channel. Each handler of the
 * widget is a function from the view before it to the view after it; the
 * frame-start `ComputedState` snapshot is an argument and is never updated.
 * Sending to a channel that is not registered appends nothing.
 */
module Interaction {
  import opened Wrappers
  import opened Geometry
  import opened GraphAccess

  /** The viewport kept across frames. */
  datatype Metadata = Metadata(pan: Vec2, zoom: real, firstFrame: bool)

  /** What `reset_metadata` restores: no pan, unit zoom, fit-to-screen pending. */
  function DefaultMetadata(): Metadata
  {
    Metadata(Zero, 1.0, true)
  }

  /** A record sent on the change channel: one per mutation of a node. */
  datatype Change =
    | SelectionChanged(id: NodeId, before: bool, after: bool)
    | Clicked(id: NodeId)
    | DoubleClicked(id: NodeId)
    | DraggedChanged(id: NodeId, before: bool, after: bool)
    | LocationMoved(id: NodeId, fromLocation: Vec2, toLocation: Vec2)

  /** A record published on the navigation channel, carrying new value minus old value. */
  datatype Event = Pan(panDiff: Vec2) | Zoom(zoomDiff: real)

  datatype SettingsInteraction = SettingsInteraction(
    clickingEnabled: bool,
    selectionEnabled: bool,
    selectionMultiEnabled: bool,
    draggingEnabled: bool)

  datatype SettingsNavigation = SettingsNavigation(
    fitToScreenEnabled: bool,
    zoomAndPanEnabled: bool,
    screenPadding: real,
    zoomSpeed: real)

  /** The widget's configuration, and whether a change sender and an event publisher are registered. */
  datatype Config = Config(
    interaction: SettingsInteraction,
    navigation: SettingsNavigation,
    changesSender: bool,
    eventsPublisher: bool)

  /**
   * One frame's input: the allocated canvas, the pointer and gesture flags of
   * the response, the hover position of the response, the pointer position
   * and the pinch/scroll zoom factor of the input state.
   */
  datatype Response = Response(
    rect: Rect,
    clicked: bool,
    doubleClicked: bool,
    dragStarted: bool,
    dragged: bool,
    dragReleased: bool,
    dragDelta: Vec2,
    hoverPos: Option<Vec2>,
    pointerPos: Option<Vec2>,
    zoomDelta: real)

  /** The snapshot computed at frame start: selected ids, the dragged id, the graph bounds and each node's radius. */
  datatype ComputedState = ComputedState(
    selected: seq<NodeId>,
    dragged: Option<NodeId>,
    bounds: Rect,
    radii: map<NodeId, real>)

  datatype View = View(meta: Metadata, g: Graph, changes: seq<Change>, events: seq<Event>)

  /** What a sink receives: the records if it is registered, nothing otherwise. */
  function Emitted<T>(registered: bool, records: seq<T>): seq<T>
  {
    if registered then records else []
  }

  predicate AllPresent(g: Graph, ids: seq<NodeId>)
  {
    forall k :: 0 <= k < |ids| ==> HasNode(g, ids[k])
  }

  predicate Distinct(ids: seq<NodeId>)
  {
    forall a, b :: 0 <= a < b < |ids| ==> ids[a] != ids[b]
  }

  /** The snapshot refers to nodes of `g` and has a radius for each of them. */
  ghost predicate ComputedFor(comp: ComputedState, g: Graph)
  {
    && AllPresent(g, comp.selected)
    && (comp.dragged.Some? ==> HasNode(g, comp.dragged.value))
    && (forall i: nat :: HasNode(g, i) ==> i in comp.radii)
  }

  /** The snapshot's selected list lists, once each, exactly the selected nodes of `g`. */
  ghost predicate SelectionSnapshot(comp: ComputedState, g: Graph)
  {
    && ComputedFor(comp, g)
    && Distinct(comp.selected)
    && (forall i: nat :: HasNode(g, i) ==> (GetNode(g, i).selected <==> i in comp.selected))
  }

  /** The snapshot's dragged id names exactly the node of `g` whose dragged flag is set, if any. */
  ghost predicate DragSnapshot(comp: ComputedState, g: Graph)
  {
    forall i: nat :: HasNode(g, i) ==> (GetNode(g, i).dragged <==> comp.dragged == Some(i))
  }

  function SelectedIds(g: Graph): set<NodeId>
  {
    set i: nat | i < |g.nodes| && g.nodes[i].Some? && g.nodes[i].value.selected
  }

  lemma ShapeKeepsComputed(comp: ComputedState, g: Graph, h: Graph)
    requires ComputedFor(comp, g) && SameShape(g, h)
    ensures ComputedFor(comp, h)
  {
  }

  // ---------------------------------------------------------------- emission

  /** `send_changes` */
  function SendChange(cfg: Config, s: View, c: Change): View
  {
    if cfg.changesSender then s.(changes := s.changes + [c]) else s
  }

  /** `publish_event` */
  function PublishEvent(cfg: Config, s: View, e: Event): View
  {
    if cfg.eventsPublisher then s.(events := s.events + [e]) else s
  }

  // ---------------------------------------------------------------- viewport

  /** `set_pan`: store the pan and publish its difference from the previous pan. */
  function SetPan(cfg: Config, s: View, v: Vec2): View
  {
    PublishEvent(cfg, s.(meta := s.meta.(pan := v)), Pan(Sub(v, s.meta.pan)))
  }

  /** `set_zoom`: store the zoom and publish its difference from the previous zoom. */
  function SetZoom(cfg: Config, s: View, v: real): View
  {
    PublishEvent(cfg, s.(meta := s.meta.(zoom := v)), Zoom(v - s.meta.zoom))
  }

  /** The zoom centre relative to the canvas: the given position, or the canvas centre. */
  function ZoomCenter(rect: Rect, center: Option<Vec2>): Vec2
  {
    match center
    case Some(c) => Sub(c, rect.min)
    case None => Sub(Center(rect), rect.min)
  }

  /**
   * `zoom`: scale the zoom by `1 + delta` and shift the pan so that the graph
   * point under the zoom centre stays where it is; the pan is set first, then
   * the zoom.
   */
  function ApplyZoom(cfg: Config, s: View, rect: Rect, delta: real, center: Option<Vec2>): (r: View)
    requires s.meta.zoom > 0.0
    ensures r.g == s.g && r.changes == s.changes && r.meta.firstFrame == s.meta.firstFrame
    ensures r.meta.zoom == s.meta.zoom * (1.0 + delta)
    ensures 1.0 + delta > 0.0 ==> r.meta.zoom > 0.0
    ensures !cfg.eventsPublisher ==> r.events == s.events
  {
    var c := ZoomCenter(rect, center);
    var graphCenter := ToGraph(c, s.meta.pan, s.meta.zoom);
    var newZoom := s.meta.zoom * (1.0 + delta);
    assert 1.0 + delta > 0.0 ==> newZoom > 0.0 by {
      if 1.0 + delta > 0.0 { PositiveProduct(s.meta.zoom, 1.0 + delta); }
    }
    var panDelta := Sub(Scale(graphCenter, s.meta.zoom), Scale(graphCenter, newZoom));
    SetZoom(cfg, SetPan(cfg, s, Add(s.meta.pan, panDelta)), newZoom)
  }

  /** The extent of the bounds, or the fixed extent (1, 100) when the bounds are a single point. */
  function FitExtent(bounds: Rect): Vec2
  {
    var diag := Size(bounds);
    if diag == Zero then Vec2(1.0, 100.0) else diag
  }

  /** Fit-to-screen divides by the padded extent and must produce a positive zoom. */
  predicate FitReady(rect: Rect, bounds: Rect, padding: real)
  {
    var e := FitExtent(bounds);
    e.x > 0.0 && e.y > 0.0 && 1.0 + padding > 0.0 && Size(rect).x > 0.0 && Size(rect).y > 0.0
  }

  /** The zoom that fits the padded extent into the canvas along the tighter axis. */
  function FitZoom(rect: Rect, bounds: Rect, padding: real): (z: real)
    requires FitReady(rect, bounds, padding)
    ensures z > 0.0
  {
    var size := Scale(FitExtent(bounds), 1.0 + padding);
    assert size.x > 0.0 && size.y > 0.0 by {
      PositiveProduct(FitExtent(bounds).x, 1.0 + padding);
      PositiveProduct(FitExtent(bounds).y, 1.0 + padding);
    }
    Min(Size(rect).x / size.x, Size(rect).y / size.y)
  }

  lemma PositiveProduct(a: real, b: real)
    requires a > 0.0 && b > 0.0
    ensures a * b > 0.0
  {
  }

  lemma ZoomRatio(zoom: real, target: real)
    requires zoom > 0.0
    ensures zoom * (1.0 + (target / zoom - 1.0)) == target
  {
    assert 1.0 + (target / zoom - 1.0) == target / zoom;
  }

  /**
   * `fit_to_screen`: zoom about the canvas centre to the fitting zoom, then
   * set the pan that puts the centre of the bounds at the canvas centre.
   */
  function FitToScreen(cfg: Config, s: View, rect: Rect, comp: ComputedState): (r: View)
    requires s.meta.zoom > 0.0
    requires FitReady(rect, comp.bounds, cfg.navigation.screenPadding)
    ensures r.g == s.g && r.changes == s.changes && r.meta.firstFrame == s.meta.firstFrame
    ensures r.meta.zoom > 0.0
    ensures !cfg.eventsPublisher ==> r.events == s.events
  {
    var newZoom := FitZoom(rect, comp.bounds, cfg.navigation.screenPadding);
    ZoomRatio(s.meta.zoom, newZoom);
    var zoomed := ApplyZoom(cfg, s, rect, newZoom / s.meta.zoom - 1.0, None);
    var graphCenter := Div(Add(comp.bounds.min, comp.bounds.max), 2.0);
    SetPan(cfg, zoomed, Sub(Center(rect), Scale(graphCenter, newZoom)))
  }

  predicate FitRuns(cfg: Config, s: View)
  {
    s.meta.firstFrame || cfg.navigation.fitToScreenEnabled
  }

  /** `handle_fit_to_screen`: fit on the first frame or when always-fit is set, and clear the first-frame flag. */
  function HandleFitToScreen(cfg: Config, s: View, rect: Rect, comp: ComputedState): (r: View)
    requires s.meta.zoom > 0.0
    requires FitRuns(cfg, s) ==> FitReady(rect, comp.bounds, cfg.navigation.screenPadding)
    ensures r.g == s.g && r.changes == s.changes && r.meta.zoom > 0.0
    ensures !cfg.eventsPublisher ==> r.events == s.events
  {
    if !FitRuns(cfg, s) then s
    else
      var fitted := FitToScreen(cfg, s, rect, comp);
      fitted.(meta := fitted.meta.(firstFrame := false))
  }

  /** `f32::signum` on the values it can meet here (0 gives 1, as +0 does). */
  function Signum(x: real): real
  {
    if x < 0.0 then -1.0 else 1.0
  }

  /** The signed step of a zoom gesture: `zoom_speed * signum(1 - factor)`. */
  function ZoomStep(speed: real, factor: real): (step: real)
    ensures step == speed || step == -speed
    ensures factor > 1.0 ==> step == -speed
    ensures factor < 1.0 ==> step == speed
    ensures -1.0 < speed < 1.0 ==> 1.0 + step > 0.0
  {
    var sign := Signum(1.0 - factor);
    assert sign == 1.0 ==> speed * sign == speed;
    assert sign == -1.0 ==> speed * sign == -speed;
    speed * sign
  }

  /** A zoom gesture needs a step that keeps the zoom positive. */
  predicate ZoomReady(cfg: Config, resp: Response)
  {
    cfg.navigation.zoomAndPanEnabled && resp.zoomDelta != 1.0 ==>
      -1.0 < cfg.navigation.zoomSpeed < 1.0
  }

  /** `handle_zoom`: a zoom factor other than 1 zooms by `zoom_speed * signum(1 - factor)` about the pointer. */
  function HandleZoom(cfg: Config, s: View, resp: Response): (r: View)
    requires s.meta.zoom > 0.0
    requires ZoomReady(cfg, resp)
    ensures r.g == s.g && r.changes == s.changes && r.meta.firstFrame == s.meta.firstFrame
    ensures r.meta.zoom > 0.0
    ensures !cfg.eventsPublisher ==> r.events == s.events
  {
    if !cfg.navigation.zoomAndPanEnabled then s
    else if resp.zoomDelta == 1.0 then s
    else
      var step := ZoomStep(cfg.navigation.zoomSpeed, resp.zoomDelta);
      ApplyZoom(cfg, s, resp.rect, step, resp.pointerPos)
  }

  /** A drag delta with a non-zero component. */
  predicate NonZero(v: Vec2)
  {
    v.x != 0.0 || v.y != 0.0
  }

  /** `handle_pan`: a drag that started on no node moves the pan by the drag delta. */
  function HandlePan(cfg: Config, s: View, resp: Response, comp: ComputedState): (r: View)
    ensures r.g == s.g && r.changes == s.changes
    ensures r.meta.zoom == s.meta.zoom && r.meta.firstFrame == s.meta.firstFrame
    ensures !cfg.eventsPublisher ==> r.events == s.events
  {
    if !cfg.navigation.zoomAndPanEnabled then s
    else if resp.dragged && comp.dragged.None? && NonZero(resp.dragDelta) then
      SetPan(cfg, s, Add(s.meta.pan, resp.dragDelta))
    else s
  }

  /** `handle_navigation`: zoom, then pan. */
  function HandleNavigation(cfg: Config, s: View, resp: Response, comp: ComputedState): (r: View)
    requires s.meta.zoom > 0.0
    requires ZoomReady(cfg, resp)
    ensures r.g == s.g && r.changes == s.changes && r.meta.zoom > 0.0
    ensures !cfg.eventsPublisher ==> r.events == s.events
  {
    HandlePan(cfg, HandleZoom(cfg, s, resp), resp, comp)
  }

  // ---------------------------------------------------------------- nodes

  /** `toggle_selection_node`: flip the node's selected flag and send the flip. */
  function ToggleSelection(cfg: Config, s: View, idx: NodeId): (r: View)
    requires HasNode(s.g, idx)
    ensures SameShape(s.g, r.g) && r.meta == s.meta && r.events == s.events
    ensures !cfg.changesSender ==> r.changes == s.changes
  {
    var n := GetNode(s.g, idx);
    var flipped := s.(g := SetNode(s.g, idx, n.(selected := !n.selected)));
    SendChange(cfg, flipped, SelectionChanged(idx, n.selected, !n.selected))
  }

  /** `deselect_all`: toggle every id of the snapshot's selected list, in order. */
  function DeselectAll(cfg: Config, s: View, ids: seq<NodeId>): (r: View)
    requires AllPresent(s.g, ids)
    ensures SameShape(s.g, r.g) && r.meta == s.meta && r.events == s.events
    ensures !cfg.changesSender ==> r.changes == s.changes
    decreases |ids|
  {
    if ids == [] then s
    else
      var init := ids[..|ids| - 1];
      assert AllPresent(s.g, init) by {
        assert forall k :: 0 <= k < |init| ==> init[k] == ids[k];
      }
      ToggleSelection(cfg, DeselectAll(cfg, s, init), ids[|ids| - 1])
  }

  /** `set_node_clicked`: only a record, no stored flag. */
  function SetNodeClicked(cfg: Config, s: View, idx: NodeId): View
  {
    SendChange(cfg, s, Clicked(idx))
  }

  /** `set_node_double_clicked`: only a record, no stored flag. */
  function SetNodeDoubleClicked(cfg: Config, s: View, idx: NodeId): View
  {
    SendChange(cfg, s, DoubleClicked(idx))
  }

  /** `move_node`: add `delta` to the node's location and send old and new location. */
  function MoveNode(cfg: Config, s: View, idx: NodeId, delta: Vec2): (r: View)
    requires HasNode(s.g, idx)
    ensures SameShape(s.g, r.g) && r.meta == s.meta && r.events == s.events
    ensures forall i: nat :: HasNode(s.g, i) ==> GetNode(r.g, i).selected == GetNode(s.g, i).selected
    ensures !cfg.changesSender ==> r.changes == s.changes
  {
    var n := GetNode(s.g, idx);
    var moved := s.(g := SetNode(s.g, idx, n.(location := Add(n.location, delta))));
    SendChange(cfg, moved, LocationMoved(idx, n.location, Add(n.location, delta)))
  }

  /** `set_dragged`: store the dragged flag and send the previous and the new flag. */
  function SetDragged(cfg: Config, s: View, idx: NodeId, val: bool): (r: View)
    requires HasNode(s.g, idx)
    ensures SameShape(s.g, r.g) && r.meta == s.meta && r.events == s.events
    ensures forall i: nat :: HasNode(s.g, i) ==> GetNode(r.g, i).selected == GetNode(s.g, i).selected
    ensures !cfg.changesSender ==> r.changes == s.changes
  {
    var n := GetNode(s.g, idx);
    var marked := s.(g := SetNode(s.g, idx, n.(dragged := val)));
    SendChange(cfg, marked, DraggedChanged(idx, n.dragged, val))
  }

  /** The hit test against the current graph and viewport. */
  function HitTest(s: View, comp: ComputedState, pos: Vec2): (r: Option<(NodeId, Node)>)
    requires s.meta.zoom > 0.0
    requires ComputedFor(comp, s.g)
    ensures r.Some? ==> HasNode(s.g, r.value.0) && GetNode(s.g, r.value.0) == r.value.1
  {
    NodeByPosFirst(s.g, comp.radii, s.meta.pan, s.meta.zoom, pos);
    NodeByPos(s.g, comp.radii, s.meta.pan, s.meta.zoom, pos)
  }

  predicate DragReady(cfg: Config, resp: Response)
  {
    cfg.interaction.draggingEnabled && resp.dragStarted ==> resp.hoverPos.Some?
  }

  /** The node a starting drag grabs: marked dragged, on a hit. */
  function DragStart(cfg: Config, s: View, resp: Response, comp: ComputedState): (r: View)
    requires s.meta.zoom > 0.0
    requires ComputedFor(comp, s.g) && resp.hoverPos.Some?
    ensures SameShape(s.g, r.g) && r.meta == s.meta && r.events == s.events
    ensures forall i: nat :: HasNode(s.g, i) ==> GetNode(r.g, i).selected == GetNode(s.g, i).selected
    ensures !cfg.changesSender ==> r.changes == s.changes
  {
    match HitTest(s, comp, resp.hoverPos.value)
    case Some(hit) => SetDragged(cfg, s, hit.0, true)
    case None => s
  }

  /** The snapshot's dragged node follows a non-zero drag delta, scaled by `1 / zoom` into graph coordinates. */
  function DragMove(cfg: Config, s: View, resp: Response, comp: ComputedState, zoom: real): (r: View)
    requires zoom > 0.0 && ComputedFor(comp, s.g)
    ensures SameShape(s.g, r.g) && r.meta == s.meta && r.events == s.events
    ensures forall i: nat :: HasNode(s.g, i) ==> GetNode(r.g, i).selected == GetNode(s.g, i).selected
    ensures !cfg.changesSender ==> r.changes == s.changes
  {
    if resp.dragged && comp.dragged.Some? && NonZero(resp.dragDelta) then
      MoveNode(cfg, s, comp.dragged.value, Div(resp.dragDelta, zoom))
    else s
  }

  /** When the drag ends, the snapshot's dragged node is no longer dragged. */
  function DragRelease(cfg: Config, s: View, resp: Response, comp: ComputedState): (r: View)
    requires ComputedFor(comp, s.g)
    ensures SameShape(s.g, r.g) && r.meta == s.meta && r.events == s.events
    ensures forall i: nat :: HasNode(s.g, i) ==> GetNode(r.g, i).selected == GetNode(s.g, i).selected
    ensures !cfg.changesSender ==> r.changes == s.changes
  {
    if resp.dragReleased && comp.dragged.Some? then SetDragged(cfg, s, comp.dragged.value, false)
    else s
  }

  /**
   * `handle_node_drag`: a starting drag marks the node under the pointer as
   * dragged; the node the snapshot names as dragged follows a non-zero drag
   * delta scaled into graph coordinates, and is released when the drag ends.
   */
  function HandleNodeDrag(cfg: Config, s: View, resp: Response, comp: ComputedState): (r: View)
    requires s.meta.zoom > 0.0
    requires ComputedFor(comp, s.g) && DragReady(cfg, resp)
    ensures SameShape(s.g, r.g) && r.meta == s.meta && r.events == s.events
    ensures forall i: nat :: HasNode(s.g, i) ==> GetNode(r.g, i).selected == GetNode(s.g, i).selected
    ensures !cfg.changesSender ==> r.changes == s.changes
  {
    if !cfg.interaction.draggingEnabled then s
    else
      var started := if resp.dragStarted then DragStart(cfg, s, resp, comp) else s;
      ShapeKeepsComputed(comp, s.g, started.g);
      var moved := DragMove(cfg, started, resp, comp, s.meta.zoom);
      ShapeKeepsComputed(comp, started.g, moved.g);
      DragRelease(cfg, moved, resp, comp)
  }

  /** `handle_node_double_click`: a DoubleClicked record when clicking is enabled, nothing else. */
  function HandleNodeDoubleClick(cfg: Config, s: View, idx: NodeId): View
  {
    if !cfg.interaction.clickingEnabled then s
    else SetNodeDoubleClicked(cfg, s, idx)
  }

  /**
   * `handle_node_click`: a Clicked record when clicking is enabled; with
   * selection enabled, a selected node is toggled off, and an unselected one
   * is toggled on, after deselecting the snapshot's selection unless
   * multi-selection is enabled.
   */
  function HandleNodeClick(cfg: Config, s: View, idx: NodeId, comp: ComputedState): (r: View)
    requires HasNode(s.g, idx) && AllPresent(s.g, comp.selected)
    ensures SameShape(s.g, r.g) && r.meta == s.meta && r.events == s.events
    ensures !cfg.changesSender ==> r.changes == s.changes
  {
    var settings := cfg.interaction;
    if !settings.clickingEnabled && !settings.selectionEnabled then s
    else
      var reported := if settings.clickingEnabled then SetNodeClicked(cfg, s, idx) else s;
      if !settings.selectionEnabled then reported
      else if GetNode(reported.g, idx).selected then ToggleSelection(cfg, reported, idx)
      else
        var cleared := if !settings.selectionMultiEnabled then DeselectAll(cfg, reported, comp.selected) else reported;
        ToggleSelection(cfg, cleared, idx)
  }

  predicate Clickable(cfg: Config)
  {
    cfg.interaction.clickingEnabled || cfg.interaction.selectionEnabled || cfg.interaction.selectionMultiEnabled
  }

  predicate Selectable(cfg: Config)
  {
    cfg.interaction.selectionEnabled || cfg.interaction.selectionMultiEnabled
  }

  predicate IsClick(resp: Response)
  {
    resp.clicked || resp.doubleClicked
  }

  predicate ClickReady(cfg: Config, resp: Response)
  {
    IsClick(resp) && Clickable(cfg) ==> resp.hoverPos.Some?
  }

  /**
   * `handle_click`: on a click or double click, when clicking or some
   * selection is enabled, a click on empty space deselects the snapshot's
   * selection (if selection or multi-selection is enabled), a double click
   * on a node is a double click, and any other click on a node is a click.
   */
  function HandleClick(cfg: Config, s: View, resp: Response, comp: ComputedState): (r: View)
    requires s.meta.zoom > 0.0
    requires ComputedFor(comp, s.g) && ClickReady(cfg, resp)
    ensures SameShape(s.g, r.g) && r.meta == s.meta && r.events == s.events
    ensures !cfg.changesSender ==> r.changes == s.changes
  {
    if !IsClick(resp) || !Clickable(cfg) then s
    else
      match HitTest(s, comp, resp.hoverPos.value)
      case None => if Selectable(cfg) then DeselectAll(cfg, s, comp.selected) else s
      case Some(hit) =>
        if resp.doubleClicked then HandleNodeDoubleClick(cfg, s, hit.0)
        else HandleNodeClick(cfg, s, hit.0, comp)
  }

  // ---------------------------------------------------------------- frame

  /** What one frame needs of its inputs for every step it takes to be defined. */
  ghost predicate FrameReady(cfg: Config, s: View, resp: Response, comp: ComputedState)
  {
    && s.meta.zoom > 0.0
    && ComputedFor(comp, s.g)
    && (FitRuns(cfg, s) ==> FitReady(resp.rect, comp.bounds, cfg.navigation.screenPadding))
    && ZoomReady(cfg, resp)
    && DragReady(cfg, resp)
    && ClickReady(cfg, resp)
  }

  /** The frame up to click handling: fit-to-screen, zoom, pan, node drag. */
  function NavigateAndDrag(cfg: Config, s: View, resp: Response, comp: ComputedState): (r: View)
    requires FrameReady(cfg, s, resp, comp)
    ensures SameShape(s.g, r.g) && r.meta.zoom > 0.0 && ComputedFor(comp, r.g)
    ensures forall i: nat :: HasNode(s.g, i) ==> GetNode(r.g, i).selected == GetNode(s.g, i).selected
    ensures !cfg.changesSender ==> r.changes == s.changes
    ensures !cfg.eventsPublisher ==> r.events == s.events
  {
    var fitted := HandleFitToScreen(cfg, s, resp.rect, comp);
    var navigated := HandleNavigation(cfg, fitted, resp, comp);
    var dragged := HandleNodeDrag(cfg, navigated, resp, comp);
    ShapeKeepsComputed(comp, s.g, dragged.g);
    dragged
  }

  /** One frame of the widget, in the order the widget runs its handlers. */
  function Frame(cfg: Config, s: View, resp: Response, comp: ComputedState): (r: View)
    requires FrameReady(cfg, s, resp, comp)
    ensures SameShape(s.g, r.g) && r.meta.zoom > 0.0
    ensures !cfg.changesSender ==> r.changes == s.changes
    ensures !cfg.eventsPublisher ==> r.events == s.events
  {
    HandleClick(cfg, NavigateAndDrag(cfg, s, resp, comp), resp, comp)
  }
}
