/**
 * The graph view widget as an object: its configuration, the graph it
 * borrows, the viewport metadata, and the two channels it writes to. Each
 * method updates the fields in place the way the widget does, and is proved
 * to leave the object in the state the matching function of module
 * Interaction computes from the state before the call.
 */
module GraphViewWidget {
  import opened Wrappers
  import opened Geometry
  import opened GraphAccess
  import opened Interaction

  class GraphView {
    const cfg: Config
    var meta: Metadata
    var g: Graph
    /** Everything sent on the change channel so far. */
    var changes: seq<Change>
    /** Everything published on the event channel so far. */
    var events: seq<Event>

    function State(): View
      reads this
    {
      View(meta, g, changes, events)
    }

    /** The viewport can be inverted: the zoom is positive. */
    predicate Valid()
      reads this
    {
      meta.zoom > 0.0
    }

    /** A widget over `graph` with the given settings and the metadata loaded for this frame. */
    constructor (config: Config, graph: Graph, m: Metadata)
      ensures cfg == config && g == graph && meta == m
      ensures changes == [] && events == []
    {
      cfg := config;
      g := graph;
      meta := m;
      changes := [];
      events := [];
    }

    /** `reset_metadata`: the stored viewport goes back to its defaults. */
    method ResetMetadata()
      modifies this
      ensures meta == DefaultMetadata() && Valid()
      ensures g == old(g) && changes == old(changes) && events == old(events)
    {
      meta := DefaultMetadata();
    }

    // ---------------------------------------------------------------- channels

    method SendChanges(c: Change)
      modifies this
      ensures State() == SendChange(cfg, old(State()), c)
    {
      if cfg.changesSender {
        changes := changes + [c];
      }
    }

    method PublishEvent(e: Event)
      modifies this
      ensures State() == Interaction.PublishEvent(cfg, old(State()), e)
    {
      if cfg.eventsPublisher {
        events := events + [e];
      }
    }

    // ---------------------------------------------------------------- viewport

    method SetPan(v: Vec2)
      modifies this
      ensures State() == Interaction.SetPan(cfg, old(State()), v)
    {
      var diff := Sub(v, meta.pan);
      meta := meta.(pan := v);
      PublishEvent(Event.Pan(diff));
    }

    method SetZoom(v: real)
      modifies this
      ensures State() == Interaction.SetZoom(cfg, old(State()), v)
    {
      var diff := v - meta.zoom;
      meta := meta.(zoom := v);
      PublishEvent(Event.Zoom(diff));
    }

    /** `zoom` */
    method Zoom(rect: Rect, delta: real, center: Option<Vec2>)
      requires Valid()
      modifies this
      ensures State() == ApplyZoom(cfg, old(State()), rect, delta, center)
      ensures 1.0 + delta > 0.0 ==> Valid()
    {
      var centerPos := ZoomCenter(rect, center);
      var graphCenterPos := Div(Sub(centerPos, meta.pan), meta.zoom);
      var factor := 1.0 + delta;
      var newZoom := meta.zoom * factor;
      var panDelta := Sub(Scale(graphCenterPos, meta.zoom), Scale(graphCenterPos, newZoom));
      var newPan := Add(meta.pan, panDelta);
      ApplyZoomSteps(cfg, State(), rect, delta, center, newPan, newZoom);
      SetPan(newPan);
      SetZoom(newZoom);
    }

    /** `fit_to_screen` */
    method FitToScreen(rect: Rect, comp: ComputedState)
      requires Valid() && FitReady(rect, comp.bounds, cfg.navigation.screenPadding)
      modifies this
      ensures State() == Interaction.FitToScreen(cfg, old(State()), rect, comp)
      ensures Valid()
    {
      var bounds := comp.bounds;
      var diag := Sub(bounds.max, bounds.min);
      if diag == Zero {
        diag := Vec2(1.0, 100.0);
      }
      assert diag == FitExtent(bounds);
      var graphSize := Scale(diag, 1.0 + cfg.navigation.screenPadding);
      PositiveProduct(diag.x, 1.0 + cfg.navigation.screenPadding);
      PositiveProduct(diag.y, 1.0 + cfg.navigation.screenPadding);
      var canvasSize := Size(rect);
      var zoomX := canvasSize.x / graphSize.x;
      var zoomY := canvasSize.y / graphSize.y;
      var newZoom := Min(zoomX, zoomY);
      var zoomDelta := newZoom / meta.zoom - 1.0;
      var graphCenter := Div(Add(bounds.min, bounds.max), 2.0);
      var newPan := Sub(Center(rect), Scale(graphCenter, newZoom));
      FitToScreenPlan(cfg, State(), rect, comp, zoomDelta, newZoom, newPan);
      Zoom(rect, zoomDelta, None);
      SetPan(newPan);
    }

    /** `handle_fit_to_screen` */
    method HandleFitToScreen(rect: Rect, comp: ComputedState)
      requires Valid()
      requires FitRuns(cfg, State()) ==> FitReady(rect, comp.bounds, cfg.navigation.screenPadding)
      modifies this
      ensures State() == Interaction.HandleFitToScreen(cfg, old(State()), rect, comp)
      ensures Valid() && !meta.firstFrame
    {
      if !meta.firstFrame && !cfg.navigation.fitToScreenEnabled {
        return;
      }
      FitToScreen(rect, comp);
      meta := meta.(firstFrame := false);
    }

    /** `handle_zoom` */
    method HandleZoom(resp: Response)
      requires Valid() && ZoomReady(cfg, resp)
      modifies this
      ensures State() == Interaction.HandleZoom(cfg, old(State()), resp)
      ensures Valid()
    {
      if !cfg.navigation.zoomAndPanEnabled {
        return;
      }
      var delta := resp.zoomDelta;
      if delta == 1.0 {
        return;
      }
      var step := cfg.navigation.zoomSpeed * Signum(1.0 - delta);
      assert step == ZoomStep(cfg.navigation.zoomSpeed, delta);
      Zoom(resp.rect, step, resp.pointerPos);
    }

    /** `handle_pan` */
    method HandlePan(resp: Response, comp: ComputedState)
      modifies this
      ensures State() == Interaction.HandlePan(cfg, old(State()), resp, comp)
      ensures meta.zoom == old(meta.zoom)
    {
      if !cfg.navigation.zoomAndPanEnabled {
        return;
      }
      if resp.dragged && comp.dragged.None? && (resp.dragDelta.x != 0.0 || resp.dragDelta.y != 0.0) {
        var newPan := Add(meta.pan, resp.dragDelta);
        SetPan(newPan);
      }
    }

    /** `handle_navigation` */
    method HandleNavigation(resp: Response, comp: ComputedState)
      requires Valid() && ZoomReady(cfg, resp)
      modifies this
      ensures State() == Interaction.HandleNavigation(cfg, old(State()), resp, comp)
      ensures Valid()
    {
      HandleZoom(resp);
      HandlePan(resp, comp);
    }

    // ---------------------------------------------------------------- nodes

    /** `toggle_selection_node` */
    method ToggleSelectionNode(idx: NodeId)
      requires HasNode(g, idx)
      modifies this
      ensures State() == ToggleSelection(cfg, old(State()), idx)
    {
      var n := GetNode(g, idx);
      var before := n.selected;
      g := SetNode(g, idx, n.(selected := !before));
      SendChanges(SelectionChanged(idx, before, !before));
    }

    /** `set_node_clicked` */
    method SetNodeClicked(idx: NodeId)
      modifies this
      ensures State() == Interaction.SetNodeClicked(cfg, old(State()), idx)
    {
      SendChanges(Clicked(idx));
    }

    /** `set_node_double_clicked` */
    method SetNodeDoubleClicked(idx: NodeId)
      modifies this
      ensures State() == Interaction.SetNodeDoubleClicked(cfg, old(State()), idx)
    {
      SendChanges(DoubleClicked(idx));
    }

    /** `deselect_all`: toggle each id of the snapshot's selected list in turn. */
    method DeselectAll(comp: ComputedState)
      requires AllPresent(g, comp.selected)
      modifies this
      ensures State() == Interaction.DeselectAll(cfg, old(State()), comp.selected)
    {
      var ids := comp.selected;
      ghost var s0 := State();
      for k := 0 to |ids|
        invariant State() == Interaction.DeselectAll(cfg, s0, ids[..k])
      {
        DeselectAllStep(cfg, s0, ids, k);
        ToggleSelectionNode(ids[k]);
      }
      assert ids[..|ids|] == ids;
    }

    /** `move_node` */
    method MoveNode(idx: NodeId, delta: Vec2)
      requires HasNode(g, idx)
      modifies this
      ensures State() == Interaction.MoveNode(cfg, old(State()), idx, delta)
    {
      var n := GetNode(g, idx);
      var before := n.location;
      g := SetNode(g, idx, n.(location := Add(before, delta)));
      SendChanges(LocationMoved(idx, before, Add(before, delta)));
    }

    /** `set_dragged` */
    method SetDragged(idx: NodeId, val: bool)
      requires HasNode(g, idx)
      modifies this
      ensures State() == Interaction.SetDragged(cfg, old(State()), idx, val)
    {
      var n := GetNode(g, idx);
      var before := n.dragged;
      g := SetNode(g, idx, n.(dragged := val));
      SendChanges(DraggedChanged(idx, before, val));
    }

    // ---------------------------------------------------------------- handlers

    /** `handle_node_drag` */
    method HandleNodeDrag(resp: Response, comp: ComputedState)
      requires Valid() && ComputedFor(comp, g) && DragReady(cfg, resp)
      modifies this
      ensures State() == Interaction.HandleNodeDrag(cfg, old(State()), resp, comp)
    {
      if !cfg.interaction.draggingEnabled {
        return;
      }
      ghost var s0 := State();
      if resp.dragStarted {
        GrabNode(resp, comp);
      }
      ghost var started := State();
      ShapeKeepsComputed(comp, s0.g, g);
      FollowDrag(resp, comp);
      ghost var moved := State();
      ShapeKeepsComputed(comp, started.g, g);
      ReleaseDrag(resp, comp);
      assert State() == DragRelease(cfg, moved, resp, comp);
    }

    /** The drag-start block of `handle_node_drag`: mark the node under the pointer as dragged. */
    method GrabNode(resp: Response, comp: ComputedState)
      requires Valid() && ComputedFor(comp, g) && resp.hoverPos.Some?
      modifies this
      ensures State() == DragStart(cfg, old(State()), resp, comp)
    {
      var hit := HitTest(State(), comp, resp.hoverPos.value);
      if hit.Some? {
        SetDragged(hit.value.0, true);
      }
    }

    /** The drag block of `handle_node_drag`: the snapshot's dragged node follows the delta. */
    method FollowDrag(resp: Response, comp: ComputedState)
      requires Valid() && ComputedFor(comp, g)
      modifies this
      ensures State() == DragMove(cfg, old(State()), resp, comp, old(meta.zoom))
    {
      if resp.dragged && comp.dragged.Some? && (resp.dragDelta.x != 0.0 || resp.dragDelta.y != 0.0) {
        var dragged := comp.dragged.value;
        var deltaInGraph := Div(resp.dragDelta, meta.zoom);
        MoveNode(dragged, deltaInGraph);
      }
    }

    /** The release block of `handle_node_drag`: the snapshot's dragged node is released. */
    method ReleaseDrag(resp: Response, comp: ComputedState)
      requires ComputedFor(comp, g)
      modifies this
      ensures State() == DragRelease(cfg, old(State()), resp, comp)
    {
      if resp.dragReleased && comp.dragged.Some? {
        SetDragged(comp.dragged.value, false);
      }
    }

    /** `handle_node_double_click` */
    method HandleNodeDoubleClick(idx: NodeId)
      modifies this
      ensures State() == Interaction.HandleNodeDoubleClick(cfg, old(State()), idx)
    {
      if !cfg.interaction.clickingEnabled {
        return;
      }
      SetNodeDoubleClicked(idx);
    }

    /** `handle_node_click` */
    method HandleNodeClick(idx: NodeId, comp: ComputedState)
      requires HasNode(g, idx) && AllPresent(g, comp.selected)
      modifies this
      ensures State() == Interaction.HandleNodeClick(cfg, old(State()), idx, comp)
    {
      var settings := cfg.interaction;
      if !settings.clickingEnabled && !settings.selectionEnabled {
        return;
      }
      if settings.clickingEnabled {
        SetNodeClicked(idx);
      }
      if !settings.selectionEnabled {
        return;
      }
      var n := GetNode(g, idx);
      if n.selected {
        ToggleSelectionNode(idx);
        return;
      }
      if !settings.selectionMultiEnabled {
        DeselectAll(comp);
      }
      ToggleSelectionNode(idx);
    }

    /** `handle_click` */
    method HandleClick(resp: Response, comp: ComputedState)
      requires Valid() && ComputedFor(comp, g) && ClickReady(cfg, resp)
      modifies this
      ensures State() == Interaction.HandleClick(cfg, old(State()), resp, comp)
    {
      if !resp.clicked && !resp.doubleClicked {
        return;
      }
      var clickable := cfg.interaction.clickingEnabled || cfg.interaction.selectionEnabled
                       || cfg.interaction.selectionMultiEnabled;
      if !clickable {
        return;
      }
      var node := HitTest(State(), comp, resp.hoverPos.value);
      if node.None? {
        var selectable := cfg.interaction.selectionEnabled || cfg.interaction.selectionMultiEnabled;
        if selectable {
          DeselectAll(comp);
        }
        return;
      }
      var nodeIdx := node.value.0;
      if resp.doubleClicked {
        HandleNodeDoubleClick(nodeIdx);
        return;
      }
      HandleNodeClick(nodeIdx, comp);
    }

    /** `ui`: one frame of the widget, with drawing left out. */
    method Ui(resp: Response, comp: ComputedState)
      requires FrameReady(cfg, State(), resp, comp)
      modifies this
      ensures State() == Frame(cfg, old(State()), resp, comp)
      ensures Valid()
    {
      ghost var s0 := State();
      HandleFitToScreen(resp.rect, comp);
      HandleNavigation(resp, comp);
      ShapeKeepsComputed(comp, s0.g, g);
      HandleNodeDrag(resp, comp);
      ShapeKeepsComputed(comp, s0.g, g);
      HandleClick(resp, comp);
    }
  }

  /** One turn of the deselect loop: toggling `ids[k]` after the first `k` ids is toggling the first `k + 1`. */
  lemma DeselectAllStep(cfg: Config, s: View, ids: seq<NodeId>, k: nat)
    requires AllPresent(s.g, ids) && k < |ids|
    ensures AllPresent(s.g, ids[..k]) && AllPresent(s.g, ids[..k + 1])
    ensures HasNode(DeselectAll(cfg, s, ids[..k]).g, ids[k])
    ensures DeselectAll(cfg, s, ids[..k + 1]) == ToggleSelection(cfg, DeselectAll(cfg, s, ids[..k]), ids[k])
  {
    assert ids[..k + 1][..k] == ids[..k];
  }

  /** `zoom` sets the compensating pan, then the scaled zoom. */
  lemma ApplyZoomSteps(cfg: Config, s: View, rect: Rect, delta: real, center: Option<Vec2>, newPan: Vec2, newZoom: real)
    requires s.meta.zoom > 0.0
    requires newZoom == s.meta.zoom * (1.0 + delta)
    requires var graphCenter := Div(Sub(ZoomCenter(rect, center), s.meta.pan), s.meta.zoom);
             newPan == Add(s.meta.pan, Sub(Scale(graphCenter, s.meta.zoom), Scale(graphCenter, newZoom)))
    ensures ApplyZoom(cfg, s, rect, delta, center) == Interaction.SetZoom(cfg, Interaction.SetPan(cfg, s, newPan), newZoom)
  {
  }

  /** `fit_to_screen` zooms about the canvas centre to the fitted zoom, then sets the centring pan. */
  lemma FitToScreenPlan(cfg: Config, s: View, rect: Rect, comp: ComputedState,
                         zoomDelta: real, newZoom: real, newPan: Vec2)
    requires s.meta.zoom > 0.0 && FitReady(rect, comp.bounds, cfg.navigation.screenPadding)
    requires newZoom == FitZoom(rect, comp.bounds, cfg.navigation.screenPadding)
    requires zoomDelta == newZoom / s.meta.zoom - 1.0
    requires newPan == Sub(Center(rect), Scale(Div(Add(comp.bounds.min, comp.bounds.max), 2.0), newZoom))
    ensures 1.0 + zoomDelta > 0.0
    ensures FitToScreen(cfg, s, rect, comp) == Interaction.SetPan(cfg, ApplyZoom(cfg, s, rect, zoomDelta, None), newPan)
  {
    ZoomRatio(s.meta.zoom, newZoom);
    assert 1.0 + zoomDelta == newZoom / s.meta.zoom;
  }
}
