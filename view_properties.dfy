/**
 * What the interaction controller promises, proved about the functions of
 * module Interaction: the viewport equations, the pan and drag rules, the
 * click and selection rules, and the records each of them emits.
 */
module ViewProperties {
  import opened Wrappers
  import opened Geometry
  import opened GraphAccess
  import opened Interaction

  // ---------------------------------------------------------------- zoom

  lemma ZoomAxis(c: real, p: real, z: real, f: real)
    requires z > 0.0 && f > 0.0
    ensures var g := (c - p) / z;
            (c - (p + (g * z - g * (z * f)))) / (z * f) == g
  {
    var g := (c - p) / z;
    assert g * z == c - p;
    assert c - (p + (g * z - g * (z * f))) == g * (z * f);
    PositiveProduct(z, f);
  }

  /**
   * Zooming by `delta` multiplies the zoom by `1 + delta`, keeps the graph
   * point under the (canvas-relative) zoom centre under it, and publishes
   * the pan difference and then the zoom difference.
   */
  lemma ZoomKeepsCenterFixed(cfg: Config, s: View, rect: Rect, delta: real, center: Option<Vec2>)
    requires s.meta.zoom > 0.0 && 1.0 + delta > 0.0
    ensures var r := ApplyZoom(cfg, s, rect, delta, center);
            var c := ZoomCenter(rect, center);
            && r.meta.zoom == s.meta.zoom * (1.0 + delta)
            && r.meta.zoom > 0.0
            && ToGraph(c, r.meta.pan, r.meta.zoom) == ToGraph(c, s.meta.pan, s.meta.zoom)
            && r.events == s.events + Emitted(cfg.eventsPublisher,
                 [Pan(Sub(r.meta.pan, s.meta.pan)), Zoom(r.meta.zoom - s.meta.zoom)])
  {
    var c := ZoomCenter(rect, center);
    ZoomAxis(c.x, s.meta.pan.x, s.meta.zoom, 1.0 + delta);
    ZoomAxis(c.y, s.meta.pan.y, s.meta.zoom, 1.0 + delta);
  }

  /**
   * A gesture factor other than 1 zooms by `1 - zoom_speed` when the factor
   * is above 1 and by `1 + zoom_speed` when it is below 1, about the pointer;
   * otherwise, or with zoom and pan disabled, nothing changes.
   */
  lemma HandleZoomRule(cfg: Config, s: View, resp: Response)
    requires s.meta.zoom > 0.0 && ZoomReady(cfg, resp)
    ensures var r := HandleZoom(cfg, s, resp);
            && (!cfg.navigation.zoomAndPanEnabled || resp.zoomDelta == 1.0 ==> r == s)
            && (cfg.navigation.zoomAndPanEnabled && resp.zoomDelta > 1.0 ==>
                  r.meta.zoom == s.meta.zoom * (1.0 - cfg.navigation.zoomSpeed))
            && (cfg.navigation.zoomAndPanEnabled && resp.zoomDelta < 1.0 ==>
                  r.meta.zoom == s.meta.zoom * (1.0 + cfg.navigation.zoomSpeed))
            && (cfg.navigation.zoomAndPanEnabled && resp.zoomDelta != 1.0 ==>
                  var c := ZoomCenter(resp.rect, resp.pointerPos);
                  ToGraph(c, r.meta.pan, r.meta.zoom) == ToGraph(c, s.meta.pan, s.meta.zoom))
  {
    if cfg.navigation.zoomAndPanEnabled && resp.zoomDelta != 1.0 {
      var step := ZoomStep(cfg.navigation.zoomSpeed, resp.zoomDelta);
      ZoomKeepsCenterFixed(cfg, s, resp.rect, step, resp.pointerPos);
    }
  }

  // ---------------------------------------------------------------- fit to screen

  /**
   * Fit-to-screen sets the zoom to the smaller of the two axis ratios of
   * canvas to padded extent, and the pan that maps the centre of the bounds
   * to the canvas centre; it publishes a pan, a zoom and a pan, whose two
   * pan differences add up to the total change of the pan.
   */
  lemma FitToScreenResult(cfg: Config, s: View, rect: Rect, comp: ComputedState)
    requires s.meta.zoom > 0.0
    requires FitReady(rect, comp.bounds, cfg.navigation.screenPadding)
    ensures var r := FitToScreen(cfg, s, rect, comp);
            var e := FitExtent(comp.bounds);
            var k := 1.0 + cfg.navigation.screenPadding;
            && r.meta.zoom == Min(Size(rect).x / (e.x * k), Size(rect).y / (e.y * k))
            && r.meta.pan == Sub(Center(rect), Scale(Center(comp.bounds), r.meta.zoom))
            && ToScreen(Center(comp.bounds), r.meta.pan, r.meta.zoom) == Center(rect)
            && (!cfg.eventsPublisher ==> r.events == s.events)
            && (cfg.eventsPublisher ==>
                  && |r.events| == |s.events| + 3
                  && r.events[..|s.events|] == s.events
                  && r.events[|s.events|].Pan?
                  && r.events[|s.events| + 1] == Zoom(r.meta.zoom - s.meta.zoom)
                  && r.events[|s.events| + 2].Pan?
                  && Add(r.events[|s.events|].panDiff, r.events[|s.events| + 2].panDiff)
                     == Sub(r.meta.pan, s.meta.pan))
  {
    var newZoom := FitZoom(rect, comp.bounds, cfg.navigation.screenPadding);
    FitToScreenSteps(cfg, s, rect, comp);
    var zoomed := ApplyZoom(cfg, s, rect, newZoom / s.meta.zoom - 1.0, None);
    var r := FitToScreen(cfg, s, rect, comp);
    PanAlignsCenters(Center(comp.bounds), Center(rect), newZoom);
    if cfg.eventsPublisher {
      assert r.events == s.events + [Pan(Sub(zoomed.meta.pan, s.meta.pan)), Zoom(newZoom - s.meta.zoom),
                                     Pan(Sub(r.meta.pan, zoomed.meta.pan))];
    }
  }

  /** Fit-to-screen is a zoom to the fitted zoom followed by setting the centring pan. */
  lemma FitToScreenSteps(cfg: Config, s: View, rect: Rect, comp: ComputedState)
    requires s.meta.zoom > 0.0
    requires FitReady(rect, comp.bounds, cfg.navigation.screenPadding)
    ensures var newZoom := FitZoom(rect, comp.bounds, cfg.navigation.screenPadding);
            var zoomed := ApplyZoom(cfg, s, rect, newZoom / s.meta.zoom - 1.0, None);
            var e := FitExtent(comp.bounds);
            var k := 1.0 + cfg.navigation.screenPadding;
            && newZoom == Min(Size(rect).x / (e.x * k), Size(rect).y / (e.y * k))
            && zoomed.meta.zoom == newZoom
            && FitToScreen(cfg, s, rect, comp)
               == SetPan(cfg, zoomed, Sub(Center(rect), Scale(Center(comp.bounds), newZoom)))
  {
    var newZoom := FitZoom(rect, comp.bounds, cfg.navigation.screenPadding);
    ZoomRatio(s.meta.zoom, newZoom);
    assert Div(Add(comp.bounds.min, comp.bounds.max), 2.0) == Center(comp.bounds);
  }

  /** The pan `target - c * zoom` maps the graph point `c` onto the screen point `target`. */
  lemma PanAlignsCenters(c: Vec2, target: Vec2, zoom: real)
    ensures ToScreen(c, Sub(target, Scale(c, zoom)), zoom) == target
  {
  }

  /** A single-point bounding box (an empty or one-node graph) falls back to the extent (1, 100). */
  lemma FitFallbackOnlyForPoint(bounds: Rect, rect: Rect, padding: real)
    ensures Size(bounds) == Zero ==> FitExtent(bounds) == Vec2(1.0, 100.0)
    ensures Size(bounds) != Zero ==> FitExtent(bounds) == Size(bounds)
    ensures (Size(bounds).x == 0.0) != (Size(bounds).y == 0.0) ==> !FitReady(rect, bounds, padding)
  {
  }

  /**
   * Fit-to-screen runs on the first frame or when always-fit is enabled,
   * and then applies the fitted zoom and pan; otherwise it changes nothing.
   * Either way the first-frame flag is clear afterwards.
   */
  lemma HandleFitToScreenRule(cfg: Config, s: View, rect: Rect, comp: ComputedState)
    requires s.meta.zoom > 0.0
    requires FitRuns(cfg, s) ==> FitReady(rect, comp.bounds, cfg.navigation.screenPadding)
    ensures var r := HandleFitToScreen(cfg, s, rect, comp);
            && !r.meta.firstFrame
            && (!s.meta.firstFrame && !cfg.navigation.fitToScreenEnabled ==> r == s)
            && (FitRuns(cfg, s) ==>
                  && r.meta.zoom == FitZoom(rect, comp.bounds, cfg.navigation.screenPadding)
                  && ToScreen(Center(comp.bounds), r.meta.pan, r.meta.zoom) == Center(rect))
  {
    if FitRuns(cfg, s) {
      FitToScreenResult(cfg, s, rect, comp);
    }
  }

  /** Scenario: an empty graph on an 800 by 600 canvas at the origin gets zoom 6 / (1 + padding). */
  lemma FitEmptyGraph(cfg: Config, s: View, comp: ComputedState)
    requires s.meta.zoom > 0.0 && 1.0 + cfg.navigation.screenPadding > 0.0
    requires comp.bounds.min == comp.bounds.max
    ensures var rect := Rect(Zero, Vec2(800.0, 600.0));
            var r := FitToScreen(cfg, s, rect, comp);
            && r.meta.zoom == 6.0 / (1.0 + cfg.navigation.screenPadding)
            && r.meta.pan == Sub(Vec2(400.0, 300.0), Scale(comp.bounds.min, r.meta.zoom))
  {
    var rect := Rect(Zero, Vec2(800.0, 600.0));
    var k := 1.0 + cfg.navigation.screenPadding;
    assert Size(comp.bounds) == Zero;
    FitToScreenResult(cfg, s, rect, comp);
    assert 800.0 / (1.0 * k) > 600.0 / (100.0 * k);
    assert 600.0 / (100.0 * k) == 6.0 / k;
    assert Center(comp.bounds) == comp.bounds.min;
  }

  // ---------------------------------------------------------------- pan

  /**
   * Panning adds the drag delta to the pan, and publishes it, exactly when
   * zoom and pan are enabled, a drag is under way, the snapshot has no
   * dragged node and the delta is non-zero; otherwise nothing changes.
   */
  lemma HandlePanRule(cfg: Config, s: View, resp: Response, comp: ComputedState)
    ensures var r := HandlePan(cfg, s, resp, comp);
            var pans := cfg.navigation.zoomAndPanEnabled && resp.dragged && comp.dragged.None?
                        && NonZero(resp.dragDelta);
            && (pans ==>
                  && r.meta == s.meta.(pan := Add(s.meta.pan, resp.dragDelta))
                  && r.events == s.events + Emitted(cfg.eventsPublisher, [Pan(resp.dragDelta)])
                  && r.g == s.g && r.changes == s.changes)
            && (!pans ==> r == s)
  {
    assert Sub(Add(s.meta.pan, resp.dragDelta), s.meta.pan) == resp.dragDelta;
  }

  // ---------------------------------------------------------------- selection

  function Flip(n: Node): Node
  {
    n.(selected := !n.selected)
  }

  /** The SelectionChanged records toggling `ids` in order produces, read against `g`. */
  function Toggles(g: Graph, ids: seq<NodeId>): (r: seq<Change>)
    requires AllPresent(g, ids)
    ensures |r| == |ids|
    ensures forall k :: 0 <= k < |ids| ==>
              r[k] == SelectionChanged(ids[k], GetNode(g, ids[k]).selected, !GetNode(g, ids[k]).selected)
    decreases |ids|
  {
    if ids == [] then []
    else
      var init := ids[..|ids| - 1];
      var last := ids[|ids| - 1];
      assert forall k :: 0 <= k < |init| ==> init[k] == ids[k];
      Toggles(g, init) + [SelectionChanged(last, GetNode(g, last).selected, !GetNode(g, last).selected)]
  }

  /** A SelectionChanged(true -> false) per id, in order. */
  function Deselections(ids: seq<NodeId>): seq<Change>
  {
    seq(|ids|, k requires 0 <= k < |ids| => SelectionChanged(ids[k], true, false))
  }

  /** Toggling one node flips its flag, leaves every other node alone and sends the flip. */
  lemma ToggleEffect(cfg: Config, s: View, idx: NodeId)
    requires HasNode(s.g, idx)
    ensures var r := ToggleSelection(cfg, s, idx);
            && (forall i: nat :: HasNode(s.g, i) ==>
                  GetNode(r.g, i) == if i == idx then Flip(GetNode(s.g, i)) else GetNode(s.g, i))
            && r.changes == s.changes + Emitted(cfg.changesSender,
                 [SelectionChanged(idx, GetNode(s.g, idx).selected, !GetNode(s.g, idx).selected)])
  {
    SetNodeReads(s.g, idx, Flip(GetNode(s.g, idx)));
  }

  /**
   * Toggling a list of distinct ids flips the selected flag of exactly those
   * nodes, once each, and sends one SelectionChanged per id in list order.
   */
  lemma {:induction false} DeselectAllEffect(cfg: Config, s: View, ids: seq<NodeId>)
    requires AllPresent(s.g, ids) && Distinct(ids)
    ensures var r := DeselectAll(cfg, s, ids);
            && (forall i: nat :: HasNode(s.g, i) ==>
                  GetNode(r.g, i) == if i in ids then Flip(GetNode(s.g, i)) else GetNode(s.g, i))
            && r.changes == s.changes + Emitted(cfg.changesSender, Toggles(s.g, ids))
    decreases |ids|
  {
    if ids != [] {
      var init := ids[..|ids| - 1];
      var last := ids[|ids| - 1];
      DeselectLast(cfg, s, ids);
      DeselectAllEffect(cfg, s, init);
      var mid := DeselectAll(cfg, s, init);
      ToggleEffect(cfg, mid, last);
      forall i: nat | HasNode(s.g, i)
        ensures GetNode(DeselectAll(cfg, s, ids).g, i)
                == if i in ids then Flip(GetNode(s.g, i)) else GetNode(s.g, i)
      {
        assert HasNode(mid.g, i);
      }
      assert GetNode(mid.g, last) == GetNode(s.g, last);
    }
  }

  /** Splitting a non-empty id list into its prefix and its last id, as the deselect recursion does. */
  lemma DeselectLast(cfg: Config, s: View, ids: seq<NodeId>)
    requires AllPresent(s.g, ids) && Distinct(ids) && ids != []
    ensures var init := ids[..|ids| - 1];
            var last := ids[|ids| - 1];
            && AllPresent(s.g, init) && Distinct(init) && last !in init
            && (forall i :: i in ids <==> i in init || i == last)
            && DeselectAll(cfg, s, ids) == ToggleSelection(cfg, DeselectAll(cfg, s, init), last)
            && Toggles(s.g, ids) == Toggles(s.g, init)
               + [SelectionChanged(last, GetNode(s.g, last).selected, !GetNode(s.g, last).selected)]
  {
    var init := ids[..|ids| - 1];
    var last := ids[|ids| - 1];
    assert forall k :: 0 <= k < |init| ==> init[k] == ids[k];
    assert last !in init by {
      forall k | 0 <= k < |init| ensures init[k] != last {
        assert ids[k] != ids[|ids| - 1];
      }
    }
    assert ids == init + [last];
  }

  /**
   * When the snapshot lists exactly the selected nodes, deselecting it
   * leaves no node selected and sends SelectionChanged(true -> false) for
   * each listed id in order; nothing else about the nodes changes.
   */
  lemma DeselectSnapshot(cfg: Config, s: View, comp: ComputedState)
    requires SelectionSnapshot(comp, s.g)
    ensures var r := DeselectAll(cfg, s, comp.selected);
            && SelectedIds(r.g) == {}
            && (forall i: nat :: HasNode(s.g, i) ==> GetNode(r.g, i) == GetNode(s.g, i).(selected := false))
            && r.changes == s.changes + Emitted(cfg.changesSender, Deselections(comp.selected))
  {
    var ids := comp.selected;
    DeselectAllEffect(cfg, s, ids);
    var r := DeselectAll(cfg, s, ids);
    FlippedSelectionCleared(s.g, r.g, ids);
    NoneSelected(s.g, r.g);
    SelectedToggles(s.g, ids);
  }

  /** Flipping exactly the selected nodes clears every selected flag. */
  lemma FlippedSelectionCleared(g: Graph, h: Graph, ids: seq<NodeId>)
    requires SameShape(g, h)
    requires forall i: nat :: HasNode(g, i) ==> (GetNode(g, i).selected <==> i in ids)
    requires forall i: nat :: HasNode(g, i) ==>
               GetNode(h, i) == if i in ids then Flip(GetNode(g, i)) else GetNode(g, i)
    ensures forall i: nat :: HasNode(g, i) ==> GetNode(h, i) == GetNode(g, i).(selected := false)
  {
  }

  /** Toggling ids that are all selected sends a deselection for each. */
  lemma SelectedToggles(g: Graph, ids: seq<NodeId>)
    requires AllPresent(g, ids)
    requires forall k :: 0 <= k < |ids| ==> GetNode(g, ids[k]).selected
    ensures Toggles(g, ids) == Deselections(ids)
  {
  }

  lemma NoneSelected(g: Graph, h: Graph)
    requires SameShape(g, h)
    requires forall i: nat :: HasNode(g, i) ==> !GetNode(h, i).selected
    ensures SelectedIds(h) == {}
  {
    forall i: nat | i in SelectedIds(h) ensures false {
      assert HasNode(g, i);
    }
  }

  /** Writing one node changes the selected set only at that node. */
  lemma SelectedAfterSet(g: Graph, idx: NodeId, n: Node)
    requires HasNode(g, idx)
    ensures SelectedIds(SetNode(g, idx, n)) == (SelectedIds(g) - {idx}) + (if n.selected then {idx} else {})
  {
    var h := SetNode(g, idx, n);
    assert h.nodes == g.nodes[idx := Some(n)];
    forall i: nat ensures i in SelectedIds(h) <==> i in (SelectedIds(g) - {idx}) + (if n.selected then {idx} else {})
    {
      if i < |g.nodes| && i != idx {
        assert h.nodes[i] == g.nodes[i];
      }
    }
  }

  // ---------------------------------------------------------------- clicks

  /** Nothing happens unless the input is a click or double click and clicking or some selection is enabled. */
  lemma ClickIgnored(cfg: Config, s: View, resp: Response, comp: ComputedState)
    requires s.meta.zoom > 0.0 && ComputedFor(comp, s.g) && ClickReady(cfg, resp)
    requires !IsClick(resp) || !Clickable(cfg)
    ensures HandleClick(cfg, s, resp, comp) == s
  {
  }

  /**
   * A click on empty space with selection or multi-selection enabled
   * deselects the snapshot's selection, one SelectionChanged per node;
   * with only clicking enabled it changes nothing.
   */
  lemma ClickOnEmptySpace(cfg: Config, s: View, resp: Response, comp: ComputedState)
    requires s.meta.zoom > 0.0 && SelectionSnapshot(comp, s.g)
    requires IsClick(resp) && Clickable(cfg) && resp.hoverPos.Some?
    requires HitTest(s, comp, resp.hoverPos.value).None?
    ensures var r := HandleClick(cfg, s, resp, comp);
            && (!Selectable(cfg) ==> r == s)
            && (Selectable(cfg) ==>
                  && SelectedIds(r.g) == {}
                  && r.changes == s.changes + Emitted(cfg.changesSender, Deselections(comp.selected)))
  {
    if Selectable(cfg) {
      DeselectSnapshot(cfg, s, comp);
    }
  }

  /** A single click that hits a node is handled as a click on that node. */
  lemma ClickOnNode(cfg: Config, s: View, resp: Response, comp: ComputedState, idx: NodeId, n: Node)
    requires s.meta.zoom > 0.0 && ComputedFor(comp, s.g)
    requires resp.clicked && !resp.doubleClicked && resp.hoverPos.Some? && Clickable(cfg)
    requires HitTest(s, comp, resp.hoverPos.value) == Some((idx, n))
    ensures HasNode(s.g, idx) && GetNode(s.g, idx) == n
    ensures HandleClick(cfg, s, resp, comp) == HandleNodeClick(cfg, s, idx, comp)
  {
  }

  /** The Clicked record a node click sends first, when clicking is enabled. */
  function ClickRecord(cfg: Config, idx: NodeId): seq<Change>
  {
    if cfg.interaction.clickingEnabled then [Clicked(idx)] else []
  }

  /**
   * A click on a node that is already selected, with selection enabled,
   * reports the click (if clicking is enabled) and toggles only that node off.
   */
  lemma NodeClickOnSelected(cfg: Config, s: View, idx: NodeId, comp: ComputedState)
    requires HasNode(s.g, idx) && AllPresent(s.g, comp.selected)
    requires cfg.interaction.selectionEnabled && GetNode(s.g, idx).selected
    ensures var r := HandleNodeClick(cfg, s, idx, comp);
            && r.g == SetNode(s.g, idx, GetNode(s.g, idx).(selected := false))
            && SelectedIds(r.g) == SelectedIds(s.g) - {idx}
            && r.changes == s.changes + Emitted(cfg.changesSender,
                 ClickRecord(cfg, idx) + [SelectionChanged(idx, true, false)])
  {
    SelectedAfterSet(s.g, idx, GetNode(s.g, idx).(selected := false));
  }

  /**
   * A click on an unselected node with selection enabled and
   * multi-selection disabled deselects the snapshot's selection and then
   * selects the node: afterwards exactly that node is selected.
   */
  lemma NodeClickSelectsOnly(cfg: Config, s: View, idx: NodeId, comp: ComputedState)
    requires SelectionSnapshot(comp, s.g) && HasNode(s.g, idx)
    requires cfg.interaction.selectionEnabled && !cfg.interaction.selectionMultiEnabled
    requires !GetNode(s.g, idx).selected
    ensures var r := HandleNodeClick(cfg, s, idx, comp);
            && SelectedIds(r.g) == {idx}
            && r.changes == s.changes + Emitted(cfg.changesSender,
                 ClickRecord(cfg, idx) + Deselections(comp.selected) + [SelectionChanged(idx, false, true)])
  {
    var n := GetNode(s.g, idx);
    var reported := Reported(cfg, s, idx);
    UnselectedClickSteps(cfg, s, idx, comp);
    DeselectSnapshot(cfg, reported, comp);
    var cleared := DeselectAll(cfg, reported, comp.selected);
    assert GetNode(cleared.g, idx) == n.(selected := false);
    ToggleEffect(cfg, cleared, idx);
    SelectedAfterSet(cleared.g, idx, n.(selected := true));
    ChangesAppend(cfg.changesSender, s.changes, ClickRecord(cfg, idx), Deselections(comp.selected),
                  [SelectionChanged(idx, false, true)]);
  }

  /** The view after the click record of a node click. */
  function Reported(cfg: Config, s: View, idx: NodeId): (r: View)
    ensures r.g == s.g && r.meta == s.meta && r.events == s.events
    ensures r.changes == s.changes + Emitted(cfg.changesSender, ClickRecord(cfg, idx))
  {
    if cfg.interaction.clickingEnabled then SetNodeClicked(cfg, s, idx) else s
  }

  /** The steps of a click on an unselected node without multi-selection: report, deselect, toggle. */
  lemma UnselectedClickSteps(cfg: Config, s: View, idx: NodeId, comp: ComputedState)
    requires HasNode(s.g, idx) && AllPresent(s.g, comp.selected)
    requires cfg.interaction.selectionEnabled && !cfg.interaction.selectionMultiEnabled
    requires !GetNode(s.g, idx).selected
    ensures AllPresent(Reported(cfg, s, idx).g, comp.selected)
    ensures HandleNodeClick(cfg, s, idx, comp)
            == ToggleSelection(cfg, DeselectAll(cfg, Reported(cfg, s, idx), comp.selected), idx)
  {
  }

  lemma ChangesAppend(on: bool, log: seq<Change>, a: seq<Change>, b: seq<Change>, c: seq<Change>)
    ensures log + Emitted(on, a) + Emitted(on, b) + Emitted(on, c) == log + Emitted(on, a + b + c)
  {
  }

  /**
   * With multi-selection enabled, a click on an unselected node adds it to
   * the selection and leaves every other node as it was.
   */
  lemma NodeClickAddsToSelection(cfg: Config, s: View, idx: NodeId, comp: ComputedState)
    requires HasNode(s.g, idx) && AllPresent(s.g, comp.selected)
    requires cfg.interaction.selectionEnabled && cfg.interaction.selectionMultiEnabled
    requires !GetNode(s.g, idx).selected
    ensures var r := HandleNodeClick(cfg, s, idx, comp);
            && r.g == SetNode(s.g, idx, GetNode(s.g, idx).(selected := true))
            && SelectedIds(r.g) == SelectedIds(s.g) + {idx}
            && r.changes == s.changes + Emitted(cfg.changesSender,
                 ClickRecord(cfg, idx) + [SelectionChanged(idx, false, true)])
  {
    SelectedAfterSet(s.g, idx, GetNode(s.g, idx).(selected := true));
  }

  /**
   * With selection disabled a click on a node only reports the click (when
   * clicking is enabled); multi-selection alone does not make a node
   * selectable.
   */
  lemma NodeClickWithoutSelection(cfg: Config, s: View, idx: NodeId, comp: ComputedState)
    requires HasNode(s.g, idx) && AllPresent(s.g, comp.selected)
    requires !cfg.interaction.selectionEnabled
    ensures var r := HandleNodeClick(cfg, s, idx, comp);
            && r.g == s.g
            && r.changes == s.changes + Emitted(cfg.changesSender, ClickRecord(cfg, idx))
  {
  }

  /** A double click on a node changes no flag and reports only DoubleClicked, when clicking is enabled. */
  lemma DoubleClickOnNode(cfg: Config, s: View, resp: Response, comp: ComputedState, idx: NodeId, n: Node)
    requires s.meta.zoom > 0.0 && ComputedFor(comp, s.g)
    requires resp.doubleClicked && resp.hoverPos.Some? && Clickable(cfg)
    requires HitTest(s, comp, resp.hoverPos.value) == Some((idx, n))
    ensures var r := HandleClick(cfg, s, resp, comp);
            && r.g == s.g
            && r.changes == s.changes + Emitted(cfg.changesSender && cfg.interaction.clickingEnabled, [DoubleClicked(idx)])
  {
  }

  // ---------------------------------------------------------------- drag

  /**
   * While the snapshot's dragged node is being dragged by a non-zero delta,
   * its location grows by the delta divided by the zoom, and one
   * LocationMoved with the old and new location is sent.
   */
  lemma NodeDragMoves(cfg: Config, s: View, resp: Response, comp: ComputedState, i: NodeId)
    requires s.meta.zoom > 0.0 && ComputedFor(comp, s.g)
    requires cfg.interaction.draggingEnabled && !resp.dragStarted && !resp.dragReleased
    requires resp.dragged && comp.dragged == Some(i) && NonZero(resp.dragDelta)
    ensures var r := HandleNodeDrag(cfg, s, resp, comp);
            var before := GetNode(s.g, i).location;
            var after := Add(before, Div(resp.dragDelta, s.meta.zoom));
            && r.g == SetNode(s.g, i, GetNode(s.g, i).(location := after))
            && r.changes == s.changes + Emitted(cfg.changesSender, [LocationMoved(i, before, after)])
  {
  }

  /** Scenario: a drag delta of (10, -5) at zoom 2 moves the node by (5, -2.5). */
  lemma NodeDragAtZoomTwo(cfg: Config, s: View, resp: Response, comp: ComputedState, i: NodeId)
    requires s.meta.zoom == 2.0 && ComputedFor(comp, s.g)
    requires cfg.interaction.draggingEnabled && !resp.dragStarted && !resp.dragReleased
    requires resp.dragged && comp.dragged == Some(i) && resp.dragDelta == Vec2(10.0, -5.0)
    ensures var r := HandleNodeDrag(cfg, s, resp, comp);
            && GetNode(r.g, i).location == Add(GetNode(s.g, i).location, Vec2(5.0, -2.5))
            && |r.changes| == |s.changes| + (if cfg.changesSender then 1 else 0)
  {
    NodeDragMoves(cfg, s, resp, comp, i);
    assert Div(resp.dragDelta, 2.0) == Vec2(5.0, -2.5);
  }

  /**
   * Whatever else the frame's gesture does (a drag starting or ending), the
   * snapshot's dragged node ends the drag handler moved by the non-zero drag
   * delta divided by the zoom, and no other node moves.
   */
  lemma NodeDragLocation(cfg: Config, s: View, resp: Response, comp: ComputedState, i: NodeId)
    requires s.meta.zoom > 0.0 && ComputedFor(comp, s.g) && DragReady(cfg, resp)
    requires cfg.interaction.draggingEnabled
    requires resp.dragged && comp.dragged == Some(i) && NonZero(resp.dragDelta)
    ensures var r := HandleNodeDrag(cfg, s, resp, comp);
            && GetNode(r.g, i).location == Add(GetNode(s.g, i).location, Div(resp.dragDelta, s.meta.zoom))
            && forall j: nat :: HasNode(s.g, j) && j != i ==> GetNode(r.g, j).location == GetNode(s.g, j).location
  {
    var started := if resp.dragStarted then DragStart(cfg, s, resp, comp) else s;
    if resp.dragStarted {
      StartKeepsLocations(cfg, s, resp, comp);
    }
    ShapeKeepsComputed(comp, s.g, started.g);
    var delta := Div(resp.dragDelta, s.meta.zoom);
    var moved := DragMove(cfg, started, resp, comp, s.meta.zoom);
    assert moved == MoveNode(cfg, started, i, delta);
    MoveEffect(cfg, started, i, delta);
    ShapeKeepsComputed(comp, started.g, moved.g);
    var r := DragRelease(cfg, moved, resp, comp);
    assert r == HandleNodeDrag(cfg, s, resp, comp);
    if resp.dragReleased {
      DraggedKeepsLocations(cfg, moved, i, false);
    }
  }

  /** A starting drag moves no node. */
  lemma StartKeepsLocations(cfg: Config, s: View, resp: Response, comp: ComputedState)
    requires s.meta.zoom > 0.0
    requires ComputedFor(comp, s.g) && resp.hoverPos.Some?
    ensures var r := DragStart(cfg, s, resp, comp);
            forall j: nat :: HasNode(s.g, j) ==> GetNode(r.g, j).location == GetNode(s.g, j).location
  {
    match HitTest(s, comp, resp.hoverPos.value)
    case Some(hit) => DraggedKeepsLocations(cfg, s, hit.0, true);
    case None =>
  }

  /** `set_dragged` moves no node. */
  lemma DraggedKeepsLocations(cfg: Config, s: View, idx: NodeId, val: bool)
    requires HasNode(s.g, idx)
    ensures var r := SetDragged(cfg, s, idx, val);
            forall j: nat :: HasNode(s.g, j) ==> GetNode(r.g, j).location == GetNode(s.g, j).location
  {
    SetNodeReads(s.g, idx, GetNode(s.g, idx).(dragged := val));
  }

  /** `move_node` moves that node by `delta` and no other node. */
  lemma MoveEffect(cfg: Config, s: View, idx: NodeId, delta: Vec2)
    requires HasNode(s.g, idx)
    ensures var r := MoveNode(cfg, s, idx, delta);
            && GetNode(r.g, idx).location == Add(GetNode(s.g, idx).location, delta)
            && forall j: nat :: HasNode(s.g, j) && j != idx ==> GetNode(r.g, j).location == GetNode(s.g, j).location
  {
    var n := GetNode(s.g, idx);
    SetNodeReads(s.g, idx, n.(location := Add(n.location, delta)));
  }

  /** Releasing the drag clears the dragged flag of the snapshot's dragged node and sends DraggedChanged(true -> false). */
  lemma NodeDragReleases(cfg: Config, s: View, resp: Response, comp: ComputedState, i: NodeId)
    requires s.meta.zoom > 0.0 && ComputedFor(comp, s.g)
    requires cfg.interaction.draggingEnabled && !resp.dragStarted && resp.dragReleased
    requires !(resp.dragged && NonZero(resp.dragDelta))
    requires comp.dragged == Some(i) && GetNode(s.g, i).dragged
    ensures var r := HandleNodeDrag(cfg, s, resp, comp);
            && r.g == SetNode(s.g, i, GetNode(s.g, i).(dragged := false))
            && r.changes == s.changes + Emitted(cfg.changesSender, [DraggedChanged(i, true, false)])
  {
  }

  /**
   * A drag starting on a node marks it dragged and sends DraggedChanged;
   * since the snapshot has no dragged node yet, the node does not move in
   * this frame, whatever the drag delta.
   */
  lemma NodeDragStarts(cfg: Config, s: View, resp: Response, comp: ComputedState, j: NodeId, n: Node)
    requires s.meta.zoom > 0.0 && ComputedFor(comp, s.g)
    requires cfg.interaction.draggingEnabled && resp.dragStarted && resp.hoverPos.Some?
    requires comp.dragged.None?
    requires HitTest(s, comp, resp.hoverPos.value) == Some((j, n))
    ensures var r := HandleNodeDrag(cfg, s, resp, comp);
            && r.g == SetNode(s.g, j, n.(dragged := true))
            && GetNode(r.g, j).location == n.location
            && r.changes == s.changes + Emitted(cfg.changesSender, [DraggedChanged(j, n.dragged, true)])
  {
  }

  /**
   * A non-zero drag that does not start this frame moves the canvas when the
   * snapshot has no dragged node, and moves the snapshot's dragged node
   * instead of the canvas when it has one: never both.
   */
  lemma DragMovesCanvasOrNode(cfg: Config, s: View, resp: Response, comp: ComputedState)
    requires s.meta.zoom > 0.0 && ComputedFor(comp, s.g)
    requires cfg.navigation.zoomAndPanEnabled && cfg.interaction.draggingEnabled
    requires resp.dragged && NonZero(resp.dragDelta) && !resp.dragStarted
    ensures var t := HandleNodeDrag(cfg, HandlePan(cfg, s, resp, comp), resp, comp);
            && (comp.dragged.None? ==> t.meta.pan == Add(s.meta.pan, resp.dragDelta) && t.g == s.g)
            && (comp.dragged.Some? ==>
                  && t.meta.pan == s.meta.pan
                  && GetNode(t.g, comp.dragged.value).location
                     == Add(GetNode(s.g, comp.dragged.value).location, Div(resp.dragDelta, s.meta.zoom)))
  {
    var p := HandlePan(cfg, s, resp, comp);
    HandlePanRule(cfg, s, resp, comp);
    if comp.dragged.Some? {
      var i := comp.dragged.value;
      assert p == s;
      var moved := MoveNode(cfg, p, i, Div(resp.dragDelta, s.meta.zoom));
      if resp.dragReleased {
        var t := SetDragged(cfg, moved, i, false);
        assert LookupNode(t.g, i) == Some(GetNode(moved.g, i).(dragged := false));
      }
    }
  }

  /**
   * In the frame a drag starts on a node, with no dragged node in the
   * snapshot, the canvas pans by the drag delta after fit-to-screen and zoom
   * have run, and the node under the pointer (hit-tested at the panned
   * viewport) is marked dragged; the node itself does not move in that frame.
   */
  lemma GrabFramePansToo(cfg: Config, s: View, resp: Response, comp: ComputedState, j: NodeId, n: Node)
    requires FrameReady(cfg, s, resp, comp)
    requires cfg.navigation.zoomAndPanEnabled && cfg.interaction.draggingEnabled
    requires resp.dragStarted && resp.dragged && NonZero(resp.dragDelta) && comp.dragged.None?
    requires var t := HandleZoom(cfg, HandleFitToScreen(cfg, s, resp.rect, comp), resp);
             HitTest(HandlePan(cfg, t, resp, comp), comp, resp.hoverPos.value) == Some((j, n))
    ensures var t := HandleZoom(cfg, HandleFitToScreen(cfg, s, resp.rect, comp), resp);
            var r := NavigateAndDrag(cfg, s, resp, comp);
            && r.meta.pan == Add(t.meta.pan, resp.dragDelta)
            && r.g == SetNode(s.g, j, n.(dragged := true))
            && GetNode(r.g, j).location == GetNode(s.g, j).location
  {
    var t := HandleZoom(cfg, HandleFitToScreen(cfg, s, resp.rect, comp), resp);
    var p := HandlePan(cfg, t, resp, comp);
    HandlePanRule(cfg, t, resp, comp);
    assert HandleNavigation(cfg, HandleFitToScreen(cfg, s, resp.rect, comp), resp, comp) == p;
    assert p.g == s.g;
  }

  /**
   * At most one node is dragged after the drag handler, provided the
   * snapshot names the one dragged node of the graph and a new drag starts
   * only when no node is dragged or the old drag ends in the same frame.
   */
  lemma DragExclusive(cfg: Config, s: View, resp: Response, comp: ComputedState)
    requires s.meta.zoom > 0.0 && ComputedFor(comp, s.g) && DragReady(cfg, resp)
    requires DragSnapshot(comp, s.g)
    requires cfg.interaction.draggingEnabled && resp.dragStarted ==> comp.dragged.None? || resp.dragReleased
    ensures var r := HandleNodeDrag(cfg, s, resp, comp);
            forall a: nat, b: nat ::
              HasNode(r.g, a) && HasNode(r.g, b) && GetNode(r.g, a).dragged && GetNode(r.g, b).dragged ==> a == b
  {
    var before: set<NodeId> := if comp.dragged.Some? then {comp.dragged.value} else {};
    assert DraggedWithin(s.g, before);
    DragHandlerWithin(cfg, s, resp, comp, before);
  }

  /** The node a starting drag grabs, as a set: empty without a start or a hit. */
  function Grabbed(s: View, resp: Response, comp: ComputedState): set<NodeId>
    requires s.meta.zoom > 0.0 && ComputedFor(comp, s.g)
  {
    if resp.dragStarted && resp.hoverPos.Some? then
      match HitTest(s, comp, resp.hoverPos.value)
      case Some(hit) => {hit.0}
      case None => {}
    else {}
  }

  /** The node the drag's end releases, as a set. */
  function Released(resp: Response, comp: ComputedState): set<NodeId>
  {
    if resp.dragReleased && comp.dragged.Some? then {comp.dragged.value} else {}
  }

  /**
   * The drag handler adds at most the grabbed node to the dragged nodes and
   * takes away the released one.
   */
  lemma DragHandlerWithin(cfg: Config, s: View, resp: Response, comp: ComputedState, ids: set<NodeId>)
    requires s.meta.zoom > 0.0 && ComputedFor(comp, s.g) && DragReady(cfg, resp)
    requires DraggedWithin(s.g, ids)
    ensures DraggedWithin(HandleNodeDrag(cfg, s, resp, comp).g,
                          if cfg.interaction.draggingEnabled then ids + Grabbed(s, resp, comp) - Released(resp, comp) else ids)
  {
    if cfg.interaction.draggingEnabled {
      var grabbed := ids + Grabbed(s, resp, comp);
      var started := if resp.dragStarted then DragStart(cfg, s, resp, comp) else s;
      StartWithin(cfg, s, resp, comp, ids);
      ShapeKeepsComputed(comp, s.g, started.g);
      var moved := DragMove(cfg, started, resp, comp, s.meta.zoom);
      if resp.dragged && comp.dragged.Some? && NonZero(resp.dragDelta) {
        MoveDraggedWithin(cfg, started, comp.dragged.value, Div(resp.dragDelta, s.meta.zoom), grabbed);
      }
      ShapeKeepsComputed(comp, started.g, moved.g);
      if resp.dragReleased && comp.dragged.Some? {
        MarkDraggedWithin(cfg, moved, comp.dragged.value, false, grabbed);
      }
    }
  }

  /** A starting drag adds at most the grabbed node to the dragged nodes. */
  lemma StartWithin(cfg: Config, s: View, resp: Response, comp: ComputedState, ids: set<NodeId>)
    requires s.meta.zoom > 0.0 && ComputedFor(comp, s.g) && DragReady(cfg, resp)
    requires cfg.interaction.draggingEnabled && DraggedWithin(s.g, ids)
    ensures DraggedWithin((if resp.dragStarted then DragStart(cfg, s, resp, comp) else s).g, ids + Grabbed(s, resp, comp))
  {
    if resp.dragStarted {
      match HitTest(s, comp, resp.hoverPos.value)
      case Some(hit) => MarkDraggedWithin(cfg, s, hit.0, true, ids);
      case None =>
    }
  }

  /** Every dragged node of `g` is in `ids`. */
  ghost predicate DraggedWithin(g: Graph, ids: set<NodeId>)
  {
    forall i: nat :: HasNode(g, i) && GetNode(g, i).dragged ==> i in ids
  }

  /** `set_dragged` adds its node to, or removes it from, the set that bounds the dragged nodes. */
  lemma MarkDraggedWithin(cfg: Config, s: View, idx: NodeId, val: bool, ids: set<NodeId>)
    requires HasNode(s.g, idx) && DraggedWithin(s.g, ids)
    ensures DraggedWithin(SetDragged(cfg, s, idx, val).g, if val then ids + {idx} else ids - {idx})
  {
    SetNodeReads(s.g, idx, GetNode(s.g, idx).(dragged := val));
  }

  /** `move_node` changes no dragged flag. */
  lemma MoveDraggedWithin(cfg: Config, s: View, idx: NodeId, delta: Vec2, ids: set<NodeId>)
    requires HasNode(s.g, idx) && DraggedWithin(s.g, ids)
    ensures DraggedWithin(MoveNode(cfg, s, idx, delta).g, ids)
  {
    var n := GetNode(s.g, idx);
    SetNodeReads(s.g, idx, n.(location := Add(n.location, delta)));
  }

  /**
   * Without that discipline the source lets two nodes be dragged at once: a
   * drag starting on node `j` while the snapshot's node `k` is still dragged
   * and not released marks `j` and leaves `k` marked.
   */
  lemma SecondGrabKeepsFirst(cfg: Config, s: View, resp: Response, comp: ComputedState, k: NodeId, j: NodeId, n: Node)
    requires s.meta.zoom > 0.0 && ComputedFor(comp, s.g)
    requires cfg.interaction.draggingEnabled && resp.dragStarted && resp.hoverPos.Some? && !resp.dragReleased
    requires comp.dragged == Some(k) && GetNode(s.g, k).dragged
    requires HitTest(s, comp, resp.hoverPos.value) == Some((j, n)) && j != k
    ensures var r := HandleNodeDrag(cfg, s, resp, comp);
            GetNode(r.g, k).dragged && GetNode(r.g, j).dragged
  {
  }

  // ---------------------------------------------------------------- frame

  /** A frame keeps every edge between stored nodes. */
  lemma FrameKeepsWellFormed(cfg: Config, s: View, resp: Response, comp: ComputedState)
    requires FrameReady(cfg, s, resp, comp) && WellFormed(s.g)
    ensures WellFormed(Frame(cfg, s, resp, comp).g)
  {
    SameShapeKeepsWellFormed(s.g, Frame(cfg, s, resp, comp).g);
  }

  /** Without a registered sender or publisher a frame appends nothing to either log. */
  lemma FrameSilentWithoutSinks(cfg: Config, s: View, resp: Response, comp: ComputedState)
    requires FrameReady(cfg, s, resp, comp)
    requires !cfg.changesSender && !cfg.eventsPublisher
    ensures Frame(cfg, s, resp, comp).changes == s.changes
    ensures Frame(cfg, s, resp, comp).events == s.events
  {
  }

  /**
   * Across a whole frame, with multi-selection disabled, a single click on
   * an unselected node leaves exactly that node selected: fit, zoom, pan and
   * drag never touch selection, so the frame-start snapshot still lists the
   * selected nodes when the click is handled.
   */
  lemma FrameSelectsOnlyHit(cfg: Config, s: View, resp: Response, comp: ComputedState, idx: NodeId, n: Node)
    requires FrameReady(cfg, s, resp, comp) && SelectionSnapshot(comp, s.g)
    requires resp.clicked && !resp.doubleClicked && resp.hoverPos.Some?
    requires cfg.interaction.selectionEnabled && !cfg.interaction.selectionMultiEnabled
    requires HitTest(NavigateAndDrag(cfg, s, resp, comp), comp, resp.hoverPos.value) == Some((idx, n))
    requires !n.selected
    ensures SelectedIds(Frame(cfg, s, resp, comp).g) == {idx}
  {
    var t := NavigateAndDrag(cfg, s, resp, comp);
    assert SelectionSnapshot(comp, t.g);
    ClickOnNode(cfg, t, resp, comp, idx, n);
    NodeClickSelectsOnly(cfg, t, idx, comp);
  }

  // ---------------------------------------------------------------- scenarios

  /** A graph of exactly two nodes, 0 and 1, where only node 0 is selected and the snapshot says so. */
  ghost predicate TwoNodesFirstSelected(s: View, comp: ComputedState)
  {
    && |s.g.nodes| == 2 && s.g.nodes[0].Some? && s.g.nodes[1].Some?
    && s.g.nodes[0].value.selected && !s.g.nodes[1].value.selected
    && comp.selected == [0] && comp.dragged.None? && 0 in comp.radii && 1 in comp.radii
  }

  lemma TwoNodesSnapshot(s: View, comp: ComputedState)
    requires TwoNodesFirstSelected(s, comp)
    ensures SelectionSnapshot(comp, s.g)
  {
    assert forall i: nat :: HasNode(s.g, i) <==> i == 0 || i == 1;
  }

  /** In a two-node graph, a point within node 1's radius but not node 0's hits node 1. */
  lemma SecondOfTwoHit(g: Graph, radii: map<NodeId, real>, pan: Vec2, zoom: real, pos: Vec2)
    requires zoom != 0.0 && |g.nodes| == 2 && g.nodes[0].Some? && g.nodes[1].Some?
    requires 0 in radii && 1 in radii
    requires !Within(g.nodes[0].value.location, ToGraph(pos, pan, zoom), radii[0])
    requires Within(g.nodes[1].value.location, ToGraph(pos, pan, zoom), radii[1])
    ensures NodeByPos(g, radii, pan, zoom, pos) == Some((1, g.nodes[1].value))
  {
    assert forall i: nat :: HasNode(g, i) <==> i == 0 || i == 1;
    NodeByPosNone(g, radii, pan, zoom, pos);
    NodeByPosFirst(g, radii, pan, zoom, pos);
    var r := NodeByPos(g, radii, pan, zoom, pos);
    assert r.Some?;
    assert HasNode(g, r.value.0);
    assert r.value.0 != 0;
  }

  lemma SecondOfTwoHitTest(s: View, comp: ComputedState, pos: Vec2)
    requires s.meta.zoom > 0.0 && TwoNodesFirstSelected(s, comp)
    requires var q := ToGraph(pos, s.meta.pan, s.meta.zoom);
             && !Within(s.g.nodes[0].value.location, q, comp.radii[0])
             && Within(s.g.nodes[1].value.location, q, comp.radii[1])
    ensures (TwoNodesSnapshot(s, comp); HitTest(s, comp, pos) == Some((1, GetNode(s.g, 1))))
  {
    TwoNodesSnapshot(s, comp);
    SecondOfTwoHit(s.g, comp.radii, s.meta.pan, s.meta.zoom, pos);
  }

  /**
   * Scenario: of two nodes, node 0 is selected; a single click at a point
   * within node 1's radius but not node 0's, with multi-selection disabled,
   * leaves exactly {1} selected and sends the click (if clicking is
   * enabled), node 0 off, then node 1 on.
   */
  lemma ClickSecondOfTwo(cfg: Config, s: View, resp: Response, comp: ComputedState)
    requires cfg.interaction.selectionEnabled && !cfg.interaction.selectionMultiEnabled
    requires s.meta.zoom > 0.0 && TwoNodesFirstSelected(s, comp)
    requires resp.clicked && !resp.doubleClicked && resp.hoverPos.Some?
    requires var q := ToGraph(resp.hoverPos.value, s.meta.pan, s.meta.zoom);
             && !Within(s.g.nodes[0].value.location, q, comp.radii[0])
             && Within(s.g.nodes[1].value.location, q, comp.radii[1])
    ensures (TwoNodesSnapshot(s, comp);
             var r := HandleClick(cfg, s, resp, comp);
             && SelectedIds(r.g) == {1}
             && r.changes == s.changes + Emitted(cfg.changesSender,
                  ClickRecord(cfg, 1) + [SelectionChanged(0, true, false), SelectionChanged(1, false, true)]))
  {
    TwoNodesSnapshot(s, comp);
    SecondOfTwoHitTest(s, comp, resp.hoverPos.value);
    ClickOnNode(cfg, s, resp, comp, 1, GetNode(s.g, 1));
    NodeClickSelectsOnly(cfg, s, 1, comp);
    DeselectOnlyFirst(ClickRecord(cfg, 1));
  }

  lemma DeselectOnlyFirst(clicked: seq<Change>)
    ensures clicked + Deselections([0]) + [SelectionChanged(1, false, true)]
            == clicked + [SelectionChanged(0, true, false), SelectionChanged(1, false, true)]
  {
    assert Deselections([0]) == [SelectionChanged(0, true, false)];
  }

  /**
   * Scenario: zooming in by a step of 0.1 about (400, 300) from pan (0, 0)
   * and zoom 1 on a canvas at the origin gives zoom 1.1 and pan (-40, -30),
   * publishing that pan difference and the zoom difference 0.1.
   */
  lemma ZoomAboutCursor(cfg: Config, g: Graph, changes: seq<Change>, events: seq<Event>)
    requires cfg.eventsPublisher
    ensures var s := View(Metadata(Zero, 1.0, false), g, changes, events);
            var r := ApplyZoom(cfg, s, Rect(Zero, Vec2(800.0, 600.0)), 0.1, Some(Vec2(400.0, 300.0)));
            && r.meta.zoom == 1.1
            && r.meta.pan == Vec2(-40.0, -30.0)
            && r.events == events + [Pan(Vec2(-40.0, -30.0)), Zoom(0.1)]
            && ToGraph(Vec2(400.0, 300.0), r.meta.pan, r.meta.zoom) == Vec2(400.0, 300.0)
  {
    var s := View(Metadata(Zero, 1.0, false), g, changes, events);
    ZoomKeepsCenterFixed(cfg, s, Rect(Zero, Vec2(800.0, 600.0)), 0.1, Some(Vec2(400.0, 300.0)));
  }
}
