/**
 * The graph access layer: read-only queries over a stable graph.
 *
 * The graph is an arena of slots, as in a stable graph whose removed entries
 * leave tombstones: the id of a node or edge is its slot index, a vacant slot
 * is `None`, and ids are never reused, so an unknown id fails its lookup
 * instead of reaching another entity. Traversal visits the occupied slots in
 * increasing index order.
 */
module GraphAccess {
  import opened Wrappers
  import opened Geometry

  type NodeId = nat
  type EdgeId = nat

  /** A node: its position in graph coordinates, its interaction flags and the client payload. */
  datatype Node = Node(location: Vec2, selected: bool, dragged: bool, payload: int)

  /** The weight stored on an edge: the client payload. */
  datatype Edge = Edge(payload: int)

  /** An occupied edge slot: the endpoints the container keeps beside the weight. */
  datatype EdgeEntry = EdgeEntry(source: NodeId, target: NodeId, weight: Edge)

  datatype Graph = Graph(nodes: seq<Option<Node>>, edges: seq<Option<EdgeEntry>>, directed: bool)

  datatype Direction = Outgoing | Incoming

  /**
   * The container's own guarantee: every stored edge joins two stored nodes
   * (an edge is added between existing nodes, and removing a node removes
   * its edges).
   */
  predicate WellFormed(g: Graph)
  {
    forall i :: 0 <= i < |g.edges| && g.edges[i].Some? ==>
      HasNode(g, g.edges[i].value.source) && HasNode(g, g.edges[i].value.target)
  }

  /** One invocation of a `walk` callback. */
  datatype Visit = VisitNode(nodeId: NodeId, node: Node) | VisitEdge(edgeId: EdgeId, edge: Edge)

  predicate HasNode(g: Graph, i: NodeId) { i < |g.nodes| && g.nodes[i].Some? }

  predicate HasEdge(g: Graph, i: EdgeId) { i < |g.edges| && g.edges[i].Some? }

  /** The node in slot `i`, for callers that know it is occupied (an `unwrap` of a lookup). */
  function GetNode(g: Graph, i: NodeId): Node
    requires HasNode(g, i)
  {
    g.nodes[i].value
  }

  /** Same occupied slots, same edges, same mode: only node contents may differ. */
  predicate SameShape(g: Graph, h: Graph)
  {
    && |g.nodes| == |h.nodes|
    && (forall i :: 0 <= i < |g.nodes| ==> g.nodes[i].Some? == h.nodes[i].Some?)
    && g.edges == h.edges
    && g.directed == h.directed
  }

  /** The occupied slots in increasing index order, each with its index. */
  function Enumerate<T(==)>(slots: seq<Option<T>>): (r: seq<(nat, T)>)
    ensures forall k :: 0 <= k < |r| ==> r[k].0 < |slots| && slots[r[k].0] == Some(r[k].1)
    ensures forall i :: 0 <= i < |slots| && slots[i].Some? ==> (i, slots[i].value) in r
    ensures forall a, b :: 0 <= a < b < |r| ==> r[a].0 < r[b].0
  {
    if slots == [] then []
    else
      var last := |slots| - 1;
      var init := Enumerate(slots[..last]);
      assert forall i :: 0 <= i < last ==> slots[..last][i] == slots[i];
      if slots[last].Some? then init + [(last, slots[last].value)] else init
  }

  /** `nodes()`: every node with its id, in traversal order. */
  function Nodes(g: Graph): (r: seq<(NodeId, Node)>)
    ensures forall k :: 0 <= k < |r| ==> HasNode(g, r[k].0) && GetNode(g, r[k].0) == r[k].1
    ensures forall i: nat :: HasNode(g, i) ==> (i, GetNode(g, i)) in r
    ensures forall a, b :: 0 <= a < b < |r| ==> r[a].0 < r[b].0
  {
    Enumerate(g.nodes)
  }

  /** `edges()`: every edge id with its weight, in traversal order. */
  function Edges(g: Graph): (r: seq<(EdgeId, Edge)>)
    ensures forall k :: 0 <= k < |r| ==> HasEdge(g, r[k].0) && g.edges[r[k].0].value.weight == r[k].1
    ensures forall i: nat :: HasEdge(g, i) ==> (i, g.edges[i].value.weight) in r
    ensures forall a, b :: 0 <= a < b < |r| ==> r[a].0 < r[b].0
  {
    Weights(Enumerate(g.edges))
  }

  function Weights(es: seq<(EdgeId, EdgeEntry)>): (r: seq<(EdgeId, Edge)>)
    ensures |r| == |es|
    ensures forall k :: 0 <= k < |r| ==> r[k] == (es[k].0, es[k].1.weight)
    ensures forall p :: p in es ==> (p.0, p.1.weight) in r
  {
    if es == [] then [] else [(es[0].0, es[0].1.weight)] + Weights(es[1..])
  }

  /** `node(i)`: the node stored under `i`, or nothing for an unknown id. */
  function LookupNode(g: Graph, i: NodeId): (r: Option<Node>)
    ensures r.Some? ==> (i, r.value) in Nodes(g)
    ensures r.None? <==> forall k :: 0 <= k < |Nodes(g)| ==> Nodes(g)[k].0 != i
  {
    if HasNode(g, i) then Some(g.nodes[i].value) else None
  }

  /** `edge(i)`: the weight stored under `i`, or nothing for an unknown id. */
  function LookupEdge(g: Graph, i: EdgeId): (r: Option<Edge>)
    ensures r.Some? ==> (i, r.value) in Edges(g)
    ensures r.None? <==> forall k :: 0 <= k < |Edges(g)| ==> Edges(g)[k].0 != i
  {
    if HasEdge(g, i) then Some(g.edges[i].value.weight) else None
  }

  /** `edge_endpoints(i)`: source and target of edge `i`, or nothing for an unknown id. */
  function EdgeEndpoints(g: Graph, i: EdgeId): (r: Option<(NodeId, NodeId)>)
    ensures r.Some? <==> LookupEdge(g, i).Some?
    ensures r.Some? ==> i in EdgesDirected(g, r.value.0, Outgoing) && i in EdgesDirected(g, r.value.1, Incoming)
    ensures r.Some? ==> i in TouchSet(g.edges, r.value.0, AsSource) && i in TouchSet(g.edges, r.value.1, AsTarget)
  {
    if HasEdge(g, i) then Some((g.edges[i].value.source, g.edges[i].value.target)) else None
  }

  function IsDirected(g: Graph): bool { g.directed }

  /** How an edge may touch a node: as source, as target, either, or both (a self-loop). */
  datatype Incidence = AsSource | AsTarget | Either | Both

  predicate Touches(e: EdgeEntry, v: NodeId, how: Incidence)
  {
    match how
    case AsSource => e.source == v
    case AsTarget => e.target == v
    case Either => e.source == v || e.target == v
    case Both => e.source == v && e.target == v
  }

  /** The ids of the edges touching `v` in the given way. */
  function TouchSet(es: seq<Option<EdgeEntry>>, v: NodeId, how: Incidence): set<EdgeId>
  {
    set i | 0 <= i < |es| && es[i].Some? && Touches(es[i].value, v, how)
  }

  /** The number of edges touching `v` in the given way, one slot at a time. */
  function TouchCount(es: seq<Option<EdgeEntry>>, v: NodeId, how: Incidence): nat
  {
    if es == [] then 0
    else
      var last := |es| - 1;
      TouchCount(es[..last], v, how) + (if es[last].Some? && Touches(es[last].value, v, how) then 1 else 0)
  }

  /**
   * `edges_directed(v, dir)`, as a set: in a directed graph the edges leaving
   * (or entering) `v`; in an undirected graph every edge incident to `v`,
   * whatever the direction asked for.
   */
  function EdgesDirected(g: Graph, v: NodeId, dir: Direction): set<EdgeId>
  {
    if !g.directed then TouchSet(g.edges, v, Either)
    else if dir == Outgoing then TouchSet(g.edges, v, AsSource)
    else TouchSet(g.edges, v, AsTarget)
  }

  /**
   * `edges_num(v)`: in a directed graph the outgoing edges counted and then
   * the incoming ones (a self-loop is on both lists); in an undirected graph
   * the edges incident to `v`, each once.
   */
  function EdgesNum(g: Graph, v: NodeId): nat
  {
    if IsDirected(g) then TouchCount(g.edges, v, AsSource) + TouchCount(g.edges, v, AsTarget)
    else TouchCount(g.edges, v, Either)
  }

  lemma {:induction false} TouchCountIsCardinality(es: seq<Option<EdgeEntry>>, v: NodeId, how: Incidence)
    ensures TouchCount(es, v, how) == |TouchSet(es, v, how)|
  {
    if es != [] {
      var last := |es| - 1;
      TouchCountIsCardinality(es[..last], v, how);
      var before := TouchSet(es[..last], v, how);
      assert last !in before;
      if es[last].Some? && Touches(es[last].value, v, how) {
        assert TouchSet(es, v, how) == before + {last};
      } else {
        assert TouchSet(es, v, how) == before;
      }
    }
  }

  lemma {:induction false} SourcePlusTarget(es: seq<Option<EdgeEntry>>, v: NodeId)
    ensures TouchCount(es, v, AsSource) + TouchCount(es, v, AsTarget)
         == TouchCount(es, v, Either) + TouchCount(es, v, Both)
  {
    if es != [] {
      SourcePlusTarget(es[..|es| - 1], v);
    }
  }

  /** In a directed graph `edges_num` is outgoing plus incoming, so a self-loop counts twice. */
  lemma EdgesNumDirected(g: Graph, v: NodeId)
    requires g.directed
    ensures EdgesNum(g, v) == |EdgesDirected(g, v, Outgoing)| + |EdgesDirected(g, v, Incoming)|
    ensures EdgesNum(g, v) == |TouchSet(g.edges, v, Either)| + |TouchSet(g.edges, v, Both)|
  {
    TouchCountIsCardinality(g.edges, v, AsSource);
    TouchCountIsCardinality(g.edges, v, AsTarget);
    TouchCountIsCardinality(g.edges, v, Either);
    TouchCountIsCardinality(g.edges, v, Both);
    SourcePlusTarget(g.edges, v);
  }

  /** In an undirected graph `edges_num` is the number of incident edges, a self-loop once. */
  lemma EdgesNumUndirected(g: Graph, v: NodeId)
    requires !g.directed
    ensures EdgesNum(g, v) == |TouchSet(g.edges, v, Either)|
    ensures EdgesNum(g, v) == |EdgesDirected(g, v, Outgoing)| == |EdgesDirected(g, v, Incoming)|
  {
    TouchCountIsCardinality(g.edges, v, Either);
  }

  /** `walk`: the node callback once per node, then the edge callback once per edge. */
  function Walk(g: Graph): (r: seq<Visit>)
    ensures |r| == |Nodes(g)| + |Edges(g)|
    ensures forall k :: 0 <= k < |r| ==> (r[k].VisitNode? <==> k < |Nodes(g)|)
    ensures forall k :: 0 <= k < |r| && r[k].VisitNode? ==> LookupNode(g, r[k].nodeId) == Some(r[k].node)
    ensures forall k :: 0 <= k < |r| && r[k].VisitEdge? ==> LookupEdge(g, r[k].edgeId) == Some(r[k].edge)
    ensures forall k :: 0 <= k < |Nodes(g)| ==> r[k] == VisitNode(Nodes(g)[k].0, Nodes(g)[k].1)
    ensures forall k :: 0 <= k < |Edges(g)| ==> r[|Nodes(g)| + k] == VisitEdge(Edges(g)[k].0, Edges(g)[k].1)
  {
    NodeVisits(Nodes(g)) + EdgeVisits(Edges(g))
  }

  function NodeVisits(ns: seq<(NodeId, Node)>): (r: seq<Visit>)
    ensures |r| == |ns|
    ensures forall k :: 0 <= k < |r| ==> r[k] == VisitNode(ns[k].0, ns[k].1)
  {
    seq(|ns|, k requires 0 <= k < |ns| => VisitNode(ns[k].0, ns[k].1))
  }

  function EdgeVisits(es: seq<(EdgeId, Edge)>): (r: seq<Visit>)
    ensures |r| == |es|
    ensures forall k :: 0 <= k < |r| ==> r[k] == VisitEdge(es[k].0, es[k].1)
  {
    seq(|es|, k requires 0 <= k < |es| => VisitEdge(es[k].0, es[k].1))
  }

  /** The letters a walker records: 'n' for a node visit, 'e' for an edge visit. */
  function Trace(w: seq<Visit>): seq<char>
  {
    seq(|w|, k requires 0 <= k < |w| => if w[k].VisitNode? then 'n' else 'e')
  }

  /** The hit-test condition |location - q| <= radius, written without a square root. */
  predicate Within(location: Vec2, q: Vec2, radius: real)
  {
    radius >= 0.0 && Dist2(location, q) <= radius * radius
  }

  predicate Hits(p: (NodeId, Node), radii: map<NodeId, real>, q: Vec2)
    requires p.0 in radii
  {
    Within(p.1.location, q, radii[p.0])
  }

  /** The position of the first entry of `ns` that `q` hits, or |ns| when none does. */
  function FirstHit(ns: seq<(NodeId, Node)>, radii: map<NodeId, real>, q: Vec2): (k: nat)
    requires forall j :: 0 <= j < |ns| ==> ns[j].0 in radii
    ensures k <= |ns|
    ensures forall j :: 0 <= j < k ==> !Hits(ns[j], radii, q)
    ensures k < |ns| ==> Hits(ns[k], radii, q)
  {
    if ns == [] then 0
    else if Hits(ns[0], radii, q) then 0
    else 1 + FirstHit(ns[1..], radii, q)
  }

  /**
   * `node_by_pos`: map the screen point into graph coordinates and return the
   * first node, in traversal order, lying within its radius. Every node must
   * have a radius in the frame's computed state.
   */
  function NodeByPos(g: Graph, radii: map<NodeId, real>, pan: Vec2, zoom: real, pos: Vec2): Option<(NodeId, Node)>
    requires zoom != 0.0
    requires forall i: nat :: HasNode(g, i) ==> i in radii
  {
    var ns := Nodes(g);
    var k := FirstHit(ns, radii, ToGraph(pos, pan, zoom));
    if k < |ns| then Some(ns[k]) else None
  }

  /** A hit is a stored node within its radius, and no node of a smaller id is within its own. */
  lemma NodeByPosFirst(g: Graph, radii: map<NodeId, real>, pan: Vec2, zoom: real, pos: Vec2)
    requires zoom != 0.0
    requires forall i: nat :: HasNode(g, i) ==> i in radii
    ensures var r := NodeByPos(g, radii, pan, zoom, pos);
            r.Some? ==>
              && LookupNode(g, r.value.0) == Some(r.value.1)
              && Within(r.value.1.location, ToGraph(pos, pan, zoom), radii[r.value.0])
              && forall i: nat :: HasNode(g, i) && i < r.value.0 ==>
                   !Within(GetNode(g, i).location, ToGraph(pos, pan, zoom), radii[i])
  {
    FirstHitIsFirst(g, radii, ToGraph(pos, pan, zoom));
  }

  /** The first hit in traversal order, stated about a point already in graph coordinates. */
  lemma FirstHitIsFirst(g: Graph, radii: map<NodeId, real>, q: Vec2)
    requires forall i: nat :: HasNode(g, i) ==> i in radii
    ensures var ns := Nodes(g);
            var k := FirstHit(ns, radii, q);
            k < |ns| ==>
              && LookupNode(g, ns[k].0) == Some(ns[k].1)
              && Within(ns[k].1.location, q, radii[ns[k].0])
              && forall i: nat :: HasNode(g, i) && i < ns[k].0 ==> !Within(GetNode(g, i).location, q, radii[i])
  {
    var ns := Nodes(g);
    var k := FirstHit(ns, radii, q);
    if k < |ns| {
      forall i: nat | HasNode(g, i) && i < ns[k].0
        ensures !Within(GetNode(g, i).location, q, radii[i])
      {
        assert (i, g.nodes[i].value) in ns;
        var j :| 0 <= j < |ns| && ns[j] == (i, g.nodes[i].value);
        assert j < k;
        assert !Hits(ns[j], radii, q);
      }
    }
  }

  /** The hit test finds nothing exactly when no node lies within its radius. */
  lemma NodeByPosNone(g: Graph, radii: map<NodeId, real>, pan: Vec2, zoom: real, pos: Vec2)
    requires zoom != 0.0
    requires forall i: nat :: HasNode(g, i) ==> i in radii
    ensures NodeByPos(g, radii, pan, zoom, pos).None? <==>
            forall i: nat :: HasNode(g, i) ==> !Within(GetNode(g, i).location, ToGraph(pos, pan, zoom), radii[i])
  {
    NoFirstHit(g, radii, ToGraph(pos, pan, zoom));
  }

  /** No first hit exactly when no node is hit, stated about a point already in graph coordinates. */
  lemma NoFirstHit(g: Graph, radii: map<NodeId, real>, q: Vec2)
    requires forall i: nat :: HasNode(g, i) ==> i in radii
    ensures FirstHit(Nodes(g), radii, q) == |Nodes(g)| <==>
            forall i: nat :: HasNode(g, i) ==> !Within(GetNode(g, i).location, q, radii[i])
  {
    var ns := Nodes(g);
    var k := FirstHit(ns, radii, q);
    if k == |ns| {
      forall i: nat | HasNode(g, i)
        ensures !Within(GetNode(g, i).location, q, radii[i])
      {
        assert (i, g.nodes[i].value) in ns;
        var j :| 0 <= j < |ns| && ns[j] == (i, g.nodes[i].value);
        assert !Hits(ns[j], radii, q);
      }
    } else {
      assert HasNode(g, ns[k].0) && GetNode(g, ns[k].0) == ns[k].1;
    }
  }

  /**
   * `node_mut(i)` followed by a write through the reference: slot `i` now
   * holds `n`, every other id answers as before, and nothing else changes.
   */
  function SetNode(g: Graph, i: NodeId, n: Node): (r: Graph)
    requires HasNode(g, i)
    ensures SameShape(g, r)
    ensures LookupNode(r, i) == Some(n)
    ensures forall j :: j != i ==> LookupNode(r, j) == LookupNode(g, j)
  {
    g.(nodes := g.nodes[i := Some(n)])
  }

  /** After writing slot `i`, reading any present node gives the new node at `i` and the old one elsewhere. */
  lemma SetNodeReads(g: Graph, i: NodeId, n: Node)
    requires HasNode(g, i)
    ensures forall j: nat :: HasNode(g, j) ==>
              GetNode(SetNode(g, i, n), j) == if j == i then n else GetNode(g, j)
  {
  }

  /** Rewriting node contents keeps every edge between stored nodes. */
  lemma SameShapeKeepsWellFormed(g: Graph, h: Graph)
    requires WellFormed(g) && SameShape(g, h)
    ensures WellFormed(h)
  {
    forall i | 0 <= i < |h.edges| && h.edges[i].Some?
      ensures HasNode(h, h.edges[i].value.source) && HasNode(h, h.edges[i].value.target)
    {
      assert HasNode(g, g.edges[i].value.source) && HasNode(g, g.edges[i].value.target);
    }
  }

  /** In a well-formed graph the endpoints `edge_endpoints` reports are stored nodes. */
  lemma EdgeEndpointsPresent(g: Graph, i: EdgeId)
    requires WellFormed(g)
    ensures var r := EdgeEndpoints(g, i);
            r.Some? ==> LookupNode(g, r.value.0).Some? && LookupNode(g, r.value.1).Some?
  {
  }

  /** No edge touches an id that holds no node, so `edges_num` of an unknown id is 0. */
  lemma EdgesNumAbsent(g: Graph, v: NodeId)
    requires WellFormed(g) && !HasNode(g, v)
    ensures EdgesNum(g, v) == 0
  {
    NoTouch(g, v, AsSource);
    NoTouch(g, v, AsTarget);
    NoTouch(g, v, Either);
  }

  lemma NoTouch(g: Graph, v: NodeId, how: Incidence)
    requires WellFormed(g) && !HasNode(g, v) && how != Both
    ensures TouchCount(g.edges, v, how) == 0
  {
    TouchCountIsCardinality(g.edges, v, how);
    assert TouchSet(g.edges, v, how) == {};
  }

  /** When every slot is occupied, traversal yields one entry per slot. */
  lemma {:induction false} EnumerateFull<T>(slots: seq<Option<T>>)
    requires forall i :: 0 <= i < |slots| ==> slots[i].Some?
    ensures |Enumerate(slots)| == |slots|
  {
    if slots != [] {
      EnumerateFull(slots[..|slots| - 1]);
    }
  }

  /** The four-node, four-edge graph a -> b -> c -> d, a -> d used by the walk test. */
  function TestGraph(): Graph
  {
    var n := Some(Node(Zero, false, false, 0));
    var e := Edge(0);
    Graph([n, n, n, n],
          [Some(EdgeEntry(0, 1, e)), Some(EdgeEntry(1, 2, e)), Some(EdgeEntry(2, 3, e)), Some(EdgeEntry(0, 3, e))],
          true)
  }

  lemma TestGraphWellFormed()
    ensures WellFormed(TestGraph())
  {
  }

  /** Walking the test graph records "nnnneeee". */
  lemma WalkTestGraph()
    ensures Trace(Walk(TestGraph())) == "nnnneeee"
  {
    var g := TestGraph();
    EnumerateFull(g.nodes);
    EnumerateFull(g.edges);
    assert |Nodes(g)| == 4;
    assert |Edges(g)| == 4;
    WalkTraceFourByFour(g);
  }

  lemma WalkTraceFourByFour(g: Graph)
    requires |Nodes(g)| == 4 && |Edges(g)| == 4
    ensures Trace(Walk(g)) == "nnnneeee"
  {
    WalkTrace(g);
  }

  /** The trace of a walk is one 'n' per node followed by one 'e' per edge. */
  lemma WalkTrace(g: Graph)
    ensures Trace(Walk(g)) == seq(|Nodes(g)|, _ => 'n') + seq(|Edges(g)|, _ => 'e')
  {
  }
}
