/**
 * Plane geometry over the reals: the vectors, rectangles and the
 * screen/graph coordinate transform the widget works with.
 */
module Geometry {

  datatype Vec2 = Vec2(x: real, y: real)

  const Zero: Vec2 := Vec2(0.0, 0.0)

  function Add(a: Vec2, b: Vec2): Vec2 { Vec2(a.x + b.x, a.y + b.y) }

  function Sub(a: Vec2, b: Vec2): Vec2 { Vec2(a.x - b.x, a.y - b.y) }

  function Scale(a: Vec2, k: real): Vec2 { Vec2(a.x * k, a.y * k) }

  function Div(a: Vec2, k: real): Vec2
    requires k != 0.0
  {
    Vec2(a.x / k, a.y / k)
  }

  /** Squared Euclidean distance; comparing it with a squared radius avoids a square root. */
  function Dist2(a: Vec2, b: Vec2): real
  {
    var d := Sub(a, b);
    d.x * d.x + d.y * d.y
  }

  function Min(a: real, b: real): real { if a <= b then a else b }

  /** An axis-aligned rectangle given by its corners. */
  datatype Rect = Rect(min: Vec2, max: Vec2)

  function Size(r: Rect): Vec2 { Sub(r.max, r.min) }

  function Center(r: Rect): Vec2
  {
    Vec2((r.min.x + r.max.x) / 2.0, (r.min.y + r.max.y) / 2.0)
  }

  /** screen = graph * zoom + pan */
  function ToScreen(p: Vec2, pan: Vec2, zoom: real): Vec2
  {
    Add(Scale(p, zoom), pan)
  }

  /** graph = (screen - pan) / zoom */
  function ToGraph(p: Vec2, pan: Vec2, zoom: real): Vec2
    requires zoom != 0.0
  {
    Div(Sub(p, pan), zoom)
  }

  /** The two transforms are inverse to each other whenever the zoom is non-zero. */
  lemma TransformRoundTrip(p: Vec2, pan: Vec2, zoom: real)
    requires zoom != 0.0
    ensures ToGraph(ToScreen(p, pan, zoom), pan, zoom) == p
    ensures ToScreen(ToGraph(p, pan, zoom), pan, zoom) == p
  {
    ScalarRoundTrip(p.x, pan.x, zoom);
    ScalarRoundTrip(p.y, pan.y, zoom);
  }

  lemma ScalarRoundTrip(a: real, t: real, z: real)
    requires z != 0.0
    ensures (a * z + t - t) / z == a
    ensures (a - t) / z * z + t == a
  {
    assert a * z + t - t == a * z;
    assert (a - t) / z * z == a - t;
  }
}
