/** The geometry values the splitter works on, and the geometry engine it calls.
    The engine (OGR over GEOS in polysplit) is foreign floating-point
    code; here it is a value of type `Engine` holding total functions, so every
    property proved about the splitter holds whatever the engine computes. */
module Geometry {

  /** A planar coordinate pair. The splitter only copies coordinates, so `real`
      stands in for `double`. */
  datatype Point = Point(x: real, y: real)

  /** An axis-aligned bounding box, with the fields in OGREnvelope's order. */
  datatype Envelope = Envelope(minX: real, maxX: real, minY: real, maxY: real)

  /** An ordered sequence of points forming one boundary loop. */
  type Ring = seq<Point>

  /** The kinds of geometry the splitter distinguishes. `Polygon` and `Multi`
      stand for the two-dimensional type codes `wkbPolygon` and
      `wkbMultiPolygon` only; a polygon or multipolygon with z or measure
      values has another type code and is an `Other`. */
  datatype Geometry =
    | Null                                            // a null pointer
    | Empty                                           // an empty geometry of any type
    | Polygon(exterior: Ring, interiors: seq<Ring>)   // a 2D polygon: exterior ring and holes
    | Multi(members: seq<Geometry>)                   // a 2D multipolygon
    | Other                                           // points, lines, collections, 2.5D or
                                                      // measured polygons and multipolygons, ...

  /** The geometry engine: boolean intersection (`a.Intersection(b)`), buffering
      (`g.Buffer(distance)`), validity and simplicity tests, centroid and envelope. */
  datatype Engine = Engine(
    intersection: (Geometry, Geometry) -> Geometry,
    buffer: (Geometry, real) -> Geometry,
    isValid: Geometry -> bool,
    isSimple: Geometry -> bool,
    centroid: Geometry -> Point,
    envelope: Geometry -> Envelope)

  /** OGR's IsEmpty: a polygon is empty when all its rings have no points, a
      multipolygon when all its members are empty. */
  predicate IsEmpty(g: Geometry) {
    match g
    case Null => false
    case Empty => true
    case Polygon(ext, holes) => ext == [] && forall k :: 0 <= k < |holes| ==> holes[k] == []
    case Multi(ms) => forall k :: 0 <= k < |ms| ==> IsEmpty(ms[k])
    case Other => false
  }

  /** The box has its minimum bounds below its maximum bounds. */
  predicate WellFormed(b: Envelope) {
    b.minX <= b.maxX && b.minY <= b.maxY
  }

  /** The point lies in the closed box. */
  predicate InBox(b: Envelope, p: Point) {
    b.minX <= p.x <= b.maxX && b.minY <= p.y <= b.maxY
  }

  /** The point lies strictly inside the box. */
  predicate InInterior(b: Envelope, p: Point) {
    b.minX < p.x < b.maxX && b.minY < p.y < b.maxY
  }

  /** Box `inner` lies inside box `outer`. */
  predicate Within(inner: Envelope, outer: Envelope) {
    outer.minX <= inner.minX && inner.maxX <= outer.maxX &&
    outer.minY <= inner.minY && inner.maxY <= outer.maxY
  }

  function Min(a: real, b: real): real { if a <= b then a else b }

  function Max(a: real, b: real): real { if a <= b then b else a }

  /** The envelope of a ring, as OGR computes it for a line string: the
      smallest box holding every point. */
  function RingEnvelope(ring: Ring): (b: Envelope)
    requires |ring| > 0
    ensures WellFormed(b)
    ensures forall k :: 0 <= k < |ring| ==> InBox(b, ring[k])
    ensures exists k :: 0 <= k < |ring| && ring[k].x == b.minX
    ensures exists k :: 0 <= k < |ring| && ring[k].x == b.maxX
    ensures exists k :: 0 <= k < |ring| && ring[k].y == b.minY
    ensures exists k :: 0 <= k < |ring| && ring[k].y == b.maxY
  {
    if |ring| == 1 then
      Envelope(ring[0].x, ring[0].x, ring[0].y, ring[0].y)
    else
      var rest := RingEnvelope(ring[1..]);
      assert forall k :: 0 <= k < |ring| - 1 ==> ring[1..][k] == ring[k + 1];
      Envelope(Min(ring[0].x, rest.minX), Max(ring[0].x, rest.maxX),
               Min(ring[0].y, rest.minY), Max(ring[0].y, rest.maxY))
  }
}
