/** The quadrant boxes and the rectangular mask rings the splitter cuts a
    polygon with. */
module Quadrants {
  import opened Geometry

  /** The four quadrants, numbered as the splitter's loop visits them. */
  type Quadrant = q: int | 0 <= q < 4

  /** The envelope with two of its bounds moved to the corner (the centroid):
      quadrant 0 keeps the low x and low y side, 1 the low x and high y side,
      2 the high x and low y side, 3 the high x and high y side. */
  function QuadrantBox(env: Envelope, corner: Point, q: Quadrant): Envelope {
    if q == 0 then env.(maxX := corner.x, maxY := corner.y)
    else if q == 1 then env.(maxX := corner.x, minY := corner.y)
    else if q == 2 then env.(minX := corner.x, maxY := corner.y)
    else env.(minX := corner.x, minY := corner.y)
  }

  /** The closed five-point ring around a box: its corners in the order
      (minX,minY), (minX,maxY), (maxX,maxY), (maxX,minY), then the first again. */
  function MaskRing(b: Envelope): Ring {
    [Point(b.minX, b.minY), Point(b.minX, b.maxY), Point(b.maxX, b.maxY),
     Point(b.maxX, b.minY), Point(b.minX, b.minY)]
  }

  /** The mask polygon: the box's ring as exterior and no holes. */
  function Mask(b: Envelope): Geometry {
    Polygon(MaskRing(b), [])
  }

  /** A closed ring: at least four points, the last repeating the first. */
  predicate ClosedRing(r: Ring) {
    |r| >= 4 && r[|r| - 1] == r[0]
  }

  /** Each quadrant box replaces exactly two bounds of the envelope by the
      corner's coordinates and keeps the other two. */
  lemma QuadrantBoxBounds(env: Envelope, corner: Point, q: Quadrant)
    ensures var b := QuadrantBox(env, corner, q);
      (q == 0 ==> b == Envelope(env.minX, corner.x, env.minY, corner.y)) &&
      (q == 1 ==> b == Envelope(env.minX, corner.x, corner.y, env.maxY)) &&
      (q == 2 ==> b == Envelope(corner.x, env.maxX, env.minY, corner.y)) &&
      (q == 3 ==> b == Envelope(corner.x, env.maxX, corner.y, env.maxY))
  {
  }

  /** When the corner lies in the envelope, every quadrant box is a
      well-formed box inside the envelope that has the corner as a vertex: the
      one at its high x side for quadrants 0 and 1, its low x side for 2 and 3,
      its high y side for quadrants 0 and 2 and its low y side for 1 and 3. */
  lemma QuadrantsWithinEnvelope(env: Envelope, corner: Point, q: Quadrant)
    requires InBox(env, corner)
    ensures WellFormed(QuadrantBox(env, corner, q))
    ensures Within(QuadrantBox(env, corner, q), env)
    ensures InBox(QuadrantBox(env, corner, q), corner)
    ensures var b := QuadrantBox(env, corner, q);
      corner == Point(if q < 2 then b.maxX else b.minX, if q % 2 == 0 then b.maxY else b.minY)
  {
  }

  /** When the corner lies in the envelope, the four quadrant boxes cover it:
      every point of the envelope is in some quadrant box. */
  lemma QuadrantsCoverEnvelope(env: Envelope, corner: Point, p: Point)
    requires InBox(env, corner) && InBox(env, p)
    ensures exists q: Quadrant :: InBox(QuadrantBox(env, corner, q), p)
  {
    var q: Quadrant :=
      if p.x <= corner.x then (if p.y <= corner.y then 0 else 1)
      else (if p.y <= corner.y then 2 else 3);
    assert InBox(QuadrantBox(env, corner, q), p);
  }

  /** Two different quadrant boxes share no interior point, so the masks cut
      the polygon into pieces that overlap at most along the cut lines. */
  lemma QuadrantInteriorsDisjoint(env: Envelope, corner: Point, q1: Quadrant, q2: Quadrant, p: Point)
    requires q1 != q2
    ensures !(InInterior(QuadrantBox(env, corner, q1), p) && InInterior(QuadrantBox(env, corner, q2), p))
  {
  }

  /** The mask ring has five points, visits the box's four corners in order
      and is closed. */
  lemma MaskRingShape(b: Envelope)
    ensures var r := MaskRing(b);
      |r| == 5 && ClosedRing(r) &&
      r[0] == Point(b.minX, b.minY) && r[1] == Point(b.minX, b.maxY) &&
      r[2] == Point(b.maxX, b.maxY) && r[3] == Point(b.maxX, b.minY) &&
      r[4] == r[0]
  {
  }

  /** The mask ring spans exactly its box: the envelope of the ring is the
      box it was built from, for every well-formed box. */
  lemma MaskRingEnvelope(b: Envelope)
    requires WellFormed(b)
    ensures RingEnvelope(MaskRing(b)) == b
  {
    var r := MaskRing(b);
    var lo := Point(b.minX, b.minY);
    assert r[4..] == [lo];
    assert RingEnvelope(r[4..]) == Envelope(b.minX, b.minX, b.minY, b.minY);
    assert r[3..][1..] == r[4..];
    assert RingEnvelope(r[3..]) == Envelope(b.minX, b.maxX, b.minY, b.minY);
    assert r[2..][1..] == r[3..];
    assert RingEnvelope(r[2..]) == Envelope(b.minX, b.maxX, b.minY, b.maxY);
    assert r[1..][1..] == r[2..];
    assert RingEnvelope(r[1..]) == b;
  }
}
