/** The recursive splitter as the program runs it: it appends each piece to a
    list the caller owns and writes its one warning to the error stream, both
    in place, and is proved to do exactly what `Splitter.Split` describes. */
module PolySplit {
  import opened Geometry
  import opened Quadrants
  import opened Splitter

  /** The caller's list of pieces; the splitter only ever appends to it. */
  class PolyList {
    var items: seq<Geometry>

    constructor ()
      ensures items == []
    {
      items := [];
    }

    method PushBack(g: Geometry)
      modifies this
      ensures items == old(items) + [g]
    {
      items := items + [g];
    }
  }

  /** The process's error stream, as the lines `split_polygons` itself writes
      to it; the engine's own diagnostics are not modelled. */
  class ErrorStream {
    var lines: seq<string>

    constructor ()
      ensures lines == []
    {
      lines := [];
    }

    method Write(line: string)
      modifies this
      ensures lines == old(lines) + [line]
    {
      lines := lines + [line];
    }
  }

  /** Splits `geometry` into polygons of at most `maxVertices` exterior points
      and appends them to `pieces`. What was in `pieces` before stays, as a
      prefix; what is appended, and what is written to `err`, is the run
      `Split` describes. `complete` is false when some branch needed more
      than `fuel` quadrant subdivisions. */
  method SplitPolygons(e: Engine, pieces: PolyList, err: ErrorStream, geometry: Geometry, maxVertices: int, fuel: nat)
    returns (complete: bool)
    modifies pieces, err
    ensures pieces.items == old(pieces.items) + Split(e, geometry, maxVertices, fuel).pieces
    ensures err.lines == old(err.lines) + Split(e, geometry, maxVertices, fuel).messages
    ensures complete == Split(e, geometry, maxVertices, fuel).complete
    ensures old(pieces.items) <= pieces.items
    ensures forall k :: |old(pieces.items)| <= k < |pieces.items| ==> WithinBudget(pieces.items[k], maxVertices)
    decreases fuel, 1, geometry
  {
    SplitIsSound(e, geometry, maxVertices, fuel);
    if geometry.Null? {
      err.Write(NullWarning);
      return true;
    }

    if IsEmpty(geometry) {
      return true;
    }

    if geometry.Multi? {
      complete := SplitMembers(e, pieces, err, geometry.members, maxVertices, fuel);
      return;
    }

    if !geometry.Polygon? {
      return true;
    }

    if |geometry.exterior| <= maxVertices {
      pieces.PushBack(geometry);
      return true;
    }

    if fuel == 0 {
      return false;
    }

    complete := SplitQuadrants(e, pieces, err, geometry, maxVertices, fuel);
  }

  /** The loop over a multipolygon's members: splits each, in index order. */
  method SplitMembers(e: Engine, pieces: PolyList, err: ErrorStream, multi: seq<Geometry>, maxVertices: int, fuel: nat)
    returns (complete: bool)
    modifies pieces, err
    ensures pieces.items == old(pieces.items) + SplitAll(e, multi, maxVertices, fuel).pieces
    ensures err.lines == old(err.lines) + SplitAll(e, multi, maxVertices, fuel).messages
    ensures complete == SplitAll(e, multi, maxVertices, fuel).complete
    decreases fuel, 1, multi
  {
    assert multi[..0] == [];
    complete := true;
    for i := 0 to |multi|
      invariant pieces.items == old(pieces.items) + SplitAll(e, multi[..i], maxVertices, fuel).pieces
      invariant err.lines == old(err.lines) + SplitAll(e, multi[..i], maxVertices, fuel).messages
      invariant complete == SplitAll(e, multi[..i], maxVertices, fuel).complete
    {
      assert multi[..i + 1][..i] == multi[..i];
      var done := SplitPolygons(e, pieces, err, multi[i], maxVertices, fuel);
      complete := complete && done;
    }
    assert multi[..|multi|] == multi;
  }

  /** Builds the mask of one quadrant: copies the envelope, moves two of its
      bounds to the corner, and writes the five points of the closed ring
      around the resulting box. */
  method QuadrantMask(envelope: Envelope, cornerX: real, cornerY: real, quadrant: Quadrant)
    returns (mask: Geometry)
    ensures mask == Mask(QuadrantBox(envelope, Point(cornerX, cornerY), quadrant))
  {
    var bbox := envelope;
    if quadrant == 0 {
      bbox := bbox.(maxX := cornerX, maxY := cornerY);
    } else if quadrant == 1 {
      bbox := bbox.(maxX := cornerX, minY := cornerY);
    } else if quadrant == 2 {
      bbox := bbox.(minX := cornerX, maxY := cornerY);
    } else {
      bbox := bbox.(minX := cornerX, minY := cornerY);
    }
    var ring := new Point[5];
    ring[0] := Point(bbox.minX, bbox.minY);
    ring[1] := Point(bbox.minX, bbox.maxY);
    ring[2] := Point(bbox.maxX, bbox.maxY);
    ring[3] := Point(bbox.maxX, bbox.minY);
    ring[4] := Point(bbox.minX, bbox.minY);  // close the ring
    mask := Polygon(ring[..], []);
  }

  /** The oversized-polygon case: repairs the polygon if the engine finds it
      invalid or not simple, cuts its envelope into quadrants at its
      centroid, and splits the intersection of each quadrant's mask with the
      polygon, quadrants 0 to 3 in turn, with one unit of fuel less. */
  method SplitQuadrants(e: Engine, pieces: PolyList, err: ErrorStream, geometry: Geometry, maxVertices: int, fuel: nat)
    returns (complete: bool)
    requires fuel > 0
    modifies pieces, err
    ensures pieces.items == old(pieces.items) + QuadrantRuns(e, Repaired(e, geometry), 4, maxVertices, fuel).pieces
    ensures err.lines == old(err.lines) + QuadrantRuns(e, Repaired(e, geometry), 4, maxVertices, fuel).messages
    ensures complete == QuadrantRuns(e, Repaired(e, geometry), 4, maxVertices, fuel).complete
    decreases fuel, 0, 4
  {
    var polygon := geometry;
    if !e.isValid(polygon) || !e.isSimple(polygon) {
      polygon := e.buffer(polygon, 0.0);
    }

    var centroid := e.centroid(polygon);
    var cornerX, cornerY := centroid.x, centroid.y;
    var envelope := e.envelope(polygon);
    complete := true;
    for quadrant := 0 to 4
      invariant pieces.items == old(pieces.items) + QuadrantRuns(e, polygon, quadrant, maxVertices, fuel).pieces
      invariant err.lines == old(err.lines) + QuadrantRuns(e, polygon, quadrant, maxVertices, fuel).messages
      invariant complete == QuadrantRuns(e, polygon, quadrant, maxVertices, fuel).complete
    {
      var mask := QuadrantMask(envelope, cornerX, cornerY, quadrant);
      var piece := e.intersection(mask, polygon);
      var done := SplitPolygons(e, pieces, err, piece, maxVertices, fuel - 1);
      complete := complete && done;
    }
  }
}
