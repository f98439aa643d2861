/** What one call of the recursive splitter produces, as a function of the
    geometry, the vertex budget and the engine, with the properties the
    splitter promises proved about it.

    The recursion of `split_polygons` has no decreasing measure: an intersection need not
    have fewer vertices than the polygon it came from. `fuel` bounds how many
    times an oversized polygon may be cut into quadrants along one branch; a
    branch that needs more contributes nothing and marks the run incomplete.
    Recursion into the members of a multipolygon does not use fuel. */
module Splitter {
  import opened Geometry
  import opened Quadrants

  /** The single diagnostic the splitter writes, for a null geometry. */
  const NullWarning: string := "WARNING: NULL geometry passed to split_polygons!\n"

  /** The outcome of a run: the polygons appended to the result list, in
      order, the lines written to the error stream, and whether every branch
      finished within the fuel. */
  datatype Run = Run(pieces: seq<Geometry>, messages: seq<string>, complete: bool)

  /** A run that appends nothing and writes nothing. */
  const Nothing: Run := Run([], [], true)

  /** One run followed by another. */
  function Then(a: Run, b: Run): Run {
    Run(a.pieces + b.pieces, a.messages + b.messages, a.complete && b.complete)
  }

  /** What may be appended to the result list: a non-empty polygon whose
      exterior ring has at most `maxVertices` points. */
  predicate WithinBudget(p: Geometry, maxVertices: int) {
    p.Polygon? && !IsEmpty(p) && |p.exterior| <= maxVertices
  }

  /** Every line `split_polygons` itself writes is the null-geometry warning
      (the engine's own diagnostics are not part of a run). */
  predicate OnlyNullWarnings(messages: seq<string>) {
    forall k :: 0 <= k < |messages| ==> messages[k] == NullWarning
  }

  /** The run appends only pieces within the budget, and the only line
      `split_polygons` itself writes is the null-geometry warning. */
  predicate Sound(r: Run, maxVertices: int) {
    (forall k :: 0 <= k < |r.pieces| ==> WithinBudget(r.pieces[k], maxVertices)) &&
    OnlyNullWarnings(r.messages)
  }

  /** The polygon the quadrants are cut from: the input itself when the engine
      calls it valid and simple, and otherwise its zero-distance buffer. */
  function Repaired(e: Engine, polygon: Geometry): Geometry {
    if !e.isValid(polygon) || !e.isSimple(polygon) then e.buffer(polygon, 0.0) else polygon
  }

  /** The intersection of quadrant `q`'s mask with the polygon; the quadrant
      boxes are cut from the polygon's envelope at its centroid. */
  function QuadrantPiece(e: Engine, polygon: Geometry, q: Quadrant): Geometry {
    e.intersection(Mask(QuadrantBox(e.envelope(polygon), e.centroid(polygon), q)), polygon)
  }

  /** The run that splitting `g` with budget `maxVertices` performs. */
  function Split(e: Engine, g: Geometry, maxVertices: int, fuel: nat): Run
    decreases fuel, 1, g
  {
    if g.Null? then Run([], [NullWarning], true)
    else if IsEmpty(g) then Nothing
    else if g.Multi? then SplitAll(e, g.members, maxVertices, fuel)
    else if !g.Polygon? then Nothing
    else if |g.exterior| <= maxVertices then Run([g], [], true)
    else if fuel == 0 then Run([], [], false)
    else QuadrantRuns(e, Repaired(e, g), 4, maxVertices, fuel)
  }

  /** The runs of splitting each geometry of `gs`, one after the other in
      index order. */
  function SplitAll(e: Engine, gs: seq<Geometry>, maxVertices: int, fuel: nat): Run
    decreases fuel, 1, gs
  {
    if gs == [] then Nothing
    else Then(SplitAll(e, gs[..|gs| - 1], maxVertices, fuel), Split(e, gs[|gs| - 1], maxVertices, fuel))
  }

  /** The runs of splitting the pieces of quadrants 0 to n - 1 of `polygon`,
      in that order, each with one unit of fuel less. */
  function QuadrantRuns(e: Engine, polygon: Geometry, n: nat, maxVertices: int, fuel: nat): Run
    requires n <= 4 && fuel > 0
    decreases fuel, 0, n
  {
    if n == 0 then Nothing
    else Then(QuadrantRuns(e, polygon, n - 1, maxVertices, fuel), Split(e, QuadrantPiece(e, polygon, n - 1), maxVertices, fuel - 1))
  }

  /** A null geometry appends nothing and writes the warning. */
  lemma NullInputWarns(e: Engine, maxVertices: int, fuel: nat)
    ensures Split(e, Null, maxVertices, fuel) == Run([], [NullWarning], true)
  {
  }

  /** An empty geometry, and any geometry that is neither a polygon nor a
      multipolygon, appends nothing and writes nothing. */
  lemma IgnoredInputsAddNothing(e: Engine, g: Geometry, maxVertices: int, fuel: nat)
    requires !g.Null?
    requires IsEmpty(g) || !(g.Polygon? || g.Multi?)
    ensures Split(e, g, maxVertices, fuel) == Nothing
  {
  }

  /** A non-empty polygon whose exterior ring is within the budget is appended
      as it is, as the only piece, whatever the fuel. */
  lemma SmallPolygonIsKept(e: Engine, g: Geometry, maxVertices: int, fuel: nat)
    requires g.Polygon? && !IsEmpty(g) && |g.exterior| <= maxVertices
    ensures Split(e, g, maxVertices, fuel) == Run([g], [], true)
  {
  }

  /** An oversized polygon is (repaired if need be and) cut into its four
      quadrant pieces, and its run is the runs of those four, in quadrant
      order 0, 1, 2, 3. */
  lemma OversizedSplitsIntoQuadrants(e: Engine, g: Geometry, maxVertices: int, fuel: nat)
    requires g.Polygon? && !IsEmpty(g) && |g.exterior| > maxVertices && fuel > 0
    ensures var p := Repaired(e, g);
      Split(e, g, maxVertices, fuel) ==
        Then(Then(Then(Split(e, QuadrantPiece(e, p, 0), maxVertices, fuel - 1),
                       Split(e, QuadrantPiece(e, p, 1), maxVertices, fuel - 1)),
                  Split(e, QuadrantPiece(e, p, 2), maxVertices, fuel - 1)),
             Split(e, QuadrantPiece(e, p, 3), maxVertices, fuel - 1))
  {
    var p := Repaired(e, g);
    assert Split(e, g, maxVertices, fuel) == QuadrantRuns(e, p, 4, maxVertices, fuel);
    assert QuadrantRuns(e, p, 1, maxVertices, fuel) == Split(e, QuadrantPiece(e, p, 0), maxVertices, fuel - 1);
    assert QuadrantRuns(e, p, 2, maxVertices, fuel) ==
           Then(QuadrantRuns(e, p, 1, maxVertices, fuel), Split(e, QuadrantPiece(e, p, 1), maxVertices, fuel - 1));
    assert QuadrantRuns(e, p, 3, maxVertices, fuel) ==
           Then(QuadrantRuns(e, p, 2, maxVertices, fuel), Split(e, QuadrantPiece(e, p, 2), maxVertices, fuel - 1));
  }

  /** Splitting a concatenation of geometries is splitting the first part and
      then the second. */
  lemma {:induction false} SplitAllAppend(e: Engine, a: seq<Geometry>, b: seq<Geometry>, maxVertices: int, fuel: nat)
    ensures SplitAll(e, a + b, maxVertices, fuel) == Then(SplitAll(e, a, maxVertices, fuel), SplitAll(e, b, maxVertices, fuel))
    decreases |b|
  {
    if b == [] {
      assert a + b == a;
    } else {
      var n := |b| - 1;
      assert (a + b)[..|a + b| - 1] == a + b[..n];
      assert (a + b)[|a + b| - 1] == b[n];
      SplitAllAppend(e, a, b[..n], maxVertices, fuel);
    }
  }

  /** The members of a multipolygon split one by one, first to last: an
      independent statement of the order, folding from the front. */
  function MembersInOrder(e: Engine, ms: seq<Geometry>, maxVertices: int, fuel: nat): Run
    decreases |ms|
  {
    if ms == [] then Nothing
    else Then(Split(e, ms[0], maxVertices, fuel), MembersInOrder(e, ms[1..], maxVertices, fuel))
  }

  lemma {:induction false} SplitAllIsMembersInOrder(e: Engine, ms: seq<Geometry>, maxVertices: int, fuel: nat)
    ensures SplitAll(e, ms, maxVertices, fuel) == MembersInOrder(e, ms, maxVertices, fuel)
    decreases |ms|
  {
    if ms != [] {
      assert ms == [ms[0]] + ms[1..];
      SplitAllAppend(e, [ms[0]], ms[1..], maxVertices, fuel);
      assert [ms[0]][..0] == [];
      SplitAllIsMembersInOrder(e, ms[1..], maxVertices, fuel);
    }
  }

  lemma {:induction false} EmptyMembersAddNothing(e: Engine, ms: seq<Geometry>, maxVertices: int, fuel: nat)
    requires forall k :: 0 <= k < |ms| ==> IsEmpty(ms[k])
    ensures MembersInOrder(e, ms, maxVertices, fuel) == Nothing
    decreases |ms|
  {
    if ms != [] {
      assert forall k :: 0 <= k < |ms| - 1 ==> ms[1..][k] == ms[k + 1];
      EmptyMembersAddNothing(e, ms[1..], maxVertices, fuel);
    }
  }

  /** A multipolygon's run is the runs of its members, in index order. */
  lemma MultiSplitsMembersInOrder(e: Engine, ms: seq<Geometry>, maxVertices: int, fuel: nat)
    ensures Split(e, Multi(ms), maxVertices, fuel) == MembersInOrder(e, ms, maxVertices, fuel)
  {
    if IsEmpty(Multi(ms)) {
      EmptyMembersAddNothing(e, ms, maxVertices, fuel);
    } else {
      SplitAllIsMembersInOrder(e, ms, maxVertices, fuel);
    }
  }

  /** Two-member case: a multipolygon of A and B yields A's pieces followed
      by B's. */
  lemma MultiOfTwo(e: Engine, a: Geometry, b: Geometry, maxVertices: int, fuel: nat)
    ensures Split(e, Multi([a, b]), maxVertices, fuel) ==
            Then(Split(e, a, maxVertices, fuel), Split(e, b, maxVertices, fuel))
  {
    MultiSplitsMembersInOrder(e, [a, b], maxVertices, fuel);
    assert [a, b][1..] == [b];
    assert [a, b][1..][1..] == [];
    assert MembersInOrder(e, [b], maxVertices, fuel) == Split(e, b, maxVertices, fuel);
  }

  /** Fuel is only a bound: a run that finished does the same with more fuel. */
  lemma {:induction false} FuelMonotone(e: Engine, g: Geometry, maxVertices: int, fuel: nat, more: nat)
    requires Split(e, g, maxVertices, fuel).complete && fuel <= more
    ensures Split(e, g, maxVertices, more) == Split(e, g, maxVertices, fuel)
    decreases fuel, 1, g
  {
    if g.Null? || IsEmpty(g) {
    } else if g.Multi? {
      SplitAllFuelMonotone(e, g.members, maxVertices, fuel, more);
    } else if g.Polygon? && |g.exterior| > maxVertices {
      QuadrantRunsFuelMonotone(e, Repaired(e, g), 4, maxVertices, fuel, more);
    }
  }

  lemma {:induction false} SplitAllFuelMonotone(e: Engine, gs: seq<Geometry>, maxVertices: int, fuel: nat, more: nat)
    requires SplitAll(e, gs, maxVertices, fuel).complete && fuel <= more
    ensures SplitAll(e, gs, maxVertices, more) == SplitAll(e, gs, maxVertices, fuel)
    decreases fuel, 1, gs
  {
    if gs != [] {
      SplitAllFuelMonotone(e, gs[..|gs| - 1], maxVertices, fuel, more);
      FuelMonotone(e, gs[|gs| - 1], maxVertices, fuel, more);
    }
  }

  lemma {:induction false} QuadrantRunsFuelMonotone(e: Engine, polygon: Geometry, n: nat, maxVertices: int, fuel: nat, more: nat)
    requires n <= 4 && 0 < fuel <= more
    requires QuadrantRuns(e, polygon, n, maxVertices, fuel).complete
    ensures QuadrantRuns(e, polygon, n, maxVertices, more) == QuadrantRuns(e, polygon, n, maxVertices, fuel)
    decreases fuel, 0, n
  {
    if n > 0 {
      QuadrantRunsFuelMonotone(e, polygon, n - 1, maxVertices, fuel, more);
      FuelMonotone(e, QuadrantPiece(e, polygon, n - 1), maxVertices, fuel - 1, more - 1);
    }
  }

  /** Every piece a run appends is a non-empty polygon within the budget, and
      every line `split_polygons` itself writes is the null-geometry warning,
      whatever the engine returns. */
  lemma {:induction false} SplitIsSound(e: Engine, g: Geometry, maxVertices: int, fuel: nat)
    ensures Sound(Split(e, g, maxVertices, fuel), maxVertices)
    decreases fuel, 1, g
  {
    if g.Null? || IsEmpty(g) {
    } else if g.Multi? {
      SplitAllIsSound(e, g.members, maxVertices, fuel);
    } else if g.Polygon? && |g.exterior| > maxVertices && fuel > 0 {
      QuadrantRunsAreSound(e, Repaired(e, g), 4, maxVertices, fuel);
    }
  }

  lemma {:induction false} SplitAllIsSound(e: Engine, gs: seq<Geometry>, maxVertices: int, fuel: nat)
    ensures Sound(SplitAll(e, gs, maxVertices, fuel), maxVertices)
    decreases fuel, 1, gs
  {
    if gs != [] {
      SplitAllIsSound(e, gs[..|gs| - 1], maxVertices, fuel);
      SplitIsSound(e, gs[|gs| - 1], maxVertices, fuel);
      ThenIsSound(SplitAll(e, gs[..|gs| - 1], maxVertices, fuel), Split(e, gs[|gs| - 1], maxVertices, fuel), maxVertices);
    }
  }

  lemma {:induction false} QuadrantRunsAreSound(e: Engine, polygon: Geometry, n: nat, maxVertices: int, fuel: nat)
    requires n <= 4 && fuel > 0
    ensures Sound(QuadrantRuns(e, polygon, n, maxVertices, fuel), maxVertices)
    decreases fuel, 0, n
  {
    if n > 0 {
      QuadrantRunsAreSound(e, polygon, n - 1, maxVertices, fuel);
      SplitIsSound(e, QuadrantPiece(e, polygon, n - 1), maxVertices, fuel - 1);
      ThenIsSound(QuadrantRuns(e, polygon, n - 1, maxVertices, fuel),
                  Split(e, QuadrantPiece(e, polygon, n - 1), maxVertices, fuel - 1), maxVertices);
    }
  }

  lemma ThenIsSound(a: Run, b: Run, maxVertices: int)
    requires Sound(a, maxVertices) && Sound(b, maxVertices)
    ensures Sound(Then(a, b), maxVertices)
  {
  }


  /** Splitting is idempotent on its output: each piece, split again with the
      same budget, yields exactly itself. */
  lemma PiecesAreFixedPoints(e: Engine, g: Geometry, maxVertices: int, fuel: nat, again: nat)
    ensures var pieces := Split(e, g, maxVertices, fuel).pieces;
      forall k :: 0 <= k < |pieces| ==> Split(e, pieces[k], maxVertices, again) == Run([pieces[k]], [], true)
  {
    SplitIsSound(e, g, maxVertices, fuel);
  }
}
