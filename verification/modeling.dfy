/**
  The part of the modeling set-up that is plain logic: the geometry
  overflow check run after the geometry is built, and the order of the
  phases of `set_parameters`.

  The overflow check as written conjoins all six comparisons
  (`x < 0 && x > (nx-1)*dx && y < 0 && ...`), so on any grid whose extents
  are non-negative it can never fire.  `Rule.AsWritten` models that test;
  `Rule.Bounds` is the evidently intended one, "outside the model along
  some axis".  `SetParameters` takes the rule as a parameter, so the
  set-up can be read with either.
*/
module Modeling {
  import opened Geometry
  import opened Wrappers

  /** Samples and spacings along x, y and z. */
  datatype Grid = Grid(nx: int, ny: int, nz: int, dx: real, dy: real, dz: real)

  /** The model's extent along one axis, `(n-1)*d`. */
  function Extent(n: int, d: real): real
  {
    (n - 1) as real * d
  }

  /** At least one sample per axis and non-negative spacings. */
  predicate NonNegativeGrid(g: Grid)
  {
    g.nx >= 1 && g.ny >= 1 && g.nz >= 1 && g.dx >= 0.0 && g.dy >= 0.0 && g.dz >= 0.0
  }

  /** The throw condition of `check_geometry_overflow` exactly as written. */
  predicate AsWrittenOverflow(g: Grid, x: real, y: real, z: real)
    ensures AsWrittenOverflow(g, x, y, z) ==>
              Extent(g.nx, g.dx) < 0.0 && Extent(g.ny, g.dy) < 0.0 && Extent(g.nz, g.dz) < 0.0
  {
    x < 0.0 && x > Extent(g.nx, g.dx)
    && y < 0.0 && y > Extent(g.ny, g.dy)
    && z < 0.0 && z > Extent(g.nz, g.dz)
  }

  /** A position outside the model box on at least one axis. */
  predicate OutOfBounds(g: Grid, x: real, y: real, z: real)
  {
    x < 0.0 || x > Extent(g.nx, g.dx)
    || y < 0.0 || y > Extent(g.ny, g.dy)
    || z < 0.0 || z > Extent(g.nz, g.dz)
  }

  /** A position inside the closed model box. */
  predicate Inside(g: Grid, x: real, y: real, z: real)
  {
    0.0 <= x <= Extent(g.nx, g.dx) && 0.0 <= y <= Extent(g.ny, g.dy) && 0.0 <= z <= Extent(g.nz, g.dz)
  }

  datatype Rule = AsWritten | Bounds

  predicate Offends(rule: Rule, g: Grid, x: real, y: real, z: real)
  {
    match rule
    case AsWritten => AsWrittenOverflow(g, x, y, z)
    case Bounds => OutOfBounds(g, x, y, z)
  }

  predicate OffendsAt(rule: Rule, g: Grid, c: Coordinates, i: int)
    requires WellFormed(c) && 0 <= i < c.total
  {
    Offends(rule, g, c.x[i], c.y[i], c.z[i])
  }

  predicate AnyOffends(rule: Rule, g: Grid, c: Coordinates)
    requires WellFormed(c)
  {
    exists i :: 0 <= i < c.total && OffendsAt(rule, g, c, i)
  }

  /** The exception the check raises, if any. */
  datatype Verdict = Pass | ShotsOverflow | NodesOverflow

  /** Shots are examined before nodes: a bad shot is reported whatever the nodes are. */
  function VerdictOf(rule: Rule, g: Grid, shots: Coordinates, nodes: Coordinates): Verdict
    requires WellFormed(shots) && WellFormed(nodes)
  {
    if AnyOffends(rule, g, shots) then ShotsOverflow
    else if AnyOffends(rule, g, nodes) then NodesOverflow
    else Pass
  }

  /**
    `check_geometry_overflow`: the shot loop, then the node loop, each
    stopping at the first offending position.
  */
  method CheckGeometryOverflow(rule: Rule, g: Grid, shots: Coordinates, nodes: Coordinates) returns (v: Verdict)
    requires WellFormed(shots) && WellFormed(nodes)
    ensures v == ShotsOverflow <==> AnyOffends(rule, g, shots)
    ensures v == NodesOverflow <==> !AnyOffends(rule, g, shots) && AnyOffends(rule, g, nodes)
    ensures v == Pass <==> !AnyOffends(rule, g, shots) && !AnyOffends(rule, g, nodes)
  {
    for shot := 0 to shots.total
      invariant forall i :: 0 <= i < shot ==> !OffendsAt(rule, g, shots, i)
    {
      if Offends(rule, g, shots.x[shot], shots.y[shot], shots.z[shot]) {
        assert OffendsAt(rule, g, shots, shot);
        return ShotsOverflow;
      }
    }
    for node := 0 to nodes.total
      invariant forall i :: 0 <= i < node ==> !OffendsAt(rule, g, nodes, i)
    {
      if Offends(rule, g, nodes.x[node], nodes.y[node], nodes.z[node]) {
        assert OffendsAt(rule, g, nodes, node);
        return NodesOverflow;
      }
    }
    return Pass;
  }

  /** The check's outcome is `VerdictOf`. */
  lemma CheckIsVerdict(rule: Rule, g: Grid, shots: Coordinates, nodes: Coordinates, v: Verdict)
    requires WellFormed(shots) && WellFormed(nodes)
    requires v == ShotsOverflow <==> AnyOffends(rule, g, shots)
    requires v == NodesOverflow <==> !AnyOffends(rule, g, shots) && AnyOffends(rule, g, nodes)
    requires v == Pass <==> !AnyOffends(rule, g, shots) && !AnyOffends(rule, g, nodes)
    ensures v == VerdictOf(rule, g, shots, nodes)
  {
  }

  lemma ExtentNonNegative(n: int, d: real)
    requires n >= 1 && d >= 0.0
    ensures Extent(n, d) >= 0.0
  {
    var m := (n - 1) as real;
    assert m >= 0.0;
    assert m * d >= 0.0;
  }

  /**
    The as-written condition can hold only when every axis has a negative
    extent, which a grid with at least one sample and a non-negative
    spacing per axis never has.
  */
  lemma AsWrittenNeedsNegativeExtents(g: Grid, x: real, y: real, z: real)
    requires AsWrittenOverflow(g, x, y, z)
    ensures Extent(g.nx, g.dx) < 0.0 && Extent(g.ny, g.dy) < 0.0 && Extent(g.nz, g.dz) < 0.0
    ensures !NonNegativeGrid(g)
  {
    if NonNegativeGrid(g) {
      ExtentNonNegative(g.nx, g.dx);
    }
  }

  /** So on such a grid the check as written passes for every geometry. */
  lemma AsWrittenAlwaysPasses(g: Grid, shots: Coordinates, nodes: Coordinates)
    requires NonNegativeGrid(g) && WellFormed(shots) && WellFormed(nodes)
    ensures VerdictOf(AsWritten, g, shots, nodes) == Pass
  {
    forall x: real, y: real, z: real
      ensures !AsWrittenOverflow(g, x, y, z)
    {
      if AsWrittenOverflow(g, x, y, z) {
        AsWrittenNeedsNegativeExtents(g, x, y, z);
      }
    }
  }

  /**
    A shot 5 m west of a 10 x 10 x 10 grid with 1 m spacing lies outside
    the model, yet the as-written check lets it through.
  */
  lemma AsWrittenMissesOutsideShot()
    ensures var g := Grid(10, 10, 10, 1.0, 1.0, 1.0);
            OutOfBounds(g, -5.0, 0.0, 0.0) && !AsWrittenOverflow(g, -5.0, 0.0, 0.0)
  {
  }

  /** Whatever the as-written test catches, the bounds test catches too. */
  lemma AsWrittenWeaker(g: Grid, x: real, y: real, z: real)
    ensures AsWrittenOverflow(g, x, y, z) ==> OutOfBounds(g, x, y, z)
  {
  }

  /** The bounds rule passes exactly when every shot and every node lies inside the model box. */
  lemma BoundsPassIffInside(g: Grid, shots: Coordinates, nodes: Coordinates)
    requires WellFormed(shots) && WellFormed(nodes)
    ensures VerdictOf(Bounds, g, shots, nodes) == Pass <==>
              (forall i :: 0 <= i < shots.total ==> Inside(g, shots.x[i], shots.y[i], shots.z[i]))
              && (forall i :: 0 <= i < nodes.total ==> Inside(g, nodes.x[i], nodes.y[i], nodes.z[i]))
  {
    if VerdictOf(Bounds, g, shots, nodes) == Pass {
      forall i | 0 <= i < shots.total
        ensures Inside(g, shots.x[i], shots.y[i], shots.z[i])
      {
        assert !OffendsAt(Bounds, g, shots, i);
      }
      forall i | 0 <= i < nodes.total
        ensures Inside(g, nodes.x[i], nodes.y[i], nodes.z[i])
      {
        assert !OffendsAt(Bounds, g, nodes, i);
      }
    }
  }

  /** The layouts `geometry_type` selects from the two-entry table. */
  datatype Kind = RegularLayout | CircularLayout

  datatype Step =
    | ModelParameters
    | ModelBoundaries
    | BuildGeometry(kind: Kind)
    | CopyTotals
    | OverflowCheck
    | Wavefields
    | Outputs

  datatype Outcome =
    | Ready(totalShots: nat, totalNodes: nat)
    | UnknownGeometryType(code: int)
    | GeometryOverflow(verdict: Verdict)

  /** Index 0 of the table is the regular layout, index 1 the circular one; any other index is outside it. */
  function KindOf(code: int): (k: Option<Kind>)
    ensures k.Some? <==> code == 0 || code == 1
    ensures k == Some(RegularLayout) <==> code == 0
  {
    if code == 0 then Some(RegularLayout)
    else if code == 1 then Some(CircularLayout)
    else None
  }

  /**
    `set_parameters` from the model parameters on: boundaries, geometry
    (its `set_geometry` is the `build` parameter), the copy of the totals,
    the overflow check, then wavefields and outputs.  A geometry type
    outside the table stops the set-up (`Modeling::set_parameters` indexes
    past its `types` table there), and so does an overflow
    (`Modeling::check_geometry_overflow` throws).
  */
  function SetParameters(rule: Rule, g: Grid, geometryType: int,
                         build: Kind -> (Coordinates, Coordinates)): (r: (Outcome, seq<Step>))
    requires forall k :: WellFormed(build(k).0) && WellFormed(build(k).1)
    ensures |r.1| >= 2 && r.1[0] == ModelParameters && r.1[1] == ModelBoundaries
    ensures r.0.UnknownGeometryType? <==> geometryType != 0 && geometryType != 1
    ensures r.0.UnknownGeometryType? ==> |r.1| == 2
    ensures !r.0.UnknownGeometryType? ==>
              |r.1| >= 5 && r.1[2] == BuildGeometry(KindOf(geometryType).value)
              && r.1[3] == CopyTotals && r.1[4] == OverflowCheck
    ensures r.0.Ready? <==> |r.1| == 7
    ensures r.0.Ready? ==> r.1[5..] == [Wavefields, Outputs]
    ensures r.0.Ready? ==>
              var built := build(KindOf(geometryType).value);
              r.0.totalShots == built.0.total && r.0.totalNodes == built.1.total
    ensures !r.0.UnknownGeometryType? ==>
              var built := build(KindOf(geometryType).value);
              (r.0.Ready? <==> VerdictOf(rule, g, built.0, built.1) == Pass)
    ensures r.0.GeometryOverflow? ==>
              var built := build(KindOf(geometryType).value);
              |r.1| == 5 && r.0.verdict == VerdictOf(rule, g, built.0, built.1) && r.0.verdict != Pass
  {
    var head := [ModelParameters, ModelBoundaries];
    match KindOf(geometryType)
    case None => (UnknownGeometryType(geometryType), head)
    case Some(kind) =>
      var built := build(kind);
      var checked := head + [BuildGeometry(kind), CopyTotals, OverflowCheck];
      var v := VerdictOf(rule, g, built.0, built.1);
      if v != Pass then (GeometryOverflow(v), checked)
      else (Ready(built.0.total, built.1.total), checked + [Wavefields, Outputs])
  }

  /**
    With the check as written, a valid geometry type on a grid with
    non-negative extents always reaches the wavefields, whatever the
    coordinates.
  */
  lemma AsWrittenSetUpNeverStops(g: Grid, geometryType: int, build: Kind -> (Coordinates, Coordinates))
    requires forall k :: WellFormed(build(k).0) && WellFormed(build(k).1)
    requires NonNegativeGrid(g) && (geometryType == 0 || geometryType == 1)
    ensures SetParameters(AsWritten, g, geometryType, build).0.Ready?
  {
    var built := build(KindOf(geometryType).value);
    AsWrittenAlwaysPasses(g, built.0, built.1);
  }
}
