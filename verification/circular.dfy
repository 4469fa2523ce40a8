/**
  The circular layout: shots on concentric rings around a centre, one ring
  per configured offset (radius), nodes on a regular lattice.  On a ring
  of radius r the angle starts at 0 and grows by the constant step
  acos(1 - spacing^2 / (2 r^2)) while it stays below a full turn 2*pi; the
  shot at angle t sits at (xc + r sin t, yc + r cos t, zc).

  Angles are reals and `acos`, `sin`, `cos` and the full turn are
  parameters; the model says nothing about their values beyond what each
  contract requires.
*/
module Circular {
  import opened Geometry
  import RealArith

  /**
    The cosine of the angle between neighbouring shots on a ring, by the
    law of cosines for a chord of length `spacing`.  It is at most 1, it
    is 1 exactly for a zero spacing, and it drops below -1, outside the
    domain of `acos`, once the spacing exceeds the ring's diameter.
  */
  function CosStep(spacing: real, radius: real): (c: real)
    requires radius != 0.0
    ensures c <= 1.0
    ensures c == 1.0 <==> spacing == 0.0
    ensures spacing * spacing > 4.0 * (radius * radius) ==> c < -1.0
  {
    RealArith.SquareZero(radius);
    RealArith.SquareNonNegative(radius);
    RealArith.SquareNonNegative(spacing);
    var d := 2.0 * (radius * radius);
    var q := (spacing * spacing) / d;
    QuotientFacts(spacing * spacing, d);
    RealArith.SquareZero(spacing);
    1.0 - q
  }

  /** `n / d` for a positive `d`: non-negative with `n`, zero only with `n`, above 2 once `n > 2 d`. */
  lemma QuotientFacts(n: real, d: real)
    requires n >= 0.0 && d > 0.0
    ensures n / d >= 0.0
    ensures n / d == 0.0 ==> n == 0.0
    ensures n > 2.0 * d ==> n / d > 2.0
  {
    var q := n / d;
    assert q * d == n;
    if q < 0.0 {
      ScaleStrict(q, 0.0, d);
    }
    if n > 2.0 * d && q <= 2.0 {
      ScaleMono(q, 2.0, d);
    }
  }

  /** The angular step on a ring: the chord between neighbours is `spacing`. */
  function StepAngle(spacing: real, radius: real, acos: real -> real): (step: real)
    requires radius != 0.0
    ensures spacing == 0.0 ==> step == acos(1.0)
  {
    acos(CosStep(spacing, radius))
  }

  /** Every ring has a non-zero radius and a positive angular step. */
  predicate Advances(offsets: seq<real>, spacing: real, acos: real -> real)
  {
    forall i :: 0 <= i < |offsets| ==> offsets[i] != 0.0 && StepAngle(spacing, offsets[i], acos) > 0.0
  }

  lemma ScaleMono(a: real, b: real, d: real)
    requires a <= b && d > 0.0
    ensures a * d <= b * d
  {
    assert b * d - a * d == (b - a) * d;
  }

  lemma ScaleStrict(a: real, b: real, d: real)
    requires a < b && d > 0.0
    ensures a * d < b * d
  {
    assert b * d - a * d == (b - a) * d;
  }

  /**
    The number of shots on one ring: the least n with n * step >= turn,
    that is, the ceiling of turn / step.
  */
  function RingCount(turn: real, step: real): (n: nat)
    requires turn > 0.0 && step > 0.0
    ensures n as real * step >= turn
    ensures n > 0 && (n - 1) as real * step < turn
  {
    var q := turn / step;
    assert q * step == turn;
    assert q > 0.0 by {
      if q <= 0.0 {
        ScaleMono(q, 0.0, step);
      }
    }
    var f := q.Floor;
    assert f >= 0 && f as real <= q;
    var n: nat := if f as real == q then f else f + 1;
    assert n > 0 && n as real >= q && (n - 1) as real < q;
    CountBounds(turn, step, q, n);
    n
  }

  lemma CountBounds(turn: real, step: real, q: real, n: nat)
    requires step > 0.0 && q * step == turn && q <= n as real && (n - 1) as real < q
    ensures n as real * step >= turn && (n - 1) as real * step < turn
  {
    ScaleMono(q, n as real, step);
    ScaleStrict((n - 1) as real, q, step);
  }

  /** Any k below the ring count leaves the angle below a full turn. */
  lemma BelowCount(turn: real, step: real, k: nat)
    requires turn > 0.0 && step > 0.0 && k < RingCount(turn, step)
    ensures k as real * step < turn
  {
    ScaleMono(k as real, (RingCount(turn, step) - 1) as real, step);
  }

  /** The angle of the k-th shot of a ring. */
  function Angle(k: nat, step: real): real
  {
    k as real * step
  }

  /** The coordinate `centre + r * f(k * step)` of the first `n` shots of a ring. */
  function RingCoord(radius: real, step: real, n: nat, centre: real, f: real -> real): (ring: seq<real>)
    ensures |ring| == n
  {
    seq(n, k requires 0 <= k < n => radius * f(Angle(k, step)) + centre)
  }

  /** All rings, ring by ring in offsets order, for one coordinate (`f` = sin for x, cos for y). */
  function Rings(offsets: seq<real>, spacing: real, acos: real -> real, turn: real,
                 centre: real, f: real -> real): seq<real>
    requires turn > 0.0 && Advances(offsets, spacing, acos)
  {
    if |offsets| == 0 then []
    else
      var last := |offsets| - 1;
      var step := StepAngle(spacing, offsets[last], acos);
      Rings(offsets[..last], spacing, acos, turn, centre, f)
      + RingCoord(offsets[last], step, RingCount(turn, step), centre, f)
  }

  /** The shot total: the sum of the ring counts. */
  function TotalCount(offsets: seq<real>, spacing: real, acos: real -> real, turn: real): nat
    requires turn > 0.0 && Advances(offsets, spacing, acos)
  {
    if |offsets| == 0 then 0
    else
      var last := |offsets| - 1;
      TotalCount(offsets[..last], spacing, acos, turn) + RingCount(turn, StepAngle(spacing, offsets[last], acos))
  }

  lemma {:induction false} RingsLength(offsets: seq<real>, spacing: real, acos: real -> real, turn: real,
                                       centre: real, f: real -> real)
    requires turn > 0.0 && Advances(offsets, spacing, acos)
    ensures |Rings(offsets, spacing, acos, turn, centre, f)| == TotalCount(offsets, spacing, acos, turn)
    decreases |offsets|
  {
    if |offsets| > 0 {
      RingsLength(offsets[..|offsets| - 1], spacing, acos, turn, centre, f);
    }
  }

  /** While the angle is below a full turn, fewer than the ring count shots exist. */
  lemma StillTurning(turn: real, step: real, count: nat)
    requires turn > 0.0 && step > 0.0 && Angle(count, step) < turn
    ensures count < RingCount(turn, step)
  {
  }

  /** One pass of the ring loop extends the ring by the shot at the current angle. */
  lemma NextShot(radius: real, step: real, count: nat, centre: real, f: real -> real, coords: seq<real>, theta: real)
    requires coords == RingCoord(radius, step, count, centre, f) && theta == Angle(count, step)
    ensures coords + [radius * f(theta) + centre] == RingCoord(radius, step, count + 1, centre, f)
  {
    var a := coords + [radius * f(theta) + centre];
    var b := RingCoord(radius, step, count + 1, centre, f);
    forall k | 0 <= k < count + 1
      ensures a[k] == b[k]
    {
      if k < count {
        assert a[k] == coords[k];
      } else {
        assert a[k] == radius * f(theta) + centre;
        assert b[k] == radius * f(Angle(count, step)) + centre;
      }
    }
    assert a == b;
  }

  lemma NextAngle(step: real, count: nat)
    ensures Angle(count, step) + step == Angle(count + 1, step)
  {
  }

  /**
    One ring of `set_circular`'s inner loop: emits a shot and advances the
    angle while the angle is below a full turn.
  */
  method Ring(radius: real, step: real, turn: real, xc: real, yc: real, sin: real -> real, cos: real -> real)
    returns (xs: seq<real>, ys: seq<real>)
    requires turn > 0.0 && step > 0.0
    ensures xs == RingCoord(radius, step, RingCount(turn, step), xc, sin)
    ensures ys == RingCoord(radius, step, RingCount(turn, step), yc, cos)
  {
    var n := RingCount(turn, step);
    var theta := 0.0;
    var count: nat := 0;
    xs, ys := [], [];
    while theta < turn
      invariant count <= n
      invariant theta == Angle(count, step)
      invariant xs == RingCoord(radius, step, count, xc, sin)
      invariant ys == RingCoord(radius, step, count, yc, cos)
      decreases n - count
    {
      StillTurning(turn, step, count);
      NextShot(radius, step, count, xc, sin, xs, theta);
      NextShot(radius, step, count, yc, cos, ys, theta);
      NextAngle(step, count);
      xs := xs + [radius * sin(theta) + xc];
      ys := ys + [radius * cos(theta) + yc];
      theta := theta + step;
      count := count + 1;
    }
    if count < n {
      BelowCount(turn, step, count);
    }
  }

  /** The shots `set_circular` builds. */
  function RingShots(offsets: seq<real>, spacing: real, acos: real -> real, turn: real,
                     xc: real, yc: real, zc: real, sin: real -> real, cos: real -> real): Coordinates
    requires turn > 0.0 && Advances(offsets, spacing, acos)
  {
    var total := TotalCount(offsets, spacing, acos, turn);
    Coordinates(total, Rings(offsets, spacing, acos, turn, xc, sin), Rings(offsets, spacing, acos, turn, yc, cos),
                seq(total, _ => zc))
  }

  /**
    `set_circular`: every ring in offsets order, then z = zc for every
    shot; the offsets list is emptied afterwards.
  */
  method SetCircular(offsets: seq<real>, spacing: real, xc: real, yc: real, zc: real, turn: real,
                     acos: real -> real, sin: real -> real, cos: real -> real)
    returns (shots: Coordinates, remaining: seq<real>)
    requires turn > 0.0 && Advances(offsets, spacing, acos)
    ensures WellFormed(shots)
    ensures shots.total == TotalCount(offsets, spacing, acos, turn)
    ensures shots.x == Rings(offsets, spacing, acos, turn, xc, sin)
    ensures shots.y == Rings(offsets, spacing, acos, turn, yc, cos)
    ensures forall i :: 0 <= i < shots.total ==> shots.z[i] == zc
    ensures shots == RingShots(offsets, spacing, acos, turn, xc, yc, zc, sin, cos)
    ensures remaining == []
  {
    var xs: seq<real> := [];
    var ys: seq<real> := [];
    var total: nat := 0;
    for m := 0 to |offsets|
      invariant Advances(offsets[..m], spacing, acos)
      invariant xs == Rings(offsets[..m], spacing, acos, turn, xc, sin)
      invariant ys == Rings(offsets[..m], spacing, acos, turn, yc, cos)
      invariant total == TotalCount(offsets[..m], spacing, acos, turn)
    {
      assert offsets[..m + 1][..m] == offsets[..m];
      assert Advances(offsets[..m + 1], spacing, acos);
      var step := StepAngle(spacing, offsets[m], acos);
      var ringX, ringY := Ring(offsets[m], step, turn, xc, yc, sin, cos);
      xs := xs + ringX;
      ys := ys + ringY;
      total := total + RingCount(turn, step);
    }
    assert offsets[..|offsets|] == offsets;
    RingsLength(offsets, spacing, acos, turn, xc, sin);
    RingsLength(offsets, spacing, acos, turn, yc, cos);
    shots := Coordinates(total, xs, ys, seq(total, _ => zc));
    remaining := [];
  }

  /**
    Ring `m` occupies the positions from its start (the sum of the earlier
    rings' counts) onward: shot k of the ring sits at start + k, at angle
    k * step.
  */
  lemma {:induction false} RingSlice(offsets: seq<real>, spacing: real, acos: real -> real, turn: real,
                                     centre: real, f: real -> real, m: nat)
    requires turn > 0.0 && Advances(offsets, spacing, acos) && m < |offsets|
    ensures Advances(offsets[..m], spacing, acos)
    ensures var step := StepAngle(spacing, offsets[m], acos);
            var count := RingCount(turn, step);
            var start := TotalCount(offsets[..m], spacing, acos, turn);
            var all := Rings(offsets, spacing, acos, turn, centre, f);
            start + count <= |all|
            && all[start..start + count] == RingCoord(offsets[m], step, count, centre, f)
    decreases |offsets|
  {
    var last := |offsets| - 1;
    var prefix := offsets[..last];
    assert Advances(prefix, spacing, acos);
    var head := Rings(prefix, spacing, acos, turn, centre, f);
    var step := StepAngle(spacing, offsets[last], acos);
    var tail := RingCoord(offsets[last], step, RingCount(turn, step), centre, f);
    var all := Rings(offsets, spacing, acos, turn, centre, f);
    assert all == head + tail;
    RingsLength(prefix, spacing, acos, turn, centre, f);
    if m < last {
      assert prefix[..m] == offsets[..m];
      assert prefix[m] == offsets[m];
      RingSlice(prefix, spacing, acos, turn, centre, f, m);
      var start := TotalCount(offsets[..m], spacing, acos, turn);
      var count := RingCount(turn, StepAngle(spacing, offsets[m], acos));
      assert all[start..start + count] == head[start..start + count];
    } else {
      assert prefix == offsets[..m];
      assert all[|head|..|head| + |tail|] == tail;
    }
  }

  /**
    With sin 0 = 0 and cos 0 = 1 the first shot of every ring lies due
    north of the centre: (xc, yc + r).
  */
  lemma RingStartsNorth(offsets: seq<real>, spacing: real, acos: real -> real, turn: real,
                        xc: real, yc: real, sin: real -> real, cos: real -> real, m: nat)
    requires turn > 0.0 && Advances(offsets, spacing, acos) && m < |offsets|
    requires sin(0.0) == 0.0 && cos(0.0) == 1.0
    ensures Advances(offsets[..m], spacing, acos)
    ensures var start := TotalCount(offsets[..m], spacing, acos, turn);
            && start < |Rings(offsets, spacing, acos, turn, xc, sin)|
            && start < |Rings(offsets, spacing, acos, turn, yc, cos)|
            && Rings(offsets, spacing, acos, turn, xc, sin)[start] == xc
            && Rings(offsets, spacing, acos, turn, yc, cos)[start] == yc + offsets[m]
  {
    var step := StepAngle(spacing, offsets[m], acos);
    var count := RingCount(turn, step);
    var start := TotalCount(offsets[..m], spacing, acos, turn);
    RingSlice(offsets, spacing, acos, turn, xc, sin, m);
    RingSlice(offsets, spacing, acos, turn, yc, cos, m);
    assert Angle(0, step) == 0.0;
    assert Rings(offsets, spacing, acos, turn, xc, sin)[start] == RingCoord(offsets[m], step, count, xc, sin)[0];
    assert Rings(offsets, spacing, acos, turn, yc, cos)[start] == RingCoord(offsets[m], step, count, yc, cos)[0];
  }

  /**
    A zero spacing gives the step acos(1) = 0: the angle never moves, the
    test `theta < 2*pi` stays true after any number of steps and the ring
    loop does not end.
  */
  lemma ZeroSpacingNeverEnds(radius: real, acos: real -> real, turn: real, k: nat)
    requires radius != 0.0 && acos(1.0) == 0.0 && turn > 0.0
    ensures StepAngle(0.0, radius, acos) == 0.0
    ensures k as real * StepAngle(0.0, radius, acos) < turn
  {
    RealArith.SquareZero(radius);
    var d := 2.0 * (radius * radius);
    assert d != 0.0;
    assert (0.0 * 0.0) / d == 0.0;
  }

  /**
    `set_geometry` of the circular layout.  Import mode replaces all
    synthesis; otherwise the centre is read as (z, x, y) in that order,
    the shot rings are built, then the node lattice from the `nodes_`
    lists, reciprocity optionally, the relational window and the export.
  */
  method SetGeometry(importGeometry: bool, reciprocity: bool, imported: Layout,
                     spacing: real, center: seq<real>, offsets: seq<real>, turn: real,
                     acos: real -> real, sin: real -> real, cos: real -> real,
                     ints: string -> seq<int>, reals: string -> seq<real>,
                     setRegular: Lattice -> Coordinates,
                     swap: (Coordinates, Coordinates) -> (Coordinates, Coordinates))
    returns (layout: Layout, lists: Lattice, trace: seq<Phase>)
    requires importGeometry || (|center| >= 3 && turn > 0.0 && Advances(offsets, spacing, acos))
    ensures importGeometry ==> layout == imported && lists == NoLattice && trace == [ImportCoordinates]
    ensures !importGeometry ==>
              var nodesLists := Read(ints, reals, "nodes");
              var rings := RingShots(offsets, spacing, acos, turn, center[1], center[2], center[0], sin, cos);
              && lists == nodesLists
              && trace == Trace(reciprocity, nodesLists)
              && (layout.shots, layout.nodes) == Reciprocal(reciprocity, swap, rings, setRegular(nodesLists))
              && EveryNodeWindow(layout.rel, layout.shots.total, layout.nodes.total)
  {
    lists := NoLattice;
    if importGeometry {
      layout := imported;
      trace := [ImportCoordinates];
      return;
    }
    var zc, xc, yc := center[0], center[1], center[2];
    var nodesLists := Read(ints, reals, "nodes");
    assert NoLattice.nlines + nodesLists.nlines == nodesLists.nlines;
    assert NoLattice.sw + nodesLists.sw == nodesLists.sw;
    assert NoLattice.nw + nodesLists.nw == nodesLists.nw;
    assert NoLattice.se + nodesLists.se == nodesLists.se;
    lists := Append(lists, nodesLists);
    var shots, _ := SetCircular(offsets, spacing, xc, yc, zc, turn, acos, sin, cos);
    trace := [BuildCircular];
    var nodes := setRegular(lists);
    trace := trace + [BuildRegular(Nodes, lists)];
    if reciprocity {
      var swapped := swap(shots, nodes);
      shots, nodes := swapped.0, swapped.1;
      trace := trace + [ApplyReciprocity];
    }
    var rel := SetRelational(shots.total, nodes.total);
    trace := trace + [BuildRelational];
    layout := Layout(shots, nodes, rel);
    trace := trace + [ExportCoordinates];
  }

  /** The trace of a synthesising run. */
  function Trace(reciprocity: bool, nodesLists: Lattice): seq<Phase>
  {
    [BuildCircular, BuildRegular(Nodes, nodesLists)]
    + (if reciprocity then [ApplyReciprocity] else [])
    + [BuildRelational, ExportCoordinates]
  }

  /** The circular setup keeps the order: rings, nodes, reciprocity, relational, export. */
  lemma TraceOrdered(reciprocity: bool, nodesLists: Lattice)
    ensures SynthesisOrder(Trace(reciprocity, nodesLists))
    ensures IndexOf(Trace(reciprocity, nodesLists), BuildCircular) == 0
  {
    var trace := Trace(reciprocity, nodesLists);
    var r := if reciprocity then 3 else 2;
    assert trace[r] == BuildRelational;
    assert IndexOf(trace, BuildRelational) == r;
    if reciprocity {
      assert trace[2] == ApplyReciprocity;
      assert IndexOf(trace, ApplyReciprocity) == 2;
    } else {
      assert ApplyReciprocity !in trace;
    }
    assert trace[..|trace| - 1] == trace[..r + 1];
  }
}
