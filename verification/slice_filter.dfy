/**
  The slice-proximity filters of the configuration plot: a shot or node
  is drawn on the zy plane when its x grid index (truncated toward zero,
  as Python's `int()` does) is within one of the truncated x slice, and on
  the zx plane likewise for y.  Kept points are projected onto the two
  remaining axes, in grid units, in input order.
*/
module SliceFilter {

  datatype Axis = X | Y | Z

  /** A shot or node position in metres. */
  datatype Point = Point(x: real, y: real, z: real)

  /** Grid spacing along x, y and z (`dh[0]`, `dh[1]`, `dh[2]`). */
  datatype Spacing = Spacing(dx: real, dy: real, dz: real)

  function Coord(p: Point, a: Axis): real
  {
    match a
    case X => p.x
    case Y => p.y
    case Z => p.z
  }

  function Step(dh: Spacing, a: Axis): real
  {
    match a
    case X => dh.dx
    case Y => dh.dy
    case Z => dh.dz
  }

  predicate NonZeroSpacing(dh: Spacing)
  {
    dh.dx != 0.0 && dh.dy != 0.0 && dh.dz != 0.0
  }

  /** Python's `int()` on a float: truncation toward zero. */
  function Trunc(r: real): (t: int)
    ensures 0.0 <= r ==> t as real <= r < t as real + 1.0
    ensures r < 0.0 ==> t as real - 1.0 < r <= t as real
  {
    if r >= 0.0 then r.Floor else -((-r).Floor)
  }

  /** Position along axis `a` in grid units. */
  function GridCoord(p: Point, dh: Spacing, a: Axis): real
    requires NonZeroSpacing(dh)
  {
    Coord(p, a) / Step(dh, a)
  }

  /** `int(c/d) - 1 <= int(slice) <= int(c/d) + 1`. */
  predicate Near(p: Point, dh: Spacing, key: Axis, slice: real)
    requires NonZeroSpacing(dh)
  {
    var c := Trunc(GridCoord(p, dh, key));
    c - 1 <= Trunc(slice) <= c + 1
  }

  /** Indices among the first `n` points that the filter keeps, in increasing order. */
  function Kept(points: seq<Point>, dh: Spacing, key: Axis, slice: real, n: nat): (ks: seq<nat>)
    requires NonZeroSpacing(dh) && n <= |points|
    ensures |ks| <= n
    ensures forall k :: 0 <= k < |ks| ==> ks[k] < n
  {
    if n == 0 then []
    else Kept(points, dh, key, slice, n - 1) + (if Near(points[n - 1], dh, key, slice) then [n - 1] else [])
  }

  /** A point is kept exactly when it is near the slice. */
  lemma {:induction false} KeptIff(points: seq<Point>, dh: Spacing, key: Axis, slice: real, n: nat, i: int)
    requires NonZeroSpacing(dh) && n <= |points|
    ensures i in Kept(points, dh, key, slice, n) <==> 0 <= i < n && Near(points[i], dh, key, slice)
  {
    if n > 0 {
      KeptIff(points, dh, key, slice, n - 1, i);
    }
  }

  /** The coordinates along axis `a`, in grid units, of the points at indices `ks`, in that order. */
  function Projected(points: seq<Point>, ks: seq<nat>, dh: Spacing, a: Axis): (r: seq<real>)
    requires NonZeroSpacing(dh)
    requires forall k :: 0 <= k < |ks| ==> ks[k] < |points|
    ensures |r| == |ks|
  {
    seq(|ks|, k requires 0 <= k < |ks| => GridCoord(points[ks[k]], dh, a))
  }

  predicate Increasing(ks: seq<nat>)
  {
    forall a, b :: 0 <= a < b < |ks| ==> ks[a] < ks[b]
  }

  /** Kept indices are strictly increasing: input order is preserved and nothing repeats. */
  lemma {:induction false} KeptIncreasing(points: seq<Point>, dh: Spacing, key: Axis, slice: real, n: nat)
    requires NonZeroSpacing(dh) && n <= |points|
    ensures Increasing(Kept(points, dh, key, slice, n))
  {
    if n > 0 {
      KeptIncreasing(points, dh, key, slice, n - 1);
      var ks := Kept(points, dh, key, slice, n - 1);
      forall a | 0 <= a < |ks|
        ensures ks[a] < n - 1
      {
        KeptIff(points, dh, key, slice, n - 1, ks[a]);
      }
      var all := Kept(points, dh, key, slice, n);
      if Near(points[n - 1], dh, key, slice) {
        assert all == ks + [n - 1];
        forall a, b | 0 <= a < b < |all|
          ensures all[a] < all[b]
        {
          assert all[a] == ks[a];
          if b < |ks| {
            assert all[b] == ks[b];
          }
        }
      } else {
        assert all == ks;
      }
    }
  }

  /**
    One plane of the filter: loops over the points and appends the
    projections of the kept ones, as the plotting code does with
    `np.append`.
  */
  method FilterPlane(points: seq<Point>, dh: Spacing, key: Axis, slice: real, first: Axis, second: Axis)
    returns (us: seq<real>, vs: seq<real>)
    requires NonZeroSpacing(dh)
    ensures var ks := Kept(points, dh, key, slice, |points|);
            && |us| == |ks| && |vs| == |ks|
            && (forall k :: 0 <= k < |ks| ==> ks[k] < |points|)
            && (forall k :: 0 <= k < |ks| ==> us[k] == GridCoord(points[ks[k]], dh, first))
            && (forall k :: 0 <= k < |ks| ==> vs[k] == GridCoord(points[ks[k]], dh, second))
    ensures var ks := Kept(points, dh, key, slice, |points|);
            us == Projected(points, ks, dh, first) && vs == Projected(points, ks, dh, second)
  {
    us := [];
    vs := [];
    for i := 0 to |points|
      invariant var ks := Kept(points, dh, key, slice, i);
                && |us| == |ks| && |vs| == |ks|
                && (forall k :: 0 <= k < |ks| ==> ks[k] < i)
                && (forall k :: 0 <= k < |ks| ==> us[k] == GridCoord(points[ks[k]], dh, first))
                && (forall k :: 0 <= k < |ks| ==> vs[k] == GridCoord(points[ks[k]], dh, second))
    {
      if Near(points[i], dh, key, slice) {
        us := us + [GridCoord(points[i], dh, first)];
        vs := vs + [GridCoord(points[i], dh, second)];
      }
    }
  }

  /** The zy-plane picks: keyed on x against `slices[2]`, keeping (y, z). */
  method ZyPlane(points: seq<Point>, dh: Spacing, slices: seq<real>) returns (ys: seq<real>, zs: seq<real>)
    requires NonZeroSpacing(dh) && |slices| == 3
    ensures var ks := Kept(points, dh, X, slices[2], |points|);
            && |ys| == |ks| && |zs| == |ks|
            && (forall k :: 0 <= k < |ks| ==> ks[k] < |points|)
            && (forall k :: 0 <= k < |ks| ==> ys[k] == points[ks[k]].y / dh.dy && zs[k] == points[ks[k]].z / dh.dz)
  {
    ys, zs := FilterPlane(points, dh, X, slices[2], Y, Z);
  }

  /** The zx-plane picks: keyed on y against `slices[1]`, keeping (x, z). */
  method ZxPlane(points: seq<Point>, dh: Spacing, slices: seq<real>) returns (xs: seq<real>, zs: seq<real>)
    requires NonZeroSpacing(dh) && |slices| == 3
    ensures var ks := Kept(points, dh, Y, slices[1], |points|);
            && |xs| == |ks| && |zs| == |ks|
            && (forall k :: 0 <= k < |ks| ==> ks[k] < |points|)
            && (forall k :: 0 <= k < |ks| ==> xs[k] == points[ks[k]].x / dh.dx && zs[k] == points[ks[k]].z / dh.dz)
  {
    xs, zs := FilterPlane(points, dh, Y, slices[1], X, Z);
  }

  /**
    The single-point branch (a one-dimensional coordinate array) applies
    the same test to its one point, so it agrees with the many-point
    filter on a one-element list.
  */
  function SinglePoint(p: Point, dh: Spacing, key: Axis, slice: real, first: Axis, second: Axis): (r: (seq<real>, seq<real>))
    requires NonZeroSpacing(dh)
  {
    if Near(p, dh, key, slice) then ([GridCoord(p, dh, first)], [GridCoord(p, dh, second)]) else ([], [])
  }

  /**
    On a one-point list the filter keeps index 0 exactly when the point is
    near the slice, and the single-point branch yields the same projections
    `FilterPlane` yields on that list.
  */
  lemma SinglePointAgrees(p: Point, dh: Spacing, key: Axis, slice: real, first: Axis, second: Axis)
    requires NonZeroSpacing(dh)
    ensures Kept([p], dh, key, slice, 1) == (if Near(p, dh, key, slice) then [0] else [])
    ensures var ks := Kept([p], dh, key, slice, 1);
            SinglePoint(p, dh, key, slice, first, second)
            == (Projected([p], ks, dh, first), Projected([p], ks, dh, second))
  {
    var ks := Kept([p], dh, key, slice, 1);
    assert Kept([p], dh, key, slice, 0) == [];
    if Near(p, dh, key, slice) {
      assert ks == [0];
      assert Projected([p], ks, dh, first) == [GridCoord(p, dh, first)];
      assert Projected([p], ks, dh, second) == [GridCoord(p, dh, second)];
    } else {
      assert ks == [];
    }
  }

  /** Truncation goes toward zero: -0.5 and 0.5 both give 0, unlike the floor. */
  lemma TruncTowardZero()
    ensures Trunc(-0.5) == 0 && Trunc(0.5) == 0 && Trunc(-1.5) == -1 && (-1.5).Floor == -2
  {
  }

  /**
    A shot at x = 95 m on a 10 m grid has index int(9.5) = 9, so it is
    drawn for x slices 8, 9 and 10 and for no other.
  */
  lemma NearWindow(slice: real)
    requires slice == slice.Floor as real
    ensures Near(Point(95.0, 0.0, 0.0), Spacing(10.0, 10.0, 10.0), X, slice) <==> 8.0 <= slice <= 10.0
  {
  }
}
