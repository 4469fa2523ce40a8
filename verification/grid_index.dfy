/**
  Index arithmetic of the flattened 3-D arrays used by the inversion.

  A physical array of nz x nx x ny samples is stored with z varying fastest:
  cell (i, j, k) (depth, x, y) lives at i + j*nz + k*nx*nz.  The smoothing
  step embeds such an array into an auxiliary array padded by `pad` samples
  on every side, with the same flattening convention.
*/
module GridIndex {

  /** A cell of a 3-D grid: i along z, j along x, k along y. */
  datatype Cell = Cell(i: int, j: int, k: int)

  /** Flattened position of cell (i, j, k), z fastest, then x, then y. */
  function Flat(c: Cell, nz: int, nx: int): int
  {
    c.i + c.j * nz + c.k * nx * nz
  }

  predicate InBox(c: Cell, nz: int, nx: int, ny: int)
  {
    0 <= c.i < nz && 0 <= c.j < nx && 0 <= c.k < ny
  }

  function Count(nz: nat, nx: nat, ny: nat): nat
  {
    nx * ny * nz
  }

  // ---------------------------------------------------------------------
  // Arithmetic helpers

  lemma MulMonoLeft(a: int, b: int, m: int)
    requires a <= b && m >= 0
    ensures a * m <= b * m
  {
  }

  lemma MulStrictCancel(a: int, b: int, m: int)
    requires m > 0 && a * m < b * m
    ensures a < b
  {
    if a >= b {
      MulMonoLeft(b, a, m);
    }
  }

  lemma DivModUnique(x: int, m: int, q: int, r: int)
    requires m > 0 && 0 <= r < m && x == q * m + r
    ensures x / m == q && x % m == r
  {
    var q' := x / m;
    var r' := x % m;
    assert x == q' * m + r';
    if q' < q {
      MulMonoLeft(q' + 1, q, m);
      assert false;
    } else if q' > q {
      MulMonoLeft(q + 1, q', m);
      assert false;
    }
  }

  lemma PositiveFactors(nz: nat, nx: nat, ny: nat)
    requires Count(nz, nx, ny) > 0
    ensures nz > 0 && nx > 0 && ny > 0
  {
  }

  lemma CountSplit(nz: nat, nx: nat, ny: nat)
    ensures Count(nz, nx, ny) == ny * (nx * nz)
  {
  }

  // ---------------------------------------------------------------------
  // Decomposition of a flat index, as the smoothing update computes it

  /**
    The cell of flat index `index`: k = index / (nx*nz),
    j = (index - k*nx*nz) / nz, i = index - j*nz - k*nx*nz.  All operands
    are non-negative, so C++ truncating division agrees with Dafny's.
  */
  function Decompose(index: nat, nz: nat, nx: nat, ny: nat): (c: Cell)
    requires index < Count(nz, nx, ny)
    ensures InBox(c, nz, nx, ny)
    ensures Flat(c, nz, nx) == index
  {
    PositiveFactors(nz, nx, ny);
    var plane := nx * nz;
    var k := index / plane;
    var rest := index - k * plane;
    assert rest == index % plane;
    var j := rest / nz;
    var i := rest - j * nz;
    assert i == rest % nz;
    DecomposeBounds(index, nz, nx, ny, k, j);
    Cell(i, j, k)
  }

  lemma DecomposeBounds(index: nat, nz: nat, nx: nat, ny: nat, k: int, j: int)
    requires nz > 0 && nx > 0 && ny > 0 && index < Count(nz, nx, ny)
    requires k == index / (nx * nz) && j == (index % (nx * nz)) / nz
    ensures 0 <= k < ny && 0 <= j < nx
  {
    var plane := nx * nz;
    CountSplit(nz, nx, ny);
    if k >= ny {
      MulMonoLeft(ny, k, plane);
      assert false;
    }
    var rest := index % plane;
    assert j * nz <= rest < nx * nz;
    MulStrictCancel(j, nx, nz);
  }

  /** Every flat index below the count is reached from exactly one cell. */
  lemma {:induction false} DecomposeFlat(c: Cell, nz: nat, nx: nat, ny: nat)
    requires InBox(c, nz, nx, ny)
    ensures 0 <= Flat(c, nz, nx) < Count(nz, nx, ny)
    ensures Decompose(Flat(c, nz, nx), nz, nx, ny) == c
  {
    var plane := nx * nz;
    var low := c.i + c.j * nz;
    MulMonoLeft(c.j, nx - 1, nz);
    assert 0 <= low < plane;
    MulMonoLeft(c.k, ny - 1, plane);
    CountSplit(nz, nx, ny);
    var index := Flat(c, nz, nx);
    assert index == c.k * plane + low;
    assert index < Count(nz, nx, ny);
    DivModUnique(index, plane, c.k, low);
    DivModUnique(low, nz, c.j, c.i);
    var d := Decompose(index, nz, nx, ny);
    assert d.k == c.k;
    assert d.j == c.j;
  }

  /** Flat index of an in-box cell, known to lie below the cell count. */
  function Index(c: Cell, nz: nat, nx: nat, ny: nat): (p: nat)
    requires InBox(c, nz, nx, ny)
    ensures p < Count(nz, nx, ny) && p == Flat(c, nz, nx)
  {
    DecomposeFlat(c, nz, nx, ny);
    Flat(c, nz, nx)
  }

  /** Distinct cells of one box never share a flat index. */
  lemma FlatInjective(a: Cell, b: Cell, nz: nat, nx: nat, ny: nat)
    requires InBox(a, nz, nx, ny) && InBox(b, nz, nx, ny)
    requires Flat(a, nz, nx) == Flat(b, nz, nx)
    ensures a == b
  {
    DecomposeFlat(a, nz, nx, ny);
    DecomposeFlat(b, nz, nx, ny);
  }

  // ---------------------------------------------------------------------
  // The zero-padded auxiliary grid of the smoothing update

  /** Dimensions of the auxiliary grid: every axis grows by 2*pad. */
  function Padded(n: nat, pad: nat): nat
  {
    n + 2 * pad
  }

  function Shift(c: Cell, pad: int): Cell
  {
    Cell(c.i + pad, c.j + pad, c.k + pad)
  }

  /** Position in the auxiliary array of physical flat index `index`. */
  function PadIndex(index: nat, nz: nat, nx: nat, ny: nat, pad: nat): (p: nat)
    requires index < Count(nz, nx, ny)
    ensures p < Count(Padded(nz, pad), Padded(nx, pad), Padded(ny, pad))
  {
    var c := Shift(Decompose(index, nz, nx, ny), pad);
    DecomposeFlat(c, Padded(nz, pad), Padded(nx, pad), Padded(ny, pad));
    Flat(c, Padded(nz, pad), Padded(nx, pad))
  }

  /** An auxiliary cell that holds a physical sample (not part of the zero margin). */
  predicate IsInner(p: nat, nz: nat, nx: nat, ny: nat, pad: nat)
    requires p < Count(Padded(nz, pad), Padded(nx, pad), Padded(ny, pad))
  {
    var c := Decompose(p, Padded(nz, pad), Padded(nx, pad), Padded(ny, pad));
    InBox(Shift(c, -(pad as int)), nz, nx, ny)
  }

  /** Physical flat index held by an inner auxiliary cell. */
  function Unpad(p: nat, nz: nat, nx: nat, ny: nat, pad: nat): (index: nat)
    requires p < Count(Padded(nz, pad), Padded(nx, pad), Padded(ny, pad))
    requires IsInner(p, nz, nx, ny, pad)
    ensures index < Count(nz, nx, ny)
  {
    var c := Shift(Decompose(p, Padded(nz, pad), Padded(nx, pad), Padded(ny, pad)), -(pad as int));
    DecomposeFlat(c, nz, nx, ny);
    Flat(c, nz, nx)
  }

  /** Padding a physical index lands on an inner cell, and unpadding recovers it. */
  lemma {:induction false} PadUnpad(index: nat, nz: nat, nx: nat, ny: nat, pad: nat)
    requires index < Count(nz, nx, ny)
    ensures IsInner(PadIndex(index, nz, nx, ny, pad), nz, nx, ny, pad)
    ensures Unpad(PadIndex(index, nz, nx, ny, pad), nz, nx, ny, pad) == index
  {
    var c := Decompose(index, nz, nx, ny);
    var pc := Shift(c, pad);
    DecomposeFlat(pc, Padded(nz, pad), Padded(nx, pad), Padded(ny, pad));
    assert Shift(pc, -(pad as int)) == c;
  }

  /** Every inner auxiliary cell is the image of exactly one physical index. */
  lemma {:induction false} UnpadPad(p: nat, nz: nat, nx: nat, ny: nat, pad: nat)
    requires p < Count(Padded(nz, pad), Padded(nx, pad), Padded(ny, pad))
    requires IsInner(p, nz, nx, ny, pad)
    ensures PadIndex(Unpad(p, nz, nx, ny, pad), nz, nx, ny, pad) == p
  {
    var pc := Decompose(p, Padded(nz, pad), Padded(nx, pad), Padded(ny, pad));
    var c := Shift(pc, -(pad as int));
    DecomposeFlat(c, nz, nx, ny);
    assert Shift(c, pad) == pc;
  }

  /** `PadIndex` is injective: distinct physical samples go to distinct auxiliary cells. */
  lemma PadIndexInjective(a: nat, b: nat, nz: nat, nx: nat, ny: nat, pad: nat)
    requires a < Count(nz, nx, ny) && b < Count(nz, nx, ny)
    requires PadIndex(a, nz, nx, ny, pad) == PadIndex(b, nz, nx, ny, pad)
    ensures a == b
  {
    PadUnpad(a, nz, nx, ny, pad);
    PadUnpad(b, nz, nx, ny, pad);
  }
}
