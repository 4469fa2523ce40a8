/**
  The Gaussian regulariser of the inversion update.

  `GaussianSmoothing` is the direct 3-D convolution of Inversion::gaussian_smoothing:
  the output starts as a copy of the input and only cells whose three
  coordinates lie in [init, n - init), init = samples / 2, are overwritten by
  the kernel-weighted sum of their samples^3 neighbourhood.  The Gaussian
  weights themselves (expf, sqrtf, atanf) are abstracted as a given kernel of
  samples^3 values; with a zero standard deviation the kernel is the centre
  impulse.

  `UpdateSmoothing` is Inversion::update_smoothing: the variation is embedded
  in a zero-padded auxiliary grid (padding `samples` on every side), smoothed,
  and read back.
*/
module Smoothing {
  import opened GridIndex

  // ---------------------------------------------------------------------
  // Kernel

  /** Half-width of the window, smoother_samples / 2 (also the kernel centre). */
  function Init(samples: nat): nat
  {
    samples / 2
  }

  function KernelSize(samples: nat): nat
  {
    Count(samples, samples, samples)
  }

  /** Flat kernel position of the centre cell: mid + mid*N + mid*N*N. */
  function Mid(samples: nat): (m: nat)
    requires samples >= 1
    ensures m < KernelSize(samples)
  {
    var c := Cell(Init(samples), Init(samples), Init(samples));
    DecomposeFlat(c, samples, samples, samples);
    Flat(c, samples, samples)
  }

  /** The kernel before the Gaussian branch: 1 at the centre, 0 elsewhere. */
  function Impulse(samples: nat): (kernel: seq<real>)
    requires samples >= 1
    ensures |kernel| == KernelSize(samples)
  {
    seq(KernelSize(samples), q => if q == Mid(samples) then 1.0 else 0.0)
  }

  /**
    The kernel the convolution uses: the impulse when the standard deviation
    is 0, otherwise the normalised Gaussian weights, given as `gaussian`.
  */
  function Kernel(samples: nat, stdv: int, gaussian: seq<real>): (kernel: seq<real>)
    requires samples >= 1 && |gaussian| == KernelSize(samples)
    ensures |kernel| == KernelSize(samples)
    ensures stdv != 0 ==> kernel == gaussian
    ensures stdv == 0 ==> forall q :: 0 <= q < |kernel| ==> kernel[q] == (if q == Mid(samples) then 1.0 else 0.0)
  {
    if stdv == 0 then Impulse(samples) else gaussian
  }

  // ---------------------------------------------------------------------
  // Direct convolution

  /** Output cells the convolution loops visit: every coordinate in [init, n - init). */
  predicate Interior(c: Cell, nz: int, nx: int, ny: int, samples: nat)
  {
    var init := Init(samples);
    init <= c.i < nz - init && init <= c.j < nx - init && init <= c.k < ny - init
  }

  /**
    The input position `partial` read for output cell `c` and kernel cell `w`
    (zk, xk, yk): (i-init+zk) + (j-init+xk)*nz + (k-init+yk)*nx*nz.  It always
    lies inside the input array.
  */
  function ReadIndex(c: Cell, w: Cell, nz: nat, nx: nat, ny: nat, samples: nat): (partial: nat)
    requires Interior(c, nz, nx, ny, samples) && InBox(w, samples, samples, samples)
    ensures partial < Count(nz, nx, ny)
  {
    var init := Init(samples);
    var r := Cell(c.i - init + w.i, c.j - init + w.j, c.k - init + w.k);
    DecomposeFlat(r, nz, nx, ny);
    Flat(r, nz, nx)
  }

  /**
    Weighted sum over the first `q` kernel cells, in the loops' order
    (zk fastest, then xk, then yk, i.e. increasing kernel index).
  */
  function Accumulate(input: seq<real>, kernel: seq<real>, c: Cell,
                      nz: nat, nx: nat, ny: nat, samples: nat, q: nat): real
    requires |input| == Count(nz, nx, ny) && |kernel| == KernelSize(samples)
    requires Interior(c, nz, nx, ny, samples) && q <= KernelSize(samples)
    decreases q
  {
    if q == 0 then 0.0
    else Accumulate(input, kernel, c, nz, nx, ny, samples, q - 1) + Term(input, kernel, c, nz, nx, ny, samples, q - 1)
  }

  /** The contribution of kernel index q: its weight times the input sample its cell reads. */
  function Term(input: seq<real>, kernel: seq<real>, c: Cell,
                nz: nat, nx: nat, ny: nat, samples: nat, q: nat): real
    requires |input| == Count(nz, nx, ny) && |kernel| == KernelSize(samples)
    requires Interior(c, nz, nx, ny, samples) && q < KernelSize(samples)
  {
    input[ReadIndex(c, Decompose(q, samples, samples, samples), nz, nx, ny, samples)] * kernel[q]
  }

  /** The value the convolution gives auxiliary cell `p`. */
  function SmoothedAt(input: seq<real>, kernel: seq<real>, p: nat,
                      nz: nat, nx: nat, ny: nat, samples: nat): real
    requires |input| == Count(nz, nx, ny) && |kernel| == KernelSize(samples) && p < |input|
  {
    var c := Decompose(p, nz, nx, ny);
    if Interior(c, nz, nx, ny, samples) then
      Accumulate(input, kernel, c, nz, nx, ny, samples, KernelSize(samples))
    else
      input[p]
  }

  /**
    Inversion::gaussian_smoothing(input, output, nx, ny, nz): the output is
    a copy of the input on every cell outside the interior window, and the
    kernel-weighted neighbourhood sum on every interior cell.
  */
  function GaussianSmoothing(input: seq<real>, nx: nat, ny: nat, nz: nat,
                             samples: nat, stdv: int, gaussian: seq<real>): (output: seq<real>)
    requires |input| == Count(nz, nx, ny)
    requires samples >= 1 && |gaussian| == KernelSize(samples)
    ensures |output| == |input|
    ensures forall p :: 0 <= p < |input| && !Interior(Decompose(p, nz, nx, ny), nz, nx, ny, samples)
              ==> output[p] == input[p]
    ensures forall p :: 0 <= p < |input| && Interior(Decompose(p, nz, nx, ny), nz, nx, ny, samples)
              ==> output[p] == Accumulate(input, Kernel(samples, stdv, gaussian), Decompose(p, nz, nx, ny),
                                          nz, nx, ny, samples, KernelSize(samples))
  {
    var kernel := Kernel(samples, stdv, gaussian);
    seq(|input|, p requires 0 <= p < |input| => SmoothedAt(input, kernel, p, nz, nx, ny, samples))
  }

  /** The kernel centre reads the output cell itself. */
  lemma CentreReadsSelf(c: Cell, nz: nat, nx: nat, ny: nat, samples: nat)
    requires samples >= 1 && Interior(c, nz, nx, ny, samples)
    ensures Decompose(Mid(samples), samples, samples, samples) == Cell(Init(samples), Init(samples), Init(samples))
    ensures ReadIndex(c, Cell(Init(samples), Init(samples), Init(samples)), nz, nx, ny, samples) == Flat(c, nz, nx)
  {
    var w := Cell(Init(samples), Init(samples), Init(samples));
    DecomposeFlat(w, samples, samples, samples);
    assert Cell(c.i - Init(samples) + w.i, c.j - Init(samples) + w.j, c.k - Init(samples) + w.k) == c;
  }

  /** With the impulse kernel, the neighbourhood sum is the centre sample. */
  lemma {:induction false} AccumulateImpulse(input: seq<real>, c: Cell, nz: nat, nx: nat, ny: nat,
                                             samples: nat, q: nat)
    requires samples >= 1 && |input| == Count(nz, nx, ny)
    requires Interior(c, nz, nx, ny, samples) && q <= KernelSize(samples)
    ensures InBox(c, nz, nx, ny)
    ensures Accumulate(input, Impulse(samples), c, nz, nx, ny, samples, q)
            == (if Mid(samples) < q then input[Index(c, nz, nx, ny)] else 0.0)
  {
    if q > 0 {
      var kernel := Impulse(samples);
      AccumulateImpulse(input, c, nz, nx, ny, samples, q - 1);
      var w := Decompose(q - 1, samples, samples, samples);
      if q - 1 == Mid(samples) {
        CentreReadsSelf(c, nz, nx, ny, samples);
      }
    }
  }

  /** A zero standard deviation makes the smoothing the identity. */
  lemma ZeroStdvIsIdentity(input: seq<real>, nx: nat, ny: nat, nz: nat, samples: nat, gaussian: seq<real>)
    requires |input| == Count(nz, nx, ny)
    requires samples >= 1 && |gaussian| == KernelSize(samples)
    ensures GaussianSmoothing(input, nx, ny, nz, samples, 0, gaussian) == input
  {
    var output := GaussianSmoothing(input, nx, ny, nz, samples, 0, gaussian);
    forall p | 0 <= p < |input|
      ensures output[p] == input[p]
    {
      var c := Decompose(p, nz, nx, ny);
      if Interior(c, nz, nx, ny, samples) {
        AccumulateImpulse(input, c, nz, nx, ny, samples, KernelSize(samples));
      }
    }
  }

  // ---------------------------------------------------------------------
  // The loops of gaussian_smoothing

  /**
    The kernel-weighted sum for one output cell, by the three kernel
    loops of `Inversion::gaussian_smoothing` (yk outermost, zk innermost);
    the kernel index `zk + xk*N + yk*N*N` runs through 0 .. N^3 - 1 in
    order.
  */
  method AccumulateCell(input: seq<real>, kernel: seq<real>, c: Cell,
                        nz: nat, nx: nat, ny: nat, samples: nat) returns (accum: real)
    requires |input| == Count(nz, nx, ny) && |kernel| == KernelSize(samples)
    requires Interior(c, nz, nx, ny, samples)
    ensures accum == Accumulate(input, kernel, c, nz, nx, ny, samples, KernelSize(samples))
  {
    var n := samples;
    accum := 0.0;
    for yk := 0 to n
      invariant yk * n * n <= KernelSize(n)
      invariant accum == Accumulate(input, kernel, c, nz, nx, ny, n, yk * n * n)
    {
      for xk := 0 to n
        invariant xk * n + yk * n * n <= KernelSize(n)
        invariant accum == Accumulate(input, kernel, c, nz, nx, ny, n, xk * n + yk * n * n)
      {
        RowStride(n, xk, yk);
        accum := AccumulateRow(input, kernel, c, nz, nx, ny, n, xk, yk, xk * n + yk * n * n, accum);
      }
      PlaneStride(n, yk);
    }
  }

  /**
    The innermost kernel loop: zk from 0 to N - 1 for fixed xk and yk,
    reading `partial = (i-init+zk) + (j-init+xk)*nz + (k-init+yk)*nx*nz`
    and the weight at `zk + xk*N + yk*N*N`.
  */
  method AccumulateRow(input: seq<real>, kernel: seq<real>, c: Cell,
                       nz: nat, nx: nat, ny: nat, n: nat, xk: int, yk: int,
                       ghost base: int, start: real) returns (accum: real)
    requires |input| == Count(nz, nx, ny) && |kernel| == KernelSize(n)
    requires Interior(c, nz, nx, ny, n) && 0 <= xk < n && 0 <= yk < n
    requires base == xk * n + yk * n * n && 0 <= base && base + n <= KernelSize(n)
    requires start == Accumulate(input, kernel, c, nz, nx, ny, n, base)
    ensures accum == Accumulate(input, kernel, c, nz, nx, ny, n, base + n)
  {
    accum := start;
    for zk := 0 to n
      invariant accum == Accumulate(input, kernel, c, nz, nx, ny, n, base + zk)
    {
      accum := AddKernelTerm(input, kernel, c, nz, nx, ny, n, zk, xk, yk, base + zk, accum);
    }
  }

  /**
    The body of the innermost kernel loop: `index` and `partial` as
    `Inversion::gaussian_smoothing` computes them, and
    `accum += input[partial] * kernel[index]`.
  */
  method AddKernelTerm(input: seq<real>, kernel: seq<real>, c: Cell,
                       nz: nat, nx: nat, ny: nat, n: nat, zk: int, xk: int, yk: int,
                       ghost q: nat, accum: real) returns (next: real)
    requires |input| == Count(nz, nx, ny) && |kernel| == KernelSize(n)
    requires Interior(c, nz, nx, ny, n) && 0 <= zk < n && 0 <= xk < n && 0 <= yk < n
    requires q == zk + xk * n + yk * n * n && q < KernelSize(n)
    requires accum == Accumulate(input, kernel, c, nz, nx, ny, n, q)
    ensures next == Accumulate(input, kernel, c, nz, nx, ny, n, q + 1)
  {
    var init := Init(n);
    var index := zk + xk * n + yk * n * n;
    var partial := (c.i - init + zk) + (c.j - init + xk) * nz + (c.k - init + yk) * nx * nz;
    KernelStep(input, kernel, c, nz, nx, ny, n, zk, xk, yk, index, partial);
    next := accum + input[partial] * kernel[index];
    assert index == q;
  }

  /**
    One pass of the innermost kernel loop: kernel index q of cell
    (zk, xk, yk) and the input position `partial` that
    `Inversion::gaussian_smoothing` computes lie in their arrays, and adding
    their product to the sum over the first q kernel indices gives the sum
    over the first q + 1.
  */
  lemma KernelStep(input: seq<real>, kernel: seq<real>, c: Cell,
                   nz: nat, nx: nat, ny: nat, n: nat, zk: int, xk: int, yk: int, q: nat, partial: int)
    requires |input| == Count(nz, nx, ny) && |kernel| == KernelSize(n)
    requires Interior(c, nz, nx, ny, n) && 0 <= zk < n && 0 <= xk < n && 0 <= yk < n
    requires q == zk + xk * n + yk * n * n
    requires partial == (c.i - Init(n) + zk) + (c.j - Init(n) + xk) * nz + (c.k - Init(n) + yk) * nx * nz
    ensures q < |kernel| && 0 <= partial < |input|
    ensures Accumulate(input, kernel, c, nz, nx, ny, n, q + 1)
            == Accumulate(input, kernel, c, nz, nx, ny, n, q) + input[partial] * kernel[q]
  {
    KernelCell(n, zk, xk, yk, q);
    PartialIsReadIndex(c, nz, nx, ny, n, zk, xk, yk, partial);
    AccumulateNext(input, kernel, c, nz, nx, ny, n, q);
    TermAt(input, kernel, c, nz, nx, ny, n, q, partial);
  }

  /** The end of an x row of the kernel is the start of the next one, still inside the kernel. */
  lemma RowStride(n: nat, xk: int, yk: int)
    requires 0 <= xk < n && 0 <= yk < n
    ensures n + xk * n + yk * n * n == (xk + 1) * n + yk * n * n
    ensures (xk + 1) * n + yk * n * n <= n * n * n
  {
    assert (xk + 1) * n == xk * n + n;
    MulMonoLeft(xk + 1, n, n);
    PlaneStride(n, yk);
  }

  /** The end of a y plane of the kernel is the start of the next one, still inside the kernel. */
  lemma PlaneStride(n: nat, yk: int)
    requires 0 <= yk < n
    ensures n * n + yk * n * n == (yk + 1) * n * n
    ensures (yk + 1) * n * n <= n * n * n
  {
    var t := yk * n;
    assert (yk + 1) * n == t + n;
    assert (t + n) * n == t * n + n * n;
    MulMonoLeft(yk + 1, n, n);
    MulMonoLeft((yk + 1) * n, n * n, n);
  }

  /** Kernel cell (zk, xk, yk) sits at kernel index `zk + xk*N + yk*N*N`. */
  lemma KernelCell(n: nat, zk: int, xk: int, yk: int, q: int)
    requires 0 <= zk < n && 0 <= xk < n && 0 <= yk < n
    requires q == zk + xk * n + yk * n * n
    ensures 0 <= q < KernelSize(n)
    ensures Decompose(q, n, n, n) == Cell(zk, xk, yk)
  {
    var w := Cell(zk, xk, yk);
    DecomposeFlat(w, n, n, n);
    assert Flat(w, n, n) == q;
  }

  /** Accumulating one more kernel index adds that index's term. */
  lemma AccumulateNext(input: seq<real>, kernel: seq<real>, c: Cell,
                       nz: nat, nx: nat, ny: nat, n: nat, q: nat)
    requires |input| == Count(nz, nx, ny) && |kernel| == KernelSize(n)
    requires Interior(c, nz, nx, ny, n) && q < KernelSize(n)
    ensures Accumulate(input, kernel, c, nz, nx, ny, n, q + 1)
            == Accumulate(input, kernel, c, nz, nx, ny, n, q) + Term(input, kernel, c, nz, nx, ny, n, q)
  {
  }

  /** The term of kernel index q, whose input sample sits at `partial`, is that sample times the weight at q. */
  lemma TermAt(input: seq<real>, kernel: seq<real>, c: Cell,
               nz: nat, nx: nat, ny: nat, n: nat, q: nat, partial: nat)
    requires |input| == Count(nz, nx, ny) && |kernel| == KernelSize(n)
    requires Interior(c, nz, nx, ny, n) && q < KernelSize(n)
    requires partial == ReadIndex(c, Decompose(q, n, n, n), nz, nx, ny, n)
    ensures partial < |input|
    ensures Term(input, kernel, c, nz, nx, ny, n, q) == input[partial] * kernel[q]
  {
  }

  /** `Inversion::gaussian_smoothing`'s `partial` for output cell `c` and kernel cell (zk, xk, yk) is `ReadIndex`. */
  lemma PartialIsReadIndex(c: Cell, nz: nat, nx: nat, ny: nat, n: nat, zk: int, xk: int, yk: int, partial: int)
    requires Interior(c, nz, nx, ny, n) && 0 <= zk < n && 0 <= xk < n && 0 <= yk < n
    requires partial == (c.i - Init(n) + zk) + (c.j - Init(n) + xk) * nz + (c.k - Init(n) + yk) * nx * nz
    ensures partial == ReadIndex(c, Cell(zk, xk, yk), nz, nx, ny, n)
  {
    var r := Cell(c.i - Init(n) + zk, c.j - Init(n) + xk, c.k - Init(n) + yk);
    assert partial == Flat(r, nz, nx);
  }

  /** Cell `c` comes before the loop position (k, j, i): y slowest, then x, then z. */
  predicate Before(c: Cell, k: int, j: int, i: int)
  {
    c.k < k || (c.k == k && (c.j < j || (c.j == j && c.i < i)))
  }

  /**
    What the output holds at `p` once the loops have reached position
    (k, j, i): the neighbourhood sum on interior cells already visited,
    the copied input everywhere else.
  */
  function Expected(input: seq<real>, kernel: seq<real>, p: nat, nz: nat, nx: nat, ny: nat,
                    samples: nat, k: int, j: int, i: int): real
    requires |input| == Count(nz, nx, ny) && |kernel| == KernelSize(samples) && p < |input|
  {
    var c := Decompose(p, nz, nx, ny);
    if Interior(c, nz, nx, ny, samples) && Before(c, k, j, i) then
      Accumulate(input, kernel, c, nz, nx, ny, samples, KernelSize(samples))
    else
      input[p]
  }

  /** Writing cell (i, j, k) moves the loop position one step along z. */
  lemma ExpectedStep(input: seq<real>, kernel: seq<real>, p: nat, nz: nat, nx: nat, ny: nat,
                     samples: nat, k: int, j: int, i: int)
    requires |input| == Count(nz, nx, ny) && |kernel| == KernelSize(samples) && p < |input|
    requires Interior(Cell(i, j, k), nz, nx, ny, samples)
    ensures p != Flat(Cell(i, j, k), nz, nx) ==>
              Expected(input, kernel, p, nz, nx, ny, samples, k, j, i + 1)
              == Expected(input, kernel, p, nz, nx, ny, samples, k, j, i)
    ensures p == Flat(Cell(i, j, k), nz, nx) ==>
              Expected(input, kernel, p, nz, nx, ny, samples, k, j, i + 1)
              == Accumulate(input, kernel, Cell(i, j, k), nz, nx, ny, samples, KernelSize(samples))
  {
    DecomposeFlat(Cell(i, j, k), nz, nx, ny);
  }

  /** Past the last z of row (j, k), the position is the start of row j + 1. */
  lemma ExpectedRowEnd(input: seq<real>, kernel: seq<real>, p: nat, nz: nat, nx: nat, ny: nat,
                       samples: nat, k: int, j: int, i: int)
    requires |input| == Count(nz, nx, ny) && |kernel| == KernelSize(samples) && p < |input|
    requires i >= nz - Init(samples)
    ensures Expected(input, kernel, p, nz, nx, ny, samples, k, j, i)
            == Expected(input, kernel, p, nz, nx, ny, samples, k, j + 1, Init(samples))
  {
  }

  /** Past the last x of plane k, the position is the start of plane k + 1. */
  lemma ExpectedPlaneEnd(input: seq<real>, kernel: seq<real>, p: nat, nz: nat, nx: nat, ny: nat,
                         samples: nat, k: int, j: int)
    requires |input| == Count(nz, nx, ny) && |kernel| == KernelSize(samples) && p < |input|
    requires j >= nx - Init(samples)
    ensures Expected(input, kernel, p, nz, nx, ny, samples, k, j, Init(samples))
            == Expected(input, kernel, p, nz, nx, ny, samples, k + 1, Init(samples), Init(samples))
  {
  }

  /**
    One row of the interior loops: `i` from init while below nz - init,
    each write landing at `i + j*nz + k*nx*nz`.
  */
  method SmoothRow(input: seq<real>, kernel: seq<real>, output: seq<real>,
                   nz: nat, nx: nat, ny: nat, samples: nat, k: int, j: int) returns (next: seq<real>)
    requires |input| == Count(nz, nx, ny) && |kernel| == KernelSize(samples) && |output| == |input|
    requires Init(samples) <= k < ny - Init(samples) && Init(samples) <= j < nx - Init(samples)
    requires forall p :: 0 <= p < |output| ==>
               output[p] == Expected(input, kernel, p, nz, nx, ny, samples, k, j, Init(samples))
    ensures |next| == |input|
    ensures forall p :: 0 <= p < |next| ==>
              next[p] == Expected(input, kernel, p, nz, nx, ny, samples, k, j + 1, Init(samples))
  {
    var init := Init(samples);
    next := output;
    var i := init;
    while i < nz - init
      invariant init <= i && |next| == |input|
      invariant forall p :: 0 <= p < |next| ==>
                  next[p] == Expected(input, kernel, p, nz, nx, ny, samples, k, j, i)
    {
      var c := Cell(i, j, k);
      var accum := AccumulateCell(input, kernel, c, nz, nx, ny, samples);
      var at := i + j * nz + k * nx * nz;
      DecomposeFlat(c, nz, nx, ny);
      assert at == Flat(c, nz, nx);
      var updated := next[at := accum];
      forall p | 0 <= p < |updated|
        ensures updated[p] == Expected(input, kernel, p, nz, nx, ny, samples, k, j, i + 1)
      {
        ExpectedStep(input, kernel, p, nz, nx, ny, samples, k, j, i);
      }
      next := updated;
      i := i + 1;
    }
    forall p | 0 <= p < |next|
      ensures next[p] == Expected(input, kernel, p, nz, nx, ny, samples, k, j + 1, init)
    {
      ExpectedRowEnd(input, kernel, p, nz, nx, ny, samples, k, j, i);
    }
  }

  /** One plane of the interior loops: `j` from init while below nx - init. */
  method SmoothPlane(input: seq<real>, kernel: seq<real>, output: seq<real>,
                     nz: nat, nx: nat, ny: nat, samples: nat, k: int) returns (next: seq<real>)
    requires |input| == Count(nz, nx, ny) && |kernel| == KernelSize(samples) && |output| == |input|
    requires Init(samples) <= k < ny - Init(samples)
    requires forall p :: 0 <= p < |output| ==>
               output[p] == Expected(input, kernel, p, nz, nx, ny, samples, k, Init(samples), Init(samples))
    ensures |next| == |input|
    ensures forall p :: 0 <= p < |next| ==>
              next[p] == Expected(input, kernel, p, nz, nx, ny, samples, k + 1, Init(samples), Init(samples))
  {
    var init := Init(samples);
    next := output;
    var j := init;
    while j < nx - init
      invariant init <= j && |next| == |input|
      invariant forall p :: 0 <= p < |next| ==>
                  next[p] == Expected(input, kernel, p, nz, nx, ny, samples, k, j, init)
    {
      next := SmoothRow(input, kernel, next, nz, nx, ny, samples, k, j);
      j := j + 1;
    }
    forall p | 0 <= p < |next|
      ensures next[p] == Expected(input, kernel, p, nz, nx, ny, samples, k + 1, init, init)
    {
      ExpectedPlaneEnd(input, kernel, p, nz, nx, ny, samples, k, j);
    }
  }

  /**
    Inversion::gaussian_smoothing as its loops run: the copy of the input,
    the kernel (the centre impulse, replaced by the Gaussian weights when
    the deviation is non-zero), then the interior loops over k, j and i.
    The result is the convolution `GaussianSmoothing` defines cell by cell.
  */
  method GaussianSmoothingLoops(input: seq<real>, nx: nat, ny: nat, nz: nat,
                                samples: nat, stdv: int, gaussian: seq<real>) returns (output: seq<real>)
    requires |input| == Count(nz, nx, ny)
    requires samples >= 1 && |gaussian| == KernelSize(samples)
    ensures output == GaussianSmoothing(input, nx, ny, nz, samples, stdv, gaussian)
  {
    var init := Init(samples);
    var points := nx * ny * nz;
    output := [];
    for p := 0 to points
      invariant output == input[..p]
    {
      output := output + [input[p]];
    }
    assert output == input;
    var kernel := Impulse(samples);
    if stdv != 0 {
      kernel := gaussian;
    }
    assert kernel == Kernel(samples, stdv, gaussian);
    forall p | 0 <= p < |output|
      ensures output[p] == Expected(input, kernel, p, nz, nx, ny, samples, init, init, init)
    {
    }
    var k := init;
    while k < ny - init
      invariant init <= k && |output| == |input|
      invariant forall p :: 0 <= p < |output| ==>
                  output[p] == Expected(input, kernel, p, nz, nx, ny, samples, k, init, init)
    {
      output := SmoothPlane(input, kernel, output, nz, nx, ny, samples, k);
      k := k + 1;
    }
    var reference := GaussianSmoothing(input, nx, ny, nz, samples, stdv, gaussian);
    forall p | 0 <= p < |output|
      ensures output[p] == reference[p]
    {
    }
  }

  // ---------------------------------------------------------------------
  // Kernel fill loop of the Gaussian branch

  /** Kernel position written for offset (z, x, y): (z+init) + (x+init)*N + (y+init)*N*N. */
  function FillIndex(z: int, x: int, y: int, samples: nat): int
  {
    var init := Init(samples);
    Flat(Cell(z + init, x + init, y + init), samples, samples)
  }

  /** Offsets the kernel-fill loops of `Inversion::gaussian_smoothing` visit: every axis from -init to +init inclusive. */
  predicate AsWrittenOffset(z: int, x: int, y: int, samples: nat)
  {
    var init: int := Init(samples);
    -init <= z <= init && -init <= x <= init && -init <= y <= init
  }

  /**
    With an even number of samples the loops run over init*2+1 = samples+1
    offsets per axis, and the last one writes past the samples^3 kernel.
  */
  lemma AsWrittenFillOverruns(samples: nat)
    requires samples >= 2 && samples % 2 == 0
    ensures AsWrittenOffset(Init(samples), Init(samples), Init(samples), samples)
    ensures FillIndex(Init(samples), Init(samples), Init(samples), samples) >= KernelSize(samples)
  {
    var n := samples;
    assert 2 * Init(n) == n;
    assert FillIndex(Init(n), Init(n), Init(n), n) == n + n * n + n * n * n;
  }

  /** With an odd number of samples the as-written loops stay inside the kernel. */
  lemma AsWrittenFillOddInBounds(z: int, x: int, y: int, samples: nat)
    requires samples % 2 == 1 && AsWrittenOffset(z, x, y, samples)
    ensures 0 <= FillIndex(z, x, y, samples) < KernelSize(samples)
  {
    var init := Init(samples);
    DecomposeFlat(Cell(z + init, x + init, y + init), samples, samples, samples);
  }

  /** Offsets of the corrected loops: from -init to samples-1-init on every axis. */
  predicate CorrectedOffset(z: int, x: int, y: int, samples: nat)
  {
    var init: int := Init(samples);
    -init <= z < samples - init && -init <= x < samples - init && -init <= y < samples - init
  }

  /**
    The corrected loops write exactly the samples^3 kernel cells: every
    offset lands inside the kernel, and every kernel cell is written by the
    offset its decomposition gives.  For odd samples the corrected and the
    as-written offsets coincide.
  */
  lemma CorrectedFillCoversKernel(samples: nat)
    requires samples >= 1
    ensures forall z, x, y :: CorrectedOffset(z, x, y, samples)
              ==> 0 <= FillIndex(z, x, y, samples) < KernelSize(samples)
    ensures forall q :: 0 <= q < KernelSize(samples) ==>
              var w := Decompose(q, samples, samples, samples);
              var init: int := Init(samples);
              CorrectedOffset(w.i - init, w.j - init, w.k - init, samples)
              && FillIndex(w.i - init, w.j - init, w.k - init, samples) == q
    ensures samples % 2 == 1 ==>
              forall z, x, y :: CorrectedOffset(z, x, y, samples) <==> AsWrittenOffset(z, x, y, samples)
  {
    var init: int := Init(samples);
    forall z, x, y | CorrectedOffset(z, x, y, samples)
      ensures 0 <= FillIndex(z, x, y, samples) < KernelSize(samples)
    {
      DecomposeFlat(Cell(z + init, x + init, y + init), samples, samples, samples);
    }
    forall q | 0 <= q < KernelSize(samples)
      ensures var w := Decompose(q, samples, samples, samples);
              CorrectedOffset(w.i - init, w.j - init, w.k - init, samples)
              && FillIndex(w.i - init, w.j - init, w.k - init, samples) == q
    {
      var w := Decompose(q, samples, samples, samples);
      assert Cell(w.i - init + init, w.j - init + init, w.k - init + init) == w;
    }
  }

  // ---------------------------------------------------------------------
  // Embedding into and extraction from the zero-padded auxiliary grid

  /** Reference definition of the auxiliary array: physical samples at their padded cells, zero elsewhere. */
  function Embedded(variation: seq<real>, nz: nat, nx: nat, ny: nat, pad: nat): (aux: seq<real>)
    requires |variation| == Count(nz, nx, ny)
    ensures |aux| == Count(Padded(nz, pad), Padded(nx, pad), Padded(ny, pad))
  {
    seq(Count(Padded(nz, pad), Padded(nx, pad), Padded(ny, pad)),
        p requires 0 <= p < Count(Padded(nz, pad), Padded(nx, pad), Padded(ny, pad)) =>
          if IsInner(p, nz, nx, ny, pad) then variation[Unpad(p, nz, nx, ny, pad)] else 0.0)
  }

  /**
    The first loop of update_smoothing: a zero-initialised auxiliary array
    receives variation[index] at ind_filt for every physical index.
  */
  method Embed(variation: seq<real>, nz: nat, nx: nat, ny: nat, pad: nat) returns (aux: seq<real>)
    requires |variation| == Count(nz, nx, ny)
    ensures aux == Embedded(variation, nz, nx, ny, pad)
    ensures |aux| == Count(Padded(nz, pad), Padded(nx, pad), Padded(ny, pad))
    ensures forall index :: 0 <= index < |variation| ==> aux[PadIndex(index, nz, nx, ny, pad)] == variation[index]
    ensures forall p :: 0 <= p < |aux| && !IsInner(p, nz, nx, ny, pad) ==> aux[p] == 0.0
  {
    var auxCount := Count(Padded(nz, pad), Padded(nx, pad), Padded(ny, pad));
    aux := seq(auxCount, _ => 0.0);
    for index := 0 to |variation|
      invariant |aux| == auxCount
      invariant forall p :: 0 <= p < auxCount ==>
                  aux[p] == (if IsInner(p, nz, nx, ny, pad) && Unpad(p, nz, nx, ny, pad) < index
                             then variation[Unpad(p, nz, nx, ny, pad)] else 0.0)
    {
      var c := Decompose(index, nz, nx, ny);
      var indFilt := PadIndex(index, nz, nx, ny, pad);
      PadUnpad(index, nz, nx, ny, pad);
      forall p | 0 <= p < auxCount && IsInner(p, nz, nx, ny, pad)
        ensures PadIndex(Unpad(p, nz, nx, ny, pad), nz, nx, ny, pad) == p
      {
        UnpadPad(p, nz, nx, ny, pad);
      }
      aux := aux[indFilt := variation[Flat(c, nz, nx)]];
    }
    forall index | 0 <= index < |variation|
      ensures aux[PadIndex(index, nz, nx, ny, pad)] == variation[index]
    {
      ExtractEmbedded(variation, nz, nx, ny, pad, index);
    }
  }

  /**
    The second loop of update_smoothing: every physical sample is read back
    from its padded cell.
  */
  method Extract(smooth: seq<real>, nz: nat, nx: nat, ny: nat, pad: nat) returns (variation: seq<real>)
    requires |smooth| == Count(Padded(nz, pad), Padded(nx, pad), Padded(ny, pad))
    ensures |variation| == Count(nz, nx, ny)
    ensures forall index :: 0 <= index < |variation| ==>
              variation[index] == smooth[PadIndex(index, nz, nx, ny, pad)]
  {
    var total := Count(nz, nx, ny);
    variation := seq(total, _ => 0.0);
    for index := 0 to total
      invariant |variation| == total
      invariant forall m :: 0 <= m < index ==> variation[m] == smooth[PadIndex(m, nz, nx, ny, pad)]
    {
      var c := Decompose(index, nz, nx, ny);
      var indFilt := PadIndex(index, nz, nx, ny, pad);
      variation := variation[Flat(c, nz, nx) := smooth[indFilt]];
    }
  }

  /** Reading back an embedded array returns the physical samples unchanged. */
  lemma ExtractEmbedded(variation: seq<real>, nz: nat, nx: nat, ny: nat, pad: nat, index: nat)
    requires |variation| == Count(nz, nx, ny) && index < |variation|
    ensures Embedded(variation, nz, nx, ny, pad)[PadIndex(index, nz, nx, ny, pad)] == variation[index]
  {
    PadUnpad(index, nz, nx, ny, pad);
  }

  /**
    With padding `samples` on every side, every padded physical cell lies in
    the convolution's interior window, so every physical sample is smoothed.
  */
  lemma PaddedCellsAreInterior(index: nat, nz: nat, nx: nat, ny: nat, samples: nat)
    requires index < Count(nz, nx, ny)
    ensures Interior(Decompose(PadIndex(index, nz, nx, ny, samples),
                               Padded(nz, samples), Padded(nx, samples), Padded(ny, samples)),
                     Padded(nz, samples), Padded(nx, samples), Padded(ny, samples), samples)
  {
    var c := Decompose(index, nz, nx, ny);
    var pc := Shift(c, samples);
    DecomposeFlat(pc, Padded(nz, samples), Padded(nx, samples), Padded(ny, samples));
  }

  /**
    Inversion::update_smoothing.  Without `updateSmooth` the variation is
    left alone; otherwise every physical sample becomes the kernel-weighted
    sum around its padded cell, and with a zero standard deviation the
    round trip returns the variation exactly.
  */
  method UpdateSmoothing(variation: seq<real>, updateSmooth: bool, nz: nat, nx: nat, ny: nat,
                         samples: nat, stdv: int, gaussian: seq<real>) returns (result: seq<real>)
    requires |variation| == Count(nz, nx, ny)
    requires updateSmooth ==> samples >= 1 && |gaussian| == KernelSize(samples)
    ensures |result| == |variation|
    ensures !updateSmooth ==> result == variation
    ensures updateSmooth && stdv == 0 ==> result == variation
    ensures updateSmooth ==> forall index :: 0 <= index < |result| ==>
              var aux := Embedded(variation, nz, nx, ny, samples);
              var auxNz, auxNx, auxNy := Padded(nz, samples), Padded(nx, samples), Padded(ny, samples);
              var p := PadIndex(index, nz, nx, ny, samples);
              Interior(Decompose(p, auxNz, auxNx, auxNy), auxNz, auxNx, auxNy, samples)
              && result[index] == Accumulate(aux, Kernel(samples, stdv, gaussian), Decompose(p, auxNz, auxNx, auxNy),
                                             auxNz, auxNx, auxNy, samples, KernelSize(samples))
  {
    if !updateSmooth {
      return variation;
    }
    var auxNx := Padded(nx, samples);
    var auxNy := Padded(ny, samples);
    var auxNz := Padded(nz, samples);
    var aux := Embed(variation, nz, nx, ny, samples);
    var smooth := GaussianSmoothing(aux, auxNx, auxNy, auxNz, samples, stdv, gaussian);
    result := Extract(smooth, nz, nx, ny, samples);
    forall index | 0 <= index < |result|
      ensures Interior(Decompose(PadIndex(index, nz, nx, ny, samples), auxNz, auxNx, auxNy), auxNz, auxNx, auxNy, samples)
    {
      PaddedCellsAreInterior(index, nz, nx, ny, samples);
    }
    if stdv == 0 {
      ZeroStdvIsIdentity(aux, auxNx, auxNy, auxNz, samples, gaussian);
      forall index | 0 <= index < |result|
        ensures result[index] == variation[index]
      {
        ExtractEmbedded(variation, nz, nx, ny, samples, index);
      }
    }
  }
}
