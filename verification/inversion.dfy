/**
  The control logic of the inversion: the convergence state machine, the
  per-shot forward pass, the model update (smoothing, specification
  update, gradient reset, per-iteration export) and the names of the
  files the inversion writes.

  The forward and adjoint solvers, the objective function, the data
  extraction and `update_specifications` are not part of this model: the
  forward pass is modelled as the sequence of calls it makes, and the
  specification update is a parameter.
*/
module Inversion {
  import opened Wrappers
  import opened Strings
  import opened GridIndex
  import Smoothing

  // ---------------------------------------------------------------------
  // Convergence

  /** The inversion's `iteration` counter and `converged` flag. */
  datatype Progress = Progress(iteration: int, converged: bool)

  /**
    `check_convergence`: at or past the last iteration the run is
    converged and the counter stays; otherwise the counter advances and
    the run goes on.
  */
  function CheckConvergence(s: Progress, maxIteration: int): (r: Progress)
    ensures r.converged <==> s.iteration >= maxIteration
    ensures r.converged ==> r.iteration == s.iteration
    ensures !r.converged ==> r.iteration == s.iteration + 1
    ensures s.iteration <= maxIteration ==> r.iteration <= maxIteration
  {
    if s.iteration >= maxIteration then Progress(s.iteration, true)
    else Progress(s.iteration + 1, false)
  }

  /** The state after `k` calls, starting from iteration 0, not converged. */
  function AfterCalls(k: nat, maxIteration: int): Progress
  {
    if k == 0 then Progress(0, false)
    else CheckConvergence(AfterCalls(k - 1, maxIteration), maxIteration)
  }

  /** Each of the first `max_iteration` calls advances the counter and leaves the run going. */
  lemma {:induction false} CallsBeforeLast(k: nat, maxIteration: int)
    requires k <= maxIteration
    ensures AfterCalls(k, maxIteration) == Progress(k, false)
  {
    if k > 0 {
      CallsBeforeLast(k - 1, maxIteration);
    }
  }

  /**
    Starting from 0, the run first converges on call `max_iteration + 1`,
    with the counter at `max_iteration`.
  */
  lemma ConvergesOnLastCall(maxIteration: nat, k: nat)
    ensures AfterCalls(maxIteration + 1, maxIteration) == Progress(maxIteration, true)
    ensures k <= maxIteration ==> !AfterCalls(k, maxIteration).converged
  {
    CallsBeforeLast(maxIteration, maxIteration);
    if k <= maxIteration {
      CallsBeforeLast(k, maxIteration);
    }
  }

  /** Once converged, further checks change nothing. */
  lemma ConvergedIsStable(s: Progress, maxIteration: int)
    requires s.converged && s.iteration >= maxIteration
    ensures CheckConvergence(s, maxIteration) == s
  {
  }

  // ---------------------------------------------------------------------
  // The forward pass

  /** The calls `forward_modeling` makes, in order. */
  datatype Call =
    | SetShotIndex(shot: nat)
    | InitialConditions
    | ForwardPropagation
    | ExtractCalculatedData
    | AdjointPropagation

  /** The calls for one shot; the adjoint runs only when `adjoint` holds. */
  function ShotCalls(shot: nat, adjoint: bool): seq<Call>
  {
    [SetShotIndex(shot), InitialConditions, ForwardPropagation, ExtractCalculatedData]
    + (if adjoint then [AdjointPropagation] else [])
  }

  function CallsPerShot(adjoint: bool): nat
  {
    if adjoint then 5 else 4
  }

  /** The calls for shots `0 .. n-1`, in increasing shot order. */
  function Blocks(n: nat, adjoint: bool): (calls: seq<Call>)
    ensures |calls| == n * CallsPerShot(adjoint)
  {
    if n == 0 then [] else Blocks(n - 1, adjoint) + ShotCalls(n - 1, adjoint)
  }

  /**
    `forward_modeling`: every shot in turn, the adjoint propagation
    included unless this is the final (residual-only) iteration.
  */
  method ForwardModeling(totalShots: int, iteration: int, maxIteration: int) returns (calls: seq<Call>)
    ensures calls == Blocks(if totalShots > 0 then totalShots else 0, iteration != maxIteration)
  {
    calls := [];
    var shot := 0;
    while shot < totalShots
      invariant 0 <= shot && (totalShots > 0 ==> shot <= totalShots) && (totalShots <= 0 ==> shot == 0)
      invariant calls == Blocks(shot, iteration != maxIteration)
    {
      ghost var before := calls;
      calls := calls + [SetShotIndex(shot), InitialConditions, ForwardPropagation, ExtractCalculatedData];
      if iteration != maxIteration {
        calls := calls + [AdjointPropagation];
      }
      assert calls == before + ShotCalls(shot, iteration != maxIteration);
      shot := shot + 1;
    }
  }

  lemma MulStep(s: nat, len: nat)
    ensures (s + 1) * len == s * len + len
  {
  }

  /**
    Shot `s`'s calls occupy one block of the trace, after every earlier
    shot's block: the shot index is set before its propagation.
  */
  lemma {:induction false} ShotBlock(n: nat, adjoint: bool, s: nat)
    requires s < n
    ensures var len := CallsPerShot(adjoint);
            (s + 1) * len <= |Blocks(n, adjoint)|
            && Blocks(n, adjoint)[s * len..(s + 1) * len] == ShotCalls(s, adjoint)
  {
    var len := CallsPerShot(adjoint);
    var prev := Blocks(n - 1, adjoint);
    assert Blocks(n, adjoint) == prev + ShotCalls(n - 1, adjoint);
    MulStep(s, len);
    if s < n - 1 {
      ShotBlock(n - 1, adjoint, s);
      MulMonoLeft(s + 1, n - 1, len);
      SliceInFront(prev, ShotCalls(n - 1, adjoint), s * len, (s + 1) * len);
    } else {
      assert |prev| == s * len;
      SliceBehind(prev, ShotCalls(n - 1, adjoint));
    }
  }

  lemma SliceInFront<T>(a: seq<T>, b: seq<T>, lo: int, hi: int)
    requires 0 <= lo <= hi <= |a|
    ensures (a + b)[lo..hi] == a[lo..hi]
  {
  }

  lemma SliceBehind<T>(a: seq<T>, b: seq<T>)
    ensures (a + b)[|a|..|a| + |b|] == b
  {
  }

  /** An adjoint propagation happens exactly when there is a shot and this is not the final iteration. */
  lemma {:induction false} AdjointIff(n: nat, adjoint: bool)
    ensures AdjointPropagation in Blocks(n, adjoint) <==> adjoint && n > 0
  {
    if n > 0 {
      AdjointIff(n - 1, adjoint);
      assert Blocks(n, adjoint) == Blocks(n - 1, adjoint) + ShotCalls(n - 1, adjoint);
      if adjoint {
        assert ShotCalls(n - 1, adjoint)[4] == AdjointPropagation;
      }
    }
  }

  // ---------------------------------------------------------------------
  // Model update

  /** The gradient reset of `model_update`: every entry becomes 0. */
  method ResetGradient(gradient: seq<real>) returns (reset: seq<real>)
    ensures |reset| == |gradient|
    ensures forall i :: 0 <= i < |reset| ==> reset[i] == 0.0
  {
    reset := gradient;
    for index := 0 to |gradient|
      invariant |reset| == |gradient|
      invariant forall i :: 0 <= i < index ==> reset[i] == 0.0
    {
      reset := reset[index := 0.0];
    }
  }

  /** What `model_update` leaves behind. */
  datatype Updated = Updated(variation: seq<real>, model: seq<real>, gradient: seq<real>, exported: Option<string>)

  /**
    `model_update`: smoothing of the variation, the specification update
    (`specify`, taking the model and the variation), the gradient reset
    and, when enabled, the export of the model under the per-iteration name.
  */
  method ModelUpdate(variation: seq<real>, model: seq<real>, gradient: seq<real>,
                     nz: nat, nx: nat, ny: nat,
                     updateSmooth: bool, samples: nat, stdv: int, gaussian: seq<real>,
                     specify: (seq<real>, seq<real>) -> seq<real>,
                     exportPerIteration: bool, folder: string, iteration: int)
    returns (u: Updated)
    requires |variation| == Count(nz, nx, ny) && |gradient| == Count(nz, nx, ny)
    requires updateSmooth ==> samples >= 1 && |gaussian| == Smoothing.KernelSize(samples)
    ensures |u.variation| == |variation|
    ensures !updateSmooth || stdv == 0 ==> u.variation == variation
    ensures u.model == specify(model, u.variation)
    ensures |u.gradient| == Count(nz, nx, ny) && forall i :: 0 <= i < |u.gradient| ==> u.gradient[i] == 0.0
    ensures u.exported.Some? <==> exportPerIteration
    ensures exportPerIteration ==> ParseModelIterationPath(folder, u.exported.value) == Some((iteration, nz, nx, ny))
  {
    var smoothed := Smoothing.UpdateSmoothing(variation, updateSmooth, nz, nx, ny, samples, stdv, gaussian);
    var updated := specify(model, smoothed);
    var reset := ResetGradient(gradient);
    var exported := None;
    if exportPerIteration {
      exported := Some(ModelIterationPath(folder, iteration, nz, nx, ny));
      ModelIterationPathRoundTrip(folder, iteration, nz, nx, ny);
    }
    u := Updated(smoothed, updated, reset, exported);
  }

  // ---------------------------------------------------------------------
  // File names

  /** `<nz>x<nx>x<ny>`. */
  function Dims(nz: int, nx: int, ny: int): string
  {
    IntString(nz) + "x" + IntString(nx) + "x" + IntString(ny)
  }

  /** A path that starts with `folder`, ends with `extension` and has a non-empty name between them. */
  predicate InFolder(path: string, folder: string, extension: string)
  {
    |path| > |folder| + |extension| && path[..|folder|] == folder && path[|path| - |extension|..] == extension
  }

  /** `<folder>model_iteration_<iteration>_<nz>x<nx>x<ny>.bin`: a binary file inside `folder`. */
  function ModelIterationPath(folder: string, iteration: int, nz: int, nx: int, ny: int): (path: string)
    ensures InFolder(path, folder, ".bin")
  {
    folder + "model_iteration_" + IntString(iteration) + "_" + IntString(nz) + "x" + IntString(nx) + "x" + IntString(ny) + ".bin"
  }

  /** `<folder>final_model_<nz>x<nx>x<ny>.bin`: a binary file inside `folder`. */
  function FinalModelPath(folder: string, nz: int, nx: int, ny: int): (path: string)
    ensures InFolder(path, folder, ".bin")
  {
    folder + "final_model_" + IntString(nz) + "x" + IntString(nx) + "x" + IntString(ny) + ".bin"
  }

  /** `<folder>convergence_<iteration>_iterations.txt`: a text file inside `folder`. */
  function ConvergencePath(folder: string, iteration: int): (path: string)
    ensures InFolder(path, folder, ".txt")
  {
    folder + "convergence_" + IntString(iteration) + "_iterations.txt"
  }

  /** The middle of `s` between a given prefix and suffix, if it has both. */
  function Strip(s: string, prefix: string, suffix: string): (body: Option<string>)
    ensures body.Some? ==> s == prefix + body.value + suffix
  {
    if |s| >= |prefix| + |suffix| && s[..|prefix|] == prefix && s[|s| - |suffix|..] == suffix
    then
      var body := s[|prefix|..|s| - |suffix|];
      assert s == s[..|prefix|] + body + s[|s| - |suffix|..];
      Some(body)
    else None
  }

  lemma StripJoined(prefix: string, body: string, suffix: string)
    ensures Strip(prefix + body + suffix, prefix, suffix) == Some(body)
  {
    var s := prefix + body + suffix;
    assert s[..|prefix|] == prefix;
    assert s[|s| - |suffix|..] == suffix;
    assert s[|prefix|..|s| - |suffix|] == body;
  }

  function ParseDims(s: string): Option<(int, int, int)>
  {
    match CutAt(s, 'x')
    case None => None
    case Some(first) =>
      match CutAt(first.1, 'x')
      case None => None
      case Some(second) =>
        match (ParseInt(first.0), ParseInt(second.0), ParseInt(second.1))
        case (Some(nz), Some(nx), Some(ny)) => Some((nz, nx, ny))
        case _ => None
  }

  /** A rendered integer has no letters and no underscore. */
  lemma NoSeparator(i: int, c: char)
    requires c == 'x' || c == '_'
    ensures forall k :: 0 <= k < |IntString(i)| ==> IntString(i)[k] != c
  {
  }

  lemma DimsRoundTrip(nz: int, nx: int, ny: int)
    ensures ParseDims(Dims(nz, nx, ny)) == Some((nz, nx, ny))
  {
    var rest := IntString(nx) + "x" + IntString(ny);
    assert Dims(nz, nx, ny) == IntString(nz) + ['x'] + rest;
    NoSeparator(nz, 'x');
    CutAtJoined(IntString(nz), 'x', rest);
    assert rest == IntString(nx) + ['x'] + IntString(ny);
    NoSeparator(nx, 'x');
    CutAtJoined(IntString(nx), 'x', IntString(ny));
    IntStringRoundTrip(nz);
    IntStringRoundTrip(nx);
    IntStringRoundTrip(ny);
  }

  /** Reads the iteration and the dimensions back from a per-iteration model name. */
  function ParseModelIterationPath(folder: string, path: string): Option<(int, int, int, int)>
  {
    match Strip(path, folder + "model_iteration_", ".bin")
    case None => None
    case Some(body) =>
      match CutAt(body, '_')
      case None => None
      case Some(parts) =>
        match (ParseInt(parts.0), ParseDims(parts.1))
        case (Some(iteration), Some(dims)) => Some((iteration, dims.0, dims.1, dims.2))
        case _ => None
  }

  /** The per-iteration name determines the iteration and the dimensions. */
  lemma ModelIterationPathRoundTrip(folder: string, iteration: int, nz: int, nx: int, ny: int)
    ensures ParseModelIterationPath(folder, ModelIterationPath(folder, iteration, nz, nx, ny))
            == Some((iteration, nz, nx, ny))
  {
    var head := folder + "model_iteration_";
    var body := IntString(iteration) + ['_'] + Dims(nz, nx, ny);
    ModelIterationPathShape(folder, iteration, nz, nx, ny);
    StripJoined(head, body, ".bin");
    NoSeparator(iteration, '_');
    CutAtJoined(IntString(iteration), '_', Dims(nz, nx, ny));
    IntStringRoundTrip(iteration);
    DimsRoundTrip(nz, nx, ny);
  }

  /** The per-iteration name is the folder and prefix, the iteration, '_', the dimensions and ".bin". */
  lemma ModelIterationPathShape(folder: string, iteration: int, nz: int, nx: int, ny: int)
    ensures ModelIterationPath(folder, iteration, nz, nx, ny)
            == (folder + "model_iteration_") + (IntString(iteration) + ['_'] + Dims(nz, nx, ny)) + ".bin"
  {
    var dims := Dims(nz, nx, ny);
    assert dims == IntString(nz) + "x" + IntString(nx) + "x" + IntString(ny);
  }

  /** Reads the dimensions back from a final model name. */
  function ParseFinalModelPath(folder: string, path: string): Option<(int, int, int)>
  {
    match Strip(path, folder + "final_model_", ".bin")
    case None => None
    case Some(body) => ParseDims(body)
  }

  lemma FinalModelPathRoundTrip(folder: string, nz: int, nx: int, ny: int)
    ensures ParseFinalModelPath(folder, FinalModelPath(folder, nz, nx, ny)) == Some((nz, nx, ny))
  {
    var head := folder + "final_model_";
    assert FinalModelPath(folder, nz, nx, ny) == head + Dims(nz, nx, ny) + ".bin";
    StripJoined(head, Dims(nz, nx, ny), ".bin");
    DimsRoundTrip(nz, nx, ny);
  }

  /** Reads the iteration count back from a convergence file name. */
  function ParseConvergencePath(folder: string, path: string): Option<int>
  {
    match Strip(path, folder + "convergence_", "_iterations.txt")
    case None => None
    case Some(body) => ParseInt(body)
  }

  lemma ConvergencePathRoundTrip(folder: string, iteration: int)
    ensures ParseConvergencePath(folder, ConvergencePath(folder, iteration)) == Some(iteration)
  {
    StripJoined(folder + "convergence_", IntString(iteration), "_iterations.txt");
    IntStringRoundTrip(iteration);
  }

  /** Runs with different iterations or dimensions never overwrite each other's models. */
  lemma ModelIterationPathsDistinct(folder: string, a: (int, int, int, int), b: (int, int, int, int))
    requires a != b
    ensures ModelIterationPath(folder, a.0, a.1, a.2, a.3) != ModelIterationPath(folder, b.0, b.1, b.2, b.3)
  {
    ModelIterationPathRoundTrip(folder, a.0, a.1, a.2, a.3);
    ModelIterationPathRoundTrip(folder, b.0, b.1, b.2, b.3);
  }

  // ---------------------------------------------------------------------
  // The convergence text file

  /** One line per residual, each value rendered by `render` and ended by a newline. */
  function ResidualLines(residuals: seq<real>, render: real -> string): (lines: seq<string>)
    ensures |lines| == |residuals|
  {
    seq(|residuals|, r requires 0 <= r < |residuals| => render(residuals[r]) + "\n")
  }

  predicate NoNewline(s: string)
  {
    forall j :: 0 <= j < |s| ==> s[j] != '\n'
  }

  /**
    The residual history written by `export_results` is read back one
    residual per line, in order, whenever a rendered value holds no newline.
  */
  lemma ResidualsReadBack(residuals: seq<real>, render: real -> string)
    requires forall x: real :: NoNewline(render(x))
    ensures var lines := ReadLines(Concat(ResidualLines(residuals, render)));
            |lines| == |residuals|
            && forall r :: 0 <= r < |residuals| ==> lines[r] == render(residuals[r]) + "\n"
  {
    var lines := ResidualLines(residuals, render);
    forall i | 0 <= i < |lines|
      ensures |lines[i]| > 0 && lines[i][|lines[i]| - 1] == '\n'
      ensures forall j :: 0 <= j < |lines[i]| - 1 ==> lines[i][j] != '\n'
    {
      var x := residuals[i];
      var text := render(x);
      assert NoNewline(text);
      assert lines[i] == text + "\n";
      TerminatedLine(text);
    }
    ReadLinesOfLines(lines);
  }

  /** A newline-free text followed by a newline is one terminated line. */
  lemma TerminatedLine(text: string)
    requires NoNewline(text)
    ensures |text + "\n"| > 0 && (text + "\n")[|text + "\n"| - 1] == '\n'
    ensures forall j :: 0 <= j < |text + "\n"| - 1 ==> (text + "\n")[j] != '\n'
  {
    forall j | 0 <= j < |text + "\n"| - 1
      ensures (text + "\n")[j] != '\n'
    {
      assert (text + "\n")[j] == text[j];
    }
  }
}
