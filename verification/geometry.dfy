/**
  What the regular and circular acquisition layouts share: the shot and
  node coordinate sets, the relational window that says which nodes record
  each shot (`beg_relation[shot]` up to `end_relation[shot]`), the lattice
  lists read from the configuration, and the phases a layout's setup runs.
*/
module Geometry {

  /** A coordinate set: `total` positions held in parallel x, y and z arrays. */
  datatype Coordinates = Coordinates(total: nat, x: seq<real>, y: seq<real>, z: seq<real>)

  predicate WellFormed(c: Coordinates)
  {
    |c.x| == c.total && |c.y| == c.total && |c.z| == c.total
  }

  /** The set a layout has not built yet. */
  const NoCoordinates := Coordinates(0, [], [], [])

  /** Per-shot node windows: shot `s` is recorded by nodes `beg[s] .. end[s] - 1`. */
  datatype Relational = Relational(beg: seq<int>, end: seq<int>)

  /** Both layouts' default: one window per shot, each spanning every node. */
  predicate EveryNodeWindow(rel: Relational, shotsTotal: nat, nodesTotal: int)
  {
    |rel.beg| == shotsTotal && |rel.end| == shotsTotal
    && forall s :: 0 <= s < shotsTotal ==> rel.beg[s] == 0 && rel.end[s] == nodesTotal
  }

  /** Node `n` records shot `s`. */
  predicate Records(rel: Relational, s: int, n: int)
    requires 0 <= s < |rel.beg| && |rel.end| == |rel.beg|
  {
    rel.beg[s] <= n < rel.end[s]
  }

  /**
    `set_relational`: arrays of `shots.total` entries, zero-initialised by
    `new int[]()`, then filled shot by shot with the window `0 .. nodes.total`.
  */
  method SetRelational(shotsTotal: nat, nodesTotal: int) returns (rel: Relational)
    ensures EveryNodeWindow(rel, shotsTotal, nodesTotal)
  {
    var beg := seq(shotsTotal, _ => 0);
    var end := seq(shotsTotal, _ => 0);
    for shot := 0 to shotsTotal
      invariant |beg| == shotsTotal && |end| == shotsTotal
      invariant forall s :: 0 <= s < shot ==> beg[s] == 0 && end[s] == nodesTotal
    {
      beg := beg[shot := 0];
      end := end[shot := nodesTotal];
    }
    rel := Relational(beg, end);
  }

  /**
    With a non-negative node count every window is well ordered,
    `0 <= beg <= end == nodes.total`, and every node records every shot.
  */
  lemma WindowCoversEveryNode(rel: Relational, shotsTotal: nat, nodesTotal: int, s: int, n: int)
    requires EveryNodeWindow(rel, shotsTotal, nodesTotal) && nodesTotal >= 0
    requires 0 <= s < shotsTotal
    ensures 0 <= rel.beg[s] <= rel.end[s] == nodesTotal
    ensures Records(rel, s, n) <==> 0 <= n < nodesTotal
  {
  }

  /** The `nlines`, `SW`, `NW` and `SE` lists a layout reads from its configuration. */
  datatype Lattice = Lattice(nlines: seq<int>, sw: seq<real>, nw: seq<real>, se: seq<real>)

  const NoLattice := Lattice([], [], [], [])

  /** Appending one group's entries to every list (`push_back` on each). */
  function Append(l: Lattice, more: Lattice): Lattice
  {
    Lattice(l.nlines + more.nlines, l.sw + more.sw, l.nw + more.nw, l.se + more.se)
  }

  /**
    The values configured for a group (`shots` or `nodes`): the
    comma-separated `<name>_nlines`, `<name>_SW`, `<name>_NW` and
    `<name>_SE` entries, already converted by `stoi`/`stof`.
  */
  function Read(ints: string -> seq<int>, reals: string -> seq<real>, name: string): Lattice
  {
    Lattice(ints(name + "_nlines"), reals(name + "_SW"), reals(name + "_NW"), reals(name + "_SE"))
  }

  datatype Target = Shots | Nodes

  /** A phase of a layout's setup, in the order it ran. */
  datatype Phase =
    | ImportCoordinates
    | BuildCircular
    | BuildRegular(target: Target, lists: Lattice)
    | ApplyReciprocity
    | BuildRelational
    | ExportCoordinates

  /** The shot and node sets after the optional reciprocity swap. */
  function Reciprocal(reciprocity: bool, swap: (Coordinates, Coordinates) -> (Coordinates, Coordinates),
                      shots: Coordinates, nodes: Coordinates): (Coordinates, Coordinates)
  {
    if reciprocity then swap(shots, nodes) else (shots, nodes)
  }

  /** The outcome of `set_geometry`. */
  datatype Layout = Layout(shots: Coordinates, nodes: Coordinates, rel: Relational)

  /** Position of the first occurrence of `p` in `trace`, or `|trace|`. */
  function IndexOf(trace: seq<Phase>, p: Phase): (i: nat)
    ensures i <= |trace|
    ensures i < |trace| ==> trace[i] == p
    ensures forall j :: 0 <= j < i ==> trace[j] != p
  {
    if |trace| == 0 then 0
    else if trace[0] == p then 0
    else 1 + IndexOf(trace[1..], p)
  }

  /**
    The order a synthesising setup keeps: the coordinate sets exist before
    reciprocity, reciprocity (when it runs) comes before the relational
    window, and export is last.
  */
  predicate SynthesisOrder(trace: seq<Phase>)
  {
    ImportCoordinates !in trace
    && BuildRelational in trace
    && |trace| > 0 && trace[|trace| - 1] == ExportCoordinates
    && ExportCoordinates !in trace[..|trace| - 1]
    && (forall i :: 0 <= i < |trace| && trace[i].BuildRegular? ==> i < IndexOf(trace, BuildRelational))
    && (BuildCircular in trace ==> IndexOf(trace, BuildCircular) < IndexOf(trace, BuildRelational))
    && (ApplyReciprocity in trace ==>
          IndexOf(trace, ApplyReciprocity) < IndexOf(trace, BuildRelational)
          && (forall i :: 0 <= i < |trace| && (trace[i].BuildRegular? || trace[i] == BuildCircular) ==>
                i < IndexOf(trace, ApplyReciprocity)))
  }
}
