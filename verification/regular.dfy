/**
  The regular layout's `set_geometry`: either the coordinates are
  imported, or the shot lattice and then the node lattice are built from
  the configured `nlines`/`SW`/`NW`/`SE` lists, reciprocity optionally
  swaps the roles, and the relational window and the export follow.
  The lattice builder (`set_regular`), the reciprocity swap, the import and
  the export are not part of this model: they are parameters here, and the
  builder sees the accumulated lists as they stand when it is called.
*/
module Regular {
  import opened Geometry

  /** The trace of a synthesising run. */
  function Trace(reciprocity: bool, shotsLists: Lattice, nodesLists: Lattice): seq<Phase>
  {
    [BuildRegular(Shots, shotsLists), BuildRegular(Nodes, nodesLists)]
    + (if reciprocity then [ApplyReciprocity] else [])
    + [BuildRelational, ExportCoordinates]
  }

  /**
    `set_geometry`.  The four lists are only ever appended to, so the node
    pass sees the shot entries followed by the node entries; the relational
    window is built from the totals left after reciprocity.
  */
  method SetGeometry(importGeometry: bool, reciprocity: bool, imported: Layout,
                     ints: string -> seq<int>, reals: string -> seq<real>,
                     setRegular: Lattice -> Coordinates,
                     swap: (Coordinates, Coordinates) -> (Coordinates, Coordinates))
    returns (layout: Layout, lists: Lattice, trace: seq<Phase>)
    ensures importGeometry ==> layout == imported && lists == NoLattice && trace == [ImportCoordinates]
    ensures !importGeometry ==>
              var shotsLists := Read(ints, reals, "shots");
              var both := Append(shotsLists, Read(ints, reals, "nodes"));
              var built := (setRegular(shotsLists), setRegular(both));
              var final := if reciprocity then swap(built.0, built.1) else built;
              && lists == both
              && trace == Trace(reciprocity, shotsLists, both)
              && layout.shots == final.0 && layout.nodes == final.1
              && EveryNodeWindow(layout.rel, layout.shots.total, layout.nodes.total)
    ensures !importGeometry ==>
              && trace[0] == BuildRegular(Shots, Lattice(ints("shots_nlines"), reals("shots_SW"),
                                                         reals("shots_NW"), reals("shots_SE")))
              && lists.nlines == ints("shots_nlines") + ints("nodes_nlines")
              && lists.sw == reals("shots_SW") + reals("nodes_SW")
              && lists.nw == reals("shots_NW") + reals("nodes_NW")
              && lists.se == reals("shots_SE") + reals("nodes_SE")
  {
    if importGeometry {
      lists := NoLattice;
      layout := imported;
      trace := [ImportCoordinates];
      return;
    }
    var shots, nodes;
    lists, shots, nodes, trace := GroupPasses(ints, reals, setRegular);
    if reciprocity {
      var swapped := swap(shots, nodes);
      shots, nodes := swapped.0, swapped.1;
      trace := trace + [ApplyReciprocity];
    }
    var rel := SetRelational(shots.total, nodes.total);
    trace := trace + [BuildRelational];
    layout := Layout(shots, nodes, rel);
    trace := trace + [ExportCoordinates];
  }

  /**
    The loop over the two groups, "shots" then "nodes": each pass appends
    the group's configured entries to the shared lists and hands the lists
    as they stand to the lattice builder.  The shot lattice is built from
    the `shots_` entries alone; the node lattice from the shot entries
    followed by the node entries, key by key.
  */
  method GroupPasses(ints: string -> seq<int>, reals: string -> seq<real>, setRegular: Lattice -> Coordinates)
    returns (lists: Lattice, shots: Coordinates, nodes: Coordinates, trace: seq<Phase>)
    ensures var shotsLists := Read(ints, reals, "shots");
            var both := Append(shotsLists, Read(ints, reals, "nodes"));
            && lists == both && shots == setRegular(shotsLists) && nodes == setRegular(both)
            && trace == [BuildRegular(Shots, shotsLists), BuildRegular(Nodes, both)]
    ensures && trace[0] == BuildRegular(Shots, Lattice(ints("shots_nlines"), reals("shots_SW"),
                                                       reals("shots_NW"), reals("shots_SE")))
            && lists.nlines == ints("shots_nlines") + ints("nodes_nlines")
            && lists.sw == reals("shots_SW") + reals("nodes_SW")
            && lists.nw == reals("shots_NW") + reals("nodes_NW")
            && lists.se == reals("shots_SE") + reals("nodes_SE")
  {
    var shotsLists := Read(ints, reals, "shots");
    var both := Append(shotsLists, Read(ints, reals, "nodes"));
    assert && shotsLists == Lattice(ints("shots_nlines"), reals("shots_SW"), reals("shots_NW"), reals("shots_SE"))
           && both == Lattice(ints("shots_nlines") + ints("nodes_nlines"), reals("shots_SW") + reals("nodes_SW"),
                              reals("shots_NW") + reals("nodes_NW"), reals("shots_SE") + reals("nodes_SE")) by {
      assert "shots" + "_nlines" == "shots_nlines" && "nodes" + "_nlines" == "nodes_nlines";
      assert "shots" + "_SW" == "shots_SW" && "nodes" + "_SW" == "nodes_SW";
      assert "shots" + "_NW" == "shots_NW" && "nodes" + "_NW" == "nodes_NW";
      assert "shots" + "_SE" == "shots_SE" && "nodes" + "_SE" == "nodes_SE";
    }
    lists := NoLattice;
    trace := [];
    shots, nodes := NoCoordinates, NoCoordinates;
    var names := ["shots", "nodes"];
    for t := 0 to |names|
      invariant t == 0 ==> lists == NoLattice && trace == []
      invariant t == 1 ==> lists == shotsLists && trace == [BuildRegular(Shots, shotsLists)]
                           && shots == setRegular(shotsLists)
      invariant t == 2 ==> lists == both && trace == [BuildRegular(Shots, shotsLists), BuildRegular(Nodes, both)]
                           && shots == setRegular(shotsLists) && nodes == setRegular(both)
    {
      var name := names[t];
      assert NoLattice.nlines + shotsLists.nlines == shotsLists.nlines;
      assert NoLattice.sw + shotsLists.sw == shotsLists.sw;
      assert NoLattice.nw + shotsLists.nw == shotsLists.nw;
      assert NoLattice.se + shotsLists.se == shotsLists.se;
      lists := Append(lists, Read(ints, reals, name));
      if name == "shots" {
        shots := setRegular(lists);
        trace := trace + [BuildRegular(Shots, lists)];
      }
      if name == "nodes" {
        nodes := setRegular(lists);
        trace := trace + [BuildRegular(Nodes, lists)];
      }
    }
  }

  /** A synthesising run keeps the setup order whether or not reciprocity runs. */
  lemma TraceOrdered(reciprocity: bool, shotsLists: Lattice, nodesLists: Lattice)
    ensures SynthesisOrder(Trace(reciprocity, shotsLists, nodesLists))
    ensures IndexOf(Trace(reciprocity, shotsLists, nodesLists), BuildRegular(Shots, shotsLists)) == 0
  {
    var trace := Trace(reciprocity, shotsLists, nodesLists);
    var r := if reciprocity then 3 else 2;
    assert trace[r] == BuildRelational;
    assert IndexOf(trace, BuildRelational) == r;
    if reciprocity {
      assert trace[2] == ApplyReciprocity;
      assert IndexOf(trace, ApplyReciprocity) == 2;
    } else {
      assert ApplyReciprocity !in trace;
    }
    assert BuildCircular !in trace;
    assert trace[..|trace| - 1] == trace[..r + 1];
  }
}
