/** `pcolor_helper` (artists.py:444-466): cell edges for a pseudocolour
    plot.

    Each 1-D axis of `n` sample points becomes `n + 1` cell edges. Interior
    edges are midpoints of neighbouring samples. The first edge lies one
    full step before the first sample, and the last edge one full step after
    the last sample. The two edge lists are then spread over a grid, and the
    data array is passed through untouched. An axis with fewer than two
    points makes Python raise an IndexError. */
module Pcolor {
  import opened Results

  /** The IndexError of an axis with fewer than two points. */
  datatype PcolorError = AxisTooShort

  /** `[X, Y, Z]` as handed to the plotting call. */
  datatype Mesh = Mesh(x: seq<seq<real>>, y: seq<seq<real>>, z: seq<seq<real>>)

  /** Edge `j` of `axis`, as the loop body computes it. */
  function Edge(axis: seq<real>, j: nat): real
    requires |axis| >= 2 && j <= |axis|
  {
    if j == 0 then axis[0] - (axis[1] - axis[0])
    else if j == |axis| then axis[|axis| - 1] + (axis[|axis| - 1] - axis[|axis| - 2])
    else (axis[j] + axis[j - 1]) / 2.0
  }

  /** The edge loop of `pcolor_helper` for one axis: fills a zeroed array of
      `len(axis) + 1` points front to back. */
  method CellEdges(axis: seq<real>) returns (r: Result<seq<real>, PcolorError>)
    ensures r.Failure? <==> |axis| < 2
    ensures r.Success? ==>
      && |r.value| == |axis| + 1
      && r.value[0] == axis[0] - (axis[1] - axis[0])
      && r.value[|axis|] == axis[|axis| - 1] + (axis[|axis| - 1] - axis[|axis| - 2])
      && forall j :: 0 < j < |axis| ==> r.value[j] == (axis[j - 1] + axis[j]) / 2.0
  {
    if |axis| < 2 {
      return Failure(AxisTooShort);
    }
    var points := seq(|axis| + 1, _ => 0.0);
    var j := 0;
    while j < |points|
      invariant |points| == |axis| + 1
      invariant 0 <= j <= |points|
      invariant forall k :: 0 <= k < j ==> points[k] == Edge(axis, k)
    {
      if j == 0 {
        points := points[j := axis[0] - (axis[1] - axis[0])];
      } else if j == |points| - 1 {
        points := points[j := axis[|axis| - 1] + (axis[|axis| - 1] - axis[|axis| - 2])];
      } else {
        points := points[j := (axis[j] + axis[j - 1]) / 2.0];
      }
      j := j + 1;
    }
    return Success(points);
  }

  /** `np.meshgrid(xs, ys)`: `X` repeats `xs` once per entry of `ys`, and
      `Y` repeats each entry of `ys` across a row. */
  function Meshgrid(xs: seq<real>, ys: seq<real>): (m: (seq<seq<real>>, seq<seq<real>>))
    ensures |m.0| == |ys| && |m.1| == |ys|
    ensures forall i :: 0 <= i < |ys| ==> |m.0[i]| == |xs| && |m.1[i]| == |xs|
    ensures forall i, j :: 0 <= i < |ys| && 0 <= j < |xs| ==> m.0[i][j] == xs[j] && m.1[i][j] == ys[i]
  {
    (seq(|ys|, _ => xs), seq(|ys|, i requires 0 <= i < |ys| => seq(|xs|, _ => ys[i])))
  }

  /** `pcolor_helper`: the x axis is converted first, so a short x axis
      raises before the y axis is looked at; on success the grid holds the
      x edges along every row and the y edges down every column, and `zi`
      comes back unchanged. */
  method PcolorHelper(xi: seq<real>, yi: seq<real>, zi: seq<seq<real>>) returns (r: Result<Mesh, PcolorError>)
    ensures r.Failure? <==> |xi| < 2 || |yi| < 2
    ensures r.Success? ==>
      && r.value.z == zi
      && |r.value.x| == |yi| + 1 && |r.value.y| == |yi| + 1
      && forall i :: 0 <= i <= |yi| ==>
           && |r.value.x[i]| == |xi| + 1 && |r.value.y[i]| == |xi| + 1
           && forall j :: 0 <= j <= |xi| ==> r.value.x[i][j] == Edge(xi, j) && r.value.y[i][j] == Edge(yi, i)
  {
    var xs := CellEdges(xi);
    if xs.Failure? {
      return Failure(xs.error);
    }
    var ys := CellEdges(yi);
    if ys.Failure? {
      return Failure(ys.error);
    }
    assert forall j :: 0 <= j <= |xi| ==> xs.value[j] == Edge(xi, j);
    assert forall i :: 0 <= i <= |yi| ==> ys.value[i] == Edge(yi, i);
    var m := Meshgrid(xs.value, ys.value);
    return Success(Mesh(m.0, m.1, zi));
  }

  // ------------------------------------------------------------ properties

  predicate StrictlyIncreasing(axis: seq<real>)
  {
    forall i :: 0 < i < |axis| ==> axis[i - 1] < axis[i]
  }

  /** Equal steps between neighbouring samples. */
  predicate EvenlySpaced(axis: seq<real>)
  {
    forall i :: 0 < i < |axis| - 1 ==> axis[i + 1] - axis[i] == axis[i] - axis[i - 1]
  }

  /** On a strictly increasing axis every sample lies strictly inside its
      cell, so the cells follow the samples in order and do not overlap. */
  lemma SamplesInsideCells(axis: seq<real>)
    requires |axis| >= 2 && StrictlyIncreasing(axis)
    ensures forall j :: 0 <= j < |axis| ==> Edge(axis, j) < axis[j] < Edge(axis, j + 1)
  {
  }

  /** On an evenly spaced axis every interior cell is centred on its
      sample. */
  lemma InteriorCellsCentred(axis: seq<real>)
    requires |axis| >= 2 && EvenlySpaced(axis)
    ensures forall j :: 0 < j < |axis| - 1 ==> (Edge(axis, j) + Edge(axis, j + 1)) / 2.0 == axis[j]
  {
  }

  /** The two end cells are not centred: on an evenly spaced axis with step
      `d` their centres sit `d/4` outside (beyond) the end samples. */
  lemma EndCellsOffCentre(axis: seq<real>)
    requires |axis| >= 2 && EvenlySpaced(axis)
    ensures var d := axis[1] - axis[0];
      && (Edge(axis, 0) + Edge(axis, 1)) / 2.0 == axis[0] - d / 4.0
      && (Edge(axis, |axis| - 1) + Edge(axis, |axis|)) / 2.0 == axis[|axis| - 1] + d / 4.0
  {
    StepsEqual(axis, |axis| - 1);
  }

  lemma {:induction false} StepsEqual(axis: seq<real>, i: nat)
    requires EvenlySpaced(axis) && 0 < i < |axis|
    ensures axis[i] - axis[i - 1] == axis[1] - axis[0]
  {
    if i > 1 {
      StepsEqual(axis, i - 1);
    }
  }

  /** The smallest axis shows it: samples 0 and 1 give the first cell
      [-1, 0.5], centred on -0.25 instead of 0. */
  lemma FirstCellOffCentreExample()
    ensures Edge([0.0, 1.0], 0) == -1.0 && Edge([0.0, 1.0], 1) == 0.5
    ensures (Edge([0.0, 1.0], 0) + Edge([0.0, 1.0], 1)) / 2.0 != 0.0
  {
  }

  /** Edges that centre every cell: the ends are extrapolated by half a
      step, not a whole one. */
  function CentredEdge(axis: seq<real>, j: nat): real
    requires |axis| >= 2 && j <= |axis|
  {
    if j == 0 then axis[0] - (axis[1] - axis[0]) / 2.0
    else if j == |axis| then axis[|axis| - 1] + (axis[|axis| - 1] - axis[|axis| - 2]) / 2.0
    else (axis[j] + axis[j - 1]) / 2.0
  }

  /** With the half-step ends every cell of an evenly spaced axis is centred
      on its sample. */
  lemma CentredEdgesCentred(axis: seq<real>)
    requires |axis| >= 2 && EvenlySpaced(axis)
    ensures forall j :: 0 <= j < |axis| ==> (CentredEdge(axis, j) + CentredEdge(axis, j + 1)) / 2.0 == axis[j]
  {
    StepsEqual(axis, |axis| - 1);
    forall j | 0 <= j < |axis|
      ensures (CentredEdge(axis, j) + CentredEdge(axis, j + 1)) / 2.0 == axis[j]
    {
      if 0 < j < |axis| - 1 {
        assert axis[j + 1] - axis[j] == axis[j] - axis[j - 1];
      }
    }
  }

  /** With the half-step ends every sample of a strictly increasing axis
      still lies strictly inside its cell. */
  lemma CentredSamplesInsideCells(axis: seq<real>)
    requires |axis| >= 2 && StrictlyIncreasing(axis)
    ensures forall j :: 0 <= j < |axis| ==> CentredEdge(axis, j) < axis[j] < CentredEdge(axis, j + 1)
  {
  }
}
