/** The figure-layout arithmetic of `create_figure` (artists.py:86-211):
    absolute column widths, row heights, figure height and the relative
    grid spacings, computed from a width, a row count, a column list of
    weights and colorbar markers, margins, spacings and per-row aspect
    overrides. The figure and grid objects themselves are replaced by the
    `Layout` record that would be handed to them. */
module Layout {
  import opened Results
  import opened RealSeqs
  import Spacing

  /** The `width` argument: a named key or a number of inches. */
  datatype Width = Single | Double | Inches(inches: real)

  /** One entry of `cols`: a relative weight or the string 'cbar'. */
  datatype Col = Weight(w: real) | Cbar

  /** One entry of `aspects`, `[[row, col], aspect]`. `col` indexes the
      content (non-colorbar) columns only. */
  datatype Aspect = Aspect(row: int, col: int, ratio: real)

  datatype Request = Request(
    width: Width,
    nrows: nat,
    cols: seq<Col>,
    margin: real,
    hspace: real,
    wspace: real,
    cbarWidth: real,
    aspects: seq<Aspect>)

  /** What `create_figure` raises or runs into. */
  datatype LayoutError =
    | DuplicateAspectRow   // the explicit `raise Exception(...)`
    | ColumnOutOfRange     // IndexError from `subplot_widths[...]`
    | SpacingUndefined     // a zero denominator in `in_to_mpl`

  /** The figure size and the GridSpec arguments. */
  datatype Layout = Layout(
    figureWidth: real,
    figureHeight: real,
    nrows: nat,
    ncols: nat,
    widthRatios: seq<real>,
    heightRatios: seq<real>,
    hspace: real,
    wspace: real)

  /** The keyword defaults of `create_figure`. */
  function Defaults(): Request
  {
    Request(Single, 1, [Weight(1.0), Cbar], 1.0, 0.25, 0.25, 0.25, [])
  }

  function FigureWidth(w: Width): real
  {
    match w
    case Double => 14.0
    case Single => 6.5
    case Inches(x) => x
  }

  // ---------------------------------------------------------------- aspects

  /** The set built from `rows_in_aspects`. */
  function RowSet(aspects: seq<Aspect>): set<int>
  {
    if |aspects| == 0 then {} else {aspects[0].row} + RowSet(aspects[1..])
  }

  /** No two aspect entries name the same row. */
  predicate DistinctRows(aspects: seq<Aspect>)
  {
    forall i, j :: 0 <= i < j < |aspects| ==> aspects[i].row != aspects[j].row
  }

  lemma {:induction false} RowSetMembers(aspects: seq<Aspect>, x: int)
    ensures x in RowSet(aspects) <==> exists i :: 0 <= i < |aspects| && aspects[i].row == x
  {
    if |aspects| > 0 {
      RowSetMembers(aspects[1..], x);
      if x in RowSet(aspects[1..]) {
        var i :| 0 <= i < |aspects[1..]| && aspects[1..][i].row == x;
        assert aspects[i + 1].row == x;
      }
      if exists i :: 0 <= i < |aspects| && aspects[i].row == x {
        var i :| 0 <= i < |aspects| && aspects[i].row == x;
        if i > 0 {
          assert aspects[1..][i - 1].row == x;
        }
      }
    }
  }

  /** The source's uniqueness test, `len(rows) == len(set(rows))`, holds
      exactly when no two aspect entries share a row. */
  lemma {:induction false} RowSetSizeIffDistinct(aspects: seq<Aspect>)
    ensures |RowSet(aspects)| <= |aspects|
    ensures |RowSet(aspects)| == |aspects| <==> DistinctRows(aspects)
  {
    if |aspects| > 0 {
      var rest := aspects[1..];
      RowSetSizeIffDistinct(rest);
      RowSetMembers(rest, aspects[0].row);
      if aspects[0].row in RowSet(rest) {
        var i :| 0 <= i < |rest| && rest[i].row == aspects[0].row;
        assert aspects[i + 1].row == aspects[0].row;
        assert RowSet(aspects) == RowSet(rest);
      } else {
        assert |RowSet(aspects)| == 1 + |RowSet(rest)|;
        if DistinctRows(aspects) {
          forall i, j | 0 <= i < j < |rest|
            ensures rest[i].row != rest[j].row
          {
            assert rest[i] == aspects[i + 1] && rest[j] == aspects[j + 1];
          }
        }
        if DistinctRows(rest) {
          forall i, j | 0 <= i < j < |aspects|
            ensures aspects[i].row != aspects[j].row
          {
            if i == 0 {
              assert aspects[j] == rest[j - 1];
            } else {
              assert aspects[i] == rest[i - 1] && aspects[j] == rest[j - 1];
            }
          }
        }
      }
    }
  }

  /** `aspects[rows_in_aspects.index(row)]`, or None when the row has no
      aspect entry. */
  function FindAspect(aspects: seq<Aspect>, row: int): (r: Option<Aspect>)
    ensures r.Some? ==> r.value in aspects && r.value.row == row
    ensures r.Some? ==> exists i :: 0 <= i < |aspects| && aspects[i] == r.value
                                    && forall j :: 0 <= j < i ==> aspects[j].row != row
    ensures r.None? <==> row !in RowSet(aspects)
  {
    if |aspects| == 0 then None
    else if aspects[0].row == row then Some(aspects[0])
    else
      var r := FindAspect(aspects[1..], row);
      if r.Some? then
        assert exists i :: 0 <= i < |aspects| && aspects[i] == r.value
                           && forall j :: 0 <= j < i ==> aspects[j].row != row by {
          FirstIndexShift(aspects, row, r.value);
        }
        r
      else r
  }

  /** The first entry of the tail naming `row`, when the head does not name
      it, is the first such entry of the whole list. */
  lemma FirstIndexShift(aspects: seq<Aspect>, row: int, a: Aspect)
    requires |aspects| > 0 && aspects[0].row != row
    requires exists i :: 0 <= i < |aspects[1..]| && aspects[1..][i] == a
                         && forall j :: 0 <= j < i ==> aspects[1..][j].row != row
    ensures exists i :: 0 <= i < |aspects| && aspects[i] == a
                        && forall j :: 0 <= j < i ==> aspects[j].row != row
  {
    var i :| 0 <= i < |aspects[1..]| && aspects[1..][i] == a
             && forall j :: 0 <= j < i ==> aspects[1..][j].row != row;
    forall j | 0 <= j < i + 1
      ensures aspects[j].row != row
    {
      if j > 0 {
        assert aspects[j] == aspects[1..][j - 1];
      }
    }
    assert aspects[i + 1] == a;
  }

  // ---------------------------------------------------------------- columns

  /** The weights of the content columns, in order (`subplot_ratios` before
      normalisation). */
  function Weights(cols: seq<Col>): seq<real>
  {
    if |cols| == 0 then []
    else if cols[0].Cbar? then Weights(cols[1..])
    else [cols[0].w] + Weights(cols[1..])
  }

  /** `cols.count('cbar')`. */
  function CbarCount(cols: seq<Col>): nat
  {
    if |cols| == 0 then 0
    else (if cols[0].Cbar? then 1 else 0) + CbarCount(cols[1..])
  }

  /** numpy cannot normalise a non-empty weight list that sums to zero
      (it yields inf or nan), so the model requires the sum to be
      non-zero. */
  predicate WeightsNormalisable(cols: seq<Col>)
  {
    |Weights(cols)| == 0 || Sum(Weights(cols)) != 0.0
  }

  /** `total_subplot_width`: what is left for content columns after the
      margins, the inter-column spaces and the colorbars. */
  function ContentWidth(req: Request): real
  {
    FigureWidth(req.width) - 2.0 * req.margin
    - ((|req.cols| - 1) as real) * req.wspace
    - (CbarCount(req.cols) as real) * req.cbarWidth
  }

  /** `total * (w / sum)` for each weight `w`. */
  function Proportional(ws: seq<real>, sum: real, total: real): (r: seq<real>)
    requires sum != 0.0
    ensures |r| == |ws|
  {
    if |ws| == 0 then [] else [total * (ws[0] / sum)] + Proportional(ws[1..], sum, total)
  }

  /** `subplot_widths`: the absolute widths of the content columns, which
      share out the whole content width. */
  function SubplotWidths(req: Request): (r: seq<real>)
    requires WeightsNormalisable(req.cols)
    ensures |r| == |Weights(req.cols)|
    ensures |r| > 0 ==> Sum(r) == ContentWidth(req)
  {
    var ws := Weights(req.cols);
    if |ws| == 0 then []
    else
      var sum := Sum(ws);
      var total := ContentWidth(req);
      SumProportional(ws, sum, total);
      assert sum / sum == 1.0;
      Proportional(ws, sum, total)
  }

  /** Content column `k` gets weight `k`'s share of the content width. */
  lemma SubplotWidthAt(req: Request, k: nat)
    requires WeightsNormalisable(req.cols)
    requires k < |Weights(req.cols)|
    ensures SubplotWidths(req)[k]
            == ContentWidth(req) * (Weights(req.cols)[k] / Sum(Weights(req.cols)))
  {
    ProportionalAt(Weights(req.cols), Sum(Weights(req.cols)), ContentWidth(req), k);
  }

  /** The loop building `width_ratios`: the counter `i` walks the content
      widths while colorbar columns take `cbarWidth`. */
  function WidthRatiosFrom(cols: seq<Col>, widths: seq<real>, cbarWidth: real, i: nat): (r: seq<real>)
    requires i + |Weights(cols)| <= |widths|
    ensures |r| == |cols|
  {
    if |cols| == 0 then []
    else if cols[0].Cbar? then [cbarWidth] + WidthRatiosFrom(cols[1..], widths, cbarWidth, i)
    else [widths[i]] + WidthRatiosFrom(cols[1..], widths, cbarWidth, i + 1)
  }

  /** Reference width of one column: `cbarWidth` for a colorbar, otherwise
      the column's share `w / sum` of `total`. */
  function ColumnWidth(c: Col, total: real, sum: real, cbarWidth: real): real
    requires sum != 0.0
  {
    match c
    case Cbar => cbarWidth
    case Weight(w) => total * (w / sum)
  }

  function ColumnWidths(cols: seq<Col>, total: real, sum: real, cbarWidth: real): (r: seq<real>)
    requires sum != 0.0
    ensures |r| == |cols|
  {
    if |cols| == 0 then []
    else [ColumnWidth(cols[0], total, sum, cbarWidth)] + ColumnWidths(cols[1..], total, sum, cbarWidth)
  }

  lemma {:induction false} SumProportional(ws: seq<real>, sum: real, total: real)
    requires sum != 0.0
    ensures Sum(Proportional(ws, sum, total)) == total * (Sum(ws) / sum)
  {
    if |ws| > 0 {
      var first := total * (ws[0] / sum);
      var rest := Proportional(ws[1..], sum, total);
      assert Proportional(ws, sum, total) == [first] + rest;
      SumCons(first, rest);
      SumProportional(ws[1..], sum, total);
      ShareAdd(total, ws[0], Sum(ws[1..]), Sum(ws), sum);
    }
  }

  /** Shares of a total add like their weights. */
  lemma ShareAdd(total: real, a: real, b: real, c: real, sum: real)
    requires sum != 0.0 && c == a + b
    ensures total * (a / sum) + total * (b / sum) == total * (c / sum)
  {
    assert a / sum + b / sum == c / sum;
  }

  lemma {:induction false} ProportionalAt(ws: seq<real>, sum: real, total: real, k: nat)
    requires sum != 0.0 && k < |ws|
    ensures Proportional(ws, sum, total)[k] == total * (ws[k] / sum)
  {
    if k > 0 {
      ProportionalAt(ws[1..], sum, total, k - 1);
    }
  }

  /** The source's counter-driven loop agrees with the column-by-column
      reference: colorbars get `cbarWidth`, content columns their share. */
  lemma {:induction false} WidthRatiosFromMatch(cols: seq<Col>, widths: seq<real>, cbarWidth: real,
                                                i: nat, total: real, sum: real)
    requires sum != 0.0
    requires i + |Weights(cols)| <= |widths|
    requires forall k :: 0 <= k < |Weights(cols)| ==> widths[i + k] == total * (Weights(cols)[k] / sum)
    ensures WidthRatiosFrom(cols, widths, cbarWidth, i) == ColumnWidths(cols, total, sum, cbarWidth)
  {
    if |cols| > 0 {
      var rest := cols[1..];
      if cols[0].Cbar? {
        assert Weights(cols) == Weights(rest);
        WidthRatiosFromMatch(rest, widths, cbarWidth, i, total, sum);
      } else {
        assert Weights(cols) == [cols[0].w] + Weights(rest);
        assert widths[i + 0] == total * (Weights(cols)[0] / sum);
        assert widths[i] == ColumnWidth(cols[0], total, sum, cbarWidth);
        forall k | 0 <= k < |Weights(rest)|
          ensures widths[i + 1 + k] == total * (Weights(rest)[k] / sum)
        {
          assert Weights(rest)[k] == Weights(cols)[k + 1];
        }
        WidthRatiosFromMatch(rest, widths, cbarWidth, i + 1, total, sum);
        assert WidthRatiosFrom(cols, widths, cbarWidth, i)
            == [widths[i]] + WidthRatiosFrom(rest, widths, cbarWidth, i + 1);
      }
    }
  }

  /** The width all colorbar columns take together, added column by
      column. */
  function CbarWidths(cols: seq<Col>, cbarWidth: real): real
  {
    if |cols| == 0 then 0.0
    else (if cols[0].Cbar? then cbarWidth else 0.0) + CbarWidths(cols[1..], cbarWidth)
  }

  /** Added column by column, the colorbars take `cols.count('cbar')` times
      `cbarWidth`. */
  lemma {:induction false} CbarWidthsCount(cols: seq<Col>, cbarWidth: real)
    ensures CbarWidths(cols, cbarWidth) == (CbarCount(cols) as real) * cbarWidth
  {
    if |cols| > 0 {
      CbarWidthsCount(cols[1..], cbarWidth);
      if cols[0].Cbar? {
        CbarStep(CbarCount(cols[1..]), CbarCount(cols), cbarWidth);
      } else {
        assert CbarCount(cols) == CbarCount(cols[1..]);
      }
    }
  }

  /** One more colorbar adds one more `cbarWidth`. */
  lemma CbarStep(k: nat, k1: nat, cbarWidth: real)
    requires k1 == k + 1
    ensures cbarWidth + (k as real) * cbarWidth == (k1 as real) * cbarWidth
  {
  }

  /** The counter loop's widths add up to the content widths it reads
      plus the colorbar widths. */
  lemma {:induction false} SumWidthRatiosFrom(cols: seq<Col>, widths: seq<real>, cbarWidth: real, i: nat)
    requires i + |Weights(cols)| <= |widths|
    ensures Sum(WidthRatiosFrom(cols, widths, cbarWidth, i))
            == Sum(widths[i..i + |Weights(cols)|]) + CbarWidths(cols, cbarWidth)
  {
    if |cols| > 0 {
      if cols[0].Cbar? {
        assert Weights(cols) == Weights(cols[1..]);
        SumWidthRatiosFrom(cols[1..], widths, cbarWidth, i);
        CbarFront(cols, widths, cbarWidth, i);
      } else {
        assert Weights(cols) == [cols[0].w] + Weights(cols[1..]);
        SumWidthRatiosFrom(cols[1..], widths, cbarWidth, i + 1);
        WeightFront(cols, widths, cbarWidth, i);
      }
    }
  }

  /** A colorbar in front adds `cbarWidth` to both sides. */
  lemma CbarFront(cols: seq<Col>, widths: seq<real>, cbarWidth: real, i: nat)
    requires |cols| > 0 && cols[0].Cbar?
    requires |Weights(cols)| == |Weights(cols[1..])| && i + |Weights(cols)| <= |widths|
    requires Sum(WidthRatiosFrom(cols[1..], widths, cbarWidth, i))
             == Sum(widths[i..i + |Weights(cols[1..])|]) + CbarWidths(cols[1..], cbarWidth)
    ensures Sum(WidthRatiosFrom(cols, widths, cbarWidth, i))
            == Sum(widths[i..i + |Weights(cols)|]) + CbarWidths(cols, cbarWidth)
  {
    assert WidthRatiosFrom(cols, widths, cbarWidth, i)
        == [cbarWidth] + WidthRatiosFrom(cols[1..], widths, cbarWidth, i);
    assert CbarWidths(cols, cbarWidth) == cbarWidth + CbarWidths(cols[1..], cbarWidth);
    SumCons(cbarWidth, WidthRatiosFrom(cols[1..], widths, cbarWidth, i));
  }

  /** A content column in front adds the width it reads to both sides. */
  lemma WeightFront(cols: seq<Col>, widths: seq<real>, cbarWidth: real, i: nat)
    requires |cols| > 0 && cols[0].Weight?
    requires |Weights(cols)| == |Weights(cols[1..])| + 1 && i + |Weights(cols)| <= |widths|
    requires Sum(WidthRatiosFrom(cols[1..], widths, cbarWidth, i + 1))
             == Sum(widths[i + 1..i + 1 + |Weights(cols[1..])|]) + CbarWidths(cols[1..], cbarWidth)
    ensures Sum(WidthRatiosFrom(cols, widths, cbarWidth, i))
            == Sum(widths[i..i + |Weights(cols)|]) + CbarWidths(cols, cbarWidth)
  {
    var n := |Weights(cols[1..])|;
    assert WidthRatiosFrom(cols, widths, cbarWidth, i)
        == [widths[i]] + WidthRatiosFrom(cols[1..], widths, cbarWidth, i + 1);
    assert CbarWidths(cols, cbarWidth) == CbarWidths(cols[1..], cbarWidth);
    SumCons(widths[i], WidthRatiosFrom(cols[1..], widths, cbarWidth, i + 1));
    assert widths[i..i + n + 1] == [widths[i]] + widths[i + 1..i + 1 + n];
    SumCons(widths[i], widths[i + 1..i + 1 + n]);
  }

  /** `width_ratios` (see `WidthRatiosLayout`). */
  function WidthRatios(req: Request): (wr: seq<real>)
    requires WeightsNormalisable(req.cols)
    ensures |wr| == |req.cols|
  {
    WidthRatiosFrom(req.cols, SubplotWidths(req), req.cbarWidth, 0)
  }

  /** The counter loop reads the `Proportional` content widths in order, so
      it agrees with the column-by-column reference. */
  lemma WidthRatiosFromProportional(cols: seq<Col>, cbarWidth: real, total: real)
    requires Sum(Weights(cols)) != 0.0
    ensures var sum := Sum(Weights(cols));
      WidthRatiosFrom(cols, Proportional(Weights(cols), sum, total), cbarWidth, 0)
      == ColumnWidths(cols, total, sum, cbarWidth)
  {
    var ws := Weights(cols);
    var sum := Sum(ws);
    var widths := Proportional(ws, sum, total);
    forall k | 0 <= k < |ws|
      ensures widths[0 + k] == total * (ws[k] / sum)
    {
      ProportionalAt(ws, sum, total, k);
    }
    WidthRatiosFromMatch(cols, widths, cbarWidth, 0, total, sum);
  }

  /** `wr` lists one width per column in column order: colorbars get
      `cbarWidth`, content columns their weight's share of the content
      width. */
  predicate ColumnsLaidOut(wr: seq<real>, req: Request)
    requires Sum(Weights(req.cols)) != 0.0
  {
    && |wr| == |req.cols|
    && (forall j :: 0 <= j < |req.cols| && req.cols[j].Cbar? ==> wr[j] == req.cbarWidth)
    && (forall j :: 0 <= j < |req.cols| && req.cols[j].Weight? ==>
          wr[j] == ContentWidth(req) * (req.cols[j].w / Sum(Weights(req.cols))))
  }

  /** `width_ratios` is laid out column by column as `ColumnsLaidOut`
      describes. */
  lemma WidthRatiosLayout(req: Request)
    requires Sum(Weights(req.cols)) != 0.0
    ensures ColumnsLaidOut(WidthRatios(req), req)
  {
    var sum := Sum(Weights(req.cols));
    var total := ContentWidth(req);
    var wr := WidthRatios(req);
    WidthRatiosFromProportional(req.cols, req.cbarWidth, total);
    assert wr == ColumnWidths(req.cols, total, sum, req.cbarWidth);
    forall j | 0 <= j < |req.cols|
      ensures wr[j] == ColumnWidth(req.cols[j], total, sum, req.cbarWidth)
    {
      ColumnWidthsAt(req.cols, total, sum, req.cbarWidth, j);
    }
  }

  /** Width conservation: the column widths, the inter-column spaces and the
      two margins add up to the figure width. */
  lemma WidthConservation(req: Request)
    requires Sum(Weights(req.cols)) != 0.0
    ensures Sum(WidthRatios(req)) + ((|req.cols| - 1) as real) * req.wspace + 2.0 * req.margin
            == FigureWidth(req.width)
  {
    SumWidthRatios(req);
    CbarWidthsCount(req.cols, req.cbarWidth);
    var gaps := ((|req.cols| - 1) as real) * req.wspace;
    var cbars := (CbarCount(req.cols) as real) * req.cbarWidth;
    SharesPlusGaps(Sum(WidthRatios(req)), Sum(SubplotWidths(req)), CbarWidths(req.cols, req.cbarWidth), cbars,
                   FigureWidth(req.width), req.margin, gaps);
  }

  /** `width_ratios` adds up to the content widths plus the colorbars. */
  lemma SumWidthRatios(req: Request)
    requires WeightsNormalisable(req.cols)
    ensures Sum(WidthRatios(req)) == Sum(SubplotWidths(req)) + CbarWidths(req.cols, req.cbarWidth)
  {
    var widths := SubplotWidths(req);
    SumWidthRatiosFrom(req.cols, widths, req.cbarWidth, 0);
    assert widths[0..|Weights(req.cols)|] == widths;
  }

  /** The linear step of width conservation: content plus colorbars plus
      gaps plus margins is the whole. */
  lemma SharesPlusGaps(total: real, content: real, cbarSum: real, cbars: real,
                       figureWidth: real, margin: real, gaps: real)
    requires total == content + cbarSum && cbarSum == cbars
    requires content == figureWidth - 2.0 * margin - gaps - cbars
    ensures total + gaps + 2.0 * margin == figureWidth
  {
  }

  /** With no content column every column is a colorbar of `cbarWidth`. */
  lemma WidthRatiosAllCbar(req: Request)
    requires |Weights(req.cols)| == 0
    ensures var wr := WidthRatios(req);
      |wr| == |req.cols| && forall j :: 0 <= j < |wr| ==> wr[j] == req.cbarWidth
  {
    NoWeightsAllCbar(req.cols);
    CbarOnly(req.cols, SubplotWidths(req), req.cbarWidth, 0);
  }

  lemma {:induction false} ColumnWidthsAt(cols: seq<Col>, total: real, sum: real, cbarWidth: real, j: nat)
    requires sum != 0.0 && j < |cols|
    ensures ColumnWidths(cols, total, sum, cbarWidth)[j] == ColumnWidth(cols[j], total, sum, cbarWidth)
  {
    if j > 0 {
      ColumnWidthsAt(cols[1..], total, sum, cbarWidth, j - 1);
    }
  }

  lemma {:induction false} NoWeightsAllCbar(cols: seq<Col>)
    requires |Weights(cols)| == 0
    ensures forall j :: 0 <= j < |cols| ==> cols[j].Cbar?
  {
    if |cols| > 0 {
      NoWeightsAllCbar(cols[1..]);
      forall j | 0 < j < |cols|
        ensures cols[j].Cbar?
      {
        assert cols[j] == cols[1..][j - 1];
      }
    }
  }

  lemma {:induction false} CbarOnly(cols: seq<Col>, widths: seq<real>, cbarWidth: real, i: nat)
    requires forall j :: 0 <= j < |cols| ==> cols[j].Cbar?
    requires i <= |widths|
    ensures |Weights(cols)| == 0
    ensures var wr := WidthRatiosFrom(cols, widths, cbarWidth, i);
      |wr| == |cols| && forall j :: 0 <= j < |wr| ==> wr[j] == cbarWidth
  {
    if |cols| > 0 {
      assert forall j :: 0 <= j < |cols[1..]| ==> cols[1..][j] == cols[j + 1];
      CbarOnly(cols[1..], widths, cbarWidth, i);
    }
  }

  // ------------------------------------------------------------------- rows

  /** Python indexing into `subplot_widths`: negative indices count from the
      end, anything else out of range is an IndexError (None). */
  function PyIndex(xs: seq<real>, i: int): (r: Option<real>)
    ensures r.Some? <==> -|xs| <= i < |xs|
    ensures r.Some? ==> r.value == xs[Wrap(i, |xs|)]
  {
    if 0 <= i < |xs| then Some(xs[i])
    else if -|xs| <= i < 0 then Some(xs[|xs| + i])
    else None
  }

  /** Python's negative index `i` refers to element `n + i`. */
  function Wrap(i: int, n: nat): int
  {
    if i < 0 then n + i else i
  }

  /** Height of one row: the named content column's width times the aspect
      when the row has an aspect entry, the leftmost content column's width
      (a square panel) otherwise. */
  function RowHeight(aspects: seq<Aspect>, widths: seq<real>, row: int): Option<real>
  {
    match FindAspect(aspects, row)
    case Some(a) =>
      (match PyIndex(widths, a.col)
       case Some(w) => Some(w * a.ratio)
       case None => None)
    case None => PyIndex(widths, 0)
  }

  /** The row loop, from row `k` up to `nrows`; None once any row fails. */
  function RowHeightsFrom(aspects: seq<Aspect>, widths: seq<real>, k: nat, nrows: nat): (r: Option<seq<real>>)
    requires k <= nrows
    decreases nrows - k
    ensures r.Some? <==> forall row :: k <= row < nrows ==> RowHeight(aspects, widths, row).Some?
    ensures r.Some? ==> |r.value| == nrows - k
    ensures r.Some? ==> forall j :: 0 <= j < nrows - k ==> Some(r.value[j]) == RowHeight(aspects, widths, k + j)
  {
    if k == nrows then Some([])
    else match RowHeight(aspects, widths, k)
      case None => None
      case Some(h) =>
        match RowHeightsFrom(aspects, widths, k + 1, nrows)
        case None => None
        case Some(hs) => Some([h] + hs)
  }

  /** With distinct rows, looking a row up finds the entry that names it. */
  lemma {:induction false} FindAspectDistinct(aspects: seq<Aspect>, i: nat)
    requires DistinctRows(aspects) && i < |aspects|
    ensures FindAspect(aspects, aspects[i].row) == Some(aspects[i])
  {
    if i > 0 {
      assert aspects[0].row != aspects[i].row;
      FindAspectDistinct(aspects[1..], i - 1);
    }
  }

  /** A row named by aspect entry `i` resolves exactly when the entry's
      column is a valid Python index, and is then that column's width times
      the aspect. */
  lemma AspectRowHeight(aspects: seq<Aspect>, widths: seq<real>, i: nat)
    requires DistinctRows(aspects)
    requires i < |aspects|
    ensures RowHeight(aspects, widths, aspects[i].row).Some? <==> -|widths| <= aspects[i].col < |widths|
    ensures RowHeight(aspects, widths, aspects[i].row).Some? ==>
              RowHeight(aspects, widths, aspects[i].row).value
              == widths[Wrap(aspects[i].col, |widths|)] * aspects[i].ratio
  {
    FindAspectDistinct(aspects, i);
  }

  /** A row without an aspect entry takes the leftmost content column,
      which must exist. */
  lemma OtherRowHeight(aspects: seq<Aspect>, widths: seq<real>, row: int)
    requires row !in RowSet(aspects)
    ensures RowHeight(aspects, widths, row) == (if |widths| > 0 then Some(widths[0]) else None)
  {
  }

  /** Every in-range row named by an aspect entry is the named content
      column's width (Python indexing) times the aspect. */
  predicate AspectRowsScaled(hs: seq<real>, aspects: seq<Aspect>, widths: seq<real>, nrows: nat)
    requires |hs| == nrows
  {
    forall i :: 0 <= i < |aspects| && 0 <= aspects[i].row < nrows ==>
      && 0 <= Wrap(aspects[i].col, |widths|) < |widths|
      && hs[aspects[i].row] == widths[Wrap(aspects[i].col, |widths|)] * aspects[i].ratio
  }

  /** Every row without an aspect entry is as tall as the leftmost content
      column is wide, so that panel is square. */
  predicate OtherRowsSquare(hs: seq<real>, aspects: seq<Aspect>, widths: seq<real>, nrows: nat)
    requires |hs| == nrows
  {
    forall row :: 0 <= row < nrows && row !in RowSet(aspects) ==> |widths| > 0 && hs[row] == widths[0]
  }

  /** When every row resolves: a row named by an aspect entry is the named
      content column's width times the aspect, and every other row is as
      tall as the leftmost content column is wide. */
  lemma RowHeightsFromValues(aspects: seq<Aspect>, widths: seq<real>, nrows: nat)
    requires DistinctRows(aspects)
    requires RowHeightsFrom(aspects, widths, 0, nrows).Some?
    ensures var hs := RowHeightsFrom(aspects, widths, 0, nrows).value;
      && |hs| == nrows
      && AspectRowsScaled(hs, aspects, widths, nrows)
      && OtherRowsSquare(hs, aspects, widths, nrows)
  {
    var hs := RowHeightsFrom(aspects, widths, 0, nrows).value;
    forall i | 0 <= i < |aspects| && 0 <= aspects[i].row < nrows
      ensures 0 <= Wrap(aspects[i].col, |widths|) < |widths|
      ensures hs[aspects[i].row] == widths[Wrap(aspects[i].col, |widths|)] * aspects[i].ratio
    {
      AspectRowHeight(aspects, widths, i);
      assert Some(hs[0 + aspects[i].row]) == RowHeight(aspects, widths, 0 + aspects[i].row);
    }
    forall row | 0 <= row < nrows && row !in RowSet(aspects)
      ensures |widths| > 0 && hs[row] == widths[0]
    {
      OtherRowHeight(aspects, widths, row);
      assert Some(hs[0 + row]) == RowHeight(aspects, widths, 0 + row);
    }
  }

  /** The row loop fails exactly when an in-range aspect entry names a
      content column that does not exist, or when a row without an entry
      finds no content column at all. */
  lemma RowHeightsFromFails(aspects: seq<Aspect>, widths: seq<real>, nrows: nat)
    requires DistinctRows(aspects)
    ensures RowHeightsFrom(aspects, widths, 0, nrows).None? <==>
      || (exists i :: 0 <= i < |aspects| && 0 <= aspects[i].row < nrows
                      && !(-|widths| <= aspects[i].col < |widths|))
      || (exists row :: 0 <= row < nrows && row !in RowSet(aspects) && |widths| == 0)
  {
    if RowHeightsFrom(aspects, widths, 0, nrows).None? {
      RowHeightsFromFailure(aspects, widths, nrows);
    } else {
      RowHeightsFromSuccess(aspects, widths, nrows);
    }
  }

  /** A failing row loop has a row that shows why. */
  lemma RowHeightsFromFailure(aspects: seq<Aspect>, widths: seq<real>, nrows: nat)
    requires DistinctRows(aspects)
    requires RowHeightsFrom(aspects, widths, 0, nrows).None?
    ensures
      || (exists i :: 0 <= i < |aspects| && 0 <= aspects[i].row < nrows
                      && !(-|widths| <= aspects[i].col < |widths|))
      || (exists row :: 0 <= row < nrows && row !in RowSet(aspects) && |widths| == 0)
  {
    var row :| 0 <= row < nrows && RowHeight(aspects, widths, row).None?;
    if row in RowSet(aspects) {
      RowSetMembers(aspects, row);
      var i :| 0 <= i < |aspects| && aspects[i].row == row;
      AspectRowHeight(aspects, widths, i);
      assert 0 <= i < |aspects| && 0 <= aspects[i].row < nrows
             && !(-|widths| <= aspects[i].col < |widths|);
    } else {
      OtherRowHeight(aspects, widths, row);
      assert 0 <= row < nrows && row !in RowSet(aspects) && |widths| == 0;
    }
  }

  /** A successful row loop met only valid column indices and had a
      leftmost content column whenever a row needed one. */
  lemma RowHeightsFromSuccess(aspects: seq<Aspect>, widths: seq<real>, nrows: nat)
    requires DistinctRows(aspects)
    requires RowHeightsFrom(aspects, widths, 0, nrows).Some?
    ensures forall i :: 0 <= i < |aspects| && 0 <= aspects[i].row < nrows ==>
              -|widths| <= aspects[i].col < |widths|
    ensures forall row :: 0 <= row < nrows && row !in RowSet(aspects) ==> |widths| > 0
  {
    forall i | 0 <= i < |aspects| && 0 <= aspects[i].row < nrows
      ensures -|widths| <= aspects[i].col < |widths|
    {
      AspectRowHeight(aspects, widths, i);
    }
    forall row | 0 <= row < nrows && row !in RowSet(aspects)
      ensures |widths| > 0
    {
      OtherRowHeight(aspects, widths, row);
    }
  }

  /** `subplot_heights`: Some exactly when every row resolves (see
      `RowHeightsLayout` and `RowHeightsFromFails`). */
  function RowHeights(req: Request): (r: Option<seq<real>>)
    requires WeightsNormalisable(req.cols)
  {
    RowHeightsFrom(req.aspects, SubplotWidths(req), 0, req.nrows)
  }

  /** `subplot_heights`, when every row resolves: one height per row, aspect
      rows scaled from their named column, other rows square on the leftmost
      content column. */
  lemma RowHeightsLayout(req: Request)
    requires WeightsNormalisable(req.cols)
    requires DistinctRows(req.aspects)
    requires RowHeights(req).Some?
    ensures |RowHeights(req).value| == req.nrows
    ensures AspectRowsScaled(RowHeights(req).value, req.aspects, SubplotWidths(req), req.nrows)
    ensures OtherRowsSquare(RowHeights(req).value, req.aspects, SubplotWidths(req), req.nrows)
  {
    RowHeightsFromValues(req.aspects, SubplotWidths(req), req.nrows);
  }

  // ----------------------------------------------------------------- figure

  /** `figure_height`: the rows, the spaces between them and the two
      margins. */
  function FigureHeight(heights: seq<real>, hspace: real, margin: real): real
  {
    Sum(heights) + ((|heights| - 1) as real) * hspace + 2.0 * margin
  }

  /** The last step of `create_figure`: the figure height the rows, spaces
      and margins add up to, and the absolute spacings converted to the
      grid's relative ones. A conversion with a zero denominator fails. */
  function PlaceGrid(figureWidth: real, margin: real, hspace: real, wspace: real,
                     widthRatios: seq<real>, heights: seq<real>): (r: Result<Layout, LayoutError>)
    ensures r.Failure? ==> r.error == SpacingUndefined
    ensures r.Success? ==>
      && r.value.figureWidth == figureWidth
      && r.value.nrows == |heights| && r.value.ncols == |widthRatios|
      && r.value.widthRatios == widthRatios && r.value.heightRatios == heights
  {
    var nrows := |heights|;
    var figureHeight := FigureHeight(heights, hspace, margin);
    var innerHeight := figureHeight - 2.0 * margin;
    var innerWidth := figureWidth - 2.0 * margin;
    if !Spacing.InToMplDefined(hspace, innerHeight, nrows) then Failure(SpacingUndefined)
    else if !Spacing.InToMplDefined(wspace, innerWidth, |widthRatios|) then Failure(SpacingUndefined)
    else
      var hs := Spacing.InToMpl(hspace, innerHeight, nrows);
      var ws := Spacing.InToMpl(wspace, innerWidth, |widthRatios|);
      Success(Layout(figureWidth, figureHeight, nrows, |widthRatios|, widthRatios, heights, hs, ws))
  }

  /** `figsize` and the `hspace`/`wspace` given to the grid: the height is exactly
      filled by the rows, the spaces between them and the two margins; the
      step fails exactly when a spacing conversion has a zero denominator,
      and otherwise the grid receives the relative spacings the absolute ones
      convert to. */
  lemma PlaceGridSpacing(figureWidth: real, margin: real, hspace: real, wspace: real,
                         widthRatios: seq<real>, heights: seq<real>)
    ensures var r := PlaceGrid(figureWidth, margin, hspace, wspace, widthRatios, heights);
      var figureHeight := FigureHeight(heights, hspace, margin);
      && (r.Success? <==>
            && Spacing.InToMplDefined(hspace, figureHeight - 2.0 * margin, |heights|)
            && Spacing.InToMplDefined(wspace, figureWidth - 2.0 * margin, |widthRatios|))
      && (r.Success? ==>
            && r.value.figureHeight == figureHeight
            && r.value.hspace == Spacing.InToMpl(hspace, figureHeight - 2.0 * margin, |heights|)
            && r.value.wspace == Spacing.InToMpl(wspace, figureWidth - 2.0 * margin, |widthRatios|))
  {
  }

  /** `create_figure` without the figure and grid objects. It refuses
      duplicate aspect rows (and nothing else up front), fails with an
      IndexError when a row names a missing content column, and otherwise
      lays the columns of `WidthRatios` and the rows of `RowHeights` out on
      the grid. */
  function CreateFigure(req: Request): (r: Result<Layout, LayoutError>)
    requires WeightsNormalisable(req.cols)
    ensures r == Failure(DuplicateAspectRow) <==> !DistinctRows(req.aspects)
    ensures r == Failure(ColumnOutOfRange) <==> DistinctRows(req.aspects) && RowHeights(req).None?
    ensures r.Success? ==>
      && DistinctRows(req.aspects)
      && req.nrows >= 1 && |Weights(req.cols)| >= 1
      && r.value.nrows == req.nrows && r.value.ncols == |req.cols|
      && r.value.figureWidth == FigureWidth(req.width)
      && r.value.widthRatios == WidthRatios(req)
      && RowHeights(req) == Some(r.value.heightRatios)
  {
    RowSetSizeIffDistinct(req.aspects);
    if |RowSet(req.aspects)| != |req.aspects| then Failure(DuplicateAspectRow)
    else
      match RowHeights(req)
      case None => Failure(ColumnOutOfRange)
      case Some(heights) =>
        PlaceGridSpacing(FigureWidth(req.width), req.margin, req.hspace, req.wspace, WidthRatios(req), heights);
        assert |heights| >= 1 ==> RowHeight(req.aspects, SubplotWidths(req), 0).Some?;
        PlaceGrid(FigureWidth(req.width), req.margin, req.hspace, req.wspace, WidthRatios(req), heights)
  }

  // ------------------------------------------------------------ properties

  /** The columns of a successful layout: widths in column order, colorbars
      at `cbarWidth`, content columns at their weight's share of the content
      width, and together with the spaces and margins they fill the figure
      width. */
  lemma CreateFigureColumns(req: Request)
    requires WeightsNormalisable(req.cols)
    requires CreateFigure(req).Success?
    ensures Sum(Weights(req.cols)) != 0.0
    ensures var fig := CreateFigure(req).value;
      && ColumnsLaidOut(fig.widthRatios, req)
      && Sum(fig.widthRatios) + ((|req.cols| - 1) as real) * req.wspace + 2.0 * req.margin
         == fig.figureWidth
  {
    var fig := CreateFigure(req).value;
    assert fig.widthRatios == WidthRatios(req);
    WidthRatiosLayout(req);
    WidthConservation(req);
  }

  /** The rows of a successful layout: a row named by an aspect entry is the
      named content column's width times the aspect, and every other row is
      as tall as the leftmost content column is wide (the figure height is
      in `CreateFigureHeight`). */
  lemma CreateFigureRows(req: Request)
    requires WeightsNormalisable(req.cols)
    requires CreateFigure(req).Success?
    ensures var fig := CreateFigure(req).value;
      && |fig.heightRatios| == req.nrows
      && AspectRowsScaled(fig.heightRatios, req.aspects, SubplotWidths(req), req.nrows)
      && OtherRowsSquare(fig.heightRatios, req.aspects, SubplotWidths(req), req.nrows)
  {
    assert RowHeights(req) == Some(CreateFigure(req).value.heightRatios);
    RowHeightsLayout(req);
  }

  /** The figure is exactly as tall as its rows, the spaces between them
      and the two margins; the spacing conversion fails exactly when one of
      its denominators is zero. */
  lemma CreateFigureHeight(req: Request)
    requires WeightsNormalisable(req.cols)
    requires DistinctRows(req.aspects) && RowHeights(req).Some?
    ensures |RowHeights(req).value| == req.nrows
    ensures var figureHeight := FigureHeight(RowHeights(req).value, req.hspace, req.margin);
      && (CreateFigure(req) == Failure(SpacingUndefined) <==>
            || !Spacing.InToMplDefined(req.hspace, figureHeight - 2.0 * req.margin, req.nrows)
            || !Spacing.InToMplDefined(req.wspace, FigureWidth(req.width) - 2.0 * req.margin, |req.cols|))
      && (CreateFigure(req).Success? ==>
            && CreateFigure(req).value.figureHeight == figureHeight
            && CreateFigure(req).value.hspace == Spacing.InToMpl(req.hspace, figureHeight - 2.0 * req.margin, req.nrows)
            && CreateFigure(req).value.wspace
               == Spacing.InToMpl(req.wspace, FigureWidth(req.width) - 2.0 * req.margin, |req.cols|))
  {
    var hs := RowHeights(req).value;
    RowHeightsLayout(req);
    RowSetSizeIffDistinct(req.aspects);
    PlaceGridSpacing(FigureWidth(req.width), req.margin, req.hspace, req.wspace, WidthRatios(req), hs);
    assert CreateFigure(req)
           == PlaceGrid(FigureWidth(req.width), req.margin, req.hspace, req.wspace, WidthRatios(req), hs);
  }

  /** The spacing error means the rows or the columns have no extent: the
      `in_to_mpl` denominator of the height is the sum of the row heights,
      and that of the width is the sum of the column widths. */
  lemma SpacingUndefinedMeaning(req: Request)
    requires WeightsNormalisable(req.cols)
    requires DistinctRows(req.aspects) && RowHeights(req).Some?
    ensures CreateFigure(req) == Failure(SpacingUndefined) <==>
              Sum(RowHeights(req).value) == 0.0 || Sum(WidthRatios(req)) == 0.0
  {
    CreateFigureHeight(req);
    HeightDenominator(RowHeights(req).value, req.hspace, req.margin);
    if req.nrows > 0 {
      ContentColumnExists(req);
      WidthDenominator(req);
    }
  }

  /** The `in_to_mpl` denominator of the height is the sum of the rows. */
  lemma HeightDenominator(hs: seq<real>, hspace: real, margin: real)
    ensures Spacing.InToMplDefined(hspace, FigureHeight(hs, hspace, margin) - 2.0 * margin, |hs|)
            <==> Sum(hs) != 0.0
  {
    GapsCancel(Sum(hs), |hs|, hspace, margin);
  }

  /** The `in_to_mpl` denominator of the width is the sum of the columns. */
  lemma WidthDenominator(req: Request)
    requires Sum(Weights(req.cols)) != 0.0
    ensures Spacing.InToMplDefined(req.wspace, FigureWidth(req.width) - 2.0 * req.margin, |req.cols|)
            <==> Sum(WidthRatios(req)) != 0.0
  {
    WidthConservation(req);
    GapsCancel(Sum(WidthRatios(req)), |req.cols|, req.wspace, req.margin);
  }

  /** Taking the margins off and then the `in_to_mpl` gap terms leaves the
      bare sum `s` of `k` extents with `k - 1` gaps of `g` between them. */
  lemma GapsCancel(s: real, k: int, g: real, m: real)
    ensures (s + ((k - 1) as real) * g + 2.0 * m - 2.0 * m) - g * (k as real) + g == s
  {
  }

  /** A row loop that resolves at least one row saw a content column, so
      the weights can be normalised to a non-zero sum. */
  lemma ContentColumnExists(req: Request)
    requires WeightsNormalisable(req.cols)
    requires RowHeights(req).Some? && req.nrows > 0
    ensures Sum(Weights(req.cols)) != 0.0
  {
    var widths := SubplotWidths(req);
    assert RowHeight(req.aspects, widths, 0).Some?;
    assert |widths| > 0;
  }

  /** The relative spacings handed to the grid give back the requested
      absolute spacings whenever the inner dimension is non-zero. */
  lemma SpacingPreserved(req: Request)
    requires WeightsNormalisable(req.cols)
    requires CreateFigure(req).Success?
    ensures var fig := CreateFigure(req).value;
      var innerWidth := fig.figureWidth - 2.0 * req.margin;
      innerWidth != 0.0 ==>
        && Spacing.MplToInDefined(fig.wspace, innerWidth, fig.ncols)
        && Spacing.MplToIn(fig.wspace, innerWidth, fig.ncols) == req.wspace
    ensures var fig := CreateFigure(req).value;
      var innerHeight := fig.figureHeight - 2.0 * req.margin;
      innerHeight != 0.0 ==>
        && Spacing.MplToInDefined(fig.hspace, innerHeight, fig.nrows)
        && Spacing.MplToIn(fig.hspace, innerHeight, fig.nrows) == req.hspace
  {
    var fig := CreateFigure(req).value;
    var innerWidth := fig.figureWidth - 2.0 * req.margin;
    var innerHeight := fig.figureHeight - 2.0 * req.margin;
    if innerWidth != 0.0 {
      Spacing.InToMplRoundTrip(req.wspace, innerWidth, |req.cols|);
    }
    if innerHeight != 0.0 {
      Spacing.InToMplRoundTrip(req.hspace, innerHeight, req.nrows);
    }
  }

  lemma {:induction false} RowSetAppend(aspects: seq<Aspect>, a: Aspect)
    ensures RowSet(aspects + [a]) == RowSet(aspects) + {a.row}
  {
    if |aspects| > 0 {
      assert (aspects + [a])[1..] == aspects[1..] + [a];
      RowSetAppend(aspects[1..], a);
    } else {
      assert aspects + [a] == [a];
    }
  }

  lemma {:induction false} FindAspectAppend(aspects: seq<Aspect>, a: Aspect, row: int)
    requires row != a.row
    ensures FindAspect(aspects + [a], row) == FindAspect(aspects, row)
  {
    if |aspects| > 0 {
      assert (aspects + [a])[1..] == aspects[1..] + [a];
      FindAspectAppend(aspects[1..], a, row);
    } else {
      assert aspects + [a] == [a];
    }
  }

  lemma RowHeightAppend(aspects: seq<Aspect>, a: Aspect, widths: seq<real>, row: int)
    requires row != a.row
    ensures RowHeight(aspects + [a], widths, row) == RowHeight(aspects, widths, row)
  {
    FindAspectAppend(aspects, a, row);
    var r1 := RowHeight(aspects + [a], widths, row);
    var r2 := RowHeight(aspects, widths, row);
    assert r1.Some? <==> r2.Some?;
    if r1.Some? {
      assert r1.value == r2.value;
    }
  }

  lemma {:induction false} RowHeightsFromAgree(a1: seq<Aspect>, a2: seq<Aspect>, widths: seq<real>, k: nat, nrows: nat)
    requires k <= nrows
    requires forall row :: k <= row < nrows ==> RowHeight(a1, widths, row) == RowHeight(a2, widths, row)
    ensures RowHeightsFrom(a1, widths, k, nrows) == RowHeightsFrom(a2, widths, k, nrows)
    decreases nrows - k
  {
    if k < nrows {
      RowHeightsFromAgree(a1, a2, widths, k + 1, nrows);
    }
  }

  /** An aspect entry naming a row outside the figure changes nothing, as
      long as its row is not already named: duplicates are refused wherever
      the row lies. */
  lemma OutOfRangeAspectIgnored(req: Request, a: Aspect)
    requires WeightsNormalisable(req.cols)
    requires a.row < 0 || a.row >= req.nrows
    requires a.row !in RowSet(req.aspects)
    ensures CreateFigure(req.(aspects := req.aspects + [a])) == CreateFigure(req)
  {
    var req' := req.(aspects := req.aspects + [a]);
    RowSetAppend(req.aspects, a);
    RowSetSizeIffDistinct(req.aspects);
    RowSetSizeIffDistinct(req'.aspects);
    assert |RowSet(req'.aspects)| == |RowSet(req.aspects)| + 1;
    assert ContentWidth(req') == ContentWidth(req);
    var widths := SubplotWidths(req);
    assert SubplotWidths(req') == widths;
    forall row | 0 <= row < req.nrows
      ensures RowHeight(req.aspects + [a], widths, row) == RowHeight(req.aspects, widths, row)
    {
      RowHeightAppend(req.aspects, a, widths, row);
    }
    assert req'.aspects == req.aspects + [a];
    RowHeightsFromAgree(req'.aspects, req.aspects, widths, 0, req.nrows);
    assert RowHeights(req') == RowHeights(req);
    assert WidthRatios(req') == WidthRatios(req);
    var r1 := CreateFigure(req');
    var r2 := CreateFigure(req);
    assert r1.Success? <==> r2.Success?;
    if r2.Success? {
      assert r1.value.heightRatios == r2.value.heightRatios;
      assert r1.value == r2.value;
    }
  }

  /** The keyword defaults: a 6.5 inch figure with one 4 inch square panel
      and a 0.25 inch colorbar. */
  lemma DefaultLayout()
    ensures CreateFigure(Defaults())
            == Success(Layout(6.5, 6.0, 1, 2, [4.0, 0.25], [4.0], 1.0 / 16.0, 2.0 / 17.0))
  {
    var req := Defaults();
    assert Weights(req.cols) == [1.0];
    assert CbarCount(req.cols) == 1;
    assert ContentWidth(req) == 4.0;
    assert SubplotWidths(req) == [4.0];
    assert WidthRatios(req) == [4.0, 0.25];
    assert RowHeights(req) == Some([4.0]);
  }

  /** Two equal columns and no colorbar share the content width equally. */
  lemma TwoEqualColumns()
    ensures var req := Request(Inches(6.5), 1, [Weight(1.0), Weight(1.0)], 1.0, 0.25, 0.25, 0.25, []);
      CreateFigure(req).Success?
      && CreateFigure(req).value.widthRatios == [2.125, 2.125]
  {
    var req := Request(Inches(6.5), 1, [Weight(1.0), Weight(1.0)], 1.0, 0.25, 0.25, 0.25, []);
    assert Weights(req.cols) == [1.0, 1.0];
    assert CbarCount(req.cols) == 0;
    assert |req.cols| == 2;
    assert FigureWidth(req.width) == 6.5;
    assert ((|req.cols| - 1) as real) * req.wspace == 0.25;
    assert ContentWidth(req) == 6.5 - 2.0 - 0.25 - 0.0;
    assert ContentWidth(req) == 4.25;
    assert Sum([1.0, 1.0]) == 2.0;
    assert Sum(Weights(req.cols)) == 2.0;
    assert 4.25 * (1.0 / 2.0) == 2.125;
    assert [1.0, 1.0][1..] == [1.0];
    assert Proportional([1.0], 2.0, 4.25) == [2.125];
    assert Proportional([1.0, 1.0], 2.0, 4.25) == [2.125, 2.125];
    assert SubplotWidths(req) == [2.125, 2.125];
    assert WidthRatios(req) == [2.125, 2.125];
    assert RowHeights(req) == Some([2.125]);
  }
}
