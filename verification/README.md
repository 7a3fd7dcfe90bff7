# WrightTools artists: layout, colormap, spectrum and pcolor arithmetic

This project models the pure arithmetic inside the plotting module
`artists.py` of WrightTools, a Python toolkit for spectroscopy data. Python
floats are modelled as exact Dafny `real`s.

- **`create_figure`** (module `Layout`). It turns a width key or number, a
  row count, a column list of weights and `'cbar'` markers, a margin,
  spacings, a colorbar width and per-row aspect overrides into a layout:
  - the figure width and height;
  - the absolute column widths (`width_ratios`) and row heights
    (`height_ratios`);
  - the relative spacings handed to the grid.

  The figure and grid objects themselves are not modelled. The function
  refuses duplicate aspect rows. A row that names a missing content column
  fails as Python's IndexError does. A zero denominator in the spacing
  conversion fails with a spacing error: for the width Python raises
  ZeroDivisionError, and for the height see "## Left out".
- **`in_to_mpl` / `mpl_to_in`** (module `Spacing`). These are the nested
  converters between an absolute gap and the grid's relative gap, lifted to
  the top level and proved to be inverses.
- **`make_colormap`** (module `Colormap`). It builds the red, green and
  blue segment tables from a sequence of positions and RGB colours. The
  colormap object built from the tables is not modelled.
- **`nm_to_rgb`** (module `Spectrum`). It maps a wavelength to an RGB
  colour: a piecewise-linear hue, an intensity fade at both ends of the
  visible range, and truncation to 1/256 steps. Python's `int()` is
  modelled as truncation toward zero.
- **`pcolor_helper`** (module `Pcolor`). It computes the cell edges of
  each axis and builds the mesh grid from them; the data array is passed
  through unchanged.

Shared modules:
- `Results` holds `Option` (Python's `None`) and `Result` (a value or the
  exception raised).
- `RealSeqs` holds `Sum`.

Facts about the code that the model keeps:
- The code does not check that the content width or the figure height is
  positive.
- An aspect entry `[[row, col], aspect]` takes its column index from the
  content-only width list `subplot_widths` (artists.py:180, 198), so a
  colorbar column is never named. In that list a negative index counts from
  the end, as Python's indexing does (`Layout.PyIndex`), and an index past
  the content columns raises IndexError.

## Model

| member | source | states |
|---|---|---|
| Spacing.InToMplRoundTrip | artists.py:173-176 | converting an absolute gap to relative and back gives the gap again, whenever n ≠ 0, total ≠ 0 and the first conversion is defined |
| Spacing.MplToInRoundTrip | artists.py:173-176 | converting a relative gap to absolute and back gives the relative gap again, under the matching non-zero conditions |
| Spacing.GridFillsTotal | artists.py:175-176 | n slots of the size `mpl_to_in` assumes, plus n-1 gaps of the converted size, fill the total exactly |
| Layout.RowSetSizeIffDistinct | artists.py:165-167 | `len(rows) == len(set(rows))` holds exactly when no two aspect entries name the same row, and the set is never larger than the list |
| Layout.FindAspect | artists.py:195-197 | `rows_in_aspects.index(row)` gives the first entry of the list that names that row, and nothing exactly when no entry names it |
| Layout.SubplotWidths | artists.py:178-180 | one width per content column, and together they fill the content width |
| Layout.SubplotWidthAt | artists.py:178-180 | content column k gets `total_subplot_width * w_k / sum(weights)` |
| Layout.WidthRatiosLayout | artists.py:178-191 | `width_ratios` (`ColumnsLaidOut`) has one entry per column in column order, `cbar_width` at every colorbar and the weight's share of the content width at every content column |
| Layout.SumWidthRatiosFrom | artists.py:181-191 | the widths the loop appends add up to the content widths it reads plus the colorbar widths |
| Layout.CbarWidthsCount | artists.py:171 | the colorbars added column by column take `cols.count('cbar') * cbar_width` |
| Layout.WidthConservation | artists.py:169-191 | column widths plus the inter-column spaces plus the two margins equal the figure width |
| Layout.WidthRatiosAllCbar | artists.py:181-191 | with no content column, every entry of `width_ratios` is `cbar_width` |
| Layout.PyIndex | artists.py:198 | Python indexing succeeds exactly for -len ≤ i < len and negative indices count from the end |
| Layout.AspectRowHeight | artists.py:195-199 | a row named by an aspect entry resolves exactly when the entry's column is a valid Python index, and is then that column's width times the aspect |
| Layout.OtherRowHeight | artists.py:200-202 | a row without an aspect entry is as tall as the leftmost content column is wide, and fails when there is no content column |
| Layout.RowHeightsFromValues | artists.py:193-203 | when every row resolves there is one height per row; an aspect row is its content column's width times the aspect and every other row is as tall as the leftmost content column is wide |
| Layout.RowHeightsFromFails | artists.py:193-202 | the row loop raises exactly when an in-range aspect entry names a missing content column, or when some row without an entry finds no content column at all |
| Layout.RowHeightsLayout | artists.py:193-203 | the same row facts, stated for a request |
| Layout.PlaceGrid | artists.py:204-211 | the last step keeps the widths and heights it is given and fails only with the spacing error |
| Layout.PlaceGridSpacing | artists.py:204-211 | the figure height is rows plus spaces plus margins; the step succeeds exactly when both conversions are defined, and then the grid gets the converted spacings |
| Layout.CreateFigure | artists.py:157-211 | fails with the duplicate-row error exactly when two aspect entries share a row, and with the index error exactly when the rows are distinct but some row does not resolve; on success it has `nrows` rows, one column per entry of `cols`, at least one content column, the resolved figure width, the `width_ratios` and the row heights |
| Layout.CreateFigureColumns | artists.py:178-191 | a successful layout's columns: column order, colorbar widths, weight shares and width conservation |
| Layout.CreateFigureRows | artists.py:193-203 | a successful layout's rows: aspect rows scaled, other rows square, one height per row |
| Layout.CreateFigureHeight | artists.py:204-211 | the figure height is rows plus spaces plus margins; the spacing error occurs exactly when a conversion denominator is zero; otherwise the relative spacings are the converted absolute ones |
| Layout.SpacingUndefinedMeaning | artists.py:204-211 | once the rows resolve, the spacing error occurs exactly when the row heights sum to zero or the column widths sum to zero |
| Layout.HeightDenominator | artists.py:204-210 | the `in_to_mpl` denominator for `hspace` is the sum of the row heights |
| Layout.WidthDenominator | artists.py:169-211 | the `in_to_mpl` denominator for `wspace` is the sum of `width_ratios` |
| Layout.SpacingPreserved | artists.py:209-211 | converting the grid's relative spacings back gives the requested absolute spacings whenever the inner width or height is non-zero |
| Layout.OutOfRangeAspectIgnored | artists.py:194-196 | adding an aspect entry for a row outside `range(nrows)`, not already named, leaves the result of `create_figure` unchanged |
| Layout.DefaultLayout | artists.py:86-87 | the keyword defaults give a 6.5 by 6 inch figure with a 4 inch square panel and a 0.25 inch colorbar, relative spacings 1/16 and 2/17 |
| Layout.TwoEqualColumns | artists.py:178-191 | two equal weights without a colorbar split the content width equally |
| Colormap.Padded | artists.py:373 | the padded sequence is the input with a `None` colour and 0.0 in front and 1.0 and a `None` colour behind |
| Colormap.BuildSucceeds | artists.py:375-378 | the loop raises exactly when some position has another position beside it |
| Colormap.BuildEntries | artists.py:375-381 | the loop gives every channel one entry per position slot in slot order, each carrying the channel values of the slots on either side |
| Colormap.MakeColormapSucceeds | artists.py:373-381 | `make_colormap` raises exactly when the input is empty, starts or ends with a position, or has two positions in a row |
| Colormap.MakeColormapPositions | artists.py:373-381 | every channel list has (number of input positions) + 2 entries, and its x values are 0.0, the input positions in order, then 1.0 |
| Colormap.MakeColormapEnds | artists.py:373-381 | the first entry is 0.0 with no left value and the first colour on its right; the last is 1.0 with the last colour on its left and no right value |
| Colormap.MakeColormapInner | artists.py:375-381 | every input position lies between two colours, and its entry carries those colours' channel values |
| Spectrum.Trunc | artists.py:394 | `int()` truncates toward zero: the result is the whole number between 0 and x that is less than one away from x |
| Spectrum.Hue | artists.py:398-425 | every hue channel lies in [0, 1]; from 380 to 780 nm one channel is full, outside that range all are zero |
| Spectrum.Intensity | artists.py:429-436 | the intensity factor is 1 from 420 to 700 nm, lies in [0.3, 1] from 380 to 780 nm and is 0 elsewhere |
| Spectrum.NmToRgb | artists.py:388-441 | every component is a whole number of 256ths between 0 and 255/256 |
| Spectrum.ChannelLevel | artists.py:437-441 | a hue channel in [0, 1] times the scaled intensity in [0, 255] truncates and divides to such a level |
| Spectrum.BlackOutsideVisible | artists.py:394-441 | the colour is black exactly when the truncated wavelength is below 380 or above 780 nm |
| Spectrum.FullLevelInCentre | artists.py:429-441 | from 420 to 700 nm some component is at the full level 255/256 |
| Pcolor.CellEdges | artists.py:452-462 | an axis shorter than two raises; otherwise there are len+1 edges: one full step before the first sample, midpoints inside, one full step after the last sample |
| Pcolor.Meshgrid | artists.py:464 | `X` repeats the x edges in every row and `Y` repeats each y edge across its row |
| Pcolor.PcolorHelper | artists.py:444-466 | fails exactly when either axis is shorter than two; on success the mesh holds the x edges along rows and the y edges down columns, and `zi` is returned unchanged |
| Pcolor.SamplesInsideCells | artists.py:452-462 | on a strictly increasing axis every sample lies strictly inside its cell |
| Pcolor.InteriorCellsCentred | artists.py:447-462 | on an evenly spaced axis every interior cell is centred on its sample |
| Pcolor.EndCellsOffCentre | artists.py:452-462 | on an evenly spaced axis with step d the two end cells are centred d/4 outside (beyond) their end samples |
| Pcolor.FirstCellOffCentreExample | artists.py:457-458 | for the axis [0, 1] the first cell is [-1, 0.5], centred on -0.25 rather than 0 |
| Pcolor.CentredEdgesCentred | artists.py:447-462 | with half-step ends every cell of an evenly spaced axis is centred on its sample |
| Pcolor.CentredSamplesInsideCells | artists.py:452-462 | with half-step ends every sample of a strictly increasing axis still lies inside its cell |

## Left out

- Matplotlib and numpy objects are not modelled: `plt.figure`, `GridSpec`, `subplots_adjust`, the `LinearSegmentedColormap` constructor and `plot_colormap`. The model returns the numbers those calls receive.
- `make_cubehelix`, `get_color_cycle`, the colormap tables and registry, `plot_margins`, `corner_text`, `diagonal_line`, `get_scaled_bounds` and the plot classes are not modelled. They are rendering, global state or floating-point trigonometry.
- IEEE-754 rounding is not modelled: every equality is exact over the reals.
- Layout.CreateFigure: a non-empty weight list summing to zero makes numpy produce `inf` or `nan` widths (`nan` only for a zero weight or a zero content width). The model requires a non-zero sum instead (`WeightsNormalisable`).
- Layout.CreateFigure: a zero height denominator in `in_to_mpl` gives numpy's `inf` or `nan` in the source (`nan` when `hspace` is zero) when `nrows` is at least 1, because the figure height is then a numpy float; with zero rows the figure height is a plain Python float and Python raises ZeroDivisionError, as the model does. The model reports `SpacingUndefined` for it, the same error as the width denominator, which raises in Python.
- Layout.CreateFigure: `float(width)` on a string that is not a number raises ValueError. The width is typed (`Single`, `Double` or inches), so this case does not arise.
- Layout.CreateFigure: `nrows` is a natural number. A negative `nrows` behaves like zero rows in the source, which fails in the spacing conversion.
- Colormap.MakeColormap: `isinstance(item, float)` skips integer positions such as `0` or `1`. Positions are always reals here.
- Colormap.MakeColormap: items other than a position or a three-component colour are not modelled.
- Pcolor.PcolorHelper: only one-dimensional axes are modelled, and the data array is a sequence of rows of reals.

## Findings

| source | as written | input that shows it | evidently intended | confidence | as-written member | corrected member |
|---|---|---|---|---|---|---|
| artists.py:457-460 | the first and last edges are extrapolated by a whole step (`axis[0] - (axis[1] - axis[0])`), so on an evenly spaced axis the two end cells are 1.5 steps wide and their centres sit a quarter step outside (beyond) the end samples | axis `[0, 1]`: edges `[-1, 0.5, 2]`, first cell centred on -0.25 | pixels centred on their samples, as the doc comment (artists.py:447-449) says: end edges half a step out | medium, not executed | Pcolor.EndCellsOffCentre | Pcolor.CentredEdgesCentred |

`Pcolor.PcolorHelper` keeps the edges as written, and `Pcolor.CentredEdge`
gives the centred variant.
