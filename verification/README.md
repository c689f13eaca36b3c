# flash_snowglobes in Dafny

A Dafny model of the exact-arithmetic core of flash_snowglobes. This
pipeline turns the neutrino light curves of a FLASH supernova simulation
into input files for SNOwGLoBES. It then reduces the detector's event
counts to totals and mean energies. Every number is a `real`. The model
covers index logic, shapes, orderings and algebraic identities. It does not
cover floating-point behaviour.

The modules follow the program's stages:

- `Numeric` (numeric.dfy) holds the array helpers the pipeline relies on:
  sums, dot products, element-wise accumulation into a zero array, column
  extraction, Python's `int()` truncation, and `Option`/`Result`.
- `Interpolation` (interpolation.dfy) models `interpolate_time`: numpy's
  left-sided `searchsorted` and the linear formula. numpy's negative index
  on the left neighbour is modelled explicitly.
- `TimeBinning` (timebinning.dfy) models `slice_timebin`. It cuts the raw
  timesteps into one output bin with one raw neighbour on each side, then
  overwrites both ends with the exact bin edges and interpolated values.
- `Fluence` (fluence.dfy) covers `get_fluences` as index and shape logic
  (bin edges, flavour classes, table shapes), plus `get_alpha` and the point
  count of `get_bins`.
- `FluxFiles` (fluxfiles.dfy) models `write_fluxes.py`: the key table
  relating file numbers to time bins, and the flux tables that spread the
  three computed flavour classes over six physical flavours.
- `Text` (text.dfy) models the tab-terminated lines of the time-integrated
  output file. A parser for those lines shows that the layout loses nothing.
- `Analysis` (analysis.dfy) models `flash2snowglobes/analysis.py`:
  - channel counts summed into groups and a running `Total`;
  - per-group totals and count-weighted mean energies, where a zero total
    gives a mean of 0;
  - the MeV energy grid;
  - the column order of the time table and of the time-integrated file.
- `SnowTools` (snowtools.dfy) models `snowglobes/snow_tools.py`:
  - integration over a leading window of time bins;
  - the cumulative mode that repeats it for every window size;
  - each channel's fraction of all events;
  - the `<y_var>_<channel>` column names.

Python dictionaries are Dafny maps. Where a dictionary's insertion order
decides a column order, the order is carried as an explicit key sequence
(`Analysis.InsertionOrder`). Such a sequence lists every key of its
dictionary exactly once (`Analysis.DictOrder`).

Errors are modelled as values. An IndexError or ValueError the code raises
becomes a `Failure`: too few time bins, energy bins or flavour columns
(`Fluence.GetFluences`, `FluxFiles.WriteFluxes`), moment arrays whose
widths do not broadcast (`Fluence.GetFluences`), groups that list no
channel at all (`Analysis.AnalyzeOutput`), a query past the last timestep
(`Interpolation.Interpolate`), and labelling an empty fraction table
(`SnowTools.GetChannelFractions`). A division by zero that numpy turns
into `nan` or `inf` gives `None` or a `Failure` in these places:
- `Interpolation.Interpolate` on a single timestep;
- `Fluence.GetAlpha`;
- `SnowTools.Divide`, `SnowTools.Ratios`, `SnowTools.FractionOf`.
`Analysis.AvgOf` follows the code's own zero guard. `Fluence.GetBins` fails
where Python's float division raises.

Decisions where the code was followed:

- Bin edges. The code of `slice_timebin` checks nothing; the model of it
  requires strictly increasing times and `time[0] < left < right <=
  time[last]`. Outside that range the code does this instead:
  - With `left <= time[0]` the start index `i_left - 1` is `-1`, which
    numpy reads as the last timestep. The slice is then empty, and
    replacing its ends raises IndexError (flash2snowglobes/convert.py:79).
    The exception is a right edge past the second-to-last timestep: the
    slice is then the last timestep alone, and the result silently
    degenerates to one sample.
  - With `right > time[last]`, `interpolate_time` reads `y_var[i_right]`
    one past the end and raises IndexError
    (flash2snowglobes/convert.py:140).
- Pinch-parameter sign. Some write-ups of the pinched spectrum give the
  pinch parameter as `(2<E>^2 - <E^2>)/(<E^2> - <E>^2)`. The code writes
  `(rms^2 - 2 avg^2)/(avg^2 - rms^2)`, with both signs flipped. The two are
  the same number (`Fluence.AlphaMatchesStandardForm`), so the code is
  modelled as written.
- Skipped masses. `get_channel_fractions` applies `np.mean` to a pandas
  column, and pandas skips `nan` entries. A mass where both `Tot_<c>` and
  `Tot_Total` are zero gives `0/0 = nan` and drops out of the mean
  (`SnowTools.FractionSkipsEmptyMass`). A mass with a zero total and a
  non-zero count gives an infinity, which the mean keeps, so the fraction
  is `None`.
- Zero totals. `time_integrate` divides by the window total with no zero
  guard, unlike `get_avg`. The model makes that division partial
  (`SnowTools.Divide`).

## Model

| member | source | states |
|---|---|---|
| Interpolation.SearchSorted | flash2snowglobes/convert.py:136 | the left insertion point: every earlier entry is below `v` and the entry at the point, if any, is at least `v` |
| Interpolation.SearchSortedUnique | flash2snowglobes/convert.py:136 | those two properties determine the insertion point uniquely |
| Interpolation.SearchSortedSplits | flash2snowglobes/convert.py:136 | on sorted input every entry from the insertion point on is at least `v` |
| Interpolation.BinarySearchLeft | flash2snowglobes/convert.py:136 | numpy's bisection returns the same index as the linear definition on strictly increasing input |
| Interpolation.SearchSortedInterval | flash2snowglobes/convert.py:136-137 | a query in `(time[i-1], time[i]]` lands on `i`: the search is right-closed |
| Interpolation.PyIndex | flash2snowglobes/convert.py:137-142 | Python indexing: a negative index counts from the end, and the result is always in range |
| Interpolation.Lerp | flash2snowglobes/convert.py:145 | the formula passes through both points: at `t0` it gives `y0` and at `t1` it gives `y1` |
| Interpolation.Interpolate | flash2snowglobes/convert.py:122-147 | fails with an index error exactly when the series is empty or `t` is after the last timestep; is `nan` (0 / 0) exactly for one timestep; otherwise one value per flavour, whose values `InterpolateAtTimestep`, `InterpolateBetween` and `InterpolateConstant` state |
| Interpolation.NeighboursApart | flash2snowglobes/convert.py:136-145 | the two rows the formula reads sit at different times exactly when there are two or more timesteps, including when the left index wraps to -1 |
| Interpolation.InterpolateAtTimestep | flash2snowglobes/convert.py:136-145 | querying at a stored timestep `time[k]` returns exactly `y[k]`, for every k including 0 where the left neighbour wraps |
| Interpolation.InterpolateBetween | flash2snowglobes/convert.py:136-145 | strictly between `time[i-1]` and `time[i]` the result is the lerp of rows `i-1` and `i`, with weight strictly between 0 and 1, and lies between their values |
| Interpolation.LerpConvex | flash2snowglobes/convert.py:145 | the formula is the convex combination `(1-lambda) y0 + lambda y1` and lies between `y0` and `y1` |
| Interpolation.InterpolateConstant | flash2snowglobes/convert.py:145 | a series equal to one row at every timestep interpolates to that row |
| Interpolation.LerpConstant | flash2snowglobes/convert.py:145 | the formula applied to two equal values returns that value |
| TimeBinning.SetEnds | flash2snowglobes/convert.py:79 | `a[[0, -1]] = ...` replaces only the two endpoints and keeps the length and the interior |
| TimeBinning.EdgeIndices | flash2snowglobes/convert.py:76 | for admissible edges `1 <= i_left <= i_right <= len(time) - 1`, so both slice bounds are in range |
| TimeBinning.SliceTimebin | flash2snowglobes/convert.py:65-89 | the slice has at least two samples and the same variables as its input; its contents are stated by `SliceTimes`, `SliceEndValues` and `SliceInteriorValues` |
| TimeBinning.SliceTime | flash2snowglobes/convert.py:76-79 | the time samples number `i_right - i_left + 2`, start and end at the bin edges, and interior position j is raw timestep `i_left - 1 + j` |
| TimeBinning.SliceVar | flash2snowglobes/convert.py:81-87 | one variable's rows number `i_right - i_left + 2`, its end rows are the values interpolated at the edges, and interior row j is raw row `i_left - 1 + j` |
| TimeBinning.InBinIsSearchSlice | flash2snowglobes/convert.py:76-78 | on sorted times, the filter "raw samples in [left, right)" equals the slice between the two insertion points |
| TimeBinning.InBinIsSearchSliceStep | flash2snowglobes/convert.py:76-78 | the same equality, proved by induction over adjacent-pair order |
| TimeBinning.SliceParts | flash2snowglobes/convert.py:76-79 | the time samples are `time[i_left-1 : i_right+1]` with both ends overwritten by the edges |
| TimeBinning.SliceVarPart | flash2snowglobes/convert.py:81-87 | each variable is its raw rows `i_left-1 .. i_right` with both ends overwritten by the values interpolated at the edges |
| TimeBinning.SliceEdges | flash2snowglobes/convert.py:79 | the first and last time samples are exactly the left and right edges |
| TimeBinning.SliceTimes | flash2snowglobes/convert.py:76-79 | the slice holds `i_right - i_left + 2` samples, starts and ends at the edges, and its interior is exactly the raw timesteps in `[left, right)`, in order |
| TimeBinning.SliceEndValues | flash2snowglobes/convert.py:83-87 | each variable has one row per time sample, and its end rows are `interpolate_time` at the edges |
| TimeBinning.SliceInteriorValues | flash2snowglobes/convert.py:78-83 | interior position j holds raw timestep `i_left - 1 + j` unchanged: time and row together |
| TimeBinning.SliceEdgeOnTimestep | flash2snowglobes/convert.py:86-87 | an edge that coincides with a raw timestep gets that timestep's raw row as its end row |
| Fluence.BinWidth | flash2snowglobes/convert.py:39 | the bin width is positive for strictly increasing bins |
| Fluence.FullTimebins | flash2snowglobes/convert.py:39-40 | the left edges followed by one extra edge `timebins[last] + (timebins[1] - timebins[0])` |
| Fluence.EdgesIncrease | flash2snowglobes/convert.py:39-45 | the edges of bin i are increasing and lie within `[timebins[0], last + dt]` |
| Fluence.FullEdges | flash2snowglobes/convert.py:39-45 | bin i spans `[timebins[i], timebins[i+1]]`, and the last bin ends at `timebins[last] + dt` |
| Fluence.BinSliceOf | flash2snowglobes/convert.py:44-49 | each bin's slice carries the three moments `lum`, `avg` and `rms` |
| Fluence.MomentsAligned | flash2snowglobes/convert.py:47-49 | the three moment arrays passed to `slice_timebin` are aligned with `time` |
| Fluence.BinEdges | flash2snowglobes/convert.py:39-49 | bin i's slice starts at `timebins[i]` and ends at the next left edge, or at `last + dt` for the last bin |
| Fluence.GetFluences | flash2snowglobes/convert.py:12-62 | fails, in this order, exactly for fewer than two time bins (line 39), fewer than two energy bins (line 109), `avg` or `rms` rows whose width is neither that of `lum` nor 1 (the broadcast at lines 112-117) or fewer than three flavour columns (line 60); otherwise exactly the flavours e, a and x, each of shape n_timebins x n_ebins, with entries placed as `FluenceEntry` states |
| Fluence.FlavorFluences | flash2snowglobes/convert.py:42-60 | one flavour's table has n_timebins rows of n_ebins entries |
| Fluence.FluenceEntry | flash2snowglobes/convert.py:57-60 | the fluences exist for two energy bins, three flavour columns and moment widths that broadcast, and entry (i, k) of flavour `Flavors[j]` is the fluence of bin i's slice for flavour position j in energy bin k |
| Fluence.Broadcast | flash2snowglobes/convert.py:112-117 | numpy's broadcasting of two widths: defined exactly when they are equal or one is 1, and then the result is the width that is not 1 |
| Fluence.SpectrumWidth | flash2snowglobes/convert.py:112-117 | the flux of one energy bin has a width exactly when `avg` broadcasts with `rms` (get_alpha) and `lum` broadcasts with both |
| Fluence.SpectrumFitsWidths | flash2snowglobes/convert.py:111-117 | storing the flux into the `n_flavors` slot succeeds exactly when `avg` and `rms` are each as wide as `lum` or one wide |
| Fluence.GetAlpha | flash2snowglobes/convert.py:195-205 | a number exactly when `avg^2 != rms^2`, and then `alpha * (avg^2 - rms^2) == rms^2 - 2 avg^2` |
| Fluence.AlphaPlusOne | flash2snowglobes/convert.py:195-205 | `alpha + 1 == avg^2 / (rms^2 - avg^2)` |
| Fluence.AlphaAboveMinusOne | flash2snowglobes/convert.py:195-205 | for `avg != 0`, alpha exceeds -1 exactly when `rms^2 > avg^2` |
| Fluence.AlphaMatchesStandardForm | flash2snowglobes/convert.py:195-205 | the formula as written equals `(2 avg^2 - rms^2)/(rms^2 - avg^2)` |
| Fluence.GetBins | flash2snowglobes/convert.py:171-192 | the point count fails exactly for a zero bin size or a negative count; its value is stated by `GetBinsCount` and `GetBinsOpposite`, which between them cover every non-zero bin size |
| Fluence.GetBinsCount | flash2snowglobes/convert.py:187-192 | when the range and `dx` point the same way (either sign), the count exists, without the endpoint it is the number of whole bins that fit, `n·|dx| <= |x1 - x0| < (n+1)·|dx|`, and the endpoint adds exactly one |
| Fluence.GetBinsOpposite | flash2snowglobes/convert.py:187-192 | when the range points against `dx`, `int()` truncates toward zero: without the endpoint the count exists (and is 0) exactly for a range shorter than one bin; with it, exactly for a range shorter than two bins, and it is 1 exactly for a range shorter than one bin |
| FluxFiles.GetKeyTable | write_fluxes.py:44-59 | one key row per time bin; the columns are stated by `KeyTableColumns` and read back by `KeyTableLookup` |
| FluxFiles.KeyTableColumns | write_fluxes.py:54-58 | the index column is 1..n in order, the time column is `timebins`, and the dt column is one value on every row |
| FluxFiles.FileForTime | write_fluxes.py:44-59 | a reference definition, not in the code: reading the key table backwards finds a file number exactly when some row starts at that time |
| FluxFiles.KeyTableLookup | write_fluxes.py:44-59 | on strictly increasing bins, looking up bin i's left edge in the key table finds file i + 1 |
| FluxFiles.FileForTimeUnique | write_fluxes.py:55-56 | a time that starts exactly one row is found at that row |
| FluxFiles.GetFluxTable | write_fluxes.py:62-87 | one row per energy bin, each of 7 columns; the column contents are stated by `FluxTableColumns` |
| FluxFiles.ClassOfColumn | write_fluxes.py:74-80 | every flavour column takes one of the classes e, a or x |
| FluxFiles.FlavorMapShape | write_fluxes.py:74-85 | the columns are E_nu, e, mu, tau, ebar, mubar, taubar; e takes class e, ebar takes class a, the other four take class x, and all three classes are used |
| FluxFiles.FluxTableColumns | write_fluxes.py:81-87 | column 0 is the energy grid and flavour column c is time-bin row `time_i` of its class |
| FluxFiles.HeavyFlavorsAgree | write_fluxes.py:74-85 | mu, tau, mubar and taubar hold identical values, those of class x |
| FluxFiles.WriteFluxes | write_fluxes.py:6-41 | fails exactly for fewer than two time bins (line 25); otherwise as many key rows as flux files as time bins, numbered as `WriteFluxesNumbering` states |
| FluxFiles.WriteFluxesNumbering | write_fluxes.py:25-41 | flux file i is numbered i + 1, the same as bin i's key row; that row holds `timebins[i]` and `timebins[1] - timebins[0]` |
| FluxFiles.FluencesFeedFluxTables | write_fluxes.py:84-85 | the fluences `get_fluences` returns hold every class and row that `get_flux_table` looks up, so no lookup fails and `write_fluxes` succeeds on the same bins |
| Text.Terminated | flash2snowglobes/analysis.py:190-196 | cells each followed by a tab: empty only for no cells, and otherwise ending in a tab |
| Text.TabLine | flash2snowglobes/analysis.py:190-198 | a written line ends in a newline, preceded by a tab when it has cells |
| Text.ParseTabLine | flash2snowglobes/analysis.py:198-200 | a reference reader, not in the code: a line is accepted exactly when it ends in a newline |
| Text.SplitTerminatedInverse | flash2snowglobes/analysis.py:190-196 | splitting tab-terminated cells that contain no tab gives the cells back |
| Text.TabLineRoundTrip | flash2snowglobes/analysis.py:190-200 | every written line parses back to exactly its cells |
| Text.TerminatedTabs | flash2snowglobes/analysis.py:190-196 | a line carries one tab per cell |
| Analysis.GetAllChannels | flash2snowglobes/analysis.py:69-76 | a channel is listed exactly when some group lists it |
| Analysis.AllChannelsLength | flash2snowglobes/analysis.py:69-76 | the list is as long as the group sizes added up |
| Analysis.AllChannelsIndex | flash2snowglobes/analysis.py:69-76 | channel j of group i sits at position (sizes of earlier groups) + j: the lists are concatenated in group order |
| Analysis.GetGroupCounts | flash2snowglobes/analysis.py:113-127 | keys are exactly `Total` and the group names, and every array has n_bins entries |
| Analysis.GroupSum | flash2snowglobes/analysis.py:119-122 | a group's array has n_bins entries; `GroupSumEntry` states its contents |
| Analysis.GroupSumEntry | flash2snowglobes/analysis.py:119-122 | entry e of a group's array is the sum of entry e over its channels |
| Analysis.GroupCountsUnfold | flash2snowglobes/analysis.py:118-125 | one loop step: the group's sum is added to `Total` and stored under the group name |
| Analysis.GroupCountsOfGroup | flash2snowglobes/analysis.py:118-125 | each group's array is the element-wise sum of its own channels' arrays |
| Analysis.GroupCountsTotal | flash2snowglobes/analysis.py:116-124 | `Total` is the element-wise sum of the group arrays |
| Analysis.TotalOverAllChannels | flash2snowglobes/analysis.py:113-127 | `Total` is the sum over the concatenated channel list, so a channel in two groups counts twice |
| Analysis.GetTotals | flash2snowglobes/analysis.py:130-137 | same keys as the counts; non-negative counts give a non-negative total |
| Analysis.TotalsEntry | flash2snowglobes/analysis.py:135 | each total is the sum of its array over the energy bins |
| Analysis.TotalOfTotals | flash2snowglobes/analysis.py:113-137 | the `Total` total equals the sum of the group totals |
| Analysis.RowSumsAreTotals | flash2snowglobes/analysis.py:118-135 | group i's total is the sum of its group array |
| Analysis.AvgOf | flash2snowglobes/analysis.py:146-149 | a zero total gives exactly 0 |
| Analysis.AvgTimesTotal | flash2snowglobes/analysis.py:146-147 | for a non-zero total, the mean times the total gives back the weighted sum |
| Analysis.GetAvg | flash2snowglobes/analysis.py:140-153 | one mean per key of the totals, and 0 for every zero total |
| Analysis.AvgWithinEnergyRange | flash2snowglobes/analysis.py:146-147 | with non-negative counts and a non-zero total, the mean lies within the energy range of the bins |
| Analysis.AvgOfConstantEnergy | flash2snowglobes/analysis.py:146-147 | when every bin has energy c, the mean is c |
| Analysis.KeySetsAgree | flash2snowglobes/analysis.py:116-151 | counts, totals and means all have exactly the keys `Total` and the group names |
| Analysis.ScaleEnergyBins | flash2snowglobes/analysis.py:102-107 | one entry per GeV entry, and dividing each by 1000 gives the GeV value back |
| Analysis.MeanEnergyInMeV | flash2snowglobes/analysis.py:102-107 | a mean energy against the MeV grid is 1000 times the mean against the GeV grid |
| Analysis.ScaleKeepsOrder | flash2snowglobes/analysis.py:107 | scaling keeps the grid strictly increasing |
| Analysis.InsertionOrder | flash2snowglobes/analysis.py:28-33 | the keys of a dictionary filled in order: each key once, no more and no fewer |
| Analysis.TimeKeys | flash2snowglobes/analysis.py:28-33 | the keys of `time_totals` and `time_avg` are `Total` and the group names, each once |
| Analysis.InsertionOrderFresh | flash2snowglobes/analysis.py:28-33 | keys that are new and distinct are appended in the order given |
| Analysis.TimeKeysPlain | flash2snowglobes/analysis.py:28-33 | with distinct names and none called `Total`, the key order is `Total` followed by the groups in order |
| Analysis.CreateTimeTable | flash2snowglobes/analysis.py:159-171 | `Time` comes first, with one column per mean-energy key and one per total key after it; the headings are stated by `AvgHeadingUnique` and `TotHeadingUnique` |
| Analysis.FindColumn | flash2snowglobes/analysis.py:159-171 | a reference reader, not in the code: a heading is found exactly when some column carries it |
| Analysis.TimeTableLookup | flash2snowglobes/analysis.py:159-171 | `Avg_<k>` reads back `time_avg[k]` and `Tot_<k>` reads back `time_totals[k]` |
| Analysis.AvgHeadingUnique | flash2snowglobes/analysis.py:165-166 | column 1 + i is `Avg_<keys[i]>`, and no other column has that heading |
| Analysis.TotHeadingUnique | flash2snowglobes/analysis.py:168-169 | column 1 + n + i is `Tot_<keys[i]>`, and no other column has that heading |
| Analysis.HeaderCells | flash2snowglobes/analysis.py:218-226 | the header has 3 + 2 n_groups cells |
| Analysis.OpenTotFile | flash2snowglobes/analysis.py:218-231 | the header is a well-formed line |
| Analysis.IntegratedCells | flash2snowglobes/analysis.py:190-196 | a data line holds the mass, then one cell per mean and one per total |
| Analysis.WriteToIntegratedFile | flash2snowglobes/analysis.py:187-200 | every data line is a well-formed line |
| Analysis.HeaderLayout | flash2snowglobes/analysis.py:218-226 | Mass, Avg_Total, Avg_<g>..., Tot_Total, Tot_<g>... in that order |
| Analysis.IntegratedLayout | flash2snowglobes/analysis.py:190-196 | the mass, the means in key order, then the totals in key order |
| Analysis.IntegratedLineAligned | flash2snowglobes/analysis.py:187-226 | header and data line have the same number of cells, and cell j of the line holds the quantity that cell j of the header names |
| Analysis.IntegratedCellsPlain | flash2snowglobes/analysis.py:190-196 | no data cell contains a tab or newline when the mass and the printed numbers have none |
| Analysis.IntegratedFileReadsBack | flash2snowglobes/analysis.py:187-233 | the header and every data line read back to exactly the cells written |
| Analysis.StepCounts | flash2snowglobes/analysis.py:35-44 | each timestep's group counts carry the time-table keys, each array n_bins long |
| Analysis.StepAvg | flash2snowglobes/analysis.py:46-49 | the mean energy of every key is its count-weighted energy over its own total, or 0 for a zero total |
| Analysis.TimeTotals | flash2snowglobes/analysis.py:28-53 | one totals series per key, one entry per timestep |
| Analysis.TimeAvg | flash2snowglobes/analysis.py:28-53 | one mean-energy series per key, one entry per timestep |
| Analysis.TimeColumnsEntry | flash2snowglobes/analysis.py:35-53 | entry i of a key's series is that key's total and mean energy at timestep i, against the MeV grid |
| Analysis.AnalyzeOutput | flash2snowglobes/analysis.py:6-63 | fails exactly when no group lists a channel (the energy grid is read from `channels[0]`, line 21); otherwise the time table has `Time` plus two columns per key, whose values `AnalyzeOutputColumns` states |
| Analysis.AllChannelsEmpty | flash2snowglobes/analysis.py:69-76 | the channel list of all groups is empty exactly when every group's channel list is empty |
| Analysis.AnalyzeOutputColumns | flash2snowglobes/analysis.py:6-57 | when the analysis succeeds, for `Total` and every group, `Tot_<g>` at timestep i is the total of g's counts and `Avg_<g>` is g's mean energy on the MeV grid |
| SnowTools.YColumn | snowglobes/snow_tools.py:220-230 | the name is as long as quantity, underscore and channel together |
| SnowTools.SplitColumn | snowglobes/snow_tools.py:220-230 | a reference reader, not in the code: a name splits exactly when it has an underscore, and the part before has none |
| SnowTools.YColumnSplit | snowglobes/snow_tools.py:220-230 | splitting `y_column(y_var, channel)` at the first underscore gives back both parts when `y_var` has no underscore |
| SnowTools.YColumnInjective | snowglobes/snow_tools.py:230 | for one quantity, different channels give different names |
| SnowTools.TotAvgDistinct | snowglobes/snow_tools.py:119-120 | a `Tot_` column is never an `Avg_` column |
| SnowTools.ColumnsDiffer | snowglobes/snow_tools.py:118-126 | different channels share none of their four columns |
| SnowTools.Window | snowglobes/snow_tools.py:114 | the first min(n, length) values |
| SnowTools.WindowTot | snowglobes/snow_tools.py:114-122 | an empty window totals 0, and a window reaching past the end totals the whole column; `WindowTotGrows` states each step |
| SnowTools.WindowAvg | snowglobes/snow_tools.py:123-126 | defined exactly when the window total is non-zero, and then mean times total is the total-weighted sum of `Avg` |
| SnowTools.WindowGrows | snowglobes/snow_tools.py:114-115 | a window one bin wider adds that bin's value to the sum; past the end the window stops changing |
| SnowTools.Divide | snowglobes/snow_tools.py:126 | defined exactly for a non-zero divisor, and then quotient times divisor is the dividend |
| SnowTools.IntegrateTable | snowglobes/snow_tools.py:118-126 | every listed channel gets a `Tot_` and an `Avg_` entry, and nothing else is written |
| SnowTools.IntegrateTableUnfold | snowglobes/snow_tools.py:118-126 | one loop step assigns the channel's `Tot_` column, then its `Avg_` column |
| SnowTools.IntegrateTableLookup | snowglobes/snow_tools.py:118-126 | whatever the order or repetition of channels, each listed channel holds its window total and its window mean energy |
| SnowTools.TimeIntegrate | snowglobes/snow_tools.py:96-128 | one integrated table per mass; its entries are stated by `TimeIntegrateColumns` |
| SnowTools.TimeIntegrateTot | snowglobes/snow_tools.py:111-125 | `Tot_<c>` of each mass is the window total, for `Total` and every listed channel |
| SnowTools.TimeIntegrateColumns | snowglobes/snow_tools.py:111-128 | `Tot_<c>` is the sum of the first min(n, length) totals and `Avg_<c>` is the total-weighted `Avg_<c>` over that sum, for `Total` and every listed channel |
| SnowTools.WindowAvgConstant | snowglobes/snow_tools.py:123-126 | a mean energy equal to e in every bin of the window integrates to e when the window total is non-zero |
| SnowTools.WindowAvgBounds | snowglobes/snow_tools.py:123-126 | with non-negative counts and a positive window total, the integrated mean lies between the smallest and largest per-bin mean |
| SnowTools.GetCumulative | snowglobes/snow_tools.py:131-157 | fails exactly when `max_n_bins < 1`; otherwise one entry per window size, each with one table per mass |
| SnowTools.CumulativeEntry | snowglobes/snow_tools.py:146-151 | entry b is `time_integrate` over the first b + 1 bins |
| SnowTools.CumulativeTot | snowglobes/snow_tools.py:146-151 | entry b holds, for every mass and channel, the total over the first b + 1 bins |
| SnowTools.WindowTotGrows | snowglobes/snow_tools.py:114-122 | a window one bin wider adds that bin's count to the channel total, and stops changing past the end |
| SnowTools.CumulativeStep | snowglobes/snow_tools.py:114-151 | consecutive cumulative totals differ by exactly the count of the added bin |
| SnowTools.CumulativeMonotone | snowglobes/snow_tools.py:114-151 | with non-negative counts the cumulative totals never decrease |
| SnowTools.Mean | snowglobes/snow_tools.py:177 | `np.mean` is defined exactly for a non-empty array, and then mean times length is the sum |
| SnowTools.NonZeroIndices | snowglobes/snow_tools.py:177 | the positions whose total is non-zero, all of them and in increasing order |
| SnowTools.NonZeroIndicesAll | snowglobes/snow_tools.py:177 | with no zero total every position is kept |
| SnowTools.Ratios | snowglobes/snow_tools.py:177 | no entry is infinite exactly when every zero total has a zero count; then one quotient per non-zero total, which times that total is the count |
| SnowTools.FractionOf | snowglobes/snow_tools.py:177 | the mean is a number exactly when no entry is infinite and some total is non-zero |
| SnowTools.ChannelFraction | snowglobes/snow_tools.py:177 | a channel's fraction exists exactly when every zero `Tot_Total` has a zero `Tot_<c>` and some `Tot_Total` is non-zero |
| SnowTools.FractionSkipsEmptyMass | snowglobes/snow_tools.py:177 | a mass with zero counts is a `nan` the mean skips: adding one leaves the fraction unchanged |
| SnowTools.FractionOfExample | snowglobes/snow_tools.py:177 | totals `[0, 2]` and channel counts `[0, 1]` give the fraction 0.5 |
| SnowTools.GetChannelFractions | snowglobes/snow_tools.py:160-182 | fails exactly for no model sets and a non-empty channel list (line 181); otherwise one fraction per channel for every model set, and no other model sets |
| SnowTools.Shares | snowglobes/snow_tools.py:177 | one share per mass; `ChannelFractionValue` states that the fraction is their mean |
| SnowTools.ChannelFractionValue | snowglobes/snow_tools.py:177 | when no total is zero nothing is skipped: the fraction exists exactly when there are masses, and is the mean over all masses of `Tot_c / Tot_Total` |
| SnowTools.CountsAt | snowglobes/snow_tools.py:177 | one count per listed channel at the given mass |
| SnowTools.Fractions | snowglobes/snow_tools.py:176-179 | one fraction per channel, in channel order |
| SnowTools.FractionOfRow | snowglobes/snow_tools.py:176-177 | channel i's fraction is its summed shares over the number of masses |
| SnowTools.SharesAtMass | snowglobes/snow_tools.py:177 | at one mass, the shares of channels that partition the total add up to one |
| SnowTools.SharesSumToMassCount | snowglobes/snow_tools.py:176-177 | summed over channels and masses, the shares give the number of masses |
| SnowTools.FractionsSumToOne | snowglobes/snow_tools.py:170-182 | when the listed channels partition `Total` at every mass, their fractions add up to one |
| SnowTools.ChannelFractionsSumToOne | snowglobes/snow_tools.py:160-182 | the same holds for each model set of `get_channel_fractions`, whose rows are in channel order |
| SnowTools.ChannelFractionBounds | snowglobes/snow_tools.py:177 | a channel whose count lies between 0 and the total at every mass, with some total non-zero, has a fraction between 0 and 1 |

## Left out

- The spectral shape `get_phi`, the flux values of `get_flux_spectrum` and the trapezoidal time integral (flash2snowglobes/convert.py:51-57, 92-119, 150-168) are left out. They use the Gamma function, real powers, `exp` and scipy. `Fluence.GetFluences` takes their combined result for one bin, flavour and energy bin as the function parameter `binFluence`. Only where that result is placed is modelled.
- The point values of `np.linspace` in `get_bins` are left out. `Fluence.GetBins` returns only how many points there are.
- Fluence.GetFluences: requires every bin edge to be admissible for `slice_timebin`, that is `time[0] < timebins[0]` and `timebins[last] + dt <= time[last]`. For other inputs numpy wraps a -1 index or indexes past the end. The moment arrays must also have one row per timestep, rows of one width, and strictly increasing times.
- TimeBinning.SliceTimebin: requires `time[0] < left < right <= time[last]` and strictly increasing times, for the same reason.
- Interpolation.Interpolate: requires strictly increasing times and rows of one width. Unsorted times make `searchsorted` meaningless.
- File input and output are left out. This covers `np.loadtxt`/`genfromtxt`, `load_channel_counts`, `load_channel_dat`, `channel_dat_filepath` and `save_time_table` (flash2snowglobes/analysis.py:79-107, 174-181), the file writing of `write_fluxes`, and the loaders of snowglobes/snow_tools.py:14-90. The model takes the loaded values as inputs. A data line's numbers are printed by a `format` parameter, and the mass is given as text.
- The environment-variable path functions (snowglobes/snow_tools.py:188-217) are left out. They only build file paths.
- Floating point is left out. Numbers are exact reals, so IEEE rounding, `nan` and `inf` are not modelled. Where the code's result would be `nan` or `inf`, the model returns `None` or a `Failure`, as listed above. Where a `nan` is skipped by a mean, the model skips that entry (`SnowTools.Ratios`).
- The xarray and pandas containers are left out. A table is a map from column name to values. The column order of the `time_integrate` dataset and of `frac_table` is not modelled: the first is a map keyed by column, the second a map from model set to fractions in channel order. xarray pads tables of different lengths with `nan` and skips it when summing.
- Analysis.GroupCountsOfGroup: proved only for distinct group names with none called `Total`. A group named `Total` overwrites the running total. `GetGroupCounts` models that overwrite, but no lemma describes the result.
- Analysis.GroupCountsTotal: proved only when no group is called `Total`, for the same reason.
- SnowTools.TimeIntegrate: takes the first n bins of each mass table's own time series. The code takes the first n entries of the shared `Time` coordinate of the concatenated dataset. The two agree when every mass has the same time grid. On different grids the outer join can put a `nan` padding entry in a mass's first n positions, and then the code sums fewer real bins than the model.
- Analysis.TotalOverAllChannels: proved only when no group is called `Total`, because such a group overwrites the running total.
- Analysis.RowSumsAreTotals: proved only when no group is called `Total`. Such a group's array is replaced by the running total. Group names are distinct in the code because `groups` is a dictionary; the model's group list needs that stated.
- Analysis.IntegratedLineAligned: proved only when the dictionaries list `Total` and the group names each once, which needs a group list with no group called `Total`. With such a group the header has more cells than the dictionaries have entries.
- Analysis.TotalOfTotals: proved only for distinct group names with none called `Total`.
- SnowTools.FractionsSumToOne: proved only for channels that partition `Tot_Total` at every mass. The source promises nothing for other channel lists.
- Both `SnowGlobesData` classes (snowglobes/snowglobes.py and snowglobes.py) are not part of this model. They orchestrate loading, plotting and printing.
