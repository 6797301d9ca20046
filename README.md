# X-ray light-curve phase tools, modelled in Dafny

This project models the logic of a small set of Python scripts for X-ray
light curves. At its core:

- **Flux-resolved GTIs** (`fluxResolve.py`):
  - the region of interest `start < t <= end`;
  - an edge-triggered High/Low scan around `mean ± sig`;
  - pruning of short Low phases from the list while it is being enumerated;
  - the two files `gti_High.txt` and `gti_Low.txt` of lines `"<start> <stop> +"`.
- **Phase-resolved GTIs** (`phaseResolve.py`): the same region and files, but
  every sample is classified by comparing a fitted sinusoid with the mean rate.

Utilities:

- **quickView.py**: a stable sort of light curves by first time, then grouping
  into plot windows by span containment, then the subplot layout lookup.
- **plotMCMC.py**: the free-parameter map; requested parameters (`7` or
  `3-5`); selection of free parameters, skipping frozen `N` entries; the
  corner-plot columns and labels.
- **logCommands.py**: the per-line filter of an XSPEC log, with its `supress`
  and `long` modes.
- **LightCurveCut.py**: the `start,stop` split; the open-interval cut of the
  three aligned arrays, done in place on a `LightCurve` object; output names;
  the loop over a directory.

Python's semantics are modelled explicitly where they matter:

- `round` rounds half to even (`Rounding`).
- `int()` strips, takes an optional sign, then digits (`Decimal.PyInt`).
- `str.split()` and `str.split(sep)` are modelled (`Text`).
- Negative list indices are modelled (`PlotMcmc.PyIndex`).
- `range(lo, hi + 1)` is modelled.
- Raised exceptions become `Result` errors (`Wrappers.Error`).

Times and rates are exact `real`s. `np.mean` is the exact sum over the count.

Most of the scripts' loops are `method`s. Each is proved equal to a recursive
specification function, and the scripts' promises are lemmas about those
functions. Examples:

- `FluxResolve.FindPhases` is proved against `Scan`, `PruneShortPhases` against
  `PruneFrom`, and `Gti.WriteGtiFile` against `Records`.
- `QuickView.AssignWindows` is proved against `Assign`.
- `PlotMcmc.ParsePars` is proved against `ExpandAll`, and `SelectFree` against
  `FreeAll`.
- `LightCurveCut.CutDirectory` is proved against `CutFiles`, and
  `CutFilesFromFitsEntries` ties `CutFiles` to the `.fits` entries of the
  directory (`FitsIndices`).

The read loop of `logCommands.py` is not a method. It is the recursive
function `LogCommands.Printed`, over the list of lines, and its promises are
lemmas about that function.

The cut of `LightCurveCut.py` overwrites the fields of a light-curve object.
It is the method `LightCurveCut.LightCurve.Cut`, which `modifies this`.

Where the documentation and the code disagree, the model follows the code.
The usage text of `logCommands.py` says long commands have more than 100
characters. The code counts whitespace-separated words (`len(line.split()) <
100`), and so does `LogCommands.FilterLine`.

## Model

| member | source | states |
|---|---|---|
| Samples.Select | fluxResolve.py:63-64 | masking time, rate and error by the time mask keeps them aligned, and the kept samples are exactly those the reference selection keeps, in order |
| Samples.SelectKeeps | phaseResolve.py:98-99 | element-wise mask then boolean indexing of the three arrays equals the in-order selection of samples whose time lies in the window |
| Samples.CompressLength | LightCurveCut.py:49-51 | two arrays of equal length masked by the same mask keep equal lengths |
| Samples.KeepMembers | fluxResolve.py:63 | a sample survives exactly when it is an input sample whose time lies in the window (`start < t <= end` or `start < t < stop`) |
| Samples.KeepAppend | fluxResolve.py:63-64 | selection distributes over concatenation, so order is preserved |
| Samples.KeepIdempotent | LightCurveCut.py:47-51 | selecting a selection again with the same window changes nothing |
| Samples.SelectIdempotent | LightCurveCut.py:47-51 | masking the three arrays twice with the same window gives the same arrays as once |
| Rounding.Round | fluxResolve.py:105 | `round(t)` is within one half of `t`, and even when `t` is exactly halfway |
| Rounding.RoundUnique | fluxResolve.py:105 | any integer meeting those two conditions is `round(t)`: the contract determines the result |
| Rounding.RoundWhole | phaseResolve.py:169 | a whole number of seconds is written unchanged |
| Rounding.RoundMonotone | fluxResolve.py:105 | rounding never reverses the order of two times |
| Decimal.ShowInt | fluxResolve.py:105 | `str(n)` is non-empty text without whitespace, starting with `-` exactly when `n < 0` |
| Decimal.ParseDigits | plotMCMC.py:48 | a digit string has a value exactly when it is non-empty and all digits |
| Decimal.ParseShowNat | plotMCMC.py:48 | the digits of a natural number read back as that number |
| Decimal.PyInt | plotMCMC.py:48-49 | `int(s)` fails only with `ValueError`, the exception the script catches |
| Decimal.PyIntShowInt | plotMCMC.py:62 | `int(str(n)) == n` for every integer |
| Text.Words | plotMCMC.py:42 | `split()` yields non-empty tokens free of whitespace |
| Text.WordsJoinWords | plotMCMC.py:42-43 | splitting space-joined tokens gives back the same tokens, in order |
| Text.WordsCons | logCommands.py:39 | a word followed by whitespace is the first token, then the tokens of the rest |
| Text.FindIsFirst | logCommands.py:43 | the separator search finds the first occurrence, and finds none exactly when there is none |
| Text.Split | plotMCMC.py:50 | `s.split(sep)` always has at least one piece, so `[0]` never fails |
| Text.JoinSplit | plotMCMC.py:50-51 | joining the pieces with the separator gives back the input |
| Text.SplitPiecesFree | LightCurveCut.py:40 | no piece contains the separator |
| Text.SplitFirstTwo | logCommands.py:40 | there is a second piece exactly when the separator occurs; the first piece ends at its first occurrence and the second at the next one or the end |
| Text.SplitAfter | LightCurveCut.py:40 | text without a separator match, then the separator, splits into that text followed by the pieces of the rest |
| Text.SplitWhole | LightCurveCut.py:40 | text without the separator is a single piece |
| Text.Strip | plotMCMC.py:48 | the stripped text neither starts nor ends with whitespace |
| Text.StripTrims | plotMCMC.py:48 | the stripped text is a slice of the input with only whitespace before and after it, so with `Strip`'s own contract exactly the leading and trailing whitespace goes |
| Gti.AlternatesIffParity | fluxResolve.py:80-86 | a point list never repeats a label between neighbours exactly when even positions carry the first label and odd positions the other |
| Gti.IndicesBelow | fluxResolve.py:102-103 | the visited indices with the file's label are below the bound, carry that label and ascend |
| Gti.IndicesBelowMembers | fluxResolve.py:102-103 | an index is listed exactly when it is below the bound and its point has the file's label |
| Gti.FileNames | fluxResolve.py:101 | the High and Low points go to the two different files `gti_High.txt` and `gti_Low.txt` |
| Gti.IndicesBelowSplit | fluxResolve.py:100-103 | every visited point goes to exactly one of the two files |
| Gti.WriteGtiFile | fluxResolve.py:100-105 | the writer loop emits the rendered records of the points opening an interval of its label, in index order |
| Gti.WrittenStep | phaseResolve.py:166-169 | visiting point `i` adds its line exactly when it carries the file's label |
| Gti.LineCount | fluxResolve.py:96-105 | the two files together hold `len(gti_points) - 1` lines: no closing point is added |
| Gti.RecordsCharacterized | phaseResolve.py:164-169 | line `k` of a file is `round(t_i) round(t_{i+1})` for a non-last point `i` with the file's label; every such point has a line, in ascending order |
| Gti.RecordsOrdered | fluxResolve.py:105 | with increasing point times, every written interval has start <= stop |
| Gti.RenderWords | fluxResolve.py:105 | a written line consists of three tokens: the two rounded times and `+` |
| Gti.ParseRender | phaseResolve.py:169 | every written line reads back as the interval it was written from |
| FluxResolve.FindPhases | fluxResolve.py:74-86 | the scan loop computes `Scan`; its list starts `(times[0], High)`, alternates with High at even positions, and has at most one point per sample |
| FluxResolve.StepCases | fluxResolve.py:80-86 | a sample adds a High point exactly when its rate rose above `mean+sig` from a prior rate at or below it and the last label is not High, symmetrically for Low, and never both |
| FluxResolve.ScanShape | fluxResolve.py:75-86 | the first point is `(times[0], High)` whatever `rates[0]` is; parity from High; each sample only extends the list |
| FluxResolve.ScanTimes | fluxResolve.py:80-86 | with strictly increasing sample times, point times strictly increase and each is a sample time |
| FluxResolve.PruneShortPhases | fluxResolve.py:88-95 | the pruning loop computes `PruneFrom`; it keeps the first point and the High/Low parity, only deletes points, and removes an even number |
| FluxResolve.PruneKeepsPrefix | fluxResolve.py:89-94 | the points before the current index, and the first point, survive |
| FluxResolve.PruneRemovesPairs | fluxResolve.py:92-94 | points are removed two at a time |
| FluxResolve.PruneKeepsParity | fluxResolve.py:89-94 | removal keeps High at even and Low at odd positions |
| FluxResolve.PruneDeletesOnly | fluxResolve.py:89-94 | the result is a subsequence of the input: survivors keep their values and order, nothing is added |
| FluxResolve.PruneNoShortPhase | fluxResolve.py:90-92 | with no short odd-indexed phase, pruning changes nothing |
| FluxResolve.PopsOnlyLowThenHigh | fluxResolve.py:90-94 | only a Low point and the High point after it are ever popped: short High phases stay |
| FluxResolve.PruneSkipsSlidInPoint | fluxResolve.py:89-94 | the point that slides into the popped index is not re-examined: a short Low phase survives the pass |
| FluxResolve.PruneCanDropClosingPoint | fluxResolve.py:90-94 | a short Low phase just before the closing point takes the region's end boundary with it |
| FluxResolve.Resolve | fluxResolve.py:63-105 | an empty region raises `IndexError`; otherwise the two files hold the records of the pruned scan, `len(gti_points) - 1` lines in all |
| PhaseResolve.SinModel | phaseResolve.py:71-74 | `sin_model` is exactly 0 whenever the phase exceeds 1 |
| PhaseResolve.SinModelRange | phaseResolve.py:71-74 | for phase <= 1 the model stays within one amplitude of its level; above 1 it is 0 whatever the other parameters |
| PhaseResolve.LabelOf | phaseResolve.py:141-147 | High exactly above the mean, Low exactly below, nothing exactly on it |
| PhaseResolve.ClassifyPhases | phaseResolve.py:140-160 | the classification loop computes `Points`; it fails with `IndexError` exactly for an empty region and with `EquivocalPhase` (the script's exit) exactly for a first value equal to the mean; the first point is `times[0]` with the label of its comparison; at most one point more than samples |
| PhaseResolve.InteriorStepCases | phaseResolve.py:151-155 | an interior sample adds a point exactly when its strict comparison gives a label different from the last; a tie adds nothing |
| PhaseResolve.InteriorParity | phaseResolve.py:151-155 | the interior list starts at the first sample, follows the parity of its first label, and has at most one point per sample |
| PhaseResolve.InteriorShape | phaseResolve.py:151-155 | the interior list strictly alternates |
| PhaseResolve.InteriorFromSamples | phaseResolve.py:151-155 | every interior point is the time and strict comparison label of one of the samples seen |
| PhaseResolve.PointsShape | phaseResolve.py:140-160 | the final list is the alternating interior list plus a closing point exactly when the last value is not a tie, with that sample's label and no change test; every point comes from a sample |
| PhaseResolve.SameLabelAtEnd | phaseResolve.py:157-160 | the last two points can share a label |
| PhaseResolve.OneSampleTwoPoints | phaseResolve.py:157-160 | a one-sample region yields two identical points |
| PhaseResolve.Resolve | phaseResolve.py:97-169 | `IndexError` exactly when the region is empty; a tied first value stops with `EquivocalPhase` before any file; otherwise every classified point reaches the writer, `len(gti_points) - 1` lines in all |
| QuickView.Insert | quickView.py:117 | inserting adds exactly one element to the multiset |
| QuickView.InsertSorted | quickView.py:117 | insertion keeps a list ordered by first time |
| QuickView.SortByStart | quickView.py:117 | the sorted list is a permutation of the input |
| QuickView.SortSorted | quickView.py:117 | the sorted list is in non-decreasing order of first time |
| QuickView.InsertWithStart | quickView.py:117 | among curves with the same first time, insertion puts the new curve first and keeps the others in order |
| QuickView.SortIsStable | quickView.py:117 | curves with equal first times keep their relative order |
| QuickView.FirstHolding | quickView.py:121-124 | the result is the first window holding the curve, or -1 when none does |
| QuickView.Assign | quickView.py:118-128 | there is always a window, and one map entry per curve |
| QuickView.AssignWindows | quickView.py:118-128 | the nested loop with its two breaks computes `Assign` |
| QuickView.AssignExtends | quickView.py:120-128 | each curve appends a map entry, and a window only when no window holds it; existing windows are never changed |
| QuickView.AssignFirst | quickView.py:118-119 | window 0 is the first curve's span and that curve maps to 0; there are never more windows than curves |
| QuickView.AssignMapsToFirstHolder | quickView.py:121-124 | every curve maps to a valid window that holds it, and no earlier window holds it |
| QuickView.AssignWindowsUncovered | quickView.py:125-127 | no window contains a later window |
| QuickView.AssignWindowsFromCurves | quickView.py:125-127 | every window is the span of a curve that maps to it |
| QuickView.Layout | quickView.py:46-50 | a layout exists exactly for 1 to 5 windows, with rows times columns equal to the count; otherwise `KeyError` |
| QuickView.FigureSize | quickView.py:51-55 | a figure size exists exactly for the counts that have a layout |
| QuickView.PlanFigure | quickView.py:117-131 | no curves raises `IndexError`, more than five windows `KeyError`; otherwise the sorted curves, windows, map, layout and figure size |
| QuickView.FirstWindowStartsEarliest | quickView.py:117-118 | after the sort, window 0 starts at the earliest first time of all curves |
| PlotMcmc.BuildParMap | plotMCMC.py:42-43 | the map is the whitespace-split token list of the input, in order |
| PlotMcmc.Range | plotMCMC.py:52-53 | `range(lo, hi + 1)` runs from `lo` to `hi` inclusive and is empty when `lo > hi` |
| PlotMcmc.ExpandInteger | plotMCMC.py:47-48 | a token holding an integer expands to that integer alone |
| PlotMcmc.HyphenatedIsNotInteger | plotMCMC.py:47-49 | a token that starts with a digit and contains a hyphen is not an integer, whatever whitespace follows it, so it goes to the range branch |
| PlotMcmc.RangePieces | plotMCMC.py:50-51 | the first two pieces of `a-b...` are `a` and `b` |
| PlotMcmc.ExpandRange | plotMCMC.py:49-53 | `lo-hi` expands to `lo..hi` inclusive; anything from a second hyphen on is ignored |
| PlotMcmc.ExpandErrorIsValueError | plotMCMC.py:49-51 | a bad token raises `ValueError`: without a hyphen it fails at the first `int`, before the missing second piece is indexed |
| PlotMcmc.Then | plotMCMC.py:46-53 | two loop passes in turn succeed exactly when both do; the outputs follow one another, and the first error wins |
| PlotMcmc.ExpandAllAppend | plotMCMC.py:46-53 | the requests expand in token order: expanding two runs of tokens is expanding the first, then the second |
| PlotMcmc.ExpandAllError | plotMCMC.py:46-53 | every failure of the request list is a `ValueError` |
| PlotMcmc.ExpandAllStopped | plotMCMC.py:46-53 | once a token has failed, later tokens change nothing |
| PlotMcmc.AppendToken | plotMCMC.py:47-53 | one loop pass appends the token's integer, or its range number by number |
| PlotMcmc.ParsePars | plotMCMC.py:46-53 | the loop over requested parameters computes `ExpandAll` |
| PlotMcmc.PyIndex | plotMCMC.py:57 | Python indexing fails only with `IndexError` |
| PlotMcmc.PyIndexOk | plotMCMC.py:57 | an index succeeds exactly when it lies in `-n .. n-1` |
| PlotMcmc.FreeAllAppend | plotMCMC.py:56-62 | free parameters are selected in request order |
| PlotMcmc.FreeStopsAt | plotMCMC.py:56-62 | the first failing request decides the outcome |
| PlotMcmc.SelectFree | plotMCMC.py:56-62 | the selection loop computes `FreeAll` |
| PlotMcmc.FreeOfNumber | plotMCMC.py:60-62 | a request whose map entry is a number selects that number |
| PlotMcmc.FreeSkipsFrozen | plotMCMC.py:57-58 | requests whose entries are `N` select nothing |
| PlotMcmc.FreeBeyondMap | plotMCMC.py:57 | a request beyond the end of the map makes the selection fail |
| PlotMcmc.FreeAllError | plotMCMC.py:56-62 | the selection fails only with `IndexError` or `ValueError` |
| PlotMcmc.FreeZeroIsLast | plotMCMC.py:57 | request 0 reads the map's last entry |
| PlotMcmc.MapAll | plotMCMC.py:71-72 | a comprehension that succeeds has one value per element |
| PlotMcmc.MapAllOk | plotMCMC.py:71-72 | a comprehension succeeds exactly when every element does |
| PlotMcmc.MapAllAt | plotMCMC.py:71-72 | value `k` of a successful comprehension is element `k`'s value |
| PlotMcmc.MapAllFirstError | plotMCMC.py:71-72 | a failed comprehension reports the error of its first failing element |
| PlotMcmc.NameLabel | plotMCMC.py:72 | a label fails only with `IndexError` |
| PlotMcmc.LabelOfColumn | plotMCMC.py:72 | the column name `a__b` of parameter `num` gives the label `a (b)[num]` when `a` neither holds `__` nor ends in `_` (single underscores are allowed) and `b` holds no `__` |
| PlotMcmc.LabelNeedsSeparator | plotMCMC.py:72 | a column name without `__` raises `IndexError` |
| PlotMcmc.CornerLabel | plotMCMC.py:72 | a label exists only for a column number in range, and fails only with `IndexError` |
| PlotMcmc.PlotErrors | plotMCMC.py:71-72 | both the column and the label comprehension raise only `IndexError` |
| PlotMcmc.LabelsMatchColumns | plotMCMC.py:71-72 | when the labels exist, so do the columns, one per selected parameter; column `k` is `par_vals[f_pars[k]-1]`, and label `k` is made from that same column's name |
| LogCommands.SegmentExists | logCommands.py:40 | a prompt line always has a second piece, so `[1]` never fails |
| LogCommands.SegmentBetweenPrompts | logCommands.py:43 | the shown text runs from just after the prompt to the end of the line when no second prompt follows, and otherwise is followed directly by the next prompt; it holds no prompt |
| LogCommands.SegmentOfCommand | logCommands.py:43 | a prompt followed by prompt-free text shows that text |
| LogCommands.ShowCommand | logCommands.py:40-43 | with `supress`, only text starting with a space is shown, minus that space; empty text raises `IndexError`; without `supress`, the text is shown verbatim |
| LogCommands.FilterLine | logCommands.py:38-51 | a line without the prompt prints nothing; only `supress` can raise, and only `IndexError` |
| LogCommands.ShortIgnoresLongMode | logCommands.py:39-43 | for lines of fewer than 100 words the long mode makes no difference |
| LogCommands.LongModes | logCommands.py:44-51 | a long line prints nothing in mode 0 or any other mode, the fixed notice in mode 1, and is treated as short in mode 2 |
| LogCommands.TypedLineWords | logCommands.py:39 | a prompt, a space and a command count one word more than the command |
| LogCommands.TypedCommandShown | logCommands.py:39-43 | a typed command is shown however many characters it has: with `supress` without its leading space, otherwise with it |
| LogCommands.ReplayedCommandHidden | logCommands.py:40-46 | `supress` hides a replayed command with no space after the prompt; only a long one in mode 1 still prints the notice |
| LogCommands.Printed | logCommands.py:37-51 | at most one output per input line |
| LogCommands.PrintedAppend | logCommands.py:37 | output follows input order: two runs of lines print one after the other |
| LogCommands.NoPromptNoOutput | logCommands.py:38 | a log without prompt lines prints nothing |
| LogCommands.PrintedFromLines | logCommands.py:37-51 | every printed text is the output of some line of the log |
| LightCurveCut.LightCurve.constructor | LightCurveCut.py:45 | a loaded light curve holds the file's three arrays, of one length |
| LightCurveCut.LightCurve.Cut | LightCurveCut.py:47-51 | the in-place cut keeps the three arrays aligned and leaves exactly the samples with `start < t < stop`, in order |
| LightCurveCut.CutKeepsInterior | LightCurveCut.py:47 | a sample is kept exactly when it is an input sample strictly between the bounds |
| LightCurveCut.CutTwice | LightCurveCut.py:47-51 | cutting twice with the same bounds gives the same arrays |
| LightCurveCut.SplitTimes | LightCurveCut.py:40 | unpacking succeeds exactly when there are two comma-separated fields; otherwise `ValueError` |
| LightCurveCut.SplitTimesFields | LightCurveCut.py:40 | the two fields are the comma-free text on either side of the only comma |
| LightCurveCut.SplitTimesOfFields | LightCurveCut.py:40 | any two comma-free fields joined by a comma read back as themselves |
| LightCurveCut.SplitTimesTooMany | LightCurveCut.py:40 | text with two commas fails to unpack |
| LightCurveCut.OutputName | LightCurveCut.py:53 | every output name ends in `.fits` |
| LightCurveCut.DefaultOutputName | LightCurveCut.py:31-53 | with the default suffix `stem.fits` is written as `stem_cut.fits`, never over its input |
| LightCurveCut.OutputNameOfFits | LightCurveCut.py:53 | for `stem.fits` the output is `stem + suffix + .fits`, and it equals the input exactly when the suffix is empty |
| LightCurveCut.Step | LightCurveCut.py:44-54 | a non-`.fits` entry changes nothing; an empty `.fits` curve raises `IndexError` before writing; otherwise the entry's cut is written under its output name, and the run goes on exactly when the cut is not empty |
| LightCurveCut.FitsIndices | LightCurveCut.py:43-44 | the listed positions are `.fits` entries, in increasing order |
| LightCurveCut.FitsIndicesMembers | LightCurveCut.py:44 | an entry's position is listed exactly when its name ends in `.fits` |
| LightCurveCut.CutFilesFromFitsEntries | LightCurveCut.py:43-54 | the k-th file written is the cut of the k-th `.fits` entry under that entry's output name; all `.fits` entries are written unless the run stops, and it stops only with `IndexError` |
| LightCurveCut.NoFitsNoFiles | LightCurveCut.py:44 | a directory with no `.fits` entry writes nothing and raises nothing |
| LightCurveCut.CutFilesWritten | LightCurveCut.py:43-53 | every written file is a `.fits` name holding aligned arrays inside the interval, and there are no more files than entries |
| LightCurveCut.CutFilesCompletes | LightCurveCut.py:43-54 | when every `.fits` entry keeps samples after the cut, the run goes through the whole directory |
| LightCurveCut.CutFilesStopped | LightCurveCut.py:43-54 | once an entry has raised, later entries change nothing |
| LightCurveCut.CutFile | LightCurveCut.py:45-53 | an empty curve raises `IndexError` before the cut; otherwise the written file is the output name with the cut arrays |
| LightCurveCut.CutDirectory | LightCurveCut.py:43-54 | the loop over the directory computes `CutFiles`, so `CutFilesFromFitsEntries` and `NoFitsNoFiles` hold of it |

## Left out

- Reading and writing light curves and FITS tables is not modelled. The `pylag` `LightCurve` loader, `rebin` and `write_fits` are foreign code, as is `astropy` FITS reading. Curves, column names and chain columns enter as values, and a written file is a `Written` value.
- Floating-point arithmetic is not modelled. Times, rates, the mean and `round` work on exact reals, so rounding error in `np.mean` or in the comparisons is not captured.
- The sinusoid fit of `phaseResolve.py` is not modelled: BFGS minimisation, `hess_inv`, standard errors, `chi_squared`, the global `chis` list and `chi2dof`. The fitted parameters are an input, `PhaseResolve.Params`.
- PhaseResolve.SinModel: the sine is an uninterpreted function `wave`, read as `wave(x) = sin(2πx)`. Only its bound by 1 is assumed, as a lemma hypothesis.
- Plotting, console messages (including the `str(...)[3:]` truncation), `argparse`, the process exit itself and the `gtibuild` subprocess calls with the removal of the text files are not modelled. They are I/O or external processes.
- The tie exit of `phaseResolve.py` (a first model value equal to the mean) is modelled as the error `EquivocalPhase`. Only ending the process is left out.
- Files are written as lists of lines (`Gti.WriteGtiFile`), not to disk.
- LightCurveCut.CutDirectory: `start` and `stop` are real parameters. Python's `float()` of the two fields, and its `ValueError` on bad text at the first `.fits` entry, are not modelled.
- LightCurveCut.CutDirectory: the directory listing is a parameter in its given order. `os.listdir` order is arbitrary.
- LightCurveCut.CutDirectory: each entry's curve is a value fixed in the listing, standing for what the loader returns when the loop reaches that entry. The model does not relate it to files written earlier in the same run, although a later entry can be one of them (a second run over `a.fits` and `a_cut.fits` reads back the freshly written `a_cut.fits`).
- quickView.py's `--xmmdata` branch is not modelled: three fixed curves, all in window 0, and the energy conversion `int(float(e) * 1000)`. Its mean, median and standard-deviation statistics and the figure drawing are not modelled either.
- QuickView.PlanFigure: a curve enters as a `CurveSpan`, its first and last times, so every curve has at least one sample. A light curve with no samples, which raises `IndexError` at `x.time[0]` in quickView.py, cannot be represented.
- QuickView.SortByStart: `list.sort` is a library call. It is modelled as a stable sort on values, not in place.
- Decimal.PyInt: Python's `int()` also accepts underscores between digits, non-ASCII digits, non-ASCII whitespace and the ASCII separators `\x1c`-`\x1f` as surrounding whitespace. The model strips only the six whitespace characters of `Text.IsSpace` and accepts an optional sign and ASCII digits.
- Text.Words: `str.split()` is modelled over the six whitespace characters of `Text.IsSpace` only. Python also splits at the separator characters `\x1c`-`\x1f` and at Unicode spaces.
- LogCommands.Printed: file reading is not modelled. The log is a list of lines, each with its newline as `readlines` gives it, and the output is the list of printed texts. Printing with `end=""` adds nothing, and the notice carries its own newline.
- plotSteppar.py is not part of this model.
