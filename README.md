# Reflection analysis of single-crystal diffraction data, modelled in Dafny

This project models the analysis core of a browser application for single-crystal X-ray
diffraction data. Given a reflection file (one Miller index triple h, k, l per line, with an
intensity I and its sigma), the application does the following:

- it parses the file in either the whitespace-separated or the SHELX HKLF fixed-column layout;
- it turns intensities into amplitudes |F|;
- it normalises them to E values, either globally or per equal-population pseudo-resolution shell;
- it builds presence masks against a winsorised median;
- it tests systematic absences for the lattice centering (I, C, F), the 2₁ screw along b and the
  a, c, n and d glides on the h0l plane;
- it summarises the |E| distribution (histogram, moments, ⟨|E² − 1|⟩ with its centric/acentric
  call) and the Wilson-like shells with their least-squares line;
- it ranks candidate space groups, with a crystal-system guess, temperature and Z′ priors, and an
  itemised vote;
- it places structure factors into N×N×N Fourier grids (Patterson and phased synthesis) and runs
  separable 3-D inverse transforms built from a direct 1-D inverse DFT.

There is one Dafny module per modelled source file. Seven shared modules have no source file
of their own:

- `Wrappers`: an `Option` type.
- `Numbers`: JavaScript numbers that may be NaN or infinite, the truncating remainder and the
  32-bit `&` masks, and the square root as a parameter.
- `Text`: `trim`, `split`, `slice`, `parseInt` and `join`.
- `Sorting`: the stable `Array.prototype.sort` with a numeric comparator.
- `Features`: the objects the voter, the crystal-system guess and the legacy renderer read.
  These are JavaScript numbers that may be NaN, fields that may be missing, and the analysers'
  results as those readers see them.
- `Zones`: the selection of the 0k0 and h0l reflections with their mask flags, which
  `screw.js` and `glide.js` each write out.
- `GridIndex`: the wrap of an index into [0, N) and the two flat layouts of the Fourier grids.

Most imports follow the source files' own imports. Where two files write out the same
computation, the model defines it once and the second module imports it:

- `Stats` uses `EHistogram`'s finite-|E| list, |x² − 1| map and centric/acentric call.
  `stats.js` itself imports nothing and writes these out again.
- `SgVote` uses the weight functions of `SgCandidates`.

The code's own form is kept:

- Map/filter/reduce code and threshold ladders are functions, with lemmas about them.
- Loops that push, count or accumulate are methods with `for`/`while` loops and invariants. Each
  one is proved against a specification function of its inputs.
- The grid fills write into fresh `array<real>` values.
- `FFT` is a class whose `inverseTransform` replaces its `re`/`im` arrays.
- `inverseFFT3D` mutates the caller's arrays in place, while `ifft3D` copies them first.

The code was followed wherever it and the documented behaviour of the application differ:

- The parser knows only the two layouts above. It has no comment lines, no 4-token or 8-column
  layouts and no minimum line length.
- The centering analysis has no R lattice.
- There is no z-test and no relabelling of the centering to `P(?)`.
- `analyzeGlide_h0l` sorts its lines by ascending score, so `best` is the worst-fitting glide.
  `Glide.AsWrittenBestIsLowest` and `Glide.AsWrittenPrefersWorstFit` show this.
  `Glide.IntendedBestIsHighest` proves what a descending sort would give. `Glide.AnalyzeGlide`
  keeps the code's order.
- The `/21/` name bonus of `buildSpaceGroupCandidates` can never fire, because the catalogue
  spells screw axes `2_1` (`SgCandidates.ScrewMarkNeverMatches`). The `2_1` test it evidently
  meant is `SgCandidates.ScrewMarkIntendedMatches`. The candidate builder keeps the code's regex.

## Model

| member | source | states |
|---|---|---|
| `CrystalSystem.AutoCrystalSystem` | utils/crystal_system.js:3-16 | no centering result gives null and a missing `best` a TypeError; otherwise F or I gives cubic, C orthorhombic, and any other centering monoclinic exactly when a glide `best` or a truthy screw score exists, triclinic when neither does |
| `CrystalSystem.AutoPermitsCentering` | utils/crystal_system.js:7-15 | every guessed system is one the candidate table knows, and for a detected F, I, C or primitive centering its lattice list contains the letter picked from that centering |
| `CrystalSystem.ApplyUserCrystalSystem` | utils/crystal_system.js:18-20 | a truthy declared system wins; otherwise the guess is kept |
| `CrystalSystem.ApplyIdempotent` | utils/crystal_system.js:18-20 | applying the declared system a second time changes nothing |
| `Temperature.Weight` | utils/temperature.js:3-10 | a falsy temperature gives 0; otherwise 0.2 exactly below 150 K, −0.1 exactly above 250 K, and 0 in between |
| `Temperature.WeightNonIncreasing` | utils/temperature.js:6-9 | for positive temperatures the weight does not increase with T |
| `Temperature.NeutralBand` | utils/temperature.js:6-9 | the bounds 150 K and 250 K themselves give 0 |
| `ZPrime.Weight` | utils/zprime.js:3-11 | a falsy Z′ gives 0; a truthy one gives 0.3 exactly when it is 1, −0.2 exactly when above 1, 0.1 exactly when below 1, and never the final 0 |
| `ZPrime.FiniteWeights` | utils/zprime.js:6-8 | a non-zero finite Z′ is weighted by its comparison with 1 |
| `RenderExt.StarCount` | utils/render_ext.js:39-46 | at most five filled stars: one for each of 0.05, 0.10, 0.20, 0.30, 0.50 that the ratio is below |
| `RenderExt.Stars` | utils/render_ext.js:40-45 | the star string has five characters, n filled ones followed by empty ones |
| `RenderExt.StarsOfRatio` | utils/render_ext.js:39-46 | the star string of `confidenceFromRatio` has exactly as many filled stars as thresholds the ratio is below |
| `RenderExt.StarsNonIncreasing` | utils/render_ext.js:39-46 | a larger ratio never shows more stars |
| `RenderExt.BaselineHasNoStars` | utils/render_ext.js:45 | the primitive baseline row of the centering scores, whose ratio is 1, shows no star and the "no evidence" label |
| `ENormalize.ComputeE` | utils/e_normalize.js:5-11 | meanF2 is ΣF² / max(n, 1), never negative and 0 for no input; each record is copied with only E changed, to a finite E whose product with the denominator is F and which keeps F's sign; with a non-zero mean ΣE² equals n |
| `ENormalize.Denominator` | utils/e_normalize.js:8 | `sqrt(meanF2 \|\| 1e-12)` is positive and squares to the mean, or to 1e-12 when the mean is 0 |
| `ENormalize.MeanF2` | utils/e_normalize.js:6-7 | ΣF² / max(n, 1), never negative, 0 for an empty input |
| `ENormalize.Rescale` | utils/e_normalize.js:9 | every record copied with only E changed; each E is finite, E·d = F, and E ≥ 0 where F ≥ 0 |
| `ENormalize.MeanSquareIsOne` | utils/e_normalize.js:6-9 | with a non-zero mean F² the normalised amplitudes satisfy ΣE² = n, that is ⟨E²⟩ = 1 |
| `ENormalize.ScaledSquares` | utils/e_normalize.js:9 | dividing every F by d with d² = m divides ΣF² by m |
| `ENormalizeBins.BinMean` | utils/e_normalize_bins.js:3-8 | the mean F² of a shell is positive: 1 for an empty shell, 1 when ΣF² is 0, and ΣF² / size otherwise |
| `ENormalizeBins.MeanF2` | utils/e_normalize_bins.js:3-8 | one positive mean per shell, in shell order |
| `ENormalizeBins.Scales` | utils/e_normalize_bins.js:13 | each shell's scale times sqrt of its mean is 1 |
| `ENormalizeBins.ApplyBinFacts` | utils/e_normalize_bins.js:14-16 | rewriting one shell sets E = F·c on its indices, changes no other field and no other record |
| `ENormalizeBins.ApplyBinsFacts` | utils/e_normalize_bins.js:11-17 | after all shells no field but E has changed, a record in no shell keeps its E, and a record's E is F times the scale of the last shell listing it |
| `ENormalizeBins.RenormalizeByBins` | utils/e_normalize_bins.js:2-20 | the returned means are those of the shells of the input array, and the array afterwards is the input with the shells rewritten in order with scale 1/sqrt(mean) |
| `Extinction.IsEven` | utils/extinction.js:4 | `(n & 1) === 0` holds exactly for even n, negative ones included |
| `Extinction.IsOdd` | utils/extinction.js:5 | `(n & 1) !== 0` holds exactly for odd n, negative ones included |
| `Extinction.EvenOrOdd` | utils/extinction.js:4-5 | every integer is exactly one of even and odd |
| `Extinction.Median` | utils/extinction.js:8-25 | eps for an empty array; at least eps over non-negative values |
| `Extinction.MedianAgrees` | utils/extinction.js:8-25 | the analyser's private median computes what the shared robust median computes with fraction 0.05 |
| `Extinction.Value` | utils/extinction.js:31-34 | \|E\| when E is requested and finite, otherwise \|I\|; never negative |
| `Extinction.Values` | utils/extinction.js:37 | the value of every reflection, in input order |
| `Extinction.AllowedF` | utils/extinction.js:61-66 | allowed for F exactly when h, k and l all have the same parity |
| `Extinction.SidesPartition` | utils/extinction.js:41-74 | each partition loop sends every reflection to exactly one side: the two sides together are a permutation of all the values |
| `Extinction.SideNonNegative` | utils/extinction.js:43-46 | every value pushed onto a side is non-negative |
| `Extinction.PrimitiveForbidsNothing` | utils/extinction.js:84 | the primitive lattice has an empty forbidden side |
| `Extinction.SafeDiv` | utils/extinction.js:77-78 | `a / (b + 1e-12)` over a non-negative median is positive for positive a |
| `Extinction.LatticeScore` | utils/extinction.js:41-83 | the forbidden and allowed medians of the lattice's two sides, both at least 1e-6, and a positive ratio |
| `Extinction.RankedFacts` | utils/extinction.js:80-91 | the ranking is a permutation of the four scores sorted by ratio, names every lattice once, keeps P at ratio 1 and forbid 0, and puts the smallest ratio first |
| `Extinction.AnalyzeExtinction` | utils/extinction.js:27-93 | null exactly for an empty input; otherwise the scores are the four entries stably sorted by ratio, and `best` is the first and has the smallest ratio |
| `Extinction.Partition` | utils/extinction.js:41-46 | the loop's two arrays are the forbidden and allowed sides |
| `Presence.LoIndex` | utils/presence.js:8 | `max(0, floor(n·frac))` is a valid index when frac < 1 |
| `Presence.HiIndex` | utils/presence.js:9 | `min(n − 1, floor(n·(1 − frac)))` is a valid index when frac < 1 |
| `Presence.Clip` | utils/presence.js:10 | `min(max(x, lo), hi)` is x, lo or hi, lies in [lo, hi] when lo ≤ hi, and is hi otherwise |
| `Presence.Clipped` | utils/presence.js:10 | the input clipped element by element, same length |
| `Presence.MedianOfSorted` | utils/presence.js:11-12 | the middle element, or the mean of the two middle ones, lies within any bounds of all elements |
| `Presence.RobustMedian` | utils/presence.js:4-14 | eps for an empty array; otherwise the clipped median plus eps, which minus eps lies between the smallest and largest element |
| `Presence.RobustMedianOfConstant` | utils/presence.js:4-14 | a constant array gives that constant plus eps |
| `Presence.RobustMedianAtLeastEps` | utils/presence.js:4-14 | over non-negative values the result is at least eps |
| `Presence.PresentMaskE` | utils/presence.js:17-19 | one flag per reflection, true exactly when E is finite and above the threshold |
| `Presence.MaskEMonotone` | utils/presence.js:17-19 | raising the threshold only turns present reflections absent |
| `Presence.PresentMaskI` | utils/presence.js:22-26 | one flag per reflection, true exactly when I exceeds fraction · median of the intensities; with non-negative data only positive intensities count |
| `Zones.Present` | utils/screw.js:9 | `!!presentMask[i]` is true exactly for an in-range true entry; an entry past the mask's end counts as absent |
| `Zones.IndicesExactly` | utils/screw.js:6-11 | the selection loop keeps exactly the zone's reflections, each once, in increasing input order |
| `Zones.IndicesInZone` | utils/glide.js:6-9 | every selected index is a reflection in the zone |
| `Zones.IndicesComplete` | utils/glide.js:6-9 | every reflection in the zone is selected |
| `Zones.IndicesIncreasing` | utils/screw.js:6-11 | the selected indices keep input order |
| `Screw.Selected` | utils/screw.js:5-11 | one `{ k, present }` per 0k0 reflection, in input order, with the mask's flag |
| `Screw.Count` | utils/screw.js:12-17 | the present count of a parity class never exceeds its total |
| `Screw.CountsCoverSelection` | utils/screw.js:14-17 | every selected reflection is counted in exactly one parity class |
| `Screw.CountOnlyParity` | utils/screw.js:15-16 | reflections of the other parity add nothing to a class |
| `Screw.TallyRate` | utils/screw.js:21-22 | `present / max(total, 1)` lies in [0, 1] |
| `Screw.Decide` | utils/screw.js:18-33 | "insufficient data" exactly without enough reflections; the screw call exactly when there are enough, the odd rate is below 0.05 and the even rate above 0.2; the score lies in [0, 1] and is positive exactly for the screw call |
| `Screw.AnalyzeScrew` | utils/screw.js:4-35 | the even and odd tallies are those of the 0k0 selection, together they count every 0k0 reflection, and the call and score are the decision on them |
| `Screw.SelectZone` | utils/screw.js:5-11 | the selection loop builds `Selected` |
| `Glide.Selected` | utils/glide.js:5-9 | one `{ h, l, present }` per h0l reflection, in input order, with the mask's flag |
| `Glide.Allows` | utils/glide.js:11-16 | a allows even h, c even l, n even h+l, d h+l divisible by 4, negative indices included |
| `Glide.DAllowsOnlyNAllowed` | utils/glide.js:14-15 | whatever the d rule allows the n rule allows too |
| `Glide.CountRule` | utils/glide.js:20-25 | the present counts never exceed the totals |
| `Glide.CountsCoverSelection` | utils/glide.js:21-25 | under each rule every selected reflection is on exactly one side |
| `Glide.ForbRate` | utils/glide.js:26 | the forbidden rate lies in [0, 1] and is 1 when nothing is forbidden |
| `Glide.AllowRate` | utils/glide.js:27 | the allowed rate lies in [0, 1] and is 0 when nothing is allowed |
| `Glide.LineFor` | utils/glide.js:26-30 | the score lies in [0, 1] and is 1 exactly when the forbidden rate is 0 and the allowed rate 1 |
| `Glide.Lines` | utils/glide.js:18-31 | one line per rule, in the order a, c, n, d |
| `Glide.AsWrittenBestIsLowest` | utils/glide.js:33-34 | with the ascending sort as written, `best` has the lowest score of all lines |
| `Glide.AsWrittenPrefersWorstFit` | utils/glide.js:33-34 | a perfectly fitting a-glide loses `best` to a c-glide with score 0 |
| `Glide.IntendedBestIsHighest` | utils/glide.js:33-34 | with a descending sort, the ranking keeps its length, is descending, and `best` has the highest score |
| `Glide.Confidence` | utils/glide.js:44-47 | 0 without enough data; otherwise in [0, 1], 1 exactly when the best rule's forbidden rate is 0, and 0 once that rate reaches 0.5 |
| `Glide.AnalyzeGlide` | utils/glide.js:4-50 | the ranking is the four lines sorted ascending as written, `best` is its first and lowest-scoring line, the summary names the best rule exactly when there is enough data, and the confidence follows from the best line |
| `Glide.CountLoop` | utils/glide.js:20-25 | the inner loop computes `CountRule` |
| `Glide.SelectZone` | utils/glide.js:5-9 | the selection loop builds `Selected` |
| `EHistogram.AbsE` | utils/e_histogram.js:4 | the finite \|E\| values in input order, none negative, no more of them than reflections |
| `EHistogram.AbsEOfFinite` | utils/e_histogram.js:4 | when every E is finite the filter keeps all of them: the list is the map of \|E\| |
| `EHistogram.AbsEOfNonFinite` | utils/e_histogram.js:4-5 | when no E is finite the list is empty |
| `EHistogram.E2m1` | utils/e_histogram.js:20 | \|x² − 1\| for each value, never negative |
| `EHistogram.MeanE2m1` | utils/e_histogram.js:21 | the mean of \|x² − 1\| is never negative |
| `EHistogram.Classify` | utils/e_histogram.js:23-25 | acentric exactly when the mean is strictly closer to 0.736 than to 0.968 |
| `EHistogram.ClassifyByMidpoint` | utils/e_histogram.js:23-25 | the call is a cut at 0.852: acentric exactly below it, and the tie at 0.852 is centric |
| `EHistogram.Position` | utils/e_histogram.js:14 | `x / Emax * nBins` lies in [0, nBins] for 0 ≤ x ≤ Emax |
| `EHistogram.BinIndex` | utils/e_histogram.js:14-15 | the index is below nBins, is the floor of the position unless the maximum was clamped into the last bin, and the position lies between the index and the index plus one |
| `EHistogram.BinContains` | utils/e_histogram.js:10-15 | every value lands in a bin whose lower and upper edges enclose it |
| `EHistogram.CountsAreCountAt` | utils/e_histogram.js:13-17 | each bin counts exactly the values whose index is that bin |
| `EHistogram.CountsTotal` | utils/e_histogram.js:13-17 | the counts add up to the number of finite values |
| `EHistogram.BuildEHistogram` | utils/e_histogram.js:3-28 | null exactly when no \|E\| is finite; a TypeError exactly when Emax is 0 or there are no bins; otherwise nBins bins with edges i·Emax/nBins and counts adding up to the number of values, the mean \|E² − 1\|, and its call |
| `Stats.MeanBetween` | utils/stats.js:7-10 | the mean lies between the smallest and the largest value |
| `Stats.Pow` | utils/stats.js:8 | a whole power of a non-negative number is non-negative |
| `Stats.EStatsOf` | utils/stats.js:2-28 | null exactly when no \|E\| is finite |
| `Stats.EStatsFacts` | utils/stats.js:2-28 | n counts the finite \|E\|; every moment is non-negative; ⟨\|E\|⟩ lies between the smallest and largest \|E\|; and \|⟨\|E\|²⟩ − 1\| ≤ ⟨\|E² − 1\|⟩ |
| `Stats.MomentsNonNegative` | utils/stats.js:10-13 | the first four moments of non-negative values are non-negative |
| `Stats.SquareDeviation` | utils/stats.js:14-15 | \|⟨x²⟩ − 1\| never exceeds ⟨\|x² − 1\|⟩ |
| `Stats.AgreesWithHistogram` | utils/stats.js:15-20 | the summary's ⟨\|E² − 1\|⟩ and call equal those of the histogram on the same input |
| `Text.Trim` | utils/hkl.js:8-9 | `trim()` is no longer than its input, is empty exactly for an all-whitespace input, and otherwise starts and ends with a non-space |
| `Text.SplitWs` | utils/hkl.js:12 | `split(/\s+/)` gives at least one piece and no piece holds whitespace |
| `Text.Slice` | utils/hkl.js:25-29 | `slice(a, b)` is the substring [a, b) when both bounds are in range, with bounds clamped to the length otherwise |
| `Text.ParseInt` | utils/hkl.js:14-16 | `parseInt(s, 10)` is NaN exactly when no digit follows the leading whitespace and an optional sign |
| `Text.IntToStringRoundTrip` | utils/hkl.js:31-33 | `parseInt` reads back the decimal form of every integer |
| `Text.SplitLines` | services/parseFileWithProgress.js:7 | `split(/\r?\n/)` gives one more line than there are newlines, and no line holds a newline |
| `Text.SplitOnJoin` | utils/hkl.js:55-56 | splitting a joined list on its separator gives the list back when no element holds it |
| `Hkl.ReadFields` | utils/hkl.js:14-39 | a line is accepted exactly when h, k and l read as integers and I as a finite number; the record then holds those values, the sigma as read, and the path's layout tag |
| `Hkl.ParseLine` | utils/hkl.js:7-42 | a blank line is rejected; a line is tagged whitespace exactly when the token path accepts it, with the first five tokens as its fields; tagged fixed-width exactly when the token path fails and the column path accepts; rejected exactly when both fail; with fewer than five tokens only the column path can accept |
| `Hkl.ColumnsOnlyWhenTokensFail` | utils/hkl.js:13-39 | a non-blank line with fewer than five tokens gets exactly the column reader's result |
| `Hkl.HklfColumns` | utils/hkl.js:25-29 | the trimmed columns [0,4), [4,8), [8,12), [12,21), [21,30) of a written HKLF line are the fields it was written from |
| `Hkl.HklfColumnsRoundTrip` | utils/hkl.js:25-38 | reading the columns of a written HKLF line returns its indices, intensity and sigma, tagged fixed-width |
| `Hkl.IntensityToAmplitude` | utils/hkl.js:46-50 | same length; every field but F is kept; F is non-negative with F² = max(I, 0), so a negative I gives F = 0 |
| `Hkl.CsvLines` | utils/hkl.js:53-57 | splitting the CSV text on newlines gives the header joined by commas, one comma-joined line per row, and an empty tail after the final newline |
| `ParseFile.Results` | services/parseFileWithProgress.js:14-16 | the line parser's answer for every line, in order |
| `ParseFile.Dominant` | services/parseFileWithProgress.js:28 | fixed-width exactly when its count is strictly larger; a tie gives whitespace |
| `ParseFile.LinesAccountedFor` | services/parseFileWithProgress.js:14-22 | every line is either collected or skipped, and every collected line counts towards exactly one layout |
| `ParseFile.BlankLinesSkipped` | services/parseFileWithProgress.js:17 | blank lines are among the skipped ones |
| `ParseFile.AcceptedAppend` | services/parseFileWithProgress.js:14-18 | the records of a file are those of its first part followed by those of the rest, so they keep line order |
| `ParseFile.Step` | services/parseFileWithProgress.js:14-22 | one more line adds its record or one skip, and one to the count of its layout |
| `ParseFile.ParseText` | services/parseFileWithProgress.js:5-30 | the records, the skips and the two layout counts are those of the line parser's answers; records plus skips equal the number of lines, the two counts add up to the records, and the dominant layout is fixed-width exactly when its count is larger |
| `ParseFile.ScanLines` | services/parseFileWithProgress.js:14-24 | the loop computes the collected records, the skips and the two counts of the line parser's answers |
| `ParseFile.Account` | services/parseFileWithProgress.js:15-22 | one pass of the loop body: a rejected line adds a skip, an accepted one its record and one to its layout's count |
| `Sorting.InsertFacts` | utils/pseudo_resolution.js:7 | inserting adds the element to the multiset and keeps a key-sorted sequence sorted |
| `Sorting.SortByFacts` | utils/pseudo_resolution.js:7 | `sort((a, b) => key(a) − key(b))` returns a permutation of its input in non-decreasing key order |
| `Sorting.SortByMembers` | utils/extinction.js:87 | the sorted sequence holds exactly the input's elements |
| `Sorting.FirstIsMinimum` | utils/extinction.js:87-91 | after sorting, the first element has the smallest key |
| `Sorting.SortStable` | utils/pseudo_resolution.js:7 | the sort is stable: elements with equal keys keep their input order |
| `Formula.SymbolLen` | utils/formula.js:6 | a symbol is a capital and at most one small letter |
| `Formula.Exec` | utils/formula.js:6-10 | a match found from a position ends after it and within the string, so the loop advances |
| `Formula.AddTo` | utils/formula.js:13 | `out[elem] = (out[elem] \|\| 0) + num` adds num to elem's count, leaves every other count alone, lists each symbol once, and appends a new symbol at the end |
| `Formula.TallyCounts` | utils/formula.js:10-14 | repeated occurrences of an element are summed, and the tally holds exactly the symbols that occur |
| `Formula.ParseFormula` | utils/formula.js:3-16 | null exactly for the empty string; otherwise every symbol is listed once with the sum of its matches' counts, a bare symbol counting 1 |
| `Formula.ZOf` | utils/formula.js:22-25 | the table's Z is 0 for an unlisted element and between 1 and 53 otherwise |
| `Formula.ZSumBounds` | utils/formula.js:27-33 | when every counted element has Z in [lo, hi], Σ Z·n lies between lo·Σ n and hi·Σ n |
| `Formula.MeanZ` | utils/formula.js:19-35 | null exactly for a null formula or when no tabulated element occurs; otherwise Σ Z·n / Σ n over tabulated elements, between 1 and 53 |
| `Formula.MeanBetween` | utils/formula.js:27-34 | the mean lies between the smallest and the largest tabulated Z present |
| `PseudoResolution.Items` | utils/pseudo_resolution.js:4-7 | one `{idx, R}` per reflection with R = h² + k² + l² |
| `PseudoResolution.OrderFacts` | utils/pseudo_resolution.js:4-7 | the sorted order is a permutation of 0..n−1, non-decreasing in R, and keeps input order among equal R |
| `PseudoResolution.PerBin` | utils/pseudo_resolution.js:10 | `ceil(n / nbin)` chunks of nbin cover n, and at least one per shell when n > 0 |
| `PseudoResolution.PerBinIsCeiling` | utils/pseudo_resolution.js:10 | `ceil(n / nbin)` is the least chunk size that covers n |
| `PseudoResolution.ClampNeverFires` | utils/pseudo_resolution.js:13-14 | `floor(i / perBin)` is always below nbin, so the clamp to nbin − 1 never changes it |
| `PseudoResolution.BuildBins` | utils/pseudo_resolution.js:2-18 | the loop builds nbin shells of consecutive runs of perBin sorted indices |
| `PseudoResolution.PlaceItem` | utils/pseudo_resolution.js:13-14 | one pass of the loop appends the index to shell `floor(i / perBin)` and changes no other shell |
| `PseudoResolution.PlaceCorrect` | utils/pseudo_resolution.js:12-15 | placing item i extends the shell it falls in by that item, keeping every shell the run of sorted positions it covers so far |
| `PseudoResolution.BinsCoverOrder` | utils/pseudo_resolution.js:9-17 | the shells, read in order, list the sorted indices |
| `PseudoResolution.BinSizes` | utils/pseudo_resolution.js:10-15 | no shell holds more than ceil(n / nbin) indices |
| `PseudoResolution.BinsOrderedAcross` | utils/pseudo_resolution.js:7-15 | every index of an earlier shell has R no larger than every index of a later shell |
| `PseudoResolution.BinsOrderedWithin` | utils/pseudo_resolution.js:7-15 | within a shell R does not decrease, and equal R keeps input order |
| `PseudoResolution.BinsCoverIndices` | utils/pseudo_resolution.js:4-15 | every index 0..n−1 is in some shell |
| `PseudoResolution.BinsDisjoint` | utils/pseudo_resolution.js:4-15 | no index is in two shells, and no shell lists an index twice |
| `WilsonProxy.Rows` | utils/wilson_proxy.js:8-15 | one `{R, F²}` per reflection, in input order, R = h² + k² + l² and F² = F·F; with integer indices and finite F the finiteness filter drops nothing |
| `WilsonProxy.Step` | utils/wilson_proxy.js:30 | the shell width is positive whenever Rmax > Rmin and there is a shell |
| `WilsonProxy.StepsSpan` | utils/wilson_proxy.js:30-33 | nBins widths add up to Rmax − Rmin exactly |
| `WilsonProxy.Index` | utils/wilson_proxy.js:37-39 | the clamped shell index is always a valid shell |
| `WilsonProxy.LowClampIdle` | utils/wilson_proxy.js:37-38 | for R ≥ Rmin the clamp at 0 never fires |
| `WilsonProxy.ShellContains` | utils/wilson_proxy.js:32-39 | every R in [Rmin, Rmax] lands in a shell whose edges enclose it, lo ≤ R < hi |
| `WilsonProxy.FillN` | utils/wilson_proxy.js:36-42 | one counter per shell |
| `WilsonProxy.FillNTotal` | utils/wilson_proxy.js:36-42 | each row is counted in exactly one shell: the counts add up to the number of rows |
| `WilsonProxy.FillF2Total` | utils/wilson_proxy.js:36-42 | no F² is lost or added twice: the shell sums add up to the total F² |
| `WilsonProxy.ShellsEnds` | utils/wilson_proxy.js:31-33 | the first shell starts at Rmin and the last ends at Rmax + 1e-12 |
| `WilsonProxy.Points` | utils/wilson_proxy.js:45-53 | at most one point per shell |
| `WilsonProxy.PointsFromPlottedShells` | utils/wilson_proxy.js:46-52 | every point comes from a shell with n > 0 and ΣF² > 0, at its centre and log⟨F²⟩, and every such shell gives a point |
| `WilsonProxy.BuildWilsonProxy` | utils/wilson_proxy.js:4-56 | empty exactly when there are no reflections or Rmax ≤ Rmin; a TypeError exactly when there are shells to make but nBins ≤ 0; otherwise the shells over [Rmin, Rmax] with every reflection counted once and the points of the filled shells |
| `WilsonProxy.MakeRows` | utils/wilson_proxy.js:8-15 | the first loop builds the rows |
| `WilsonProxy.Extrema` | utils/wilson_proxy.js:19-23 | the second loop finds the smallest and largest R |
| `WilsonProxy.EmptyShells` | utils/wilson_proxy.js:29-33 | the boundary loop builds the empty shells |
| `WilsonProxy.FillShells` | utils/wilson_proxy.js:36-42 | the binning loop fills each shell with the count and F² sum of the rows it contains |
| `WilsonProxy.PlotPoints` | utils/wilson_proxy.js:45-53 | the points loop makes the points of the filled shells |
| `WilsonProxy.Regression` | utils/wilson_proxy.js:188-206 | null exactly when there are fewer than two points or \|n·Σx² − (Σx)²\| < 1e-12 |
| `WilsonProxy.LinearRegressionXY` | utils/wilson_proxy.js:192-198 | the accumulation loop yields the least-squares fit |
| `WilsonProxy.SumYOnLine` | utils/wilson_proxy.js:194-195 | for points on y = a·x + b, Σy = a·Σx + n·b |
| `WilsonProxy.SumXYOnLine` | utils/wilson_proxy.js:196-197 | for points on y = a·x + b, Σxy = a·Σx² + b·Σx |
| `WilsonProxy.NumeratorOnLine` | utils/wilson_proxy.js:202 | on a line the slope's numerator n·Σxy − Σx·Σy is a times the denominator |
| `WilsonProxy.RegressionOfCollinear` | utils/wilson_proxy.js:199-205 | points exactly on a line, spread enough for the fit, give that line back |
| `WilsonProxy.RegressionOfSameX` | utils/wilson_proxy.js:199-200 | points sharing one x make the system singular, and null is returned |
| `SgCandidates.PickLatticeLetter` | utils/sg_candidates.js:4-9 | "R" exactly for a type starting with R; otherwise one of A, B, C, I, F, P, the type itself when it is one of them, and "P" for a missing, empty or unknown type |
| `SgCandidates.UndeterminedIsPrimitive` | utils/sg_candidates.js:5-8 | the undetermined centering "P(?)" seeds the primitive catalogue |
| `SgCandidates.IsCentricByE` | utils/sg_candidates.js:11-19 | unknown when there is no histogram or no mean |
| `SgCandidates.CentricByECut` | utils/sg_candidates.js:14-18 | for a finite mean: unknown exactly strictly between 0.842 and 0.862, centric exactly from 0.862, acentric exactly up to 0.842 |
| `SgCandidates.SideCenteredFallsBack` | utils/sg_candidates.js:110 | A and B centering have no catalogue and use the primitive one |
| `SgCandidates.SeedsDistinct` | utils/sg_candidates.js:110-114 | no seed list repeats a name, whichever lists are taken |
| `SgCandidates.CenterCurve` | utils/sg_candidates.js:64-65 | the weight is never negative, positive exactly for ratio < 0.8, at most 1 for a non-negative ratio, and 1 only at ratio 0 |
| `SgCandidates.CenterCurveMonotone` | utils/sg_candidates.js:64-65 | a larger ratio never weighs more |
| `SgCandidates.CenteringWeight` | utils/sg_candidates.js:59-67 | 0 without a best centering, without a numeric ratio or for "P(?)"; otherwise the curve at the ratio |
| `SgCandidates.GlideCurve` | utils/sg_candidates.js:73-77 | one of 1, 0.6, 0.3, 0; 1 exactly for a forbidden rate ≤ 5 %, positive exactly for one ≤ 20 % |
| `SgCandidates.GlideCurveMonotone` | utils/sg_candidates.js:73-77 | a higher forbidden rate never weighs more |
| `SgCandidates.GlideWeight` | utils/sg_candidates.js:70-78 | 0 without a glide result or without a numeric top forbidden rate; otherwise the step curve |
| `SgCandidates.ScrewCurve` | utils/sg_candidates.js:83 | one of 0.3, 0.15, 0; positive exactly from score 0.5, 0.3 exactly from 0.8 |
| `SgCandidates.ScrewCurveMonotone` | utils/sg_candidates.js:83 | a higher screw score never weighs less |
| `SgCandidates.ScrewWeight` | utils/sg_candidates.js:81-84 | 0 without a screw result or a numeric score; otherwise the step curve |
| `SgCandidates.TemperatureWeight` | utils/sg_candidates.js:87-93 | one of 0.05, 0.03, 0; positive exactly for a number ≤ 200 K |
| `SgCandidates.ZprimeWeight` | utils/sg_candidates.js:96-101 | one of 0.10, 0.05, 0; positive exactly for Z′ ≥ 2 |
| `SgCandidates.FormulaWeight` | utils/sg_candidates.js:147-153 | 0.2 exactly for a mean Z above 20, 0.1 exactly below 10, otherwise 0; the two terms never add up |
| `SgCandidates.SegmentFromAt` | utils/sg_candidates.js:132-134 | the scan for `/(^\|\/)c(\/\|$)/` succeeds exactly when the letter is a whole `/`-separated segment somewhere |
| `SgCandidates.NameBonus` | utils/sg_candidates.js:129-137 | one of 0.10, 0.08, 0.06, 0.04, 0; 0.10 exactly for a c-glide and a name with a "c" segment |
| `SgCandidates.CGlideBonusExample` | utils/sg_candidates.js:132 | a c-glide favours "P2_1/c" but not "Pbca", whose c is inside a segment |
| `SgCandidates.ScrewMarkNeverMatches` | utils/sg_candidates.js:140 | as written, `/21/` matches no catalogue name, so the screw name bonus never applies |
| `SgCandidates.ScrewMarkIntendedMatches` | utils/sg_candidates.js:140 | with the catalogue's own spelling "2_1" the marker matches "P2_1/c" and "P2_12_12_1" and not "P-1" or "C2/c" |
| `SgCandidates.ScoreBounds` | utils/sg_candidates.js:125-143 | a seed's score is its evidence sum plus at most the largest name bonus 0.10 |
| `SgCandidates.Filter` | utils/sg_candidates.js:161 | the filter keeps no more rows than it is given |
| `SgCandidates.FilterMembers` | utils/sg_candidates.js:161 | a row survives exactly when its name starts with an allowed letter |
| `SgCandidates.FilterDistinct` | utils/sg_candidates.js:161 | filtering keeps names distinct |
| `SgCandidates.KeptMembers` | utils/sg_candidates.js:159-162 | with a declared system, survivors are exactly the rows with an allowed prefix; a system missing from the table keeps nothing |
| `SgCandidates.FilterNothingAllowed` | utils/sg_candidates.js:160-161 | with no allowed letter nothing passes |
| `SgCandidates.Shift` | utils/sg_candidates.js:165-167 | one row out per row in |
| `SgCandidates.ShiftFacts` | utils/sg_candidates.js:165-167 | every shifted row is an input row with the prior sum added to its score, and distinct names stay distinct |
| `SgCandidates.SurvivorsFacts` | utils/sg_candidates.js:107-167 | a survivor is a seed of the chosen catalogue that passes the filter, scored by the evidence and the priors, and names are distinct |
| `SgCandidates.NamePos` | utils/sg_candidates.js:170 | the first position holding a name, or the length when it is absent |
| `SgCandidates.DedupDistinct` | utils/sg_candidates.js:170 | the map holds each name once |
| `SgCandidates.DedupKeepsNames` | utils/sg_candidates.js:170 | every name of the input survives the map |
| `SgCandidates.DedupFromRows` | utils/sg_candidates.js:170 | every entry of the map is one of the input rows |
| `SgCandidates.DedupOfDistinct` | utils/sg_candidates.js:170 | with names already distinct the map changes nothing |
| `SgCandidates.BuildSpaceGroupCandidates` | utils/sg_candidates.js:104-173 | [] without a centering result; otherwise at most eight survivors with distinct names in descending score, every one a survivor, and every survivor left out scoring no higher than all those kept |
| `SgCandidates.AddPriorWeights` | utils/sg_candidates.js:165-167 | the loop adds the prior sum to every score |
| `SgCandidates.RankSurvivors` | utils/sg_candidates.js:170-172 | de-duplicating, sorting and cutting gives min(n, 8) rows in descending score, each an input row, none beaten by one left out |
| `SgCandidates.TopEight` | utils/sg_candidates.js:171-172 | the first eight of the sorted list are ranked and outscore the rest |
| `SgCandidates.CutBelow` | utils/sg_candidates.js:171-172 | in a list sorted by descending score every row of a prefix scores at least as high as any later row |
| `SgCandidates.SortByDistinctNames` | utils/sg_candidates.js:171 | the sort keeps names distinct |
| `SgVote.Merge` | utils/sg_vote.js:19-28 | the defaults when nothing usable is stored; otherwise every stored key replaces its default, every other key keeps it, and `micro_glide` is merged key by key over its own defaults |
| `SgVote.MergeRoundTrip` | utils/sg_vote.js:6-24 | storing a complete weight object gives it back, storing `{}` gives the defaults, and a `micro_glide` that sets one key keeps the other three defaults |
| `SgVote.VoteTemperatureWeight` | utils/sg_vote.js:57-62 | 0 without a number or for NaN; otherwise 0.05 up to 120, 0.03 up to 200, else 0 |
| `SgVote.VoteZprimeWeight` | utils/sg_vote.js:63-68 | 0 without a number or for NaN; otherwise 0.10 from 3, 0.05 from 2, else 0 |
| `SgVote.PriorWeightsAgree` | utils/sg_vote.js:57-68 | the NaN guard changes nothing: both prior weights agree with the candidate builder's on every input |
| `SgVote.Keys` | utils/sg_vote.js:101-125 | the keys of a breakdown, one per entry, in push order |
| `SgVote.KeysForFacts` | utils/sg_vote.js:103-125 | each optional key is present exactly when its entry is pushed, "priorZ" never is, and no key repeats |
| `SgVote.BreakdownShape` | utils/sg_vote.js:101-125 | the breakdown starts with base, centering, glide and screw21; has "Estats" exactly when the centric call is made and eStat > 0; "temp" or "zprime" exactly when that weight is non-zero; never "priorZ"; no key twice |
| `SgVote.DefaultBreakdownTerms` | utils/sg_vote.js:84-125 | with the default weights the breakdown holds, term by term, the evidence part of the candidate builder's score and its two prior weights |
| `SgVote.BuildVotesForSeeds` | utils/sg_vote.js:80-131 | one vote per seed, in seed order, each with that seed's name, the breakdown and the centric flag |
| `SgVote.PushEntries` | utils/sg_vote.js:101-125 | the pushes of one loop pass give the breakdown list |
| `RenderSg.SuggestSgFacts` | utils/render_sg.js:130-150 | every list is non-empty and every name starts with the lattice's letter (P for lattices without their own list), and those lattices share the primitive lists |
| `RenderSg.InferCentric` | utils/render_sg.js:99-115 | null without an argument, and null when it has neither a numeric mean nor a `likely` string |
| `RenderSg.InferCentricCut` | utils/render_sg.js:105-110 | with a finite mean the guess is centric exactly above 0.852; the midpoint itself is acentric here and centric in the histogram |
| `RenderSg.LikelyLabelsBothCentric` | utils/render_sg.js:111-113 | both `likely` labels contain "centric", so a summary without a numeric mean is always guessed centric |
| `RenderSg.NormalizeToEHist` | utils/render_sg.js:117-123 | the argument itself exactly when its mean is a number, else null |
| `RenderSg.Dispatch` | utils/render_sg.js:7-37 | "not computed" exactly for a legacy call missing either argument; an array call draws its own candidates with the given or empty context; a legacy call draws the suggested names at score 1.0 with the inferred centric flag and the normalised histogram |
| `GridIndex.Wrap` | utils/patterson.js:9-11 | `((a % N) + N) % N` with the truncating `%` is the non-negative residue of a modulo N, in [0, N) |
| `GridIndex.WrapPeriodic` | utils/hkl_to_grid.js:10-12 | indices that differ by a multiple of N land in the same place |
| `GridIndex.WrapInRange` | utils/hkl_to_grid.js:9-12 | an index already in [0, N) is left alone, so wrapping twice is wrapping once |
| `GridIndex.RowMajor` | utils/hkl_to_grid.js:14 | `x*N*N + y*N + z` is the fastest-first layout with the coordinates reversed, and stays below N³ for coordinates in [0, N) |
| `GridIndex.LinearBound` | utils/patterson.js:12 | `h + N*(k + N*l)` stays below N³ for coordinates in [0, N) |
| `GridIndex.LinearDigits` | utils/patterson.js:12 | reading the base-N digits of a position gives back its coordinates |
| `GridIndex.DigitsLinear` | utils/patterson.js:12 | every position below N³ is the position of its digits, so the layout is a bijection |
| `Patterson.Cell` | utils/patterson.js:9-12 | a reflection's cell is inside the grid |
| `Patterson.SameCell` | utils/patterson.js:9-12 | two reflections share a cell exactly when h, k and l agree modulo N |
| `Patterson.Accumulated` | utils/patterson.js:5-15 | the accumulated grid has N³ cells |
| `Patterson.AccumulatedIsCellSum` | utils/patterson.js:8-15 | colliding reflections add up: every cell holds the F² sum of the reflections wrapping to it, 0 when none does |
| `Patterson.AccumulatedTotal` | utils/patterson.js:8-15 | nothing is lost: the grid adds up to the total F² |
| `Patterson.FillGrid` | utils/patterson.js:4-15 | two fresh zero-filled arrays of N³ values; the real one holds the accumulated F² for N > 0, the imaginary one stays zero; N = 0 gives empty arrays |
| `Patterson.BuildPattersonGrid` | utils/patterson.js:2-22 | the map of the given size whose data is the inverse transform of the accumulated F² grid with a zero imaginary part; a size of 0 gives the transform of empty grids |
| `HklToGrid.Cell` | utils/hkl_to_grid.js:10-14 | a coefficient's cell is inside the grid |
| `HklToGrid.AxisSwap` | utils/hkl_to_grid.js:14 | this grid's layout is the Patterson layout with h and l swapped |
| `HklToGrid.Placed` | utils/hkl_to_grid.js:3-18 | both planes keep N³ cells |
| `HklToGrid.LastAt` | utils/hkl_to_grid.js:6-18 | the last coefficient that reaches a cell, or none when none does |
| `HklToGrid.LastWriteWins` | utils/hkl_to_grid.js:16-17 | on a collision the later coefficient wins, F·cos(phase) and F·sin(phase), and a cell no coefficient reaches stays 0 |
| `HklToGrid.HklToGrid` | utils/hkl_to_grid.js:2-21 | two fresh arrays of N³ values holding, for N > 0, the placed real and imaginary planes; N = 0 gives empty arrays |
| `Fft.TwIndex` | utils/fft.js:33 | `(k * n) % N` is a valid twiddle index |
| `Fft.OutRe` | utils/fft.js:28-46 | one real output per input |
| `Fft.OutIm` | utils/fft.js:28-46 | one imaginary output per input |
| `Fft.Twiddle` | utils/fft.js:11-21 | a table of N values, one per angle −2πi/N; the cosine table and the sine table are this one definition applied to cos and to sin |
| `Fft.FirstTwiddle` | utils/fft.js:17-19 | the first twiddle has angle 0, so it is (cos 0, sin 0) |
| `Fft.ZeroInZeroOut` | utils/fft.js:28-46 | all-zero input gives all-zero output |
| `Fft.Linear` | utils/fft.js:28-46 | for a fixed twiddle table the transform is linear in (real, imag) |
| `Fft.PartialOfDelta` | utils/fft.js:32-42 | a delta of height c at position 0 contributes only its first term to the sums |
| `Fft.DeltaUniform` | utils/fft.js:28-46 | a delta of height c at position 0 gives the same output c·twiddleReal[0]/N at every k, and −c·twiddleImag[0]/N in the imaginary part |
| `Fft.DeltaOrZero` | utils/fft.js:28-46 | a line that is a delta or all zero gives the spread delta or all zero |
| `Fft.UnitImpulse` | utils/fft.js:11-46 | the unit impulse with cos 0 = 1 and sin 0 = 0 gives 1/N in every real output and 0 in every imaginary one |
| `Fft.FFT.constructor` | utils/fft.js:3-9 | zeroed planes of the given size and the twiddle tables of that size, all separate arrays |
| `Fft.FFT.BuildTwiddles` | utils/fft.js:11-21 | fresh tables of N entries holding cos and sin of −2π·i/N; nothing else changes |
| `Fft.FFT.InverseTransform` | utils/fft.js:23-50 | the planes are replaced by fresh arrays holding the inverse DFT of the old planes, (1/N)·Σ x[n]·conj(w[(k·n) mod N]); size and tables are untouched |
| `Fft3d.LineCell` | utils/fft3d.js:23-65 | a cell of a line is inside the grid |
| `Fft3d.At` | utils/fft3d.js:23 | the coordinates of a cell, which the layout maps back to it |
| `Fft3d.AtRowMajor` | utils/fft3d.js:23 | reading the coordinates of `x*N*N + y*N + z` gives (x, y, z) back |
| `Fft3d.LineOf` | utils/fft3d.js:18-26 | the line through a cell and the cell's place on it |
| `Fft3d.LineOfCell` | utils/fft3d.js:18-26 | the lines along an axis partition the grid: N² lines of N cells, every cell on exactly one |
| `Fft3d.Line` | utils/fft3d.js:22-26 | a line holds N values |
| `Fft3d.Pass` | utils/fft3d.js:18-38 | one pass gives a grid of the same size |
| `Fft3d.PassLines` | utils/fft3d.js:18-38 | each line of a pass's result is the 1-D inverse transform of the same line of its input |
| `Fft3d.PassSlab` | utils/fft3d.js:18-78 | a slab that is zero along the pass's axis is spread evenly along that axis to height c·twiddleReal[0]/N |
| `Fft3d.SlabEnds` | utils/fft3d.js:18-78 | the slab zero in every slot is the delta at cell 0, and the slab zero in none is constant |
| `Fft3d.DeltaThroughPasses` | utils/fft3d.js:13-81 | the delta at cell 0 becomes twiddleReal[0]³/N³ in every cell after the x, y and z passes |
| `Fft3d.TransformLine` | utils/fft3d.js:22-36 | one loop body: the line becomes its inverse transform and every other cell is unchanged |
| `Fft3d.LoadLine` | utils/fft3d.js:22-26 | the copy loop fills the FFT's planes with the line |
| `Fft3d.StoreLine` | utils/fft3d.js:32-36 | the copy-back loop writes the FFT's planes to the line and nothing else |
| `Fft3d.PassInPlace` | utils/fft3d.js:18-38 | the nested loop of one pass leaves the planes equal to the pass of their old contents |
| `Fft3d.StepPartial` | utils/fft3d.js:19-37 | transforming line (u, v) extends the region already transformed by that line |
| `Fft3d.NextRow` | utils/fft3d.js:18-38 | after the last inner index of row u every line with outer index ≤ u is transformed |
| `Fft3d.InverseFFT3D` | utils/fft3d.js:13-81 | the given planes are transformed in place along x, then y, then z of the layout x·N² + y·N + z, and the real plane itself is returned |
| `SimpleFft3d.Ifft1D` | utils/simple_fft3d.js:5-21 | the 1-D inverse transform of the planes, with the twiddle tables of their length |
| `SimpleFft3d.SliceIsLine` | utils/simple_fft3d.js:33-35 | the x line (z, y) is the contiguous run of N cells from `base = z*N*N + y*N` |
| `SimpleFft3d.OnSlice` | utils/simple_fft3d.js:33-39 | a cell is on x line (z, y) exactly when it is in that line's slice |
| `SimpleFft3d.SliceLine` | utils/simple_fft3d.js:33-39 | one x step: the line becomes its inverse transform and every other cell is unchanged |
| `SimpleFft3d.SliceOut` | utils/simple_fft3d.js:34-35 | the two slices are the x line of each plane |
| `SimpleFft3d.SliceIn` | utils/simple_fft3d.js:38-39 | `set` at base writes the x line of each plane and nothing else |
| `SimpleFft3d.SetAt` | utils/simple_fft3d.js:38-39 | the cells from base on take the given values; the others stay |
| `SimpleFft3d.SetSlice` | utils/simple_fft3d.js:38-39 | setting the slice of x line (z, y) sets that line and leaves every cell off it alone |
| `SimpleFft3d.GatherLine` | utils/simple_fft3d.js:46-83 | one y or z step: the line becomes its inverse transform and every other cell is unchanged |
| `SimpleFft3d.Scatter` | utils/simple_fft3d.js:57-83 | the scatter loop writes the line and nothing else |
| `SimpleFft3d.AxisPass` | utils/simple_fft3d.js:31-85 | the nested loop of one pass leaves the planes equal to the pass of their old contents |
| `SimpleFft3d.IFFT3D` | utils/simple_fft3d.js:24-88 | a fresh array of N³ values: the real plane after inverse transforms along x, then y, then z of the layout z·N² + y·N + x |
| `SimpleFft3d.XYZ` | utils/simple_fft3d.js:31-85 | the three passes give a grid of the same size |
| `SimpleFft3d.DeltaThroughXYZ` | utils/simple_fft3d.js:24-88 | the delta at cell 0 becomes twiddleReal[0]³/N³ in every cell after the x, y and z passes |
| `Numbers.AbsNum` | utils/e_histogram.js:4 | `Math.abs` keeps a finite number finite and non-negative, and NaN and the infinities non-finite |
| `Numbers.JsRem` | utils/patterson.js:9 | the `%` of JavaScript: the remainder lies strictly between −N and N, takes the sign of the dividend, and differs from the dividend by a multiple of N, which fixes it uniquely |
| `Numbers.WrapIsResidue` | utils/patterson.js:9-11 | `((a % N) + N) % N` with the truncating `%` is the mathematical residue of a, in [0, N) |
| `Numbers.NegativeWrap` | utils/hkl_to_grid.js:10-12 | for a negative index the wrap is also the residue |
| `Numbers.LowBits` | utils/glide.js:12-15 | `n & 1` and `n & 3` are n mod 2 and n mod 4, negative n included |
| `Numbers.LowBitsResidue` | utils/extinction.js:4-5 | the 32-bit conversion before `&` does not change the residue mod 2 or 4 |
| `Numbers.SeqMin` | utils/wilson_proxy.js:19-23 | the running minimum is an element no larger than any other |
| `Numbers.SeqMax` | utils/e_histogram.js:7 | the running maximum is an element no smaller than any other |
| `Numbers.Rate` | utils/screw.js:21-22 | a present count over a total is a rate in [0, 1] that recovers the count |
| `Numbers.SqrtOfPositive` | utils/e_normalize.js:8-9 | the root of a positive number is positive, so the E values can be divided by it |
| `WilsonProxy.Shells` | utils/wilson_proxy.js:29-42 | one shell per bin |
| `WilsonProxy.FillF2` | utils/wilson_proxy.js:36-42 | one F² sum per shell |

## Left out

- Rendering is not modelled: the SVG histogram and Wilson plot, the HTML of the centering and space-group panels, and the stars' markup. Only `confidenceFromRatio` and the argument dispatch of `renderSG` are modelled.
- App wiring, UI-backed services, `localStorage` and the JSON parse of stored voting weights are DOM and browser glue. The stored weights enter `SgVote.Merge` as an already-parsed optional `Override` whose fields are numbers.
- The `file.text()` read and the `onProgress` calls of `parseFileWithProgress` are asynchronous I/O. `ParseFile.ParseText` starts from the file's text.
- `Math.sqrt`, `Math.log`, `Math.cos`, `Math.sin`, `Math.PI` and `parseFloat` are function or value parameters. The square root is constrained only by the `IsSqrt` predicate. Twiddle properties need `cos(0) = 1` and `sin(0) = 0`, which FFT lemmas state as preconditions.
- `Number.isFinite` is modelled through `Num`: a field is either finite or not, so NaN, the infinities and `undefined` are not told apart where the code does not tell them apart.
- Float32Array rounding, IEEE double rounding and `toFixed` formatting are not modelled. Amplitudes, rates and grid values are `real`.
- The regular expressions are modelled as their meaning on the strings that occur: the formula token scanner, the name bonuses and `split(/\s+/)`/`split(/\r?\n/)`. They are not a general regex engine.
- `sg_vote.js` does not parse. At line 127, `breakdown.reduce((a,b)=>a` opens a call that is never closed, because line 128 goes straight on to `out.push(...)`. The module is therefore a SyntaxError, none of its functions can load, and no source file imports it. The `SgVote` members model the file as it would read with line 127 removed, so `total` is not modelled. The statements that stop mid-expression at lines 93-94, 110-113 and 118 would have no effect, and are modelled that way. No prior bonus, glide/screw micro-bonus or total is invented.
- `sg_vote.js` repeats the centering, glide and screw weights of `sg_candidates.js` token for token. The model defines them once, in `SgCandidates`, and `SgVote` uses those definitions.
- `autoCrystalSystem` is modelled on its own. As in the code, the candidate builder takes the crystal system from its `priors` argument and does not call the guess.
- `patterson.js` calls `ifft3D` at line 19 but never imports it. In an ES module that is a ReferenceError, raised on every call after the accumulation loop, so the program as written never returns a Patterson grid and the pipeline that calls it stops there. `Patterson.BuildPattersonGrid` takes the transform as a function parameter: the model supplies the transform the source lacks and states what the result would be.
- Grid sizes are `nat`. A negative size makes `Float32Array` throw a RangeError, and that case is not modelled.
- SgCandidates.CenteringWeight: the centering ratio is `Option<real>`, so a NaN or infinite ratio, which is a JavaScript number and would make the weight NaN or 0, is not modelled.
- EHistogram.BuildEHistogram: `nBins` is an integer; a fractional `nBins` is not modelled.
- Presence.RobustMedian: requires `frac < 1`. With `frac ≥ 1` the code reads past the sorted copy and returns NaN, which is not modelled.
- PseudoResolution.BuildBins: requires `nbin > 0` or no reflections. With `nbin = 0` and some reflections the code throws a TypeError on `bins[-1]`, which is not modelled.
- ENormalizeBins.RenormalizeByBins: requires every shell index to be below the number of reflections. These are the indices `buildPseudoResolutionBins` produces; an index out of range makes the code throw a TypeError.
- SimpleFft3d.Ifft1D: requires the two planes to have equal length. A longer imaginary plane makes `set` throw a RangeError, and a shorter one leaves zeros.
- SimpleFft3d.IFFT3D: requires inputs of length N³. A shorter input fails in one of two ways. If an x line starts past the end of the copy, `set` throws a RangeError. Otherwise the y and z gathers read `undefined` past the end and the affected cells become NaN. A longer input has its first N³ cells transformed and its tail returned unchanged. None of these cases is modelled.
- Fft3d.InverseFFT3D: requires the real and imaginary arrays to be distinct objects. The aliased call, where both planes are one array, is not modelled.
