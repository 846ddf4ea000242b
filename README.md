# Pollution exposure visualisation: the offline pipeline, in Dafny

This project models the Python scripts that turn pairs of PM2.5
concentration and population GeoTIFFs into the files a map front end shows.
Each script gets one module:

- `geotiff_processor.py` (module `GeotiffProcessor`):
  - reads the asset id, country and suffix from a file name;
  - counts pixels by order of magnitude;
  - builds the person-exposure raster (concentration times population) and its statistics;
  - decides whether an asset needs processing, under script version 1.1.0;
  - merges fresh and kept records;
  - writes the `assets.json` metadata.
- `edge_pattern_analyzer.py` (module `EdgePatternAnalyzer`):
  - measures runs of all-zero rows and columns at the four edges;
  - flags stripes longer than `max(10, 1% of the shorter side)`;
  - finds the extent of positive data;
  - classifies `-v2.tiff` and `-pop-v2.tiff` files per country;
  - compares the suspicious assets of both kinds.
- `server.py` (module `Server`): the GET router and the content-type inference of `serve_file`.
- `export_raw_data.py` (module `ExportRawData`): the sliced raw layers and their statistics, written once per asset.
- `raster_overlay.py` (module `RasterOverlay`): the heat colour map, the display downsampling, the hover sample and the batch loop.
- `generate_all_overlays.py` (module `GenerateAllOverlays`): five-band overlays.
- `generate_uniform_overlays.py` (module `GenerateUniformOverlays`): grey-scale overlays on a global log scale up to 30 000 000.
- `test_overlay.py` (module `TestOverlay`): the single BRA 1566447 overlay and its insertion into `assets.json`.
- `reduce_precision.py` (module `ReducePrecision`): rounding every float of a JSON document to significant digits.
- `fix_bounds.py` (module `FixBounds`): restoring degenerate overlay bounds from raw data files.

Four shared modules hold what the scripts have in common:

- `Strings`: prefixes, suffixes, Python's string order, `sorted`, `set`, `str.replace`.
- `Records`: Option and Result, bounds, RGBA colours, the asset and overlay records, the file paths of an asset.
- `Grids`: rasters as rows of reals, `max(1, n // d)` strides, `a[::s, ::s]` slicing, the NumPy reductions, the RGBA fill and the `pixel_data` sample lattice.
- `Palette`: Python's `int()` on floats, `np.clip`, the log ratio, the five-band ramp, the maximum cell, and the overlay loop shared by two scripts.

The file system enters as a set of paths that exist. Rasters enter as the
result of a read function. Library calls the model cannot see are
parameters:

- `rasterio.transform.xy` is a function from (row, column) to (lon, lat);
- `math.log10` is a function assumed zero at one and strictly increasing;
- `math.floor(math.log10(x))` and `round(x, n)` are a pair of functions.

Loops that update variables are methods with loop invariants. Each is proved equal to a specification
function, and properties are then proved of that function. The RGBA images
are `array2` values filled cell by cell; `test_overlay.py` edits the asset list in
place as an `array`.

## Model

| member | source | states |
|---|---|---|
| Strings.ReplaceTrailing | edge_pattern_analyzer.py:183 | replacing a suffix that occurs only at the end with "" gives back the stem |
| Strings.LessTotal | edge_pattern_analyzer.py:170 | Python string order is total: two strings are equal or one is below the other |
| Strings.LessTransitive | edge_pattern_analyzer.py:170 | Python string order is transitive |
| Strings.Insert | edge_pattern_analyzer.py:170 | inserting into a sorted list keeps it sorted, and adds exactly the one element |
| Strings.Sort | edge_pattern_analyzer.py:170 | `sorted`: the result is sorted and a permutation of the input |
| Strings.Distinct | geotiff_processor.py:385 | `set(...)`: the same members, with no repeats |
| Strings.SortedSet | geotiff_processor.py:385 | `sorted(list(set(...)))`: strictly increasing, with exactly the input's members |
| Grids.StrideFor | export_raw_data.py:48 | `max(1, m // d)` is at least 1, is above 1 exactly when m is at least 2d, and equals m // d once m reaches d |
| Grids.ScaleFactor | generate_all_overlays.py:50 | the scale factor is at least 1, and above 1 exactly when the shorter side is at least 400 |
| Grids.HoverRate | generate_all_overlays.py:103 | the sample rate is at least 1, and above 1 exactly when the shorter side is at least 100 |
| Grids.StepIsProduct | generate_all_overlays.py:106-107 | the k-th index of `range(0, n, s)` is k times s |
| Grids.StrideInRange | generate_all_overlays.py:106-107 | `range(0, n, s)` has ceil(n / s) elements: index k lies below n exactly when k is below ceil(n / s) |
| Grids.OnStride | export_raw_data.py:51-53 | an index is on the slice lattice exactly when it is a multiple of the step |
| Grids.DownsampleRow | export_raw_data.py:51-53 | `row[::s]` has ceil(length / s) elements, the k-th being `row[k*s]` |
| Grids.Downsample | export_raw_data.py:51-53 | `g[::s, ::s]` is rectangular, has ceil dimensions, and cell (a, b) is original cell (a*s, b*s) |
| Grids.DownsampleKeepsLattice | export_raw_data.py:51-53 | an original cell on the lattice appears at (i / s, j / s) of the slice |
| Grids.Layers.Downsampled | export_raw_data.py:51-53 | the three layers sliced alike stay aligned, have ceil dimensions, and each is the strided slice of its original |
| Grids.DisplayLayers | generate_all_overlays.py:49-55 | the layers as drawn are aligned, with dimensions ceil(h / sf) by ceil(w / sf) for the scale factor sf |
| Grids.Cells | generate_all_overlays.py:58 | the flattened raster holds exactly the raster's values, and is empty exactly when every row is |
| Grids.Max | generate_all_overlays.py:58 | `np.max` of a non-empty array is one of its values and bounds all of them |
| Grids.Min | geotiff_processor.py:119 | `np.min` of a non-empty array is one of its values and below all of them |
| Grids.Sum | geotiff_processor.py:116 | the sum of non-negative values is non-negative |
| Grids.SumPositive | geotiff_processor.py:122 | the sum of the positive values is non-negative, and positive exactly when one value is |
| Grids.MinPositive | export_raw_data.py:82 | the least positive value, or 0.0 when there is none |
| Grids.CountPositive | geotiff_processor.py:121 | `np.sum(a > 0)` is at most the length, and zero exactly when no value is positive |
| Grids.CountZero | edge_pattern_analyzer.py:96 | `np.sum(a == 0)` is at most the length, and zero exactly when no value is zero |
| Grids.Paint | generate_all_overlays.py:63-96 | the RGBA image has the raster's shape; each cell holds the colour of its value, or stays transparent black when only positive cells are painted and it is not positive |
| Grids.RowSamplesMembers | generate_all_overlays.py:107-119 | one row of the sample holds exactly the positive cells at lattice columns of that row |
| Grids.RowsSamplesMembers | generate_all_overlays.py:106-119 | the first k lattice rows of the sample hold exactly their positive lattice cells |
| Grids.SampledPixelsExactly | generate_all_overlays.py:103-119 | an entry is in `pixel_data` exactly when it is the entry of a positive cell on the sample lattice |
| Grids.KeptIsOnStride | generate_all_overlays.py:106-110 | a cell is sampled exactly when both its indices are multiples of the rate and its exposure is positive |
| Grids.SamplesAreOriginalCells | generate_all_overlays.py:111 | with positions scaled by the slicing step, every entry sampled from the sliced layers is an original positive cell at its own position |
| Grids.SamplePixels | generate_all_overlays.py:103-119 | the nested loop builds exactly the specified sample, in row-major order |
| Palette.Trunc | generate_all_overlays.py:80 | `int(x)` truncates toward zero: within one of x, never past it |
| Palette.TruncMonotone | generate_all_overlays.py:80 | truncation is monotone |
| Palette.Clip01 | generate_all_overlays.py:71 | `np.clip(x, 0, 1)` lies in [0, 1] and leaves values inside it alone |
| Palette.LogRatio | generate_all_overlays.py:69-70 | the normalised log value is positive for a positive exposure, and at most 1 up to the maximum |
| Palette.LogPositive | raster_overlay.py:26 | a log-like logarithm is positive above one |
| Palette.FiveBand | generate_all_overlays.py:75-96 | the five bands: blue, then cyan, green, yellow/orange and red, with alpha 150, 180, 200, 220 and 240, every channel in 0..255 |
| Palette.FiveBandTop | generate_all_overlays.py:93-96 | the top of the scale is (255, 0, 0, 240) |
| Palette.FiveBandAlphaMonotone | generate_all_overlays.py:75-96 | alpha never decreases as the normalised value grows |
| Palette.FiveBandCell | generate_all_overlays.py:63-71 | cells that are not positive stay transparent black; positive cells get the band of their clipped log ratio |
| Palette.MaximumIsRed | generate_all_overlays.py:58-96 | the raster's maximum is painted opaque red |
| Palette.MaxCell | generate_all_overlays.py:58 | the maximum is one of the raster's cells and bounds every cell |
| Palette.OverlayCount | generate_all_overlays.py:184 | `overlay_count` is at most the number of assets |
| Palette.CountOverlays | generate_all_overlays.py:184 | the counting comprehension equals the specified count |
| Palette.RunKeepsAssets | generate_all_overlays.py:167-178 | the loop keeps every asset in order, each unchanged or with an overlay added; generated plus logged equals the number of assets |
| Palette.RunCountsOverlays | generate_all_overlays.py:167-184 | `overlay_count` counts every generated overlay, and besides them only overlays the assets already had |
| Palette.AdvanceRunKeeps | generate_all_overlays.py:170-178 | one iteration appends the asset, at most adding an overlay, and counts it as generated or logged |
| GeotiffProcessor.DigitRun | geotiff_processor.py:21 | `\d+` matches the longest run of digits from a position |
| GeotiffProcessor.LazyGroup | geotiff_processor.py:21 | `(.+?)-v2\.tiff` ends the group at the first `-v2.tiff` on the same line |
| GeotiffProcessor.NewAt | geotiff_processor.py:21 | a new-pattern match at a position has a non-empty digit id, a non-empty suffix when present, and a `-v2.tiff` after it |
| GeotiffProcessor.OldAt | geotiff_processor.py:32 | an old-pattern match has a three-letter upper-case country and a digit id |
| GeotiffProcessor.SearchNew | geotiff_processor.py:22 | `re.search` finds the leftmost position where the new pattern matches, or reports that none does |
| GeotiffProcessor.SearchOld | geotiff_processor.py:33 | `re.search` finds the leftmost position where the old pattern matches, or reports that none does |
| GeotiffProcessor.ExtractAssetInfo | geotiff_processor.py:17-43 | a result has a digit id, a non-empty suffix, and either the given country or a three-letter code; the ValueError is raised exactly when the old pattern matches nowhere and either no country is given (absent or empty) or the new pattern matches nowhere; a given country with a new-pattern match is the result's country |
| GeotiffProcessor.ExtractConcentrationName | geotiff_processor.py:20-29 | `<id>-v2.tiff` in a country directory gives that id, that country and suffix "concentration" |
| GeotiffProcessor.ExtractPopulationName | geotiff_processor.py:20-29 | `<id>-pop-v2.tiff` gives that id, that country and suffix "pop" |
| GeotiffProcessor.PopTail | geotiff_processor.py:21 | the lazy group after `-` stops at the first `-v2.tiff`, so the tail `-pop-v2.tiff` yields suffix "pop" |
| GeotiffProcessor.ExtractOldName | geotiff_processor.py:31-43 | `cmu_plumes_footprints_v2_<CCC>_<id>-v2.tiff` without a country gives CCC, the id and suffix "concentration" |
| GeotiffProcessor.BucketsDisjoint | geotiff_processor.py:52-62 | the nine ranges are pairwise disjoint |
| GeotiffProcessor.HitsAtMostOne | geotiff_processor.py:73-78 | a pixel is counted by at most one range |
| GeotiffProcessor.BucketOf | geotiff_processor.py:66-78 | a finite value that is zero or at least 0.001 falls in one of the ranges |
| GeotiffProcessor.BucketedIsCounted | geotiff_processor.py:49-78 | only finite values that are zero or at least 0.001 are counted |
| GeotiffProcessor.OneBucket | geotiff_processor.py:66-78 | each counted pixel is in exactly one range; every other pixel is in none |
| GeotiffProcessor.CountsAddUp | geotiff_processor.py:64-80 | the nine counts add up to the number of counted pixels |
| GeotiffProcessor.CountPixelsByMagnitude | geotiff_processor.py:46-80 | one count per range, each the number of valid pixels in it, summing to the counted pixels |
| GeotiffProcessor.Clean | geotiff_processor.py:106-107 | finite non-negative values are kept, everything else becomes 0 |
| GeotiffProcessor.ExposureRaster | geotiff_processor.py:106-110 | the exposure raster has the inputs' shape; each cell is the product of the two inputs when both are finite and non-negative, and 0 otherwise; it is never negative, and positive exactly when both inputs are valid and positive |
| GeotiffProcessor.ExposureStatsOf | geotiff_processor.py:113-123 | the statistics fail exactly on an empty raster; otherwise the minimum and maximum bound every cell, the total is non-negative, and the non-zero count is the number of positive cells, whose mean is 0 exactly when there are none |
| GeotiffProcessor.ComputePersonExposure | geotiff_processor.py:94-125 | the exposure raster with its statistics, failing exactly when the input has no cell |
| GeotiffProcessor.FirstMatch | geotiff_processor.py:215-219 | the first existing record with the asset's id and country, or none |
| GeotiffProcessor.FindExisting | geotiff_processor.py:214-219 | the search loop stops at the first matching record |
| GeotiffProcessor.NeedsProcessing | geotiff_processor.py:202-237 | an asset needs processing exactly when it has no record, its version sorts below 1.1.0, or its exposure file is named but missing |
| GeotiffProcessor.UnversionedIsStale | geotiff_processor.py:226-228 | a record without a version counts as 1.0.0 and is reprocessed |
| GeotiffProcessor.CurrentIsKept | geotiff_processor.py:225-237 | a 1.1.0 record whose exposure file exists is kept |
| GeotiffProcessor.Merge | geotiff_processor.py:444-464 | the output length equals processed plus skipped, at most the number of pairs |
| GeotiffProcessor.MergeSources | geotiff_processor.py:448-464 | every output record is the fresh result of a stale pair or the kept record of a current one |
| GeotiffProcessor.AllCurrentKeepsRecords | geotiff_processor.py:458-464 | with nothing stale, the existing records are kept one per pair, in order, and none is processed |
| GeotiffProcessor.BatchProcess | geotiff_processor.py:443-466 | the loop computes the specified merge and counts |
| GeotiffProcessor.CountriesOf | geotiff_processor.py:385 | the countries are exactly the assets' countries |
| GeotiffProcessor.CreateAssetsJson | geotiff_processor.py:382-404 | the countries are strictly sorted and exactly the assets' countries; the total counts the assets, which are kept as given; data version "v2" and script version 1.1.0 |
| EdgePatternAnalyzer.LeadingRun | edge_pattern_analyzer.py:40-44 | the length of the leading run of flagged entries, and the entry after it is not flagged |
| EdgePatternAnalyzer.TrailingRun | edge_pattern_analyzer.py:47-51 | the length of the trailing run of flagged entries, and the entry before it is not flagged |
| EdgePatternAnalyzer.RowFlags | edge_pattern_analyzer.py:41 | one flag per row: every value in it is at most the threshold |
| EdgePatternAnalyzer.ColFlags | edge_pattern_analyzer.py:55 | one flag per column: every value in it is at most the threshold |
| EdgePatternAnalyzer.StripeInIntegers | edge_pattern_analyzer.py:68-73 | a run is a stripe exactly when it exceeds 10 and 1% of the shorter side |
| EdgePatternAnalyzer.PatternRuns | edge_pattern_analyzer.py:40-65 | each count covers clear rows or columns from its edge, and stops at the first one that is not clear |
| EdgePatternAnalyzer.AllClearRuns | edge_pattern_analyzer.py:40-65 | on an all-zero raster the runs from opposite edges each span the whole raster |
| EdgePatternAnalyzer.DetectEdgePatterns | edge_pattern_analyzer.py:14-75 | the four loops compute the specified patterns |
| EdgePatternAnalyzer.TopZeroRows | edge_pattern_analyzer.py:40-44 | the top loop counts the leading clear rows |
| EdgePatternAnalyzer.BottomZeroRows | edge_pattern_analyzer.py:47-51 | the bottom loop counts the trailing clear rows |
| EdgePatternAnalyzer.LeftZeroCols | edge_pattern_analyzer.py:54-58 | the left loop counts the leading clear columns |
| EdgePatternAnalyzer.RightZeroCols | edge_pattern_analyzer.py:61-65 | the right loop counts the trailing clear columns |
| EdgePatternAnalyzer.FirstTrue | edge_pattern_analyzer.py:106 | the first flagged index, or -1 when none is flagged |
| EdgePatternAnalyzer.LastTrue | edge_pattern_analyzer.py:107 | the last flagged index, or -1 when none is flagged |
| EdgePatternAnalyzer.Analyze | edge_pattern_analyzer.py:94-142 | the shape is the raster's; the zero and positive counts count the zero and positive cells, and the positive count is non-zero exactly when some cell is positive; the patterns are those of the raster; suspicious is the OR of the four stripes; without positive cells the extent is all -1 and no edge is reached; otherwise the extent is in range, holds every positive cell, each of its four sides holds a positive cell, and "reaches" means the extent touches that edge |
| EdgePatternAnalyzer.ExtentOf | edge_pattern_analyzer.py:104-110 | `data_extent` of a raster with a positive cell is the tightest box around the positive cells: in range, holding all of them, with a positive cell on each side |
| EdgePatternAnalyzer.PositiveCellsCounted | edge_pattern_analyzer.py:97-103 | `positive_pixels` is non-zero exactly when some cell is positive |
| EdgePatternAnalyzer.SmallNeverSuspicious | edge_pattern_analyzer.py:68-73 | the threshold is at least 10, so a raster at most 10 rows high has no top or bottom stripe, one at most 10 columns wide has no left or right stripe, and one small both ways is never suspicious |
| EdgePatternAnalyzer.Keep | edge_pattern_analyzer.py:175-179 | a filtering comprehension keeps exactly the members that satisfy the test |
| EdgePatternAnalyzer.KeepSplits | edge_pattern_analyzer.py:178-179 | the concentration and population lists together are a permutation of all files |
| EdgePatternAnalyzer.FilesSplit | edge_pattern_analyzer.py:175-179 | every `-v2.tiff` file is in exactly one of the two lists; population files are exactly the `-pop-v2.tiff` names |
| EdgePatternAnalyzer.PopIsV2 | edge_pattern_analyzer.py:179 | a `-pop-v2.tiff` name also ends in `-v2.tiff` |
| EdgePatternAnalyzer.ConcOnlySameFiles | edge_pattern_analyzer.py:202-203 | the concentration-only branch selects the same files as the two-kind branch |
| EdgePatternAnalyzer.KeepAppend | edge_pattern_analyzer.py:175 | filtering distributes over concatenation |
| EdgePatternAnalyzer.AssetIdOfStem | edge_pattern_analyzer.py:183-193 | removing the suffix gives back a stem that has no dash |
| EdgePatternAnalyzer.AnalyzeRead | edge_pattern_analyzer.py:90-150 | an unreadable file gives its error message; a readable one gives its analysis |
| EdgePatternAnalyzer.EntriesFor | edge_pattern_analyzer.py:182-199 | one entry per file, in file order |
| EdgePatternAnalyzer.ResultsClassified | edge_pattern_analyzer.py:170-199 | each concentration entry comes from a `-v2.tiff` file that is not a population file; each population entry comes from a `-pop-v2.tiff` file of its country; each id is the file name with its suffix removed |
| EdgePatternAnalyzer.EntriesNameTheirFiles | edge_pattern_analyzer.py:182-199 | each entry carries its country, file type, file name and derived id |
| EdgePatternAnalyzer.AnalyzeFiles | edge_pattern_analyzer.py:182-189 | the loop appends one entry per file, in order |
| EdgePatternAnalyzer.AnalyzeCountry | edge_pattern_analyzer.py:171-212 | one country: the sorted concentration files, plus the sorted population files when both kinds are analysed, and none otherwise |
| EdgePatternAnalyzer.BatchAnalyzeEdgePatterns | edge_pattern_analyzer.py:153-214 | results for the sorted three-letter directories, country by country |
| EdgePatternAnalyzer.SuspiciousAssets | edge_pattern_analyzer.py:307-308 | the (country, id) pairs of successfully analysed entries that are suspicious |
| EdgePatternAnalyzer.CompareSuspicious | edge_pattern_analyzer.py:293-312 | the comparison is made exactly when both lists are non-empty; "both", "conc only" and "pop only" are pairwise disjoint; both plus conc-only is the concentration set, both plus pop-only is the population set |
| Server.StripLeadingSlash | server.py:34-36 | one leading slash is removed, and only when there is one |
| Server.OnlyOneSlashStripped | server.py:34-36 | `//rest` keeps one slash |
| Server.RoutesExclusive | server.py:39-61 | the prefix routes exclude the exact routes and one another, so branch order only matters for the exact names |
| Server.Route | server.py:38-69 | each route serves its file with its fixed content type; frontend and unmatched paths serve the path with the type inferred |
| Server.InferContentType | server.py:80-94 | the type follows the extension, checked in order, and is `application/octet-stream` exactly when no known extension matches |
| Server.ExtensionsExclusive | server.py:81-92 | the known extensions exclude one another, so the order of the checks does not change the type |
| Server.ContentTypeOf | server.py:80 | a given type wins; otherwise the inferred type |
| Server.DoGet | server.py:29-94 | 404 when the joined path does not exist; otherwise the file with the routed type |
| Server.OverlaysServedAsPng | server.py:54-56 | an existing file under `overlays/` is served as PNG, whatever its extension |
| Server.RawDataServedAsJson | server.py:58-60 | an existing file under `raw_data/` is served as JSON, whatever its extension |
| Server.AbsolutePathLeavesDirectory | server.py:34-36 | a decoded path `//x` (from a request such as `/%2Fx`; a raw leading `//` is parsed as a network location) becomes `/x`, which `os.path.join` takes as absolute, so a file outside the served directory is returned |
| ExportRawData.ExportRawExposureData | export_raw_data.py:14-98 | missing inputs and an existing output are skipped with their messages; a read error is reported; otherwise the raster's export |
| ExportRawData.ExportRaster | export_raw_data.py:47-98 | exported exactly when the sliced exposure has a positive cell; the record holds the sliced layers with ceil dimensions and the asset's bounds; its maximum is the largest cell and its minimum the least positive one |
| ExportRawData.EveryCellOfAligned | export_raw_data.py:56-86 | aligned layers with an exposure cell have cells in every layer, so the other maxima are defined |
| ExportRawData.StoredCellsAreStrided | export_raw_data.py:51-86 | stored cell (i, j) is original cell (i*s, j*s) in all three layers |
| ExportRawData.RunKeepsAssets | export_raw_data.py:128-139 | the loop keeps every asset in order, each unchanged or with its raw-data file name set; exported plus logged equals the number of assets |
| ExportRawData.AdvanceKeeps | export_raw_data.py:130-139 | one iteration appends the asset, at most with its raw-data file name set, and counts it as exported or logged |
| ExportRawData.AdvanceFollowsOutcome | export_raw_data.py:130-139 | an exported asset gains its raw-data file name, logs nothing and is counted; a skipped one is kept as it was and its message is logged |
| ExportRawData.RunFollowsOutcomes | export_raw_data.py:128-139 | after the loop, each asset whose export succeeded (given the files written before it) carries its raw-data file name, and each skipped asset is unchanged |
| ExportRawData.RunWritesOutputs | export_raw_data.py:128-139 | only output paths of the listed assets are written |
| ExportRawData.SecondCopySkipped | export_raw_data.py:30-31 | a repeated asset finds the first copy's file and is skipped |
| ExportRawData.ExportAll | export_raw_data.py:128-139 | the loop computes the specified run |
| RasterOverlay.HeatColor | raster_overlay.py:26-43 | the four heat bands: yellow, orange, red and purple, with alpha below 180, then 200, 220 and 240 |
| RasterOverlay.HeatAlphaMonotone | raster_overlay.py:28-43 | alpha never decreases along the scale |
| RasterOverlay.HeatTop | raster_overlay.py:41-43 | the top of the scale is (155, 0, 200, 240) |
| RasterOverlay.AtMostOne | raster_overlay.py:26 | `min(x, 1.0)` |
| RasterOverlay.HeatCell | raster_overlay.py:21-43 | values that are not positive are transparent; positive values are visible or the faint yellow of the lowest band |
| RasterOverlay.HeatCellAlphaMonotone | raster_overlay.py:21-43 | a larger exposure is never more transparent |
| RasterOverlay.MaximumIsPurple | raster_overlay.py:26-43 | the maximum and anything above it is (155, 0, 200, 240) |
| RasterOverlay.DisplayScale | raster_overlay.py:83-88 | `max(h // 300, w // 300)` when a side exceeds 300, else 1; above 1 exactly when a side reaches 600 |
| RasterOverlay.Display | raster_overlay.py:83-88 | the displayed layers are the layers sliced by the display scale |
| RasterOverlay.SampleRate | raster_overlay.py:109 | at least 1, and above 1 exactly when the displayed shorter side is at least 200 |
| RasterOverlay.HoverSample | raster_overlay.py:111-125 | every hover entry has a positive exposure |
| RasterOverlay.OverlayMetadata | raster_overlay.py:48-141 | metadata exists exactly when a cell is positive; it carries the PNG name, the bounds and the raster's maximum, and the hover sample of the displayed layers |
| RasterOverlay.HeatOverlay | raster_overlay.py:48-141 | the corrected overlay succeeds exactly when a cell is positive; its hover positions are scaled by the display factor, while the program as written builds `OverlayMetadata(..., 1)` (see Findings) |
| RasterOverlay.HoverEntriesAreOriginalCells | raster_overlay.py:111-125 | every hover entry is an original positive cell at its own position, at most the maximum |
| RasterOverlay.RowTwoLayers | raster_overlay.py:83-117 | a raster of h rows and one column, positive only at row 2 |
| RasterOverlay.MisplacedEntry | raster_overlay.py:117 | with unscaled positions, a 600-899 row raster gets an entry at row 1 with row 2's values, matching no original cell |
| RasterOverlay.AsWrittenMisplacesSamples | raster_overlay.py:117 | the concrete family of rasters on which the code as written misplaces a hover entry |
| RasterOverlay.GeneratePngOverlay | raster_overlay.py:48-141 | the image exists exactly when the metadata does; it has the displayed shape and each cell has its heat colour; the metadata is the corrected one of HeatOverlay, not the as-written `OverlayMetadata(..., 1)` |
| RasterOverlay.AssetAfter | raster_overlay.py:163-193 | an asset changes at most in its overlay, and changes only, and then gains the overlay, exactly when its inputs exist, it is read, and the overlay is made; the overlay is the corrected one with hover positions scaled by the display factor, while the program as written builds `OverlayMetadata(..., 1)` (see Findings) |
| RasterOverlay.BatchGenerateOverlays | raster_overlay.py:144-203 | the loop updates each asset as AssetAfter says, in order, with the corrected hover positions rather than the as-written `OverlayMetadata(..., 1)` |
| GenerateAllOverlays.OverlayFor | generate_all_overlays.py:16-137 | missing inputs and an existing PNG are skipped with their messages; a generated overlay is five-band, holds the displayed maximum (bounding every cell and attained by one) and the sample of the displayed layers, with positions scaled by the scale factor |
| GenerateAllOverlays.GeneratedIffPositive | generate_all_overlays.py:57-60 | with both inputs present, no PNG yet and the rasters read, an overlay is generated exactly when some displayed cell is positive |
| Palette.PositiveMaximum | generate_all_overlays.py:58-59 | on a rectangular raster with cells, `np.max` is positive exactly when some cell is |
| GenerateAllOverlays.HoverEntriesAreOriginalCells | generate_all_overlays.py:103-119 | every hover entry is an original positive cell at its own position |
| GenerateAllOverlays.CreateOverlayForAsset | generate_all_overlays.py:16-137 | the image exists exactly when an overlay is generated; it has the displayed shape, with each positive cell in its band and the rest transparent |
| GenerateAllOverlays.GenerateAll | generate_all_overlays.py:140-184 | the loop computes the specified run, and `overlay_count` counts overlays in the results |
| GenerateUniformOverlays.Level | generate_uniform_overlays.py:32-41 | the normalised log level lies in [0, 1], is 0 up to 1, and is 1 from the global maximum |
| GenerateUniformOverlays.LevelMonotone | generate_uniform_overlays.py:36-41 | the level is monotone |
| GenerateUniformOverlays.ExposureToColor | generate_uniform_overlays.py:22-49 | a grey whose alpha is 255 times the level and whose shade is 255 times one minus the level; non-positive values are fully transparent |
| GenerateUniformOverlays.AtMostOneIsInvisible | generate_uniform_overlays.py:36-49 | exposures up to 1 are invisible |
| GenerateUniformOverlays.SaturatesAtGlobalMax | generate_uniform_overlays.py:19-49 | exposures from 30 000 000 up are opaque black |
| GenerateUniformOverlays.ColorMonotone | generate_uniform_overlays.py:22-49 | a larger exposure is darker and more opaque |
| GenerateUniformOverlays.UniformOverlayFor | generate_uniform_overlays.py:52-144 | missing inputs are skipped; a read asset is generated exactly when the displayed exposure has a positive cell; the record carries the global maximum and the scaled hover sample |
| GenerateUniformOverlays.CreateUniformOverlay | generate_uniform_overlays.py:52-144 | the image exists exactly when an overlay is generated, each cell in its uniform grey |
| GenerateUniformOverlays.GenerateUniform | generate_uniform_overlays.py:147-192 | the loop computes the specified run, and `overlay_count` counts overlays in the results |
| TestOverlay.SimpleOverlay | test_overlay.py:13-120 | fails exactly on an empty raster; otherwise five-band metadata with the displayed maximum and the scaled hover sample |
| TestOverlay.NoExposureNoSamples | test_overlay.py:44-106 | a raster without positive exposure gets an overlay with no hover entries |
| TestOverlay.CreateSimpleOverlay | test_overlay.py:13-120 | the image exists exactly when the metadata does; each positive cell has its band |
| TestOverlay.FirstTestAsset | test_overlay.py:145-149 | the first BRA 1566447 asset, or none |
| TestOverlay.AttachToFirstTestAsset | test_overlay.py:145-149 | only the first matching asset gets the overlay; the others are unchanged |
| TestOverlay.AddTestOverlay | test_overlay.py:123-160 | nothing changes when inputs are missing or the read fails; otherwise the overlay is attached to the first test asset |
| ReducePrecision.Abs | reduce_precision.py:20 | `abs` |
| ReducePrecision.RoundSignificant | reduce_precision.py:13-27 | zero gives the integer 0; any other number gives `round(abs, sig - floor(log10(abs)) - 1)` with the sign restored |
| ReducePrecision.RoundingIsOdd | reduce_precision.py:18-27 | rounding a negated number negates the rounding |
| ReducePrecision.Process | reduce_precision.py:29-38 | the document keeps its shape, keys and order; a document without floats is unchanged |
| ReducePrecision.Keys | reduce_precision.py:32 | the keys of an object in order |
| ReducePrecision.Position | reduce_precision.py:32 | the index of a key, or none when the key is absent |
| ReducePrecision.ProcessCommutesWithAt | reduce_precision.py:29-38 | at every path the processed document holds the processed original value, and no path appears or disappears |
| ReducePrecision.LeavesAfterProcessing | reduce_precision.py:35-38 | every float at any depth becomes its rounding, and every other scalar is kept |
| FixBounds.FixOne | fix_bounds.py:20-57 | one raw file counts a fix exactly when its overlay exists, is readable and is degenerate; a fix replaces the bounds only; otherwise nothing changes |
| FixBounds.FixAll | fix_bounds.py:16-59 | the same overlay files, and at most one fix per raw file |
| FixBounds.FixAssetBounds | fix_bounds.py:10-59 | the loop computes the specified state and count |
| FixBounds.FixOnlyRepairsBounds | fix_bounds.py:19-57 | only degenerate bounds change, to the bounds of a raw file naming that overlay; all other keys stay |
| FixBounds.SoundOverlaysUntouched | fix_bounds.py:39-42 | an overlay whose bounds are sound is never rewritten |
| FixBounds.NamedOverlaysRepaired | fix_bounds.py:19-54 | an overlay named by a raw file with sound bounds ends up sound |

## Left out

- Reading and writing files is not modelled: GeoTIFF through rasterio, PNG through PIL, and JSON. Existence is a set of paths, reads are function parameters, and writes add to the set of paths.
- The image is not encoded: the PNG is the RGBA `array2`, and pixel bytes are not modelled.
- `rasterio.transform.xy`, `math.log10`, `math.floor(math.log10(...))` and `round` are parameters, constrained only by the properties stated for them.
- The thread pools of the batch scripts are modelled in submission order. Completion order and concurrent writes are not modelled.
- Floating point is modelled as exact reals, so rounding error, float32 storage and overflow are out. NaN and infinity are modelled only where `np.isfinite` decides, in the geotiff pixel cells.
- Regex `\d` is taken as the ASCII digits. Unicode digits are not modelled.
- `std`, `mean`, `median`, percentiles and the geometric mean (`calculate_exposure_distribution_stats`, geotiff_processor.py:328-379) are not modelled. The statistics record has no std field.
- `find_asset_pairs`, `get_asset_centerpoint`, `process_asset_pair`, `save_person_exposure_geotiff` and `load_existing_assets` are not modelled. They consist of directory listing, raster I/O and GeoTIFF writing; the batch takes the pairs and a processing function as parameters.
- The file loop, size report and printing of `reduce_overlay_precision` and `test_precision_example` are not modelled; the model covers the rounding and the document walk.
- `summarize_suspicious_patterns` is not modelled, since it only prints; percentages in the comparison summary are not modelled either.
- The 500 reply of `serve_file` (server.py:96-105), sent when an existing path cannot be opened, such as a directory or an unreadable file, is not modelled: every path in the set of existing paths is served.
- The metadata flags written beside the assets are not modelled: `overlay_generated` (raster_overlay.py:197, generate_all_overlays.py:183, generate_uniform_overlays.py:191), `color_scale` (generate_uniform_overlays.py:193-198), `raw_data_exported` and `canvas_rendering_enabled` (export_raw_data.py:144-145). They are constants.
- `total_pixels` and `zero_percentage` of the edge report (edge_pattern_analyzer.py:129-132) are not modelled; the report keeps the shape and the zero count they derive from.
- The CORS headers, `log_message` and the HTTP server loop of server.py are not modelled; the URL decoding by `unquote` is taken as already done.
- exposure_stats_viewer.py and create_overlay_data.py are not part of this model.
- Rasters read for overlays or export are assumed to be three aligned rectangular layers (`ScenesAligned`, `ReadsAligned`); a shape mismatch is not modelled.
- RasterOverlay.OverlayMetadata: the `max_exposure == 0` fallback at raster_overlay.py:73-74 is not modelled, because `np.max` over an empty selection raises first and a positive maximum is never 0.
- TestOverlay.AddTestOverlay: an exception from `create_simple_overlay` ends the program in the source; the model returns the failure instead and changes nothing.
- GeotiffProcessor.ExposureStatsOf: the `mean` field (`np.mean` over all cells) is not constrained by the contract.
- GeotiffProcessor.NeedsProcessing: version strings are compared with Python's string order as written; numeric version order is not modelled.

## Findings

| source | as written | input that shows it | evidently intended | confidence | as-written member | corrected member |
|---|---|---|---|---|---|---|
| raster_overlay.py:117 | the hover position is `transform.xy(transform, i, j)`, with indices of the downsampled raster and the transform of the original | a raster of 600 rows and 1 column, positive only at row 2, unit transform: display scale 2 shows row 2 as display row 1, placed at original row 1, which is zero | `transform.xy(transform, i * scale_factor, j * scale_factor)`, as the other three overlay scripts do | not executed | RasterOverlay.AsWrittenMisplacesSamples | RasterOverlay.HoverEntriesAreOriginalCells |
