/** edge_pattern_analyzer.py: runs of all-zero rows and columns from each
    edge of a raster, the stripe test, the extent of positive data, the
    choice and order of the files analysed, and the suspicious-asset
    breakdown. */
module EdgePatternAnalyzer {
  import opened Records
  import opened Strings
  import opened Grids

  // ---------------------------------------------------------------------
  // Runs of true flags from either end

  /** The number of leading true flags. */
  function LeadingRun(f: seq<bool>): (r: nat)
    ensures r <= |f|
    ensures forall k :: 0 <= k < r ==> f[k]
    ensures r < |f| ==> !f[r]
  {
    if |f| == 0 || !f[0] then 0 else 1 + LeadingRun(f[1..])
  }

  /** The number of trailing true flags. */
  function TrailingRun(f: seq<bool>): (r: nat)
    ensures r <= |f|
    ensures forall k :: |f| - r <= k < |f| ==> f[k]
    ensures r < |f| ==> !f[|f| - 1 - r]
  {
    if |f| == 0 || !f[|f| - 1] then 0 else 1 + TrailingRun(f[..|f| - 1])
  }

  /** The index of the first true flag, -1 when there is none. */
  function FirstTrue(f: seq<bool>): (r: int)
    ensures -1 <= r < |f|
    ensures r == -1 <==> forall k :: 0 <= k < |f| ==> !f[k]
    ensures r >= 0 ==> f[r] && forall k :: 0 <= k < r ==> !f[k]
  {
    if |f| == 0 then -1
    else if f[0] then 0
    else
      var t := FirstTrue(f[1..]);
      if t == -1 then -1 else t + 1
  }

  /** The index of the last true flag, -1 when there is none. */
  function LastTrue(f: seq<bool>): (r: int)
    ensures -1 <= r < |f|
    ensures r == -1 <==> forall k :: 0 <= k < |f| ==> !f[k]
    ensures r >= 0 ==> f[r] && forall k :: r < k < |f| ==> !f[k]
  {
    if |f| == 0 then -1
    else if f[|f| - 1] then |f| - 1
    else LastTrue(f[..|f| - 1])
  }

  // ---------------------------------------------------------------------
  // detect_edge_patterns

  /** `np.all(data[i, :] <= threshold)` */
  predicate RowClear(g: Grid, t: real, i: nat)
    requires i < |g|
  {
    forall j :: 0 <= j < |g[i]| ==> g[i][j] <= t
  }

  /** `np.all(data[:, j] <= threshold)` */
  predicate ColClear(g: Grid, t: real, j: nat)
    requires Rectangular(g) && j < Width(g)
  {
    forall i :: 0 <= i < |g| ==> g[i][j] <= t
  }

  function RowFlags(g: Grid, t: real): (f: seq<bool>)
    ensures |f| == |g| && forall i :: 0 <= i < |g| ==> f[i] == RowClear(g, t, i)
  {
    seq(|g|, i requires 0 <= i < |g| => RowClear(g, t, i))
  }

  function ColFlags(g: Grid, t: real): (f: seq<bool>)
    requires Rectangular(g)
    ensures |f| == Width(g) && forall j :: 0 <= j < Width(g) ==> f[j] == ColClear(g, t, j)
  {
    seq(Width(g), j requires 0 <= j < Width(g) => ColClear(g, t, j))
  }

  /** The `patterns` dictionary. */
  datatype EdgePatterns = EdgePatterns(
    topStripe: bool, bottomStripe: bool, leftStripe: bool, rightStripe: bool,
    topRows: nat, bottomRows: nat, leftCols: nat, rightCols: nat)

  function MaxReal(a: real, b: real): real { if a >= b then a else b }

  /** `count > max(10, min(rows, cols) * 0.01)` */
  predicate Stripe(count: nat, rows: nat, cols: nat) {
    count as real > MaxReal(10.0, (MinNat(rows, cols) as real) * 0.01)
  }

  /** The stripe threshold in integers: more than ten, and more than one
      percent of the smaller dimension. */
  lemma StripeInIntegers(count: nat, rows: nat, cols: nat)
    ensures Stripe(count, rows, cols) <==> count > 10 && 100 * count > MinNat(rows, cols)
  {
    var m := MinNat(rows, cols) as real;
    assert (count as real > m * 0.01) <==> (100.0 * (count as real) > m);
    assert (100 * count) as real == 100.0 * (count as real);
  }

  /** What detect_edge_patterns returns for a rectangular raster. */
  function PatternsOf(g: Grid, t: real): (p: EdgePatterns)
    requires Rectangular(g)
  {
    var top := LeadingRun(RowFlags(g, t));
    var bottom := TrailingRun(RowFlags(g, t));
    var left := LeadingRun(ColFlags(g, t));
    var right := TrailingRun(ColFlags(g, t));
    var rows, cols := |g|, Width(g);
    EdgePatterns(
      Stripe(top, rows, cols), Stripe(bottom, rows, cols), Stripe(left, rows, cols), Stripe(right, rows, cols),
      top, bottom, left, right)
  }

  /** The four counts are the lengths of the maximal clear runs from each
      edge: every row or column in a run is clear, and the first one after
      it, if any, is not. */
  lemma PatternRuns(g: Grid, t: real)
    requires Rectangular(g)
    ensures var p := PatternsOf(g, t);
      p.topRows <= |g| && p.bottomRows <= |g| && p.leftCols <= Width(g) && p.rightCols <= Width(g)
      && (forall i :: 0 <= i < p.topRows ==> RowClear(g, t, i))
      && (p.topRows < |g| ==> !RowClear(g, t, p.topRows))
      && (forall i :: |g| - p.bottomRows <= i < |g| ==> RowClear(g, t, i))
      && (p.bottomRows < |g| ==> !RowClear(g, t, |g| - 1 - p.bottomRows))
      && (forall j :: 0 <= j < p.leftCols ==> ColClear(g, t, j))
      && (p.leftCols < Width(g) ==> !ColClear(g, t, p.leftCols))
      && (forall j :: Width(g) - p.rightCols <= j < Width(g) ==> ColClear(g, t, j))
      && (p.rightCols < Width(g) ==> !ColClear(g, t, Width(g) - 1 - p.rightCols))
  {
    var rf, cf := RowFlags(g, t), ColFlags(g, t);
    var top, bottom := LeadingRun(rf), TrailingRun(rf);
    var left, right := LeadingRun(cf), TrailingRun(cf);
    assert forall i :: 0 <= i < top ==> rf[i];
    assert forall j :: 0 <= j < left ==> cf[j];
  }

  /** When every value is at most the threshold, the runs from opposite
      edges overlap completely: top = bottom = rows, left = right = cols. */
  lemma AllClearRuns(g: Grid, t: real)
    requires Rectangular(g)
    requires forall i, j :: 0 <= i < |g| && 0 <= j < |g[i]| ==> g[i][j] <= t
    ensures var p := PatternsOf(g, t);
      p.topRows == p.bottomRows == |g| && p.leftCols == p.rightCols == Width(g)
  {
    var rf, cf := RowFlags(g, t), ColFlags(g, t);
    assert forall i :: 0 <= i < |g| ==> rf[i];
    assert forall j :: 0 <= j < Width(g) ==> cf[j];
  }

  /** detect_edge_patterns: the four scanning loops, each stopping at the
      first row or column that is not clear. */
  method DetectEdgePatterns(g: Grid, t: real) returns (p: EdgePatterns)
    requires Rectangular(g)
    ensures p == PatternsOf(g, t)
  {
    var rows, cols := |g|, Width(g);
    var top := TopZeroRows(g, t);
    var bottom := BottomZeroRows(g, t);
    var left := LeftZeroCols(g, t);
    var right := RightZeroCols(g, t);
    p := EdgePatterns(
      Stripe(top, rows, cols), Stripe(bottom, rows, cols), Stripe(left, rows, cols), Stripe(right, rows, cols),
      top, bottom, left, right);
  }

  /** The top-edge loop. */
  method TopZeroRows(g: Grid, t: real) returns (top: nat)
    ensures top == LeadingRun(RowFlags(g, t))
  {
    ghost var rf := RowFlags(g, t);
    top := 0;
    for i := 0 to |g|
      invariant top == i && forall k :: 0 <= k < i ==> rf[k]
    {
      if RowClear(g, t, i) {
        top := i + 1;
      } else {
        break;
      }
    }
    LeadingRunIs(rf, top);
  }

  /** The bottom-edge loop, from the last row up. */
  method BottomZeroRows(g: Grid, t: real) returns (bottom: nat)
    ensures bottom == TrailingRun(RowFlags(g, t))
  {
    ghost var rf := RowFlags(g, t);
    var rows := |g|;
    bottom := 0;
    for i := rows downto 0
      invariant bottom == rows - i && forall k :: i <= k < rows ==> rf[k]
    {
      if RowClear(g, t, i) {
        bottom := rows - i;
      } else {
        break;
      }
    }
    TrailingRunIs(rf, bottom);
  }

  /** The left-edge loop. */
  method LeftZeroCols(g: Grid, t: real) returns (left: nat)
    requires Rectangular(g)
    ensures left == LeadingRun(ColFlags(g, t))
  {
    ghost var cf := ColFlags(g, t);
    left := 0;
    for j := 0 to Width(g)
      invariant left == j && forall k :: 0 <= k < j ==> cf[k]
    {
      if ColClear(g, t, j) {
        left := j + 1;
      } else {
        break;
      }
    }
    LeadingRunIs(cf, left);
  }

  /** The right-edge loop, from the last column leftwards. */
  method RightZeroCols(g: Grid, t: real) returns (right: nat)
    requires Rectangular(g)
    ensures right == TrailingRun(ColFlags(g, t))
  {
    ghost var cf := ColFlags(g, t);
    var cols := Width(g);
    right := 0;
    for j := cols downto 0
      invariant right == cols - j && forall k :: j <= k < cols ==> cf[k]
    {
      if ColClear(g, t, j) {
        right := cols - j;
      } else {
        break;
      }
    }
    TrailingRunIs(cf, right);
  }

  /** A leading run is determined by where it stops. */
  lemma LeadingRunIs(f: seq<bool>, n: nat)
    requires n <= |f| && (forall k :: 0 <= k < n ==> f[k]) && (n < |f| ==> !f[n])
    ensures LeadingRun(f) == n
  {
  }

  /** A trailing run is determined by where it stops. */
  lemma TrailingRunIs(f: seq<bool>, n: nat)
    requires n <= |f| && (forall k :: |f| - n <= k < |f| ==> f[k]) && (n < |f| ==> !f[|f| - 1 - n])
    ensures TrailingRun(f) == n
  {
  }

  // ---------------------------------------------------------------------
  // analyze_concentration_file, without the file reading

  datatype Extent = Extent(minRow: int, maxRow: int, minCol: int, maxCol: int)

  datatype Reaches = Reaches(top: bool, bottom: bool, left: bool, right: bool)

  /** The keys of a successful analysis that the model covers. */
  datatype Report = Report(
    rows: nat, cols: nat,
    zeroPixels: nat, positivePixels: nat,
    extent: Extent, reaches: Reaches,
    patterns: EdgePatterns, suspicious: bool)

  predicate Positive(g: Grid, i: nat, j: nat)
    requires i < |g| && j < |g[i]|
  {
    g[i][j] > 0.0
  }

  /** Rows holding a positive value. */
  function RowHasPositive(g: Grid): (f: seq<bool>)
    ensures |f| == |g| && forall i :: 0 <= i < |g| ==> (f[i] <==> exists j :: 0 <= j < |g[i]| && Positive(g, i, j))
  {
    seq(|g|, i requires 0 <= i < |g| => exists j :: 0 <= j < |g[i]| && Positive(g, i, j))
  }

  /** Columns holding a positive value. */
  function ColHasPositive(g: Grid): (f: seq<bool>)
    requires Rectangular(g)
    ensures |f| == Width(g) && forall j :: 0 <= j < Width(g) ==> (f[j] <==> exists i :: 0 <= i < |g| && Positive(g, i, j))
  {
    seq(Width(g), j requires 0 <= j < Width(g) => exists i :: 0 <= i < |g| && Positive(g, i, j))
  }

  /** `data_extent` when some cell is positive: the first and last rows
      and columns holding a positive cell. */
  function ExtentOf(g: Grid): (ext: Extent)
    requires Rectangular(g) && exists i, j :: 0 <= i < |g| && 0 <= j < |g[i]| && Positive(g, i, j)
    ensures 0 <= ext.minRow <= ext.maxRow < |g| && 0 <= ext.minCol <= ext.maxCol < Width(g)
    ensures forall i, j :: 0 <= i < |g| && 0 <= j < |g[i]| && Positive(g, i, j) ==>
      ext.minRow <= i <= ext.maxRow && ext.minCol <= j <= ext.maxCol
    ensures (exists j :: 0 <= j < Width(g) && Positive(g, ext.minRow, j))
      && (exists j :: 0 <= j < Width(g) && Positive(g, ext.maxRow, j))
      && (exists i :: 0 <= i < |g| && Positive(g, i, ext.minCol))
      && (exists i :: 0 <= i < |g| && Positive(g, i, ext.maxCol))
  {
    var rowsP, colsP := RowHasPositive(g), ColHasPositive(g);
    var i0, j0 :| 0 <= i0 < |g| && 0 <= j0 < |g[i0]| && Positive(g, i0, j0);
    assert rowsP[i0] && colsP[j0];
    var ext := Extent(FirstTrue(rowsP), LastTrue(rowsP), FirstTrue(colsP), LastTrue(colsP));
    forall i, j | 0 <= i < |g| && 0 <= j < |g[i]| && Positive(g, i, j)
      ensures ext.minRow <= i <= ext.maxRow && ext.minCol <= j <= ext.maxCol
    {
      assert rowsP[i] && colsP[j];
    }
    ext
  }

  /** The report for a raster that was read; zero and positive counts use
      `np.sum(data == 0)` and `np.sum(data > 0)`. */
  function Analyze(g: Grid): (r: Report)
    requires Rectangular(g)
    ensures r.rows == |g| && r.cols == Width(g)
    ensures r.zeroPixels == CountZero(Cells(g)) && r.positivePixels == CountPositive(Cells(g))
    ensures r.positivePixels > 0 <==> exists i, j :: 0 <= i < |g| && 0 <= j < |g[i]| && Positive(g, i, j)
    ensures r.patterns == PatternsOf(g, 0.0)
    ensures r.suspicious <==>
      r.patterns.topStripe || r.patterns.bottomStripe || r.patterns.leftStripe || r.patterns.rightStripe
    ensures r.positivePixels == 0 ==>
      r.extent == Extent(-1, -1, -1, -1) && r.reaches == Reaches(false, false, false, false)
    ensures r.positivePixels > 0 ==>
      0 <= r.extent.minRow <= r.extent.maxRow < |g| && 0 <= r.extent.minCol <= r.extent.maxCol < Width(g)
    ensures r.positivePixels > 0 ==>
      r.reaches == Reaches(r.extent.minRow == 0, r.extent.maxRow == |g| - 1, r.extent.minCol == 0, r.extent.maxCol == Width(g) - 1)
    ensures forall i, j :: 0 <= i < |g| && 0 <= j < |g[i]| && Positive(g, i, j) ==>
      r.extent.minRow <= i <= r.extent.maxRow && r.extent.minCol <= j <= r.extent.maxCol
    ensures r.positivePixels > 0 ==>
      (exists j :: 0 <= j < Width(g) && Positive(g, r.extent.minRow, j))
      && (exists j :: 0 <= j < Width(g) && Positive(g, r.extent.maxRow, j))
      && (exists i :: 0 <= i < |g| && Positive(g, i, r.extent.minCol))
      && (exists i :: 0 <= i < |g| && Positive(g, i, r.extent.maxCol))
  {
    var cells := Cells(g);
    var positive := CountPositive(cells);
    var p := PatternsOf(g, 0.0);
    var suspicious := p.topStripe || p.bottomStripe || p.leftStripe || p.rightStripe;
    PositiveCellsCounted(g);
    if positive > 0 then
      var ext := ExtentOf(g);
      var reaches := Reaches(ext.minRow == 0, ext.maxRow == |g| - 1, ext.minCol == 0, ext.maxCol == Width(g) - 1);
      Report(|g|, Width(g), CountZero(cells), positive, ext, reaches, p, suspicious)
    else
      Report(|g|, Width(g), CountZero(cells), positive, Extent(-1, -1, -1, -1), Reaches(false, false, false, false), p, suspicious)
  }

  /** Some cell is positive exactly when the positive count is not zero. */
  lemma PositiveCellsCounted(g: Grid)
    ensures CountPositive(Cells(g)) > 0 <==> exists i, j :: 0 <= i < |g| && 0 <= j < |g[i]| && Positive(g, i, j)
  {
    var cells := Cells(g);
    if CountPositive(cells) > 0 {
      var k :| 0 <= k < |cells| && cells[k] > 0.0;
      assert cells[k] in cells;
      var i, j :| 0 <= i < |g| && 0 <= j < |g[i]| && g[i][j] == cells[k];
      assert Positive(g, i, j);
    } else {
      forall i, j | 0 <= i < |g| && 0 <= j < |g[i]| ensures !Positive(g, i, j) {
        assert g[i][j] in cells;
        var k :| 0 <= k < |cells| && cells[k] == g[i][j];
      }
    }
  }

  /** A raster at most ten rows high has no top or bottom stripe, and one
      at most ten columns wide has no left or right stripe: no run can
      exceed ten there.  A small raster is thus flagged only through a
      stripe along its other, longer side. */
  lemma SmallNeverSuspicious(g: Grid)
    requires Rectangular(g)
    ensures |g| <= 10 ==> !PatternsOf(g, 0.0).topStripe && !PatternsOf(g, 0.0).bottomStripe
    ensures Width(g) <= 10 ==> !PatternsOf(g, 0.0).leftStripe && !PatternsOf(g, 0.0).rightStripe
    ensures |g| <= 10 && Width(g) <= 10 ==> !Analyze(g).suspicious
  {
    var p := PatternsOf(g, 0.0);
    PatternRuns(g, 0.0);
    StripeInIntegers(p.topRows, |g|, Width(g));
    StripeInIntegers(p.bottomRows, |g|, Width(g));
    StripeInIntegers(p.leftCols, |g|, Width(g));
    StripeInIntegers(p.rightCols, |g|, Width(g));
  }

  // ---------------------------------------------------------------------
  // batch_analyze_edge_patterns: which files are analysed, in what order

  const V2Suffix := "-v2.tiff"
  const PopSuffix := "-pop-v2.tiff"

  predicate IsV2(f: string) { EndsWith(f, V2Suffix) }
  predicate IsPop(f: string) { EndsWith(f, PopSuffix) }
  predicate IsConc(f: string) { !EndsWith(f, PopSuffix) }

  /** A list comprehension `[x for x in xs if p(x)]`. */
  function Keep(xs: seq<string>, p: string -> bool): (r: seq<string>)
    ensures forall x :: x in r <==> x in xs && p(x)
  {
    if |xs| == 0 then [] else (if p(xs[0]) then [xs[0]] else []) + Keep(xs[1..], p)
  }

  /** The two comprehensions over `all_files` split it between them. */
  lemma {:induction false} KeepSplits(xs: seq<string>)
    ensures multiset(Keep(xs, IsConc)) + multiset(Keep(xs, IsPop)) == multiset(xs)
  {
    if |xs| > 0 {
      var h, t := xs[0], xs[1..];
      KeepSplits(t);
      assert xs == [h] + t;
      if IsPop(h) {
        assert Keep(xs, IsConc) == Keep(t, IsConc);
        assert Keep(xs, IsPop) == [h] + Keep(t, IsPop);
      } else {
        assert Keep(xs, IsConc) == [h] + Keep(t, IsConc);
        assert Keep(xs, IsPop) == Keep(t, IsPop);
      }
    }
  }

  /** `all_files`: the names ending in `-v2.tiff`. */
  function V2Files(files: seq<string>): seq<string> { Keep(files, IsV2) }

  /** `conc_files` when both kinds are analysed. */
  function ConcFiles(files: seq<string>): seq<string> { Keep(V2Files(files), IsConc) }

  /** `pop_files`. */
  function PopFiles(files: seq<string>): seq<string> { Keep(V2Files(files), IsPop) }

  /** The single comprehension of the concentration-only branch. */
  function ConcOnlyFiles(files: seq<string>): seq<string> {
    Keep(files, f => IsV2(f) && IsConc(f))
  }

  /** Every `-v2.tiff` file lands in exactly one of the two lists, with its
      multiplicity, and no other file lands in either. */
  lemma FilesSplit(files: seq<string>)
    ensures multiset(ConcFiles(files)) + multiset(PopFiles(files)) == multiset(V2Files(files))
    ensures forall f :: f in V2Files(files) ==> (f in ConcFiles(files) <==> f !in PopFiles(files))
    ensures forall f :: f in ConcFiles(files) || f in PopFiles(files) ==> f in files && IsV2(f)
    ensures forall f :: f in PopFiles(files) <==> f in files && IsPop(f)
  {
    KeepSplits(V2Files(files));
    forall f | IsPop(f) ensures IsV2(f) {
      PopIsV2(f);
    }
  }

  /** A `-pop-v2.tiff` name also ends in `-v2.tiff`. */
  lemma PopIsV2(f: string)
    requires IsPop(f)
    ensures IsV2(f)
  {
    assert f[|f| - |V2Suffix|..] == PopSuffix[|PopSuffix| - |V2Suffix|..];
  }

  /** The concentration-only branch picks the same files as the
      concentration half of the two-kind branch. */
  lemma {:induction false} ConcOnlySameFiles(files: seq<string>)
    ensures ConcOnlyFiles(files) == ConcFiles(files)
  {
    if |files| > 0 {
      ConcOnlySameFiles(files[1..]);
      assert ConcOnlyFiles(files) == (if IsV2(files[0]) && IsConc(files[0]) then [files[0]] else []) + ConcOnlyFiles(files[1..]);
      assert V2Files(files) == (if IsV2(files[0]) then [files[0]] else []) + V2Files(files[1..]);
      KeepAppend([files[0]], files[1..], IsV2);
      KeepAppend(if IsV2(files[0]) then [files[0]] else [], V2Files(files[1..]), IsConc);
    }
  }

  lemma {:induction false} KeepAppend(a: seq<string>, b: seq<string>, p: string -> bool)
    ensures Keep(a + b, p) == Keep(a, p) + Keep(b, p)
  {
    if |a| > 0 {
      KeepAppend(a[1..], b, p);
      assert (a + b)[1..] == a[1..] + b;
    } else {
      assert a + b == b;
    }
  }

  datatype FileType = Concentration | Population

  /** `file.replace('-v2.tiff', '')` or `file.replace('-pop-v2.tiff', '')`. */
  function AssetIdOf(f: string, t: FileType): string {
    ReplaceAll(f, if t == Concentration then V2Suffix else PopSuffix, "")
  }

  /** For names built from a hyphen-free stem, the replacement gives back
      the stem for both kinds. */
  lemma AssetIdOfStem(stem: string)
    requires forall k :: 0 <= k < |stem| ==> stem[k] != '-'
    ensures AssetIdOf(stem + V2Suffix, Concentration) == stem
    ensures AssetIdOf(stem + PopSuffix, Population) == stem
  {
    ReplaceTrailing(stem, V2Suffix);
    ReplaceTrailing(stem, PopSuffix);
  }

  /** One element of `results['concentration']` or `results['population']`;
      `report` is the error message when reading the file failed. */
  datatype Entry = Entry(country: string, assetId: string, fileName: string, fileType: FileType, report: Result<Report>)

  /** analyze_concentration_file given what reading the file produced. */
  function AnalyzeRead(read: Result<Grid>): (r: Result<Report>)
    ensures read.Err? ==> r == Err(read.message)
    ensures read.Ok? && Rectangular(read.value) ==> r == Ok(Analyze(read.value))
  {
    match read
    case Err(m) => Err(m)
    case Ok(g) => if Rectangular(g) then Ok(Analyze(g)) else Err("raster is not rectangular")
  }

  function MakeEntry(c: string, f: string, t: FileType, read: (string, string) -> Result<Grid>): Entry {
    Entry(c, AssetIdOf(f, t), f, t, AnalyzeRead(read(c, f)))
  }

  /** The entries one country contributes for the files `fs`, in order. */
  function EntriesFor(c: string, fs: seq<string>, t: FileType, read: (string, string) -> Result<Grid>): (r: seq<Entry>)
    ensures |r| == |fs|
    ensures forall i :: 0 <= i < |fs| ==> r[i] == MakeEntry(c, fs[i], t, read)
  {
    seq(|fs|, i requires 0 <= i < |fs| => MakeEntry(c, fs[i], t, read))
  }

  /** `country_dirs` before sorting: directory names of three characters. */
  function CountryDirs(dirs: seq<string>): seq<string> {
    Keep(dirs, d => |d| == 3)
  }

  /** The concentration results over the countries `cs`, country by country. */
  function ConcResults(cs: seq<string>, filesOf: string -> seq<string>, read: (string, string) -> Result<Grid>): seq<Entry> {
    if |cs| == 0 then []
    else
      var c := cs[|cs| - 1];
      ConcResults(cs[..|cs| - 1], filesOf, read) + EntriesFor(c, Sort(ConcFiles(filesOf(c))), Concentration, read)
  }

  /** The population results over the countries `cs`. */
  function PopResults(cs: seq<string>, filesOf: string -> seq<string>, read: (string, string) -> Result<Grid>): seq<Entry> {
    if |cs| == 0 then []
    else
      var c := cs[|cs| - 1];
      PopResults(cs[..|cs| - 1], filesOf, read) + EntriesFor(c, Sort(PopFiles(filesOf(c))), Population, read)
  }

  /** Every concentration result names a concentration file of its country,
      and every population result a population file; the asset id is the
      file name with its suffix replaced. */
  lemma {:induction false} ResultsClassified(cs: seq<string>, filesOf: string -> seq<string>, read: (string, string) -> Result<Grid>)
    ensures forall e :: e in ConcResults(cs, filesOf, read) ==>
      e.country in cs && e.fileType == Concentration && e.fileName in filesOf(e.country)
      && IsV2(e.fileName) && !IsPop(e.fileName) && e.assetId == AssetIdOf(e.fileName, Concentration)
    ensures forall e :: e in PopResults(cs, filesOf, read) ==>
      e.country in cs && e.fileType == Population && e.fileName in filesOf(e.country)
      && IsPop(e.fileName) && e.assetId == AssetIdOf(e.fileName, Population)
  {
    if |cs| > 0 {
      var init, c := cs[..|cs| - 1], cs[|cs| - 1];
      ResultsClassified(init, filesOf, read);
      FilesSplit(filesOf(c));
      var cf, pf := Sort(ConcFiles(filesOf(c))), Sort(PopFiles(filesOf(c)));
      EntriesNameTheirFiles(c, cf, Concentration, read);
      EntriesNameTheirFiles(c, pf, Population, read);
      forall f | f in cf ensures f in ConcFiles(filesOf(c)) {
        assert f in multiset(cf);
      }
      forall f | f in pf ensures f in PopFiles(filesOf(c)) {
        assert f in multiset(pf);
      }
      assert forall x :: x in init ==> x in cs;
    }
  }

  lemma EntriesNameTheirFiles(c: string, fs: seq<string>, t: FileType, read: (string, string) -> Result<Grid>)
    ensures forall e :: e in EntriesFor(c, fs, t, read) ==>
      e.country == c && e.fileType == t && e.fileName in fs && e.assetId == AssetIdOf(e.fileName, t)
  {
    var r := EntriesFor(c, fs, t, read);
    forall e | e in r
      ensures e.country == c && e.fileType == t && e.fileName in fs && e.assetId == AssetIdOf(e.fileName, t)
    {
      var i :| 0 <= i < |r| && r[i] == e;
      assert e == MakeEntry(c, fs[i], t, read);
    }
  }

  /** One inner loop of batch_analyze_edge_patterns: the files of one
      country analysed in the given order. */
  method AnalyzeFiles(country: string, files: seq<string>, t: FileType, read: (string, string) -> Result<Grid>)
    returns (results: seq<Entry>)
    ensures results == EntriesFor(country, files, t, read)
  {
    results := [];
    for i := 0 to |files|
      invariant results == EntriesFor(country, files[..i], t, read)
    {
      results := results + [MakeEntry(country, files[i], t, read)];
      assert files[..i + 1] == files[..i] + [files[i]];
    }
    assert files[..|files|] == files;
  }

  /** batch_analyze_edge_patterns over the directory names `dirs`:
      countries in sorted order, and within a country the concentration
      files, then (when `analyzeBoth`) the population files, each sorted. */
  method BatchAnalyzeEdgePatterns(dirs: seq<string>, filesOf: string -> seq<string>,
                                  read: (string, string) -> Result<Grid>, analyzeBoth: bool)
    returns (conc: seq<Entry>, pop: seq<Entry>)
    ensures conc == ConcResults(Sort(CountryDirs(dirs)), filesOf, read)
    ensures pop == if analyzeBoth then PopResults(Sort(CountryDirs(dirs)), filesOf, read) else []
  {
    var countries := Sort(CountryDirs(dirs));
    conc, pop := [], [];
    for k := 0 to |countries|
      invariant conc == ConcResults(countries[..k], filesOf, read)
      invariant pop == if analyzeBoth then PopResults(countries[..k], filesOf, read) else []
    {
      ResultsSnoc(countries, k, filesOf, read);
      var concResults, popResults := AnalyzeCountry(countries[k], filesOf, read, analyzeBoth);
      conc := conc + concResults;
      if analyzeBoth {
        pop := pop + popResults;
      }
    }
    assert countries[..|countries|] == countries;
  }

  /** The body of the country loop: the country's concentration files and,
      when `analyzeBoth`, its population files, each sorted. */
  method AnalyzeCountry(country: string, filesOf: string -> seq<string>,
                        read: (string, string) -> Result<Grid>, analyzeBoth: bool)
    returns (conc: seq<Entry>, pop: seq<Entry>)
    ensures conc == EntriesFor(country, Sort(ConcFiles(filesOf(country))), Concentration, read)
    ensures analyzeBoth ==> pop == EntriesFor(country, Sort(PopFiles(filesOf(country))), Population, read)
    ensures !analyzeBoth ==> pop == []
  {
    pop := [];
    if analyzeBoth {
      var allFiles := V2Files(filesOf(country));
      var concFiles := Keep(allFiles, IsConc);
      var popFiles := Keep(allFiles, IsPop);
      conc := AnalyzeFiles(country, Sort(concFiles), Concentration, read);
      pop := AnalyzeFiles(country, Sort(popFiles), Population, read);
    } else {
      var files := ConcOnlyFiles(filesOf(country));
      ConcOnlySameFiles(filesOf(country));
      conc := AnalyzeFiles(country, Sort(files), Concentration, read);
    }
  }

  lemma ResultsSnoc(cs: seq<string>, k: nat, filesOf: string -> seq<string>, read: (string, string) -> Result<Grid>)
    requires k < |cs|
    ensures ConcResults(cs[..k + 1], filesOf, read)
      == ConcResults(cs[..k], filesOf, read) + EntriesFor(cs[k], Sort(ConcFiles(filesOf(cs[k]))), Concentration, read)
    ensures PopResults(cs[..k + 1], filesOf, read)
      == PopResults(cs[..k], filesOf, read) + EntriesFor(cs[k], Sort(PopFiles(filesOf(cs[k]))), Population, read)
  {
    assert cs[..k + 1][..k] == cs[..k];
  }

  // ---------------------------------------------------------------------
  // The comparative summary of main

  /** `(country, asset_id)` of the results flagged suspicious; an error
      result has no `suspicious_patterns` key and counts as not flagged. */
  function SuspiciousAssets(rs: seq<Entry>): (r: set<(string, string)>)
    ensures forall a :: a in r <==> exists e :: e in rs && e.report.Ok? && e.report.value.suspicious && a == (e.country, e.assetId)
  {
    set e | e in rs && e.report.Ok? && e.report.value.suspicious :: (e.country, e.assetId)
  }

  datatype Breakdown = Breakdown(both: set<(string, string)>, concOnly: set<(string, string)>, popOnly: set<(string, string)>)

  /** The asset breakdown, computed only when both result lists are
      non-empty. */
  function CompareSuspicious(conc: seq<Entry>, pop: seq<Entry>): (r: Option<Breakdown>)
    ensures r.Some? <==> |conc| > 0 && |pop| > 0
    ensures r.Some? ==>
      var b := r.value;
      b.both !! b.concOnly && b.both !! b.popOnly && b.concOnly !! b.popOnly
      && b.both + b.concOnly == SuspiciousAssets(conc)
      && b.both + b.popOnly == SuspiciousAssets(pop)
      && (forall a :: a in b.both <==> a in SuspiciousAssets(conc) && a in SuspiciousAssets(pop))
  {
    if |conc| > 0 && |pop| > 0 then
      var c, p := SuspiciousAssets(conc), SuspiciousAssets(pop);
      Some(Breakdown(c * p, c - p, p - c))
    else None
  }
}
