/** geotiff_processor.py: identifying an asset from its file name, counting
    pixels by order of magnitude, the person-exposure raster, the
    incremental "needs processing" decision, the merge of fresh and kept
    records and the `assets.json` index. */
module GeotiffProcessor {
  import opened Records
  import opened Strings
  import opened Grids

  // ---------------------------------------------------------------------
  // File-name parsing: re.search with the two patterns of
  // extract_asset_info_from_filename

  datatype AssetInfo = AssetInfo(assetId: string, country: string, suffix: string)

  predicate IsDigit(c: char) { '0' <= c <= '9' }

  predicate IsUpper(c: char) { 'A' <= c <= 'Z' }

  predicate AllDigits(s: string) {
    forall k :: 0 <= k < |s| ==> IsDigit(s[k])
  }

  /** The literal `-v2\.tiff` that ends both patterns. */
  const Tiff := "-v2.tiff"

  /** The literal that opens the old pattern. */
  const OldPrefix := "cmu_plumes_footprints_v2_"

  /** `Tiff` occurs in s at position q. */
  predicate TiffAt(s: string, q: int) {
    OccursAt(s, Tiff, q)
  }

  /** Python's `.` matches every character except a newline. */
  predicate NoNewline(s: string, from: int, to: int)
    requires 0 <= from <= to <= |s|
  {
    forall m :: from <= m < to ==> s[m] != '\n'
  }

  /** Greedy `\d+` at p: the length of the run of digits starting there
      (zero when s[p] is not a digit). Shorter runs cannot be followed by
      `-`, so backtracking into the run never produces a match. */
  function DigitRun(s: string, p: nat): (n: nat)
    requires p <= |s|
    ensures p + n <= |s|
    ensures forall k :: p <= k < p + n ==> IsDigit(s[k])
    ensures p + n == |s| || !IsDigit(s[p + n])
    decreases |s| - p
  {
    if p < |s| && IsDigit(s[p]) then 1 + DigitRun(s, p + 1) else 0
  }

  /** Lazy `(.+?)` starting at q and followed by `-v2\.tiff`, the group
      ends below e having already been rejected: the smallest end n >= e of
      a newline-free group after which `Tiff` follows. */
  function LazyGroup(s: string, q: nat, e: nat): (r: Option<nat>)
    requires q < e <= |s|
    requires NoNewline(s, q, e - 1)
    ensures r.Some? ==> e <= r.value <= |s| && NoNewline(s, q, r.value) && TiffAt(s, r.value)
    ensures r.Some? ==> forall m :: e <= m < r.value ==> !TiffAt(s, m)
    ensures r.None? ==> forall m :: e <= m <= |s| && NoNewline(s, q, m) ==> !TiffAt(s, m)
    decreases |s| - e
  {
    if s[e - 1] == '\n' then
      None
    else if TiffAt(s, e) then
      Some(e)
    else if e < |s| then
      LazyGroup(s, q, e + 1)
    else
      None
  }

  /** `(?:-(.+?))?-v2\.tiff` at q: `Some(Some(g))` when the optional group
      matched g, `Some(None)` when it was skipped, `None` for no match. The
      group is tried first, as `?` is greedy. */
  function TailAt(s: string, q: nat): (r: Option<Option<string>>)
    requires q <= |s|
    ensures r.Some? ==> exists n :: q <= n && TiffAt(s, n)
    ensures r.Some? && r.value.Some? ==> |r.value.value| > 0
  {
    var group := if q + 2 <= |s| && s[q] == '-' then LazyGroup(s, q + 1, q + 2) else None;
    if group.Some? then
      Some(Some(s[q + 1..group.value]))
    else if TiffAt(s, q) then
      Some(None)
    else
      None
  }

  /** The new pattern `(\d+)(?:-(.+?))?-v2\.tiff` matched at p. */
  function NewAt(s: string, p: nat): (r: Option<(string, Option<string>)>)
    requires p <= |s|
    ensures r.Some? ==> |r.value.0| > 0 && AllDigits(r.value.0) && exists n :: p <= n && TiffAt(s, n)
    ensures r.Some? && r.value.1.Some? ==> |r.value.1.value| > 0
  {
    var n := DigitRun(s, p);
    if n == 0 then None
    else
      match TailAt(s, p + n)
      case None => None
      case Some(suffix) => Some((s[p..p + n], suffix))
  }

  /** The old pattern
      `cmu_plumes_footprints_v2_([A-Z]{3})_(\d+)(?:-(.+?))?-v2\.tiff`
      matched at p: (country, asset id, suffix). */
  function OldAt(s: string, p: nat): (r: Option<(string, string, Option<string>)>)
    requires p <= |s|
    ensures r.Some? ==> |r.value.0| == 3 && (forall k :: 0 <= k < 3 ==> IsUpper(r.value.0[k]))
    ensures r.Some? ==> |r.value.1| > 0 && AllDigits(r.value.1) && exists n :: p <= n && TiffAt(s, n)
    ensures r.Some? && r.value.2.Some? ==> |r.value.2.value| > 0
  {
    var c := p + |OldPrefix|;
    if c + 4 <= |s| && OccursAt(s, OldPrefix, p)
      && IsUpper(s[c]) && IsUpper(s[c + 1]) && IsUpper(s[c + 2]) && s[c + 3] == '_'
    then
      var n := DigitRun(s, c + 4);
      if n == 0 then None
      else
        match TailAt(s, c + 4 + n)
        case None => None
        case Some(suffix) => Some((s[c..c + 3], s[c + 4..c + 4 + n], suffix))
    else
      None
  }

  /** re.search with the new pattern: the leftmost position from p on
      where it matches. */
  function SearchNew(s: string, p: nat): (r: Option<nat>)
    requires p <= |s|
    ensures r.Some? ==> p <= r.value <= |s| && NewAt(s, r.value).Some?
    ensures r.Some? ==> forall q :: p <= q < r.value ==> NewAt(s, q).None?
    ensures r.None? ==> forall q :: p <= q <= |s| ==> NewAt(s, q).None?
    decreases |s| - p
  {
    if NewAt(s, p).Some? then Some(p)
    else if p == |s| then None
    else SearchNew(s, p + 1)
  }

  /** re.search with the old pattern. */
  function SearchOld(s: string, p: nat): (r: Option<nat>)
    requires p <= |s|
    ensures r.Some? ==> p <= r.value <= |s| && OldAt(s, r.value).Some?
    ensures r.Some? ==> forall q :: p <= q < r.value ==> OldAt(s, q).None?
    ensures r.None? ==> forall q :: p <= q <= |s| ==> OldAt(s, q).None?
    decreases |s| - p
  {
    if OldAt(s, p).Some? then Some(p)
    else if p == |s| then None
    else SearchOld(s, p + 1)
  }

  /** `suffix or 'concentration'` */
  function SuffixOr(suffix: Option<string>): string {
    if suffix.None? || suffix.value == "" then "concentration" else suffix.value
  }

  /** extract_asset_info_from_filename. `country` is the optional argument;
      Python treats None and "" alike as false. */
  function ExtractAssetInfo(filename: string, country: Option<string>): (r: Result<AssetInfo>)
    ensures r.Ok? ==> |r.value.assetId| > 0 && AllDigits(r.value.assetId) && r.value.suffix != ""
    ensures r.Ok? ==> exists n :: 0 <= n && TiffAt(filename, n)
    ensures r.Ok? && !(country.Some? && country.value != "") ==>
      |r.value.country| == 3 && forall k :: 0 <= k < 3 ==> IsUpper(r.value.country[k])
    ensures r.Ok? ==>
      ((country.Some? && r.value.country == country.value)
       || (|r.value.country| == 3 && forall k :: 0 <= k < 3 ==> IsUpper(r.value.country[k])))
    ensures r.Err? <==>
      (forall q :: 0 <= q <= |filename| ==> OldAt(filename, q).None?)
      && (!(country.Some? && country.value != "") || forall q :: 0 <= q <= |filename| ==> NewAt(filename, q).None?)
    ensures (country.Some? && country.value != "" && exists q :: 0 <= q <= |filename| && NewAt(filename, q).Some?) ==>
      r.Ok? && r.value.country == country.value
  {
    var found := if country.Some? && country.value != "" then SearchNew(filename, 0) else None;
    if found.Some? then
      var m := NewAt(filename, found.value).value;
      Ok(AssetInfo(m.0, country.value, SuffixOr(m.1)))
    else
      match SearchOld(filename, 0)
      case Some(p) =>
        var m := OldAt(filename, p).value;
        Ok(AssetInfo(m.1, m.0, SuffixOr(m.2)))
      case None =>
        Err("Filename doesn't match expected pattern: " + filename)
  }

  /** In a country directory, `<digits>-v2.tiff` is that asset's
      concentration raster. */
  lemma ExtractConcentrationName(d: string, country: string)
    requires |d| > 0 && AllDigits(d) && country != ""
    ensures ExtractAssetInfo(d + Tiff, Some(country)) == Ok(AssetInfo(d, country, "concentration"))
  {
    var s := d + Tiff;
    DigitRunTail(d, Tiff, 0);
    var q := |d|;
    BareTail(s, q);
    assert s[0..q] == d;
  }

  /** In a country directory, `<digits>-pop-v2.tiff` is that asset's
      population raster, with suffix `pop`. */
  lemma ExtractPopulationName(d: string, country: string)
    requires |d| > 0 && AllDigits(d) && country != ""
    ensures ExtractAssetInfo(d + "-pop" + Tiff, Some(country)) == Ok(AssetInfo(d, country, "pop"))
  {
    var s := d + "-pop" + Tiff;
    assert s == d + ("-pop" + Tiff);
    DigitRunTail(d, "-pop" + Tiff, 0);
    var q := |d|;
    PopTail(s, q);
    assert s[0..q] == d;
    assert NewAt(s, 0) == Some((d, Some("pop")));
  }

  lemma PopTail(s: string, q: nat)
    requires q <= |s| && s[q..] == "-pop" + Tiff
    ensures TailAt(s, q) == Some(Some("pop"))
  {
    assert s[q] == '-' && s[q + 1] == 'p' && s[q + 2] == 'o' && s[q + 3] == 'p';
    assert s[q + 4..] == Tiff;
    assert TiffAt(s, q + 4);
    assert !TiffAt(s, q + 2) by { assert s[q + 2] != Tiff[0]; }
    assert !TiffAt(s, q + 3) by { assert s[q + 3] != Tiff[0]; }
    assert LazyGroup(s, q + 1, q + 4) == Some(q + 4);
    assert LazyGroup(s, q + 1, q + 3) == Some(q + 4);
    assert LazyGroup(s, q + 1, q + 2) == Some(q + 4);
    assert s[q + 1..q + 4] == "pop";
  }

  /** Outside a country directory, the old name carries the country:
      `cmu_plumes_footprints_v2_<AAA>_<digits>-v2.tiff`. */
  lemma ExtractOldName(a: string, d: string)
    requires |a| == 3 && (forall k :: 0 <= k < 3 ==> IsUpper(a[k]))
    requires |d| > 0 && AllDigits(d)
    ensures ExtractAssetInfo(OldPrefix + a + "_" + d + Tiff, None) == Ok(AssetInfo(d, a, "concentration"))
  {
    OldNameAtStart(a, d);
  }

  lemma OldNameAtStart(a: string, d: string)
    requires |a| == 3 && (forall k :: 0 <= k < 3 ==> IsUpper(a[k]))
    requires |d| > 0 && AllDigits(d)
    ensures OldAt(OldPrefix + a + "_" + d + Tiff, 0) == Some((a, d, None))
  {
    var s := OldPrefix + a + "_" + d + Tiff;
    var c := |OldPrefix|;
    OldNamePieces(OldPrefix, a, d, Tiff);
    assert OccursAt(s, OldPrefix, 0);
    DigitRunTail(OldPrefix + a + "_" + d, Tiff, c + 4);
    BareTail(s, c + 4 + |d|);
  }

  /** Where the pieces of `pre + a + "_" + d + t` sit. */
  lemma OldNamePieces(pre: string, a: string, d: string, t: string)
    requires |a| == 3 && AllDigits(d)
    ensures var s := pre + a + "_" + d + t;
      var c := |pre|;
      s == (pre + a + "_" + d) + t && |s| == c + 4 + |d| + |t|
      && s[..c] == pre && s[c..c + 3] == a && s[c] == a[0] && s[c + 1] == a[1] && s[c + 2] == a[2]
      && s[c + 3] == '_' && s[c + 4..c + 4 + |d|] == d && s[c + 4 + |d|..] == t
      && forall k :: c + 4 <= k < |pre + a + "_" + d| ==> IsDigit((pre + a + "_" + d)[k])
  {
    var c := |pre|;
    var u := pre + a + "_" + d;
    forall k | c + 4 <= k < |u| ensures IsDigit(u[k]) {
      assert u[k] == d[k - c - 4];
    }
  }

  /** A name that ends right after the digits with `-v2.tiff` has no
      suffix group. */
  lemma BareTail(s: string, q: nat)
    requires q <= |s| && s[q..] == Tiff
    ensures TailAt(s, q) == Some(None)
  {
    assert TiffAt(s, q);
    assert LazyGroup(s, q + 1, q + 2).None?;
  }

  lemma {:induction false} DigitRunTail(t: string, rest: string, p: nat)
    requires p <= |t| && |rest| > 0 && !IsDigit(rest[0])
    requires forall k :: p <= k < |t| ==> IsDigit(t[k])
    ensures DigitRun(t + rest, p) == |t| - p
    decreases |t| - p
  {
    var s := t + rest;
    if p < |t| {
      assert IsDigit(s[p]);
      DigitRunTail(t, rest, p + 1);
    } else {
      assert s[p] == rest[0];
    }
  }

  // ---------------------------------------------------------------------
  // count_pixels_by_order_of_magnitude

  /** A raster value as read from disk: NaN and the infinities are the
      non-finite ones. */
  datatype Cell = Finite(v: real) | NonFinite

  /** `np.isfinite(data) & (data >= 0)` */
  predicate IsValid(c: Cell) {
    c.Finite? && c.v >= 0.0
  }

  /** The keys of the counts dictionary, in insertion order. */
  const BucketNames: seq<string> :=
    ["0", "0.001-0.01", "0.01-0.1", "0.1-1", "1-10", "10-100", "100-1000", "1000-10000", "10000+"]

  const BucketCount := 9

  /** The lower bound of bucket k, 1 <= k <= 8; bucket k's upper bound is
      bucket k+1's lower bound, and bucket 8 has none. */
  function Lower(k: nat): real
    requires 1 <= k < BucketCount
  {
    [0.001, 0.01, 0.1, 1.0, 10.0, 100.0, 1000.0, 10000.0][k - 1]
  }

  /** Bucket 0 holds the valid exact zeros; bucket k >= 1 the valid positive
      values in [Lower(k), Lower(k+1)), the last one open-ended. */
  predicate InBucket(c: Cell, k: nat)
    requires k < BucketCount
  {
    IsValid(c)
    && if k == 0 then c.v == 0.0
       else c.v > 0.0 && c.v >= Lower(k) && (k == BucketCount - 1 || c.v < Lower(k + 1))
  }

  /** The values some bucket counts: valid, and zero or at least 0.001. */
  predicate Counted(c: Cell) {
    IsValid(c) && (c.v == 0.0 || c.v >= 0.001)
  }

  /** `np.sum(...)` of the bucket-k mask. */
  function CountIn(data: seq<Cell>, k: nat): (n: nat)
    requires k < BucketCount
    ensures n <= |data|
  {
    if |data| == 0 then 0
    else CountIn(data[..|data| - 1], k) + (if InBucket(data[|data| - 1], k) then 1 else 0)
  }

  /** The number of counted values. */
  function CountCounted(data: seq<Cell>): (n: nat)
    ensures n <= |data|
  {
    if |data| == 0 then 0
    else CountCounted(data[..|data| - 1]) + (if Counted(data[|data| - 1]) then 1 else 0)
  }

  /** No value lies in two buckets. */
  lemma BucketsDisjoint(c: Cell, k: nat, m: nat)
    requires k < m < BucketCount
    ensures !(InBucket(c, k) && InBucket(c, m))
  {
    if k > 0 && InBucket(c, k) {
      assert c.v < Lower(k + 1);
      assert Lower(k + 1) <= Lower(m);
    }
  }

  /** Buckets 0..K-1 hold c this many times. */
  function Hits(c: Cell, K: nat): nat
    requires K <= BucketCount
  {
    if K == 0 then 0 else Hits(c, K - 1) + (if InBucket(c, K - 1) then 1 else 0)
  }

  /** c lies in at most one of buckets 0..K-1, and in one exactly when
      some such bucket holds it. */
  lemma {:induction false} HitsAtMostOne(c: Cell, K: nat)
    requires K <= BucketCount
    ensures Hits(c, K) <= 1
    ensures Hits(c, K) == 1 <==> exists k :: 0 <= k < K && InBucket(c, k)
  {
    if K > 0 {
      HitsAtMostOne(c, K - 1);
      if InBucket(c, K - 1) {
        forall k | 0 <= k < K - 1 ensures !InBucket(c, k) {
          BucketsDisjoint(c, k, K - 1);
        }
      }
    }
  }

  /** The bucket of a counted value. */
  function BucketOf(c: Cell): (k: nat)
    requires Counted(c)
    ensures k < BucketCount && InBucket(c, k)
  {
    if c.v == 0.0 then 0
    else if c.v < 0.01 then 1
    else if c.v < 0.1 then 2
    else if c.v < 1.0 then 3
    else if c.v < 10.0 then 4
    else if c.v < 100.0 then 5
    else if c.v < 1000.0 then 6
    else if c.v < 10000.0 then 7
    else 8
  }

  /** Only counted values lie in a bucket. */
  lemma BucketedIsCounted(c: Cell, k: nat)
    requires k < BucketCount && InBucket(c, k)
    ensures Counted(c)
  {
    if k > 0 {
      assert Lower(k) >= 0.001;
    }
  }

  /** Each counted value lies in exactly one bucket and every other value in
      none: negatives, NaN, infinities and positives below 0.001 are lost. */
  lemma OneBucket(c: Cell)
    ensures Hits(c, BucketCount) == if Counted(c) then 1 else 0
  {
    HitsAtMostOne(c, BucketCount);
    if Counted(c) {
      var k := BucketOf(c);
    } else {
      forall k | 0 <= k < BucketCount ensures !InBucket(c, k) {
        if InBucket(c, k) {
          BucketedIsCounted(c, k);
        }
      }
    }
  }

  /** The sum of the first K counts. */
  function CountsUpTo(data: seq<Cell>, K: nat): nat
    requires K <= BucketCount
  {
    if K == 0 then 0 else CountsUpTo(data, K - 1) + CountIn(data, K - 1)
  }

  lemma {:induction false} CountsUpToSnoc(data: seq<Cell>, K: nat)
    requires |data| > 0 && K <= BucketCount
    ensures CountsUpTo(data, K) == CountsUpTo(data[..|data| - 1], K) + Hits(data[|data| - 1], K)
  {
    if K > 0 {
      CountsUpToSnoc(data, K - 1);
    }
  }

  /** The nine counts add up to the zeros plus the valid values >= 0.001. */
  lemma {:induction false} CountsAddUp(data: seq<Cell>)
    ensures CountsUpTo(data, BucketCount) == CountCounted(data)
  {
    if |data| == 0 {
      assert forall K :: 0 <= K <= BucketCount ==> CountsUpTo(data, K) == 0 by {
        forall K | 0 <= K <= BucketCount ensures CountsUpTo(data, K) == 0 {
          ZeroCounts(data, K);
        }
      }
    } else {
      CountsAddUp(data[..|data| - 1]);
      CountsUpToSnoc(data, BucketCount);
      OneBucket(data[|data| - 1]);
    }
  }

  lemma {:induction false} ZeroCounts(data: seq<Cell>, K: nat)
    requires |data| == 0 && K <= BucketCount
    ensures CountsUpTo(data, K) == 0
  {
    if K > 0 {
      ZeroCounts(data, K - 1);
    }
  }

  /** The sum of a list of counts. */
  function Total(s: seq<nat>): nat {
    if |s| == 0 then 0 else Total(s[..|s| - 1]) + s[|s| - 1]
  }

  /** count_pixels_by_order_of_magnitude over the raster's values in
      row-major order: the zero count, then one count per range. */
  method CountPixelsByMagnitude(data: seq<Cell>) returns (counts: seq<nat>)
    ensures |counts| == |BucketNames| == BucketCount
    ensures forall k :: 0 <= k < BucketCount ==> counts[k] == CountIn(data, k)
    ensures Total(counts) == CountCounted(data)
  {
    counts := [CountIn(data, 0)];
    assert counts[..0] == [];
    for k := 1 to BucketCount
      invariant |counts| == k
      invariant forall m :: 0 <= m < k ==> counts[m] == CountIn(data, m)
      invariant Total(counts) == CountsUpTo(data, k)
    {
      var next := counts + [CountIn(data, k)];
      assert next[..k] == counts;
      counts := next;
    }
    CountsAddUp(data);
  }

  // ---------------------------------------------------------------------
  // compute_person_exposure_raster

  /** `np.where(np.isfinite(x) & (x >= 0), x, 0)` for one cell. */
  function Clean(c: Cell): (r: real)
    ensures r >= 0.0
    ensures IsValid(c) ==> r == c.v
    ensures !IsValid(c) ==> r == 0.0
  {
    if IsValid(c) then c.v else 0.0
  }

  predicate SameShape(a: seq<seq<Cell>>, b: seq<seq<Cell>>) {
    |a| == |b| && forall i :: 0 <= i < |a| ==> |a[i]| == |b[i]|
  }

  /** `conc_clean * pop_clean`, elementwise. */
  function ExposureRaster(conc: seq<seq<Cell>>, pop: seq<seq<Cell>>): (e: Grid)
    requires SameShape(conc, pop)
    ensures |e| == |conc| && forall i :: 0 <= i < |e| ==> |e[i]| == |conc[i]|
    ensures forall i, j :: 0 <= i < |e| && 0 <= j < |e[i]| ==>
      e[i][j] >= 0.0
      && (e[i][j] > 0.0 <==> IsValid(conc[i][j]) && IsValid(pop[i][j]) && conc[i][j].v > 0.0 && pop[i][j].v > 0.0)
    ensures forall i, j :: 0 <= i < |e| && 0 <= j < |e[i]| ==>
      e[i][j] == if IsValid(conc[i][j]) && IsValid(pop[i][j]) then conc[i][j].v * pop[i][j].v else 0.0
  {
    seq(|conc|, i requires 0 <= i < |conc| =>
      seq(|conc[i]|, j requires 0 <= j < |conc[i]| => Clean(conc[i][j]) * Clean(pop[i][j])))
  }

  /** Every cell of a raster is among its flattened values. */
  lemma InCells(e: Grid, i: nat, j: nat)
    requires i < |e| && j < |e[i]|
    ensures e[i][j] in Cells(e)
  {
  }

  /** The statistics compute_person_exposure_raster returns, except the
      standard deviation. `np.max` of an empty raster raises ValueError. */
  function ExposureStatsOf(e: Grid): (r: Result<ExposureStats>)
    requires forall i, j :: 0 <= i < |e| && 0 <= j < |e[i]| ==> e[i][j] >= 0.0
    ensures r.Err? <==> forall i :: 0 <= i < |e| ==> |e[i]| == 0
    ensures r.Ok? ==> 0.0 <= r.value.minValue <= r.value.maxValue
    ensures r.Ok? ==> forall i, j :: 0 <= i < |e| && 0 <= j < |e[i]| ==>
      r.value.minValue <= e[i][j] <= r.value.maxValue
    ensures r.Ok? ==> r.value.total >= 0.0
    ensures r.Ok? ==> r.value.nonZeroPixels == CountPositive(Cells(e))
    ensures r.Ok? ==> (r.value.nonZeroPixels == 0 <==> r.value.nonZeroMean == 0.0)
    ensures r.Ok? ==> r.value.nonZeroMean >= 0.0
  {
    var cells := Cells(e);
    if |cells| == 0 then
      Err("zero-size array to reduction operation maximum which has no identity")
    else
      NonNegativeCells(e);
      var n := CountPositive(cells);
      var mean := if n > 0 then SumPositive(cells) / (n as real) else 0.0;
      assert n > 0 ==> mean > 0.0 by {
        if n > 0 {
          assert SumPositive(cells) > 0.0;
          QuotientPositive(SumPositive(cells), n as real);
        }
      }
      var hi, lo := Max(cells), Min(cells);
      forall i, j | 0 <= i < |e| && 0 <= j < |e[i]| ensures lo <= e[i][j] <= hi {
        InCells(e, i, j);
      }
      Ok(ExposureStats(Sum(cells), Sum(cells) / (|cells| as real), hi, lo, n, mean))
  }

  lemma QuotientPositive(a: real, b: real)
    requires a > 0.0 && b > 0.0
    ensures a / b > 0.0
  {
  }

  lemma NonNegativeCells(e: Grid)
    requires forall i, j :: 0 <= i < |e| && 0 <= j < |e[i]| ==> e[i][j] >= 0.0
    ensures forall k :: 0 <= k < |Cells(e)| ==> Cells(e)[k] >= 0.0
  {
    var cells := Cells(e);
    forall k | 0 <= k < |cells| ensures cells[k] >= 0.0 {
      assert cells[k] in cells;
    }
  }

  /** compute_person_exposure_raster: the exposure raster and its
      statistics. */
  function ComputePersonExposure(conc: seq<seq<Cell>>, pop: seq<seq<Cell>>): (r: Result<(Grid, ExposureStats)>)
    requires SameShape(conc, pop)
    ensures r.Ok? <==> exists i :: 0 <= i < |conc| && |conc[i]| > 0
    ensures r.Ok? ==> r.value.0 == ExposureRaster(conc, pop)
    ensures r.Ok? ==> r.value.1.nonZeroPixels == CountPositive(Cells(r.value.0))
  {
    var e := ExposureRaster(conc, pop);
    match ExposureStatsOf(e)
    case Ok(stats) => Ok((e, stats))
    case Err(msg) => Err(msg)
  }

  // ---------------------------------------------------------------------
  // needs_processing

  const ScriptVersion := "1.1.0"

  /** What `existing_asset.get('script_version', '1.0.0')` falls back to. */
  const DefaultVersion := "1.0.0"

  predicate SameAsset(a: Asset, country: string, assetId: string) {
    a.assetId == assetId && a.country == country
  }

  /** The index of the first record with this (asset_id, country) at or
      after `from`. */
  function FirstMatch(existing: seq<Asset>, country: string, assetId: string, from: nat): (r: Option<nat>)
    requires from <= |existing|
    ensures r.Some? ==> from <= r.value < |existing| && SameAsset(existing[r.value], country, assetId)
    ensures r.Some? ==> forall k :: from <= k < r.value ==> !SameAsset(existing[k], country, assetId)
    ensures r.None? ==> forall k :: from <= k < |existing| ==> !SameAsset(existing[k], country, assetId)
    decreases |existing| - from
  {
    if from == |existing| then None
    else if SameAsset(existing[from], country, assetId) then Some(from)
    else FirstMatch(existing, country, assetId, from + 1)
  }

  function VersionOf(a: Asset): string {
    if a.scriptVersion.Some? then a.scriptVersion.value else DefaultVersion
  }

  /** The record's exposure file is named and missing from disk. */
  predicate ExposureMissing(a: Asset, onDisk: set<string>) {
    a.exposureFile.Some? && a.exposureFile.value != ""
    && PathJoin("processed", a.exposureFile.value) !in onDisk
  }

  /** The decision needs_processing makes, with `onDisk` the set of paths
      `os.path.exists` accepts. */
  predicate Stale(country: string, assetId: string, existing: seq<Asset>, onDisk: set<string>) {
    match FirstMatch(existing, country, assetId, 0)
    case None => true
    case Some(k) => Less(VersionOf(existing[k]), ScriptVersion) || ExposureMissing(existing[k], onDisk)
  }

  /** The linear search `for asset in existing_assets: ... break`. */
  method FindExisting(existing: seq<Asset>, country: string, assetId: string) returns (found: Option<nat>)
    ensures found == FirstMatch(existing, country, assetId, 0)
  {
    found := None;
    var k := 0;
    while k < |existing|
      invariant k <= |existing|
      invariant forall m :: 0 <= m < k ==> !SameAsset(existing[m], country, assetId)
    {
      if existing[k].assetId == assetId && existing[k].country == country {
        found := Some(k);
        break;
      }
      k := k + 1;
    }
    FirstMatchUnique(existing, country, assetId, found);
  }

  lemma FirstMatchUnique(existing: seq<Asset>, country: string, assetId: string, found: Option<nat>)
    requires found.Some? ==>
      (found.value < |existing| && SameAsset(existing[found.value], country, assetId)
       && forall m :: 0 <= m < found.value ==> !SameAsset(existing[m], country, assetId))
    requires found.None? ==> forall m :: 0 <= m < |existing| ==> !SameAsset(existing[m], country, assetId)
    ensures found == FirstMatch(existing, country, assetId, 0)
  {
    var r := FirstMatch(existing, country, assetId, 0);
    if r.Some? && found.Some? {
      if r.value < found.value {
      } else if found.value < r.value {
      }
    }
  }

  /** needs_processing. */
  method NeedsProcessing(country: string, assetId: string, existing: seq<Asset>, onDisk: set<string>) returns (needed: bool)
    ensures needed == Stale(country, assetId, existing, onDisk)
  {
    var found := FindExisting(existing, country, assetId);
    if found.None? {
      return true;
    }
    var asset := existing[found.value];
    var version := if asset.scriptVersion.Some? then asset.scriptVersion.value else DefaultVersion;
    if Less(version, ScriptVersion) {
      return true;
    }
    if asset.exposureFile.Some? && asset.exposureFile.value != "" {
      if PathJoin("processed", asset.exposureFile.value) !in onDisk {
        return true;
      }
    }
    return false;
  }

  /** A record written before versions were recorded is always redone. */
  lemma UnversionedIsStale(country: string, assetId: string, existing: seq<Asset>, onDisk: set<string>)
    requires FirstMatch(existing, country, assetId, 0).Some?
    requires existing[FirstMatch(existing, country, assetId, 0).value].scriptVersion.None?
    ensures Stale(country, assetId, existing, onDisk)
  {
    var a, b := DefaultVersion, ScriptVersion;
    assert a[1..] == ".0.0" && b[1..] == ".1.0";
    assert a[1..][1..] == "0.0" && b[1..][1..] == "1.0";
    assert Less("0.0", "1.0");
    assert Less(".0.0", ".1.0");
    assert Less(a, b);
  }

  /** A current record whose exposure file is on disk (or was never
      written) is kept. */
  lemma CurrentIsKept(country: string, assetId: string, existing: seq<Asset>, onDisk: set<string>)
    requires FirstMatch(existing, country, assetId, 0).Some?
    requires existing[FirstMatch(existing, country, assetId, 0).value].scriptVersion == Some(ScriptVersion)
    requires !ExposureMissing(existing[FirstMatch(existing, country, assetId, 0).value], onDisk)
    ensures !Stale(country, assetId, existing, onDisk)
  {
    LessIrreflexive(ScriptVersion);
  }

  // ---------------------------------------------------------------------
  // batch_process_assets: the selection and merge loop

  /** A (country, asset_id) pair whose two rasters were found. */
  datatype Pair = Pair(country: string, assetId: string)

  /** `processed_assets`, `processed_count` and `skipped_count`. */
  datatype Tally = Tally(assets: seq<Asset>, processed: nat, skipped: nat)

  /** The record a current pair keeps: the first existing one that matches. */
  function Kept(p: Pair, existing: seq<Asset>, onDisk: set<string>): Asset
    requires !Stale(p.country, p.assetId, existing, onDisk)
  {
    existing[FirstMatch(existing, p.country, p.assetId, 0).value]
  }

  /** The tally after the given pairs, in order. `process` stands for
      process_asset_pair on the pair's two files; Err is an exception,
      after which the pair contributes nothing. */
  function Merge(pairs: seq<Pair>, existing: seq<Asset>, onDisk: set<string>, process: Pair -> Result<Asset>): (t: Tally)
    ensures |t.assets| == t.processed + t.skipped <= |pairs|
  {
    if |pairs| == 0 then Tally([], 0, 0)
    else
      var t := Merge(pairs[..|pairs| - 1], existing, onDisk, process);
      var p := pairs[|pairs| - 1];
      if Stale(p.country, p.assetId, existing, onDisk) then
        match process(p)
        case Ok(a) => Tally(t.assets + [a], t.processed + 1, t.skipped)
        case Err(_) => t
      else
        Tally(t.assets + [Kept(p, existing, onDisk)], t.processed, t.skipped + 1)
  }

  /** Every output record is a fresh result of a stale pair or the kept
      record of a current one. */
  lemma {:induction false} MergeSources(pairs: seq<Pair>, existing: seq<Asset>, onDisk: set<string>, process: Pair -> Result<Asset>)
    ensures forall x :: x in Merge(pairs, existing, onDisk, process).assets ==>
      exists p :: p in pairs &&
        ((Stale(p.country, p.assetId, existing, onDisk) && process(p) == Ok(x))
         || (!Stale(p.country, p.assetId, existing, onDisk) && x == Kept(p, existing, onDisk)))
  {
    if |pairs| > 0 {
      var init := pairs[..|pairs| - 1];
      MergeSources(init, existing, onDisk, process);
      assert forall p :: p in init ==> p in pairs;
      assert pairs[|pairs| - 1] in pairs;
    }
  }

  /** With nothing stale, the run keeps exactly the existing records, one
      per pair, in pair order, and processes none. */
  lemma {:induction false} AllCurrentKeepsRecords(pairs: seq<Pair>, existing: seq<Asset>, onDisk: set<string>, process: Pair -> Result<Asset>)
    requires forall k :: 0 <= k < |pairs| ==> !Stale(pairs[k].country, pairs[k].assetId, existing, onDisk)
    ensures Merge(pairs, existing, onDisk, process).processed == 0
    ensures Merge(pairs, existing, onDisk, process).skipped == |pairs|
    ensures forall k :: 0 <= k < |pairs| ==> Merge(pairs, existing, onDisk, process).assets[k] == Kept(pairs[k], existing, onDisk)
  {
    if |pairs| > 0 {
      var init := pairs[..|pairs| - 1];
      AllCurrentKeepsRecords(init, existing, onDisk, process);
    }
  }

  /** batch_process_assets after the pairs have been found. */
  method BatchProcess(pairs: seq<Pair>, existing: seq<Asset>, onDisk: set<string>, process: Pair -> Result<Asset>)
    returns (assets: seq<Asset>, processed: nat, skipped: nat)
    ensures Tally(assets, processed, skipped) == Merge(pairs, existing, onDisk, process)
    ensures |assets| == processed + skipped
  {
    assets, processed, skipped := [], 0, 0;
    for i := 0 to |pairs|
      invariant Tally(assets, processed, skipped) == Merge(pairs[..i], existing, onDisk, process)
    {
      var p := pairs[i];
      assert pairs[..i + 1][..i] == pairs[..i];
      var needed := NeedsProcessing(p.country, p.assetId, existing, onDisk);
      if needed {
        var result := process(p);
        if result.Ok? {
          assets := assets + [result.value];
          processed := processed + 1;
        }
      } else {
        var found := FindExisting(existing, p.country, p.assetId);
        assets := assets + [existing[found.value]];
        skipped := skipped + 1;
      }
    }
    assert pairs[..|pairs|] == pairs;
  }

  // ---------------------------------------------------------------------
  // create_assets_json

  /** The `assets.json` document: its metadata, then the assets. */
  datatype AssetsIndex = AssetsIndex(
    processedDate: string,
    totalAssets: nat,
    countries: seq<string>,
    dataVersion: string,
    scriptVersion: string,
    assets: seq<Asset>)

  function CountriesOf(assets: seq<Asset>): (r: seq<string>)
    ensures forall c :: c in r <==> exists a :: a in assets && a.country == c
  {
    if |assets| == 0 then []
    else
      var init := assets[..|assets| - 1];
      assert forall a :: a in assets <==> a in init || a == assets[|assets| - 1];
      CountriesOf(init) + [assets[|assets| - 1].country]
  }

  /** create_assets_json; `now` is `datetime.utcnow().isoformat()`. The
      distribution statistics merged into the metadata are not modelled. */
  function CreateAssetsJson(assets: seq<Asset>, now: string): (r: AssetsIndex)
    ensures StrictlySorted(r.countries)
    ensures forall c :: c in r.countries <==> exists a :: a in assets && a.country == c
    ensures r.totalAssets == |assets| && r.assets == assets
    ensures r.dataVersion == "v2" && r.scriptVersion == ScriptVersion && r.processedDate == now + "Z"
  {
    AssetsIndex(now + "Z", |assets|, SortedSet(CountriesOf(assets)), "v2", ScriptVersion, assets)
  }
}
