/** Two-dimensional rasters as the pipeline scripts hold them in numpy, and
    the operations the overlay and export scripts share: the strided slice
    `a[::s, ::s]`, whole-raster maxima and minima, writing an RGBA image cell
    by cell, and the sparse `pixel_data` sample of positive cells. */
module Grids {
  import opened Records

  /** A single-band raster: `g[i][j]` is row i (north first), column j. */
  type Grid = seq<seq<real>>

  predicate IsRect(g: Grid, h: nat, w: nat) {
    |g| == h && forall i :: 0 <= i < h ==> |g[i]| == w
  }

  function Width(g: Grid): nat {
    if |g| == 0 then 0 else |g[0]|
  }

  predicate Rectangular(g: Grid) {
    IsRect(g, |g|, Width(g))
  }

  // ---------------------------------------------------------------------
  // Integer arithmetic of strides

  lemma MulMono(a: int, b: int, s: nat)
    requires a <= b
    ensures a * s <= b * s
  {
  }

  function MinNat(a: nat, b: nat): nat { if a <= b then a else b }

  /** `max(1, m // d)`: a stride of at least one, above one exactly when
      `m` holds `d` at least twice. */
  function StrideFor(m: nat, d: nat): (s: nat)
    requires d >= 1
    ensures s >= 1
    ensures s > 1 <==> m >= 2 * d
    ensures m >= d ==> s == m / d
  {
    if m / d >= 1 then m / d else 1
  }

  /** `max(1, min(height, width) // 200)`: the display and export stride of
      export_raw_data.py, generate_all_overlays.py,
      generate_uniform_overlays.py and test_overlay.py. */
  function ScaleFactor(h: nat, w: nat): (s: nat)
    ensures s >= 1 && (s > 1 <==> MinNat(h, w) >= 400)
  {
    StrideFor(MinNat(h, w), 200)
  }

  /** `max(1, min(height, width) // 50)`: their hover sample rate, taken on
      the downsampled shape. */
  function HoverRate(h: nat, w: nat): (s: nat)
    ensures s >= 1 && (s > 1 <==> MinNat(h, w) >= 100)
  {
    StrideFor(MinNat(h, w), 50)
  }

  /** The i-th index `i * s` visited by `range(0, n, s)` or kept by `[::s]`,
      written as repeated addition. */
  function Step(i: nat, s: nat): nat {
    if i == 0 then 0 else Step(i - 1, s) + s
  }

  lemma {:induction false} StepIsProduct(i: nat, s: nat)
    ensures Step(i, s) == i * s
  {
    if i > 0 {
      StepIsProduct(i - 1, s);
      assert (i - 1) * s + s == i * s;
    }
  }

  /** The length of `range(0, n, s)`, and of a `[::s]` slice of length n:
      n/s rounded up. */
  function CeilDiv(n: nat, s: nat): nat
    requires s >= 1
    decreases n
  {
    if n == 0 then 0
    else if n <= s then 1
    else 1 + CeilDiv(n - s, s)
  }

  lemma {:induction false} CeilDivByOne(n: nat)
    ensures CeilDiv(n, 1) == n
  {
    if n > 1 {
      CeilDivByOne(n - 1);
    }
  }

  /** Index i of a stride-s scan exists exactly when its position is below n. */
  lemma {:induction false} StrideInRange(n: nat, s: nat, i: nat)
    requires s >= 1
    ensures i < CeilDiv(n, s) <==> Step(i, s) < n
  {
    if i > 0 && n > s {
      StrideInRange(n - s, s, i - 1);
    } else if i > 0 {
      StepAtLeast(i, s);
    }
  }

  lemma {:induction false} StepAtLeast(i: nat, s: nat)
    requires i > 0
    ensures Step(i, s) >= s
  {
    if i > 1 {
      StepAtLeast(i - 1, s);
    }
  }

  /** Quotient and remainder are determined by n == q*s + r, 0 <= r < s. */
  lemma DivModUnique(n: int, s: nat, q: int, r: int)
    requires s >= 1 && n == q * s + r && 0 <= r < s
    ensures n / s == q && n % s == r
  {
    var q', r' := n / s, n % s;
    assert n == q' * s + r' && 0 <= r' < s;
    assert (q - q') * s == r' - r;
    if q > q' {
      MulMono(1, q - q', s);
    } else if q < q' {
      MulMono(1, q' - q, s);
    }
  }

  /** The positions of a stride-s scan are exactly the multiples of s. */
  lemma OnStride(i: nat, s: nat)
    requires s >= 1
    ensures i % s == 0 <==> Step(i / s, s) == i
  {
    StepIsProduct(i / s, s);
    if i % s == 0 {
      DivModUnique(i, s, i / s, 0);
    }
  }

  // ---------------------------------------------------------------------
  // Strided downsampling

  /** numpy's `row[::s]`. */
  function DownsampleRow(row: seq<real>, s: nat): (r: seq<real>)
    requires s >= 1
    ensures |r| == CeilDiv(|row|, s)
    ensures forall j: nat :: j < |r| ==> Step(j, s) < |row| && r[j] == row[Step(j, s)]
  {
    var r := seq(CeilDiv(|row|, s), j requires 0 <= j < CeilDiv(|row|, s) =>
      StrideInRange(|row|, s, j);
      row[Step(j, s)]);
    forall j: nat | j < |r| ensures Step(j, s) < |row| {
      StrideInRange(|row|, s, j);
    }
    r
  }

  /** Cell (i, j) of r is cell (i*s, j*s) of g, wherever r has a cell. */
  predicate Strided(r: Grid, g: Grid, s: nat) {
    forall i: nat, j: nat :: i < |r| && j < |r[i]| ==>
      Step(i, s) < |g| && Step(j, s) < |g[Step(i, s)]| && r[i][j] == g[Step(i, s)][Step(j, s)]
  }

  /** numpy's `g[::s, ::s]`: every s-th row and every s-th column, starting
      with the first. */
  function Downsample(g: Grid, s: nat): (r: Grid)
    requires s >= 1 && Rectangular(g)
    ensures IsRect(r, CeilDiv(|g|, s), CeilDiv(Width(g), s))
    ensures Strided(r, g, s)
  {
    var r := seq(CeilDiv(|g|, s), i requires 0 <= i < CeilDiv(|g|, s) =>
      StrideInRange(|g|, s, i);
      DownsampleRow(g[Step(i, s)], s));
    forall i: nat | i < |r| ensures Step(i, s) < |g| && r[i] == DownsampleRow(g[Step(i, s)], s) {
      StrideInRange(|g|, s, i);
    }
    r
  }

  /** Every original cell whose row and column are multiples of s survives
      the slice, at (i/s, j/s). */
  lemma DownsampleKeepsLattice(g: Grid, s: nat, i: nat, j: nat)
    requires s >= 1 && Rectangular(g)
    requires i < |g| && j < Width(g) && i % s == 0 && j % s == 0
    ensures i / s < CeilDiv(|g|, s) && j / s < CeilDiv(Width(g), s)
    ensures Downsample(g, s)[i / s][j / s] == g[i][j]
  {
    OnStride(i, s);
    OnStride(j, s);
    StrideInRange(|g|, s, i / s);
    StrideInRange(Width(g), s, j / s);
  }

  /** The three rasters read for one asset: person exposure, PM2.5
      concentration and population. */
  datatype Layers = Layers(exposure: Grid, concentration: Grid, population: Grid) {

    /** All three have the exposure raster's shape. */
    predicate Aligned() {
      Rectangular(exposure)
      && IsRect(concentration, |exposure|, Width(exposure))
      && IsRect(population, |exposure|, Width(exposure))
    }

    function Height(): nat { |exposure| }

    function Cols(): nat { Width(exposure) }

    /** `if scale_factor > 1:` slice all three layers with the same stride. */
    function Downsampled(s: nat): (r: Layers)
      requires Aligned() && s >= 1
      ensures r.Aligned()
      ensures r.Height() == CeilDiv(Height(), s) && r.Cols() == CeilDiv(Cols(), s)
      ensures Strided(r.exposure, exposure, s)
      ensures Strided(r.concentration, concentration, s)
      ensures Strided(r.population, population, s)
    {
      if s > 1 then
        assert Rectangular(concentration) && Width(concentration) == Cols();
        assert Rectangular(population) && Width(population) == Cols();
        Layers(Downsample(exposure, s), Downsample(concentration, s), Downsample(population, s))
      else
        forall i: nat | i < Height() + Cols() ensures Step(i, s) == i {
          StepIsProduct(i, s);
        }
        CeilDivByOne(Height());
        CeilDivByOne(Cols());
        this
    }
  }

  /** The layers those four scripts draw or store: all three sliced by
      ScaleFactor. */
  function DisplayLayers(L: Layers): (d: Layers)
    requires L.Aligned()
    ensures d.Aligned()
    ensures d.Height() == CeilDiv(L.Height(), ScaleFactor(L.Height(), L.Cols()))
    ensures d.Cols() == CeilDiv(L.Cols(), ScaleFactor(L.Height(), L.Cols()))
  {
    L.Downsampled(ScaleFactor(L.Height(), L.Cols()))
  }

  // ---------------------------------------------------------------------
  // Whole-raster reductions

  /** The cells in row-major order (numpy's flattening). */
  function Cells(g: Grid): (r: seq<real>)
    ensures forall x :: x in r <==> exists i, j :: 0 <= i < |g| && 0 <= j < |g[i]| && g[i][j] == x
    ensures |r| == 0 <==> forall i :: 0 <= i < |g| ==> |g[i]| == 0
  {
    if |g| == 0 then []
    else
      var init := g[..|g| - 1];
      var rest := Cells(init);
      assert forall i, j :: 0 <= i < |init| && 0 <= j < |init[i]| ==> init[i][j] == g[i][j];
      rest + g[|g| - 1]
  }

  /** `np.max` over a non-empty selection. */
  function Max(s: seq<real>): (r: real)
    requires |s| > 0
    ensures r in s && forall x :: x in s ==> x <= r
  {
    if |s| == 1 then s[0]
    else
      var m := Max(s[1..]);
      assert forall x :: x in s ==> x == s[0] || x in s[1..];
      if s[0] >= m then s[0] else m
  }

  /** `np.min` over a non-empty selection. */
  function Min(s: seq<real>): (r: real)
    requires |s| > 0
    ensures r in s && forall x :: x in s ==> r <= x
  {
    if |s| == 1 then s[0]
    else
      var m := Min(s[1..]);
      assert forall x :: x in s ==> x == s[0] || x in s[1..];
      if s[0] <= m then s[0] else m
  }

  /** `np.sum` */
  function Sum(s: seq<real>): (r: real)
    ensures (forall k :: 0 <= k < |s| ==> s[k] >= 0.0) ==> r >= 0.0
  {
    if |s| == 0 then 0.0 else s[0] + Sum(s[1..])
  }

  /** `np.sum(s[s > 0])` */
  function SumPositive(s: seq<real>): (r: real)
    ensures r >= 0.0
    ensures r > 0.0 <==> exists k :: 0 <= k < |s| && s[k] > 0.0
  {
    if |s| == 0 then 0.0
    else
      assert forall k :: 1 <= k < |s| ==> s[k] == s[1..][k - 1];
      (if s[0] > 0.0 then s[0] else 0.0) + SumPositive(s[1..])
  }

  /** `float(np.min(s[s > 0])) if np.any(s > 0) else 0.0` */
  function MinPositive(s: seq<real>): (r: real)
    ensures (exists x :: x in s && x > 0.0) ==> r in s && r > 0.0 && forall x :: x in s && x > 0.0 ==> r <= x
    ensures (forall x :: x in s ==> x <= 0.0) ==> r == 0.0
  {
    if |s| == 0 then 0.0
    else
      var m := MinPositive(s[1..]);
      assert forall x :: x in s ==> x == s[0] || x in s[1..];
      if s[0] > 0.0 && (m == 0.0 || s[0] < m) then s[0] else m
  }

  /** `np.sum(s > 0)` */
  function CountPositive(s: seq<real>): (n: nat)
    ensures n <= |s|
    ensures n == 0 <==> forall k :: 0 <= k < |s| ==> s[k] <= 0.0
  {
    if |s| == 0 then 0
    else
      (if s[0] > 0.0 then 1 else 0) + CountPositive(s[1..])
  }

  /** `np.sum(s == 0)` */
  function CountZero(s: seq<real>): (n: nat)
    ensures n <= |s|
    ensures n == 0 <==> forall k :: 0 <= k < |s| ==> s[k] != 0.0
  {
    if |s| == 0 then 0
    else
      (if s[0] == 0.0 then 1 else 0) + CountZero(s[1..])
  }

  // ---------------------------------------------------------------------
  // Writing an RGBA image cell by cell

  /** Fill a fresh `np.zeros((h, w, 4), dtype=np.uint8)` image: every cell
      gets `color` of its exposure, or, when `positiveOnly`, only cells whose
      exposure is positive do and the others stay transparent black. */
  method Paint(e: Grid, color: real -> Rgba, positiveOnly: bool) returns (img: array2<Rgba>)
    requires Rectangular(e)
    ensures fresh(img) && img.Length0 == |e| && img.Length1 == Width(e)
    ensures forall i, j :: 0 <= i < img.Length0 && 0 <= j < img.Length1 ==>
      img[i, j] == if positiveOnly && e[i][j] <= 0.0 then Clear else color(e[i][j])
  {
    var h, w := |e|, Width(e);
    img := new Rgba[h, w]((i, j) => Clear);
    for i := 0 to h
      invariant forall a, b :: 0 <= a < h && 0 <= b < w ==>
        img[a, b] == if a < i && !(positiveOnly && e[a][b] <= 0.0) then color(e[a][b]) else Clear
    {
      for j := 0 to w
        invariant forall a, b :: 0 <= a < h && 0 <= b < w ==>
          img[a, b] == if (a < i || (a == i && b < j)) && !(positiveOnly && e[a][b] <= 0.0) then color(e[a][b]) else Clear
      {
        if !positiveOnly || e[i][j] > 0.0 {
          img[i, j] := color(e[i][j]);
        }
      }
    }
  }

  // ---------------------------------------------------------------------
  // The `pixel_data` hover sample

  /** The tooltip entry for downsampled cell (i, j). Its position is
      `rasterio.transform.xy(transform, i * geoScale, j * geoScale)`, which
      `xy` stands for: it maps (row, col) of the ORIGINAL raster to
      (lon, lat). */
  function SampleAt(L: Layers, geoScale: nat, xy: (int, int) -> (real, real), i: nat, j: nat): (x: PixelSample)
    requires L.Aligned() && i < L.Height() && j < L.Cols()
  {
    var lonLat := xy(i * geoScale, j * geoScale);
    PixelSample(lonLat.1, lonLat.0, L.exposure[i][j], L.concentration[i][j], L.population[i][j])
  }

  /** The stride-lattice cell (a*rate, b*rate) exists and has positive
      exposure: the scan keeps it. */
  predicate Kept(L: Layers, rate: nat, a: nat, b: nat)
    requires L.Aligned()
  {
    Step(a, rate) < L.Height() && Step(b, rate) < L.Cols()
    && L.exposure[Step(a, rate)][Step(b, rate)] > 0.0
  }

  /** The entry for lattice cell (a*rate, b*rate). */
  function LatticeSample(L: Layers, rate: nat, geoScale: nat, xy: (int, int) -> (real, real), a: nat, b: nat): PixelSample
    requires L.Aligned() && Step(a, rate) < L.Height() && Step(b, rate) < L.Cols()
  {
    SampleAt(L, geoScale, xy, Step(a, rate), Step(b, rate))
  }

  /** Entries appended while scanning the first k lattice columns of lattice
      row a (raster row a*rate). */
  function RowSamples(L: Layers, rate: nat, geoScale: nat, xy: (int, int) -> (real, real), a: nat, k: nat): (r: seq<PixelSample>)
    requires L.Aligned() && rate >= 1 && Step(a, rate) < L.Height() && k <= CeilDiv(L.Cols(), rate)
  {
    if k == 0 then []
    else
      StrideInRange(L.Cols(), rate, k - 1);
      RowSamples(L, rate, geoScale, xy, a, k - 1)
        + (if Kept(L, rate, a, k - 1) then [LatticeSample(L, rate, geoScale, xy, a, k - 1)] else [])
  }

  /** Entries appended while scanning the first k lattice rows. */
  function RowsSamples(L: Layers, rate: nat, geoScale: nat, xy: (int, int) -> (real, real), k: nat): (r: seq<PixelSample>)
    requires L.Aligned() && rate >= 1 && k <= CeilDiv(L.Height(), rate)
  {
    if k == 0 then []
    else
      StrideInRange(L.Height(), rate, k - 1);
      RowsSamples(L, rate, geoScale, xy, k - 1)
        + RowSamples(L, rate, geoScale, xy, k - 1, CeilDiv(L.Cols(), rate))
  }

  /** The whole `pixel_data` list: for i in range(0, h, rate), for j in
      range(0, w, rate), the cells with positive exposure. */
  function SampledPixels(L: Layers, rate: nat, geoScale: nat, xy: (int, int) -> (real, real)): seq<PixelSample>
    requires L.Aligned() && rate >= 1
  {
    RowsSamples(L, rate, geoScale, xy, CeilDiv(L.Height(), rate))
  }

  lemma {:induction false} RowSamplesMembers(L: Layers, rate: nat, geoScale: nat, xy: (int, int) -> (real, real), a: nat, k: nat)
    requires L.Aligned() && rate >= 1 && Step(a, rate) < L.Height() && k <= CeilDiv(L.Cols(), rate)
    ensures forall x :: x in RowSamples(L, rate, geoScale, xy, a, k) <==>
      exists b: nat :: b < k && Kept(L, rate, a, b) && x == LatticeSample(L, rate, geoScale, xy, a, b)
  {
    if k > 0 {
      RowSamplesMembers(L, rate, geoScale, xy, a, k - 1);
      StrideInRange(L.Cols(), rate, k - 1);
    }
  }

  lemma {:induction false} RowsSamplesMembers(L: Layers, rate: nat, geoScale: nat, xy: (int, int) -> (real, real), k: nat)
    requires L.Aligned() && rate >= 1 && k <= CeilDiv(L.Height(), rate)
    ensures forall x :: x in RowsSamples(L, rate, geoScale, xy, k) <==>
      exists a: nat, b: nat :: a < k && Kept(L, rate, a, b) && x == LatticeSample(L, rate, geoScale, xy, a, b)
  {
    if k > 0 {
      RowsSamplesMembers(L, rate, geoScale, xy, k - 1);
      StrideInRange(L.Height(), rate, k - 1);
      var w := CeilDiv(L.Cols(), rate);
      RowSamplesMembers(L, rate, geoScale, xy, k - 1, w);
      var prev, row := RowsSamples(L, rate, geoScale, xy, k - 1), RowSamples(L, rate, geoScale, xy, k - 1, w);
      assert RowsSamples(L, rate, geoScale, xy, k) == prev + row;
      forall x | exists a: nat, b: nat :: a < k && Kept(L, rate, a, b) && x == LatticeSample(L, rate, geoScale, xy, a, b)
        ensures x in prev + row
      {
        var a: nat, b: nat :| a < k && Kept(L, rate, a, b) && x == LatticeSample(L, rate, geoScale, xy, a, b);
        if a == k - 1 {
          StrideInRange(L.Cols(), rate, b);
          assert x in row;
        } else {
          assert x in prev;
        }
      }
    }
  }

  /** `pixel_data` holds exactly the entries of the kept lattice cells:
      nothing else, and none of them is missed. */
  lemma SampledPixelsExactly(L: Layers, rate: nat, geoScale: nat, xy: (int, int) -> (real, real))
    requires L.Aligned() && rate >= 1
    ensures forall x :: x in SampledPixels(L, rate, geoScale, xy) <==>
      exists a: nat, b: nat :: Kept(L, rate, a, b) && x == LatticeSample(L, rate, geoScale, xy, a, b)
  {
    var k := CeilDiv(L.Height(), rate);
    RowsSamplesMembers(L, rate, geoScale, xy, k);
    forall a: nat | Step(a, rate) < L.Height() ensures a < k {
      StrideInRange(L.Height(), rate, a);
    }
  }

  /** The kept lattice cells are exactly the raster cells whose row and
      column are multiples of the rate and whose exposure is positive. */
  lemma KeptIsOnStride(L: Layers, rate: nat, i: nat, j: nat)
    requires L.Aligned() && rate >= 1
    ensures (i < L.Height() && j < L.Cols() && i % rate == 0 && j % rate == 0 && L.exposure[i][j] > 0.0)
      <==> (Kept(L, rate, i / rate, j / rate) && Step(i / rate, rate) == i && Step(j / rate, rate) == j)
  {
    OnStride(i, rate);
    OnStride(j, rate);
  }

  /** The tooltip entry an original (not downsampled) cell would give:
      its own position and its own three values. */
  function OriginalSample(L: Layers, xy: (int, int) -> (real, real), i: nat, j: nat): PixelSample
    requires L.Aligned() && i < L.Height() && j < L.Cols()
  {
    var lonLat := xy(i, j);
    PixelSample(lonLat.1, lonLat.0, L.exposure[i][j], L.concentration[i][j], L.population[i][j])
  }

  /** Sampling a raster downsampled by s with geographic scale s pairs
      every position with the values of the same original cell, which has
      positive exposure. */
  lemma SamplesAreOriginalCells(L: Layers, s: nat, rate: nat, xy: (int, int) -> (real, real))
    requires L.Aligned() && s >= 1 && rate >= 1
    ensures forall x :: x in SampledPixels(L.Downsampled(s), rate, s, xy) ==>
      exists i: nat, j: nat :: i < L.Height() && j < L.Cols() && L.exposure[i][j] > 0.0 && x == OriginalSample(L, xy, i, j)
  {
    var d := L.Downsampled(s);
    SampledPixelsExactly(d, rate, s, xy);
    forall x | x in SampledPixels(d, rate, s, xy)
      ensures exists i: nat, j: nat :: i < L.Height() && j < L.Cols() && L.exposure[i][j] > 0.0 && x == OriginalSample(L, xy, i, j)
    {
      var a: nat, b: nat :| Kept(d, rate, a, b) && x == LatticeSample(d, rate, s, xy, a, b);
      var i, j := Step(a, rate), Step(b, rate);
      StepIsProduct(i, s);
      StepIsProduct(j, s);
      var oi, oj := Step(i, s), Step(j, s);
      assert oi < L.Height() && oj < L.Cols();
      assert x == OriginalSample(L, xy, oi, oj);
    }
  }

  /** The nested sampling loops. */
  method SamplePixels(L: Layers, rate: nat, geoScale: nat, xy: (int, int) -> (real, real)) returns (pixels: seq<PixelSample>)
    requires L.Aligned() && rate >= 1
    ensures pixels == SampledPixels(L, rate, geoScale, xy)
  {
    var h, w := L.Height(), L.Cols();
    pixels := [];
    var i := 0;
    ghost var a := 0;
    while i < h
      invariant i == Step(a, rate) && a <= CeilDiv(h, rate)
      invariant pixels == RowsSamples(L, rate, geoScale, xy, a)
    {
      StrideInRange(h, rate, a);
      var j := 0;
      ghost var b := 0;
      while j < w
        invariant j == Step(b, rate) && b <= CeilDiv(w, rate)
        invariant pixels == RowsSamples(L, rate, geoScale, xy, a) + RowSamples(L, rate, geoScale, xy, a, b)
      {
        StrideInRange(w, rate, b);
        if L.exposure[i][j] > 0.0 {
          pixels := pixels + [SampleAt(L, geoScale, xy, i, j)];
        }
        j := j + rate;
        b := b + 1;
      }
      StrideInRange(w, rate, b);
      i := i + rate;
      a := a + 1;
    }
    StrideInRange(h, rate, a);
  }
}
