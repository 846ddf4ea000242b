/** The colour arithmetic the overlay scripts share: Python's `int()` on a
    float, `np.clip` to [0, 1], the logarithm taken as a parameter, the
    five-band colour ramp of generate_all_overlays.py and test_overlay.py,
    and what reading an asset's three rasters yields. */
module Palette {
  import opened Records
  import opened Grids

  /** Python's `int(x)` on a float: truncation toward zero. */
  function Trunc(x: real): (r: int)
    ensures x >= 0.0 ==> 0 <= r && r as real <= x < r as real + 1.0
    ensures x < 0.0 ==> r <= 0 && x <= r as real < x + 1.0
  {
    if x >= 0.0 then x.Floor else -((-x).Floor)
  }

  lemma TruncMonotone(x: real, y: real)
    requires x <= y
    ensures Trunc(x) <= Trunc(y)
  {
    if 0.0 <= x {
      assert Trunc(x) as real <= x <= y < Trunc(y) as real + 1.0;
    } else if y < 0.0 {
      assert x <= Trunc(x) as real && Trunc(y) as real < y + 1.0;
      assert -(Trunc(x) as real) <= -x && -x < -(Trunc(x) as real) + 1.0;
      assert -(Trunc(y) as real) <= -y;
    }
  }

  /** `np.clip(x, 0, 1)` */
  function Clip01(x: real): (r: real)
    ensures 0.0 <= r <= 1.0
    ensures 0.0 <= x <= 1.0 ==> r == x
    ensures x < 0.0 ==> r == 0.0
    ensures x > 1.0 ==> r == 1.0
  {
    if x < 0.0 then 0.0 else if x > 1.0 then 1.0 else x
  }

  /** The properties of `log10` the colour scales rely on: it is zero at
      one and strictly increasing on the positive reals. */
  ghost predicate LogLike(log10: real -> real) {
    log10(1.0) == 0.0 && forall x, y :: 0.0 < x < y ==> log10(x) < log10(y)
  }

  /** `log10(v + 1) / log10(max + 1)`, the normalisation of the heat and
      five-band scales; positive for a positive value when `log10` is
      log-like and `max` is positive. */
  function LogRatio(v: real, maxValue: real, log10: real -> real): (n: real)
    requires log10(maxValue + 1.0) > 0.0
    ensures LogLike(log10) && v > 0.0 ==> n > 0.0
    ensures LogLike(log10) && 0.0 < v <= maxValue ==> n <= 1.0
  {
    log10(v + 1.0) / log10(maxValue + 1.0)
  }

  /** A log-like logarithm is positive above one. */
  lemma LogPositive(log10: real -> real, x: real)
    requires LogLike(log10) && x > 1.0
    ensures log10(x) > 0.0
  {
  }

  // ---------------------------------------------------------------------
  // The five-band ramp: blue, cyan, green, yellow, orange, red

  /** The colour of a normalised value n in [0, 1]. */
  function FiveBand(n: real): (c: Rgba)
    requires 0.0 <= n <= 1.0
    ensures ChannelsInRange(c)
    ensures n < 0.2 ==> c.r == 0 && c.b == 255 && c.a == 150
    ensures 0.2 <= n < 0.4 ==> c.r == 0 && c.g == 255 && c.a == 180
    ensures 0.4 <= n < 0.6 ==> c.g == 255 && c.b == 0 && c.a == 200
    ensures 0.6 <= n < 0.8 ==> c.r == 255 && c.b == 0 && c.a == 220
    ensures 0.8 <= n ==> c.r == 255 && c.b == 0 && c.a == 240
  {
    if n < 0.2 then Rgba(0, Trunc(n * 5.0 * 255.0), 255, 150)
    else if n < 0.4 then
      var progress := (n - 0.2) * 5.0;
      Rgba(0, 255, Trunc(255.0 * (1.0 - progress)), 180)
    else if n < 0.6 then
      var progress := (n - 0.4) * 5.0;
      Rgba(Trunc(255.0 * progress), 255, 0, 200)
    else if n < 0.8 then
      var progress := (n - 0.6) * 5.0;
      Rgba(255, Trunc(255.0 * (1.0 - progress * 0.5)), 0, 220)
    else
      var progress := (n - 0.8) * 5.0;
      Rgba(255, Trunc(128.0 * (1.0 - progress)), 0, 240)
  }

  /** The top of the scale is opaque red. */
  lemma FiveBandTop()
    ensures FiveBand(1.0) == Rgba(255, 0, 0, 240)
  {
    assert Trunc(128.0 * (1.0 - (1.0 - 0.8) * 5.0)) == 0;
  }

  /** Alpha never decreases as the normalised value grows. */
  lemma FiveBandAlphaMonotone(m: real, n: real)
    requires 0.0 <= m <= n <= 1.0
    ensures FiveBand(m).a <= FiveBand(n).a
  {
  }

  /** The cell colour of generate_all_overlays.py and test_overlay.py for
      an exposure v, given the raster's maximum: cells that are not
      positive are never written and stay transparent black. */
  function FiveBandCell(v: real, maxExposure: real, log10: real -> real): (c: Rgba)
    requires log10(maxExposure + 1.0) > 0.0
    ensures ChannelsInRange(c)
    ensures v <= 0.0 ==> c == Clear
    ensures v > 0.0 ==> c == FiveBand(Clip01(LogRatio(v, maxExposure, log10)))
  {
    if v <= 0.0 then Clear else FiveBand(Clip01(LogRatio(v, maxExposure, log10)))
  }

  /** The raster's maximum gets the top colour. */
  lemma MaximumIsRed(maxExposure: real, log10: real -> real)
    requires maxExposure > 0.0 && log10(maxExposure + 1.0) > 0.0
    ensures FiveBandCell(maxExposure, maxExposure, log10) == Rgba(255, 0, 0, 240)
  {
    FiveBandTop();
  }

  // ---------------------------------------------------------------------
  // What reading an asset's rasters yields

  /** The three rasters, the exposure raster's bounds, and
      `rasterio.transform.xy` for its transform: (row, col) to (lon, lat). */
  datatype Scene = Scene(layers: Layers, bounds: Bounds, crs: string, xy: (int, int) -> (real, real))

  /** The readings the overlay generators can use: the three rasters share
      one rectangular shape. */
  ghost predicate ScenesAligned(read: (string, string) -> Result<Scene>) {
    forall c, id :: read(c, id).Ok? ==> read(c, id).value.layers.Aligned()
  }

  /** `np.max(data)` for a raster with at least one cell. */
  function MaxCell(g: Grid): (m: real)
    requires |Cells(g)| > 0
    ensures forall i, j :: 0 <= i < |g| && 0 <= j < |g[i]| ==> g[i][j] <= m
    ensures exists i, j :: 0 <= i < |g| && 0 <= j < |g[i]| && g[i][j] == m
  {
    var m := Max(Cells(g));
    forall i, j | 0 <= i < |g| && 0 <= j < |g[i]| ensures g[i][j] <= m {
      assert g[i][j] in Cells(g);
    }
    m
  }

  /** On a rectangular raster the maximum is positive exactly when some
      cell is, and a raster without cells has no columns. */
  lemma PositiveMaximum(g: Grid)
    requires Rectangular(g)
    ensures |Cells(g)| > 0 ==>
      (MaxCell(g) > 0.0 <==> exists i, j :: 0 <= i < |g| && 0 <= j < Width(g) && g[i][j] > 0.0)
    ensures |Cells(g)| == 0 ==> |g| == 0 || Width(g) == 0
  {
  }

  // ---------------------------------------------------------------------
  // The main loops of generate_all_overlays.py and generate_uniform_overlays.py

  /** What creating one overlay gives: the record stored under the
      asset's `overlay` key, or the message logged instead. */
  datatype Outcome = Generated(info: OverlayInfo) | Skipped(message: string)

  /** The state after some assets: `results`, `errors`, the paths that
      exist, and how many overlays were generated. */
  datatype OverlayRun = OverlayRun(results: seq<Asset>, errors: seq<string>, onDisk: set<string>, generated: nat)

  /** One iteration: a generated overlay is attached and its PNG exists
      from then on; otherwise the asset is kept as it was and the message
      logged. */
  function AdvanceRun(run: OverlayRun, a: Asset, outcome: Outcome): OverlayRun {
    match outcome
    case Generated(info) =>
      OverlayRun(run.results + [a.(overlay := Some(info))], run.errors,
                 run.onDisk + {"overlays/" + info.pngFile}, run.generated + 1)
    case Skipped(m) => OverlayRun(run.results + [a], run.errors + [m], run.onDisk, run.generated)
  }

  /** The loop over the assets, in list order, with `create` giving the
      outcome for an asset's country and id given the paths that exist. */
  function RunOverlays(assets: seq<Asset>, onDisk: set<string>, create: (string, string, set<string>) -> Outcome): OverlayRun {
    if |assets| == 0 then OverlayRun([], [], onDisk, 0)
    else
      var run := RunOverlays(assets[..|assets| - 1], onDisk, create);
      var a := assets[|assets| - 1];
      AdvanceRun(run, a, create(a.country, a.assetId, run.onDisk))
  }

  /** `overlay_count`: the result assets carrying an overlay. */
  function OverlayCount(assets: seq<Asset>): (n: nat)
    ensures n <= |assets|
  {
    if |assets| == 0 then 0
    else OverlayCount(assets[..|assets| - 1]) + (if assets[|assets| - 1].overlay.Some? then 1 else 0)
  }

  /** `len([a for a in results if 'overlay' in a])` */
  method CountOverlays(results: seq<Asset>) returns (count: nat)
    ensures count == OverlayCount(results)
  {
    count := 0;
    for k := 0 to |results|
      invariant count == OverlayCount(results[..k])
    {
      assert results[..k + 1][..k] == results[..k];
      if results[k].overlay.Some? {
        count := count + 1;
      }
    }
    assert results[..|results|] == results;
  }

  /** Every asset is kept in order and either gains an overlay or is
      unchanged with one message logged; generated plus logged count the
      assets. */
  lemma {:induction false} RunKeepsAssets(assets: seq<Asset>, onDisk: set<string>, create: (string, string, set<string>) -> Outcome)
    ensures var run := RunOverlays(assets, onDisk, create);
      |run.results| == |assets| && run.generated + |run.errors| == |assets|
      && (forall k :: 0 <= k < |assets| ==>
            run.results[k] == assets[k] || exists info :: run.results[k] == assets[k].(overlay := Some(info)))
  {
    if |assets| > 0 {
      var init, a := assets[..|assets| - 1], assets[|assets| - 1];
      RunKeepsAssets(init, onDisk, create);
      var prev := RunOverlays(init, onDisk, create);
      var run := AdvanceRun(prev, a, create(a.country, a.assetId, prev.onDisk));
      assert RunOverlays(assets, onDisk, create) == run;
      AdvanceRunKeeps(prev, a, create(a.country, a.assetId, prev.onDisk));
      forall k | 0 <= k < |assets|
        ensures run.results[k] == assets[k] || exists info :: run.results[k] == assets[k].(overlay := Some(info))
      {
        if k < |init| {
          assert run.results[k] == prev.results[k] && assets[k] == init[k];
        }
      }
    }
  }

  /** `overlay_count` covers every generated overlay and, besides them,
      only overlays the assets already had. */
  lemma {:induction false} RunCountsOverlays(assets: seq<Asset>, onDisk: set<string>, create: (string, string, set<string>) -> Outcome)
    ensures var run := RunOverlays(assets, onDisk, create);
      |run.results| == |assets|
      && run.generated <= OverlayCount(run.results) <= run.generated + OverlayCount(assets)
  {
    if |assets| > 0 {
      var init, a := assets[..|assets| - 1], assets[|assets| - 1];
      RunCountsOverlays(init, onDisk, create);
      var prev := RunOverlays(init, onDisk, create);
      var run := AdvanceRun(prev, a, create(a.country, a.assetId, prev.onDisk));
      assert RunOverlays(assets, onDisk, create) == run;
      AdvanceRunKeeps(prev, a, create(a.country, a.assetId, prev.onDisk));
      assert run.results[..|run.results| - 1] == prev.results;
    }
  }

  /** One iteration appends the asset, at most gaining an overlay, and
      adds one to the generated count or to the messages. */
  lemma AdvanceRunKeeps(run: OverlayRun, a: Asset, outcome: Outcome)
    ensures var next := AdvanceRun(run, a, outcome);
      |next.results| == |run.results| + 1 && next.results[..|run.results|] == run.results
      && (next.results[|run.results|] == a || exists info :: next.results[|run.results|] == a.(overlay := Some(info)))
      && next.generated + |next.errors| == run.generated + |run.errors| + 1
      && (outcome.Generated? <==> next.generated == run.generated + 1)
      && (outcome.Generated? ==> next.results[|run.results|].overlay.Some?)
  {
  }
}
