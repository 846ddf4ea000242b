/** raster_overlay.py: the heat colour map, the display downsampling of
    `generate_png_overlay`, its hover sample, and the batch pass that
    attaches the overlays to the assets. */
module RasterOverlay {
  import opened Records
  import opened Grids
  import opened Palette

  // ---------------------------------------------------------------------
  // The heat colour map: transparent, yellow, orange, red, purple

  /** The colour of a normalised value n in [0, 1]. */
  function HeatColor(n: real): (c: Rgba)
    requires 0.0 <= n <= 1.0
    ensures ChannelsInRange(c)
    ensures n < 0.25 ==> c.r == 255 && c.g == 255 && c.b == 0 && 0 <= c.a < 180
    ensures 0.25 <= n < 0.5 ==> c.r == 255 && 155 <= c.g <= 255 && c.b == 0 && c.a == 200
    ensures 0.5 <= n < 0.75 ==> c.r == 255 && 0 <= c.g <= 155 && c.b == 0 && c.a == 220
    ensures 0.75 <= n ==> 155 <= c.r <= 255 && c.g == 0 && 0 <= c.b <= 200 && c.a == 240
  {
    if n < 0.25 then Rgba(255, 255, 0, Trunc(n * 4.0 * 180.0))
    else if n < 0.5 then
      var progress := (n - 0.25) * 4.0;
      Rgba(255, Trunc(255.0 - progress * 100.0), 0, 200)
    else if n < 0.75 then
      var progress := (n - 0.5) * 4.0;
      Rgba(255, Trunc(155.0 - progress * 155.0), 0, 220)
    else
      var progress := (n - 0.75) * 4.0;
      Rgba(Trunc(255.0 - progress * 100.0), 0, Trunc(progress * 200.0), 240)
  }

  /** Alpha never decreases as the normalised value grows. */
  lemma HeatAlphaMonotone(m: real, n: real)
    requires 0.0 <= m <= n <= 1.0
    ensures HeatColor(m).a <= HeatColor(n).a
  {
    if n < 0.25 {
      TruncMonotone(m * 4.0 * 180.0, n * 4.0 * 180.0);
    }
  }

  /** The top of the scale is purple. */
  lemma HeatTop()
    ensures HeatColor(1.0) == Rgba(155, 0, 200, 240)
  {
    assert (1.0 - 0.75) * 4.0 == 1.0;
    assert Trunc(255.0 - 1.0 * 100.0) == 155;
    assert Trunc(1.0 * 200.0) == 200;
  }

  /** `min(1.0, x)` */
  function AtMostOne(x: real): (r: real)
    ensures r <= 1.0 && r <= x && (r == x || r == 1.0)
  {
    if x < 1.0 then x else 1.0
  }

  /** The `colormap` closure made by `create_exposure_colormap(max_value)`. */
  function HeatCell(v: real, maxValue: real, log10: real -> real): (c: Rgba)
    requires LogLike(log10) && log10(maxValue + 1.0) > 0.0
    ensures ChannelsInRange(c)
    ensures v <= 0.0 ==> c == Clear
    ensures v > 0.0 ==> c.a > 0 || (c.r == 255 && c.g == 255 && c.b == 0)
  {
    if v <= 0.0 then Clear else HeatColor(AtMostOne(LogRatio(v, maxValue, log10)))
  }

  /** A larger exposure is never drawn more transparent. */
  lemma HeatCellAlphaMonotone(u: real, v: real, maxValue: real, log10: real -> real)
    requires LogLike(log10) && log10(maxValue + 1.0) > 0.0
    requires 0.0 < u <= v
    ensures HeatCell(u, maxValue, log10).a <= HeatCell(v, maxValue, log10).a
  {
    var lm := log10(maxValue + 1.0);
    assert log10(u + 1.0) <= log10(v + 1.0);
    assert log10(u + 1.0) / lm <= log10(v + 1.0) / lm;
    HeatAlphaMonotone(AtMostOne(LogRatio(u, maxValue, log10)), AtMostOne(LogRatio(v, maxValue, log10)));
  }

  /** The raster's maximum, and everything above it, is drawn purple. */
  lemma MaximumIsPurple(v: real, maxValue: real, log10: real -> real)
    requires LogLike(log10) && maxValue > 0.0 && v >= maxValue
    ensures log10(maxValue + 1.0) > 0.0
    ensures HeatCell(v, maxValue, log10) == Rgba(155, 0, 200, 240)
  {
    LogPositive(log10, maxValue + 1.0);
    var lm := log10(maxValue + 1.0);
    assert lm <= log10(v + 1.0);
    assert 1.0 <= log10(v + 1.0) / lm;
    HeatTop();
  }

  // ---------------------------------------------------------------------
  // One overlay

  /** The display factor: `max(height // 300, width // 300)` when either
      side exceeds 300 cells, otherwise no slicing (a factor of one). */
  function DisplayScale(h: nat, w: nat): (s: nat)
    ensures s >= 1
    ensures s > 1 <==> h >= 600 || w >= 600
    ensures h > 300 || w > 300 ==> s >= h / 300 && s >= w / 300 && (s == h / 300 || s == w / 300)
    ensures h <= 300 && w <= 300 ==> s == 1
  {
    if h > 300 || w > 300 then
      if h / 300 >= w / 300 then h / 300 else w / 300
    else 1
  }

  /** The three layers as drawn: sliced by DisplayScale (a factor of one
      leaves them as read). */
  function Display(L: Layers): (d: Layers)
    requires L.Aligned()
    ensures d.Aligned()
    ensures d == L.Downsampled(DisplayScale(L.Height(), L.Cols()))
  {
    L.Downsampled(DisplayScale(L.Height(), L.Cols()))
  }

  /** `max(1, min(width, height) // 100)` on the displayed shape. */
  function SampleRate(h: nat, w: nat): (s: nat)
    ensures s >= 1 && (s > 1 <==> MinNat(h, w) >= 200)
  {
    StrideFor(MinNat(w, h), 100)
  }

  /** `pixel_data`: the positive displayed cells on the sample lattice, each
      placed by `transform.xy` at its row and column times `geoScale`. */
  function HoverSample(L: Layers, xy: (int, int) -> (real, real), geoScale: nat): (r: seq<PixelSample>)
    requires L.Aligned()
    ensures forall x :: x in r ==> x.exposure > 0.0
  {
    var d := Display(L);
    SampledPixelsExactly(d, SampleRate(d.Height(), d.Cols()), geoScale, xy);
    SampledPixels(d, SampleRate(d.Height(), d.Cols()), geoScale, xy)
  }

  /** A positive cell exists: `exposure_data[exposure_data > 0]` is not
      empty. */
  predicate AnyPositive(g: Grid) {
    exists i, j :: 0 <= i < |g| && 0 <= j < |g[i]| && g[i][j] > 0.0
  }

  /** The metadata `generate_png_overlay` returns, with the hover positions
      scaled by `geoScale`. `np.max` over no positive cell raises, so the
      `max_exposure == 0` fallback never applies; with a positive cell the
      maximum over the positive cells is the raster's maximum. */
  function OverlayMetadata(country: string, assetId: string, scene: Scene, geoScale: nat): (r: Result<OverlayInfo>)
    requires scene.layers.Aligned()
    ensures r.Ok? <==> AnyPositive(scene.layers.exposure)
    ensures r.Ok? ==>
      var L := scene.layers;
      var d := Display(L);
      r.value.pngFile == PngName(country, assetId) && r.value.bounds == scene.bounds
      && r.value.maxExposure > 0.0
      && (forall i, j :: 0 <= i < L.Height() && 0 <= j < |L.exposure[i]| ==> L.exposure[i][j] <= r.value.maxExposure)
      && (exists i, j :: 0 <= i < L.Height() && 0 <= j < |L.exposure[i]| && L.exposure[i][j] == r.value.maxExposure)
      && r.value.pixelData == HoverSample(L, scene.xy, geoScale)
      && r.value.style == Heat(scene.crs, |r.value.pixelData|, d.Cols(), d.Height())
  {
    var L := scene.layers;
    if !AnyPositive(L.exposure) then
      Err("zero-size array to reduction operation maximum which has no identity")
    else
      var i, j :| 0 <= i < |L.exposure| && 0 <= j < |L.exposure[i]| && L.exposure[i][j] > 0.0;
      assert L.exposure[i][j] in Cells(L.exposure);
      var m := MaxCell(L.exposure);
      var d := Display(L);
      var pixels := HoverSample(L, scene.xy, geoScale);
      Ok(OverlayInfo(PngName(country, assetId), scene.bounds, m, pixels,
                     Heat(scene.crs, |pixels|, d.Cols(), d.Height())))
  }

  /** The hover sample as intended: each displayed cell placed at its
      original row and column, `(i * scale_factor, j * scale_factor)`. */
  function HeatOverlay(country: string, assetId: string, scene: Scene): (r: Result<OverlayInfo>)
    requires scene.layers.Aligned()
    ensures r.Ok? <==> AnyPositive(scene.layers.exposure)
  {
    OverlayMetadata(country, assetId, scene, DisplayScale(scene.layers.Height(), scene.layers.Cols()))
  }

  /** With the intended scaling every hover entry is one original positive
      cell at its own position, with an exposure no larger than the
      overlay's maximum. */
  lemma HoverEntriesAreOriginalCells(country: string, assetId: string, scene: Scene)
    requires scene.layers.Aligned() && HeatOverlay(country, assetId, scene).Ok?
    ensures var L := scene.layers;
      var info := HeatOverlay(country, assetId, scene).value;
      forall x :: x in info.pixelData ==>
        x.exposure <= info.maxExposure
        && exists i: nat, j: nat :: i < L.Height() && j < L.Cols() && L.exposure[i][j] > 0.0
             && x == OriginalSample(L, scene.xy, i, j)
  {
    var L := scene.layers;
    var s := DisplayScale(L.Height(), L.Cols());
    var d := Display(L);
    SamplesAreOriginalCells(L, s, SampleRate(d.Height(), d.Cols()), scene.xy);
  }

  /** The `(c, r)` position of cell (r, c) under a unit transform. */
  function UnitXY(r: int, c: int): (real, real) {
    (c as real, r as real)
  }

  /** An h x 1 raster, positive only in row 2. */
  function RowTwoLayers(h: nat): (L: Layers)
    requires h >= 3
    ensures L.Aligned() && L.Height() == h && L.Cols() == 1
    ensures L.exposure[1][0] == 0.0 && L.exposure[2][0] == 1.0
    ensures L.concentration[2][0] == 1.0 && L.population[2][0] == 1.0
  {
    var g := seq(h, r => [if r == 2 then 1.0 else 0.0]);
    Layers(g, g, g)
  }

  /** As written, `transform.xy(transform, i, j)` takes the displayed
      indices. On any single-column raster of 600 to 899 rows (display
      factor 2) whose row 2 is positive and row 1 is not, the entry for
      original row 2 is placed at row 1: the hover sample holds an entry
      that is no original cell. */
  lemma MisplacedEntry(L: Layers)
    requires L.Aligned() && 600 <= L.Height() < 900 && L.Cols() == 1
    requires L.exposure[1][0] == 0.0 && L.exposure[2][0] == 1.0
    requires L.concentration[2][0] == 1.0 && L.population[2][0] == 1.0
    ensures PixelSample(1.0, 0.0, 1.0, 1.0, 1.0) in HoverSample(L, UnitXY, 1)
    ensures !forall x :: x in HoverSample(L, UnitXY, 1) ==>
      exists i: nat, j: nat :: i < L.Height() && j < L.Cols() && L.exposure[i][j] > 0.0
        && x == OriginalSample(L, UnitXY, i, j)
  {
    var h := L.Height();
    DivModUnique(h, 300, 2, h - 600);
    assert DisplayScale(h, 1) == 2;
    var d := Display(L);
    StrideInRange(h, 2, 1);
    assert d.Height() >= 2;
    assert d.Cols() == 1;
    var rate := SampleRate(d.Height(), d.Cols());
    assert rate == 1;
    assert Step(1, 2) == 2 && Step(1, 1) == 1;
    assert d.exposure[1][0] == 1.0;
    assert Kept(d, rate, 1, 0);
    var x := LatticeSample(d, rate, 1, UnitXY, 1, 0);
    assert x == PixelSample(1.0, 0.0, 1.0, 1.0, 1.0);
    SampledPixelsExactly(d, rate, 1, UnitXY);
    assert x in HoverSample(L, UnitXY, 1);
    forall i: nat, j: nat | i < L.Height() && j < L.Cols() && L.exposure[i][j] > 0.0
      ensures x != OriginalSample(L, UnitXY, i, j)
    {
      assert OriginalSample(L, UnitXY, i, j).lat == i as real;
    }
  }

  /** RowTwoLayers(h) is such a raster for every h from 600 to 899. */
  lemma AsWrittenMisplacesSamples(h: nat)
    requires 600 <= h < 900
    ensures PixelSample(1.0, 0.0, 1.0, 1.0, 1.0) in HoverSample(RowTwoLayers(h), UnitXY, 1)
    ensures RowTwoLayers(h).exposure[1][0] == 0.0
    ensures !forall x :: x in HoverSample(RowTwoLayers(h), UnitXY, 1) ==>
      exists i: nat, j: nat :: i < h && j < 1
        && RowTwoLayers(h).exposure[i][j] > 0.0 && x == OriginalSample(RowTwoLayers(h), UnitXY, i, j)
  {
    MisplacedEntry(RowTwoLayers(h));
  }

  /** generate_png_overlay with the intended scaling: the metadata of
      HeatOverlay and, when there is one, the PNG: a fresh image of the
      displayed shape holding the heat colour of every displayed cell. */
  method GeneratePngOverlay(country: string, assetId: string, scene: Scene, log10: real -> real)
    returns (r: Result<OverlayInfo>, png: Option<array2<Rgba>>)
    requires scene.layers.Aligned() && LogLike(log10)
    ensures r == HeatOverlay(country, assetId, scene)
    ensures png.Some? <==> r.Ok?
    ensures png.Some? ==>
      var d := Display(scene.layers);
      var m := r.value.maxExposure;
      var img := png.value;
      fresh(img) && img.Length0 == d.Height() && img.Length1 == d.Cols()
      && log10(m + 1.0) > 0.0
      && forall i, j :: 0 <= i < img.Length0 && 0 <= j < img.Length1 ==>
           img[i, j] == HeatCell(d.exposure[i][j], m, log10)
  {
    var L := scene.layers;
    png := None;
    if !AnyPositive(L.exposure) {
      return Err("zero-size array to reduction operation maximum which has no identity"), png;
    }
    var i, j :| 0 <= i < |L.exposure| && 0 <= j < |L.exposure[i]| && L.exposure[i][j] > 0.0;
    assert L.exposure[i][j] in Cells(L.exposure);
    var m := MaxCell(L.exposure);
    LogPositive(log10, m + 1.0);
    var sf := DisplayScale(L.Height(), L.Cols());
    var d := Display(L);
    var img := Paint(d.exposure, v => HeatCell(v, m, log10), true);
    png := Some(img);
    var pixels := SamplePixels(d, SampleRate(d.Height(), d.Cols()), sf, scene.xy);
    r := Ok(OverlayInfo(PngName(country, assetId), scene.bounds, m, pixels,
                        Heat(scene.crs, |pixels|, d.Cols(), d.Height())));
  }

  // ---------------------------------------------------------------------
  // The batch pass

  /** One asset after `batch_generate_overlays`: it gains the overlay when
      its three inputs exist and the overlay is made; otherwise it is kept
      as it was. Nothing but `overlay` ever changes. */
  function AssetAfter(a: Asset, onDisk: set<string>, read: (string, string) -> Result<Scene>): (r: Asset)
    requires ScenesAligned(read)
    ensures r.(overlay := a.overlay) == a
    ensures r != a ==>
      InputsPresent(a.country, a.assetId, onDisk) && read(a.country, a.assetId).Ok?
      && HeatOverlay(a.country, a.assetId, read(a.country, a.assetId).value).Ok?
    ensures (InputsPresent(a.country, a.assetId, onDisk) && read(a.country, a.assetId).Ok?
             && HeatOverlay(a.country, a.assetId, read(a.country, a.assetId).value).Ok?) ==>
        r.overlay == Some(HeatOverlay(a.country, a.assetId, read(a.country, a.assetId).value).value)
  {
    if !InputsPresent(a.country, a.assetId, onDisk) then a
    else match read(a.country, a.assetId)
      case Err(_) => a
      case Ok(scene) =>
        match HeatOverlay(a.country, a.assetId, scene)
        case Err(_) => a
        case Ok(info) => a.(overlay := Some(info))
  }

  /** `batch_generate_overlays`: every asset is kept, in its order, each
      updated as AssetAfter says. */
  method BatchGenerateOverlays(assets: seq<Asset>, onDisk: set<string>,
                               read: (string, string) -> Result<Scene>, log10: real -> real)
    returns (updated: seq<Asset>)
    requires ScenesAligned(read) && LogLike(log10)
    ensures |updated| == |assets|
    ensures forall k :: 0 <= k < |assets| ==> updated[k] == AssetAfter(assets[k], onDisk, read)
  {
    updated := [];
    for k := 0 to |assets|
      invariant |updated| == k
      invariant forall n :: 0 <= n < k ==> updated[n] == AssetAfter(assets[n], onDisk, read)
    {
      var asset := assets[k];
      if !InputsPresent(asset.country, asset.assetId, onDisk) {
        updated := updated + [asset];
        continue;
      }
      match read(asset.country, asset.assetId)
      case Err(_) =>
        updated := updated + [asset];
      case Ok(scene) =>
        var metadata, _ := GeneratePngOverlay(asset.country, asset.assetId, scene, log10);
        if metadata.Ok? {
          updated := updated + [asset.(overlay := Some(metadata.value))];
        } else {
          updated := updated + [asset];
        }
    }
  }
}
