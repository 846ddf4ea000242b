/** generate_uniform_overlays.py: overlays on one global log scale, from
    transparent white at an exposure of one or less to opaque black at
    30,000,000 and above, so that colours compare across assets. */
module GenerateUniformOverlays {
  import opened Records
  import opened Grids
  import opened Palette

  /** `GLOBAL_MAX_EXPOSURE` */
  const GlobalMax: real := 30000000.0

  /** The transparent white of an exposure that is not positive. */
  const NoExposure := Rgba(255, 255, 255, 0)

  /** `min(1, (log10(max(1, v)) - log10(1)) / (log10(GLOBAL_MAX) - log10(1)))`
      for a positive exposure v. */
  function Level(v: real, log10: real -> real): (n: real)
    requires LogLike(log10) && v > 0.0
    ensures 0.0 <= n <= 1.0
    ensures v <= 1.0 ==> n == 0.0
    ensures v >= GlobalMax ==> n == 1.0
  {
    LogPositive(log10, GlobalMax);
    var logMin := log10(1.0);
    var logMax := log10(GlobalMax);
    var logValue := log10(if v >= 1.0 then v else 1.0);
    assert v > 1.0 ==> logValue > 0.0;
    assert v >= GlobalMax ==> logValue >= logMax;
    var ratio := (logValue - logMin) / (logMax - logMin);
    if ratio < 1.0 then ratio else 1.0
  }

  /** A larger exposure is never given a lower level. */
  lemma LevelMonotone(u: real, v: real, log10: real -> real)
    requires LogLike(log10) && 0.0 < u <= v
    ensures Level(u, log10) <= Level(v, log10)
  {
    LogPositive(log10, GlobalMax);
    var lu := log10(if u >= 1.0 then u else 1.0);
    var lv := log10(if v >= 1.0 then v else 1.0);
    assert lu <= lv;
    var span := log10(GlobalMax) - log10(1.0);
    assert (lu - log10(1.0)) / span <= (lv - log10(1.0)) / span;
  }

  /** `exposure_to_color`: a grey r = g = b = int(255 (1 - n)) with alpha
      int(255 n). */
  function ExposureToColor(v: real, log10: real -> real): (c: Rgba)
    requires LogLike(log10)
    ensures ChannelsInRange(c) && c.r == c.g == c.b
    ensures v <= 0.0 ==> c == NoExposure
    ensures v > 0.0 ==> c.a == Trunc(Level(v, log10) * 255.0) && c.r == Trunc(255.0 * (1.0 - Level(v, log10)))
  {
    if v <= 0.0 then NoExposure
    else
      var n := Level(v, log10);
      var alpha := Trunc(n * 255.0);
      var grey := Trunc(255.0 * (1.0 - n));
      Rgba(grey, grey, grey, alpha)
  }

  /** An exposure of at most one is drawn exactly like no exposure. */
  lemma AtMostOneIsInvisible(v: real, log10: real -> real)
    requires LogLike(log10) && v <= 1.0
    ensures ExposureToColor(v, log10) == NoExposure
  {
    if v > 0.0 {
      assert Level(v, log10) == 0.0;
      assert Trunc(0.0 * 255.0) == 0 && Trunc(255.0 * (1.0 - 0.0)) == 255;
    }
  }

  /** The global maximum and everything above it is opaque black. */
  lemma SaturatesAtGlobalMax(v: real, log10: real -> real)
    requires LogLike(log10) && v >= GlobalMax
    ensures ExposureToColor(v, log10) == Rgba(0, 0, 0, 255)
  {
    assert Level(v, log10) == 1.0;
    assert Trunc(1.0 * 255.0) == 255 && Trunc(255.0 * (1.0 - 1.0)) == 0;
  }

  /** Between two positive exposures, the larger is at least as opaque and
      at least as dark. */
  lemma ColorMonotone(u: real, v: real, log10: real -> real)
    requires LogLike(log10) && 0.0 < u <= v
    ensures ExposureToColor(u, log10).a <= ExposureToColor(v, log10).a
    ensures ExposureToColor(u, log10).r >= ExposureToColor(v, log10).r
  {
    var m, n := Level(u, log10), Level(v, log10);
    LevelMonotone(u, v, log10);
    TruncMonotone(m * 255.0, n * 255.0);
    TruncMonotone(255.0 * (1.0 - n), 255.0 * (1.0 - m));
  }

  // ---------------------------------------------------------------------
  // One overlay and the main loop

  /** create_uniform_overlay without the PNG: the overlay record, or the
      reason there is none. An existing PNG is overwritten, not skipped. */
  function UniformOverlayFor(country: string, assetId: string, onDisk: set<string>,
                             read: (string, string) -> Result<Scene>): (r: Outcome)
    requires ScenesAligned(read)
    ensures !InputsPresent(country, assetId, onDisk) ==> r == Skipped("Missing files for " + Tag(country, assetId))
    ensures r.Generated? ==> InputsPresent(country, assetId, onDisk) && read(country, assetId).Ok?
    ensures r.Generated? ==>
      var scene := read(country, assetId).value;
      var d := DisplayLayers(scene.layers);
      var sf := ScaleFactor(scene.layers.Height(), scene.layers.Cols());
      r.info.pngFile == PngName(country, assetId) && r.info.bounds == scene.bounds
      && r.info.style == UniformLog(GlobalMax)
      && r.info.maxExposure > 0.0
      && (forall i, j :: 0 <= i < d.Height() && 0 <= j < d.Cols() ==> d.exposure[i][j] <= r.info.maxExposure)
      && r.info.pixelData == SampledPixels(d, HoverRate(d.Height(), d.Cols()), sf, scene.xy)
    ensures InputsPresent(country, assetId, onDisk) && read(country, assetId).Ok? ==>
      var d := DisplayLayers(read(country, assetId).value.layers);
      (r.Generated? <==> exists i, j :: 0 <= i < d.Height() && 0 <= j < d.Cols() && d.exposure[i][j] > 0.0)
  {
    var tag := Tag(country, assetId);
    if !InputsPresent(country, assetId, onDisk) then Skipped("Missing files for " + tag)
    else match read(country, assetId)
      case Err(m) => Skipped("Error processing " + tag + ": " + m)
      case Ok(scene) =>
        var sf := ScaleFactor(scene.layers.Height(), scene.layers.Cols());
        var d := DisplayLayers(scene.layers);
        if |Cells(d.exposure)| == 0 then
          Skipped("Error processing " + tag + ": zero-size array to reduction operation maximum which has no identity")
        else
          var m := MaxCell(d.exposure);
          if m <= 0.0 then Skipped("No exposure data for " + tag)
          else
            var pixels := SampledPixels(d, HoverRate(d.Height(), d.Cols()), sf, scene.xy);
            Generated(OverlayInfo(PngName(country, assetId), scene.bounds, m, pixels, UniformLog(GlobalMax)))
  }

  /** create_uniform_overlay: the record of UniformOverlayFor and, when it
      is generated, the PNG: a fresh image of the downsampled shape in
      which every cell, positive or not, has `exposure_to_color` of its
      own value. */
  method CreateUniformOverlay(country: string, assetId: string, onDisk: set<string>,
                              read: (string, string) -> Result<Scene>, log10: real -> real)
    returns (outcome: Outcome, png: Option<array2<Rgba>>)
    requires ScenesAligned(read) && LogLike(log10)
    ensures outcome == UniformOverlayFor(country, assetId, onDisk, read)
    ensures png.Some? <==> outcome.Generated?
    ensures png.Some? ==>
      var d := DisplayLayers(read(country, assetId).value.layers);
      var img := png.value;
      fresh(img) && img.Length0 == d.Height() && img.Length1 == d.Cols()
      && forall i, j :: 0 <= i < img.Length0 && 0 <= j < img.Length1 ==>
           img[i, j] == ExposureToColor(d.exposure[i][j], log10)
  {
    var tag := Tag(country, assetId);
    png := None;
    if !InputsPresent(country, assetId, onDisk) {
      return Skipped("Missing files for " + tag), png;
    }
    match read(country, assetId)
    case Err(m) =>
      outcome := Skipped("Error processing " + tag + ": " + m);
    case Ok(scene) =>
      var sf := ScaleFactor(scene.layers.Height(), scene.layers.Cols());
      var d := DisplayLayers(scene.layers);
      if |Cells(d.exposure)| == 0 {
        outcome := Skipped("Error processing " + tag + ": zero-size array to reduction operation maximum which has no identity");
      } else {
        var m := MaxCell(d.exposure);
        if m <= 0.0 {
          outcome := Skipped("No exposure data for " + tag);
        } else {
          var img := Paint(d.exposure, v => ExposureToColor(v, log10), false);
          png := Some(img);
          var pixels := SamplePixels(d, HoverRate(d.Height(), d.Cols()), sf, scene.xy);
          outcome := Generated(OverlayInfo(PngName(country, assetId), scene.bounds, m, pixels, UniformLog(GlobalMax)));
        }
      }
  }

  /** main's loop, one asset at a time in list order, and `overlay_count`. */
  method GenerateUniform(assets: seq<Asset>, onDisk: set<string>,
                         read: (string, string) -> Result<Scene>, log10: real -> real)
    returns (results: seq<Asset>, errors: seq<string>, overlayCount: nat)
    requires ScenesAligned(read) && LogLike(log10)
    ensures var run := RunOverlays(assets, onDisk, (c, id, disk) => UniformOverlayFor(c, id, disk, read));
      results == run.results && errors == run.errors
    ensures overlayCount == OverlayCount(results)
  {
    ghost var create := (c, id, disk) => UniformOverlayFor(c, id, disk, read);
    results, errors := [], [];
    var disk := onDisk;
    ghost var generated := 0;
    for k := 0 to |assets|
      invariant OverlayRun(results, errors, disk, generated) == RunOverlays(assets[..k], onDisk, create)
    {
      var asset := assets[k];
      assert assets[..k + 1][..k] == assets[..k];
      var outcome, _ := CreateUniformOverlay(asset.country, asset.assetId, disk, read, log10);
      if outcome.Generated? {
        results := results + [asset.(overlay := Some(outcome.info))];
        disk := disk + {"overlays/" + outcome.info.pngFile};
        generated := generated + 1;
      } else {
        errors := errors + [outcome.message];
        results := results + [asset];
      }
    }
    assert assets[..|assets|] == assets;
    overlayCount := CountOverlays(results);
  }
}
