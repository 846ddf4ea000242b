/** generate_all_overlays.py: one five-band PNG overlay per asset, on the
    raster downsampled to about 200 cells along its shorter side, with a
    sparse hover sample, and the pass that attaches the overlays to the
    assets and counts them. */
module GenerateAllOverlays {
  import opened Records
  import opened Grids
  import opened Palette

  /** create_overlay_for_asset without the PNG itself: the overlay record,
      or the reason there is none. */
  function OverlayFor(country: string, assetId: string, onDisk: set<string>,
                      read: (string, string) -> Result<Scene>, log10: real -> real): (r: Outcome)
    requires ScenesAligned(read)
    ensures !InputsPresent(country, assetId, onDisk) ==> r == Skipped("Missing files for " + Tag(country, assetId))
    ensures InputsPresent(country, assetId, onDisk) && "overlays/" + PngName(country, assetId) in onDisk ==>
      r == Skipped("Overlay already exists for " + Tag(country, assetId))
    ensures r.Generated? ==>
      InputsPresent(country, assetId, onDisk) && "overlays/" + PngName(country, assetId) !in onDisk
      && read(country, assetId).Ok?
    ensures r.Generated? ==>
      var scene := read(country, assetId).value;
      var d := DisplayLayers(scene.layers);
      var sf := ScaleFactor(scene.layers.Height(), scene.layers.Cols());
      r.info.pngFile == PngName(country, assetId) && r.info.bounds == scene.bounds && r.info.style == FiveBand
      && r.info.maxExposure > 0.0
      && (forall i, j :: 0 <= i < d.Height() && 0 <= j < d.Cols() ==> d.exposure[i][j] <= r.info.maxExposure)
      && (exists i, j :: 0 <= i < d.Height() && 0 <= j < d.Cols() && d.exposure[i][j] == r.info.maxExposure)
      && r.info.pixelData == SampledPixels(d, HoverRate(d.Height(), d.Cols()), sf, scene.xy)
  {
    var tag := Tag(country, assetId);
    if !InputsPresent(country, assetId, onDisk) then Skipped("Missing files for " + tag)
    else if "overlays/" + PngName(country, assetId) in onDisk then Skipped("Overlay already exists for " + tag)
    else match read(country, assetId)
      case Err(m) => Skipped("Error processing " + tag + ": " + m)
      case Ok(scene) =>
        var sf := ScaleFactor(scene.layers.Height(), scene.layers.Cols());
        var d := DisplayLayers(scene.layers);
        if |Cells(d.exposure)| == 0 then
          Skipped("Error processing " + tag + ": zero-size array to reduction operation maximum which has no identity")
        else
          var m := MaxCell(d.exposure);
          if m <= 0.0 then Skipped("No exposure data for " + tag)
          else
            var pixels := SampledPixels(d, HoverRate(d.Height(), d.Cols()), sf, scene.xy);
            Generated(OverlayInfo(PngName(country, assetId), scene.bounds, m, pixels, FiveBand))
  }

  /** Once both inputs are present, no overlay exists yet and the rasters
      are read, an overlay is generated exactly when some displayed cell has
      positive exposure. */
  lemma GeneratedIffPositive(country: string, assetId: string, onDisk: set<string>,
                             read: (string, string) -> Result<Scene>, log10: real -> real)
    requires ScenesAligned(read)
    ensures (InputsPresent(country, assetId, onDisk) && "overlays/" + PngName(country, assetId) !in onDisk
             && read(country, assetId).Ok?) ==>
      var d := DisplayLayers(read(country, assetId).value.layers);
      (OverlayFor(country, assetId, onDisk, read, log10).Generated? <==>
         exists i, j :: 0 <= i < d.Height() && 0 <= j < d.Cols() && d.exposure[i][j] > 0.0)
  {
    if read(country, assetId).Ok? {
      PositiveMaximum(DisplayLayers(read(country, assetId).value.layers).exposure);
    }
  }

  /** Every hover entry of a generated overlay carries the position and the
      three values of one original cell with positive exposure. */
  lemma HoverEntriesAreOriginalCells(country: string, assetId: string, onDisk: set<string>,
                                     read: (string, string) -> Result<Scene>, log10: real -> real)
    requires ScenesAligned(read)
    requires OverlayFor(country, assetId, onDisk, read, log10).Generated?
    ensures var scene := read(country, assetId).value;
      var L := scene.layers;
      forall x :: x in OverlayFor(country, assetId, onDisk, read, log10).info.pixelData ==>
        exists i: nat, j: nat :: i < L.Height() && j < L.Cols() && L.exposure[i][j] > 0.0 && x == OriginalSample(L, scene.xy, i, j)
  {
    var scene := read(country, assetId).value;
    var L := scene.layers;
    var sf := ScaleFactor(L.Height(), L.Cols());
    var d := DisplayLayers(L);
    SamplesAreOriginalCells(L, sf, HoverRate(d.Height(), d.Cols()), scene.xy);
  }

  /** create_overlay_for_asset: the record of OverlayFor and, when it is
      generated, the PNG: a fresh image of the downsampled shape whose
      positive cells have their five-band colour and whose other cells are
      transparent black. */
  method CreateOverlayForAsset(country: string, assetId: string, onDisk: set<string>,
                               read: (string, string) -> Result<Scene>, log10: real -> real)
    returns (outcome: Outcome, png: Option<array2<Rgba>>)
    requires ScenesAligned(read) && LogLike(log10)
    ensures outcome == OverlayFor(country, assetId, onDisk, read, log10)
    ensures png.Some? <==> outcome.Generated?
    ensures png.Some? ==>
      var d := DisplayLayers(read(country, assetId).value.layers);
      var m := outcome.info.maxExposure;
      var img := png.value;
      fresh(img) && img.Length0 == d.Height() && img.Length1 == d.Cols()
      && log10(m + 1.0) > 0.0
      && forall i, j :: 0 <= i < img.Length0 && 0 <= j < img.Length1 ==>
           img[i, j] == FiveBandCell(d.exposure[i][j], m, log10)
  {
    var tag := Tag(country, assetId);
    png := None;
    if !InputsPresent(country, assetId, onDisk) {
      return Skipped("Missing files for " + tag), png;
    }
    if "overlays/" + PngName(country, assetId) in onDisk {
      return Skipped("Overlay already exists for " + tag), png;
    }
    match read(country, assetId)
    case Err(m) =>
      outcome := Skipped("Error processing " + tag + ": " + m);
    case Ok(scene) =>
      var sf := ScaleFactor(scene.layers.Height(), scene.layers.Cols());
      var d := DisplayLayers(scene.layers);
      if |Cells(d.exposure)| == 0 {
        outcome := Skipped("Error processing " + tag + ": zero-size array to reduction operation maximum which has no identity");
      } else {
        var m := MaxCell(d.exposure);
        if m <= 0.0 {
          outcome := Skipped("No exposure data for " + tag);
        } else {
          LogPositive(log10, m + 1.0);
          var img := Paint(d.exposure, v => FiveBandCell(v, m, log10), true);
          png := Some(img);
          var pixels := SamplePixels(d, HoverRate(d.Height(), d.Cols()), sf, scene.xy);
          outcome := Generated(OverlayInfo(PngName(country, assetId), scene.bounds, m, pixels, FiveBand));
        }
      }
  }

  /** main's loop, one asset at a time in list order; the overlays are
      attached as in RunOverlays, and `overlay_count` is counted on the
      results. */
  method GenerateAll(assets: seq<Asset>, onDisk: set<string>,
                     read: (string, string) -> Result<Scene>, log10: real -> real)
    returns (results: seq<Asset>, errors: seq<string>, overlayCount: nat)
    requires ScenesAligned(read) && LogLike(log10)
    ensures var run := RunOverlays(assets, onDisk, (c, id, disk) => OverlayFor(c, id, disk, read, log10));
      results == run.results && errors == run.errors
    ensures overlayCount == OverlayCount(results)
  {
    ghost var create := (c, id, disk) => OverlayFor(c, id, disk, read, log10);
    results, errors := [], [];
    var disk := onDisk;
    ghost var generated := 0;
    for k := 0 to |assets|
      invariant OverlayRun(results, errors, disk, generated) == RunOverlays(assets[..k], onDisk, create)
    {
      var asset := assets[k];
      assert assets[..k + 1][..k] == assets[..k];
      var outcome, _ := CreateOverlayForAsset(asset.country, asset.assetId, disk, read, log10);
      if outcome.Generated? {
        results := results + [asset.(overlay := Some(outcome.info))];
        disk := disk + {"overlays/" + outcome.info.pngFile};
        generated := generated + 1;
      } else {
        errors := errors + [outcome.message];
        results := results + [asset];
      }
    }
    assert assets[..|assets|] == assets;
    overlayCount := CountOverlays(results);
  }
}
