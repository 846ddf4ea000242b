/** test_overlay.py: one five-band overlay for the BRA asset 1566447 and
    its attachment to the first matching entry of `assets.json`. */
module TestOverlay {
  import opened Records
  import opened Grids
  import opened Palette

  const TestCountry := "BRA"
  const TestAssetId := "1566447"

  /** create_simple_overlay's record. Nothing is skipped: the maximum is
      taken over every downsampled cell and may be zero or negative; only
      an empty raster makes `np.max` raise. */
  function SimpleOverlay(scene: Scene, pngFile: string): (r: Result<OverlayInfo>)
    requires scene.layers.Aligned()
    ensures var d := DisplayLayers(scene.layers);
      r.Ok? <==> |Cells(d.exposure)| > 0
    ensures r.Ok? ==>
      var d := DisplayLayers(scene.layers);
      var sf := ScaleFactor(scene.layers.Height(), scene.layers.Cols());
      r.value.pngFile == pngFile && r.value.bounds == scene.bounds && r.value.style == FiveBand
      && (forall i, j :: 0 <= i < d.Height() && 0 <= j < d.Cols() ==> d.exposure[i][j] <= r.value.maxExposure)
      && (exists i, j :: 0 <= i < d.Height() && 0 <= j < d.Cols() && d.exposure[i][j] == r.value.maxExposure)
      && r.value.pixelData == SampledPixels(d, HoverRate(d.Height(), d.Cols()), sf, scene.xy)
  {
    var sf := ScaleFactor(scene.layers.Height(), scene.layers.Cols());
    var d := DisplayLayers(scene.layers);
    if |Cells(d.exposure)| == 0 then Err("zero-size array to reduction operation maximum which has no identity")
    else
      var pixels := SampledPixels(d, HoverRate(d.Height(), d.Cols()), sf, scene.xy);
      Ok(OverlayInfo(pngFile, scene.bounds, MaxCell(d.exposure), pixels, FiveBand))
  }

  /** A raster without exposure still gets an overlay, with no hover
      entries. */
  lemma NoExposureNoSamples(scene: Scene, pngFile: string)
    requires scene.layers.Aligned() && SimpleOverlay(scene, pngFile).Ok?
    requires SimpleOverlay(scene, pngFile).value.maxExposure <= 0.0
    ensures SimpleOverlay(scene, pngFile).value.pixelData == []
  {
    var d := DisplayLayers(scene.layers);
    var sf := ScaleFactor(scene.layers.Height(), scene.layers.Cols());
    var rate := HoverRate(d.Height(), d.Cols());
    SampledPixelsExactly(d, rate, sf, scene.xy);
    NoMemberIsEmpty(SimpleOverlay(scene, pngFile).value.pixelData);
  }

  /** A sequence with no members is empty. */
  lemma NoMemberIsEmpty(s: seq<PixelSample>)
    requires forall x :: x !in s
    ensures s == []
  {
    if s != [] {
      HeadIsMember(s);
      assert false;
    }
  }

  /** The first element of a non-empty sequence is a member of it. */
  lemma HeadIsMember(s: seq<PixelSample>)
    requires s != []
    ensures s[0] in s
  {
  }

  /** create_simple_overlay: the record and, when there is one, the PNG:
      positive cells have their five-band colour, the others stay
      transparent black. */
  method CreateSimpleOverlay(scene: Scene, pngFile: string, log10: real -> real)
    returns (r: Result<OverlayInfo>, png: Option<array2<Rgba>>)
    requires scene.layers.Aligned() && LogLike(log10)
    ensures r == SimpleOverlay(scene, pngFile)
    ensures png.Some? <==> r.Ok?
    ensures png.Some? ==>
      var d := DisplayLayers(scene.layers);
      var m := r.value.maxExposure;
      var img := png.value;
      fresh(img) && img.Length0 == d.Height() && img.Length1 == d.Cols()
      && (forall i, j :: 0 <= i < img.Length0 && 0 <= j < img.Length1 && d.exposure[i][j] <= 0.0 ==>
            img[i, j] == Clear)
      && (forall i, j :: 0 <= i < img.Length0 && 0 <= j < img.Length1 && d.exposure[i][j] > 0.0 ==>
            log10(m + 1.0) > 0.0 && img[i, j] == FiveBandCell(d.exposure[i][j], m, log10))
  {
    var sf := ScaleFactor(scene.layers.Height(), scene.layers.Cols());
    var d := DisplayLayers(scene.layers);
    png := None;
    if |Cells(d.exposure)| == 0 {
      return Err("zero-size array to reduction operation maximum which has no identity"), png;
    }
    var m := MaxCell(d.exposure);
    var img;
    if m > 0.0 {
      LogPositive(log10, m + 1.0);
      img := Paint(d.exposure, v => FiveBandCell(v, m, log10), true);
    } else {
      img := Paint(d.exposure, v => Clear, true);
    }
    png := Some(img);
    var pixels := SamplePixels(d, HoverRate(d.Height(), d.Cols()), sf, scene.xy);
    r := Ok(OverlayInfo(pngFile, scene.bounds, m, pixels, FiveBand));
  }

  predicate IsTestAsset(a: Asset) {
    a.assetId == TestAssetId && a.country == TestCountry
  }

  /** The index of the first test asset, if any. */
  function FirstTestAsset(assets: seq<Asset>): (r: Option<nat>)
    ensures r.Some? ==> (r.value < |assets| && IsTestAsset(assets[r.value])
                         && forall k :: 0 <= k < r.value ==> !IsTestAsset(assets[k]))
    ensures r.None? ==> forall k :: 0 <= k < |assets| ==> !IsTestAsset(assets[k])
  {
    if |assets| == 0 then None
    else if IsTestAsset(assets[0]) then Some(0)
    else match FirstTestAsset(assets[1..])
      case None => None
      case Some(k) => Some(k + 1)
  }

  /** The search loop of main: the first test asset gets `overlay`, in
      place, and the loop stops; every other entry is untouched. */
  method AttachToFirstTestAsset(assets: array<Asset>, info: OverlayInfo)
    modifies assets
    ensures forall k :: 0 <= k < assets.Length ==>
      assets[k] == if FirstTestAsset(old(assets[..])) == Some(k) then old(assets[k]).(overlay := Some(info)) else old(assets[k])
  {
    ghost var original := assets[..];
    for k := 0 to assets.Length
      invariant assets[..] == original
      invariant forall n :: 0 <= n < k ==> !IsTestAsset(assets[n])
    {
      if assets[k].assetId == TestAssetId && assets[k].country == TestCountry {
        assets[k] := assets[k].(overlay := Some(info));
        assert FirstTestAsset(original) == Some(k);
        return;
      }
    }
    assert FirstTestAsset(original) == None;
  }

  /** main: with all three inputs present, the overlay is made and
      attached to the first test asset; with one missing, or when making
      the overlay raises, `assets.json` is left as it was. */
  method AddTestOverlay(assets: array<Asset>, onDisk: set<string>, read: (string, string) -> Result<Scene>, log10: real -> real)
    returns (png: Option<array2<Rgba>>)
    requires ScenesAligned(read) && LogLike(log10)
    modifies assets
    ensures !InputsPresent(TestCountry, TestAssetId, onDisk) ==> png.None? && assets[..] == old(assets[..])
    ensures InputsPresent(TestCountry, TestAssetId, onDisk) && read(TestCountry, TestAssetId).Err? ==>
      png.None? && assets[..] == old(assets[..])
    ensures InputsPresent(TestCountry, TestAssetId, onDisk) && read(TestCountry, TestAssetId).Ok? ==>
      var made := SimpleOverlay(read(TestCountry, TestAssetId).value, PngName(TestCountry, TestAssetId));
      (made.Err? ==> png.None? && assets[..] == old(assets[..]))
      && (made.Ok? ==> png.Some? && forall k :: 0 <= k < assets.Length ==>
            assets[k] == if FirstTestAsset(old(assets[..])) == Some(k) then old(assets[k]).(overlay := Some(made.value)) else old(assets[k]))
  {
    png := None;
    if !InputsPresent(TestCountry, TestAssetId, onDisk) {
      return;
    }
    match read(TestCountry, TestAssetId)
    case Err(_) =>
    case Ok(scene) =>
      var made, image := CreateSimpleOverlay(scene, PngName(TestCountry, TestAssetId), log10);
      if made.Ok? {
        png := image;
        AttachToFirstTestAsset(assets, made.value);
      }
  }
}
