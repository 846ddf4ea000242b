/** export_raw_data.py: the raw-data record written next to each overlay
    (downsampled layers, their dimensions and summary statistics), the
    reasons an asset is skipped, and the pass over `assets.json` that
    records which assets gained a raw-data file. */
module ExportRawData {
  import opened Records
  import opened Grids

  /** What reading the three rasters of an asset yields: the layers, the
      exposure raster's bounds and its affine transform. */
  datatype Raster = Raster(layers: Layers, bounds: Bounds, transform: seq<real>)

  datatype Dimensions = Dimensions(width: nat, height: nat)

  datatype RawStats = RawStats(maxExposure: real, minExposure: real, maxConcentration: real, maxPopulation: real)

  /** The JSON document written to `raw_data/<country>_<asset_id>_raw.json`. */
  datatype RawRecord = RawRecord(
    assetId: string, country: string, dimensions: Dimensions, bounds: Bounds,
    transform: seq<real>, data: Layers, stats: RawStats)

  /** The record, or the message explaining why there is none. */
  datatype Outcome = Exported(record: RawRecord) | Skipped(message: string)

  function OutputPath(country: string, assetId: string): string {
    "raw_data/" + Tag(country, assetId) + "_raw.json"
  }

  /** The values a reading must have for the record to be sound: the
      three rasters share one rectangular shape. */
  ghost predicate ReadsAligned(read: (string, string) -> Result<Raster>) {
    forall c, id :: read(c, id).Ok? ==> read(c, id).value.layers.Aligned()
  }

  /** export_raw_exposure_data, with `onDisk` the paths that exist and
      `read` what reading an asset's rasters gives (or the exception). */
  function ExportRawExposureData(country: string, assetId: string, onDisk: set<string>,
                                 read: (string, string) -> Result<Raster>): (r: Outcome)
    requires ReadsAligned(read)
    ensures !InputsPresent(country, assetId, onDisk) ==> r == Skipped("Missing files for " + Tag(country, assetId))
    ensures InputsPresent(country, assetId, onDisk) && OutputPath(country, assetId) in onDisk ==>
      r == Skipped("Raw data already exists for " + Tag(country, assetId))
    ensures InputsPresent(country, assetId, onDisk) && OutputPath(country, assetId) !in onDisk ==>
      match read(country, assetId)
      case Err(m) => r == Skipped("Error processing " + Tag(country, assetId) + ": " + m)
      case Ok(raw) => r == ExportRaster(country, assetId, raw)
  {
    var tag := Tag(country, assetId);
    if !InputsPresent(country, assetId, onDisk) then Skipped("Missing files for " + tag)
    else if OutputPath(country, assetId) in onDisk then Skipped("Raw data already exists for " + tag)
    else match read(country, assetId)
      case Err(m) => Skipped("Error processing " + tag + ": " + m)
      case Ok(raw) => ExportRaster(country, assetId, raw)
  }

  /** The export of one raster that was read: the record of the layers
      sliced by the scale factor, with their statistics, or the reason
      there is none. */
  function ExportRaster(country: string, assetId: string, raw: Raster): (r: Outcome)
    requires raw.layers.Aligned()
    ensures var cells := Cells(DisplayLayers(raw.layers).exposure);
      r.Exported? <==> |cells| > 0 && exists x :: x in cells && x > 0.0
    ensures r.Skipped? && |Cells(DisplayLayers(raw.layers).exposure)| == 0 ==>
      r.message == "Error processing " + Tag(country, assetId) + ": zero-size array to reduction operation maximum which has no identity"
    ensures r.Skipped? && |Cells(DisplayLayers(raw.layers).exposure)| > 0 ==>
      r.message == "No exposure data for " + Tag(country, assetId)
    ensures r.Exported? ==>
      var rec := r.record;
      var s := ScaleFactor(raw.layers.Height(), raw.layers.Cols());
      rec.assetId == assetId && rec.country == country
      && rec.bounds == raw.bounds && rec.transform == raw.transform
      && rec.data == DisplayLayers(raw.layers)
      && rec.data.Aligned()
      && IsRect(rec.data.exposure, rec.dimensions.height, rec.dimensions.width)
      && rec.dimensions.height == CeilDiv(raw.layers.Height(), s)
      && rec.dimensions.width == CeilDiv(raw.layers.Cols(), s)
    ensures r.Exported? ==>
      var st := r.record.stats;
      var cells := Cells(r.record.data.exposure);
      0.0 < st.minExposure <= st.maxExposure
      && st.maxExposure in cells && (forall x :: x in cells ==> x <= st.maxExposure)
      && st.minExposure in cells && (forall x :: x in cells && x > 0.0 ==> st.minExposure <= x)
  {
    var tag := Tag(country, assetId);
    var data := DisplayLayers(raw.layers);
    var cells := Cells(data.exposure);
    if |cells| == 0 then
      Skipped("Error processing " + tag + ": zero-size array to reduction operation maximum which has no identity")
    else
      var maxExposure := Max(cells);
      if maxExposure <= 0.0 then Skipped("No exposure data for " + tag)
      else
        EveryCellOfAligned(data);
        var stats := RawStats(maxExposure, MinPositive(cells),
                              Max(Cells(data.concentration)), Max(Cells(data.population)));
        Exported(RawRecord(assetId, country, Dimensions(data.Cols(), data.Height()), raw.bounds,
                           raw.transform, data, stats))
  }

  /** Aligned layers with an exposure cell have cells in every layer. */
  lemma EveryCellOfAligned(L: Layers)
    requires L.Aligned() && |Cells(L.exposure)| > 0
    ensures |Cells(L.concentration)| > 0 && |Cells(L.population)| > 0
  {
    var i :| 0 <= i < |L.exposure| && |L.exposure[i]| != 0;
    assert |L.concentration[i]| != 0 && |L.population[i]| != 0;
  }

  /** Every stored cell is the source cell at the scaled position: row i,
      column j of each stored layer is row i*sf, column j*sf of the raster
      read. */
  lemma StoredCellsAreStrided(country: string, assetId: string, raw: Raster, i: nat, j: nat)
    requires raw.layers.Aligned()
    requires ExportRaster(country, assetId, raw).Exported?
    requires i < ExportRaster(country, assetId, raw).record.dimensions.height
    requires j < ExportRaster(country, assetId, raw).record.dimensions.width
    ensures var L := raw.layers;
      var rec := ExportRaster(country, assetId, raw).record;
      var s := ScaleFactor(L.Height(), L.Cols());
      Step(i, s) < L.Height() && Step(j, s) < L.Cols()
      && rec.data.exposure[i][j] == L.exposure[Step(i, s)][Step(j, s)]
      && rec.data.concentration[i][j] == L.concentration[Step(i, s)][Step(j, s)]
      && rec.data.population[i][j] == L.population[Step(i, s)][Step(j, s)]
  {
    var L := raw.layers;
    var s := ScaleFactor(L.Height(), L.Cols());
    var d := L.Downsampled(s);
    assert d == DisplayLayers(L);
    assert i < |d.exposure| && j < |d.exposure[i]|;
    assert Step(i, s) < |L.exposure| && Step(j, s) < |L.exposure[Step(i, s)]|;
  }

  // ---------------------------------------------------------------------
  // main: the pass over assets.json

  /** `raw_data_file` of an exported asset. */
  function RawFileName(a: Asset): string { Tag(a.country, a.assetId) + "_raw.json" }

  /** The state after some assets: the `results` and `errors` lists, the
      paths that exist, and how many records were exported. */
  datatype Run = Run(results: seq<Asset>, errors: seq<string>, onDisk: set<string>, exported: nat)

  /** One iteration: export the asset; a written record makes its output
      path exist for the assets after it. */
  function Advance(run: Run, a: Asset, read: (string, string) -> Result<Raster>): Run
    requires ReadsAligned(read)
  {
    match ExportRawExposureData(a.country, a.assetId, run.onDisk, read)
    case Exported(_) =>
      Run(run.results + [a.(rawDataFile := Some(RawFileName(a)))], run.errors,
          run.onDisk + {OutputPath(a.country, a.assetId)}, run.exported + 1)
    case Skipped(m) => Run(run.results + [a], run.errors + [m], run.onDisk, run.exported)
  }

  /** The pass over the first assets, in order. */
  function ExportRun(assets: seq<Asset>, onDisk: set<string>, read: (string, string) -> Result<Raster>): Run
    requires ReadsAligned(read)
  {
    if |assets| == 0 then Run([], [], onDisk, 0)
    else Advance(ExportRun(assets[..|assets| - 1], onDisk, read), assets[|assets| - 1], read)
  }

  /** Every asset is kept, in order; an asset either gains the raw-data
      file name and nothing else, or is unchanged with one error logged;
      and exported plus errors count all assets. */
  lemma {:induction false} RunKeepsAssets(assets: seq<Asset>, onDisk: set<string>, read: (string, string) -> Result<Raster>)
    requires ReadsAligned(read)
    ensures var run := ExportRun(assets, onDisk, read);
      |run.results| == |assets| && run.exported + |run.errors| == |assets|
      && (forall k :: 0 <= k < |assets| ==>
            run.results[k] == assets[k] || run.results[k] == assets[k].(rawDataFile := Some(RawFileName(assets[k]))))
  {
    if |assets| > 0 {
      var init, last := assets[..|assets| - 1], assets[|assets| - 1];
      RunKeepsAssets(init, onDisk, read);
      var prev := ExportRun(init, onDisk, read);
      assert ExportRun(assets, onDisk, read) == Advance(prev, last, read);
      AdvanceKeeps(prev, last, read);
      var run := Advance(prev, last, read);
      forall k | 0 <= k < |assets|
        ensures run.results[k] == assets[k] || run.results[k] == assets[k].(rawDataFile := Some(RawFileName(assets[k])))
      {
        if k < |init| {
          assert run.results[k] == prev.results[k] && assets[k] == init[k];
        }
      }
    }
  }

  /** One iteration appends the asset, at most with its raw-data file
      name set, and counts it as exported or logged. */
  lemma AdvanceKeeps(run: Run, a: Asset, read: (string, string) -> Result<Raster>)
    requires ReadsAligned(read)
    ensures var next := Advance(run, a, read);
      |next.results| == |run.results| + 1 && next.results[..|run.results|] == run.results
      && (next.results[|run.results|] == a || next.results[|run.results|] == a.(rawDataFile := Some(RawFileName(a))))
      && next.exported + |next.errors| == run.exported + |run.errors| + 1
  {
  }

  /** Which of the two: an exported asset gains its raw-data file name and
      logs nothing; a skipped one is kept as it was and its message is
      logged. */
  lemma AdvanceFollowsOutcome(run: Run, a: Asset, read: (string, string) -> Result<Raster>)
    requires ReadsAligned(read)
    ensures var next := Advance(run, a, read);
      var o := ExportRawExposureData(a.country, a.assetId, run.onDisk, read);
      |next.results| == |run.results| + 1 && next.results[..|run.results|] == run.results
      && (o.Exported? ==>
         next.results[|run.results|] == a.(rawDataFile := Some(RawFileName(a)))
         && next.errors == run.errors && next.exported == run.exported + 1)
      && (o.Skipped? ==>
         next.results[|run.results|] == a && next.errors == run.errors + [o.message]
         && next.exported == run.exported)
  {
  }

  /** What exporting the k-th asset gives, with the paths that exist once
      the assets before it have been handled. */
  function OutcomeAt(assets: seq<Asset>, k: nat, onDisk: set<string>, read: (string, string) -> Result<Raster>): Outcome
    requires ReadsAligned(read) && k < |assets|
  {
    ExportRawExposureData(assets[k].country, assets[k].assetId, ExportRun(assets[..k], onDisk, read).onDisk, read)
  }

  /** Exactly the exported assets gain `raw_data_file`; every skipped
      asset is kept as it was. */
  lemma {:induction false} RunFollowsOutcomes(assets: seq<Asset>, onDisk: set<string>, read: (string, string) -> Result<Raster>)
    requires ReadsAligned(read)
    ensures var run := ExportRun(assets, onDisk, read);
      |run.results| == |assets|
      && forall k :: 0 <= k < |assets| ==>
           (OutcomeAt(assets, k, onDisk, read).Exported? ==>
              run.results[k] == assets[k].(rawDataFile := Some(RawFileName(assets[k]))))
           && (OutcomeAt(assets, k, onDisk, read).Skipped? ==> run.results[k] == assets[k])
  {
    if |assets| > 0 {
      var init, last := assets[..|assets| - 1], assets[|assets| - 1];
      RunFollowsOutcomes(init, onDisk, read);
      var prev := ExportRun(init, onDisk, read);
      assert ExportRun(assets, onDisk, read) == Advance(prev, last, read);
      AdvanceFollowsOutcome(prev, last, read);
      var run := Advance(prev, last, read);
      forall k | 0 <= k < |assets|
        ensures (OutcomeAt(assets, k, onDisk, read).Exported? ==>
                   run.results[k] == assets[k].(rawDataFile := Some(RawFileName(assets[k]))))
                && (OutcomeAt(assets, k, onDisk, read).Skipped? ==> run.results[k] == assets[k])
      {
        if k < |init| {
          assert assets[..k] == init[..k];
          assert OutcomeAt(assets, k, onDisk, read) == OutcomeAt(init, k, onDisk, read);
          assert run.results[k] == prev.results[k] && assets[k] == init[k];
        } else {
          assert assets[..k] == init;
        }
      }
    }
  }

  /** Only paths of written records are added to what exists. */
  lemma {:induction false} RunWritesOutputs(assets: seq<Asset>, onDisk: set<string>, read: (string, string) -> Result<Raster>)
    requires ReadsAligned(read)
    ensures var run := ExportRun(assets, onDisk, read);
      onDisk <= run.onDisk
      && forall p :: p in run.onDisk - onDisk ==> exists a :: a in assets && p == OutputPath(a.country, a.assetId)
  {
    if |assets| > 0 {
      var init, last := assets[..|assets| - 1], assets[|assets| - 1];
      RunWritesOutputs(init, onDisk, read);
      var prev := ExportRun(init, onDisk, read);
      var run := Advance(prev, last, read);
      assert ExportRun(assets, onDisk, read) == run;
      assert run.onDisk == prev.onDisk || run.onDisk == prev.onDisk + {OutputPath(last.country, last.assetId)};
      forall p | p in run.onDisk - onDisk
        ensures exists a :: a in assets && p == OutputPath(a.country, a.assetId)
      {
        if p in prev.onDisk - onDisk {
          var a :| a in init && p == OutputPath(a.country, a.assetId);
          assert a in assets;
        } else {
          assert p == OutputPath(last.country, last.assetId);
          assert last in assets;
        }
      }
    }
  }

  /** Two assets with the same country and id: the second finds the first
      one's record on disk and is skipped. */
  lemma SecondCopySkipped(a: Asset, onDisk: set<string>, read: (string, string) -> Result<Raster>)
    requires ReadsAligned(read)
    requires ExportRawExposureData(a.country, a.assetId, onDisk, read).Exported?
    ensures var run := ExportRun([a, a], onDisk, read);
      run.exported == 1 && run.errors == ["Raw data already exists for " + Tag(a.country, a.assetId)]
  {
    assert [a, a][..1] == [a];
    assert [a][..0] == [];
    var first := Advance(Run([], [], onDisk, 0), a, read);
    assert ExportRun([a], onDisk, read) == first;
    assert first.onDisk == onDisk + {OutputPath(a.country, a.assetId)} && first.exported == 1 && first.errors == [];
    assert ExportRawExposureData(a.country, a.assetId, first.onDisk, read)
      == Skipped("Raw data already exists for " + Tag(a.country, a.assetId));
  }

  /** main's loop, one asset at a time in list order. */
  method ExportAll(assets: seq<Asset>, onDisk: set<string>, read: (string, string) -> Result<Raster>)
    returns (results: seq<Asset>, errors: seq<string>)
    requires ReadsAligned(read)
    ensures var run := ExportRun(assets, onDisk, read);
      results == run.results && errors == run.errors
  {
    results, errors := [], [];
    var disk := onDisk;
    ghost var exported := 0;
    for k := 0 to |assets|
      invariant Run(results, errors, disk, exported) == ExportRun(assets[..k], onDisk, read)
    {
      var asset := assets[k];
      assert assets[..k + 1][..k] == assets[..k];
      var outcome := ExportRawExposureData(asset.country, asset.assetId, disk, read);
      if outcome.Exported? {
        asset := asset.(rawDataFile := Some(RawFileName(asset)));
        results := results + [asset];
        disk := disk + {OutputPath(asset.country, asset.assetId)};
        exported := exported + 1;
      } else {
        errors := errors + [outcome.message];
        results := results + [asset];
      }
    }
    assert assets[..|assets|] == assets;
  }
}
