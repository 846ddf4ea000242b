/** The records that the pipeline scripts pass around and store in
    `assets.json`, the overlay JSON files and the raw-data JSON files, reduced to the keys
    that the modelled code reads or writes. */
module Records {

  datatype Option<+T> = None | Some(value: T)

  /** A value, or the message of the exception that replaced it. */
  datatype Result<+T> = Ok(value: T) | Err(message: string)

  /** Geographic bounds. `assets.json` names the same four numbers
      left/bottom/right/top; overlays and raw data call them
      west/south/east/north. */
  datatype Bounds = Bounds(north: real, south: real, east: real, west: real)

  /** One 8-bit RGBA pixel of an overlay image, channels as Python ints. */
  datatype Rgba = Rgba(r: int, g: int, b: int, a: int)

  /** The cell of `np.zeros((h, w, 4), dtype=np.uint8)`. */
  const Clear := Rgba(0, 0, 0, 0)

  predicate ChannelsInRange(c: Rgba) {
    0 <= c.r <= 255 && 0 <= c.g <= 255 && 0 <= c.b <= 255 && 0 <= c.a <= 255
  }

  /** One hover-tooltip entry of `pixel_data`. */
  datatype PixelSample = PixelSample(lat: real, lon: real, exposure: real, concentration: real, population: real)

  /** What differs between the overlay records of the three generators. */
  datatype OverlayStyle =
    | Heat(crs: string, pixelCount: nat, width: nat, height: nat)  // raster_overlay.py
    | FiveBand                                                      // generate_all_overlays.py, test_overlay.py
    | UniformLog(globalMaxExposure: real)                           // generate_uniform_overlays.py

  /** The value stored under an asset's `overlay` key. */
  datatype OverlayInfo = OverlayInfo(
    pngFile: string,
    bounds: Bounds,
    maxExposure: real,
    pixelData: seq<PixelSample>,
    style: OverlayStyle)

  /** `person_exposure_stats` of an asset. */
  datatype ExposureStats = ExposureStats(
    total: real,
    mean: real,
    maxValue: real,
    minValue: real,
    nonZeroPixels: nat,
    nonZeroMean: real)

  /** The keys `process_asset_pair` writes that the rest of the pipeline only
      carries along. */
  datatype Details = Details(
    centerLon: real,
    centerLat: real,
    totalPixels: nat,
    bounds: Bounds,
    concentrationCounts: seq<nat>,
    populationCounts: seq<nat>,
    exposureCounts: seq<nat>,
    exposureStats: ExposureStats,
    processedDate: string)

  /** One entry of the `assets` list of `assets.json`. */
  datatype Asset = Asset(
    assetId: string,
    country: string,
    scriptVersion: Option<string>,   // 'script_version'; absent in older records
    exposureFile: Option<string>,    // files.person_exposure; null when not saved
    details: Details,
    overlay: Option<OverlayInfo>,    // added by the overlay generators
    rawDataFile: Option<string>)     // added by export_raw_data.py

  // ---------------------------------------------------------------------
  // File layout shared by the overlay and export scripts

  /** `f"{country}_{asset_id}"` */
  function Tag(country: string, assetId: string): string { country + "_" + assetId }

  function ExposurePath(country: string, assetId: string): string {
    "processed/" + Tag(country, assetId) + "_person_exposure.tiff"
  }

  function ConcentrationPath(country: string, assetId: string): string {
    "input_geotiffs/" + country + "/" + assetId + "-v2.tiff"
  }

  function PopulationPath(country: string, assetId: string): string {
    "input_geotiffs/" + country + "/" + assetId + "-pop-v2.tiff"
  }

  /** The PNG an overlay generator writes, relative to `overlays/`. */
  function PngName(country: string, assetId: string): string {
    Tag(country, assetId) + "_overlay.png"
  }

  /** All three input rasters of an asset exist. */
  predicate InputsPresent(country: string, assetId: string, onDisk: set<string>) {
    ExposurePath(country, assetId) in onDisk && ConcentrationPath(country, assetId) in onDisk
    && PopulationPath(country, assetId) in onDisk
  }
}
