/**
 `Pipeline`: the address record it is built from, the `None`-returning branches
 of the two footprint lookups, the derived `.las` and output paths, and
 `run_pipeline`, a linear sequence of stages with early exits. HTTP replies,
 reprojection and bounding boxes, downloads and PDAL execution enter as
 abstract outcomes and parameters.
 */
module Pipeline {
  import opened Wrappers
  import opened Text
  import opened Tiles
  import opened Pdal
  import opened Downloader

  /** The address a pipeline is built for. */
  datatype Address = Address(city: string, street: string, houseNumber: string, zipCode: string)

  /** A shapely polygon, known here only through its WKT text (`str(geom)`). */
  datatype Geometry = Geometry(wkt: string)

  /** The geographic CRS the footprint service answers in. */
  const UniversalCrs: string := "EPSG:4326"

  /** The directory the cutouts are written to. */
  const OutputDir: string := "intersection_cutout"

  /** `Pipeline.__init__` reads the four address fields; a missing key is a `KeyError`. */
  function PipelineAddress(address: map<string, string>): (a: Option<Address>)
    ensures a.Some? <==> "city" in address && "street" in address && "house_number" in address && "zip_code" in address
    ensures a.Some? ==>
      && a.value.city == address["city"] && a.value.street == address["street"]
      && a.value.houseNumber == address["house_number"] && a.value.zipCode == address["zip_code"]
  {
    if "city" in address && "street" in address && "house_number" in address && "zip_code" in address then
      Some(Address(address["city"], address["street"], address["house_number"], address["zip_code"]))
    else None
  }

  /** The query parameters of the building lookup (`PageNumber` is always 1). */
  function BuildingQueryParams(a: Address): (params: map<string, string>)
    ensures params.Keys == {"City", "Street", "HouseNumber", "ZipCode", "PageNumber"}
    ensures params["City"] == a.city && params["Street"] == a.street
    ensures params["HouseNumber"] == a.houseNumber && params["ZipCode"] == a.zipCode
    ensures params["PageNumber"] == "1"
  {
    map["City" := a.city, "Street" := a.street, "HouseNumber" := a.houseNumber,
        "ZipCode" := a.zipCode, "PageNumber" := "1"]
  }

  /** The `GeomId` and `GeomType` query values of the footprint URL, as `parse_qs` found them. */
  datatype FootprintUrl = FootprintUrl(geomId: Option<string>, geomType: Option<string>)

  /** The geometry service's reply: its status and the `geometryAsWKT` entry, if present. */
  datatype GeometryReply = GeometryReply(status: int, geometryAsWkt: Option<string>)

  /** The first building of a lookup reply: its footprint URL and address state. */
  datatype BuildingRecord = BuildingRecord(footprintUrl: FootprintUrl, state: string)

  /** The building service's reply: its status and the `buildings` list, if present. */
  datatype BuildingsReply = BuildingsReply(status: int, buildings: Option<seq<BuildingRecord>>)

  /** Python truthiness of an optional string: present and non-empty. */
  predicate Truthy(v: Option<string>) {
    v.Some? && v.value != ""
  }

  /** `fetch_building_footprint_geometry`: `None` unless both ids are truthy, the
      service answers 200 and the reply carries `geometryAsWKT`. */
  function FetchBuildingFootprintGeometry(url: FootprintUrl, reply: GeometryReply): (g: Option<Geometry>)
    ensures g.Some? <==> Truthy(url.geomId) && Truthy(url.geomType) && reply.status == 200 && reply.geometryAsWkt.Some?
    ensures g.Some? ==> g.value.wkt == reply.geometryAsWkt.value
  {
    if !Truthy(url.geomId) || !Truthy(url.geomType) then None
    else if reply.status != 200 then None
    else match reply.geometryAsWkt
      case None => None
      case Some(text) => Some(Geometry(text))
  }

  /** `query_building_polygon`: a pair (footprint, state) for the first building,
      or a bare `None` (not a pair) on a non-200 status or no buildings. */
  function QueryBuildingPolygon(reply: BuildingsReply, geometry: GeometryReply): (q: Option<(Option<Geometry>, string)>)
    ensures q.None? <==> reply.status != 200 || reply.buildings.None? || |reply.buildings.value| == 0
    ensures q.Some? ==> q.value.1 == reply.buildings.value[0].state
    ensures q.Some? ==> q.value.0 == FetchBuildingFootprintGeometry(reply.buildings.value[0].footprintUrl, geometry)
  {
    if reply.status == 200 then
      match reply.buildings
      case Some(bs) =>
        if |bs| > 0 then Some((FetchBuildingFootprintGeometry(bs[0].footprintUrl, geometry), bs[0].state))
        else None
      case None => None
    else None
  }

  /** The `.las` sibling of a downloaded tile: the text before the first `.` plus
      `.las` when `.laz` occurs in the path, otherwise the empty string. */
  function LasPath(tilePath: string): (r: string)
    ensures r == "" <==> !Contains(tilePath, ".laz")
    ensures r != "" ==>
      && |r| >= 4
      && var k := |r| - 4;
      && r[k..] == ".las"
      && k < |tilePath| && r[..k] == tilePath[..k] && '.' !in r[..k] && tilePath[k] == '.'
  {
    if Contains(tilePath, ".laz") then
      assert '.' in tilePath by {
        var i :| OccursAt(tilePath, ".laz", i);
        assert tilePath[i] == tilePath[i..i + 4][0];
      }
      BeforeFirst(tilePath, '.') + ".las"
    else ""
  }

  /** The cutout path: `intersection_cutout/{street} {house_number} {zip_code} {city}-intersection.las`. */
  function OutputPath(a: Address): (p: string)
    ensures |p| >= |OutputDir| + 1 + 3 + 17
    ensures p[..|OutputDir| + 1] == OutputDir + "/"
    ensures p[|p| - 17..] == "-intersection.las"
  {
    OutputDir + "/" + a.street + " " + a.houseNumber + " " + a.zipCode + " " + a.city + "-intersection.las"
  }

  /** How a run ends. The two `TypeError` crashes of the source are outcomes of their own. */
  datatype RunOutcome =
    | UnpackFailed                         // `building_geom, state_name = None`
    | NoBuildingGeometry                   // logged: failed to get the building geometry
    | NoStateConfig(stateName: string)     // logged: no configuration for the state
    | NoTileFound                          // logged: no LiDAR tile covers the footprint
    | DownloadRaised(download: Download)       // the body stream raised inside `download_any_file`
    | DownloadPathMissing(download: Download)  // `'.laz' in None` after a failed download
    | Completed(download: Download, lasPath: string, conversion: Description,
                outputPath: string, cutout: Description)

  /** The run reached the downloader. */
  predicate Downloaded(o: RunOutcome) {
    o.DownloadRaised? || o.DownloadPathMissing? || o.Completed?
  }

  /** `run_pipeline`. `bounds(geom, crs)` stands for reprojecting the footprint
      into `crs` and truncating its bounds; `reproject(from, to, wkt)` for the
      crop polygon's transform; `files`, `transfer` and `unzip` for the cache
      directory, the network and the archive. */
  function RunPipeline(a: Address, config: map<string, StateConfig>,
                       query: Option<(Option<Geometry>, string)>,
                       bounds: (Geometry, string) -> Bounds,
                       files: set<string>, transfer: Transfer, unzip: Unzip,
                       reproject: (string, string, string) -> string): (o: RunOutcome)
    ensures o.UnpackFailed? <==> query.None?
    ensures o.NoBuildingGeometry? <==> query.Some? && query.value.0.None?
    ensures o.NoStateConfig? <==> query.Some? && query.value.0.Some? && query.value.1 !in config
    ensures o.NoTileFound? <==>
      && query.Some? && query.value.0.Some? && query.value.1 in config
      && RuleFor(config[query.value.1].stateName).None?
    ensures Downloaded(o) ==>
      var cfg := config[query.value.1];
      var tile := TileFileName(bounds(query.value.0.value, cfg.epsg), cfg.stateName, cfg.sourceExt);
      o.download == DownloadAnyFile(cfg, tile, files, transfer, unzip)
    ensures o.DownloadRaised? <==> Downloaded(o) && o.download.raised
    ensures o.DownloadPathMissing? <==> Downloaded(o) && o.download.path.None? && !o.download.raised
    ensures o.Completed? ==>
      var cfg := config[query.value.1];
      && o.lasPath == LasPath(o.download.path.value)
      && o.conversion == ConversionDescription(o.download.path.value, o.lasPath, cfg.epsg)
      && o.outputPath == OutputPath(a)
      && o.cutout == CropDescription(o.lasPath, o.outputPath, cfg.epsg, UniversalCrs, query.value.0.value.wkt, reproject)
  {
    match query
    case None => UnpackFailed
    case Some((geom, stateName)) =>
      if geom.None? then NoBuildingGeometry
      else if stateName !in config then NoStateConfig(stateName)
      else
        var cfg := config[stateName];
        var tileFileName := TileFileName(bounds(geom.value, cfg.epsg), cfg.stateName, cfg.sourceExt);
        if tileFileName == "" then NoTileFound
        else
          var d := DownloadAnyFile(cfg, tileFileName, files, transfer, unzip);
          if d.raised then DownloadRaised(d)
          else match d.path
          case None => DownloadPathMissing(d)
          case Some(localTilePath) =>
            var lasFilePath := LasPath(localTilePath);
            var conversion := ConversionDescription(localTilePath, lasFilePath, cfg.epsg);
            var outputLasPath := OutputPath(a);
            var cutout := CropDescription(lasFilePath, outputLasPath, cfg.epsg, UniversalCrs, geom.value.wkt, reproject);
            Completed(d, lasFilePath, conversion, outputLasPath, cutout)
  }

  /** No download is attempted exactly when the run stops at one of the early
      exits: no pair, no geometry, an unconfigured state, or no naming rule. */
  lemma StopsBeforeDownload(a: Address, config: map<string, StateConfig>,
                            query: Option<(Option<Geometry>, string)>,
                            bounds: (Geometry, string) -> Bounds,
                            files: set<string>, transfer: Transfer, unzip: Unzip,
                            reproject: (string, string, string) -> string)
    ensures var o := RunPipeline(a, config, query, bounds, files, transfer, unzip, reproject);
      !Downloaded(o) <==>
        (|| query.None?
         || query.value.0.None?
         || query.value.1 !in config
         || RuleFor(config[query.value.1].stateName).None?)
  {
  }

  /** A run that finds its state's naming rule and gets the tile delivered completes;
      its conversion writes the very file the crop reads, both in the state's CRS,
      and the crop writes the address's cutout path. */
  lemma StagesChain(a: Address, config: map<string, StateConfig>,
                    query: Option<(Option<Geometry>, string)>,
                    bounds: (Geometry, string) -> Bounds,
                    files: set<string>, transfer: Transfer, unzip: Unzip,
                    reproject: (string, string, string) -> string)
    requires query.Some? && query.value.0.Some? && query.value.1 in config
    requires RuleFor(config[query.value.1].stateName).Some?
    requires transfer.Delivered?
    ensures var o := RunPipeline(a, config, query, bounds, files, transfer, unzip, reproject);
      && o.Completed?
      && Linear(o.conversion) && Linear(o.cutout)
      && Source(o.conversion) == o.download.path.value
      && Sink(o.conversion) == Source(o.cutout) == o.lasPath
      && Sink(o.cutout) == OutputPath(a)
      && o.conversion.stages[0].spatialReference == o.cutout.stages[0].spatialReference == config[query.value.1].epsg
  {
  }

  /** A lookup reply without buildings makes the pipeline crash on unpacking
      rather than reach its logged abort; nothing is downloaded. */
  lemma NoBuildingsCrashesOnUnpack(a: Address, config: map<string, StateConfig>,
                                   reply: BuildingsReply, geometry: GeometryReply,
                                   bounds: (Geometry, string) -> Bounds,
                                   files: set<string>, transfer: Transfer, unzip: Unzip,
                                   reproject: (string, string, string) -> string)
    requires reply.status != 200 || reply.buildings == Some([])
    ensures RunPipeline(a, config, QueryBuildingPolygon(reply, geometry), bounds, files, transfer, unzip, reproject)
      == UnpackFailed
  {
  }

  /** A `.laz` tile whose path has no other `.` converts to its `.las` sibling. */
  lemma LasPathOfLazTile(stem: string)
    requires '.' !in stem
    ensures LasPath(stem + ".laz") == stem + ".las"
  {
    assert OccursAt(stem + ".laz", ".laz", |stem|) by {
      assert (stem + ".laz")[|stem|..|stem| + 4] == ".laz";
    }
    BeforeFirstAppend(stem, '.', ".laz");
    assert BeforeFirst(".laz", '.') == "" by {
      assert Split(".laz", '.')[0] == "";
    }
  }

  /** A tile path without `.laz` leaves the `.las` path empty. */
  lemma LasPathEmptyWithoutLaz(tilePath: string)
    requires forall i :: !OccursAt(tilePath, ".laz", i)
    ensures LasPath(tilePath) == ""
  {
  }

  /** With no `/` in the address fields the cutout lands directly in the output
      directory, under a name ending in `-intersection.las`. */
  lemma OutputPathInOutputDir(a: Address)
    requires '/' !in a.street && '/' !in a.houseNumber && '/' !in a.zipCode && '/' !in a.city
    ensures var name := a.street + " " + a.houseNumber + " " + a.zipCode + " " + a.city + "-intersection.las";
      Split(OutputPath(a), '/') == [OutputDir, name]
  {
    var name := a.street + " " + a.houseNumber + " " + a.zipCode + " " + a.city + "-intersection.las";
    assert '/' !in name;
    assert '/' !in OutputDir;
    assert OutputPath(a) == OutputDir + ['/'] + name;
    SplitNoSeparator(name, '/');
    SplitConcat(OutputDir, '/', name);
  }
}
