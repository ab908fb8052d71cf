# LiDAR building cutout: tile addressing and pipeline control flow

This project models, in Dafny, the core of a small tool that finds a building's
footprint for a street address, works out which LiDAR point-cloud tile of a German
state's data portal covers it, downloads that tile and crops it to the footprint.

What is modelled:

- **Tile addressing** (`Tiles`, from `Pipeline.get_tile_names`). The truncated bounding
  box of the reprojected footprint gives easting indices `int(x) // 100` and northing
  indices `int(y) // 1000`. Every cell of the index rectangle is enumerated as an
  `"e-n"` key, easting outer and northing inner, both ascending. A file name is rendered
  with the Brandenburg, Bayern or Nordrhein-Westfalen template. The key is split on `-`
  and the last character of the easting text is dropped. As in the source, only the loop
  variable left over after the loops is rendered, which is the last cell
  `(max easting, max northing)`. `AllTileFileNames` is a separate all-cells variant that
  names every cell; a lemma relates it to the as-written result.
- **PDAL stage lists** (`Pdal`): the reader/writer conversion and the
  reader/`filters.crop`/writer cutout as datatypes. The crop polygon is reprojected only
  when the two CRS strings differ.
- **Downloader** (`Downloader`, from `Downloader.download_any_file`). This covers the
  URL and cache-path composition (POSIX `os.path.join`), the cache-hit short cut, the
  `None` result of a failed request, the uncaught failure of a body that breaks off
  mid-stream, and the zip-to-data-file path rewrite. The file system is a set of paths.
  The network and the archive are oracle outcomes.
- **Run control flow** (`Pipeline`): the address record, the `None` branches of the two
  footprint lookups over abstract HTTP replies, the `.las` and output paths, and
  `run_pipeline` with each of its exits.
- **Secret parser and address record** (`Main`): `load_subscription_key` as a function
  of the file content, and the `address` dictionary built in `main`.
- `Text` holds the Python string operations the source relies on: `str.split` with a
  one-character separator, `t in s`, `str(int)` and `s[:-1]`. The source's only join,
  `''.join(list(s)[:-1])` (pipeline.py:210,215,220), is `DropLast`. `Text.Join` and the
  lemmas `JoinSplit`, `JoinSplitStep`, `JoinCons` and `SplitJoin` model nothing in the
  source: they only show that `Split` is the inverse of joining with a one-character
  separator, which pins down what `Split` computes. `Wrappers` holds `Option` and `Result`.

Behaviour of the code that the model keeps as written:

- Only the last enumerated cell is named: after the loops of pipeline.py:201-205 the
  variable `tile_name` holds the key of `(max easting, max northing)`, and only that key
  is rendered (pipeline.py:207-221). This is `TileFileName` and `GetTileNames`.
  `AllTileFileNames` is a separate all-cells variant. `SpanningBoxNamesOnlyLastTile`
  shows a touched tile that the code never names.
- When the lookup finds no building or gets a non-200 reply, `query_building_polygon`
  returns a bare `None` (pipeline.py:127,131). The tuple unpacking at pipeline.py:51 then
  raises. This is the `UnpackFailed` outcome.
- A failed request makes `download_any_file` return `None` (downloader.py:34), and
  `'.laz' in None` raises (pipeline.py:75). This is the `DownloadPathMissing` outcome.
- The response body is streamed outside the `try` (downloader.py:36-38), after
  `open(local_file_path, 'wb')` has created the file. A body that breaks off makes
  `download_any_file` raise and leaves the truncated file in the cache. This is the
  `BodyFailed` transfer and the `DownloadRaised` outcome. The next call's
  `os.path.exists` (downloader.py:22) takes the truncated file for a cached tile and
  makes no request (`TruncatedFileIsCacheHit`).
- The conversion is always built. When the path has no `.laz`, the `.las` path it uses is
  `''` (pipeline.py:74-78).
- Easting and northing indices come from floor division of the truncated coordinates
  (pipeline.py:195-199). Dafny's `/` with a positive divisor floors as Python's `//`
  does, so the indices are exact for every integer. A negative index is still rendered
  with `str` and split on `-` as the source does. The template lemmas are stated for
  non-negative indices only.
- Ten neighbouring 100-unit easting cells fall in one kilometre tile, so the all-cells
  list repeats names (`SameKilometreSameName`). The tiles to request are the set of its
  entries.

## Model

| member | source | states |
|---|---|---|
| Tiles.EastingIndex | pipeline.py:195-196 | the easting index is the 100-unit cell holding the coordinate: `100*e <= x < 100*e + 100` |
| Tiles.NorthingIndex | pipeline.py:198-199 | the northing index is the 1000-unit cell holding the coordinate: `1000*n <= y < 1000*n + 1000` |
| Tiles.Range | pipeline.py:193-199 | the index rectangle of valid bounds is non-empty: min index never above max index on either axis |
| Tiles.RangeIsTouchedCells | pipeline.py:193-199 | a cell is in the index rectangle exactly when its 100 x 1000 square shares a point with the bounding box |
| Tiles.GridIsRectangle | pipeline.py:201-205 | the enumeration has exactly (maxE-minE+1)*(maxN-minN+1) cells, holds a cell iff it lies in the rectangle, is strictly ascending easting-major (so no repeats) and ends with (maxE, maxN) |
| Tiles.EnumerateTileKeys | pipeline.py:201-205 | the nested loops build the key `"e-n"` of every enumerated cell in order, and the loop variable left after them is the key of (maxE, maxN), the last list entry |
| Tiles.AppendColumnKeys | pipeline.py:203-205 | the inner loop for one easting index appends the key `"e-n"` of every cell of that column, northing ascending, to the keys of the columns before it, and leaves the loop variable at the key of (e, maxN) |
| Tiles.SplitCellKey | pipeline.py:204-210 | for non-negative indices `split('-')` of a key gives back exactly the two decimal index texts |
| Tiles.CellKeyInjective | pipeline.py:204 | distinct non-negative cells have distinct `"e-n"` keys |
| Tiles.RuleFor | pipeline.py:207-218 | a naming rule is selected exactly by its registered state name `Brandenburg`, `Bayern` or `Nordrhein-Westfalen`, otherwise none |
| Tiles.RuleForStateName | pipeline.py:208-218 | each naming rule is selected by its own state name: the registry round-trips |
| Tiles.LastKey | pipeline.py:202-204 | the loop variable after the loops is the key of the top corner cell (maxE, maxN) |
| Tiles.NameForKey | pipeline.py:207-221 | the state chain renders the key with the selected state's template and gives a non-empty name; any other state gives `''` |
| Tiles.TileFileName | pipeline.py:201-231 | the returned name is `''` exactly when the configured state has no naming rule |
| Tiles.TileFileNameTemplate | pipeline.py:207-221 | for non-negative indices the name is `als_33`+T+`-`+N+`.`+ext, T+`_`+N+`.`+ext or `3dm_32_`+T+`_`+N+`_1_nw.`+ext, with T the max easting index in decimal less its last digit and N the max northing index |
| Tiles.OnlyLastCellMatters | pipeline.py:201-221 | boxes with the same maximum indices get the same name: no other cell affects the result |
| Tiles.GetTileNames | pipeline.py:178-231 | the method (loops plus state chain) returns the as-written name; it is `''` exactly for a state without a rule |
| Tiles.TruncatedEastingIsKilometre | pipeline.py:195-210 | the 100-unit easting index less its last digit is the kilometre index `x // 1000` |
| Tiles.BayernNaming | pipeline.py:213-216 | a box whose top corner is in cells (4412, 5500) is named `441_5500.<ext>` in Bayern |
| Tiles.AllTileFileNames | pipeline.py:201-221 | all-cells variant: an unsupported-region failure exactly for a state without a rule, otherwise one name per enumerated cell, (maxE-minE+1)*(maxN-minN+1) of them |
| Tiles.AllCellsNamed | pipeline.py:201-221 | in the all-cells variant every cell the box touches has its templated name in the list |
| Tiles.AllNamesFromTouchedCells | pipeline.py:201-221 | for non-negative indices every entry of the all-cells list is the templated name of a cell the box touches, the one enumerated at that position |
| Tiles.SameKilometreSameName | pipeline.py:195-216 | two easting cells whose indices differ only in the last digit get the same name, so the all-cells list repeats names |
| Tiles.AsWrittenIsLastOfAll | pipeline.py:201-221 | the as-written name is the last entry of the all-cells list |
| Tiles.TwoCellNames | pipeline.py:201-221 | a box spanning two adjacent easting cells at one northing index gets two names in the all-cells variant, lower easting first |
| Tiles.SpanningBoxNamesOnlyLastTile | pipeline.py:195-221 | a box over easting cells 129..130 touches tiles `12_5500` and `13_5500`, but as written only `13_5500` is named |
| Pdal.ConversionDescription | pipeline.py:261-275 | the conversion is a `readers.las` stage reading the LAZ path with the CRS, then a `writers.las` stage writing the LAS path uncompressed with `a_srs` set to the CRS, with no filter |
| Pdal.CropPolygon | pipeline.py:298-305 | the crop polygon is the footprint text unchanged when the two CRS strings are equal, and the footprint transformed from the polygon CRS to the LAS CRS when they differ |
| Pdal.CropPolygonReprojectsOnlyOnMismatch | pipeline.py:300-305 | with equal CRS strings the crop polygon is the same whatever the transform; otherwise it depends on the transform only through its value on the footprint from the polygon CRS to the LAS CRS |
| Pdal.CropDescription | pipeline.py:300-324 | the cutout is a `readers.las` stage reading the LAS path with its CRS, exactly one `filters.crop` with the (possibly reprojected) polygon, and a `writers.las` stage writing the output path with no extra options |
| Downloader.JoinPath | downloader.py:21 | an absolute name replaces the directory; otherwise a `/` separates directory and name |
| Downloader.Url | downloader.py:19 | the URL is the base URL followed by the file name, with nothing between |
| Downloader.LocalPath | downloader.py:21 | an absolute file name is used as it is; any other name is cached as `downloaded_files/<name>` |
| Downloader.DataFilePath | downloader.py:24-44 | a non-zip source returns the local path; a zip source returns the local path up to (not including) its first `.`, followed by `.` and the data-file extension |
| Downloader.ExtractZip | downloader.py:52-59 | extraction only adds files, every added file lies under `downloaded_files/`, every (cleaned, relative) member is written there, and a bad archive adds none |
| Downloader.DownloadAnyFile | downloader.py:18-50 | a request for base URL + name is made exactly on a cache miss; no path comes back exactly when that transfer does not deliver; a failed request returns `None` and writes nothing; a body that breaks off raises and leaves the local file behind; otherwise the result is the local path, rewritten for zip sources, and the local file exists; a cache hit writes nothing, and a download adds only the local file and, for a delivered zip, files under `downloaded_files/` |
| Downloader.TruncatedFileIsCacheHit | downloader.py:22-38 | after a call that raised mid-stream, the next call for the same name makes no request and returns the path of the truncated file, whatever the network does |
| Downloader.CacheHitMatchesFreshDownload | downloader.py:22-44 | a cache hit makes no request and returns the same path as a fresh download of the same name |
| Downloader.DownloadIdempotent | downloader.py:22-39 | after a successful call a repeated call makes no request and returns the same path with the file set unchanged |
| Downloader.BadZipStillReturnsDataPath | downloader.py:42-59 | a bad zip is swallowed: the rewritten data-file path is returned and only the archive was added |
| Downloader.LocalPathOfRelativeName | downloader.py:21-25 | a relative name is cached as `downloaded_files/<name>`, and the zip rewrite gives `downloaded_files/<name up to its first .>.<data ext>` |
| Downloader.ZipDataPathShape | downloader.py:42-44 | a zip source's returned path splits on `.` into the stem of the local path and the data-file extension |
| Pipeline.PipelineAddress | pipeline.py:32-36 | the pipeline reads the four address fields from their keys and fails when a key is missing |
| Pipeline.BuildingQueryParams | pipeline.py:97-103 | the lookup sends exactly City, Street, HouseNumber, ZipCode from the address and PageNumber 1 |
| Pipeline.FetchBuildingFootprintGeometry | pipeline.py:143-175 | a geometry is returned exactly when GeomId and GeomType are non-empty, the reply is 200 and carries `geometryAsWKT`, and it is that text |
| Pipeline.QueryBuildingPolygon | pipeline.py:107-131 | a bare `None` exactly on a non-200 status or no buildings; otherwise the first building's state paired with its footprint lookup |
| Pipeline.RunPipeline | pipeline.py:43-84 | each exit happens exactly under its condition (unpack crash, no geometry, unconfigured state, no naming rule, download raised mid-stream, download `None`); a download is of the as-written tile name with the state's config; on completion the las path, conversion, output path and cutout are the derived ones |
| Pipeline.StopsBeforeDownload | pipeline.py:51-71 | no download happens exactly when the lookup gave no pair or no geometry, the state is not configured, or its name has no naming rule |
| Pipeline.StagesChain | pipeline.py:43-84 | a run whose query yields a geometry and a configured state with a naming rule, and whose tile request is delivered, completes; its conversion writes the file the cutout reads (the las path), both read in the state's CRS, and the cutout writes the address's output path |
| Pipeline.NoBuildingsCrashesOnUnpack | pipeline.py:51-131 | a non-200 reply or an empty building list makes the run crash on unpacking instead of reaching the logged abort |
| Pipeline.LasPath | pipeline.py:74-76 | the las path is `''` exactly when `.laz` does not occur in the tile path; otherwise it is the tile path up to (not including) its first `.`, followed by `.las` |
| Pipeline.LasPathOfLazTile | pipeline.py:74-76 | a `.laz` tile path with no other `.` becomes the same stem with `.las` |
| Pipeline.LasPathEmptyWithoutLaz | pipeline.py:74-76 | a path in which `.laz` does not occur gives the empty las path |
| Pipeline.OutputPath | pipeline.py:80-81 | the cutout path starts with `intersection_cutout/` and ends with `-intersection.las` |
| Pipeline.OutputPathInOutputDir | pipeline.py:80-81 | with no `/` in the address fields the cutout is `{street} {house_number} {zip_code} {city}-intersection.las` directly inside `intersection_cutout` |
| Main.LoadSubscriptionKey | main.py:23-36 | content without `=` is an error; otherwise the key is the text between the first and the second `=` (or the end) and contains no `=` |
| Main.KeyAfterAnyLabel | main.py:35 | any label without `=` is accepted unchecked, and anything after a second `=` is dropped |
| Main.WellFormedSecret | main.py:26-35 | `Subscription-Key=K` with no `=` in K yields exactly K |
| Main.WhitespaceIsKept | main.py:28-35 | nothing is trimmed: a leading space and a trailing newline become part of the key |
| Main.MakeAddress | main.py:52-57 | the address dictionary has exactly the keys city, street, house_number, zip_code, each holding its argument |
| Main.AddressPassesThrough | main.py:52-62 | the pipeline reads the four arguments back from the address dictionary and sends them unchanged as query parameters |

## Left out

- HTTP requests: `requests.get` in the two lookups and in the downloader are network I/O. Their replies are parameters: `BuildingsReply`, `GeometryReply` and `Transfer`.
- Pipeline.RunPipeline: has no outcome for an exception raised by `requests.get` (connection error, timeout) or by `response.json()` in the two lookups (pipeline.py:107,110,161,163). Nothing in the source catches these, so the run crashes; the model takes every lookup to produce a reply.
- Pipeline.RunPipeline: has no outcome for a `KeyError` from a state configuration missing `EPSG`, `state_name` or `source_ext` (pipeline.py:191,208,210), or `base_url` or `data_file_ext` (downloader.py:8-12, reached from pipeline.py:70). `StateConfig` has all five fields, so every configuration is taken as complete.
- Pipeline.QueryBuildingPolygon: does not model `requests.get` or `response.json()` raising (pipeline.py:107,110); the reply is always a status with an optional building list.
- Reprojection and bounds: `reproject_geometry` (pipeline.py:233-247), shapely `bounds` and `int()` use floating-point foreign libraries. They are the `bounds` parameter of `RunPipeline`, and the model starts from the integer box. The crop polygon's transform is the `reproject` parameter.
- WKT parsing and serialisation (`wkt.loads`, `str(geom)`, `polygon.wkt`) are foreign. A geometry is carried as its WKT text, and text that goes through `loads` and `.wkt` unchanged in CRS is treated as unchanged.
- `urlparse`/`parse_qs` of the footprint URL is a foreign parser. `FootprintUrl` holds the two values it yields.
- Pipeline.FetchBuildingFootprintGeometry: does not model `wkt.loads` raising on malformed WKT text, because WKT parsing is foreign, nor `requests.get` or `response.json()` raising (pipeline.py:161,163), because the reply is a parameter.
- Pipeline.RunPipeline: has no outcome for the foreign calls that raise. These are a pyproj `CRSError` for an unknown `EPSG` value (pipeline.py:191,245-246), a `ValueError` from `int()` on the NaN bounds of an empty footprint (pipeline.py:193-199), and `Transformer.from_crs` or `transform` raising in the crop after the download (pipeline.py:302-303). `bounds` and `reproject` are total parameters, so `StopsBeforeDownload` holds only for runs in which they return.
- Pipeline.QueryBuildingPolygon: does not model the `KeyError`/`IndexError` of a reply missing `buildingInformation`, `addresses` or `state`. The reply shape is taken as well-formed. A missing `buildingFootprintGeometry` URL raises nothing: `urlparse(None)` parses as an empty URL, so `fetch_building_footprint_geometry` returns `None`, which is `FootprintUrl(None, None)`.
- Tiles.TileFileNameTemplate: stated for non-negative indices only. The source's `split('-')` misreads negative indices. The function itself models that misreading as written.
- PDAL execution: `pipeline.execute()` is the external engine. Its failures are logged and swallowed, so they do not change the control flow, and the model builds only the descriptions.
- Zip extraction: what an archive contains is an oracle, `Unzip`. Its members are the cleaned relative names `extractall` writes; the cleaning itself is not modelled. The chunked writing of the response body (beyond whether it completes), `os.makedirs` and all logging are I/O.
- `load_config` and the file read in `load_subscription_key` are file I/O. The configuration map and the file content are parameters.
- `main`'s sequencing (main.py:38-63) of logging set-up, configuration and key loading, and the hard-coded addresses under `__main__`, are plumbing. Only the address record and the key parser are modelled.
