/**
 The declarative PDAL pipelines the tool builds: a LAZ-to-LAS conversion and a
 polygon crop. Each is a reader, optional filters and a writer; executing them
 is the external engine's business and is not modelled.
 */
module Pdal {
  import opened Wrappers

  /** One entry of a PDAL `"pipeline"` array. */
  datatype Stage =
    | ReadLas(filename: string, spatialReference: string)
    | CropFilter(polygon: string)
    | WriteLas(filename: string, compression: Option<string>, aSrs: Option<string>)

  /** The `"type"` string of a stage. */
  function StageType(s: Stage): string {
    match s
    case ReadLas(_, _) => "readers.las"
    case CropFilter(_) => "filters.crop"
    case WriteLas(_, _, _) => "writers.las"
  }

  /** A PDAL pipeline description: the stages in execution order. */
  datatype Description = Description(stages: seq<Stage>)

  /** Reader first, writer last, only filters between. */
  predicate Linear(d: Description) {
    && |d.stages| >= 2
    && d.stages[0].ReadLas?
    && d.stages[|d.stages| - 1].WriteLas?
    && forall i :: 0 < i < |d.stages| - 1 ==> d.stages[i].CropFilter?
  }

  /** The file the pipeline reads. */
  function Source(d: Description): string
    requires Linear(d)
  {
    d.stages[0].filename
  }

  /** The file the pipeline writes. */
  function Sink(d: Description): string
    requires Linear(d)
  {
    d.stages[|d.stages| - 1].filename
  }

  /** The filters between reader and writer. */
  function Filters(d: Description): seq<Stage>
    requires Linear(d)
  {
    d.stages[1..|d.stages| - 1]
  }

  /** `convert_laz_to_las`: read the LAZ file with the state's CRS and write
      it uncompressed, tagging the output with the same CRS. */
  function ConversionDescription(lazPath: string, lasPath: string, crs: string): (d: Description)
    ensures Linear(d) && Source(d) == lazPath && Sink(d) == lasPath && Filters(d) == []
    ensures d.stages[0].spatialReference == crs
    ensures d.stages[1].compression == Some("none") && d.stages[1].aSrs == Some(crs)
    ensures StageType(d.stages[0]) == "readers.las" && StageType(d.stages[1]) == "writers.las"
  {
    Description([ReadLas(lazPath, crs), WriteLas(lasPath, Some("none"), Some(crs))])
  }

  /** The crop polygon handed to `filters.crop`: the footprint moved into the
      point cloud's CRS by the external `reproject(from, to, wkt)` when the two
      CRS strings differ, and passed through otherwise. */
  function CropPolygon(lasCrs: string, polygonCrs: string, polygonWkt: string,
                       reproject: (string, string, string) -> string): (p: string)
    ensures lasCrs == polygonCrs ==> p == polygonWkt
    ensures lasCrs != polygonCrs ==> p == reproject(polygonCrs, lasCrs, polygonWkt)
  {
    if lasCrs != polygonCrs then reproject(polygonCrs, lasCrs, polygonWkt) else polygonWkt
  }

  /** The transform is consulted only for a CRS mismatch, and then only once, on the
      footprint from the polygon CRS to the LAS CRS: two transforms that agree there
      give the same polygon, and with equal CRS strings any transform does. */
  lemma CropPolygonReprojectsOnlyOnMismatch(lasCrs: string, polygonCrs: string, polygonWkt: string,
                                            reproject: (string, string, string) -> string)
    ensures forall other: (string, string, string) -> string ::
      CropPolygon(lasCrs, lasCrs, polygonWkt, other) == CropPolygon(lasCrs, lasCrs, polygonWkt, reproject)
    ensures forall other: (string, string, string) -> string ::
      other(polygonCrs, lasCrs, polygonWkt) == reproject(polygonCrs, lasCrs, polygonWkt) ==>
        CropPolygon(lasCrs, polygonCrs, polygonWkt, other) == CropPolygon(lasCrs, polygonCrs, polygonWkt, reproject)
  {
  }

  /** `extract_points_within_polygon`: read the LAS file with its CRS, crop it
      to the (possibly reprojected) polygon, write the cutout. */
  function CropDescription(lasPath: string, outputPath: string, lasCrs: string, polygonCrs: string,
                           polygonWkt: string, reproject: (string, string, string) -> string): (d: Description)
    ensures Linear(d) && Source(d) == lasPath && Sink(d) == outputPath
    ensures d.stages[0].spatialReference == lasCrs
    ensures Filters(d) == [CropFilter(CropPolygon(lasCrs, polygonCrs, polygonWkt, reproject))]
    ensures d.stages[2].compression.None? && d.stages[2].aSrs.None?
    ensures StageType(d.stages[0]) == "readers.las" && StageType(d.stages[1]) == "filters.crop"
      && StageType(d.stages[2]) == "writers.las"
  {
    Description([
      ReadLas(lasPath, lasCrs),
      CropFilter(CropPolygon(lasCrs, polygonCrs, polygonWkt, reproject)),
      WriteLas(outputPath, None, None)
    ])
  }
}
