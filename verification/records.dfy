/** The values the orchestrator, the converter and the two stores pass
    between each other: the per-folder metadata dictionary, the analysis keys
    merged into it, and the report statuses. */
module Records {
  import opened Wrappers
  import opened Strings

  /** The keys `analyze_mesh` may contribute to a folder's metadata. */
  datatype AnalysisKey =
    | PolygonCount | FileSizeKb | AvgEdgeLength | BoundingBoxVolume | IsClosed | Genus
    | SurfaceArea | MeshDensity | NumMeshParts | NumMaterials | NumUvMaps | AnalysisSuccess

  const AllAnalysisKeys: set<AnalysisKey> :=
    {PolygonCount, FileSizeKb, AvgEdgeLength, BoundingBoxVolume, IsClosed, Genus,
     SurfaceArea, MeshDensity, NumMeshParts, NumMaterials, NumUvMaps, AnalysisSuccess}

  lemma AllAnalysisKeysComplete(k: AnalysisKey)
    ensures k in AllAnalysisKeys
  {
  }

  /** A Python value stored in the metadata dictionary or a table column;
      floating-point values are carried, never computed with. */
  datatype Value = Null | Int(i: int) | Float(x: real) | Bool(b: bool)

  /** The outcome the orchestrator writes into `meta['status']`. */
  datatype Status =
    | Ok
    | ConversionFailed
    | UploadFailed(detail: string)
    | FolderFailed(detail: string)

  /** The status string as the report carries it. */
  function StatusText(s: Status): (t: string)
    ensures s.Ok? <==> t == "OK"
    ensures !s.Ok? <==> StartsWith(t, "FAIL: ")
  {
    match s
    case Ok => "OK"
    case ConversionFailed => "FAIL: GLB conversion failed"
    case UploadFailed(d) => "FAIL: Upload failed: " + d
    case FolderFailed(d) => "FAIL: " + d
  }

  /** The dictionary `analyze_folder` builds, together with the keys the
      orchestrator and the Postgres uploader later write into it. */
  datatype FolderMeta = FolderMeta(
    itemId: string,
    path: string,
    hasObj: bool,
    hasMtl: bool,
    hasPcd: bool,
    hasKeypoints: bool,
    hasBorder: bool,
    textures: seq<string>,
    allFiles: seq<string>,
    category: string,
    sourceFormat: string,
    convertedTo: string,
    metadataNotes: Option<string>,
    analysis: map<AnalysisKey, Value>,
    status: Option<Status>)
}
