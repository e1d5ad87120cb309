/** `PostgresUploader`: the `fashion_items` table as a map from item id to
    row, upserted with every listed column overwritten on conflict. */
module MetadataStore {
  import opened Wrappers
  import opened Records

  /** What `analyze_mesh` computes for a mesh that loads. The numbers come
      from trimesh and are carried unchanged. */
  datatype MeshStats = MeshStats(
    polygonCount: int,
    fileSizeKb: int,
    avgEdgeLength: Option<real>,
    boundingBoxVolume: real,
    isClosed: bool,
    genus: int,
    surfaceArea: real,
    meshDensity: Option<real>,
    numMeshParts: int,
    numMaterials: int,
    numUvMaps: int)

  /** The outcome of `analyze_mesh`, which never raises. */
  datatype Analysis = Analyzed(stats: MeshStats) | AnalysisFailed

  function OptFloat(x: Option<real>): Value
  {
    match x
    case Some(v) => Float(v)
    case None => Null
  }

  /** The dictionary `analyze_mesh` returns: all twelve keys for a mesh that
      loads, only `analysis_success: False` otherwise. */
  function AnalysisDict(a: Analysis): (d: map<AnalysisKey, Value>)
    ensures a.Analyzed? ==> d.Keys == AllAnalysisKeys && d[AnalysisSuccess] == Bool(true)
    ensures a.AnalysisFailed? ==> d.Keys == {AnalysisSuccess} && d[AnalysisSuccess] == Bool(false)
  {
    match a
    case AnalysisFailed => map[AnalysisSuccess := Bool(false)]
    case Analyzed(s) =>
      map[PolygonCount := Int(s.polygonCount),
          FileSizeKb := Int(s.fileSizeKb),
          AvgEdgeLength := OptFloat(s.avgEdgeLength),
          BoundingBoxVolume := Float(s.boundingBoxVolume),
          IsClosed := Bool(s.isClosed),
          Genus := Int(s.genus),
          SurfaceArea := Float(s.surfaceArea),
          MeshDensity := OptFloat(s.meshDensity),
          NumMeshParts := Int(s.numMeshParts),
          NumMaterials := Int(s.numMaterials),
          NumUvMaps := Int(s.numUvMaps),
          AnalysisSuccess := Bool(true)]
  }

  /** `meta.update(analysis)`: the new keys win, keys the analysis does not
      return keep their earlier values, nothing else in `meta` changes. */
  function MergeAnalysis(meta: FolderMeta, a: Analysis): (m: FolderMeta)
    ensures m == meta.(analysis := m.analysis)
    ensures m.analysis.Keys == meta.analysis.Keys + AnalysisDict(a).Keys
    ensures forall k :: k in AnalysisDict(a) ==> m.analysis[k] == AnalysisDict(a)[k]
    ensures forall k :: k in meta.analysis && k !in AnalysisDict(a) ==> m.analysis[k] == meta.analysis[k]
  {
    meta.(analysis := meta.analysis + AnalysisDict(a))
  }

  /** One row of `fashion_items`. The eleven analysis columns and
      `analysis_success` are read from `stats` with `Column`, a key the
      metadata lacks reading as NULL. */
  datatype Row = Row(
    itemId: string,
    path: string,
    hasObj: bool,
    hasMtl: bool,
    hasPcd: bool,
    hasKeypoints: bool,
    hasBorder: bool,
    textureCount: int,
    category: string,
    sourceFormat: string,
    convertedTo: string,
    metadataNotes: Option<string>,
    stats: map<AnalysisKey, Value>,
    createdAt: int)

  type Table = map<string, Row>

  /** `meta.get(key)`: a missing key reads as `None`, stored as NULL. */
  function Get(d: map<AnalysisKey, Value>, k: AnalysisKey): Value
  {
    if k in d then d[k] else Null
  }

  /** The analysis column `k` of a row. */
  function Column(row: Row, k: AnalysisKey): Value
  {
    Get(row.stats, k)
  }

  /** The row holds every listed column as taken from `meta`. */
  ghost predicate RowFromMeta(row: Row, m: FolderMeta)
  {
    && row.itemId == m.itemId && row.path == m.path
    && row.hasObj == m.hasObj && row.hasMtl == m.hasMtl && row.hasPcd == m.hasPcd
    && row.hasKeypoints == m.hasKeypoints && row.hasBorder == m.hasBorder
    && row.textureCount == |m.textures|
    && row.category == m.category && row.sourceFormat == m.sourceFormat
    && row.convertedTo == m.convertedTo && row.metadataNotes == m.metadataNotes
    && (forall k :: Column(row, k) == Get(m.analysis, k))
  }

  function RowOf(m: FolderMeta, createdAt: int): (row: Row)
    ensures RowFromMeta(row, m) && row.createdAt == createdAt
  {
    Row(m.itemId, m.path, m.hasObj, m.hasMtl, m.hasPcd, m.hasKeypoints, m.hasBorder,
        |m.textures|, m.category, m.sourceFormat, m.convertedTo, m.metadataNotes,
        m.analysis, createdAt)
  }

  /** `reset_table`: drop and recreate `fashion_items`. */
  function ResetTable(): (t: Table)
    ensures forall id :: id !in t
  {
    map[]
  }

  /** How the INSERT ... ON CONFLICT statement and its commit end: committed,
      failed and rolled back, or failed with the rollback itself raising. */
  datatype WriteOutcome = Committed | WriteFailed(error: string) | RollbackFailed(error: string)

  /** The table afterwards, the caller's `meta` afterwards (it is updated in
      place), and the exception that escapes `upload`, if any. */
  datatype UploadResult = UploadResult(table: Table, meta: FolderMeta, raised: Option<string>)

  /** `upload(meta, glb_path)`: merge the analysis into `meta`, then upsert
      the row for `meta['item_id']`. `created_at` is assigned `now` on insert
      and is not in the update list. Any failure is rolled back and
      swallowed; only a failing rollback escapes. */
  function Upload(table: Table, meta: FolderMeta, analysis: Analysis, write: WriteOutcome, now: int): (r: UploadResult)
    ensures r.meta == MergeAnalysis(meta, analysis)
    ensures write.RollbackFailed? ==> r.raised == Some(write.error)
    ensures !write.RollbackFailed? ==> r.raised == None
    ensures !write.Committed? ==> r.table == table
    ensures write.Committed? ==>
      && r.table.Keys == table.Keys + {meta.itemId}
      && (forall id :: id in table && id != meta.itemId ==> r.table[id] == table[id])
      && RowFromMeta(r.table[meta.itemId], r.meta)
      && r.table[meta.itemId].createdAt == (if meta.itemId in table then table[meta.itemId].createdAt else now)
  {
    var m := MergeAnalysis(meta, analysis);
    match write
    case Committed =>
      var createdAt := if m.itemId in table then table[m.itemId].createdAt else now;
      UploadResult(table[m.itemId := RowOf(m, createdAt)], m, None)
    case WriteFailed(_) => UploadResult(table, m, None)
    case RollbackFailed(e) => UploadResult(table, m, Some(e))
  }

  /** Uploading the same item twice with two successful analyses leaves only
      the second upload's values in the row, apart from the creation time of
      the first insert. */
  lemma UpsertReplacesRow(table: Table, m1: FolderMeta, s1: MeshStats, m2: FolderMeta, s2: MeshStats, t1: int, t2: int)
    requires m1.itemId == m2.itemId
    ensures var r1 := Upload(table, m1, Analyzed(s1), Committed, t1);
            var r2 := Upload(r1.table, m2, Analyzed(s2), Committed, t2);
            var row := r2.table[m2.itemId];
            && RowFromMeta(row, MergeAnalysis(m2, Analyzed(s2)))
            && (forall k :: Column(row, k) == Get(AnalysisDict(Analyzed(s2)), k))
            && row.createdAt == r1.table[m1.itemId].createdAt
  {
    var r1 := Upload(table, m1, Analyzed(s1), Committed, t1);
    var r2 := Upload(r1.table, m2, Analyzed(s2), Committed, t2);
    var row := r2.table[m2.itemId];
    var d := AnalysisDict(Analyzed(s2));
    forall k
      ensures Column(row, k) == Get(d, k)
    {
      AllAnalysisKeysComplete(k);
      assert k in d;
    }
  }

  /** A failed analysis only sets `analysis_success`, so statistics merged
      into the same `meta` by an earlier upload reach the new row unchanged. */
  lemma FailedAnalysisKeepsEarlierStats(table: Table, meta: FolderMeta, s: MeshStats, t1: int, t2: int)
    ensures var r1 := Upload(table, meta, Analyzed(s), Committed, t1);
            var r2 := Upload(r1.table, r1.meta, AnalysisFailed, Committed, t2);
            var row := r2.table[meta.itemId];
            && Column(row, AnalysisSuccess) == Bool(false)
            && forall k :: k != AnalysisSuccess ==> Column(row, k) == Get(AnalysisDict(Analyzed(s)), k)
  {
    var d := AnalysisDict(Analyzed(s));
    var r1 := Upload(table, meta, Analyzed(s), Committed, t1);
    var row := Upload(r1.table, r1.meta, AnalysisFailed, Committed, t2).table[meta.itemId];
    forall k | k != AnalysisSuccess
      ensures Column(row, k) == Get(d, k)
    {
      AllAnalysisKeysComplete(k);
      assert k in d;
    }
  }

  /** With no earlier analysis in `meta`, a failed analysis stores NULL in
      every statistics column. */
  lemma FailedAnalysisStoresNulls(table: Table, meta: FolderMeta, now: int)
    requires meta.analysis == map[]
    ensures var row := Upload(table, meta, AnalysisFailed, Committed, now).table[meta.itemId];
            && Column(row, AnalysisSuccess) == Bool(false)
            && forall k :: k != AnalysisSuccess ==> Column(row, k) == Null
  {
  }

  /** After `reset_table` an upload inserts the only row, created `now`. */
  lemma UploadAfterReset(meta: FolderMeta, analysis: Analysis, now: int)
    ensures var t := Upload(ResetTable(), meta, analysis, Committed, now).table;
            && t.Keys == {meta.itemId}
            && t[meta.itemId].createdAt == now
  {
  }
}
