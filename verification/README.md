# Fashion 3D ingestion pipeline — a Dafny model

This project models the core of a batch pipeline. The pipeline ingests a tree of
per-garment 3D scan folders. It converts each folder's OBJ meshes to GLB and
stores the results twice: as a row of the Postgres table `fashion_items`, and
as a GridFS file in MongoDB. A data loader later reads the GLB files back in
batches. A browser viewer converts triangle-strip and triangle-fan index
buffers into plain triangle lists.

The model is functional. Every store is an immutable value, and every
operation is a pure function from its inputs to its results:

- `FolderScan` models `DatasetProcessor.analyze_folder`. It classifies a
  folder's file names into the flags of its metadata dictionary.
- `Processor` models `DatasetProcessor.process`. The run is a fold over the
  directories `os.walk` yields, taken as an input sequence in walk order. A
  per-category quota is checked once, on entering a folder. Each source mesh
  goes through convert, Postgres upload and Mongo upload. The counters and the
  append-only report are carried in a `State`. The converter's outcome and
  the stores' behaviour on each call are chosen by an `oracle`, indexed by the
  number of the converter call. `process` never reads either store, so the
  fold logs the uploads it hands to each store. `Run` then replays the two
  logs through the store models.
- `MetadataStore` models `PostgresUploader`. The table is a `map` from item
  id to `Row`. `upload` merges the analysis into the caller's `meta`, then
  upserts the row. `reset_table` leaves an empty table.
- `BlobStore` models `MongoUploader`. The store is a sequence of blobs in
  insertion order, plus the three counters. An upload deletes the blob with
  the same `(filename, item_id)` and then puts the new one. `reset` deletes
  the blobs and keeps the counters.
- `Converter` models `TrimeshConverter`:
  - the material path and the output path, both derived by `str.replace`;
  - the `.mtl` rewrite, including Python's universal-newline reading;
  - the `map_Kd` texture-name extraction and the missing-texture warnings;
  - the default-material substitution;
  - `convert`'s `None`-on-failure contract, and the fact that a fault in the
    repair step escapes it.
- `DrawMode` models `toTrianglesDrawMode` from the viewer's
  `BufferGeometryUtils.js`. It models the null dereference at line 41 as
  written, and also the corrected function (see Findings).
- `DataLoader` models `Fashion3DDataLoader.get_batches` and `load_batch`. The
  input is the same blob sequence `BlobStore` models.

`Wrappers`, `Seqs`, `Strings`, `Paths` and `Records` hold the shared
vocabulary:

- `Option` and `Result`;
- Python's `any`, list comprehensions, `str.startswith`, `str.endswith`,
  `str.replace`, `str.split` and `str.rstrip`;
- POSIX `os.path.basename`, `os.path.dirname` and `os.path.join`;
- the metadata dictionary and the status strings.

Some behaviours of the code are easy to misread, and the model states them as
the code has them:

- **The quota holds, though it is checked only on entering a folder.** A
  folder inserts at most one item. After a file converts, line 53 of
  `processor.py` sets `meta['path']` to the exported GLB, a regular file. Every
  later source mesh of the folder is then joined onto that file, so
  `trimesh.load` fails and `convert` returns `None`. A folder whose first source
  mesh converted therefore ends `FAIL: GLB conversion failed` when it holds a
  second one (`TwoSourceMeshListed`). A count below the quota ends at most at
  the quota (`QuotaHeld`).
- **Counter and report are not reset per run.** `category_counter` and
  `report` are instance fields and are not reset at the start of a run, so
  `Run` takes them as inputs.
- **There is no texture gate and no `SKIPPED` status.** The code has neither.
- **A failed Postgres write is reported as success.** The write error is
  rolled back and swallowed, not surfaced, so the item is still counted as
  inserted and reported `OK` (`FailedWriteReportedOk`). Only a failing
  rollback reaches the orchestrator as `FAIL: Upload failed: …`.
- **Re-processing keeps only `created_at` from the old row.** An upsert keeps
  the old `created_at` and overwrites every other column. `process` builds a
  fresh `meta` for every folder and uploads it at most once
  (`ProcessFilesUploadsOnce`). So on re-processing, a failed analysis writes
  NULL statistics over the earlier row (`FailedAnalysisStoresNulls`).
  `FailedAnalysisKeepsEarlierStats` applies only to a caller that reuses one
  `meta` dictionary across uploads, which `process` never does.
- **The category is the parent folder's name** (`os.path.dirname` once), not
  the name of the folder two levels up.
- **Later files use a rewritten path.** A successful file overwrites
  `meta['path']`, so later files of the same folder are joined onto the GLB
  path (`SecondMeshBeneathGlb`).
- **A fault while rewriting the material file can leave it cut short.**
  `open(mtl, 'w')` empties the file before anything is written. A write fault
  therefore leaves a prefix of the translated text, not the old file
  (`Converter.Convert`, `Converter.FaultedDisk`).

## Model

| member | source | states |
|---|---|---|
| Seqs.Any | processor.py:19-23 | `any(p(f) for f in files)` holds iff some element satisfies `p` |
| Seqs.Filter | processor.py:24 | the comprehension keeps exactly the elements satisfying the test, and is no longer than its input |
| Seqs.FilterEmbeds | processor.py:24 | the filtered list is the subsequence, in order, of exactly the positions whose element passes |
| Paths.Basename | processor.py:17 | `os.path.basename`: the slash-free suffix after the last `/` |
| Paths.Join | processor.py:49 | `os.path.join(a, b)` ends with `b`, and starts with `a` unless `b` is absolute |
| Paths.BasenameOfJoin | converters/trimesh_converter.py:42 | the basename of a directory joined with a slash-free name is that name |
| Paths.DirnameOfJoin | processor.py:26 | the dirname of a directory (not ending in `/`) joined with a slash-free name is that directory |
| Strings.ReplaceAll | converters/trimesh_converter.py:10 | `str.replace` with an equal-length replacement keeps the length |
| Strings.ReplaceSuffix | converters/trimesh_converter.py:10 | a path whose stem holds no `.` has its `.obj` extension, and only that, replaced |
| Strings.LastToken | converters/trimesh_converter.py:21 | `line.strip().split()[-1]` is a non-empty whitespace-free run that ends where trailing whitespace begins and is preceded by whitespace or the start |
| Records.StatusText | processor.py:57-69 | the status string is `OK` exactly for success; every other outcome starts with `FAIL: ` |
| FolderScan.AnalyzeFolder | processor.py:14-30 | item id is the folder's basename and category its parent's; each flag holds iff some name matches its prefix/suffix test; `all_files` is the listing; the constants `obj`, `glb`, `None` |
| FolderScan.TexturesInListingOrder | processor.py:24 | `textures` is the subsequence of exactly the `.png` names, in listing order |
| FolderScan.MeshSplitsOnBorderPrefix | processor.py:19-38 | some name ends in `.obj` iff some name is a source mesh or a border mesh |
| FolderScan.EntryTestCountsBorderMeshes | processor.py:19-38 | `process` enters a folder iff `has_obj` or `has_border`, so border-only folders are entered |
| FolderScan.CloudSplitsOnKeypointPrefix | processor.py:21-22 | a `.pcd` name is a point cloud iff it is not a keypoint file |
| FolderScan.PointCloudsSplitOnPrefix | processor.py:21-22 | some `.pcd` exists iff `has_pcd` or `has_keypoints` |
| FolderScan.ItemAndCategoryOfFolder | processor.py:17-39 | for `<base>/<category>/<item>` the item id is `item` and the category is `category` |
| Converter.MtlPath | converters/trimesh_converter.py:10 | the material path has the mesh path's length |
| Converter.MtlPathOfPlainPath | converters/trimesh_converter.py:10 | for a dot-free stem, `<stem>.obj` maps to `<stem>.mtl` |
| Converter.MtlPathRewritesDirectories | converters/trimesh_converter.py:10 | every `.obj` is rewritten, directory names included |
| Converter.OutputPath | converters/trimesh_converter.py:42 | the output's basename is the source's basename with `.obj` replaced by `.glb`, and its dirname is the output directory when that does not end in `/` |
| Converter.GlbName | converters/trimesh_converter.py:42 | the replaced name introduces no `/` |
| Converter.OutputNameOfPlainFile | converters/trimesh_converter.py:42 | `<dir>/<stem>.obj` converts to a file named `<stem>.glb` |
| Converter.UniversalNewlines | converters/trimesh_converter.py:14-15 | reading in text mode leaves no `\r`, changes nothing in text without one, and never lengthens it |
| Converter.UniversalNewlinesTranslates | converters/trimesh_converter.py:14-15 | the text read is the file with every `\r\n` and then every remaining `\r` replaced by `\n` |
| Converter.SplitLines | converters/trimesh_converter.py:15 | `readlines` splits the text into non-empty lines that concatenate back to it, each ending at its only `\n` (the last may lack one) |
| Converter.TextureName | converters/trimesh_converter.py:20-21 | the texture of a `map_Kd` line is its last whitespace-separated token: non-empty, free of whitespace, ending where the trailing whitespace begins, and preceded by whitespace unless it starts the stripped line |
| Converter.ScanLines | converters/trimesh_converter.py:18-25 | the loop appends every line unchanged and in order |
| Converter.ScanLinesWarnsOnMissing | converters/trimesh_converter.py:20-24 | a warning is issued for a texture iff some `map_Kd` line names it and it is absent next to the mesh |
| Converter.FixMissingTexture | converters/trimesh_converter.py:9-28 | without a material file nothing changes; otherwise the file is rewritten with exactly the lines read and no file is added or removed |
| Converter.FixMissingTextureIdempotent | converters/trimesh_converter.py:9-28 | a second repair changes nothing and reports the same missing textures |
| Converter.FixMissingTexturePreservesLfText | converters/trimesh_converter.py:14-28 | a material file without carriage returns is left exactly as it was |
| Converter.DefaultMaterials | converters/trimesh_converter.py:37-40 | a geometry with an image keeps its material; every other one gets the `[220, 220, 220, 255]` material |
| Converter.DefaultMaterialsIdempotent | converters/trimesh_converter.py:37-40 | afterwards every geometry has a material, and substituting again changes nothing |
| Converter.Convert | converters/trimesh_converter.py:30-49 | the call raises iff a material file exists and its repair faults, with that fault's error; a read or open fault leaves the disk unchanged; a write fault leaves only the material file changed, holding a prefix of the repaired text of the written length; otherwise the repair is applied, `None` iff loading or export fails, and a returned path is the output path, with the default materials exported and the GLB stored at that path, every other file as the repair left it |
| Converter.Exported | converters/trimesh_converter.py:42-43 | exporting adds or overwrites the output file with the exported bytes and keeps every other file |
| Converter.FaultedDisk | converters/trimesh_converter.py:14-28 | a read or open fault changes nothing; a write fault truncates only the material file, to a prefix of its translated text of the written length |
| MetadataStore.AnalysisDict | uploader.py:48-67 | a loaded mesh yields all twelve keys with `analysis_success` true; a failure yields only `analysis_success: False` |
| MetadataStore.MergeAnalysis | uploader.py:72 | `meta.update`: analysis keys win, other analysis keys keep their values, nothing else in `meta` changes |
| MetadataStore.RowOf | uploader.py:105-113 | the row takes every listed column from `meta`, `texture_count` as `len(textures)`, missing keys as NULL |
| MetadataStore.ResetTable | uploader.py:13-46 | the recreated table holds no row |
| MetadataStore.Upload | uploader.py:69-117 | `meta` gets the merged analysis; only a failing rollback raises; a failed write leaves the table unchanged; a commit upserts the one row from `meta`, keeps other rows and the old `created_at` |
| MetadataStore.UpsertReplacesRow | uploader.py:81-104 | a second upload of the same id overwrites every listed column but keeps the first `created_at` |
| MetadataStore.FailedAnalysisKeepsEarlierStats | uploader.py:65-72 | a failed analysis over a `meta` holding earlier statistics writes those statistics and `analysis_success = false` |
| MetadataStore.FailedAnalysisStoresNulls | uploader.py:65-112 | a failed analysis over a fresh `meta` writes NULL in every statistics column |
| MetadataStore.UploadAfterReset | uploader.py:13-114 | after `reset_table` an upload leaves exactly one row, created at the upload |
| BlobStore.FindFrom | uploader.py:142 | `find_one` returns the first blob under the key, or none exists |
| BlobStore.Remove | uploader.py:144 | `fs.delete` removes that blob and keeps the others in order |
| BlobStore.Reset | uploader.py:129-131 | `reset` empties the store and keeps the counters |
| BlobStore.Put | uploader.py:139-157 | exactly one of uploaded/failed grows; `deleted` grows iff an earlier blob is replaced; the blob count changes accordingly |
| BlobStore.Upload | uploader.py:133-157 | as `Put`, and a missing file counts one failure and leaves the blobs unchanged |
| BlobStore.RemoveKeepsUnique | uploader.py:144 | deleting a blob keeps `(filename, item_id)` keys unique |
| BlobStore.RemoveFound | uploader.py:142-146 | deleting the found blob leaves none under its key and changes nothing under other keys |
| BlobStore.PutKeepsKeysUnique | uploader.py:141-157 | keys stay unique, other keys' blobs are untouched, and a successful put is what `find_one` returns for its key |
| BlobStore.UploadKeepsKeysUnique | uploader.py:133-157 | the same for `upload`, with `filename = basename(glb_path)` and metadata `{item_id, folder}` |
| BlobStore.UniqueAppend | uploader.py:150 | putting a blob under a fresh key keeps keys unique and makes it the one found |
| BlobStore.FindSkips | uploader.py:142 | the search returns the first match after non-matching blobs |
| BlobStore.ReuploadReplaces | uploader.py:142-153 | uploading the same file twice replaces it: one deletion, same blob count, keys unique |
| Processor.SetDefault | processor.py:40 | `setdefault(category, 0)` adds the key and changes no count |
| Processor.Deliver | processor.py:53-62 | `path` is set to the GLB before the uploads; a raising Postgres upload counts one failure with `FAIL: Upload failed`; otherwise one Mongo upload, counter and `count_inserted` up by one together, status `OK` |
| Processor.DeliverMatchesUploaders | processor.py:53-55 | the fold hands each store what the uploaders' models produce for the same call |
| Processor.ProcessFile | processor.py:47-65 | one converter call on the path joined onto `meta['path']`, with the attempt `NextAttempt` gives; it raises iff the converter raises; otherwise one of inserted/failed grows; an insertion happens iff the attempt delivers and leaves `meta['path']` on an exported GLB |
| Processor.Beneath | converters/trimesh_converter.py:30-49 | a mesh path beneath a regular file never delivers: `convert` returns `None` unless the repair raised, and the rest of the attempt is kept |
| Processor.NextAttempt | processor.py:49-53 | the next call of a folder whose path is an exported GLB is looked for beneath it; any other call is the oracle's |
| Processor.ProcessFileOutcome | processor.py:49-65 | the status is the attempt's outcome; a delivered file sets `meta['path']` to the exported GLB; the only Postgres upload is for the folder's item |
| Processor.OneDelivery | processor.py:49-58 | a delivering attempt is one converter call on the joined path, one insertion, and moves `meta['path']` to its GLB |
| Processor.ProcessFiles | processor.py:47-65 | at most one converter call per source mesh, all of them unless one raised; every call counted once as inserted or failed except a raising last one; at most one insertion, and none once `meta['path']` is a GLB |
| Processor.ProcessFilesFirstCall | processor.py:47-50 | the loop's first converter call gets the attempt for `meta['path']` as the loop found it |
| Processor.ProcessFilesStep | processor.py:47-50 | a non-raising source mesh is one step of the loop |
| Processor.ProcessFilesUnconverted | processor.py:47-66 | a loop that made no converter call leaves `meta` as analysed, with no status |
| Processor.ProcessFilesStatus | processor.py:57-64 | the folder's status is its last converter call's outcome |
| Processor.ProcessFilesRaised | processor.py:44-68 | an exception escapes the loop only from the converter, on its last call |
| Processor.ProcessFilesUploadsOwnItem | processor.py:47-55 | every Postgres upload of the loop is for the folder's own item id |
| Processor.ProcessFileUploads | processor.py:49-54 | one source mesh makes at most one Postgres upload, none beneath an exported GLB, and after one `meta['path']` is the GLB |
| Processor.ProcessFilesUploadsOnce | processor.py:45-54 | a folder's loop uploads its fresh `meta` at most once, and not at all once `meta['path']` is an exported GLB |
| Processor.FailedWriteReportedOk | processor.py:54-58 | a swallowed write failure is counted and reported `OK`, though no row is written; the Mongo upload still runs, and stores no blob when the GLB is missing |
| Processor.Listed | processor.py:45-72 | exactly one report entry; each converter call counted once as inserted or failed, a raised folder's counting one extra failure; at most one insertion |
| Processor.ListedOutcome | processor.py:47-72 | the entry is the unchanged metadata without a source mesh, carries the last call's status, or is the minimal `FAIL` entry when the converter raised |
| Processor.Admit | processor.py:41-72 | a full quota changes nothing; otherwise one report entry, and a listing error records the folder and counts one failure |
| Processor.ProcessFolder | processor.py:38-72 | a folder without `.obj` is ignored; a full quota skips it with no entry and no count change; otherwise one entry |
| Processor.Admitted | processor.py:39-40 | `setdefault` changes no count and nothing else |
| Processor.FolderIsListed | processor.py:38-47 | an entered, admitted, listable folder is analysed and goes through the file loop |
| Processor.FolderCounts | processor.py:56-58 | the category count grows by exactly the number inserted; no other category moves |
| Processor.FolderAccounting | processor.py:44-72 | every converter call is counted once, and a folder whose listing raised is recorded and counted once; every insertion is one Mongo upload |
| Processor.FolderCallsBound | processor.py:47-58 | at most one converter call per source mesh, at most one insertion per call and per folder |
| Processor.FolderUploadsOwnItem | processor.py:45-55 | every Postgres upload of a folder is for its basename |
| Processor.ListedDelivers | processor.py:47-66 | a folder with one source mesh whose attempt delivers is reported `OK` |
| Processor.FolderIsolated | processor.py:36-72 | whatever failed earlier, an admitted folder with one source mesh whose attempt delivers is reported `OK` |
| Processor.FolderQuota | processor.py:40-58 | a category below the quota ends a folder at most at the quota; one at or over it does not move |
| Processor.SecondMeshBeneathGlb | processor.py:49-65 | after a delivered mesh the next call is on the second name joined onto the GLB, with an attempt that cannot deliver: one insertion, and status `FAIL: GLB conversion failed` unless it raised |
| Processor.TwoSourceMeshLoop | processor.py:47-50 | the loop over two source meshes, the first not raising, is the two steps in a row |
| Processor.TwoSourceMeshListed | processor.py:47-66 | a folder of two source meshes whose first delivers: calls on `root/f1` and `glb1/f2`, one insertion and one failure, and the entry carries `FAIL: GLB conversion failed` iff the second call did not raise |
| Processor.TwoSourceMeshes | processor.py:38-66 | under a quota of one, such a folder inserts once and its category ends at exactly one |
| Processor.Process | processor.py:36-37 | the report only grows, by at most one entry per directory |
| Processor.QuotaBound | processor.py:36-58 | over a run, a category below the quota ends at most at the quota; one at or over it does not move |
| Processor.RunAccounting | processor.py:33-72 | over a run, inserted plus failed grows by the converter calls plus the folders whose listing raised; no more insertions than calls |
| Processor.ListingErrorFromWalk | processor.py:44-72 | a folder recorded for a failed listing is a walked directory whose listing raised |
| Processor.RunMongoUploads | processor.py:55-58 | every insertion of a run is one Mongo upload |
| Processor.ItemIds | processor.py:17 | every walked directory's basename is an item id of the walk |
| Processor.ItemIdsFromWalk | processor.py:17 | every item id of the walk is the basename of a walked directory |
| Processor.RunUploadsWalkedItems | processor.py:36-55 | every Postgres upload of a run is for a walked directory |
| Processor.PgReplayKeys | uploader.py:73-114 | replayed uploads add rows only for uploaded item ids |
| Processor.MongoReplay | uploader.py:133-157 | every replayed upload counts once as uploaded or failed |
| Processor.MongoReplayKeepsKeysUnique | uploader.py:139-150 | GridFS keys stay unique under any sequence of uploads |
| Processor.Run | processor.py:32-74 | the instance's report only grows; the counts start at zero and end with inserted plus failed equal to the converter calls plus the folders whose listing raised, inserted at most the calls |
| Processor.RunListingErrorsFromWalk | processor.py:44-72 | every folder a run counts for a failed listing is a walked directory whose listing raised |
| Processor.RunInsertsAreMongoUploads | processor.py:55-58 | Mongo's uploaded plus failed counters grow by `count_inserted` |
| Processor.RunKeepsKeysUnique | processor.py:36-55 | GridFS keys stay unique over a run |
| Processor.RowsComeFromWalk | processor.py:36-54 | every row after a run existed before or belongs to a walked directory |
| Processor.QuotaHeld | processor.py:40-58 | over `process()`, a category below the quota ends at most at the quota; one at or over it, from an earlier run, does not move |
| Processor.QuotaHeldFromFresh | processor.py:36-58 | on a fresh instance no category ends over a non-negative quota |
| DrawMode.Strip | static/utils/BufferGeometryUtils.js:44-62 | `3n` entries; triangle `t` is `(t, t+1, t+2)`, odd ones with the first two swapped; every value comes from the index |
| DrawMode.Fan | static/utils/BufferGeometryUtils.js:66-76 | `3n` entries; triangle `t` is `(idx[0], idx[t+1], idx[t+2])`; every value comes from the index |
| DrawMode.StripWindingConsistent | static/utils/BufferGeometryUtils.js:48-62 | consecutive strip triangles share an edge in opposite directions, so the winding is consistent |
| DrawMode.FanWindingConsistent | static/utils/BufferGeometryUtils.js:70-76 | consecutive fan triangles share the hub edge in opposite directions and all start at the hub |
| DrawMode.NewIndex | static/utils/BufferGeometryUtils.js:87 | Uint32 iff the position count exceeds 65535; each value is stored modulo the array's capacity |
| DrawMode.NewIndexLossless | static/utils/BufferGeometryUtils.js:87 | the new index equals the list iff every value fits the chosen array |
| DrawMode.ValidIndexLossless | static/utils/BufferGeometryUtils.js:87 | values below the position count always fit |
| DrawMode.RebuildTriangles | static/utils/BufferGeometryUtils.js:41-89 | a clone with `3 * (count - 2)` index entries; the line-80 check fires iff `count < 2` |
| DrawMode.RebuildContents | static/utils/BufferGeometryUtils.js:44-89 | for a valid geometry the new index holds exactly the strip or fan triangles |
| DrawMode.ToTrianglesDrawMode | static/utils/BufferGeometryUtils.js:3-91 | mode 4 and a geometry without index and position return the input; no index with positions throws at line 41; an index without positions throws at line 87 |
| DrawMode.Range | static/utils/BufferGeometryUtils.js:21-27 | the generated index is `0 .. count - 1` |
| DrawMode.NonIndexedStripThrows | static/utils/BufferGeometryUtils.js:13-41 | a non-indexed strip of three vertices throws at line 41 |
| DrawMode.ToTrianglesDrawModeFixed | static/utils/BufferGeometryUtils.js:3-91 | agrees with the original on indexed input and never throws at line 41 |
| DrawMode.FixedConvertsNonIndexedStrip | static/utils/BufferGeometryUtils.js:13-62 | the fixed function turns a non-indexed strip of `n` vertices into its `n - 2` strip triangles |
| DataLoader.FindGlb | data_loader.py:20-23 | the query finds the first `.glb` blob of the item, and none iff there is none |
| DataLoader.Ids | data_loader.py:34-37 | the batch's ids, in order |
| DataLoader.LoadBatch | data_loader.py:17-43 | at most one entry per id; each holds the mesh loaded from its item's first GLB |
| DataLoader.LoadBatchIds | data_loader.py:17-43 | the batch's ids are the input ids with a GLB that loads, in input order |
| DataLoader.LoadBatchSubsequence | data_loader.py:17-43 | the batch is an order-preserving selection of exactly the kept positions |
| DataLoader.LoadBatchAppend | data_loader.py:19-43 | loading a concatenation is concatenating the loads |
| DataLoader.Chunks | data_loader.py:47-48 | every slice is non-empty and at most `batch_size` long |
| DataLoader.ChunksFlatten | data_loader.py:47-48 | the slices concatenate back to `item_ids` |
| DataLoader.ChunkOffsets | data_loader.py:47-48 | slice `k` is `item_ids[k*size : k*size + size]`: consecutive, non-overlapping, from 0 |
| DataLoader.ChunkSizes | data_loader.py:47-48 | every slice but the last has exactly `batch_size` elements |
| DataLoader.GetBatches | data_loader.py:45-48 | a zero batch size raises, a negative one yields nothing, a positive one one batch per slice |
| DataLoader.LoadAll | data_loader.py:47-48 | batch `k` is `load_batch` of slice `k` |
| DataLoader.LoadAllFlatten | data_loader.py:47-48 | the batches concatenate to one `load_batch` over all the slices |
| DataLoader.BatchesConcatenate | data_loader.py:17-48 | batching changes only the grouping: the batches concatenate to `load_batch(item_ids)` |

## Left out

- File-system I/O (`os.walk`, `os.listdir`, `open`, `os.path.exists`, temp files, `os.makedirs`): directory contents, walk order, file presence and file text are inputs. `os.walk`'s listing and the later `os.listdir` of the same folder are separate inputs, because they can differ.
- `analyze_mesh`'s numerics (trimesh load, area, edge lengths, volume, Euler number): floating point inside a foreign library. The analysis is an opaque `Analyzed(stats)` or `AnalysisFailed`, and the numbers are carried, not computed.
- trimesh loading and export, psycopg2 and pymongo/GridFS internals: these are foreign calls. Their outcomes on each call are parameters (`ConvertEnv`, `Attempt`, `WriteOutcome`, `Fault`, the `load` function of `LoadBatch`).
- The link between the processor's converter outcome and `Converter.Convert`: the processor takes the outcome from its oracle. `Converter.Convert` describes which outcomes the converter can produce. The oracle is free except for one restriction, `Beneath`: a mesh path joined onto a GLB the run exported never delivers, because that GLB is a regular file. This relies on two facts the model takes as given: names from a listing contain no `/`, so the joined path lies beneath the GLB, and a walked directory is never a GLB file the run exported.
- Beneath: a mesh beneath a GLB keeps the oracle's repair fault, though no material file can exist there. The model promises only that such a call does not deliver.
- The uploads are replayed after the fold, not interleaved with it. Nothing in `process` reads a store, so the final stores are the same.
- Windows paths: only POSIX `posixpath` semantics are modelled.
- Newline translation on writing: `writelines` in text mode writes `\n` on POSIX, as modelled.
- All `print` and `console.error` output, `print_summary`, and the emoji/Hebrew log lines: logging only. The line-80 check is modelled as the `warned` flag.
- DataLoader.FindGlb: models the `.*\.glb$` regex as "the name ends in `.glb`". The regex `$` also matches before a final newline, so a name ending in `.glb\n` is not modelled.
- `list_available_items` (`distinct("metadata.item_id")`): the id list is an input of `GetBatches`.
- An exception from `fs.get` or from writing the temp file escapes `load_batch`. Only a failing mesh load, which is caught, is modelled (as `load` returning `None`).
- The `FromArray` index that `setIndex(array)` creates: its typed-array choice belongs to three.js, which is not part of this model.
- `main.py`, `main_loader.py`, `api_server.py` and `convert_dataset.py`: configuration wiring, a Flask route, and code that is commented out.
- The `Value` payloads of `metadata_notes` and the `created_at` clock: the clock is the `now` parameter of each upload.
- Converter.MtlPath: its contract states only the length. The exact rewrite is stated by `MtlPathOfPlainPath` and `MtlPathRewritesDirectories` for the path shapes that matter.
- Converter.Convert: an export that raises is taken to leave no partial file at the output path; `trimesh` may leave one, but what it writes before failing belongs to that library.
- Seqs.Filter: states membership both ways and the length bound. The order and position facts are in `FilterEmbeds`.

## Findings

| source | as written | input that shows it | evidently intended | confidence | as-written member | corrected member |
|---|---|---|---|---|---|---|
| static/utils/BufferGeometryUtils.js:41 | for a geometry without an index, line 27 sets a generated index on the geometry, but the local `index` still holds `null`, and line 41 reads `index.count` and throws a TypeError | a non-indexed geometry with 3 positions, `drawMode` 5 (`DrawMode.NonIndexedStripThrows`) | read the generated index back (`index = geometry.getIndex()`) before line 41, so the strip of `n` vertices becomes its `n - 2` triangles | high; not executed | DrawMode.ToTrianglesDrawMode | DrawMode.ToTrianglesDrawModeFixed |
