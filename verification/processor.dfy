/** `DatasetProcessor.process`: a fold over the directories `os.walk`
    yields, with the per-category quota checked on entry, and per source mesh
    convert, Postgres upload and Mongo upload, counted and reported.

    The processor never reads either store: it only hands each one a
    sequence of uploads. The model therefore logs the calls during the run,
    and the stores after the run are the two logs replayed through
    `MetadataStore.Upload` and `BlobStore.Upload` (`Run`).

    The collaborators' behaviour on each converter call comes from an
    `oracle` indexed by the call's number, with one restriction the file
    system imposes: a call on a path beneath a GLB file the run has
    exported cannot produce a GLB (`Beneath`). */
module Processor {
  import opened Wrappers
  import opened Paths
  import opened Seqs
  import opened Records
  import opened FolderScan
  import Converter
  import MetadataStore
  import BlobStore

  /** One directory from `os.walk`: its path, the file names walk reported,
      and what `os.listdir` returns (or raises) when it is analysed. */
  datatype WalkEntry = WalkEntry(root: string, files: seq<string>, listing: Result<seq<string>, string>)

  /** What the collaborators do on one attempt, i.e. for one source mesh
      handed to the converter: the converter's outcome, the mesh analysis,
      the Postgres write and its clock, and the Mongo upload's view of the
      file. */
  datatype Attempt = Attempt(
    convert: Converter.ConvertResult,
    analysis: MetadataStore.Analysis,
    write: MetadataStore.WriteOutcome,
    now: int,
    glbExists: bool,
    data: BlobStore.Bytes,
    fault: BlobStore.Fault)

  /** `PostgresUploader.upload(meta, glb_path)` as called, with the
      collaborators' behaviour on that call. */
  datatype PgCall = PgCall(meta: FolderMeta, analysis: MetadataStore.Analysis, write: MetadataStore.WriteOutcome, now: int)

  /** `MongoUploader.upload(meta, glb_path)` as called. */
  datatype MongoCall = MongoCall(itemId: string, folder: string, glbPath: string, exists_: bool, data: BlobStore.Bytes, fault: BlobStore.Fault)

  /** One `converter.convert(obj_path)` call: the path it was handed, and
      how the collaborators behaved on it. */
  datatype Call = Call(path: string, attempt: Attempt)

  /** A report entry: the folder's whole metadata dictionary, or the minimal
      dictionary written when the folder raised. */
  datatype Entry = Full(meta: FolderMeta) | Minimal(itemId: string, path: string, status: Status)

  /** The instance's `category_counter` and `report`, the call's
      `count_inserted` and `count_failed`, the converter calls, the GLB files
      the converter exported, the folders whose listing raised, and the
      uploads handed to each store. */
  datatype State = State(
    counter: map<string, int>,
    report: seq<Entry>,
    inserted: int,
    failed: int,
    calls: seq<Call>,
    outputs: set<string>,
    listingErrors: seq<string>,
    pgLog: seq<PgCall>,
    mongoLog: seq<MongoCall>)

  /** The state a `process()` call starts from: the instance's counter and
      report as earlier calls left them, and nothing else yet. */
  function Fresh(counter: map<string, int>, report: seq<Entry>): State
  {
    State(counter, report, 0, 0, [], {}, [], [], [])
  }

  /** `category_counter.get(c, 0)` */
  function Count(counter: map<string, int>, c: string): int
  {
    if c in counter then counter[c] else 0
  }

  /** `category_counter.setdefault(c, 0)`: the key is present afterwards
      and no count changes, since a missing key already counts as zero. */
  function SetDefault(counter: map<string, int>, c: string): (r: map<string, int>)
    ensures c in r && r.Keys == counter.Keys + {c}
    ensures forall d :: Count(r, d) == Count(counter, d)
  {
    if c in counter then counter else counter[c := 0]
  }

  /** The status one attempt leaves in `meta`, when it does not raise. */
  function OutcomeOf(a: Attempt): Status
  {
    match a.convert
    case Raised(_) => ConversionFailed
    case Returned(out) =>
      if out.None? || out.value == "" then ConversionFailed
      else if a.write.RollbackFailed? then UploadFailed(a.write.error)
      else Status.Ok
  }

  /** The converter ran and both uploads went through without raising. */
  predicate Delivers(a: Attempt)
  {
    a.convert.Returned? && a.convert.output.Some? && a.convert.output.value != ""
    && !a.write.RollbackFailed?
  }

  /** The converter handed a path beneath a regular file: no mesh exists
      there, so `trimesh.load` raises inside the `try` and `convert` returns
      `None`. The repair before the `try` runs as it would anywhere, and may
      still raise; the rest of the attempt is as the oracle says. */
  function Beneath(a: Attempt): (b: Attempt)
    ensures b.convert.Raised? <==> a.convert.Raised?
    ensures b.convert.Raised? ==> b.convert == a.convert
    ensures b.convert.Returned? ==> b.convert.output.None?
    ensures !Delivers(b) && b == a.(convert := b.convert)
  {
    if a.convert.Raised? then a else a.(convert := Converter.Returned(None))
  }

  /** How the collaborators behave on the next converter call of a folder
      whose `meta['path']` is `path`. After a successful conversion that path
      is the GLB file just exported, so every later source mesh of the folder
      is looked for beneath a regular file. */
  function NextAttempt(st: State, path: string, oracle: nat -> Attempt): (a: Attempt)
    ensures path in st.outputs ==> a == Beneath(oracle(|st.calls|)) && !Delivers(a)
    ensures path !in st.outputs ==> a == oracle(|st.calls|)
  {
    if path in st.outputs then Beneath(oracle(|st.calls|)) else oracle(|st.calls|)
  }

  /** The attempt behind the last converter call of a run. */
  function LastAttempt(calls: seq<Call>): Attempt
    requires |calls| > 0
  {
    calls[|calls| - 1].attempt
  }

  /** The file loop either runs to the end, or an exception escapes it. */
  datatype Progress = Finished(st: State, meta: FolderMeta) | Aborted(st: State, error: string)

  /** A converted file: the Postgres upload with `meta['path']` set to the
      GLB, which merges the analysis into `meta` and raises only when the
      rollback raises; then, unless it raised, the Mongo upload and the
      count. */
  function Deliver(st: State, meta: FolderMeta, category: string, glb: string, a: Attempt): (r: Progress)
    ensures r.Finished? && r.st.report == st.report && r.st.calls == st.calls
    ensures r.st.outputs == st.outputs && r.st.listingErrors == st.listingErrors
    ensures r.st.inserted + r.st.failed == st.inserted + st.failed + 1
    ensures r.st.inserted >= st.inserted && r.st.failed >= st.failed
    ensures r.st.inserted == st.inserted + 1 <==> !a.write.RollbackFailed?
    ensures Count(r.st.counter, category) == Count(st.counter, category) + r.st.inserted - st.inserted
    ensures forall c :: c != category ==> Count(r.st.counter, c) == Count(st.counter, c)
    ensures st.counter.Keys <= r.st.counter.Keys <= st.counter.Keys + {category}
    ensures r.st.pgLog == st.pgLog + [PgCall(meta.(path := glb), a.analysis, a.write, a.now)]
    ensures |r.st.mongoLog| == |st.mongoLog| + r.st.inserted - st.inserted
    ensures r.st.mongoLog[..|st.mongoLog|] == st.mongoLog
    ensures r.meta.itemId == meta.itemId && r.meta.path == glb
    ensures r.meta.status == Some(if a.write.RollbackFailed? then UploadFailed(a.write.error) else Status.Ok)
  {
    var st1 := st.(pgLog := st.pgLog + [PgCall(meta.(path := glb), a.analysis, a.write, a.now)]);
    var m := MetadataStore.MergeAnalysis(meta.(path := glb), a.analysis);
    if a.write.RollbackFailed? then
      Finished(st1.(failed := st1.failed + 1), m.(status := Some(UploadFailed(a.write.error))))
    else
      Finished(st1.(mongoLog := st1.mongoLog + [MongoCall(m.itemId, m.path, glb, a.glbExists, a.data, a.fault)],
                    counter := st1.counter[category := Count(st1.counter, category) + 1],
                    inserted := st1.inserted + 1),
               m.(status := Some(Status.Ok)))
  }

  /** `Deliver` hands each store exactly what the uploaders' own models
      return for that call: the metadata `PostgresUploader.upload` leaves in
      `meta`, the exception it raises, and the Mongo call with that
      metadata's id and path. */
  lemma DeliverMatchesUploaders(table: MetadataStore.Table, st: State, meta: FolderMeta, category: string, glb: string, a: Attempt)
    ensures var pg := MetadataStore.Upload(table, meta.(path := glb), a.analysis, a.write, a.now);
            var r := Deliver(st, meta, category, glb, a);
            && r.meta == pg.meta.(status := r.meta.status)
            && (pg.raised.Some? <==> r.st.inserted == st.inserted)
            && (pg.raised.Some? ==> r.meta.status == Some(UploadFailed(pg.raised.value)))
            && (pg.raised.None? ==>
                  r.st.mongoLog == st.mongoLog + [MongoCall(pg.meta.itemId, pg.meta.path, glb, a.glbExists, a.data, a.fault)])
  {
  }

  /** One source mesh `f` of a folder of category `category`. The path
      handed to the converter joins `f` onto `meta['path']`, which an earlier
      successful file of the same folder has overwritten. */
  function ProcessFile(st: State, meta: FolderMeta, category: string, f: string, oracle: nat -> Attempt): (r: Progress)
    ensures r.st.report == st.report
    ensures r.st.calls == st.calls + [Call(Join(meta.path, f), NextAttempt(st, meta.path, oracle))]
    ensures r.Aborted? <==> NextAttempt(st, meta.path, oracle).convert.Raised?
    ensures r.Aborted? ==> r.st == st.(calls := r.st.calls) && r.error == NextAttempt(st, meta.path, oracle).convert.error
    ensures r.Finished? ==> r.st.inserted + r.st.failed == st.inserted + st.failed + 1
    ensures r.st.inserted >= st.inserted && r.st.failed >= st.failed
    ensures r.st.inserted == st.inserted + 1 <==> Delivers(NextAttempt(st, meta.path, oracle))
    ensures r.st.inserted <= st.inserted + 1
    ensures Count(r.st.counter, category) == Count(st.counter, category) + r.st.inserted - st.inserted
    ensures forall c :: c != category ==> Count(r.st.counter, c) == Count(st.counter, c)
    ensures st.counter.Keys <= r.st.counter.Keys <= st.counter.Keys + {category}
    ensures |r.st.mongoLog| == |st.mongoLog| + r.st.inserted - st.inserted
    ensures r.st.listingErrors == st.listingErrors && st.outputs <= r.st.outputs
    ensures r.Finished? ==> r.meta.itemId == meta.itemId
    ensures r.Finished? ==> r.meta.path == meta.path || r.meta.path in r.st.outputs
    ensures r.st.inserted == st.inserted + 1 ==> r.Finished? && r.meta.path in r.st.outputs
  {
    var a := NextAttempt(st, meta.path, oracle);
    var st1 := st.(calls := st.calls + [Call(Join(meta.path, f), a)]);
    match a.convert
    case Raised(e) => Aborted(st1, e)
    case Returned(out) =>
      if out.None? || out.value == "" then
        Finished(st1.(failed := st1.failed + 1), meta.(status := Some(ConversionFailed)))
      else
        Deliver(st1.(outputs := st1.outputs + {out.value}), meta, category, out.value, a)
  }

  /** What one source mesh leaves in the folder's metadata and in the
      Postgres log: the status is the outcome of its attempt, a delivered
      file moves `meta['path']` to the exported GLB, and the only upload is
      for the folder's own item. */
  lemma ProcessFileOutcome(st: State, meta: FolderMeta, category: string, f: string, oracle: nat -> Attempt)
    ensures var r := ProcessFile(st, meta, category, f, oracle);
            var a := NextAttempt(st, meta.path, oracle);
            && (r.Finished? ==> r.meta.status == Some(OutcomeOf(a)))
            && (Delivers(a) ==> r.Finished? && r.meta.path == a.convert.output.value && r.meta.path in r.st.outputs)
            && |st.pgLog| <= |r.st.pgLog| && r.st.pgLog[..|st.pgLog|] == st.pgLog
            && forall i :: |st.pgLog| <= i < |r.st.pgLog| ==> r.st.pgLog[i].meta.itemId == meta.itemId
  {
  }

  /** One source mesh makes at most one Postgres upload, none when
      `meta['path']` is already an exported GLB, and after an upload
      `meta['path']` is one. */
  lemma ProcessFileUploads(st: State, meta: FolderMeta, category: string, f: string, oracle: nat -> Attempt)
    ensures var r := ProcessFile(st, meta, category, f, oracle);
            && |st.pgLog| <= |r.st.pgLog| <= |st.pgLog| + 1
            && (meta.path in st.outputs ==> |r.st.pgLog| == |st.pgLog|)
            && (|r.st.pgLog| > |st.pgLog| ==> r.Finished? && r.meta.path in r.st.outputs)
  {
  }

  /** The loop over `meta['all_files']`. */
  function ProcessFiles(st: State, meta: FolderMeta, category: string, files: seq<string>, oracle: nat -> Attempt): (r: Progress)
    ensures r.st.report == st.report
    ensures |st.calls| <= |r.st.calls| <= |st.calls| + |Filter(files, IsSourceMesh)|
    ensures r.st.calls[..|st.calls|] == st.calls
    ensures r.Finished? ==> |r.st.calls| == |st.calls| + |Filter(files, IsSourceMesh)|
    ensures r.Finished? ==> r.st.inserted + r.st.failed == st.inserted + st.failed + |r.st.calls| - |st.calls|
    ensures r.Aborted? ==> r.st.inserted + r.st.failed == st.inserted + st.failed + |r.st.calls| - |st.calls| - 1
    ensures r.st.inserted >= st.inserted && r.st.failed >= st.failed
    ensures Count(r.st.counter, category) == Count(st.counter, category) + r.st.inserted - st.inserted
    ensures forall c :: c != category ==> Count(r.st.counter, c) == Count(st.counter, c)
    ensures st.counter.Keys <= r.st.counter.Keys <= st.counter.Keys + {category}
    ensures |r.st.mongoLog| == |st.mongoLog| + r.st.inserted - st.inserted
    ensures r.st.listingErrors == st.listingErrors && st.outputs <= r.st.outputs
    ensures r.st.inserted <= st.inserted + 1
    ensures meta.path in st.outputs ==> r.st.inserted == st.inserted
    ensures r.Finished? ==> r.meta.itemId == meta.itemId
    decreases |files|
  {
    if |files| == 0 then Finished(st, meta)
    else if !IsSourceMesh(files[0]) then ProcessFiles(st, meta, category, files[1..], oracle)
    else
      match ProcessFile(st, meta, category, files[0], oracle)
      case Aborted(st1, e) => Aborted(st1, e)
      case Finished(st1, m1) =>
        var r := ProcessFiles(st1, m1, category, files[1..], oracle);
        assert r.st.calls[..|st.calls|] == r.st.calls[..|st1.calls|][..|st.calls|];
        r
  }

  /** One step of the file loop over a source mesh that does not raise. */
  lemma ProcessFilesStep(st: State, meta: FolderMeta, category: string, files: seq<string>, oracle: nat -> Attempt)
    requires |files| > 0 && IsSourceMesh(files[0])
    requires ProcessFile(st, meta, category, files[0], oracle).Finished?
    ensures var p := ProcessFile(st, meta, category, files[0], oracle);
            ProcessFiles(st, meta, category, files, oracle) == ProcessFiles(p.st, p.meta, category, files[1..], oracle)
  {
  }

  /** A file loop that converted nothing leaves the folder's metadata as
      the analysis produced it. */
  lemma {:induction false} ProcessFilesUnconverted(st: State, meta: FolderMeta, category: string, files: seq<string>, oracle: nat -> Attempt)
    ensures var r := ProcessFiles(st, meta, category, files, oracle);
            r.Finished? && |r.st.calls| == |st.calls| ==> r.meta == meta
    decreases |files|
  {
    if |files| > 0 && !IsSourceMesh(files[0]) {
      ProcessFilesUnconverted(st, meta, category, files[1..], oracle);
    }
  }

  /** The folder's status after the file loop is the outcome of its last
      converter call. */
  lemma {:induction false} ProcessFilesStatus(st: State, meta: FolderMeta, category: string, files: seq<string>, oracle: nat -> Attempt)
    ensures var r := ProcessFiles(st, meta, category, files, oracle);
            r.Finished? && |r.st.calls| > |st.calls| ==> r.meta.status == Some(OutcomeOf(LastAttempt(r.st.calls)))
    decreases |files|
  {
    if |files| == 0 {
    } else if !IsSourceMesh(files[0]) {
      ProcessFilesStatus(st, meta, category, files[1..], oracle);
    } else {
      var p := ProcessFile(st, meta, category, files[0], oracle);
      if p.Finished? {
        ProcessFileOutcome(st, meta, category, files[0], oracle);
        ProcessFilesStep(st, meta, category, files, oracle);
        ProcessFilesUnconverted(p.st, p.meta, category, files[1..], oracle);
        ProcessFilesStatus(p.st, p.meta, category, files[1..], oracle);
        var r := ProcessFiles(p.st, p.meta, category, files[1..], oracle);
        if r.Finished? && |r.st.calls| == |p.st.calls| {
          assert r.st.calls == p.st.calls by {
            assert r.st.calls == r.st.calls[..|p.st.calls|];
          }
        }
      }
    }
  }

  /** An exception escapes the file loop only from the converter, on the
      loop's last call. */
  lemma {:induction false} ProcessFilesRaised(st: State, meta: FolderMeta, category: string, files: seq<string>, oracle: nat -> Attempt)
    ensures var r := ProcessFiles(st, meta, category, files, oracle);
            r.Aborted? ==>
              && |r.st.calls| > |st.calls|
              && LastAttempt(r.st.calls).convert.Raised?
              && r.error == LastAttempt(r.st.calls).convert.error
    decreases |files|
  {
    if |files| == 0 {
    } else if !IsSourceMesh(files[0]) {
      ProcessFilesRaised(st, meta, category, files[1..], oracle);
    } else {
      var p := ProcessFile(st, meta, category, files[0], oracle);
      if p.Finished? {
        ProcessFilesRaised(p.st, p.meta, category, files[1..], oracle);
      }
    }
  }

  /** A folder's file loop makes at most one Postgres upload, and none once
      `meta['path']` is a GLB the run exported: after an upload the path is
      that GLB, and nothing beneath it converts. So every upload is of a
      fresh `meta` from `analyze_folder`. */
  lemma {:induction false} ProcessFilesUploadsOnce(st: State, meta: FolderMeta, category: string, files: seq<string>, oracle: nat -> Attempt)
    ensures |ProcessFiles(st, meta, category, files, oracle).st.pgLog| <= |st.pgLog| + (if meta.path in st.outputs then 0 else 1)
    decreases |files|
  {
    if |files| == 0 {
    } else if !IsSourceMesh(files[0]) {
      ProcessFilesUploadsOnce(st, meta, category, files[1..], oracle);
    } else {
      var p := ProcessFile(st, meta, category, files[0], oracle);
      ProcessFileUploads(st, meta, category, files[0], oracle);
      if p.Finished? {
        ProcessFilesUploadsOnce(p.st, p.meta, category, files[1..], oracle);
        if |p.st.pgLog| == |st.pgLog| {
          assert meta.path in st.outputs ==> p.meta.path in p.st.outputs;
        }
      }
    }
  }

  /** Every Postgres upload of a folder's file loop is for the folder's own
      item id, and earlier uploads stay as they were. */
  lemma {:induction false} ProcessFilesUploadsOwnItem(st: State, meta: FolderMeta, category: string, files: seq<string>, oracle: nat -> Attempt)
    ensures var r := ProcessFiles(st, meta, category, files, oracle);
            && |st.pgLog| <= |r.st.pgLog| && r.st.pgLog[..|st.pgLog|] == st.pgLog
            && forall i :: |st.pgLog| <= i < |r.st.pgLog| ==> r.st.pgLog[i].meta.itemId == meta.itemId
    decreases |files|
  {
    if |files| == 0 {
    } else if !IsSourceMesh(files[0]) {
      ProcessFilesUploadsOwnItem(st, meta, category, files[1..], oracle);
    } else {
      var p := ProcessFile(st, meta, category, files[0], oracle);
      ProcessFileOutcome(st, meta, category, files[0], oracle);
      if p.Finished? {
        ProcessFilesStep(st, meta, category, files, oracle);
        ProcessFilesUploadsOwnItem(p.st, p.meta, category, files[1..], oracle);
        var r := ProcessFiles(p.st, p.meta, category, files[1..], oracle);
        assert r.st.pgLog[..|st.pgLog|] == r.st.pgLog[..|p.st.pgLog|][..|st.pgLog|];
        forall i | |st.pgLog| <= i < |r.st.pgLog|
          ensures r.st.pgLog[i].meta.itemId == meta.itemId
        {
          if i < |p.st.pgLog| {
            assert r.st.pgLog[i] == p.st.pgLog[i];
          }
        }
      }
    }
  }

  /** A failed Postgres write is rolled back and swallowed: the item is
      still counted as inserted and reported `OK`, although no row was
      written, and when the GLB is then missing no blob is stored either. */
  lemma FailedWriteReportedOk(table: MetadataStore.Table, store: BlobStore.Store, st: State, meta: FolderMeta,
                              category: string, glb: string, a: Attempt)
    requires a.write.WriteFailed?
    ensures var r := Deliver(st, meta, category, glb, a);
            && r.meta.status == Some(Status.Ok)
            && r.st.inserted == st.inserted + 1
            && Count(r.st.counter, category) == Count(st.counter, category) + 1
            && PgReplay(table, r.st.pgLog[|st.pgLog|..]) == table
            && MongoReplay(store, r.st.mongoLog[|st.mongoLog|..])
                 == BlobStore.Upload(store, meta.itemId, glb, glb, a.glbExists, a.data, a.fault)
            && (!a.glbExists ==> MongoReplay(store, r.st.mongoLog[|st.mongoLog|..]).blobs == store.blobs)
  {
    var r := Deliver(st, meta, category, glb, a);
    var pgNew := r.st.pgLog[|st.pgLog|..];
    assert pgNew == [PgCall(meta.(path := glb), a.analysis, a.write, a.now)];
    assert PgReplay(table, pgNew) == PgReplay(table, pgNew[1..]);
    var m := MetadataStore.MergeAnalysis(meta.(path := glb), a.analysis);
    var mongoNew := r.st.mongoLog[|st.mongoLog|..];
    assert mongoNew == [MongoCall(m.itemId, m.path, glb, a.glbExists, a.data, a.fault)];
    assert MongoReplay(store, mongoNew) == MongoReplay(BlobStore.Upload(store, m.itemId, m.path, glb, a.glbExists, a.data, a.fault), []);
  }

  /** The last report entry is a folder's full metadata with status `OK`. */
  predicate EndsOk(report: seq<Entry>)
  {
    |report| > 0 && report[|report| - 1].Full? && report[|report| - 1].meta.status == Some(Status.Ok)
  }

  /** The category of an item folder: the name of its parent directory. */
  function CategoryOf(root: string): string
  {
    Basename(Dirname(root))
  }

  /** The folder test: `process` looks at a directory only if some file name
      ends in `.obj`. */
  predicate Enters(e: WalkEntry)
  {
    Any(e.files, IsMesh)
  }

  /** The quota test on entry, after `setdefault(category, 0)`. */
  predicate QuotaFull(st: State, e: WalkEntry, maxPerCategory: int)
  {
    Count(st.counter, CategoryOf(e.root)) >= maxPerCategory
  }

  /** A folder whose listing succeeded, with `meta` its analysis: run the
      file loop over `meta['all_files']` and append the folder's metadata to
      the report, or the minimal entry when an exception escaped the loop. */
  function Listed(st: State, root: string, category: string, meta: FolderMeta, oracle: nat -> Attempt): (r: State)
    ensures |r.report| == |st.report| + 1 && r.report[..|st.report|] == st.report
    ensures r.inserted >= st.inserted && r.failed >= st.failed
    ensures r.inserted <= st.inserted + 1
    ensures Count(r.counter, category) == Count(st.counter, category) + r.inserted - st.inserted
    ensures forall c :: c != category ==> Count(r.counter, c) == Count(st.counter, c)
    ensures st.counter.Keys <= r.counter.Keys <= st.counter.Keys + {category}
    ensures |st.calls| <= |r.calls| <= |st.calls| + |Filter(meta.allFiles, IsSourceMesh)|
    ensures r.calls[..|st.calls|] == st.calls
    ensures r.inserted + r.failed == st.inserted + st.failed + |r.calls| - |st.calls|
    ensures |r.mongoLog| == |st.mongoLog| + r.inserted - st.inserted
    ensures r.listingErrors == st.listingErrors && st.outputs <= r.outputs
  {
    match ProcessFiles(st, meta, category, meta.allFiles, oracle)
    case Finished(st1, m1) => st1.(report := st1.report + [Full(m1)])
    case Aborted(st1, msg) =>
      st1.(report := st1.report + [Minimal(Basename(root), root, FolderFailed(msg))],
           failed := st1.failed + 1)
  }

  /** After a file loop, the folder's report entry is its metadata with the
      status of its last converter call, its metadata unchanged when it has
      no source mesh, or the minimal failure entry when the converter
      raised. */
  lemma ListedOutcome(st: State, root: string, category: string, meta: FolderMeta, oracle: nat -> Attempt)
    ensures var r := Listed(st, root, category, meta, oracle);
            var last := r.report[|r.report| - 1];
            && (|r.calls| == |st.calls| ==> last == Full(meta))
            && (|r.calls| > |st.calls| && last.Full? ==> last.meta.status == Some(OutcomeOf(LastAttempt(r.calls))))
            && (last.Minimal? ==>
                  && |r.calls| > |st.calls|
                  && LastAttempt(r.calls).convert.Raised?
                  && last == Minimal(Basename(root), root, FolderFailed(LastAttempt(r.calls).convert.error)))
  {
    ProcessFilesUnconverted(st, meta, category, meta.allFiles, oracle);
    ProcessFilesStatus(st, meta, category, meta.allFiles, oracle);
    ProcessFilesRaised(st, meta, category, meta.allFiles, oracle);
  }

  /** A folder past the `.obj` test, after `setdefault`: the quota check,
      then the listing. */
  function Admit(st: State, e: WalkEntry, category: string, maxPerCategory: int, oracle: nat -> Attempt): (r: State)
    ensures Count(st.counter, category) >= maxPerCategory ==> r == st
    ensures Count(st.counter, category) < maxPerCategory ==>
      |r.report| == |st.report| + 1 && r.report[..|st.report|] == st.report
    ensures |r.report| >= |st.report| && r.report[..|st.report|] == st.report
    ensures r.inserted >= st.inserted && r.failed >= st.failed
    ensures r.inserted <= st.inserted + 1
    ensures Count(r.counter, category) == Count(st.counter, category) + r.inserted - st.inserted
    ensures forall c :: c != category ==> Count(r.counter, c) == Count(st.counter, c)
    ensures |st.calls| <= |r.calls| && r.calls[..|st.calls|] == st.calls
    ensures r.listingErrors ==
      st.listingErrors + (if Count(st.counter, category) < maxPerCategory && e.listing.Err? then [e.root] else [])
    ensures r.inserted + r.failed == st.inserted + st.failed + |r.calls| - |st.calls| + |r.listingErrors| - |st.listingErrors|
    ensures |r.calls| - |st.calls| <=
              (if Count(st.counter, category) < maxPerCategory && e.listing.Ok? then |Filter(e.listing.value, IsSourceMesh)| else 0)
    ensures |r.mongoLog| == |st.mongoLog| + r.inserted - st.inserted
  {
    if Count(st.counter, category) >= maxPerCategory then st
    else
      match e.listing
      case Err(msg) =>
        st.(report := st.report + [Minimal(Basename(e.root), e.root, FolderFailed(msg))],
            failed := st.failed + 1,
            listingErrors := st.listingErrors + [e.root])
      case Ok(files) => Listed(st, e.root, category, AnalyzeFolder(e.root, files), oracle)
  }

  /** The body of the `os.walk` loop for one directory. */
  function ProcessFolder(st: State, e: WalkEntry, maxPerCategory: int, oracle: nat -> Attempt): (r: State)
    ensures !Enters(e) ==> r == st
    ensures Enters(e) && QuotaFull(st, e, maxPerCategory) ==>
      r == st.(counter := r.counter) && forall c :: Count(r.counter, c) == Count(st.counter, c)
    ensures Enters(e) && !QuotaFull(st, e, maxPerCategory) ==>
      |r.report| == |st.report| + 1 && r.report[..|st.report|] == st.report
    ensures |r.report| >= |st.report| && r.report[..|st.report|] == st.report
    ensures r.inserted >= st.inserted && r.failed >= st.failed
  {
    if !Enters(e) then st
    else Admit(st.(counter := SetDefault(st.counter, CategoryOf(e.root))), e, CategoryOf(e.root), maxPerCategory, oracle)
  }

  /** The state a folder's file loop starts from: the counter after
      `setdefault`. */
  function Admitted(st: State, e: WalkEntry): (r: State)
    ensures forall c :: Count(r.counter, c) == Count(st.counter, c)
    ensures r == st.(counter := r.counter)
  {
    st.(counter := SetDefault(st.counter, CategoryOf(e.root)))
  }

  /** A folder that passes the `.obj` test and the quota, and whose listing
      succeeded, is analysed and goes through the file loop. */
  lemma FolderIsListed(st: State, e: WalkEntry, maxPerCategory: int, oracle: nat -> Attempt)
    requires Enters(e) && !QuotaFull(st, e, maxPerCategory) && e.listing.Ok?
    ensures ProcessFolder(st, e, maxPerCategory, oracle)
         == Listed(Admitted(st, e), e.root, CategoryOf(e.root), AnalyzeFolder(e.root, e.listing.value), oracle)
  {
  }

  /** Per folder, the category's count grows by exactly the number of
      items inserted, and no other category's count moves. */
  lemma FolderCounts(st: State, e: WalkEntry, maxPerCategory: int, oracle: nat -> Attempt)
    ensures var r := ProcessFolder(st, e, maxPerCategory, oracle);
            && Count(r.counter, CategoryOf(e.root)) == Count(st.counter, CategoryOf(e.root)) + r.inserted - st.inserted
            && forall c :: c != CategoryOf(e.root) ==> Count(r.counter, c) == Count(st.counter, c)
  {
  }

  /** Per folder, every converter call is counted once as inserted or
      failed, and so is the folder when its listing raised; every insertion
      is one Mongo upload. */
  lemma FolderAccounting(st: State, e: WalkEntry, maxPerCategory: int, oracle: nat -> Attempt)
    ensures var r := ProcessFolder(st, e, maxPerCategory, oracle);
            && |st.calls| <= |r.calls| && r.calls[..|st.calls|] == st.calls
            && r.listingErrors ==
                 st.listingErrors + (if Enters(e) && !QuotaFull(st, e, maxPerCategory) && e.listing.Err? then [e.root] else [])
            && r.inserted + r.failed == st.inserted + st.failed + |r.calls| - |st.calls| + |r.listingErrors| - |st.listingErrors|
            && |r.mongoLog| == |st.mongoLog| + r.inserted - st.inserted
  {
  }

  /** Per folder, at most one converter call per source mesh of the
      listing, and at most one insertion: once a file converted,
      `meta['path']` names the exported GLB, and nothing converts beneath
      it. */
  lemma FolderCallsBound(st: State, e: WalkEntry, maxPerCategory: int, oracle: nat -> Attempt)
    ensures var r := ProcessFolder(st, e, maxPerCategory, oracle);
            && 0 <= r.inserted - st.inserted <= |r.calls| - |st.calls|
            && r.inserted - st.inserted <= 1
            && |r.calls| - |st.calls| <=
                 (if Enters(e) && !QuotaFull(st, e, maxPerCategory) && e.listing.Ok?
                  then |Filter(e.listing.value, IsSourceMesh)| else 0)
  {
  }

  /** Per folder, every Postgres upload is for the folder's own item id. */
  lemma FolderUploadsOwnItem(st: State, e: WalkEntry, maxPerCategory: int, oracle: nat -> Attempt)
    ensures var r := ProcessFolder(st, e, maxPerCategory, oracle);
            && |st.pgLog| <= |r.pgLog| && r.pgLog[..|st.pgLog|] == st.pgLog
            && forall i :: |st.pgLog| <= i < |r.pgLog| ==> r.pgLog[i].meta.itemId == Basename(e.root)
  {
    if Enters(e) && !QuotaFull(st, e, maxPerCategory) && e.listing.Ok? {
      FolderIsListed(st, e, maxPerCategory, oracle);
      var meta := AnalyzeFolder(e.root, e.listing.value);
      ProcessFilesUploadsOwnItem(Admitted(st, e), meta, CategoryOf(e.root), meta.allFiles, oracle);
    }
  }

  /** The first converter call of a file loop is on the loop's first source
      mesh, with the collaborators' behaviour for `meta['path']` as the loop
      found it. */
  lemma {:induction false} ProcessFilesFirstCall(st: State, meta: FolderMeta, category: string, files: seq<string>, oracle: nat -> Attempt)
    ensures var r := ProcessFiles(st, meta, category, files, oracle);
            |r.st.calls| > |st.calls| ==> r.st.calls[|st.calls|].attempt == NextAttempt(st, meta.path, oracle)
    decreases |files|
  {
    if |files| > 0 && !IsSourceMesh(files[0]) {
      ProcessFilesFirstCall(st, meta, category, files[1..], oracle);
    } else if |files| > 0 {
      var p := ProcessFile(st, meta, category, files[0], oracle);
      if p.Finished? {
        var r := ProcessFiles(p.st, p.meta, category, files[1..], oracle);
        assert r.st.calls[|st.calls|] == r.st.calls[..|p.st.calls|][|st.calls|];
      }
    }
  }

  /** A folder with one source mesh, whose attempt converts and uploads
      without raising, is reported `OK`. */
  lemma ListedDelivers(st: State, root: string, category: string, meta: FolderMeta, oracle: nat -> Attempt)
    requires |Filter(meta.allFiles, IsSourceMesh)| == 1
    requires meta.path !in st.outputs && Delivers(oracle(|st.calls|))
    ensures EndsOk(Listed(st, root, category, meta, oracle).report)
  {
    ListedOutcome(st, root, category, meta, oracle);
    ProcessFilesRaised(st, meta, category, meta.allFiles, oracle);
    ProcessFilesFirstCall(st, meta, category, meta.allFiles, oracle);
    var r := Listed(st, root, category, meta, oracle);
    assert |r.calls| == |st.calls| + 1;
    assert Delivers(LastAttempt(r.calls));
  }

  /** Failures are isolated per folder: whatever happened before, a folder
      the quota admits, with one source mesh whose attempt succeeds, is
      reported `OK`. Its path is a directory the walk visits, never a GLB
      file the run exported. */
  lemma FolderIsolated(st: State, e: WalkEntry, maxPerCategory: int, oracle: nat -> Attempt)
    requires Enters(e) && !QuotaFull(st, e, maxPerCategory) && e.listing.Ok?
    requires |Filter(e.listing.value, IsSourceMesh)| == 1
    requires e.root !in st.outputs && Delivers(oracle(|st.calls|))
    ensures var r := ProcessFolder(st, e, maxPerCategory, oracle);
            |r.report| == |st.report| + 1 && EndsOk(r.report)
  {
    FolderIsListed(st, e, maxPerCategory, oracle);
    ListedDelivers(Admitted(st, e), e.root, CategoryOf(e.root), AnalyzeFolder(e.root, e.listing.value), oracle);
  }

  /** The larger of a category's count and the quota. */
  function Ceiling(count: int, quota: int): int
  {
    if count >= quota then count else quota
  }

  /** The quota is checked once, on entering a folder, and a folder inserts
      at most one item: a count below the quota ends at most at the quota,
      and a count at or over it does not move. */
  lemma FolderQuota(st: State, e: WalkEntry, maxPerCategory: int, oracle: nat -> Attempt)
    ensures forall c :: Count(ProcessFolder(st, e, maxPerCategory, oracle).counter, c) <= Ceiling(Count(st.counter, c), maxPerCategory)
  {
    FolderCounts(st, e, maxPerCategory, oracle);
    FolderCallsBound(st, e, maxPerCategory, oracle);
  }

  /** A successful attempt: the converter call is on the joined path, the
      item is inserted, and `meta['path']` becomes the exported GLB. */
  lemma OneDelivery(st: State, meta: FolderMeta, category: string, f: string, oracle: nat -> Attempt, n: nat)
    requires n == |st.calls| && meta.path !in st.outputs && Delivers(oracle(n))
    ensures var p := ProcessFile(st, meta, category, f, oracle);
            && p.Finished?
            && p.st.calls == st.calls + [Call(Join(meta.path, f), oracle(n))]
            && p.meta.path == oracle(n).convert.output.value
            && p.meta.path in p.st.outputs
            && p.st.inserted == st.inserted + 1
  {
    ProcessFileOutcome(st, meta, category, f, oracle);
  }

  /** After a successful file, the next source mesh is handed to the
      converter joined onto the GLB just exported, a regular file, so it
      converts nothing: of the two, only the first is inserted. */
  lemma SecondMeshBeneathGlb(st: State, meta: FolderMeta, category: string, f1: string, f2: string, oracle: nat -> Attempt)
    requires meta.path !in st.outputs && Delivers(oracle(|st.calls|))
    ensures var p1 := ProcessFile(st, meta, category, f1, oracle);
            var p2 := ProcessFile(p1.st, p1.meta, category, f2, oracle);
            && p1.Finished?
            && p2.st.calls == st.calls + [Call(Join(meta.path, f1), oracle(|st.calls|)),
                                          Call(Join(oracle(|st.calls|).convert.output.value, f2), Beneath(oracle(|st.calls| + 1)))]
            && p2.st.inserted == st.inserted + 1
            && (p2.Finished? ==> p2.meta.status == Some(ConversionFailed))
  {
    var n := |st.calls|;
    var p1 := ProcessFile(st, meta, category, f1, oracle);
    var c1, c2 := Call(Join(meta.path, f1), oracle(n)), Call(Join(oracle(n).convert.output.value, f2), Beneath(oracle(n + 1)));
    OneDelivery(st, meta, category, f1, oracle, n);
    assert |p1.st.calls| == n + 1;
    assert NextAttempt(p1.st, p1.meta.path, oracle) == Beneath(oracle(n + 1));
    AppendPair(st.calls, c1, c2);
  }

  /** The file loop over two source meshes, the first of which does not
      raise, is the two file steps in a row. */
  lemma TwoSourceMeshLoop(st: State, meta: FolderMeta, category: string, f1: string, f2: string, oracle: nat -> Attempt)
    requires IsSourceMesh(f1) && IsSourceMesh(f2)
    requires ProcessFile(st, meta, category, f1, oracle).Finished?
    ensures var p1 := ProcessFile(st, meta, category, f1, oracle);
            ProcessFiles(st, meta, category, [f1, f2], oracle) == ProcessFile(p1.st, p1.meta, category, f2, oracle)
  {
    var p1 := ProcessFile(st, meta, category, f1, oracle);
    assert [f1, f2][0] == f1 && [f1, f2][1..] == [f2] && [f2][0] == f2 && [f2][1..] == [];
    ProcessFilesStep(st, meta, category, [f1, f2], oracle);
  }

  /** A listed folder holding exactly two source meshes, the first of which
      converts: the second is looked for beneath the first's GLB, so the
      folder inserts one item, counts the second call as a failure, and is
      reported `FAIL: GLB conversion failed` unless that call raised. */
  lemma TwoSourceMeshListed(st: State, root: string, category: string, meta: FolderMeta, f1: string, f2: string, oracle: nat -> Attempt)
    requires IsSourceMesh(f1) && IsSourceMesh(f2) && meta.allFiles == [f1, f2]
    requires meta.path !in st.outputs && Delivers(oracle(|st.calls|))
    ensures var r := Listed(st, root, category, meta, oracle);
            var last := r.report[|r.report| - 1];
            && r.calls == st.calls + [Call(Join(meta.path, f1), oracle(|st.calls|)),
                                      Call(Join(oracle(|st.calls|).convert.output.value, f2), Beneath(oracle(|st.calls| + 1)))]
            && r.inserted == st.inserted + 1 && r.failed == st.failed + 1
            && (last.Full? <==> !oracle(|st.calls| + 1).convert.Raised?)
            && (last.Full? ==> last.meta.status == Some(ConversionFailed))
  {
    SecondMeshBeneathGlb(st, meta, category, f1, f2, oracle);
    TwoSourceMeshLoop(st, meta, category, f1, f2, oracle);
  }

  /** The same on a folder the walk visits, under a quota of one: its
      category's count ends at exactly the quota. */
  lemma TwoSourceMeshes(st: State, root: string, f1: string, f2: string, oracle: nat -> Attempt)
    requires IsSourceMesh(f1) && IsSourceMesh(f2)
    requires Count(st.counter, CategoryOf(root)) == 0 && root !in st.outputs && Delivers(oracle(|st.calls|))
    ensures var r := ProcessFolder(st, WalkEntry(root, [f1, f2], Result.Ok([f1, f2])), 1, oracle);
            && r.inserted == st.inserted + 1 && r.failed == st.failed + 1
            && Count(r.counter, CategoryOf(root)) == 1
  {
    var e := WalkEntry(root, [f1, f2], Result.Ok([f1, f2]));
    assert IsMesh(f1) && e.files[0] == f1;
    assert Enters(e);
    FolderIsListed(st, e, 1, oracle);
    FolderCounts(st, e, 1, oracle);
    var st0 := Admitted(st, e);
    TwoSourceMeshListed(st0, root, CategoryOf(root), AnalyzeFolder(root, [f1, f2]), f1, f2, oracle);
  }

  /** The two nested loops of `process` over the directories in walk order. */
  function Process(st: State, walk: seq<WalkEntry>, maxPerCategory: int, oracle: nat -> Attempt): (r: State)
    ensures |r.report| >= |st.report| && r.report[..|st.report|] == st.report
    ensures |r.report| - |st.report| <= |walk|
    ensures r.inserted >= st.inserted && r.failed >= st.failed
    decreases |walk|
  {
    if |walk| == 0 then st
    else
      var st1 := ProcessFolder(st, walk[0], maxPerCategory, oracle);
      var r := Process(st1, walk[1..], maxPerCategory, oracle);
      assert r.report[..|st.report|] == r.report[..|st1.report|][..|st.report|];
      r
  }

  /** Over a whole run, a count below the quota ends at most at the quota,
      and a count at or over it does not move. */
  lemma {:induction false} QuotaBound(st: State, walk: seq<WalkEntry>, maxPerCategory: int, oracle: nat -> Attempt)
    ensures forall c :: Count(Process(st, walk, maxPerCategory, oracle).counter, c) <= Ceiling(Count(st.counter, c), maxPerCategory)
    decreases |walk|
  {
    if |walk| > 0 {
      var st1 := ProcessFolder(st, walk[0], maxPerCategory, oracle);
      FolderQuota(st, walk[0], maxPerCategory, oracle);
      QuotaBound(st1, walk[1..], maxPerCategory, oracle);
    }
  }

  /** Over a run, every converter call is counted once, as inserted or
      failed, and so is every folder whose listing raised; nothing else is
      counted, and there are no more insertions than calls. */
  lemma {:induction false} RunAccounting(st: State, walk: seq<WalkEntry>, maxPerCategory: int, oracle: nat -> Attempt)
    ensures var r := Process(st, walk, maxPerCategory, oracle);
            && |st.calls| <= |r.calls| && |st.listingErrors| <= |r.listingErrors|
            && r.inserted + r.failed == st.inserted + st.failed + |r.calls| - |st.calls| + |r.listingErrors| - |st.listingErrors|
            && r.inserted - st.inserted <= |r.calls| - |st.calls|
    decreases |walk|
  {
    if |walk| > 0 {
      var st1 := ProcessFolder(st, walk[0], maxPerCategory, oracle);
      FolderAccounting(st, walk[0], maxPerCategory, oracle);
      FolderCallsBound(st, walk[0], maxPerCategory, oracle);
      RunAccounting(st1, walk[1..], maxPerCategory, oracle);
    }
  }

  /** A folder a run records as failing its listing is a directory of the
      walk whose listing raised. */
  lemma {:induction false} ListingErrorFromWalk(st: State, walk: seq<WalkEntry>, maxPerCategory: int, oracle: nat -> Attempt, root: string)
    requires root in Process(st, walk, maxPerCategory, oracle).listingErrors && root !in st.listingErrors
    ensures exists e :: e in walk && e.root == root && e.listing.Err?
    decreases |walk|
  {
    assert |walk| > 0;
    var st1 := ProcessFolder(st, walk[0], maxPerCategory, oracle);
    FolderAccounting(st, walk[0], maxPerCategory, oracle);
    if root in st1.listingErrors {
      assert walk[0] in walk;
    } else {
      ListingErrorFromWalk(st1, walk[1..], maxPerCategory, oracle, root);
      var e :| e in walk[1..] && e.root == root && e.listing.Err?;
      assert e in walk;
    }
  }

  /** Every insertion of a run is one Mongo upload. */
  lemma {:induction false} RunMongoUploads(st: State, walk: seq<WalkEntry>, maxPerCategory: int, oracle: nat -> Attempt)
    ensures var r := Process(st, walk, maxPerCategory, oracle);
            |r.mongoLog| == |st.mongoLog| + r.inserted - st.inserted
    decreases |walk|
  {
    if |walk| > 0 {
      FolderAccounting(st, walk[0], maxPerCategory, oracle);
      RunMongoUploads(ProcessFolder(st, walk[0], maxPerCategory, oracle), walk[1..], maxPerCategory, oracle);
    }
  }

  /** The item ids (folder names) of the directories a walk visits. */
  function ItemIds(walk: seq<WalkEntry>): (ids: set<string>)
    ensures forall e :: e in walk ==> Basename(e.root) in ids
    decreases |walk|
  {
    if |walk| == 0 then {}
    else
      var rest := ItemIds(walk[1..]);
      assert forall e :: e in walk[1..] ==> e in walk;
      {Basename(walk[0].root)} + rest
  }

  /** Every id of `ItemIds(walk)` is the folder name of a directory of the
      walk. */
  lemma {:induction false} ItemIdsFromWalk(walk: seq<WalkEntry>, id: string)
    ensures id in ItemIds(walk) ==> exists e :: e in walk && Basename(e.root) == id
    decreases |walk|
  {
    if |walk| > 0 && id in ItemIds(walk) {
      if id == Basename(walk[0].root) {
        assert walk[0] in walk;
      } else {
        ItemIdsFromWalk(walk[1..], id);
        var e :| e in walk[1..] && Basename(e.root) == id;
        assert e in walk;
      }
    }
  }

  /** Every Postgres upload of a run is for the item id of a directory the
      walk visited. */
  lemma {:induction false} RunUploadsWalkedItems(st: State, walk: seq<WalkEntry>, maxPerCategory: int, oracle: nat -> Attempt)
    ensures var r := Process(st, walk, maxPerCategory, oracle);
            && |st.pgLog| <= |r.pgLog| && r.pgLog[..|st.pgLog|] == st.pgLog
            && forall i :: |st.pgLog| <= i < |r.pgLog| ==> r.pgLog[i].meta.itemId in ItemIds(walk)
    decreases |walk|
  {
    if |walk| > 0 {
      var st1 := ProcessFolder(st, walk[0], maxPerCategory, oracle);
      FolderUploadsOwnItem(st, walk[0], maxPerCategory, oracle);
      RunUploadsWalkedItems(st1, walk[1..], maxPerCategory, oracle);
      var r := Process(st1, walk[1..], maxPerCategory, oracle);
      assert r.pgLog[..|st.pgLog|] == r.pgLog[..|st1.pgLog|][..|st.pgLog|];
      forall i | |st.pgLog| <= i < |r.pgLog|
        ensures r.pgLog[i].meta.itemId in ItemIds(walk)
      {
        if i < |st1.pgLog| {
          assert r.pgLog[i] == st1.pgLog[i];
        }
      }
    }
  }

  /** `fashion_items` after the given uploads, in order. */
  function PgReplay(table: MetadataStore.Table, log: seq<PgCall>): (t: MetadataStore.Table)
    decreases |log|
  {
    if |log| == 0 then table
    else
      var c := log[0];
      PgReplay(MetadataStore.Upload(table, c.meta, c.analysis, c.write, c.now).table, log[1..])
  }

  /** Replaying uploads adds rows only for the uploaded item ids. */
  lemma {:induction false} PgReplayKeys(table: MetadataStore.Table, log: seq<PgCall>)
    ensures forall id :: id in PgReplay(table, log) ==>
              id in table || exists i :: 0 <= i < |log| && log[i].meta.itemId == id
    decreases |log|
  {
    if |log| > 0 {
      var c := log[0];
      var t1 := MetadataStore.Upload(table, c.meta, c.analysis, c.write, c.now).table;
      PgReplayKeys(t1, log[1..]);
      forall id | id in PgReplay(table, log) && id !in table
        ensures exists i :: 0 <= i < |log| && log[i].meta.itemId == id
      {
        if id in t1 {
          assert log[0].meta.itemId == id;
        } else {
          var j :| 0 <= j < |log[1..]| && log[1..][j].meta.itemId == id;
          assert log[j + 1].meta.itemId == id;
        }
      }
    }
  }

  /** The GridFS store after the given uploads, in order. */
  function MongoReplay(store: BlobStore.Store, log: seq<MongoCall>): (s: BlobStore.Store)
    ensures s.counters.uploaded + s.counters.failed == store.counters.uploaded + store.counters.failed + |log|
    decreases |log|
  {
    if |log| == 0 then store
    else
      var c := log[0];
      MongoReplay(BlobStore.Upload(store, c.itemId, c.folder, c.glbPath, c.exists_, c.data, c.fault), log[1..])
  }

  /** Whatever uploads are replayed, GridFS (filename, item_id) keys stay
      unique. */
  lemma {:induction false} MongoReplayKeepsKeysUnique(store: BlobStore.Store, log: seq<MongoCall>)
    requires BlobStore.UniqueKeys(store.blobs)
    ensures BlobStore.UniqueKeys(MongoReplay(store, log).blobs)
    decreases |log|
  {
    if |log| > 0 {
      var c := log[0];
      BlobStore.UploadKeepsKeysUnique(store, c.itemId, c.folder, c.glbPath, c.exists_, c.data, c.fault);
      MongoReplayKeepsKeysUnique(BlobStore.Upload(store, c.itemId, c.folder, c.glbPath, c.exists_, c.data, c.fault), log[1..]);
    }
  }

  /** What one `process()` call leaves behind: the instance's counter and
      report, the call's counts, the converter calls, the folders whose
      listing raised, and the two stores. */
  datatype RunResult = RunResult(
    counter: map<string, int>,
    report: seq<Entry>,
    inserted: int,
    failed: int,
    calls: seq<Call>,
    listingErrors: seq<string>,
    table: MetadataStore.Table,
    store: BlobStore.Store)

  /** `process()` on an instance whose counter and report hold `counter` and
      `report` from earlier calls: nothing resets the counter or the report,
      while the counts start at zero and end counting every converter call
      and every folder whose listing raised exactly once. */
  function Run(counter: map<string, int>, report: seq<Entry>, table: MetadataStore.Table, store: BlobStore.Store,
               walk: seq<WalkEntry>, maxPerCategory: int, oracle: nat -> Attempt): (r: RunResult)
    ensures |r.report| >= |report| && r.report[..|report|] == report
    ensures r.inserted + r.failed == |r.calls| + |r.listingErrors|
    ensures 0 <= r.inserted <= |r.calls| && r.failed >= 0
  {
    var st := Process(Fresh(counter, report), walk, maxPerCategory, oracle);
    RunAccounting(Fresh(counter, report), walk, maxPerCategory, oracle);
    RunResult(st.counter, st.report, st.inserted, st.failed, st.calls, st.listingErrors,
              PgReplay(table, st.pgLog), MongoReplay(store, st.mongoLog))
  }

  /** Every insertion of a run is one Mongo upload, which counts either an
      uploaded file or a failure. */
  lemma RunInsertsAreMongoUploads(counter: map<string, int>, report: seq<Entry>, table: MetadataStore.Table, store: BlobStore.Store,
                                  walk: seq<WalkEntry>, maxPerCategory: int, oracle: nat -> Attempt)
    ensures var r := Run(counter, report, table, store, walk, maxPerCategory, oracle);
            r.store.counters.uploaded + r.store.counters.failed == store.counters.uploaded + store.counters.failed + r.inserted
  {
    RunMongoUploads(Fresh(counter, report), walk, maxPerCategory, oracle);
  }

  /** The folders a run counts for a failed listing are directories of the
      walk whose listing raised. */
  lemma RunListingErrorsFromWalk(counter: map<string, int>, report: seq<Entry>, table: MetadataStore.Table, store: BlobStore.Store,
                                 walk: seq<WalkEntry>, maxPerCategory: int, oracle: nat -> Attempt)
    ensures forall root :: root in Run(counter, report, table, store, walk, maxPerCategory, oracle).listingErrors ==>
              exists e :: e in walk && e.root == root && e.listing.Err?
  {
    forall root | root in Run(counter, report, table, store, walk, maxPerCategory, oracle).listingErrors
      ensures exists e :: e in walk && e.root == root && e.listing.Err?
    {
      ListingErrorFromWalk(Fresh(counter, report), walk, maxPerCategory, oracle, root);
    }
  }

  /** GridFS (filename, item_id) keys stay unique over a run. */
  lemma RunKeepsKeysUnique(counter: map<string, int>, report: seq<Entry>, table: MetadataStore.Table, store: BlobStore.Store,
                           walk: seq<WalkEntry>, maxPerCategory: int, oracle: nat -> Attempt)
    requires BlobStore.UniqueKeys(store.blobs)
    ensures BlobStore.UniqueKeys(Run(counter, report, table, store, walk, maxPerCategory, oracle).store.blobs)
  {
    var st := Process(Fresh(counter, report), walk, maxPerCategory, oracle);
    MongoReplayKeepsKeysUnique(store, st.mongoLog);
  }

  /** Every row of `fashion_items` after a run was there before or belongs
      to a directory the walk visited. */
  lemma RowsComeFromWalk(counter: map<string, int>, report: seq<Entry>, table: MetadataStore.Table, store: BlobStore.Store,
                         walk: seq<WalkEntry>, maxPerCategory: int, oracle: nat -> Attempt)
    ensures Run(counter, report, table, store, walk, maxPerCategory, oracle).table.Keys <= table.Keys + ItemIds(walk)
  {
    var st := Process(Fresh(counter, report), walk, maxPerCategory, oracle);
    RunUploadsWalkedItems(Fresh(counter, report), walk, maxPerCategory, oracle);
    PgReplayKeys(table, st.pgLog);
  }

  /** Over a run, a category below the quota ends at most at the quota, and
      one at or over it does not move, however many source meshes a folder
      holds. */
  lemma QuotaHeld(counter: map<string, int>, report: seq<Entry>, table: MetadataStore.Table, store: BlobStore.Store,
                  walk: seq<WalkEntry>, maxPerCategory: int, oracle: nat -> Attempt)
    ensures forall c :: Count(Run(counter, report, table, store, walk, maxPerCategory, oracle).counter, c)
                          <= Ceiling(Count(counter, c), maxPerCategory)
  {
    QuotaBound(Fresh(counter, report), walk, maxPerCategory, oracle);
  }

  /** On a fresh instance with a non-negative quota, no category exceeds it. */
  lemma QuotaHeldFromFresh(report: seq<Entry>, table: MetadataStore.Table, store: BlobStore.Store,
                           walk: seq<WalkEntry>, maxPerCategory: int, oracle: nat -> Attempt)
    requires maxPerCategory >= 0
    ensures forall c :: Count(Run(map[], report, table, store, walk, maxPerCategory, oracle).counter, c) <= maxPerCategory
  {
    QuotaHeld(map[], report, table, store, walk, maxPerCategory, oracle);
  }
}
