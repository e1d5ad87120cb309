/** `DatasetProcessor.analyze_folder`: classification of a folder's file
    names into the flags of its metadata record. */
module FolderScan {
  import opened Wrappers
  import opened Strings
  import opened Paths
  import opened Seqs
  import opened Records

  /** The test that makes `process` enter a folder: any `.obj`, border meshes included. */
  predicate IsMesh(f: string) { EndsWith(f, ".obj") }

  /** A source mesh the orchestrator converts. */
  predicate IsSourceMesh(f: string) { EndsWith(f, ".obj") && !StartsWith(f, "border") }

  predicate IsMaterial(f: string) { EndsWith(f, ".mtl") }

  predicate IsPointCloud(f: string) { EndsWith(f, ".pcd") && !StartsWith(f, "kp_") }

  predicate IsKeypoints(f: string) { StartsWith(f, "kp_") && EndsWith(f, ".pcd") }

  predicate IsBorder(f: string) { StartsWith(f, "border") && EndsWith(f, ".obj") }

  predicate IsTexture(f: string) { EndsWith(f, ".png") }

  /** `analyze_folder(root)` given the listing `os.listdir(root)` returned. */
  function AnalyzeFolder(root: string, files: seq<string>): (m: FolderMeta)
    ensures m.itemId == Basename(root) && m.path == root
    ensures m.category == Basename(Dirname(root))
    ensures m.hasObj <==> exists i :: 0 <= i < |files| && EndsWith(files[i], ".obj") && !StartsWith(files[i], "border")
    ensures m.hasMtl <==> exists i :: 0 <= i < |files| && EndsWith(files[i], ".mtl")
    ensures m.hasPcd <==> exists i :: 0 <= i < |files| && EndsWith(files[i], ".pcd") && !StartsWith(files[i], "kp_")
    ensures m.hasKeypoints <==> exists i :: 0 <= i < |files| && StartsWith(files[i], "kp_") && EndsWith(files[i], ".pcd")
    ensures m.hasBorder <==> exists i :: 0 <= i < |files| && StartsWith(files[i], "border") && EndsWith(files[i], ".obj")
    ensures m.allFiles == files
    ensures m.sourceFormat == "obj" && m.convertedTo == "glb" && m.metadataNotes == None
    ensures m.analysis == map[] && m.status == None
  {
    FolderMeta(
      itemId := Basename(root),
      path := root,
      hasObj := Any(files, IsSourceMesh),
      hasMtl := Any(files, IsMaterial),
      hasPcd := Any(files, IsPointCloud),
      hasKeypoints := Any(files, IsKeypoints),
      hasBorder := Any(files, IsBorder),
      textures := Filter(files, IsTexture),
      allFiles := files,
      category := Basename(Dirname(root)),
      sourceFormat := "obj",
      convertedTo := "glb",
      metadataNotes := None,
      analysis := map[],
      status := None)
  }

  /** The textures are the `.png` names in listing order: a subsequence of the
      listing taking exactly the positions that hold a `.png` name. */
  lemma {:induction false} TexturesInListingOrder(root: string, files: seq<string>) returns (idx: seq<nat>)
    ensures Embeds(AnalyzeFolder(root, files).textures, files, idx)
    ensures forall j :: 0 <= j < |files| ==> (EndsWith(files[j], ".png") <==> j in idx)
  {
    idx := FilterEmbeds(files, IsTexture);
  }

  lemma {:induction false} MeshSplitsOnBorderPrefix(files: seq<string>)
    ensures Any(files, IsMesh) <==> Any(files, IsSourceMesh) || Any(files, IsBorder)
  {
    if Any(files, IsMesh) {
      var i :| 0 <= i < |files| && IsMesh(files[i]);
      if StartsWith(files[i], "border") {
        assert IsBorder(files[i]);
      } else {
        assert IsSourceMesh(files[i]);
      }
    }
    if Any(files, IsSourceMesh) {
      var i :| 0 <= i < |files| && IsSourceMesh(files[i]);
      assert IsMesh(files[i]);
    }
    if Any(files, IsBorder) {
      var i :| 0 <= i < |files| && IsBorder(files[i]);
      assert IsMesh(files[i]);
    }
  }

  /** `process` enters a folder on any `.obj` name, so a folder holding only
      border meshes is entered even though its `has_obj` flag is false. */
  lemma {:induction false} EntryTestCountsBorderMeshes(root: string, files: seq<string>)
    ensures Any(files, IsMesh) <==> AnalyzeFolder(root, files).hasObj || AnalyzeFolder(root, files).hasBorder
  {
    MeshSplitsOnBorderPrefix(files);
  }

  predicate IsCloud(f: string) { EndsWith(f, ".pcd") }

  lemma {:induction false} CloudSplitsOnKeypointPrefix(files: seq<string>)
    ensures forall f :: IsCloud(f) ==> (IsPointCloud(f) <==> !IsKeypoints(f))
    ensures Any(files, IsCloud) <==> Any(files, IsPointCloud) || Any(files, IsKeypoints)
  {
    if Any(files, IsCloud) {
      var i :| 0 <= i < |files| && IsCloud(files[i]);
      if StartsWith(files[i], "kp_") {
        assert IsKeypoints(files[i]);
      } else {
        assert IsPointCloud(files[i]);
      }
    }
    if Any(files, IsPointCloud) {
      var i :| 0 <= i < |files| && IsPointCloud(files[i]);
      assert IsCloud(files[i]);
    }
    if Any(files, IsKeypoints) {
      var i :| 0 <= i < |files| && IsKeypoints(files[i]);
      assert IsCloud(files[i]);
    }
  }

  /** Every `.pcd` name sets exactly one of `has_pcd` and `has_keypoints`,
      split on the `kp_` prefix. */
  lemma {:induction false} PointCloudsSplitOnPrefix(root: string, files: seq<string>)
    ensures forall f :: IsCloud(f) ==> (IsPointCloud(f) <==> !IsKeypoints(f))
    ensures Any(files, IsCloud) <==> AnalyzeFolder(root, files).hasPcd || AnalyzeFolder(root, files).hasKeypoints
  {
    CloudSplitsOnKeypointPrefix(files);
  }

  /** For a dataset laid out as `<base>/<category>/<item>`, the item id is the
      folder name and the category is its parent folder's name. */
  lemma {:induction false} ItemAndCategoryOfFolder(base: string, category: string, item: string, files: seq<string>)
    requires '/' !in category && '/' !in item && |category| > 0
    ensures AnalyzeFolder(Join(Join(base, category), item), files).itemId == item
    ensures AnalyzeFolder(Join(Join(base, category), item), files).category == category
  {
    var dir := Join(base, category);
    BasenameOfJoin(base, category);
    assert EndsWith(dir, category);
    assert dir[|dir| - 1] == category[|category| - 1];
    assert category[|category| - 1] in category;
    BasenameOfJoin(dir, item);
    DirnameOfJoin(dir, item);
  }
}
