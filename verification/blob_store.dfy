/** `MongoUploader`: the GridFS store as a sequence of blobs in insertion
    order, replaced by `(filename, item_id)` with delete-then-insert, and the
    three running counters. */
module BlobStore {
  import opened Wrappers
  import opened Paths

  type Bytes = seq<bv8>

  /** A stored file: its name, the metadata `{item_id, folder}`, its content. */
  datatype Blob = Blob(filename: string, itemId: string, folder: string, data: Bytes)

  datatype Counters = Counters(uploaded: nat, deleted: nat, failed: nat)

  datatype Store = Store(blobs: seq<Blob>, counters: Counters)

  predicate Matches(b: Blob, filename: string, itemId: string)
  {
    b.filename == filename && b.itemId == itemId
  }

  /** At most one blob per `(filename, item_id)`. */
  ghost predicate UniqueKeys(blobs: seq<Blob>)
  {
    forall i, j :: 0 <= i < j < |blobs| ==>
      !Matches(blobs[j], blobs[i].filename, blobs[i].itemId)
  }

  /** `find_one({"filename": ..., "metadata.item_id": ...})` searching from
      position `from` in natural order. */
  function FindFrom(blobs: seq<Blob>, filename: string, itemId: string, from: nat): (r: Option<nat>)
    requires from <= |blobs|
    ensures r.Some? ==> from <= r.value < |blobs| && Matches(blobs[r.value], filename, itemId)
    ensures r.Some? ==> forall j :: from <= j < r.value ==> !Matches(blobs[j], filename, itemId)
    ensures r.None? ==> forall j :: from <= j < |blobs| ==> !Matches(blobs[j], filename, itemId)
    decreases |blobs| - from
  {
    if from == |blobs| then None
    else if Matches(blobs[from], filename, itemId) then Some(from)
    else FindFrom(blobs, filename, itemId, from + 1)
  }

  function Find(blobs: seq<Blob>, filename: string, itemId: string): Option<nat>
  {
    FindFrom(blobs, filename, itemId, 0)
  }

  /** `fs.delete(id)`: the blob at position `i` goes, the others keep their order. */
  function Remove(blobs: seq<Blob>, i: nat): (r: seq<Blob>)
    requires i < |blobs|
    ensures |r| == |blobs| - 1
    ensures forall j :: 0 <= j < i ==> r[j] == blobs[j]
    ensures forall j :: i < j < |blobs| ==> r[j - 1] == blobs[j]
  {
    blobs[..i] + blobs[i + 1..]
  }

  /** Where `upload` raises inside its `try`, if anywhere: at the lookup, at the
      delete of an existing blob, or at the put. A fault at a step that does
      not run has no effect. */
  datatype Fault = NoFault | LookupFault | DeleteFault | PutFault

  /** `reset()`: every file and chunk is deleted; the counters are not reset. */
  function Reset(s: Store): (r: Store)
    ensures r.blobs == [] && r.counters == s.counters
  {
    s.(blobs := [])
  }

  /** The upload stores the new blob. */
  predicate Succeeds(s: Store, filename: string, itemId: string, exists_: bool, fault: Fault)
  {
    exists_ && (fault == NoFault || (fault == DeleteFault && Find(s.blobs, filename, itemId).None?))
  }

  /** The upload deletes an earlier blob with the same key. */
  predicate Replaces(s: Store, filename: string, itemId: string, exists_: bool, fault: Fault)
  {
    exists_ && Find(s.blobs, filename, itemId).Some? && (fault == NoFault || fault == PutFault)
  }

  function Failed(s: Store): (r: Store)
  {
    s.(counters := s.counters.(failed := s.counters.failed + 1))
  }

  /** The `try` block of `upload` for a file that exists: look up the key,
      delete an earlier blob under it, put the new one. */
  function Put(s: Store, blob: Blob, fault: Fault): (r: Store)
    ensures r.counters.uploaded + r.counters.failed == s.counters.uploaded + s.counters.failed + 1
    ensures r.counters.uploaded == s.counters.uploaded + (if Succeeds(s, blob.filename, blob.itemId, true, fault) then 1 else 0)
    ensures r.counters.deleted == s.counters.deleted + (if Replaces(s, blob.filename, blob.itemId, true, fault) then 1 else 0)
    ensures |r.blobs| == |s.blobs| + (if Succeeds(s, blob.filename, blob.itemId, true, fault) then 1 else 0)
                                   - (if Replaces(s, blob.filename, blob.itemId, true, fault) then 1 else 0)
  {
    if fault == LookupFault then Failed(s)
    else
      match Find(s.blobs, blob.filename, blob.itemId)
      case Some(i) =>
        if fault == DeleteFault then Failed(s)
        else
          var rest := Remove(s.blobs, i);
          var c := s.counters.(deleted := s.counters.deleted + 1);
          if fault == PutFault then Store(rest, c.(failed := c.failed + 1))
          else Store(rest + [blob], c.(uploaded := c.uploaded + 1))
      case None =>
        if fault == PutFault then Failed(s)
        else Store(s.blobs + [blob], s.counters.(uploaded := s.counters.uploaded + 1))
  }

  /** `upload(meta, glb_path)` with `meta['item_id'] = itemId`,
      `meta['path'] = folder`; `exists_` is `os.path.exists(glb_path)` and
      `data` the file's content. Every call counts exactly one upload or one
      failure; a deletion is counted when an earlier blob is replaced. */
  function Upload(s: Store, itemId: string, folder: string, glbPath: string, exists_: bool, data: Bytes, fault: Fault): (r: Store)
    ensures r.counters.uploaded + r.counters.failed == s.counters.uploaded + s.counters.failed + 1
    ensures r.counters.uploaded == s.counters.uploaded + (if Succeeds(s, Basename(glbPath), itemId, exists_, fault) then 1 else 0)
    ensures r.counters.deleted == s.counters.deleted + (if Replaces(s, Basename(glbPath), itemId, exists_, fault) then 1 else 0)
    ensures |r.blobs| == |s.blobs| + (if Succeeds(s, Basename(glbPath), itemId, exists_, fault) then 1 else 0)
                                   - (if Replaces(s, Basename(glbPath), itemId, exists_, fault) then 1 else 0)
    ensures !exists_ ==> r.blobs == s.blobs
  {
    if !exists_ then Failed(s)
    else Put(s, Blob(Basename(glbPath), itemId, folder, data), fault)
  }

  /** Removing one blob keeps keys unique. */
  lemma RemoveKeepsUnique(blobs: seq<Blob>, i: nat)
    requires i < |blobs| && UniqueKeys(blobs)
    ensures UniqueKeys(Remove(blobs, i))
  {
    var r := Remove(blobs, i);
    forall a, b | 0 <= a < b < |r|
      ensures !Matches(r[b], r[a].filename, r[a].itemId)
    {
      var a' := if a < i then a else a + 1;
      var b' := if b < i then b else b + 1;
      assert r[a] == blobs[a'] && r[b] == blobs[b'];
    }
  }

  /** `a` and `b` hold the same blobs apart from those under the key. */
  ghost predicate SameOtherKeys(a: seq<Blob>, b: seq<Blob>, filename: string, itemId: string)
  {
    && (forall x :: x in a && !Matches(x, filename, itemId) ==> x in b)
    && (forall x :: x in b && !Matches(x, filename, itemId) ==> x in a)
  }

  /** Deleting the one blob under a key leaves none under it. */
  lemma {:induction false} RemoveFound(blobs: seq<Blob>, i: nat, filename: string, itemId: string)
    requires UniqueKeys(blobs)
    requires Find(blobs, filename, itemId) == Some(i)
    ensures UniqueKeys(Remove(blobs, i))
    ensures forall j :: 0 <= j < |Remove(blobs, i)| ==> !Matches(Remove(blobs, i)[j], filename, itemId)
    ensures SameOtherKeys(blobs, Remove(blobs, i), filename, itemId)
  {
    var rest := Remove(blobs, i);
    RemoveKeepsUnique(blobs, i);
    forall j | 0 <= j < |rest|
      ensures !Matches(rest[j], filename, itemId)
    {
      if j >= i {
        assert rest[j] == blobs[j + 1];
        assert !Matches(blobs[j + 1], blobs[i].filename, blobs[i].itemId);
      }
    }
    forall x | x in blobs && !Matches(x, filename, itemId)
      ensures x in rest
    {
      var k :| 0 <= k < |blobs| && blobs[k] == x;
      if k < i { assert rest[k] == x; } else { assert rest[k - 1] == x; }
    }
    forall x | x in rest
      ensures x in blobs
    {
      var k :| 0 <= k < |rest| && rest[k] == x;
      if k < i { assert blobs[k] == x; } else { assert blobs[k + 1] == x; }
    }
  }

  /** Starting from unique keys, an upload keeps them unique and keeps every
      blob under another key; a successful one leaves the new blob as the
      one `find_one` returns for its key. */
  lemma {:induction false} PutKeepsKeysUnique(s: Store, blob: Blob, fault: Fault)
    requires UniqueKeys(s.blobs)
    ensures var r := Put(s, blob, fault);
            && UniqueKeys(r.blobs)
            && SameOtherKeys(s.blobs, r.blobs, blob.filename, blob.itemId)
            && (r.counters.uploaded > s.counters.uploaded ==>
                  var f := Find(r.blobs, blob.filename, blob.itemId);
                  f.Some? && r.blobs[f.value] == blob)
  {
    var r := Put(s, blob, fault);
    if fault != LookupFault {
      match Find(s.blobs, blob.filename, blob.itemId)
      case Some(i) =>
        if fault != DeleteFault {
          var rest := Remove(s.blobs, i);
          RemoveFound(s.blobs, i, blob.filename, blob.itemId);
          if fault != PutFault {
            UniqueAppend(rest, blob);
            assert forall x :: x in rest + [blob] ==> x in rest || x == blob;
          }
        }
      case None =>
        if fault != PutFault {
          UniqueAppend(s.blobs, blob);
          assert forall x :: x in s.blobs + [blob] ==> x in s.blobs || x == blob;
        }
    }
  }

  /** The same three facts for `upload` itself. */
  lemma {:induction false} UploadKeepsKeysUnique(s: Store, itemId: string, folder: string, glbPath: string, exists_: bool, data: Bytes, fault: Fault)
    requires UniqueKeys(s.blobs)
    ensures var r := Upload(s, itemId, folder, glbPath, exists_, data, fault);
            && UniqueKeys(r.blobs)
            && SameOtherKeys(s.blobs, r.blobs, Basename(glbPath), itemId)
            && (Succeeds(s, Basename(glbPath), itemId, exists_, fault) ==>
                  var f := Find(r.blobs, Basename(glbPath), itemId);
                  f.Some? && r.blobs[f.value] == Blob(Basename(glbPath), itemId, folder, data))
  {
    if exists_ {
      PutKeepsKeysUnique(s, Blob(Basename(glbPath), itemId, folder, data), fault);
    }
  }

  lemma UniqueAppend(blobs: seq<Blob>, b: Blob)
    requires UniqueKeys(blobs)
    requires forall j :: 0 <= j < |blobs| ==> !Matches(blobs[j], b.filename, b.itemId)
    ensures UniqueKeys(blobs + [b])
    ensures forall j :: 0 <= j < |blobs| ==> (blobs + [b])[j] == blobs[j]
    ensures Find(blobs + [b], b.filename, b.itemId) == Some(|blobs|)
  {
    var r := blobs + [b];
    assert forall j :: 0 <= j < |blobs| ==> r[j] == blobs[j];
    FindSkips(r, b.filename, b.itemId, 0, |blobs|);
  }

  lemma {:induction false} FindSkips(blobs: seq<Blob>, filename: string, itemId: string, from: nat, to: nat)
    requires from <= to < |blobs|
    requires forall j :: from <= j < to ==> !Matches(blobs[j], filename, itemId)
    requires Matches(blobs[to], filename, itemId)
    ensures FindFrom(blobs, filename, itemId, from) == Some(to)
    decreases (to as int) - (from as int)
  {
    if from < to {
      FindSkips(blobs, filename, itemId, from + 1, to);
    }
  }

  /** Uploading the same file twice for the same item replaces it: one blob
      under the key, one deletion counted. */
  lemma {:induction false} ReuploadReplaces(s: Store, itemId: string, folder: string, glbPath: string, data1: Bytes, data2: Bytes)
    requires UniqueKeys(s.blobs)
    ensures var s1 := Upload(s, itemId, folder, glbPath, true, data1, NoFault);
            var s2 := Upload(s1, itemId, folder, glbPath, true, data2, NoFault);
            && s2.counters.deleted == s1.counters.deleted + 1
            && |s2.blobs| == |s1.blobs|
            && UniqueKeys(s2.blobs)
  {
    var s1 := Upload(s, itemId, folder, glbPath, true, data1, NoFault);
    UploadKeepsKeysUnique(s, itemId, folder, glbPath, true, data1, NoFault);
    assert Succeeds(s, Basename(glbPath), itemId, true, NoFault);
    assert Replaces(s1, Basename(glbPath), itemId, true, NoFault);
    assert !Succeeds(s1, Basename(glbPath), itemId, true, NoFault) || Replaces(s1, Basename(glbPath), itemId, true, NoFault);
    UploadKeepsKeysUnique(s1, itemId, folder, glbPath, true, data2, NoFault);
  }
}
