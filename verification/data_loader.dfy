/** `Fashion3DDataLoader`: reads the GLB files the Mongo uploader stored
    back out of GridFS, in batches of item ids. The loader reads the same
    blob sequence `BlobStore` models; the mesh loader is a parameter. */
module DataLoader {
  import opened Wrappers
  import opened Seqs
  import opened Strings
  import BlobStore

  /** The file name filter of the query: a name ending in `.glb`. */
  predicate IsGlbName(f: string)
  {
    EndsWith(f, ".glb")
  }

  predicate IsGlbOf(b: BlobStore.Blob, id: string)
  {
    b.itemId == id && IsGlbName(b.filename)
  }

  /** The `find_one` query of `load_batch` from position `from` on, in
      natural order. */
  function FindGlbFrom(blobs: seq<BlobStore.Blob>, id: string, from: nat): (r: Option<nat>)
    requires from <= |blobs|
    ensures r.Some? ==> from <= r.value < |blobs| && IsGlbOf(blobs[r.value], id)
    ensures r.Some? ==> forall j :: from <= j < r.value ==> !IsGlbOf(blobs[j], id)
    ensures r.None? ==> forall j :: from <= j < |blobs| ==> !IsGlbOf(blobs[j], id)
    decreases |blobs| - from
  {
    if from == |blobs| then None
    else if IsGlbOf(blobs[from], id) then Some(from)
    else FindGlbFrom(blobs, id, from + 1)
  }

  /** The first stored GLB file of item `id`, if any. */
  function FindGlb(blobs: seq<BlobStore.Blob>, id: string): (r: Option<nat>)
    ensures r.Some? ==> r.value < |blobs| && IsGlbOf(blobs[r.value], id)
    ensures r.Some? ==> forall j :: 0 <= j < r.value ==> !IsGlbOf(blobs[j], id)
    ensures r.None? <==> forall j :: 0 <= j < |blobs| ==> !IsGlbOf(blobs[j], id)
  {
    FindGlbFrom(blobs, id, 0)
  }

  /** One batch entry: `{"item_id": ..., "mesh": ...}`. */
  datatype Item<M> = Item(itemId: string, mesh: M)

  /** `load_batch` keeps an id whose GLB file is found and whose content
      `load` (the mesh loader) accepts. */
  predicate Kept<M>(blobs: seq<BlobStore.Blob>, load: BlobStore.Bytes -> Option<M>, id: string)
  {
    var f := FindGlb(blobs, id);
    f.Some? && load(blobs[f.value].data).Some?
  }

  function KeepTest<M>(blobs: seq<BlobStore.Blob>, load: BlobStore.Bytes -> Option<M>): string -> bool
  {
    id => Kept(blobs, load, id)
  }

  /** The ids of a batch, in order. */
  function Ids<M>(batch: seq<Item<M>>): (r: seq<string>)
    ensures |r| == |batch| && forall k :: 0 <= k < |batch| ==> r[k] == batch[k].itemId
  {
    seq(|batch|, k requires 0 <= k < |batch| => batch[k].itemId)
  }

  /** `load_batch(item_ids)`: an id without a GLB file is skipped, and so
      is one whose mesh does not load; every entry holds the mesh loaded
      from its item's first GLB file. */
  function LoadBatch<M>(blobs: seq<BlobStore.Blob>, ids: seq<string>, load: BlobStore.Bytes -> Option<M>): (batch: seq<Item<M>>)
    ensures |batch| <= |ids|
    ensures forall k :: 0 <= k < |batch| ==>
              && FindGlb(blobs, batch[k].itemId).Some?
              && load(blobs[FindGlb(blobs, batch[k].itemId).value].data) == Some(batch[k].mesh)
    decreases |ids|
  {
    if |ids| == 0 then []
    else
      var rest := LoadBatch(blobs, ids[1..], load);
      match FindGlb(blobs, ids[0])
      case None => rest
      case Some(i) =>
        match load(blobs[i].data)
        case None => rest
        case Some(m) => [Item(ids[0], m)] + rest
  }

  /** The batch's ids are exactly the input ids `load_batch` keeps, in
      input order. */
  lemma {:induction false} LoadBatchIds<M>(blobs: seq<BlobStore.Blob>, ids: seq<string>, load: BlobStore.Bytes -> Option<M>)
    ensures Ids(LoadBatch(blobs, ids, load)) == Filter(ids, KeepTest(blobs, load))
    decreases |ids|
  {
    if |ids| > 0 {
      LoadBatchIds(blobs, ids[1..], load);
      var rest := LoadBatch(blobs, ids[1..], load);
      if Kept(blobs, load, ids[0]) {
        var m := load(blobs[FindGlb(blobs, ids[0]).value].data).value;
        assert LoadBatch(blobs, ids, load) == [Item(ids[0], m)] + rest;
        assert Ids([Item(ids[0], m)] + rest) == [ids[0]] + Ids(rest);
      } else {
        assert LoadBatch(blobs, ids, load) == rest;
      }
    }
  }

  /** The batch is an order-preserving selection of the input ids, one
      entry per kept position and none for the others. */
  lemma LoadBatchSubsequence<M>(blobs: seq<BlobStore.Blob>, ids: seq<string>, load: BlobStore.Bytes -> Option<M>) returns (pos: seq<nat>)
    ensures Embeds(Ids(LoadBatch(blobs, ids, load)), ids, pos)
    ensures forall j :: 0 <= j < |ids| ==> (j in pos <==> Kept(blobs, load, ids[j]))
  {
    LoadBatchIds(blobs, ids, load);
    pos := FilterEmbeds(ids, KeepTest(blobs, load));
  }

  /** Splitting the ids does not change what is loaded. */
  lemma {:induction false} LoadBatchAppend<M>(blobs: seq<BlobStore.Blob>, a: seq<string>, b: seq<string>, load: BlobStore.Bytes -> Option<M>)
    ensures LoadBatch(blobs, a + b, load) == LoadBatch(blobs, a, load) + LoadBatch(blobs, b, load)
    decreases |a|
  {
    if |a| == 0 {
      assert a + b == b;
    } else {
      assert (a + b)[0] == a[0] && (a + b)[1..] == a[1..] + b;
      LoadBatchAppend(blobs, a[1..], b, load);
    }
  }

  /** The slices `s[i:i + size]` for `i` in `range(0, len(s), size)`. */
  function Chunks<T>(s: seq<T>, size: nat): (r: seq<seq<T>>)
    requires size > 0
    ensures forall k :: 0 <= k < |r| ==> 0 < |r[k]| <= size
    decreases |s|
  {
    if |s| == 0 then []
    else if |s| <= size then [s]
    else [s[..size]] + Chunks(s[size..], size)
  }

  /** The slices put back together are the whole sequence. */
  lemma {:induction false} ChunksFlatten<T>(s: seq<T>, size: nat)
    requires size > 0
    ensures Flatten(Chunks(s, size)) == s
    decreases |s|
  {
    if |s| > size {
      var rest := Chunks(s[size..], size);
      ChunksFlatten(s[size..], size);
      assert ([s[..size]] + rest)[1..] == rest;
      assert s[..size] + s[size..] == s;
    }
  }

  /** `k * size`, one step at a time. */
  function Offset(k: nat, size: nat): (o: nat)
  {
    if k == 0 then 0 else Offset(k - 1, size) + size
  }

  lemma {:induction false} OffsetIsProduct(k: nat, size: nat)
    ensures Offset(k, size) == k * size
  {
    if k > 0 {
      OffsetIsProduct(k - 1, size);
      assert (k - 1) * size + size == k * size;
    }
  }

  function Min(a: int, b: int): int
  {
    if a <= b then a else b
  }

  lemma {:induction false} ChunkOffsetsBySteps<T>(s: seq<T>, size: nat, k: nat)
    requires size > 0 && k < |Chunks(s, size)|
    ensures Offset(k, size) < |s|
    ensures Chunks(s, size)[k] == s[Offset(k, size) .. Min(Offset(k, size) + size, |s|)]
    decreases |s|
  {
    if k > 0 {
      assert |s| > size;
      var rest := s[size..];
      assert Chunks(s, size)[k] == Chunks(rest, size)[k - 1];
      ChunkOffsetsBySteps(rest, size, k - 1);
      var lo := Offset(k - 1, size);
      var hi := Min(lo + size, |rest|);
      SliceOfSuffix(s, size, lo, hi);
    }
  }

  lemma SliceOfSuffix<T>(s: seq<T>, d: nat, lo: nat, hi: nat)
    requires d <= |s| && lo <= hi <= |s| - d
    ensures s[d..][lo..hi] == s[d + lo..d + hi]
  {
  }

  /** Chunk `k` is the slice starting at `k * size`: the slices are
      consecutive and do not overlap. */
  lemma ChunkOffsets<T>(s: seq<T>, size: nat, k: nat)
    requires size > 0 && k < |Chunks(s, size)|
    ensures k * size < |s|
    ensures Chunks(s, size)[k] == s[k * size .. Min(k * size + size, |s|)]
  {
    ChunkOffsetsBySteps(s, size, k);
    OffsetIsProduct(k, size);
  }

  /** Every chunk but the last holds exactly `size` elements. */
  lemma ChunkSizes<T>(s: seq<T>, size: nat, k: nat)
    requires size > 0 && k + 1 < |Chunks(s, size)|
    ensures |Chunks(s, size)[k]| == size
  {
    ChunkOffsets(s, size, k);
    ChunkOffsets(s, size, k + 1);
    assert (k + 1) * size == k * size + size;
  }

  /** The batches `get_batches` yields: `range` raises for a step of zero,
      and yields nothing for a negative step. */
  function GetBatches<M>(blobs: seq<BlobStore.Blob>, ids: seq<string>, batchSize: int, load: BlobStore.Bytes -> Option<M>): (r: Result<seq<seq<Item<M>>>, string>)
    ensures r.Err? <==> batchSize == 0
    ensures batchSize < 0 ==> r == Ok([])
    ensures batchSize > 0 ==> r.Ok? && |r.value| == |Chunks(ids, batchSize)|
  {
    if batchSize == 0 then Err("range() arg 3 must not be zero")
    else if batchSize < 0 then Ok([])
    else Ok(LoadAll(blobs, Chunks(ids, batchSize), load))
  }

  /** `load_batch` applied to every chunk in order. */
  function LoadAll<M>(blobs: seq<BlobStore.Blob>, chunks: seq<seq<string>>, load: BlobStore.Bytes -> Option<M>): (r: seq<seq<Item<M>>>)
    ensures |r| == |chunks|
    ensures forall k :: 0 <= k < |chunks| ==> r[k] == LoadBatch(blobs, chunks[k], load)
    decreases |chunks|
  {
    if |chunks| == 0 then [] else [LoadBatch(blobs, chunks[0], load)] + LoadAll(blobs, chunks[1..], load)
  }

  lemma {:induction false} LoadAllFlatten<M>(blobs: seq<BlobStore.Blob>, chunks: seq<seq<string>>, load: BlobStore.Bytes -> Option<M>)
    ensures Flatten(LoadAll(blobs, chunks, load)) == LoadBatch(blobs, Flatten(chunks), load)
    decreases |chunks|
  {
    if |chunks| > 0 {
      var r := LoadAll(blobs, chunks, load);
      assert r[1..] == LoadAll(blobs, chunks[1..], load);
      LoadAllFlatten(blobs, chunks[1..], load);
      LoadBatchAppend(blobs, chunks[0], Flatten(chunks[1..]), load);
    }
  }

  /** Batching changes nothing but the grouping: the batches together are
      what one `load_batch` over all ids returns, so every kept id is loaded
      once per occurrence, in order. */
  lemma BatchesConcatenate<M>(blobs: seq<BlobStore.Blob>, ids: seq<string>, batchSize: int, load: BlobStore.Bytes -> Option<M>)
    requires batchSize > 0
    ensures Flatten(GetBatches(blobs, ids, batchSize, load).value) == LoadBatch(blobs, ids, load)
  {
    LoadAllFlatten(blobs, Chunks(ids, batchSize), load);
    ChunksFlatten(ids, batchSize);
  }
}
