/** `toTrianglesDrawMode` from the viewer's `BufferGeometryUtils`: rewrite
    the index of a triangle-strip or triangle-fan geometry as a plain
    triangle list. A geometry is reduced to what the function reads: its
    index attribute and the count of its `position` attribute. */
module DrawMode {
  import opened Wrappers

  /** The typed array behind an index attribute. `FromArray` is the index
      `setIndex` builds from a plain array; which typed array three.js picks
      for it is not part of this model. */
  datatype IndexType = Uint16 | Uint32 | FromArray

  /** An index attribute: item size one, so `getX(i)` is `values[i]` and
      `count` is `|values|`. */
  datatype Index = Index(values: seq<nat>, kind: IndexType)

  /** `position` is the `count` of the position attribute, `None` when the
      geometry has none. */
  datatype Geometry = Geometry(index: Option<Index>, position: Option<nat>)

  /** The input object itself is returned (possibly after `setIndex`); a
      new geometry is returned, with whether the triangle-count check at the
      end logged its error; or a `TypeError` is thrown at `line`, leaving the
      input object as `input`. */
  datatype Outcome =
    | Same(g: Geometry)
    | Cloned(g: Geometry, warned: bool)
    | Threw(line: nat, input: Geometry)

  const TRIANGLES := 4
  const TRIANGLE_STRIP := 5

  datatype Tri = Tri(a: nat, b: nat, c: nat)

  function Flat(t: Tri): seq<nat>
  {
    [t.a, t.b, t.c]
  }

  /** Triangle `t` of a flat triangle list. */
  function TriAt(out: seq<nat>, t: nat): Tri
    requires 3 * t + 2 < |out|
  {
    Tri(out[3 * t], out[3 * t + 1], out[3 * t + 2])
  }

  /** How many triangles the loops emit for `count` indices: `count - 2`,
      and none when that is negative. */
  function Triangles(count: nat): nat
  {
    if count >= 2 then count - 2 else 0
  }

  /** Strip triangle `t`: every odd triangle has its first two vertices
      swapped. */
  function StripTri(idx: seq<nat>, t: nat): Tri
    requires t + 2 < |idx|
  {
    if t % 2 == 0 then Tri(idx[t], idx[t + 1], idx[t + 2])
    else Tri(idx[t + 1], idx[t], idx[t + 2])
  }

  /** Fan triangle `t`, the loop's `i = t + 1`: the first vertex and the
      consecutive pair `i`, `i + 1`. */
  function FanTri(idx: seq<nat>, t: nat): Tri
    requires t + 2 < |idx|
  {
    Tri(idx[0], idx[t + 1], idx[t + 2])
  }

  /** The strip loop's first `n` triangles. */
  function Strip(idx: seq<nat>, n: nat): (out: seq<nat>)
    requires n <= Triangles(|idx|)
    ensures |out| == 3 * n
    ensures forall t :: 0 <= t < n ==> TriAt(out, t) == StripTri(idx, t)
    ensures forall v :: v in out ==> v in idx
  {
    if n == 0 then []
    else
      var prev := Strip(idx, n - 1);
      var tri := StripTri(idx, n - 1);
      assert forall v :: v in Flat(tri) ==> v in idx;
      prev + Flat(tri)
  }

  /** The fan loop's first `n` triangles. */
  function Fan(idx: seq<nat>, n: nat): (out: seq<nat>)
    requires n <= Triangles(|idx|)
    ensures |out| == 3 * n
    ensures forall t :: 0 <= t < n ==> TriAt(out, t) == FanTri(idx, t)
    ensures forall v :: v in out ==> v in idx
  {
    if n == 0 then []
    else
      var prev := Fan(idx, n - 1);
      var tri := FanTri(idx, n - 1);
      assert forall v :: v in Flat(tri) ==> v in idx;
      prev + Flat(tri)
  }

  /** The directed edge `u -> v` is one of the triangle's three sides in
      its winding order. */
  predicate HasEdge(t: Tri, u: nat, v: nat)
  {
    (t.a == u && t.b == v) || (t.b == u && t.c == v) || (t.c == u && t.a == v)
  }

  /** Consecutive strip triangles share the edge between `idx[t + 1]` and
      `idx[t + 2]` and run along it in opposite directions, so the swap of
      odd triangles keeps every triangle of the strip wound the same way. */
  lemma StripWindingConsistent(idx: seq<nat>, t: nat)
    requires t + 3 < |idx|
    ensures var u, v := idx[t + 1], idx[t + 2];
            || (HasEdge(StripTri(idx, t), u, v) && HasEdge(StripTri(idx, t + 1), v, u))
            || (HasEdge(StripTri(idx, t), v, u) && HasEdge(StripTri(idx, t + 1), u, v))
  {
    if t % 2 == 0 {
      assert (t + 1) % 2 == 1;
    } else {
      assert (t + 1) % 2 == 0;
    }
  }

  /** Consecutive fan triangles share the edge between the hub `idx[0]` and
      `idx[t + 2]`, run along it in opposite directions, and every fan
      triangle has the hub as its first vertex. */
  lemma FanWindingConsistent(idx: seq<nat>, t: nat)
    requires t + 3 < |idx|
    ensures HasEdge(FanTri(idx, t), idx[t + 2], idx[0]) && HasEdge(FanTri(idx, t + 1), idx[0], idx[t + 2])
    ensures FanTri(idx, t).a == idx[0] && FanTri(idx, t + 1).a == idx[0]
  {
  }

  /** What a typed array keeps of a value: the value modulo 2^16 or 2^32. */
  function Capacity(kind: IndexType): nat
  {
    if kind == Uint32 then 0x1_0000_0000 else 0x1_0000
  }

  /** The value a typed array of `kind` stores for `v`. */
  function Stored(v: nat, kind: IndexType): nat
  {
    v % Capacity(kind)
  }

  /** `new Uint32BufferAttribute(values, 1)` when the position count exceeds
      65535, `new Uint16BufferAttribute(values, 1)` otherwise; the typed
      array stores each value modulo its capacity. */
  function NewIndex(values: seq<nat>, positionCount: nat): (r: Index)
    ensures r.kind == Uint32 <==> positionCount > 65535
    ensures r.kind != FromArray
    ensures |r.values| == |values|
    ensures forall k :: 0 <= k < |values| ==> r.values[k] == values[k] % Capacity(r.kind)
  {
    var kind := if positionCount > 65535 then Uint32 else Uint16;
    Index(seq(|values|, k requires 0 <= k < |values| => Stored(values[k], kind)), kind)
  }

  /** The new index holds the triangle list exactly if and only if every
      value fits the chosen typed array. */
  lemma NewIndexLossless(values: seq<nat>, positionCount: nat)
    ensures var r := NewIndex(values, positionCount);
            r.values == values <==> forall k :: 0 <= k < |values| ==> values[k] < Capacity(r.kind)
  {
    var r := NewIndex(values, positionCount);
    if r.values == values {
      forall k | 0 <= k < |values|
        ensures values[k] < Capacity(r.kind)
      {
        assert values[k] % Capacity(r.kind) == values[k];
      }
    }
  }

  /** Index values below the position count fit the typed array chosen by
      the position count, so a valid geometry loses nothing. */
  lemma ValidIndexLossless(values: seq<nat>, positionCount: nat)
    requires positionCount <= 0x1_0000_0000
    requires forall k :: 0 <= k < |values| ==> values[k] < positionCount
    ensures NewIndex(values, positionCount).values == values
  {
    NewIndexLossless(values, positionCount);
  }

  /** Lines 41 to 89 for an index `idx`: build the triangle list (any mode
      other than a strip is treated as a fan), compare its size with
      `count - 2`, clone the geometry and give the clone the new index; the
      clone's position count is read without a check. */
  function Rebuild(g: Geometry, idx: seq<nat>, drawMode: int): (r: Outcome)
  {
    var n := Triangles(|idx|);
    var out := if drawMode == TRIANGLE_STRIP then Strip(idx, n) else Fan(idx, n);
    var warned := (|out| as real) / 3.0 != (|idx| - 2) as real;
    if g.position.None? then Threw(87, g)
    else Cloned(g.(index := Some(NewIndex(out, g.position.value))), warned)
  }

  /** The rebuilt geometry: a clone whose index is the strip or fan of
      `idx` as triangles, `3 * (count - 2)` entries, with nothing else
      changed; the count check fires exactly when fewer than two indices
      leave `count - 2` negative. */
  lemma RebuildTriangles(g: Geometry, idx: seq<nat>, drawMode: int)
    requires g.position.Some?
    ensures var r := Rebuild(g, idx, drawMode);
            && r.Cloned?
            && r.g.position == g.position
            && r.g.index.Some?
            && (r.warned <==> |idx| < 2)
            && |r.g.index.value.values| == 3 * Triangles(|idx|)
            && (r.g.index.value.kind == Uint32 <==> g.position.value > 65535)
  {
    var n := Triangles(|idx|);
    var out := if drawMode == TRIANGLE_STRIP then Strip(idx, n) else Fan(idx, n);
    assert |out| == 3 * n;
    if |idx| >= 2 {
      assert (|out| as real) / 3.0 == (|idx| - 2) as real;
    } else {
      assert |out| == 0;
    }
  }

  /** For a valid geometry, triangle `t` of the new index is strip triangle
      `t` in strip mode and fan triangle `t` otherwise. */
  lemma RebuildContents(g: Geometry, idx: seq<nat>, drawMode: int)
    requires g.position.Some? && g.position.value <= 0x1_0000_0000
    requires forall k :: 0 <= k < |idx| ==> idx[k] < g.position.value
    ensures var r := Rebuild(g, idx, drawMode);
            && r.Cloned? && r.g.index.Some?
            && |r.g.index.value.values| == 3 * Triangles(|idx|)
            && forall t :: 0 <= t < Triangles(|idx|) ==>
                 TriAt(r.g.index.value.values, t) == (if drawMode == TRIANGLE_STRIP then StripTri(idx, t) else FanTri(idx, t))
  {
    var n := Triangles(|idx|);
    var out := if drawMode == TRIANGLE_STRIP then Strip(idx, n) else Fan(idx, n);
    forall k | 0 <= k < |out|
      ensures out[k] < g.position.value
    {
      assert out[k] in out;
    }
    ValidIndexLossless(out, g.position.value);
  }

  /** `toTrianglesDrawMode(geometry, drawMode)` as written. For a geometry
      without an index but with positions, line 27 gives the input object
      the index `0 .. count - 1`, but the local `index` still holds `null`,
      and line 41 reads `index.count`. */
  function ToTrianglesDrawMode(g: Geometry, drawMode: int): (r: Outcome)
    ensures drawMode == TRIANGLES ==> r == Same(g)
    ensures drawMode != TRIANGLES && g.index.None? && g.position.None? ==> r == Same(g)
    ensures drawMode != TRIANGLES && g.index.None? && g.position.Some? ==>
      r == Threw(41, g.(index := Some(Index(Range(g.position.value), FromArray))))
    ensures drawMode != TRIANGLES && g.index.Some? && g.position.None? ==> r == Threw(87, g)
    ensures drawMode != TRIANGLES && g.index.Some? && g.position.Some? ==> r.Cloned?
  {
    if drawMode == TRIANGLES then Same(g)
    else
      match g.index
      case None =>
        if g.position.None? then Same(g)
        else Threw(41, g.(index := Some(Index(Range(g.position.value), FromArray))))
      case Some(index) => Rebuild(g, index.values, drawMode)
  }

  /** `0, 1, ..., n - 1`, the index line 27 builds. */
  function Range(n: nat): (r: seq<nat>)
    ensures |r| == n && forall i :: 0 <= i < n ==> r[i] == i
  {
    seq(n, i requires 0 <= i < n => i)
  }

  /** The smallest input that shows the fault: a non-indexed strip of three
      vertices throws instead of becoming one triangle. */
  lemma NonIndexedStripThrows()
    ensures ToTrianglesDrawMode(Geometry(None, Some(3)), TRIANGLE_STRIP).Threw?
    ensures ToTrianglesDrawMode(Geometry(None, Some(3)), TRIANGLE_STRIP).line == 41
  {
  }

  /** The evidently intended function: after generating the index, read it
      back from the geometry before line 41. */
  function ToTrianglesDrawModeFixed(g: Geometry, drawMode: int): (r: Outcome)
    ensures drawMode == TRIANGLES ==> r == Same(g)
    ensures g.index.Some? ==> r == ToTrianglesDrawMode(g, drawMode)
    ensures !(r.Threw? && r.line == 41)
  {
    if drawMode == TRIANGLES then Same(g)
    else
      match g.index
      case None =>
        if g.position.None? then Same(g)
        else
          var withIndex := g.(index := Some(Index(Range(g.position.value), FromArray)));
          Rebuild(withIndex, Range(g.position.value), drawMode)
      case Some(index) => Rebuild(g, index.values, drawMode)
  }

  /** The fixed function turns a non-indexed strip of `n` vertices into its
      `n - 2` triangles over the vertex numbers, every odd one with its
      first two vertices swapped. */
  lemma FixedConvertsNonIndexedStrip(n: nat)
    requires n <= 0x1_0000_0000
    ensures var r := ToTrianglesDrawModeFixed(Geometry(None, Some(n)), TRIANGLE_STRIP);
            && r.Cloned? && r.g.index.Some? && r.g.position == Some(n)
            && |r.g.index.value.values| == 3 * Triangles(n)
            && forall t :: 0 <= t < Triangles(n) ==>
                 TriAt(r.g.index.value.values, t) == (if t % 2 == 0 then Tri(t, t + 1, t + 2) else Tri(t + 1, t, t + 2))
  {
    var g := Geometry(Some(Index(Range(n), FromArray)), Some(n));
    RebuildContents(g, Range(n), TRIANGLE_STRIP);
  }
}
