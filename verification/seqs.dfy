/** Generic facts about sequences: Python's filtering comprehension and the
    order-preserving embedding of its result into its input. */
module Seqs {

  /** `any(p(x) for x in s)` */
  function Any<T>(s: seq<T>, p: T -> bool): (r: bool)
    ensures r <==> exists i :: 0 <= i < |s| && p(s[i])
  {
    if |s| == 0 then false
    else p(s[0]) || (assert forall i :: 0 <= i < |s| - 1 ==> s[1..][i] == s[i + 1]; Any(s[1..], p))
  }

  /** `[x for x in s if p(x)]` */
  function Filter<T>(s: seq<T>, p: T -> bool): (r: seq<T>)
    ensures |r| <= |s|
    ensures forall x :: x in r ==> x in s && p(x)
    ensures forall i :: 0 <= i < |s| && p(s[i]) ==> s[i] in r
  {
    if |s| == 0 then []
    else if p(s[0]) then [s[0]] + Filter(s[1..], p)
    else Filter(s[1..], p)
  }

  /** `idx` lists, strictly increasing, the positions of `s` that `r` was taken
      from: `r` is a subsequence of `s` in the order of `s`, and no position of
      `s` is used twice. */
  ghost predicate Embeds<T>(r: seq<T>, s: seq<T>, idx: seq<nat>)
  {
    && |idx| == |r|
    && (forall k :: 0 <= k < |idx| ==> idx[k] < |s| && r[k] == s[idx[k]])
    && (forall k, l :: 0 <= k < l < |idx| ==> idx[k] < idx[l])
  }

  function Shift(idx: seq<nat>): (r: seq<nat>)
    ensures |r| == |idx|
    ensures forall k :: 0 <= k < |r| ==> r[k] == idx[k] + 1
  {
    seq(|idx|, k requires 0 <= k < |idx| => idx[k] + 1)
  }

  lemma ShiftMembership(idx: seq<nat>, j: nat)
    ensures j in idx <==> j + 1 in Shift(idx)
  {
    var sh := Shift(idx);
    if j + 1 in sh {
      var k :| 0 <= k < |sh| && sh[k] == j + 1;
      assert idx[k] == j;
    }
    if j in idx {
      var k :| 0 <= k < |idx| && idx[k] == j;
      assert sh[k] == j + 1;
    }
  }

  /** Extending an embedding of the tail of `s` by the head of `s`. */
  lemma EmbedsCons<T>(x: T, r: seq<T>, s: seq<T>, idx: seq<nat>)
    requires |s| > 0 && s[0] == x
    requires Embeds(r, s[1..], idx)
    ensures Embeds([x] + r, s, [0] + Shift(idx))
    ensures Embeds(r, s, Shift(idx))
  {
    var sh := Shift(idx);
    var idx' := [0] + sh;
    var r' := [x] + r;
    forall k | 0 <= k < |idx'|
      ensures idx'[k] < |s| && r'[k] == s[idx'[k]]
    {
      if k > 0 {
        assert idx'[k] == idx[k - 1] + 1;
        assert r'[k] == r[k - 1] == s[1..][idx[k - 1]];
      }
    }
    forall k | 0 <= k < |sh|
      ensures sh[k] < |s| && r[k] == s[sh[k]]
    {
      assert r[k] == s[1..][idx[k]];
    }
  }

  /** The filtered sequence is exactly the subsequence of the positions whose
      element satisfies `p`. */
  lemma {:induction false} FilterEmbeds<T>(s: seq<T>, p: T -> bool) returns (idx: seq<nat>)
    ensures Embeds(Filter(s, p), s, idx)
    ensures forall j :: 0 <= j < |s| ==> (p(s[j]) <==> j in idx)
    decreases |s|
  {
    if |s| == 0 {
      idx := [];
    } else {
      var tail := FilterEmbeds(s[1..], p);
      var sh := Shift(tail);
      EmbedsCons(s[0], Filter(s[1..], p), s, tail);
      idx := if p(s[0]) then [0] + sh else sh;
      forall j | 0 <= j < |s|
        ensures p(s[j]) <==> j in idx
      {
        if j == 0 {
          assert 0 !in sh;
        } else {
          assert s[j] == s[1..][j - 1];
          ShiftMembership(tail, j - 1);
        }
      }
    }
  }

  /** Concatenation of a sequence of sequences. */
  function Flatten<T>(ss: seq<seq<T>>): (r: seq<T>)
    ensures |ss| == 1 ==> r == ss[0]
  {
    if |ss| == 0 then [] else ss[0] + Flatten(ss[1..])
  }

  /** Appending two elements one at a time appends the pair. */
  lemma AppendPair<T>(s: seq<T>, x: T, y: T)
    ensures (s + [x]) + [y] == s + [x, y]
  {
  }
}
