/** The handful of Python `str` operations the pipeline relies on. */
module Strings {

  /** `s.startswith(prefix)` */
  predicate StartsWith(s: string, prefix: string)
  {
    |prefix| <= |s| && s[..|prefix|] == prefix
  }

  /** `s.endswith(suffix)` */
  predicate EndsWith(s: string, suffix: string)
  {
    |suffix| <= |s| && s[|s| - |suffix|..] == suffix
  }

  /** `pat` occurs in `s` starting at position `i`. */
  predicate OccursAt(s: string, pat: string, i: int)
  {
    0 <= i && i + |pat| <= |s| && s[i..i + |pat|] == pat
  }

  lemma OccursInTail(s: string, pat: string)
    requires |s| > 0
    ensures forall i :: OccursAt(s[1..], pat, i) ==> OccursAt(s, pat, i + 1)
  {
    forall i | OccursAt(s[1..], pat, i)
      ensures OccursAt(s, pat, i + 1)
    {
      assert s[1..][i..i + |pat|] == s[i + 1..i + 1 + |pat|];
    }
  }

  /** `s.replace(pat, rep)`: every non-overlapping occurrence of `pat`, found
      scanning left to right, is replaced by `rep`. */
  function ReplaceAll(s: string, pat: string, rep: string): (r: string)
    requires |pat| > 0
    ensures |pat| == |rep| ==> |r| == |s|
    decreases |s|
  {
    if |s| < |pat| then s
    else if s[..|pat|] == pat then rep + ReplaceAll(s[|pat|..], pat, rep)
    else [s[0]] + ReplaceAll(s[1..], pat, rep)
  }

  /** Without an occurrence of `pat` the string is returned unchanged. */
  lemma {:induction false} ReplaceAllAbsent(s: string, pat: string, rep: string)
    requires |pat| > 0
    requires forall i :: !OccursAt(s, pat, i)
    ensures ReplaceAll(s, pat, rep) == s
    decreases |s|
  {
    if |s| >= |pat| {
      assert !OccursAt(s, pat, 0);
      OccursInTail(s, pat);
      ReplaceAllAbsent(s[1..], pat, rep);
    }
  }

  /** Replacement introduces no character that is neither in `s` nor in `rep`. */
  lemma {:induction false} ReplaceAllChars(s: string, pat: string, rep: string, c: char)
    requires |pat| > 0
    requires c !in s && c !in rep
    ensures c !in ReplaceAll(s, pat, rep)
    decreases |s|
  {
    if |s| >= |pat| {
      if s[..|pat|] == pat {
        assert forall x :: x in s[|pat|..] ==> x in s;
        ReplaceAllChars(s[|pat|..], pat, rep, c);
      } else {
        assert forall x :: x in s[1..] ==> x in s;
        ReplaceAllChars(s[1..], pat, rep, c);
      }
    }
  }

  lemma ReplaceAllHit(pat: string, rest: string, rep: string)
    requires |pat| > 0
    ensures ReplaceAll(pat + rest, pat, rep) == rep + ReplaceAll(rest, pat, rep)
  {
    var s := pat + rest;
    assert s[..|pat|] == pat;
    assert s[|pat|..] == rest;
  }

  lemma ReplaceAllMiss(c: char, rest: string, pat: string, rep: string)
    requires |pat| > 0 && c != pat[0]
    ensures ReplaceAll([c] + rest, pat, rep) == [c] + ReplaceAll(rest, pat, rep)
  {
    var s := [c] + rest;
    if |s| >= |pat| {
      assert s[..|pat|][0] == c;
    }
    assert s[1..] == rest;
  }

  /** When `stem` holds no character that could start `pat`, the first
      occurrence of `pat` in `stem + pat + rest` is the one after `stem`. */
  lemma {:induction false} ReplaceAfterStem(stem: string, pat: string, rest: string, rep: string)
    requires |pat| > 0 && pat[0] !in stem
    ensures ReplaceAll(stem + pat + rest, pat, rep) == stem + rep + ReplaceAll(rest, pat, rep)
    decreases |stem|
  {
    if |stem| == 0 {
      assert stem + pat + rest == pat + rest;
      ReplaceAllHit(pat, rest, rep);
    } else {
      var c, tail, r := stem[0], stem[1..] + pat + rest, ReplaceAll(rest, pat, rep);
      assert ReplaceAll(tail, pat, rep) == stem[1..] + rep + r by {
        ReplaceAfterStem(stem[1..], pat, rest, rep);
      }
      assert ReplaceAll(stem + pat + rest, pat, rep) == [c] + ReplaceAll(tail, pat, rep) by {
        assert stem + pat + rest == [c] + tail;
        assert c in stem;
        ReplaceAllMiss(c, tail, pat, rep);
      }
      assert [c] + (stem[1..] + rep + r) == stem + rep + r;
    }
  }

  /** A path whose stem holds no character that could start `pat` has exactly
      one occurrence, at its end, so only the extension is rewritten. */
  lemma ReplaceSuffix(stem: string, pat: string, rep: string)
    requires |pat| > 0 && pat[0] !in stem
    ensures ReplaceAll(stem + pat, pat, rep) == stem + rep
  {
    ReplaceAfterStem(stem, pat, "", rep);
    assert stem + pat + "" == stem + pat;
    assert ReplaceAll("", pat, rep) == "";
  }

  /** `c.isspace()` for a single character, as Python's `str.split()` and
      `str.strip()` with no argument use it. */
  predicate IsSpace(c: char)
  {
    var n := c as int;
    || n == 0x20 || 0x09 <= n <= 0x0D || 0x1C <= n <= 0x1F
    || n == 0x85 || n == 0xA0 || n == 0x1680 || 0x2000 <= n <= 0x200A
    || n == 0x2028 || n == 0x2029 || n == 0x202F || n == 0x205F || n == 0x3000
  }

  /** `s.rstrip()` */
  function TrimEnd(s: string): (r: string)
    ensures |r| <= |s| && r == s[..|r|]
    ensures forall i :: |r| <= i < |s| ==> IsSpace(s[i])
    ensures |r| > 0 ==> !IsSpace(r[|r| - 1])
  {
    if |s| > 0 && IsSpace(s[|s| - 1]) then TrimEnd(s[..|s| - 1]) else s
  }

  /** The longest suffix of `s` holding no whitespace. */
  function TrailingWord(s: string): (r: string)
    ensures |r| <= |s| && r == s[|s| - |r|..]
    ensures forall c :: c in r ==> !IsSpace(c)
    ensures |r| < |s| ==> IsSpace(s[|s| - |r| - 1])
  {
    if |s| > 0 && !IsSpace(s[|s| - 1]) then TrailingWord(s[..|s| - 1]) + [s[|s| - 1]] else []
  }

  /** `s.split()` is not empty. */
  predicate HasToken(s: string)
  {
    exists i :: 0 <= i < |s| && !IsSpace(s[i])
  }

  /** `s.strip().split()[-1]`: the last maximal run of non-whitespace
      characters. The source indexes `[-1]`, so a line with no token at all
      would raise; callers must supply one. */
  function LastToken(s: string): (r: string)
    requires HasToken(s)
    ensures |r| > 0
    ensures forall c :: c in r ==> !IsSpace(c)
    ensures |r| <= |TrimEnd(s)| && s[|TrimEnd(s)| - |r|..|TrimEnd(s)|] == r
    ensures forall i :: |TrimEnd(s)| <= i < |s| ==> IsSpace(s[i])
    ensures |r| < |TrimEnd(s)| ==> IsSpace(s[|TrimEnd(s)| - |r| - 1])
  {
    TrailingWord(TrimEnd(s))
  }
}
