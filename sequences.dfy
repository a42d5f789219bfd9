/** The JavaScript string and array operations the catalog pages rely on:
    `toLowerCase`, `includes`, `startsWith`, `Array.prototype.filter` and the
    first-seen de-duplication of `[...new Set(xs)]`, and `Array.prototype.find`. */
module Sequences {
  import opened Wrappers

  // ---------------------------------------------------------------------
  // Strings

  /** Lower-casing of one character, ASCII style: 'A'..'Z' map to 'a'..'z',
      every other character is left as it is. */
  function LowerChar(c: char): char {
    if 'A' <= c <= 'Z' then (c as int - 'A' as int + 'a' as int) as char else c
  }

  /** `s.toLowerCase()`, one character at a time: the result has no ASCII
      capital left, it differs from the input exactly at the capitals, and
      each capital becomes its own lower-case letter. */
  function Lower(s: string): (r: string)
    ensures |r| == |s|
    ensures forall i :: 0 <= i < |r| ==> !('A' <= r[i] <= 'Z')
    ensures forall i :: 0 <= i < |s| ==> (r[i] == s[i] <==> !('A' <= s[i] <= 'Z'))
    ensures forall i :: 0 <= i < |s| && 'A' <= s[i] <= 'Z' ==> r[i] == "abcdefghijklmnopqrstuvwxyz"[s[i] as int - 'A' as int]
  {
    seq(|s|, i requires 0 <= i < |s| => LowerChar(s[i]))
  }

  /** `s.startsWith(p)`. */
  predicate StartsWith(s: string, p: string) {
    |p| <= |s| && s[..|p|] == p
  }

  /** The rest of `s` after `prefix`, when `s` starts with it. */
  function StripPrefix(s: string, prefix: string): (r: Option<string>)
    ensures r.Some? <==> StartsWith(s, prefix)
    ensures r.Some? ==> s == prefix + r.value
  {
    if StartsWith(s, prefix) then Some(s[|prefix|..]) else None
  }

  /** Stripping a prefix undoes prepending it. */
  lemma StripPrefixOfConcat(prefix: string, rest: string)
    ensures StripPrefix(prefix + rest, prefix) == Some(rest)
  {
    assert (prefix + rest)[..|prefix|] == prefix;
    assert (prefix + rest)[|prefix|..] == rest;
  }

  /** `t` sits in `s` as a contiguous block starting at position `i`. */
  ghost predicate OccursAt(s: string, t: string, i: int) {
    0 <= i && i + |t| <= |s| && s[i..i + |t|] == t
  }

  /** The characters `t[j..]` agree with `s` from position `i + j` on. */
  function MatchesAt(s: string, t: string, i: nat, j: nat): bool
    requires i + |t| <= |s| && j <= |t|
    decreases |t| - j
  {
    j == |t| || (s[i + j] == t[j] && MatchesAt(s, t, i, j + 1))
  }

  /** Some start position at or after `i` holds a copy of `t`. */
  function IncludesFrom(s: string, t: string, i: nat): bool
    decreases |s| - i
  {
    if i + |t| > |s| then false
    else if MatchesAt(s, t, i, 0) then true
    else IncludesFrom(s, t, i + 1)
  }

  /** `s.includes(t)`: try every start position from left to right. */
  function Includes(s: string, t: string): bool {
    IncludesFrom(s, t, 0)
  }

  /** The character-by-character comparison decides slice equality. */
  lemma {:induction false} MatchesAtIff(s: string, t: string, i: nat, j: nat)
    requires i + |t| <= |s| && j <= |t|
    ensures MatchesAt(s, t, i, j) <==> s[i + j..i + |t|] == t[j..]
    decreases |t| - j
  {
    if j < |t| {
      MatchesAtIff(s, t, i, j + 1);
      assert s[i + j..i + |t|] == [s[i + j]] + s[i + j + 1..i + |t|];
      assert t[j..] == [t[j]] + t[j + 1..];
    }
  }

  /** The scan from `i` succeeds exactly when `t` occurs at some position
      at or after `i`. */
  lemma {:induction false} IncludesFromIff(s: string, t: string, i: nat)
    ensures IncludesFrom(s, t, i) <==> exists k :: i <= k && OccursAt(s, t, k)
    decreases |s| - i
  {
    if i + |t| > |s| {
    } else {
      MatchesAtIff(s, t, i, 0);
      if MatchesAt(s, t, i, 0) {
        assert OccursAt(s, t, i);
      } else {
        IncludesFromIff(s, t, i + 1);
        forall k | i <= k && OccursAt(s, t, k) ensures i + 1 <= k {
        }
      }
    }
  }

  /** `Includes` finds `t` exactly when `t` occurs somewhere in `s`. */
  lemma IncludesIff(s: string, t: string)
    ensures Includes(s, t) <==> exists k :: OccursAt(s, t, k)
  {
    IncludesFromIff(s, t, 0);
  }

  /** A string cannot include a text that has a character it lacks. */
  lemma MissingCharExcludes(s: string, t: string, i: int)
    requires 0 <= i < |t| && t[i] !in s
    ensures !Includes(s, t)
  {
    IncludesIff(s, t);
  }

  /** Every string includes the empty string. */
  lemma IncludesEmpty(s: string)
    ensures Includes(s, "")
  {
  }

  /** A concatenation includes each of its middle parts. */
  lemma IncludesMiddle(a: string, t: string, b: string)
    ensures Includes(a + t + b, t)
  {
    var s := a + t + b;
    assert s[|a|..|a| + |t|] == t;
    assert OccursAt(s, t, |a|);
    IncludesIff(s, t);
  }

  /** A string that includes `a + b` includes `a`. */
  lemma IncludesPrefixPart(s: string, a: string, b: string)
    requires Includes(s, a + b)
    ensures Includes(s, a)
  {
    IncludesIff(s, a + b);
    var k :| OccursAt(s, a + b, k);
    assert s[k..k + |a|] == s[k..k + |a + b|][..|a|];
    assert OccursAt(s, a, k);
    IncludesIff(s, a);
  }

  // ---------------------------------------------------------------------
  // Filtering

  /** `s.filter(p)`: the elements satisfying `p`, in their original order. */
  function Filter<T(!new)>(s: seq<T>, p: T -> bool): (r: seq<T>)
    ensures |r| <= |s|
    ensures forall x :: x in r <==> x in s && p(x)
  {
    if s == [] then []
    else (if p(s[0]) then [s[0]] else []) + Filter(s[1..], p)
  }

  /** One step of `Filter` on a suffix: used to evaluate it on a literal list. */
  lemma FilterStep<T(!new)>(s: seq<T>, i: nat, p: T -> bool)
    requires i < |s|
    ensures Filter(s[i..], p) == (if p(s[i]) then [s[i]] else []) + Filter(s[i + 1..], p)
  {
    assert s[i..][1..] == s[i + 1..];
  }

  /** `idx` lists strictly increasing positions of `b` whose elements, read in
      order, are exactly `a`: `a` is `b` with some elements deleted. */
  ghost predicate Embedding<T>(idx: seq<int>, a: seq<T>, b: seq<T>) {
    && |idx| == |a|
    && (forall k :: 0 <= k < |idx| ==> 0 <= idx[k] < |b| && a[k] == b[idx[k]])
    && (forall k, l :: 0 <= k < l < |idx| ==> idx[k] < idx[l])
  }

  /** `a` is an order-preserving subsequence of `b`. */
  ghost predicate IsSubsequence<T>(a: seq<T>, b: seq<T>) {
    exists idx :: Embedding(idx, a, b)
  }

  /** The positions `idx` are exactly those of `s` whose element satisfies
      `p`. */
  ghost predicate SelectsPassing<T>(idx: seq<int>, s: seq<T>, p: T -> bool) {
    forall k :: 0 <= k < |s| ==> (p(s[k]) <==> k in idx)
  }

  /** The filtered list is the source list with elements deleted, never
      reordered, duplicated or invented: it is read off the source at
      increasing positions, and those positions are exactly the ones whose
      element passes (so an element occurring twice and passing is kept
      twice). */
  lemma {:induction false} FilterIsSubsequence<T(!new)>(s: seq<T>, p: T -> bool)
    ensures exists idx :: Embedding(idx, Filter(s, p), s) && SelectsPassing(idx, s, p)
    ensures IsSubsequence(Filter(s, p), s)
  {
    if s == [] {
      assert Embedding([], Filter(s, p), s) && SelectsPassing([], s, p);
    } else {
      FilterIsSubsequence(s[1..], p);
      var rest := Filter(s[1..], p);
      var idx :| Embedding(idx, rest, s[1..]) && SelectsPassing(idx, s[1..], p);
      var shifted := ShiftEmbedding(idx, rest, s);
      ShiftSelects(idx, shifted, s, p);
      if p(s[0]) {
        assert Filter(s, p) == [s[0]] + rest;
        PrependEmbedding(shifted, rest, s);
        PrependSelects(shifted, s, p);
        assert Embedding([0] + shifted, Filter(s, p), s) && SelectsPassing([0] + shifted, s, p);
      } else {
        assert Filter(s, p) == rest;
        SkipSelects(shifted, s, p);
        assert Embedding(shifted, Filter(s, p), s) && SelectsPassing(shifted, s, p);
      }
    }
  }

  /** Shifting the passing positions of the tail by one gives the passing
      positions of the whole list from 1 on. */
  lemma ShiftSelects<T>(idx: seq<int>, shifted: seq<int>, s: seq<T>, p: T -> bool)
    requires s != [] && SelectsPassing(idx, s[1..], p)
    requires |shifted| == |idx| && forall k :: 0 <= k < |shifted| ==> shifted[k] == idx[k] + 1
    ensures forall k :: 1 <= k < |s| ==> (p(s[k]) <==> k in shifted)
  {
    forall k | 1 <= k < |s|
      ensures p(s[k]) <==> k in shifted
    {
      assert s[k] == s[1..][k - 1];
      if k in shifted {
        var j :| 0 <= j < |shifted| && shifted[j] == k;
        assert idx[j] == k - 1;
      }
      if k - 1 in idx {
        var j :| 0 <= j < |idx| && idx[j] == k - 1;
        assert shifted[j] == k;
      }
    }
  }

  /** When the first element fails, the passing positions from 1 on are all
      the passing positions. */
  lemma SkipSelects<T>(shifted: seq<int>, s: seq<T>, p: T -> bool)
    requires s != [] && !p(s[0])
    requires forall k :: 0 <= k < |shifted| ==> 1 <= shifted[k]
    requires forall k :: 1 <= k < |s| ==> (p(s[k]) <==> k in shifted)
    ensures SelectsPassing(shifted, s, p)
  {
  }

  /** Putting position 0 in front of the passing positions from 1 on gives
      all passing positions, when the first element passes. */
  lemma PrependSelects<T>(shifted: seq<int>, s: seq<T>, p: T -> bool)
    requires s != [] && p(s[0])
    requires forall k :: 1 <= k < |s| ==> (p(s[k]) <==> k in shifted)
    ensures SelectsPassing([0] + shifted, s, p)
  {
    forall k | 0 <= k < |s|
      ensures p(s[k]) <==> k in [0] + shifted
    {
      if k != 0 {
        assert k in [0] + shifted <==> k in shifted;
      }
    }
  }

  /** An embedding into the tail of `b` is an embedding into `b`, one
      position further on; its positions are all at least 1. */
  lemma ShiftEmbedding<T>(idx: seq<int>, a: seq<T>, b: seq<T>) returns (shifted: seq<int>)
    requires b != [] && Embedding(idx, a, b[1..])
    ensures Embedding(shifted, a, b)
    ensures |shifted| == |idx| && forall k :: 0 <= k < |shifted| ==> shifted[k] == idx[k] + 1
  {
    shifted := seq(|idx|, k requires 0 <= k < |idx| => idx[k] + 1);
  }

  /** Position 0 can be put in front of an embedding whose positions are all
      at least 1. */
  lemma PrependEmbedding<T>(idx: seq<int>, a: seq<T>, b: seq<T>)
    requires b != [] && Embedding(idx, a, b)
    requires forall k :: 0 <= k < |idx| ==> 1 <= idx[k]
    ensures Embedding([0] + idx, [b[0]] + a, b)
  {
  }

  /** A predicate that holds of every element keeps the whole list. */
  lemma {:induction false} FilterKeepsAll<T(!new)>(s: seq<T>, p: T -> bool)
    requires forall k :: 0 <= k < |s| ==> p(s[k])
    ensures Filter(s, p) == s
  {
    if s != [] {
      FilterKeepsAll(s[1..], p);
    }
  }

  /** Filtering by a stronger predicate after a weaker one is the same as
      filtering by the stronger one alone, so a stronger predicate never
      yields an element the weaker one drops. */
  lemma {:induction false} FilterNarrows<T(!new)>(s: seq<T>, p: T -> bool, q: T -> bool)
    requires forall k :: 0 <= k < |s| && p(s[k]) ==> q(s[k])
    ensures Filter(Filter(s, q), p) == Filter(s, p)
    ensures IsSubsequence(Filter(s, p), Filter(s, q))
  {
    if s != [] {
      FilterNarrows(s[1..], p, q);
      if q(s[0]) {
        assert Filter(s, q) == [s[0]] + Filter(s[1..], q);
        assert Filter(s, q)[1..] == Filter(s[1..], q);
      } else {
        assert Filter(s, q) == Filter(s[1..], q);
      }
    }
    FilterIsSubsequence(Filter(s, q), p);
  }

  /** Whether an element survives depends only on the predicate's verdict on
      it: two predicates that agree on the list filter it identically. */
  lemma {:induction false} FilterCongruent<T(!new)>(s: seq<T>, p: T -> bool, q: T -> bool)
    requires forall k :: 0 <= k < |s| ==> p(s[k]) == q(s[k])
    ensures Filter(s, p) == Filter(s, q)
  {
    if s != [] {
      FilterCongruent(s[1..], p, q);
    }
  }

  // ---------------------------------------------------------------------
  // First-seen de-duplication

  /** No value appears twice. */
  predicate NoDuplicates<T(==)>(s: seq<T>) {
    forall i, j :: 0 <= i < j < |s| ==> s[i] != s[j]
  }

  /** `Array.from(new Set(s))`: a JavaScript `Set` keeps its values in
      insertion order, so the result lists each value once, where it was
      first inserted. `Distinct(s)` is the set after inserting the elements
      of `s` one by one. */
  function Distinct<T(==,!new)>(s: seq<T>): (r: seq<T>)
    ensures forall x :: x in r <==> x in s
    ensures NoDuplicates(r)
    ensures |r| <= |s|
  {
    if s == [] then []
    else
      var d := Distinct(s[..|s| - 1]);
      if s[|s| - 1] in d then d else d + [s[|s| - 1]]
  }

  /** Position of the first occurrence of `x` in `s`. */
  function FirstIndex<T(==)>(s: seq<T>, x: T): (i: nat)
    requires x in s
    ensures i < |s| && s[i] == x && x !in s[..i]
  {
    if s[0] == x then 0 else 1 + FirstIndex(s[1..], x)
  }

  /** The de-duplicated values come in the order in which each was first seen. */
  lemma {:induction false} DistinctFirstSeenOrder<T(!new)>(s: seq<T>, i: int, j: int)
    requires 0 <= i < j < |Distinct(s)|
    ensures FirstIndex(s, Distinct(s)[i]) < FirstIndex(s, Distinct(s)[j])
  {
    var n := |s| - 1;
    var init := s[..n];
    var d := Distinct(init);
    assert s == init + [s[n]];
    if j < |d| {
      DistinctFirstSeenOrder(init, i, j);
      FirstIndexPrefix(init, s[n], d[i]);
      FirstIndexPrefix(init, s[n], d[j]);
    } else {
      // Distinct(s)[j] is the newly inserted last element, absent from init.
      assert Distinct(s) == d + [s[n]] && j == |d|;
      FirstIndexPrefix(init, s[n], d[i]);
      FirstIndexAppended(init, s[n]);
    }
  }

  /** Appending leaves the first position of an earlier value unchanged. */
  lemma {:induction false} FirstIndexPrefix<T>(s: seq<T>, y: T, x: T)
    requires x in s
    ensures FirstIndex(s + [y], x) == FirstIndex(s, x)
  {
    if s[0] != x {
      assert (s + [y])[1..] == s[1..] + [y];
      FirstIndexPrefix(s[1..], y, x);
    }
  }

  /** A value not yet seen is first seen at the position where it is appended. */
  lemma {:induction false} FirstIndexAppended<T>(s: seq<T>, y: T)
    requires y !in s
    ensures FirstIndex(s + [y], y) == |s|
  {
    if s != [] {
      assert (s + [y])[1..] == s[1..] + [y];
      FirstIndexAppended(s[1..], y);
    }
  }

  /** A list without repeated values is its own de-duplication: inserting
      its values into a `Set` one by one gives them back in the same order. */
  lemma {:induction false} DistinctOfDistinct<T(!new)>(s: seq<T>)
    requires NoDuplicates(s)
    ensures Distinct(s) == s
  {
    if s != [] {
      var n := |s| - 1;
      DistinctOfDistinct(s[..n]);
      assert s[..n] + [s[n]] == s;
    }
  }

  // ---------------------------------------------------------------------
  // Searching

  /** `s.find(p)`: the first element satisfying `p`, if there is one. */
  function Find<T(!new)>(s: seq<T>, p: T -> bool): (r: Option<T>)
    ensures r.None? <==> forall x :: x in s ==> !p(x)
    ensures r.Some? ==> r.value in s && p(r.value)
  {
    if s == [] then None
    else if p(s[0]) then Some(s[0])
    else Find(s[1..], p)
  }

  /** `find` stops at the first match: an element that satisfies `p` with
      no match before it is the one returned. */
  lemma {:induction false} FindFirst<T(!new)>(s: seq<T>, p: T -> bool, k: int)
    requires 0 <= k < |s| && p(s[k])
    requires forall j :: 0 <= j < k ==> !p(s[j])
    ensures Find(s, p) == Some(s[k])
  {
    if k > 0 {
      assert !p(s[0]);
      assert s[1..][k - 1] == s[k];
      FindFirst(s[1..], p, k - 1);
    }
  }
}
