/**
 * Ordinal substring counting (StringExtensions.cs). Strings are `Utf16`
 * code-unit sequences (Text.dfy); a string that may be null is an
 * `Option<Utf16>`. The Ordinal comparison mode compares code unit by code
 * unit, which is sequence equality.
 */
module StringExtensions {
  import opened Errors
  import opened Text

  /** The comparison modes this model supports: only Ordinal. */
  datatype StringComparison = Ordinal

  /** value occurs in s starting at index p. */
  predicate OccursAt(s: Utf16, value: Utf16, p: int)
  {
    0 <= p && p + |value| <= |s| && s[p..p + |value|] == value
  }

  /**
   * String.IndexOf(value, startIndex, Ordinal): the first index at or after
   * start where value occurs, or -1. An empty value is found at start.
   */
  function IndexOfOrdinal(s: Utf16, value: Utf16, start: nat): (r: int)
    requires start <= |s|
    ensures r == -1 || start <= r <= |s| - |value|
    decreases |s| - start
  {
    if start + |value| > |s| then -1
    else if s[start..start + |value|] == value then start
    else IndexOfOrdinal(s, value, start + 1)
  }

  /** The search result is the leftmost occurrence at or after start, and -1 exactly when there is none. */
  lemma {:induction false} IndexOfOrdinalIsLeftmost(s: Utf16, value: Utf16, start: nat)
    requires start <= |s|
    ensures IndexOfOrdinal(s, value, start) == -1 <==> forall p :: start <= p ==> !OccursAt(s, value, p)
    ensures IndexOfOrdinal(s, value, start) != -1 ==> OccursAt(s, value, IndexOfOrdinal(s, value, start))
    ensures forall p :: start <= p < IndexOfOrdinal(s, value, start) ==> !OccursAt(s, value, p)
    decreases |s| - start
  {
    if start + |value| <= |s| {
      if s[start..start + |value|] == value {
        assert OccursAt(s, value, start);
      } else {
        assert !OccursAt(s, value, start);
        IndexOfOrdinalIsLeftmost(s, value, start + 1);
      }
    }
  }

  /**
   * The positions the counting loop finds from start on: the leftmost
   * occurrence, then the leftmost one after its end, and so on.
   */
  function MatchesFrom(s: Utf16, value: Utf16, start: nat): seq<nat>
    requires |value| > 0 && start <= |s|
    decreases |s| - start
  {
    var p := IndexOfOrdinal(s, value, start);
    if p == -1 then [] else [p] + MatchesFrom(s, value, p + |value|)
  }

  /**
   * Reference count of non-overlapping occurrences, read left to right:
   * an occurrence at i is counted and skipped whole, otherwise move on by one.
   */
  function GreedyCount(s: Utf16, value: Utf16, i: nat): nat
    requires |value| > 0 && i <= |s|
    decreases |s| - i
  {
    if i + |value| > |s| then 0
    else if OccursAt(s, value, i) then 1 + GreedyCount(s, value, i + |value|)
    else GreedyCount(s, value, i + 1)
  }

  /** Every found position is an exact occurrence of value. */
  lemma {:induction false} MatchesAreOccurrences(s: Utf16, value: Utf16, start: nat)
    requires |value| > 0 && start <= |s|
    ensures forall k :: 0 <= k < |MatchesFrom(s, value, start)| ==> OccursAt(s, value, MatchesFrom(s, value, start)[k])
    decreases |s| - start
  {
    var p := IndexOfOrdinal(s, value, start);
    if p != -1 {
      IndexOfOrdinalIsLeftmost(s, value, start);
      MatchesAreOccurrences(s, value, p + |value|);
      MatchesStep(s, value, start);
      var ms, rest := MatchesFrom(s, value, start), MatchesFrom(s, value, p + |value|);
      forall k | 0 <= k < |ms|
        ensures OccursAt(s, value, ms[k])
      {
        if k > 0 {
          assert ms[k] == rest[k - 1];
        }
      }
    }
  }

  /** Each found position starts at or after the end of the previous one: the matches do not overlap. */
  lemma {:induction false} MatchesAreDisjoint(s: Utf16, value: Utf16, start: nat)
    requires |value| > 0 && start <= |s|
    ensures forall k :: 0 <= k < |MatchesFrom(s, value, start)| ==> start <= MatchesFrom(s, value, start)[k]
    ensures forall k :: 0 <= k < |MatchesFrom(s, value, start)| - 1 ==>
      MatchesFrom(s, value, start)[k] + |value| <= MatchesFrom(s, value, start)[k + 1]
    decreases |s| - start
  {
    var p := IndexOfOrdinal(s, value, start);
    if p != -1 {
      MatchesAreDisjoint(s, value, p + |value|);
      MatchesStep(s, value, start);
    }
  }

  /** The found occurrences do not overlap, so together they fit in what is left of s. */
  lemma {:induction false} MatchesFit(s: Utf16, value: Utf16, start: nat)
    requires |value| > 0 && start <= |s|
    ensures |MatchesFrom(s, value, start)| * |value| <= |s| - start
    decreases |s| - start
  {
    var p := IndexOfOrdinal(s, value, start);
    if p != -1 {
      MatchesFit(s, value, p + |value|);
      MatchesStep(s, value, start);
      MulStep(|MatchesFrom(s, value, start)|, |MatchesFrom(s, value, p + |value|)|, |value|, |s| - (p + |value|));
    }
  }

  /** One step of the scan: a found position is followed by the matches after its end. */
  lemma MatchesStep(s: Utf16, value: Utf16, start: nat)
    requires |value| > 0 && start <= |s| && IndexOfOrdinal(s, value, start) != -1
    ensures MatchesFrom(s, value, start) == [IndexOfOrdinal(s, value, start)] + MatchesFrom(s, value, IndexOfOrdinal(s, value, start) + |value|)
  {
  }

  lemma MulStep(m: nat, k: nat, n: nat, room: int)
    requires m == k + 1 && k * n <= room
    ensures m * n <= room + n
  {
    assert m * n == k * n + n;
  }

  /** Nothing is found exactly when value occurs nowhere from start on. */
  lemma NoMatchesIffAbsent(s: Utf16, value: Utf16, start: nat)
    requires |value| > 0 && start <= |s|
    ensures MatchesFrom(s, value, start) == [] <==> forall p :: start <= p ==> !OccursAt(s, value, p)
  {
    IndexOfOrdinalIsLeftmost(s, value, start);
  }

  /** If value occurs nowhere in s[i..j), the reference count from i is the one from j. */
  lemma {:induction false} GreedySkipsAbsent(s: Utf16, value: Utf16, i: nat, j: nat)
    requires |value| > 0 && i <= j <= |s|
    requires forall p :: i <= p < j ==> !OccursAt(s, value, p)
    ensures GreedyCount(s, value, i) == GreedyCount(s, value, j)
    decreases j - i
  {
    if i < j {
      GreedySkipsAbsent(s, value, i + 1, j);
      if i + |value| > |s| {
        assert i + 1 + |value| > |s|;
        GreedyTail(s, value, i + 1);
        GreedyTail(s, value, j);
      }
    }
  }

  /** No room is left for an occurrence: the reference count is 0. */
  lemma GreedyTail(s: Utf16, value: Utf16, i: nat)
    requires |value| > 0 && i <= |s| && i + |value| > |s|
    ensures GreedyCount(s, value, i) == 0
  {
  }

  /** An occurrence at p is counted and skipped whole by the reference count. */
  lemma GreedyCountsOccurrence(s: Utf16, value: Utf16, p: nat)
    requires |value| > 0 && OccursAt(s, value, p)
    ensures GreedyCount(s, value, p) == 1 + GreedyCount(s, value, p + |value|)
  {
  }

  /** When the search from start finds nothing, the reference count from start is 0. */
  lemma GreedyWhenNotFound(s: Utf16, value: Utf16, start: nat)
    requires |value| > 0 && start <= |s| && IndexOfOrdinal(s, value, start) == -1
    ensures GreedyCount(s, value, start) == 0
  {
    IndexOfOrdinalIsLeftmost(s, value, start);
    GreedySkipsAbsent(s, value, start, |s|);
    GreedyTail(s, value, |s|);
  }

  /** When the search from start finds p, the reference count from start counts p and goes on after it. */
  lemma GreedyWhenFound(s: Utf16, value: Utf16, start: nat)
    requires |value| > 0 && start <= |s| && IndexOfOrdinal(s, value, start) != -1
    ensures GreedyCount(s, value, start)
      == 1 + GreedyCount(s, value, IndexOfOrdinal(s, value, start) + |value|)
  {
    var p := IndexOfOrdinal(s, value, start);
    IndexOfOrdinalIsLeftmost(s, value, start);
    GreedySkipsAbsent(s, value, start, p);
    GreedyCountsOccurrence(s, value, p);
  }

  /** The loop's leftmost-match scan counts what the reference count counts. */
  lemma {:induction false} MatchesAreGreedy(s: Utf16, value: Utf16, start: nat)
    requires |value| > 0 && start <= |s|
    ensures |MatchesFrom(s, value, start)| == GreedyCount(s, value, start)
    decreases |s| - start
  {
    var p := IndexOfOrdinal(s, value, start);
    if p == -1 {
      GreedyWhenNotFound(s, value, start);
      assert MatchesFrom(s, value, start) == [];
    } else {
      GreedyWhenFound(s, value, start);
      MatchesAreGreedy(s, value, p + |value|);
      MatchesStep(s, value, start);
    }
  }

  /**
   * Counts the occurrences of subString in source: find the leftmost one at
   * or after the search start, count it, resume just after its end. A null
   * source fails at the first search, a null subString is rejected by it.
   * An empty subString is never passed past a non-null source: the search
   * start would stay put and the loop would not end.
   */
  method CountOccurenceInSource(source: Option<Utf16>, subString: Option<Utf16>, mode: StringComparison)
    returns (r: Result<nat>)
    requires source.Some? && subString.Some? ==> |subString.value| > 0
    ensures source.None? ==> r == Err(NullReference)
    ensures source.Some? && subString.None? ==> r == Err(ArgumentNull("value"))
    ensures source.Some? && subString.Some? ==> r == Ok(|MatchesFrom(source.value, subString.value, 0)|)
  {
    if source.None? {
      return Err(NullReference);
    }
    if subString.None? {
      return Err(ArgumentNull("value"));
    }
    var s, sub := source.value, subString.value;
    var occurencesCount := 0;
    var indexPosition := 0;
    while true
      invariant 0 <= indexPosition <= |s|
      invariant occurencesCount + |MatchesFrom(s, sub, indexPosition)| == |MatchesFrom(s, sub, 0)|
      decreases |s| - indexPosition
    {
      indexPosition := IndexOfOrdinal(s, sub, indexPosition);
      if indexPosition == -1 {
        break;
      }
      occurencesCount := occurencesCount + 1;
      indexPosition := indexPosition + |sub|;
    }
    r := Ok(occurencesCount);
  }

  /** Ordinal count of the occurrences of subString in source. */
  method CountOccurencesOrdinal(source: Option<Utf16>, subString: Option<Utf16>) returns (r: Result<nat>)
    requires source.Some? && subString.Some? ==> |subString.value| > 0
    ensures source.None? ==> r == Err(NullReference)
    ensures source.Some? && subString.None? ==> r == Err(ArgumentNull("value"))
    ensures source.Some? && subString.Some? ==> r == Ok(GreedyCount(source.value, subString.value, 0))
  {
    r := CountOccurenceInSource(source, subString, Ordinal);
    if source.Some? && subString.Some? {
      MatchesAreGreedy(source.value, subString.value, 0);
    }
  }

  /** The count with a chosen comparison mode, Ordinal when none is given. */
  method CountOccurences(source: Option<Utf16>, subString: Option<Utf16>, mode: StringComparison := Ordinal)
    returns (r: Result<nat>)
    requires source.Some? && subString.Some? ==> |subString.value| > 0
    ensures source.None? ==> r == Err(NullReference)
    ensures source.Some? && subString.None? ==> r == Err(ArgumentNull("value"))
    ensures source.Some? && subString.Some? ==> r == Ok(GreedyCount(source.value, subString.value, 0))
  {
    r := CountOccurenceInSource(source, subString, mode);
    if source.Some? && subString.Some? {
      MatchesAreGreedy(source.value, subString.value, 0);
    }
  }

  /** What a count promises: 0 exactly when absent, and count * |subString| <= |source|. */
  lemma {:induction false} CountProperties(s: Utf16, value: Utf16)
    requires |value| > 0
    ensures GreedyCount(s, value, 0) == 0 <==> forall p :: !OccursAt(s, value, p)
    ensures GreedyCount(s, value, 0) * |value| <= |s|
  {
    MatchesAreGreedy(s, value, 0);
    MatchesFit(s, value, 0);
    NoMatchesIffAbsent(s, value, 0);
    assert forall p :: OccursAt(s, value, p) ==> 0 <= p;
  }

  /**
   * Occurrences are not counted twice where they overlap ("aa" in "aaa" and
   * "aaaa", "ab" in "abcab"); indices and counts are in code units, so the
   * low surrogate of U+1F600 is found at index 1 of that character and
   * counted on its own.
   */
  lemma CountExamples()
    ensures GreedyCount([0x61, 0x61, 0x61], [0x61, 0x61], 0) == 1
    ensures GreedyCount([0x61, 0x61, 0x61, 0x61], [0x61, 0x61], 0) == 2
    ensures GreedyCount([0x61, 0x62, 0x63, 0x61, 0x62], [0x61, 0x62], 0) == 2
    ensures IndexOfOrdinal([0xD83D, 0xDE00, 0xD83D, 0xDE00], [0xDE00], 0) == 1
    ensures GreedyCount([0xD83D, 0xDE00, 0xD83D, 0xDE00], [0xDE00], 0) == 2
  {
    var smiles: Utf16 := [0xD83D, 0xDE00, 0xD83D, 0xDE00];
    var low: Utf16 := [0xDE00];
    assert !OccursAt(smiles, low, 0) by { assert smiles[0..1][0] == 0xD83D; }
    assert OccursAt(smiles, low, 1) by { assert smiles[1..2] == low; }
    assert !OccursAt(smiles, low, 2) by { assert smiles[2..3][0] == 0xD83D; }
    assert OccursAt(smiles, low, 3) by { assert smiles[3..4] == low; }
    assert GreedyCount(smiles, low, 3) == 1 + GreedyCount(smiles, low, 4) == 1;
    assert GreedyCount(smiles, low, 1) == 1 + GreedyCount(smiles, low, 2) == 2;
  }
}
