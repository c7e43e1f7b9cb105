/**
 * Helpers over finite sequences (IEnumerableExtensions.cs): iteration with
 * position details, first-match search, chunking, comma-separated joining,
 * emptiness and character aggregation.
 *
 * A source that may be null is an `Option<seq<T>>`. An action callback
 * (ForEachDo, ForEachWithDetailsDo) is a pure function whose result stands
 * for its effect: the helper returns the sequence of those results
 * (`effects`), in the order the action ran. The predicates of IndexOf and
 * Exists are pure tests whose calls are not recorded.
 */
module EnumerableExtensions {
  import opened Errors
  import opened Text

  /** Position details of one element: its zero-based index and whether it is the first or the last. */
  datatype ItemInfo = ItemInfo(index: nat, isFirst: bool, isLast: bool)

  /** One element together with its position details. */
  datatype IterationEntry<T> = IterationEntry(index: nat, value: T, isFirst: bool, isLast: bool)
  {
    /** The text of an entry is the text of its value alone. */
    function ToString(show: T -> string): string
    {
      show(value)
    }

    function Info(): ItemInfo
    {
      ItemInfo(index, isFirst, isLast)
    }
  }

  // ---------------------------------------------------------------------------
  // Specification of position-aware iteration
  // ---------------------------------------------------------------------------

  /** The entry for the element at index i of s. */
  function EntryAt<T>(s: seq<T>, i: nat): IterationEntry<T>
    requires i < |s|
  {
    IterationEntry(i, s[i], i == 0, i == |s| - 1)
  }

  /** Every element of s with its position details, in source order. */
  function Details<T>(s: seq<T>): (r: seq<IterationEntry<T>>)
    ensures |r| == |s|
  {
    seq(|s|, i requires 0 <= i < |s| => EntryAt(s, i))
  }

  /** The results of calling action once per element, in source order, with the element's details. */
  function Invocations<T, E>(s: seq<T>, action: (T, ItemInfo) -> E): (r: seq<E>)
    ensures |r| == |s|
  {
    seq(|s|, i requires 0 <= i < |s| => action(s[i], EntryAt(s, i).Info()))
  }

  /** The values carried by a sequence of entries. */
  function Values<T>(es: seq<IterationEntry<T>>): (r: seq<T>)
    ensures |r| == |es|
  {
    seq(|es|, i requires 0 <= i < |es| => es[i].value)
  }

  function CountFirst<T>(es: seq<IterationEntry<T>>): nat
  {
    if es == [] then 0 else (if es[0].isFirst then 1 else 0) + CountFirst(es[1..])
  }

  function CountLast<T>(es: seq<IterationEntry<T>>): nat
  {
    if es == [] then 0 else (if es[0].isLast then 1 else 0) + CountLast(es[1..])
  }

  lemma {:induction false} CountFirstNone<T>(es: seq<IterationEntry<T>>)
    requires forall i :: 0 <= i < |es| ==> !es[i].isFirst
    ensures CountFirst(es) == 0
  {
    if es != [] {
      CountFirstNone(es[1..]);
    }
  }

  lemma {:induction false} CountLastOnlyAtEnd<T>(es: seq<IterationEntry<T>>)
    requires es != []
    requires forall i :: 0 <= i < |es| ==> (es[i].isLast <==> i == |es| - 1)
    ensures CountLast(es) == 1
  {
    if |es| > 1 {
      CountLastOnlyAtEnd(es[1..]);
    }
  }

  /** Indices run 0, 1, ..., n-1; only index 0 is first and only index n-1 is last. */
  lemma DetailsPositions<T>(s: seq<T>, i: int)
    requires 0 <= i < |s|
    ensures Details(s)[i].index == i && Details(s)[i].value == s[i]
    ensures Details(s)[i].isFirst <==> i == 0
    ensures Details(s)[i].isLast <==> i == |s| - 1
  {
  }

  /** A non-empty source has exactly one first entry and exactly one last entry. */
  lemma ExactlyOneFirstAndLast<T>(s: seq<T>)
    requires s != []
    ensures CountFirst(Details(s)) == 1 && Details(s)[0].isFirst
    ensures CountLast(Details(s)) == 1 && Details(s)[|s| - 1].isLast
  {
    var es := Details(s);
    CountFirstNone(es[1..]);
    CountLastOnlyAtEnd(es);
  }

  /** A one-element source yields one entry that is both first and last. */
  lemma SingleElementIsFirstAndLast<T>(x: T)
    ensures Details([x]) == [IterationEntry(0, x, true, true)]
  {
  }

  /** Projecting the values of the entries gives back the source. */
  lemma ValuesOfDetails<T>(s: seq<T>)
    ensures Values(Details(s)) == s
  {
  }

  /** The text of entry i is the text of source element i. */
  lemma DetailsToString<T>(s: seq<T>, show: T -> string, i: int)
    requires 0 <= i < |s|
    ensures Details(s)[i].ToString(show) == show(s[i])
  {
  }

  /** An empty source yields no entries and no callback runs. */
  lemma EmptySourceYieldsNothing<T, E>(action: (T, ItemInfo) -> E)
    ensures Details<T>([]) == [] && Invocations<T, E>([], action) == []
  {
  }

  lemma WithDetailsExample()
    ensures Details(["a", "b", "c"]) ==
      [IterationEntry(0, "a", true, false), IterationEntry(1, "b", false, false), IterationEntry(2, "c", false, true)]
  {
  }

  // ---------------------------------------------------------------------------
  // The forward cursor the iteration helpers use
  // ---------------------------------------------------------------------------

  /**
   * A forward cursor over a finite source (IEnumerator<T>). It sits before
   * the first element until the first MoveNext, and past the last element
   * once MoveNext has reported false.
   */
  class Enumerator<T> {
    const items: seq<T>
    var position: int

    ghost predicate Valid()
      reads this
    {
      -1 <= position <= |items|
    }

    constructor (source: seq<T>)
      ensures Valid() && items == source && position == -1
    {
      items := source;
      position := -1;
    }

    /** Advances to the next element; false once the source is exhausted. */
    method MoveNext() returns (hasValue: bool)
      requires Valid()
      modifies this
      ensures Valid()
      ensures position == if old(position) < |items| then old(position) + 1 else old(position)
      ensures hasValue <==> position < |items|
    {
      if position < |items| {
        position := position + 1;
      }
      hasValue := position < |items|;
    }

    /** The element the cursor sits on. */
    function Current(): (x: T)
      reads this
      requires Valid() && 0 <= position < |items|
      ensures x == items[position]
    {
      items[position]
    }
  }

  // ---------------------------------------------------------------------------
  // Position-aware iteration
  // ---------------------------------------------------------------------------

  /**
   * Runs action on every element with its position details, reading one
   * element ahead so that the last element is known when it is visited.
   * A null source throws before any element is read; a null action is no
   * error: the traversal runs and nothing is invoked. Returns the source.
   */
  method ForEachWithDetailsDo<T, E>(elements: Option<seq<T>>, action: Option<(T, ItemInfo) -> E>)
    returns (r: Result<seq<T>>, effects: seq<E>)
    ensures elements.None? ==> r == Err(ArgumentNull("elements")) && effects == []
    ensures elements.Some? ==> r == Ok(elements.value)
    ensures elements.Some? && action.Some? ==> effects == Invocations(elements.value, action.value)
    ensures action.None? ==> effects == []
  {
    if elements.None? {
      return Err(ArgumentNull("elements")), [];
    }
    var source := elements.value;
    var enumerator := new Enumerator(source);
    var isFirst := true;
    var hasNext := enumerator.MoveNext();
    var index := -1;
    effects := [];
    while hasNext
      invariant enumerator.Valid() && enumerator.items == source
      invariant -1 <= index < |source| && enumerator.position == index + 1
      invariant hasNext <==> index + 1 < |source|
      invariant isFirst <==> index == -1
      invariant action.Some? ==> effects == Invocations(source, action.value)[..index + 1]
      invariant action.None? ==> effects == []
      decreases |source| - index
    {
      var current := enumerator.Current();
      hasNext := enumerator.MoveNext();
      index := index + 1;
      var itemInfo := ItemInfo(index, isFirst, !hasNext);
      if action.Some? {
        assert itemInfo == EntryAt(source, index).Info();
        assert Invocations(source, action.value)[..index + 1]
            == Invocations(source, action.value)[..index] + [Invocations(source, action.value)[index]];
        effects := effects + [action.value(current, itemInfo)];
      }
      isFirst := false;
    }
    assert action.Some? ==> Invocations(source, action.value)[..|source|] == Invocations(source, action.value);
    r := Ok(source);
  }

  /**
   * The source's elements wrapped with their position details, by the same
   * one-element-lookahead traversal. A null source throws.
   */
  method WithDetails<T>(source: Option<seq<T>>) returns (r: Result<seq<IterationEntry<T>>>)
    ensures source.None? ==> r == Err(ArgumentNull("source"))
    ensures source.Some? ==> r == Ok(Details(source.value))
  {
    if source.None? {
      return Err(ArgumentNull("source"));
    }
    var s := source.value;
    var enumerator := new Enumerator(s);
    var isFirst := true;
    var hasNext := enumerator.MoveNext();
    var index := -1;
    var entries := [];
    while hasNext
      invariant enumerator.Valid() && enumerator.items == s
      invariant -1 <= index < |s| && enumerator.position == index + 1
      invariant hasNext <==> index + 1 < |s|
      invariant isFirst <==> index == -1
      invariant entries == Details(s)[..index + 1]
      decreases |s| - index
    {
      var current := enumerator.Current();
      hasNext := enumerator.MoveNext();
      index := index + 1;
      assert Details(s)[..index + 1] == Details(s)[..index] + [EntryAt(s, index)];
      entries := entries + [IterationEntry(index, current, isFirst, !hasNext)];
      isFirst := false;
    }
    assert Details(s)[..|s|] == Details(s);
    r := Ok(entries);
  }

  /** Runs action on every element in order; a null action throws before anything else. Returns the source. */
  method ForEachDo<T, E>(elements: Option<seq<T>>, action: Option<T -> E>) returns (r: Result<seq<T>>, effects: seq<E>)
    ensures action.None? ==> r == Err(ArgumentNull("action")) && effects == []
    ensures action.Some? && elements.None? ==> r == Err(NullReference) && effects == []
    ensures action.Some? && elements.Some? ==>
      && r == Ok(elements.value)
      && |effects| == |elements.value|
      && forall i :: 0 <= i < |effects| ==> effects[i] == action.value(elements.value[i])
  {
    if action.None? {
      return Err(ArgumentNull("action")), [];
    }
    if elements.None? {
      return Err(NullReference), [];
    }
    var s, f := elements.value, action.value;
    effects := [];
    var i := 0;
    while i < |s|
      invariant 0 <= i <= |s| && |effects| == i
      invariant forall j :: 0 <= j < i ==> effects[j] == f(s[j])
    {
      effects := effects + [f(s[i])];
      i := i + 1;
    }
    r := Ok(s);
  }

  // ---------------------------------------------------------------------------
  // First-match search
  // ---------------------------------------------------------------------------

  /** Index of the first element satisfying p, or -1 when none does. */
  function FirstMatch<T>(s: seq<T>, p: T -> bool): (r: int)
    ensures -1 <= r < |s|
    ensures r == -1 <==> forall i :: 0 <= i < |s| ==> !p(s[i])
    ensures r != -1 ==> p(s[r]) && forall i :: 0 <= i < r ==> !p(s[i])
  {
    if s == [] then -1
    else if p(s[0]) then 0
    else
      var k := FirstMatch(s[1..], p);
      if k == -1 then -1 else k + 1
  }

  /** Index of the first item satisfying condition, or -1; null arguments throw. */
  method IndexOf<T>(items: Option<seq<T>>, condition: Option<T -> bool>) returns (r: Result<int>)
    ensures items.None? ==> r == Err(ArgumentNull("items"))
    ensures items.Some? && condition.None? ==> r == Err(ArgumentNull("predicate"))
    ensures items.Some? && condition.Some? ==> r == Ok(FirstMatch(items.value, condition.value))
  {
    if items.None? {
      return Err(ArgumentNull("items"));
    }
    if condition.None? {
      return Err(ArgumentNull("predicate"));
    }
    var s, p := items.value, condition.value;
    var retVal := 0;
    while retVal < |s|
      invariant 0 <= retVal <= |s|
      invariant forall i :: 0 <= i < retVal ==> !p(s[i])
    {
      if p(s[retVal]) {
        return Ok(retVal);
      }
      retVal := retVal + 1;
    }
    return Ok(-1);
  }

  /** Index of the first occurrence of item, or -1: the predicate search with equality to item. */
  method IndexOfItem<T(==)>(items: Option<seq<T>>, item: T) returns (r: Result<int>)
    ensures items.None? ==> r == Err(ArgumentNull("items"))
    ensures items.Some? ==> r.Ok? && -1 <= r.value < |items.value|
    ensures items.Some? ==> (r.value == -1 <==> item !in items.value)
    ensures items.Some? && r.value != -1 ==> items.value[r.value] == item && item !in items.value[..r.value]
  {
    r := IndexOf(items, Some(x => item == x));
  }

  /**
   * Whether some element satisfies condition (Enumerable.Any): exactly when the
   * first-match search finds one. Null arguments throw.
   */
  function Exists<T>(source: Option<seq<T>>, condition: Option<T -> bool>): (r: Result<bool>)
    ensures source.None? ==> r == Err(ArgumentNull("source"))
    ensures source.Some? && condition.None? ==> r == Err(ArgumentNull("predicate"))
    ensures source.Some? && condition.Some? ==> r == Ok(FirstMatch(source.value, condition.value) != -1)
  {
    if source.None? then Err(ArgumentNull("source"))
    else if condition.None? then Err(ArgumentNull("predicate"))
    else Ok(exists i :: 0 <= i < |source.value| && condition.value(source.value[i]))
  }

  // ---------------------------------------------------------------------------
  // Chunking
  // ---------------------------------------------------------------------------

  function Abs(x: int): nat
  {
    if x < 0 then -x else x
  }

  /** C#'s integer division, which truncates toward zero. */
  function TruncDiv(a: int, b: int): int
    requires b != 0
  {
    var q := Abs(a) / Abs(b);
    if (a < 0) == (b < 0) then q else -q
  }

  function Flatten<T>(ss: seq<seq<T>>): seq<T>
  {
    if ss == [] then [] else ss[0] + Flatten(ss[1..])
  }

  /** Consecutive pieces of n elements; the last piece holds what remains. */
  function Chunks<T>(s: seq<T>, n: nat): seq<seq<T>>
    requires n > 0
    decreases |s|
  {
    if s == [] then []
    else if |s| <= n then [s]
    else [s[..n]] + Chunks(s[n..], n)
  }

  lemma {:induction false} ChunksFlatten<T>(s: seq<T>, n: nat)
    requires n > 0
    ensures Flatten(Chunks(s, n)) == s
    decreases |s|
  {
    if |s| > n {
      ChunksFlatten(s[n..], n);
      assert s == s[..n] + s[n..];
    }
  }

  lemma {:induction false} ChunksShape<T>(s: seq<T>, n: nat)
    requires n > 0
    ensures forall i :: 0 <= i < |Chunks(s, n)| ==> 0 < |Chunks(s, n)[i]| <= n
    ensures forall i :: 0 <= i < |Chunks(s, n)| - 1 ==> |Chunks(s, n)[i]| == n
    decreases |s|
  {
    if |s| > n {
      ChunksShape(s[n..], n);
      assert Chunks(s, n)[1..] == Chunks(s[n..], n);
    }
  }

  /** Element q * n + r of s is element r of chunk q. */
  lemma {:induction false} ChunkAt<T>(s: seq<T>, n: nat, q: nat, r: nat)
    requires n > 0 && r < n && q * n + r < |s|
    ensures q < |Chunks(s, n)| && r < |Chunks(s, n)[q]| && Chunks(s, n)[q][r] == s[q * n + r]
    decreases q
  {
    if q > 0 {
      assert q * n >= n by { assert q * n == (q - 1) * n + n; }
      ChunkAt(s[n..], n, q - 1, r);
      assert (q - 1) * n + r + n == q * n + r;
    }
  }

  /**
   * The GroupBy key of element i, TruncDiv(i, chunkSize), sends it to chunk
   * |key|: elements share a key exactly when they share a chunk, and keys are
   * met in chunk order, so for a negative chunkSize the chunks are those of
   * -chunkSize.
   */
  lemma GroupKeyIsChunk<T>(s: seq<T>, chunkSize: int, i: nat, j: nat)
    requires chunkSize != 0 && i < |s| && j < |s|
    ensures Abs(TruncDiv(i, chunkSize)) < |Chunks(s, Abs(chunkSize))|
    ensures i % Abs(chunkSize) < |Chunks(s, Abs(chunkSize))[Abs(TruncDiv(i, chunkSize))]|
    ensures Chunks(s, Abs(chunkSize))[Abs(TruncDiv(i, chunkSize))][i % Abs(chunkSize)] == s[i]
    ensures TruncDiv(i, chunkSize) == TruncDiv(j, chunkSize) <==> i / Abs(chunkSize) == j / Abs(chunkSize)
  {
    var n := Abs(chunkSize);
    assert (i / n) * n + i % n == i;
    ChunkAt(s, n, i / n, i % n);
  }

  /**
   * The source split into chunks of chunkSize elements, in order. A null
   * source throws; chunkSize 0 throws on division as soon as there is an
   * element to key.
   */
  function ChunkBy<T>(source: Option<seq<T>>, chunkSize: int): (r: Result<seq<seq<T>>>)
    ensures source.None? ==> r == Err(ArgumentNull("source"))
    ensures source.Some? && source.value != [] && chunkSize == 0 ==> r == Err(DivideByZero)
    ensures source.Some? && (source.value == [] || chunkSize != 0) ==> r.Ok?
    ensures r.Ok? ==>
      && Flatten(r.value) == source.value
      && (forall i :: 0 <= i < |r.value| ==> 0 < |r.value[i]| <= Abs(chunkSize))
      && (forall i :: 0 <= i < |r.value| - 1 ==> |r.value[i]| == Abs(chunkSize))
  {
    if source.None? then Err(ArgumentNull("source"))
    else if source.value == [] then Ok([])
    else if chunkSize == 0 then Err(DivideByZero)
    else
      var s, n := source.value, Abs(chunkSize);
      ChunksFlatten(s, n);
      ChunksShape(s, n);
      Ok(Chunks(s, n))
  }

  // ---------------------------------------------------------------------------
  // Joining and aggregation
  // ---------------------------------------------------------------------------

  /** The aggregation step `accumulator + ", " + item`, folded from the left. */
  function Accumulate(accumulator: string, items: seq<string>): string
    decreases |items|
  {
    if items == [] then accumulator
    else Accumulate(accumulator + ", " + items[0], items[1..])
  }

  /** The items with ", " between neighbours. */
  function Join(items: seq<string>): string
    requires items != []
  {
    if |items| == 1 then items[0] else items[0] + ", " + Join(items[1..])
  }

  lemma {:induction false} AccumulateIsJoin(accumulator: string, items: seq<string>)
    requires items != []
    ensures Accumulate(accumulator, items) == accumulator + ", " + Join(items)
    decreases |items|
  {
    if |items| > 1 {
      AccumulateIsJoin(accumulator + ", " + items[0], items[1..]);
    }
  }

  /** "" for a null or empty source; otherwise the items joined by ", ", no separator in front. */
  function ToCommaSeparatedString(source: Option<seq<string>>): (r: string)
    ensures source.None? || source.value == [] ==> r == ""
    ensures source.Some? && source.value != [] ==> r == Join(source.value)
  {
    if source.None? || source.value == [] then ""
    else
      var accumulator := Accumulate("", source.value);
      AccumulateIsJoin("", source.value);
      accumulator[2..]
  }

  /** As ToCommaSeparatedString, with a "." after the last item. */
  function ToCommaSeparatedStringWithEndingDot(source: Option<seq<string>>): (r: string)
    ensures source.None? || source.value == [] ==> r == ""
    ensures source.Some? && source.value != [] ==> r == Join(source.value) + "."
  {
    if source.None? || source.value == [] then ""
    else
      var accumulator := Accumulate("", source.value);
      AccumulateIsJoin("", source.value);
      accumulator[2..] + "."
  }

  lemma CommaSeparatedExample()
    ensures ToCommaSeparatedString(Some(["x", "y", "z"])) == "x, y, z"
    ensures ToCommaSeparatedStringWithEndingDot(Some(["x", "y", "z"])) == "x, y, z."
  {
  }

  /** Whether the source has no elements; a null source throws. */
  function IsEmpty<T>(source: Option<seq<T>>): (r: Result<bool>)
    ensures source.None? ==> r == Err(ArgumentNull("source"))
    ensures source.Some? ==> r == Ok(|source.value| == 0)
  {
    if source.None? then Err(ArgumentNull("source")) else Ok(|source.value| == 0)
  }

  /** The string builder's append step, folded from the left over .NET chars (UTF-16 code units). */
  function AppendAll(builder: Utf16, chars: seq<CodeUnit>): Utf16
    decreases |chars|
  {
    if chars == [] then builder else AppendAll(builder + [chars[0]], chars[1..])
  }

  lemma {:induction false} AppendAllAppends(builder: Utf16, chars: seq<CodeUnit>)
    ensures AppendAll(builder, chars) == builder + chars
    decreases |chars|
  {
    if chars != [] {
      AppendAllAppends(builder + [chars[0]], chars[1..]);
      assert chars == [chars[0]] + chars[1..];
    }
  }

  /**
   * The chars of the source as one string; a null source throws. The chars
   * are code units, so a reversed surrogate pair comes through unchanged.
   */
  function AggregateToString(source: Option<seq<CodeUnit>>): (r: Result<Utf16>)
    ensures source.None? ==> r == Err(ArgumentNull("source"))
    ensures source.Some? ==> r == Ok(source.value)
  {
    if source.None? then Err(ArgumentNull("source"))
    else
      AppendAllAppends([], source.value);
      assert [] + source.value == source.value;
      Ok(AppendAll([], source.value))
  }
}
