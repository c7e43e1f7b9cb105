# NHelpers collection and string helpers in Dafny

This project models four groups of extension helpers of the EasySharp NHelpers
library and proves what they promise:

- **Position-aware iteration** (`IEnumerableExtensions.cs`):
  `ForEachWithDetailsDo` and `WithDetails` make one forward pass with one
  element of lookahead. They give each element its index, a first flag and a
  last flag (`ItemInfo`, `IterationEntry`). The same file also holds
  `IndexOf`, `Exists`, `ChunkBy`, `ToCommaSeparatedString[WithEndingDot]`,
  `IsEmpty`, `ForEachDo` and `AggregateToString`.
- **Ordinal substring counting** (`StringExtensions.cs`): a left-to-right scan
  that finds the leftmost occurrence, counts it and resumes after its end.
- **Get-or-add on a dictionary** (`DictionaryExtensions.cs`):
  `MapCollectionToKey`.
- **Array defaulting and cloning** (`ArrayExtensions.cs`): `SelfSetToDefaults`,
  `SetToDefaults` and `CloneArray`.

Conventions used throughout:

- A .NET reference that may be null is an `Option` (`None` is null).
- An operation that may throw returns a `Result` whose `Err` names the
  exception (`Errors.dfy`).
- An action callback (`ForEachDo`, `ForEachWithDetailsDo`) is a pure
  function. The value it returns stands for its effect, and the helper
  returns those values in call order (`effects`). The dictionary's value
  factory is recorded the same way (`calls`). The predicates of `IndexOf` and
  `Exists` are pure tests whose calls are not recorded; which elements they
  were asked about is not modelled.
- The two lookahead loops (`ForEachWithDetailsDo` and `WithDetails`) run over
  an `Enumerator` class with `MoveNext` and `Current`. This keeps their state
  machine (`isFirst`, `hasNext`, `index`) as in the source. The plain
  `foreach` loops (`ForEachDo`, `IndexOf`) are index loops over the sequence.
- The .NET strings and `char`s of `StringExtensions` and of
  `AggregateToString` are UTF-16 code units (`Text.CodeUnit`, `Text.Utf16`):
  indices and lengths count code units, and lone surrogates are representable.
  The join helpers' texts are Dafny strings (see "## Left out").
- The dictionary is a class whose `map` field is updated in place. Each run
  of the value factory is recorded (`calls`), so the contracts say when it
  runs.
- Arrays are Dafny arrays. `default(T)` has no Dafny counterpart, so it is
  passed in as `zero`.

## Model

| member | source | states |
|---|---|---|
| EnumerableExtensions.Enumerator.constructor | NHelpers/Collections/Extensions/IEnumerableExtensions.cs:260 | a new cursor over the source sits before its first element |
| EnumerableExtensions.Enumerator.MoveNext | NHelpers/Collections/Extensions/IEnumerableExtensions.cs:263-268 | advances by one while elements remain and reports whether it now sits on an element; once past the end it stays there and keeps reporting false |
| EnumerableExtensions.Enumerator.Current | NHelpers/Collections/Extensions/IEnumerableExtensions.cs:267 | the element the cursor sits on, defined only while it sits on one |
| EnumerableExtensions.ForEachWithDetailsDo | NHelpers/Collections/Extensions/IEnumerableExtensions.cs:256-276 | null source throws ArgumentNull("elements") with no callback run; otherwise returns the source and the callback runs once per element in order with `(s[i], ItemInfo(i, i == 0, i == n-1))`; a null action runs nothing and is no error |
| EnumerableExtensions.WithDetails | NHelpers/Collections/Extensions/IEnumerableExtensions.cs:288-306 | null source throws ArgumentNull("source"); otherwise yields exactly the entries `(i, s[i], i == 0, i == n-1)` for i = 0..n-1 |
| EnumerableExtensions.DetailsPositions | NHelpers/Collections/Extensions/IEnumerableExtensions.cs:295-303 | entry i carries index i and element i; it is first iff i = 0 and last iff i = n-1 |
| EnumerableExtensions.ExactlyOneFirstAndLast | NHelpers/Collections/Extensions/IEnumerableExtensions.cs:262-271 | a non-empty source has exactly one first entry (index 0) and exactly one last entry (index n-1) |
| EnumerableExtensions.SingleElementIsFirstAndLast | NHelpers/Collections/Extensions/IEnumerableExtensions.cs:295-302 | a one-element source gives one entry that is both first and last |
| EnumerableExtensions.EmptySourceYieldsNothing | NHelpers/Collections/Extensions/IEnumerableExtensions.cs:263-265 | an empty source gives no entries and no callback runs |
| EnumerableExtensions.ValuesOfDetails | NHelpers/Collections/Extensions/IEnumerableExtensions.cs:346-359 | projecting Value from the entries gives back the source |
| EnumerableExtensions.DetailsToString | NHelpers/Collections/Extensions/IEnumerableExtensions.cs:361 | the text of entry i is the text of element i alone |
| EnumerableExtensions.WithDetailsExample | NHelpers/Collections/Extensions/IEnumerableExtensions.cs:288-306 | ["a","b","c"] gives (0,"a",first), (1,"b"), (2,"c",last) |
| EnumerableExtensions.ForEachDo | NHelpers/Collections/Extensions/IEnumerableExtensions.cs:127-136 | a null action throws ArgumentNull("action") first; a null source then throws NullReference; otherwise the action runs once per element in order and the source is returned |
| EnumerableExtensions.FirstMatch | NHelpers/Collections/Extensions/IEnumerableExtensions.cs:43-56 | -1 exactly when no element satisfies the predicate, otherwise the smallest index whose element does |
| EnumerableExtensions.IndexOf | NHelpers/Collections/Extensions/IEnumerableExtensions.cs:43-56 | null items throws ArgumentNull("items"), then a null predicate throws ArgumentNull("predicate"); otherwise the loop returns the first-match index |
| EnumerableExtensions.IndexOfItem | NHelpers/Collections/Extensions/IEnumerableExtensions.cs:63-66 | null items throws; otherwise -1 exactly when the item is absent, else the index of its first occurrence |
| EnumerableExtensions.Exists | NHelpers/Collections/Extensions/IEnumerableExtensions.cs:84-87 | null arguments throw; otherwise true exactly when the first-match search finds an element |
| EnumerableExtensions.ChunkBy | NHelpers/Collections/Extensions/IEnumerableExtensions.cs:20-27 | null source throws; chunk size 0 with a non-empty source throws DivideByZero; otherwise the chunks concatenate to the source, each is non-empty and holds at most abs(chunkSize) elements, and all but the last hold exactly abs(chunkSize) |
| EnumerableExtensions.ChunksFlatten | NHelpers/Collections/Extensions/IEnumerableExtensions.cs:23-26 | concatenating the chunks gives back the source |
| EnumerableExtensions.ChunksShape | NHelpers/Collections/Extensions/IEnumerableExtensions.cs:23-26 | every chunk is non-empty and holds at most n elements; every chunk but the last holds exactly n |
| EnumerableExtensions.ChunkAt | NHelpers/Collections/Extensions/IEnumerableExtensions.cs:24-26 | element q*n + r of the source is element r of chunk q |
| EnumerableExtensions.GroupKeyIsChunk | NHelpers/Collections/Extensions/IEnumerableExtensions.cs:24-25 | the truncating GroupBy key i / chunkSize puts element i in chunk abs(key), and two elements share a key exactly when they share a chunk, also for a negative chunk size |
| EnumerableExtensions.AccumulateIsJoin | NHelpers/Collections/Extensions/IEnumerableExtensions.cs:152-154 | the left fold of `acc + ", " + item` over a non-empty list is acc, then ", ", then the items joined by ", " |
| EnumerableExtensions.ToCommaSeparatedString | NHelpers/Collections/Extensions/IEnumerableExtensions.cs:148-156 | "" for a null or empty source; otherwise the items joined by ", " with no leading separator |
| EnumerableExtensions.ToCommaSeparatedStringWithEndingDot | NHelpers/Collections/Extensions/IEnumerableExtensions.cs:183-191 | "" for a null or empty source; otherwise the joined items followed by "." |
| EnumerableExtensions.CommaSeparatedExample | NHelpers/Collections/Extensions/IEnumerableExtensions.cs:148-191 | ["x","y","z"] gives "x, y, z" and "x, y, z." |
| EnumerableExtensions.IsEmpty | NHelpers/Collections/Extensions/IEnumerableExtensions.cs:96-99 | null source throws; otherwise true exactly when the source has no elements |
| EnumerableExtensions.AppendAllAppends | NHelpers/Collections/Extensions/IEnumerableExtensions.cs:235 | folding the builder's append over the characters gives the builder followed by the characters |
| EnumerableExtensions.AggregateToString | NHelpers/Collections/Extensions/IEnumerableExtensions.cs:233-236 | null source throws; otherwise the result is exactly the source's chars, code unit for code unit (a reversed surrogate pair included) |
| StringExtensions.IndexOfOrdinal | NHelpers/Common/Extensions/StringExtensions.cs:196 | the search result is -1 or a code-unit index at or after the search start that leaves room for the whole key |
| StringExtensions.IndexOfOrdinalIsLeftmost | NHelpers/Common/Extensions/StringExtensions.cs:196 | -1 exactly when the key occurs nowhere at or after the start; otherwise an exact occurrence with none before it |
| StringExtensions.CountOccurenceInSource | NHelpers/Common/Extensions/StringExtensions.cs:190-206 | null source throws NullReference and a null key throws ArgumentNull("value"); otherwise the loop's count is the number of positions of the leftmost-match scan |
| StringExtensions.MatchesAreOccurrences | NHelpers/Common/Extensions/StringExtensions.cs:194-202 | every counted position is an exact ordinal occurrence of the key |
| StringExtensions.MatchesAreDisjoint | NHelpers/Common/Extensions/StringExtensions.cs:194-202 | counted positions lie at or after the search start and each starts at or after the end of the previous one |
| StringExtensions.MatchesFit | NHelpers/Common/Extensions/StringExtensions.cs:194-202 | count * len(subString) <= len(source) |
| StringExtensions.NoMatchesIffAbsent | NHelpers/Common/Extensions/StringExtensions.cs:196-199 | the scan finds nothing exactly when the key occurs nowhere |
| StringExtensions.MatchesAreGreedy | NHelpers/Common/Extensions/StringExtensions.cs:194-202 | the scan's count equals a reference count of greedy non-overlapping matches read left to right |
| StringExtensions.CountProperties | NHelpers/Common/Extensions/StringExtensions.cs:194-202 | the count is 0 exactly when the key is absent, and count * len(subString) <= len(source) |
| StringExtensions.CountExamples | NHelpers/Common/Extensions/StringExtensions.cs:194-202 | "aa" is counted once in "aaa" and twice in "aaaa"; "ab" twice in "abcab"; in two U+1F600 characters the lone low surrogate is found at code-unit index 1 and counted twice |
| StringExtensions.CountOccurencesOrdinal | NHelpers/Common/Extensions/StringExtensions.cs:56-59 | the Ordinal count equals the greedy non-overlapping count, with the same null errors |
| StringExtensions.CountOccurences | NHelpers/Common/Extensions/StringExtensions.cs:82-86 | with the default mode (Ordinal) it agrees with the Ordinal count |
| DictionaryExtensions.GetOrAdd | NHelpers/Collections/Extensions/DictionaryExtensions.cs:41-57 | on success the key is mapped to the returned value; on error the map is unchanged; at most the key is added; every other key keeps its value; the factory runs exactly once when it is non-null and the key is absent, and never otherwise |
| DictionaryExtensions.GetOrAddNullFactory | NHelpers/Collections/Extensions/DictionaryExtensions.cs:47-48 | a null factory throws ArgumentNull("mappingFunc") and changes nothing, even when the key is present |
| DictionaryExtensions.GetOrAddPresentKey | NHelpers/Collections/Extensions/DictionaryExtensions.cs:50-57 | a present key returns its value, changes nothing and does not run the factory |
| DictionaryExtensions.GetOrAddNullValue | NHelpers/Collections/Extensions/DictionaryExtensions.cs:52-55 | a null factory value (the factory ran once) throws InvalidOperation("mappingFunc body is null") and changes nothing |
| DictionaryExtensions.GetOrAddAddsOneKey | NHelpers/Collections/Extensions/DictionaryExtensions.cs:50-57 | an absent key with a non-null factory value is added with exactly that value, which is returned; the factory ran once; no other key is added |
| DictionaryExtensions.GetOrAddIdempotent | NHelpers/Collections/Extensions/DictionaryExtensions.cs:50-57 | a second call with the same key returns the same value, changes nothing and does not run its factory |
| DictionaryExtensions.Dictionary.MapCollectionToKey | NHelpers/Collections/Extensions/DictionaryExtensions.cs:41-57 | the returned value, the new map and the factory runs are those of GetOrAdd on the old map: the value is created and added only when the key is absent |
| DictionaryExtensions.Dictionary.ContainsKey | NHelpers/Collections/Extensions/DictionaryExtensions.cs:50 | whether the key is in the map |
| DictionaryExtensions.Dictionary.Add | NHelpers/Collections/Extensions/DictionaryExtensions.cs:54 | adding an absent key extends the map by that key alone |
| ArrayExtensions.Clear | NHelpers/Collections/Extensions/ArrayExtensions.cs:25-28 | the range is reset to the default value and every other element is unchanged |
| ArrayExtensions.Copy | NHelpers/Collections/Extensions/ArrayExtensions.cs:58 | the first length elements of the destination equal the source's and the rest are unchanged |
| ArrayExtensions.SelfSetToDefaults | NHelpers/Collections/Extensions/ArrayExtensions.cs:14-30 | null throws NullReference; otherwise every element of the same array is the default value, on both the loop path (length <= 76) and the Array.Clear path |
| ArrayExtensions.SetToDefaults | NHelpers/Collections/Extensions/ArrayExtensions.cs:39-47 | null throws; otherwise a fresh array of the source's length with every element default, the source untouched |
| ArrayExtensions.CloneArray | NHelpers/Collections/Extensions/ArrayExtensions.cs:55-60 | null throws; otherwise a fresh array element-wise equal to the source, the source untouched |

## Left out

- Laziness, deferred execution, infinite sources and enumerator disposal
  (`using`) are not modelled. Sources are finite sequences, and `WithDetails`
  and `ChunkBy` return their whole result at once.
- WithDetails: the source is an iterator block, so its null check actually
  runs when enumeration starts. The eager model reports the error at the call.
- ChunkBy: the DivideByZero for chunk size 0 is likewise raised in the source
  only when the groups are enumerated. The model reports it at the call.
- Exceptions thrown by a callback or by the consumer are not modelled.
  Callbacks are pure functions whose results are recorded.
- ForEachWithDetailsDo: the `int` index is not wrapped at 2^31. Sources that
  long are out of scope. The same holds for `IndexOf`'s counter.
- CountOccurenceInSource: requires a non-empty key when the source is not
  null. With an empty key the search start never advances and the source's
  loop does not end.
- The OrdinalIgnoreCase, InvariantCulture and InvariantCultureIgnoreCase
  counters and `ContainsIgnoreCase` are not modelled. They depend on .NET
  culture and case-folding tables; `StringComparison` has only `Ordinal`.
- Base64, ASCII and UTF-8 conversions are not modelled. They are thin
  wrappers over `System.Convert` and `System.Text.Encoding`, whose code is not
  part of this model.
- `Print` is console output and marked obsolete, so it is not modelled.
- ToCommaSeparatedString: the join helpers' texts are Dafny strings, whose
  `char` is a Unicode scalar value, so item texts holding lone surrogates are
  not modelled. The separator and the joining do not depend on the encoding.
- The join helpers take `seq<string>`. The `ToString` of an arbitrary item,
  null items and the `params` array overloads are not modelled; the overloads
  only delegate.
- The non-generic `IsEmpty(IEnumerable)` overload is not modelled. It
  duplicates the generic one.
- MapCollectionToKey: a null dictionary, a null key and a factory result that
  is not a `TValue` (the cast) are not modelled. The factory returns a `V` or
  null.
- Copy: models `Array.Copy` only between two distinct arrays, which is the
  only way `CloneArray` uses it.
- `default(T)` is an explicit parameter, because Dafny has no such expression.
- The `[DebuggerStepThrough]` attributes and the performance reasons for the
  76-element threshold are not modelled.
