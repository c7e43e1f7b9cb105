/**
 * Get-or-add on a dictionary (DictionaryExtensions.cs). The dictionary is an
 * object whose key/value map is updated in place; the value factory is an
 * optional function (null when absent) whose result may itself be null.
 * Every call of the factory is recorded with the value it returned, so the
 * contracts can say when it runs.
 */
module DictionaryExtensions {
  import opened Errors

  /** What one get-or-add returns, the map it leaves behind and the factory calls it made, in order. */
  datatype Outcome<K, V> = Outcome(result: Result<V>, after: map<K, V>, calls: seq<Option<V>>)

  const NullFactoryResult := "mappingFunc body is null"

  /**
   * Get-or-add on the map m: a null factory throws before m is looked at;
   * a present key gives its value and leaves m alone; an absent key is added
   * with the factory's value, unless that value is null, which throws and
   * leaves m alone. No other key is touched in any case. The factory runs
   * once when the key is absent and not at all otherwise.
   */
  function GetOrAdd<K(==), V>(m: map<K, V>, key: K, mappingFunc: Option<() -> Option<V>>): (o: Outcome<K, V>)
    ensures o.result.Ok? ==> key in o.after && o.after[key] == o.result.value
    ensures o.result.Err? ==> o.after == m
    ensures o.after.Keys == m.Keys || o.after.Keys == m.Keys + {key}
    ensures forall k :: k in m ==> k in o.after && o.after[k] == m[k]
    ensures |o.calls| <= 1
    ensures o.calls != [] <==> mappingFunc.Some? && key !in m
    ensures o.calls != [] ==> o.calls[0] == mappingFunc.value()
  {
    if mappingFunc.None? then Outcome(Err(ArgumentNull("mappingFunc")), m, [])
    else if key in m then Outcome(Ok(m[key]), m, [])
    else
      var made := mappingFunc.value();
      match made
      case None => Outcome(Err(InvalidOperation(NullFactoryResult)), m, [made])
      case Some(value) => Outcome(Ok(value), m[key := value], [made])
  }

  /** A null factory throws even when the key is present. */
  lemma GetOrAddNullFactory<K, V>(m: map<K, V>, key: K)
    ensures GetOrAdd(m, key, None) == Outcome(Err(ArgumentNull("mappingFunc")), m, [])
  {
  }

  /** A present key gives its value, changes nothing and does not run the factory. */
  lemma GetOrAddPresentKey<K, V>(m: map<K, V>, key: K, f: () -> Option<V>)
    requires key in m
    ensures GetOrAdd(m, key, Some(f)) == Outcome(Ok(m[key]), m, [])
  {
  }

  /** An absent key with a null factory value throws and changes nothing. */
  lemma GetOrAddNullValue<K, V>(m: map<K, V>, key: K, f: () -> Option<V>)
    requires key !in m && f().None?
    ensures GetOrAdd(m, key, Some(f)) == Outcome(Err(InvalidOperation(NullFactoryResult)), m, [None])
  {
  }

  /**
   * A second get-or-add of the same key, with any factory, returns the same
   * value, changes nothing and does not run its factory.
   */
  lemma GetOrAddIdempotent<K, V>(m: map<K, V>, key: K, f: () -> Option<V>, g: () -> Option<V>)
    requires GetOrAdd(m, key, Some(f)).result.Ok?
    ensures GetOrAdd(GetOrAdd(m, key, Some(f)).after, key, Some(g))
      == Outcome(GetOrAdd(m, key, Some(f)).result, GetOrAdd(m, key, Some(f)).after, [])
  {
  }

  /** An absent key with a non-null factory value is added with exactly that value, and only it. */
  lemma GetOrAddAddsOneKey<K, V>(m: map<K, V>, key: K, f: () -> Option<V>)
    requires key !in m && f().Some?
    ensures GetOrAdd(m, key, Some(f)) == Outcome(Ok(f().value), m[key := f().value], [f()])
    ensures GetOrAdd(m, key, Some(f)).after.Keys == m.Keys + {key}
  {
  }

  /** A dictionary holding a key/value map that its methods update in place. */
  class Dictionary<K(==), V> {
    var entries: map<K, V>

    constructor ()
      ensures entries == map[]
    {
      entries := map[];
    }

    /** Whether key is mapped. */
    function ContainsKey(key: K): (present: bool)
      reads this
      ensures present <==> key in entries
    {
      key in entries
    }

    /** Adds a key that is not yet present. */
    method Add(key: K, value: V)
      requires !ContainsKey(key)
      modifies this
      ensures entries == old(entries)[key := value]
    {
      entries := entries[key := value];
    }

    /**
     * The value mapped to key, created by mappingFunc and added first when
     * the key is absent; calls records each run of mappingFunc.
     */
    method MapCollectionToKey(key: K, mappingFunc: Option<() -> Option<V>>) returns (r: Result<V>, calls: seq<Option<V>>)
      modifies this
      ensures Outcome(r, entries, calls) == GetOrAdd(old(entries), key, mappingFunc)
    {
      calls := [];
      if mappingFunc.None? {
        return Err(ArgumentNull("mappingFunc")), calls;
      }
      if !ContainsKey(key) {
        var value := mappingFunc.value();
        calls := calls + [value];
        if value.Some? {
          Add(key, value.value);
        } else {
          return Err(InvalidOperation(NullFactoryResult)), calls;
        }
      }
      r := Ok(entries[key]);
    }
  }
}
