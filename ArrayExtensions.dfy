/**
 * Defaulting and cloning arrays (ArrayExtensions.cs). An array reference may
 * be null (`array?`); reading its length then throws NullReferenceException.
 * Dafny has no `default(T)` expression, so the default value of T is passed
 * in as `zero`.
 */
module ArrayExtensions {
  import opened Errors

  /** Up to this many elements the elements are reset one by one, above it Array.Clear is used. */
  const LoopClearLimit := 76

  /** Array.Clear(array, index, length): resets that range to default values, and nothing else. */
  method Clear<T>(a: array<T>, index: int, length: int, zero: T)
    requires 0 <= index && 0 <= length && index + length <= a.Length
    modifies a
    ensures forall i :: index <= i < index + length ==> a[i] == zero
    ensures forall i :: 0 <= i < a.Length && !(index <= i < index + length) ==> a[i] == old(a[i])
  {
    forall i | index <= i < index + length {
      a[i] := zero;
    }
  }

  /** Array.Copy(source, destination, length): copies the first length elements into another array. */
  method Copy<T>(source: array<T>, destination: array<T>, length: int)
    requires source != destination
    requires 0 <= length <= source.Length && length <= destination.Length
    modifies destination
    ensures destination[..length] == source[..length]
    ensures destination[length..] == old(destination[length..])
  {
    var i := 0;
    while i < length
      invariant 0 <= i <= length
      invariant destination[..i] == source[..i]
      invariant destination[length..] == old(destination[length..])
    {
      destination[i] := source[i];
      i := i + 1;
    }
  }

  /**
   * Resets every element of the array itself to the default value; the
   * length stays. Short arrays are reset in a loop, longer ones by
   * Array.Clear: both paths end in the same state.
   */
  method SelfSetToDefaults<T>(sourceArray: array?<T>, zero: T) returns (r: Result<()>)
    modifies sourceArray
    ensures sourceArray == null ==> r == Err(NullReference)
    ensures sourceArray != null ==> r == Ok(()) && forall i :: 0 <= i < sourceArray.Length ==> sourceArray[i] == zero
  {
    if sourceArray == null {
      return Err(NullReference);
    }
    if sourceArray.Length <= LoopClearLimit {
      var i := 0;
      while i < sourceArray.Length
        invariant 0 <= i <= sourceArray.Length
        invariant forall j :: 0 <= j < i ==> sourceArray[j] == zero
      {
        sourceArray[i] := zero;
        i := i + 1;
      }
    } else {
      Clear(sourceArray, 0, sourceArray.Length, zero);
    }
    r := Ok(());
  }

  /** A new array as long as the source, every element the default value; the source is not touched. */
  method SetToDefaults<T(0)>(sourceArray: array?<T>, zero: T) returns (r: Result<array<T>>)
    ensures sourceArray == null ==> r == Err(NullReference)
    ensures sourceArray != null ==> r.Ok? && fresh(r.value) && r.value.Length == sourceArray.Length
    ensures r.Ok? ==> forall i :: 0 <= i < r.value.Length ==> r.value[i] == zero
  {
    if sourceArray == null {
      return Err(NullReference);
    }
    var newArray := new T[sourceArray.Length];
    var i := 0;
    while i < sourceArray.Length
      invariant 0 <= i <= sourceArray.Length
      invariant forall j :: 0 <= j < i ==> newArray[j] == zero
    {
      newArray[i] := zero;
      i := i + 1;
    }
    r := Ok(newArray);
  }

  /** A new array holding the source's elements in the same order; the source is not touched. */
  method CloneArray<T(0)>(source: array?<T>) returns (r: Result<array<T>>)
    ensures source == null ==> r == Err(NullReference)
    ensures source != null ==> r.Ok? && fresh(r.value) && r.value[..] == source[..]
  {
    if source == null {
      return Err(NullReference);
    }
    var destination := new T[source.Length];
    Copy(source, destination, source.Length);
    assert destination[..] == destination[..source.Length];
    r := Ok(destination);
  }
}
