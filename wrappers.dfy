/** Results of operations that the program can abort with a Python exception. */
module Wrappers {

  /** The exceptions the pool's core raises on malformed input. */
  datatype Error =
    | KeyError(key: string)  // a dictionary lookup with a missing key
    | IndexError             // a list subscript past the end
    | BracketSize            // the alive-team count is not a power of two

  datatype Option<+T> = None | Some(value: T)

  datatype Result<+T> = Ok(value: T) | Err(error: Error) {
    predicate IsFailure() { Err? }

    function PropagateFailure<U>(): Result<U>
      requires Err?
    {
      Err(error)
    }

    function Extract(): T
      requires Ok?
    {
      value
    }
  }

  /** A Python dictionary: keys in insertion order, and their values. */
  datatype Dict<K(==), V> = Dict(keys: seq<K>, vals: map<K, V>) {

    predicate Valid() {
      (forall i, j :: 0 <= i < j < |keys| ==> keys[i] != keys[j]) &&
      (forall k <- keys :: k in vals) &&
      (forall k <- vals.Keys :: k in keys)
    }

    /** `d[k] = v`: a new key goes to the end, an existing key keeps its place. */
    function Put(k: K, v: V): (d: Dict<K, V>)
      requires Valid()
      ensures d.Valid()
      ensures d.vals == vals[k := v]
      ensures k in vals ==> d.keys == keys
      ensures k !in vals ==> d.keys == keys + [k]
    {
      if k in vals then Dict(keys, vals[k := v]) else Dict(keys + [k], vals[k := v])
    }
  }

  function EmptyDict<K(==), V>(): (d: Dict<K, V>)
    ensures d.Valid() && d.keys == []
  {
    Dict([], map[])
  }
}
