module Options {
  datatype Option<+T> = None | Some(value: T)

  function Get<K(==), V>(m: map<K, V>, key: K): Option<V> {
    if key in m then Some(m[key]) else None
  }

  datatype Result<+T, +E> = Ok(value: T) | Err(error: E)
}

module Iteration {
  // Python iterates dictionaries and sets in some order; the callers below are
  // verified for every order this method might return.
  method IterationOrder<K(==)>(keys: set<K>) returns (order: seq<K>)
    ensures forall k :: k in order <==> k in keys
    ensures forall i, j :: 0 <= i < j < |order| ==> order[i] != order[j]
  {
    order := [];
    var todo := keys;
    while todo != {}
      invariant todo <= keys
      invariant forall k :: k in order <==> k in keys && k !in todo
      invariant forall i, j :: 0 <= i < j < |order| ==> order[i] != order[j]
      decreases |todo|
    {
      var k :| k in todo;
      order := order + [k];
      todo := todo - {k};
    }
  }
}
