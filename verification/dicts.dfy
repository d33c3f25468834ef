/** Dictionaries as Dafny maps. Python's `dict.copy(); update(...)` (the
    `dict_merge` helper of backend.py) and jQuery's `$.extend({}, a, b)` are the
    same operation: a right-biased union. */
module Dicts {

  /** Every key of either argument; on a shared key the right-hand value wins. */
  function Merge<K, V>(a: map<K, V>, b: map<K, V>): (c: map<K, V>)
    ensures c.Keys == a.Keys + b.Keys
    ensures forall k :: k in b ==> c[k] == b[k]
    ensures forall k :: k in a && k !in b ==> c[k] == a[k]
  {
    a + b
  }
}
