/** Positional lookups shared by the list and dict operations of the model. */
module Lookup {

  /** `list.index(v)`: the first position holding `v`, or `|xs|` when none does. */
  function FirstIndex<T(==)>(xs: seq<T>, v: T): (j: nat)
    ensures j <= |xs|
    ensures j < |xs| ==> xs[j] == v
    ensures forall k :: 0 <= k < j ==> xs[k] != v
  {
    if xs == [] then 0
    else if xs[0] == v then 0
    else 1 + FirstIndex(xs[1..], v)
  }

  /** `key in d`, for a dict given as its entries in order. */
  predicate HasKey<V>(entries: seq<(string, V)>, key: string) {
    exists k :: 0 <= k < |entries| && entries[k].0 == key
  }

  /** The position of the first entry with the key, or `|entries|` when none has it. */
  function KeyIndex<V>(entries: seq<(string, V)>, key: string): (k: nat)
    ensures k <= |entries|
    ensures k < |entries| ==> entries[k].0 == key
    ensures forall j :: 0 <= j < k ==> entries[j].0 != key
  {
    if entries == [] then 0
    else if entries[0].0 == key then 0
    else 1 + KeyIndex(entries[1..], key)
  }

  /** `d[key]` for a key that is present: the value of its first entry. */
  function Get<V>(entries: seq<(string, V)>, key: string): (v: V)
    requires HasKey(entries, key)
    ensures KeyIndex(entries, key) < |entries| && entries[KeyIndex(entries, key)] == (key, v)
    ensures exists k :: 0 <= k < |entries| && entries[k].0 == key && entries[k].1 == v
  {
    entries[KeyIndex(entries, key)].1
  }
}
