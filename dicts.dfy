/** `dict(zip(keys, values))`, as used to pair a layout's field names with a
    record's values. */
module Dicts {

  /** The pairs of `zip` are taken up to the shorter argument; a key seen
      again overwrites the earlier entry, as Python's `dict` does. */
  function ZipDict<K, V>(keys: seq<K>, vals: seq<V>): (d: map<K, V>)
    ensures d.Keys == set k | k in keys[..Min(|keys|, |vals|)]
  {
    var m := Min(|keys|, |vals|);
    if m == 0 then map[]
    else
      var d := ZipDict(keys[..m - 1], vals[..m - 1]);
      assert keys[..m - 1][..m - 1] == keys[..m - 1];
      assert keys[..m] == keys[..m - 1] + [keys[m - 1]];
      d[keys[m - 1] := vals[m - 1]]
  }

  function Min(a: nat, b: nat): nat { if a <= b then a else b }

  predicate Distinct<T(==)>(xs: seq<T>)
  {
    forall i, j :: 0 <= i < j < |xs| ==> xs[i] != xs[j]
  }

  /** With distinct keys, every key is paired with the value at its own position. */
  lemma {:induction false} ZipDictAt<K, V>(keys: seq<K>, vals: seq<V>, i: nat)
    requires Distinct(keys)
    requires i < |keys| && i < |vals|
    ensures keys[i] in ZipDict(keys, vals)
    ensures ZipDict(keys, vals)[keys[i]] == vals[i]
  {
    var m := Min(|keys|, |vals|);
    if i < m - 1 {
      ZipDictAt(keys[..m - 1], vals[..m - 1], i);
      assert keys[i] != keys[m - 1];
    }
  }
}
