/**
 * Python's insertion-ordered `dict` with string keys: the keys in the order
 * they were first inserted, and the key/value mapping.  Re-assigning an
 * existing key keeps its position; `update` appends the keys it adds.
 */
module Dicts {

  /** The keys are listed once each, and exactly the mapped keys are listed. */
  ghost predicate Wellformed<V>(keys: seq<string>, vals: map<string, V>) {
    && (forall i, j :: 0 <= i < j < |keys| ==> keys[i] != keys[j])
    && (forall k :: k in vals <==> k in keys)
  }

  datatype RawDict<V> = RawDict(keys: seq<string>, vals: map<string, V>)

  type Dict<V> = d: RawDict<V> | Wellformed(d.keys, d.vals) witness RawDict([], map[])

  function Empty<V>(): (d: Dict<V>)
    ensures d.keys == [] && d.vals == map[]
  {
    RawDict([], map[])
  }

  /** `d[k] = v`. */
  function Put<V>(d: Dict<V>, k: string, v: V): (r: Dict<V>)
    ensures r.vals == d.vals[k := v]
    ensures r.keys == if k in d.vals then d.keys else d.keys + [k]
  {
    if k in d.vals then RawDict(d.keys, d.vals[k := v]) else RawDict(d.keys + [k], d.vals[k := v])
  }

  /** The keys of `ks` that `m` does not hold yet, in order. */
  function Fresh<V>(ks: seq<string>, m: map<string, V>): (r: seq<string>)
    ensures forall k :: k in r <==> k in ks && k !in m
    decreases |ks|
  {
    if ks == [] then []
    else
      var last := ks[|ks| - 1];
      Fresh(ks[..|ks| - 1], m) + (if last in m then [] else [last])
  }

  /**
   * `a.update(b)`: the entries of `b` are put into `a` one key at a time
   * in `b`'s order, so `b`'s values win and the keys new to `a` are
   * appended in `b`'s order.
   */
  function Update<V>(a: Dict<V>, b: Dict<V>): (r: Dict<V>)
    ensures r.vals == a.vals + b.vals
    ensures r.keys == a.keys + Fresh(b.keys, a.vals)
  {
    FreshDistinct(b.keys, a.vals);
    var keys := a.keys + Fresh(b.keys, a.vals);
    assert forall i, j :: 0 <= i < j < |keys| ==> keys[i] != keys[j] by {
      forall i, j | 0 <= i < j < |keys|
        ensures keys[i] != keys[j]
      {
        if j >= |a.keys| && i < |a.keys| {
          assert keys[j] in Fresh(b.keys, a.vals);
        }
      }
    }
    RawDict(keys, a.vals + b.vals)
  }

  /** A sequence of distinct keys keeps its fresh ones distinct. */
  lemma {:induction false} FreshDistinct<V>(ks: seq<string>, m: map<string, V>)
    requires forall i, j :: 0 <= i < j < |ks| ==> ks[i] != ks[j]
    ensures var r := Fresh(ks, m); forall i, j :: 0 <= i < j < |r| ==> r[i] != r[j]
    decreases |ks|
  {
    if ks != [] {
      var init := ks[..|ks| - 1];
      assert forall i, j :: 0 <= i < j < |init| ==> init[i] != init[j] by {
        forall i, j | 0 <= i < j < |init| ensures init[i] != init[j] {
          assert init[i] == ks[i] && init[j] == ks[j];
        }
      }
      FreshDistinct(init, m);
      assert ks[|ks| - 1] !in init;
      assert ks[|ks| - 1] !in Fresh(init, m);
    }
  }
}
