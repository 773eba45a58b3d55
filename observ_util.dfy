/** The web client's helpers over observable hashes: render every value of
    an object, list its values, and walk the keys an observ-varhash change
    removed or updated. A JavaScript object is its own keys in `Object.keys`
    order together with a map from key to value. */
module ObservUtil {

  ghost predicate DistinctKeys(keys: seq<string>)
  {
    forall i, j :: 0 <= i < j < |keys| ==> keys[i] != keys[j]
  }

  /** An object: its own enumerable keys, without repeats, in `Object.keys`
      order, and exactly those keys in `values`. */
  datatype RawObject<V> = RawObject(keys: seq<string>, values: map<string, V>)

  ghost predicate WellFormed<V>(o: RawObject<V>)
  {
    DistinctKeys(o.keys) && (forall k :: k in o.keys <==> k in o.values)
  }

  type JsObject<V> = o: RawObject<V> | WellFormed(o) witness RawObject([], map[])

  /** `map`: one rendered item per key, in key order. `render` stands for the
      item renderer with its channels bound. */
  method Map<V, R>(obj: JsObject<V>, render: V -> R) returns (items: seq<R>)
    ensures |items| == |obj.keys|
    ensures forall i :: 0 <= i < |items| ==> items[i] == render(obj.values[obj.keys[i]])
  {
    items := [];
    var keys := obj.keys;
    var length := |keys|;
    var i := 0;
    while i < length
      invariant 0 <= i <= length
      invariant |items| == i
      invariant forall j :: 0 <= j < i ==> items[j] == render(obj.values[keys[j]])
    {
      var key := keys[i];
      var value := obj.values[key];
      var item := render(value);
      items := items + [item];
      i := i + 1;
    }
  }

  /** `toArray`: the values, in key order. */
  function ToArray<V>(obj: JsObject<V>): (items: seq<V>)
    ensures |items| == |obj.keys|
    ensures forall i :: 0 <= i < |items| ==> items[i] == obj.values[obj.keys[i]]
  {
    seq(|obj.keys|, i requires 0 <= i < |obj.keys| => obj.values[obj.keys[i]])
  }

  /** Every value of the object is in `toArray`'s result and nothing else
      is. */
  lemma ToArrayHoldsValues<V>(obj: JsObject<V>)
    ensures forall k :: k in obj.values ==> obj.values[k] in ToArray(obj)
    ensures forall v :: v in ToArray(obj) ==> exists k :: k in obj.values && obj.values[k] == v
  {
    var items := ToArray(obj);
    forall k | k in obj.values
      ensures obj.values[k] in items
    {
      var i :| 0 <= i < |obj.keys| && obj.keys[i] == k;
      assert items[i] == obj.values[k];
    }
    forall v | v in items
      ensures exists k :: k in obj.values && obj.values[k] == v
    {
      var i :| 0 <= i < |items| && items[i] == v;
      assert obj.keys[i] in obj.values;
    }
  }

  /** A value of a changed hash as the iterators test it: falsy, or truthy
      with or without a `ref` in its own diff. */
  datatype Entry = Falsy | Truthy(refUpdated: bool)

  /** An observ-varhash change: the `_diff` object, whose falsy values mark
      removed keys, and the full values the change carries. A key the change
      has no value for reads as `undefined`. */
  datatype Change = Change(diff: JsObject<bool>, current: map<string, Entry>)

  function ValueOf(change: Change, key: string): Entry
  {
    if key in change.current then change.current[key] else Falsy
  }

  /** The keys `removed` calls its iterator with. */
  function RemovedKeys(keys: seq<string>, diff: map<string, bool>): (r: seq<string>)
    requires forall k :: k in keys ==> k in diff
    ensures forall k :: k in r <==> k in keys && !diff[k]
    ensures |r| <= |keys|
  {
    if keys == [] then []
    else
      var rest := RemovedKeys(keys[..|keys| - 1], diff);
      var key := keys[|keys| - 1];
      assert forall k :: k in keys[..|keys| - 1] ==> k in keys;
      assert keys == keys[..|keys| - 1] + [key];
      rest + (if !diff[key] then [key] else [])
  }

  /** `removed`: walks the own keys of `_diff` and calls the iterator, here
      recorded in `visited`, for each key whose diff value is falsy. */
  method Removed(change: Change) returns (visited: seq<string>)
    ensures visited == RemovedKeys(change.diff.keys, change.diff.values)
  {
    visited := [];
    var keys := change.diff.keys;
    var i := 0;
    while i < |keys|
      invariant 0 <= i <= |keys|
      invariant visited == RemovedKeys(keys[..i], change.diff.values)
    {
      var key := keys[i];
      assert keys[..i + 1][..i] == keys[..i];
      if !change.diff.values[key] {
        visited := visited + [key];
      }
      i := i + 1;
    }
    assert keys[..i] == keys;
  }

  /** Whether `each` hands the key on: an existing value without a `ref`
      update. */
  predicate EachVisits(value: Entry)
  {
    value.Truthy? && !value.refUpdated
  }

  /** The key, value pairs `each` calls its iterator with. */
  function EachPairs(keys: seq<string>, change: Change): (r: seq<(string, Entry)>)
    ensures forall k, v :: (k, v) in r <==> k in keys && v == ValueOf(change, k) && EachVisits(v)
    ensures |r| <= |keys|
  {
    if keys == [] then []
    else
      var rest := EachPairs(keys[..|keys| - 1], change);
      var key := keys[|keys| - 1];
      assert keys == keys[..|keys| - 1] + [key];
      rest + (if EachVisits(ValueOf(change, key)) then [(key, ValueOf(change, key))] else [])
  }

  /** `each`: walks `Object.keys(change._diff)` and calls the iterator with
      the full value of each existing key whose own diff has no `ref`. */
  method Each(change: Change) returns (visited: seq<(string, Entry)>)
    ensures visited == EachPairs(change.diff.keys, change)
  {
    visited := [];
    var keys := change.diff.keys;
    var length := |keys|;
    var i := 0;
    while i < length
      invariant 0 <= i <= length
      invariant visited == EachPairs(keys[..i], change)
    {
      var key := keys[i];
      var value := ValueOf(change, key);
      assert keys[..i + 1][..i] == keys[..i];
      if value.Truthy? && !value.refUpdated {
        visited := visited + [(key, value)];
      }
      i := i + 1;
    }
    assert keys[..i] == keys;
  }

  /** In a change where every removed key carries no value, as
      observ-varhash produces them, no key is both removed and updated. */
  lemma RemovedAndUpdatedDisjoint(change: Change)
    requires forall k :: k in change.diff.values && !change.diff.values[k] ==> ValueOf(change, k).Falsy?
    ensures forall k, v :: k in RemovedKeys(change.diff.keys, change.diff.values) ==> (k, v) !in EachPairs(change.diff.keys, change)
  {
  }

  /** A `ref` update never reaches the iterator, whatever else changed. */
  lemma EachSkipsRefUpdates(change: Change, key: string)
    requires ValueOf(change, key) == Truthy(true)
    ensures forall v :: (key, v) !in EachPairs(change.diff.keys, change)
  {
  }
}
