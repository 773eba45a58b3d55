/** A device as the web client's device-set components see it, and the
    by-index ordering both the device-set channels and its manager view use. */
module WebDevice {
  import opened Wrappers

  /** The observable fields of a device the device-set components read.
      `index` is `None` for the JavaScript null an unlinked device holds. */
  datatype Device = Device(id: string, linked: bool, index: Option<int>, current: bool, deviceType: string)

  /** The device component's `state` for a new device: linked, at index 0;
      `current` defaults to false through `options.current || false`. */
  function DeviceState(id: string, current: bool, deviceType: string): (d: Device)
    ensures d.id == id && d.deviceType == deviceType
    ensures d.linked && d.index == Some(0) && d.current == current
  {
    Device(id, true, Some(0), current, deviceType)
  }

  /** The value the by-index comparator sees: JavaScript's relational
      operators read a null index as 0. */
  function SortKey(d: Device): int
  {
    match d.index
    case None => 0
    case Some(v) => v
  }

  ghost predicate Distinct(s: seq<string>)
  {
    forall i, j :: 0 <= i < j < |s| ==> s[i] != s[j]
  }

  /** The keys, in order, are ascending by index. */
  ghost predicate SortedByIndex(s: seq<string>, devices: map<string, Device>)
    requires forall k :: k in s ==> k in devices
  {
    forall i, j :: 0 <= i < j < |s| ==> SortKey(devices[s[i]]) <= SortKey(devices[s[j]])
  }

  /** One step of the sort: `k` goes in front of the first key whose index is
      not smaller. */
  function InsertByIndex(k: string, sorted: seq<string>, devices: map<string, Device>): (r: seq<string>)
    requires k in devices && forall x :: x in sorted ==> x in devices
    ensures multiset(r) == multiset(sorted) + multiset{k}
    ensures forall x :: x in r <==> x == k || x in sorted
  {
    if sorted == [] || SortKey(devices[k]) <= SortKey(devices[sorted[0]]) then [k] + sorted
    else
      assert sorted == [sorted[0]] + sorted[1..];
      [sorted[0]] + InsertByIndex(k, sorted[1..], devices)
  }

  /** Inserting into an ascending sequence keeps it ascending. */
  lemma {:induction false} InsertByIndexSorted(k: string, sorted: seq<string>, devices: map<string, Device>)
    requires k in devices && forall x :: x in sorted ==> x in devices
    requires SortedByIndex(sorted, devices)
    ensures SortedByIndex(InsertByIndex(k, sorted, devices), devices)
  {
    if sorted == [] || SortKey(devices[k]) <= SortKey(devices[sorted[0]]) {
      HeadBelowTail(sorted, devices);
      ConsSorted(k, sorted, devices);
    } else {
      var tail := sorted[1..];
      assert forall x :: x in tail ==> x in sorted;
      HeadBelowTail(sorted, devices);
      var rest := InsertByIndex(k, tail, devices);
      InsertByIndexSorted(k, tail, devices);
      ConsSorted(sorted[0], rest, devices);
    }
  }

  /** In an ascending sequence the first key's index is the least. */
  lemma HeadBelowTail(s: seq<string>, devices: map<string, Device>)
    requires forall x :: x in s ==> x in devices
    requires SortedByIndex(s, devices)
    ensures s != [] ==> forall x :: x in s ==> SortKey(devices[s[0]]) <= SortKey(devices[x])
    ensures s != [] ==> SortedByIndex(s[1..], devices)
  {
    if s != [] {
      forall x | x in s ensures SortKey(devices[s[0]]) <= SortKey(devices[x]) {
        var h :| 0 <= h < |s| && s[h] == x;
      }
    }
  }

  /** A key at most every key of an ascending sequence can go in front. */
  lemma ConsSorted(h: string, rest: seq<string>, devices: map<string, Device>)
    requires h in devices && forall x :: x in rest ==> x in devices
    requires SortedByIndex(rest, devices)
    requires forall x :: x in rest ==> SortKey(devices[h]) <= SortKey(devices[x])
    ensures SortedByIndex([h] + rest, devices)
  {
    var r := [h] + rest;
    forall i, j | 0 <= i < j < |r| ensures SortKey(devices[r[i]]) <= SortKey(devices[r[j]]) {
      assert r[j] == rest[j - 1];
      if i > 0 {
        assert r[i] == rest[i - 1];
      }
    }
  }

  /** `Array.prototype.sort` with the components' by-index comparator: a
      permutation of the keys, ascending by index. */
  function SortByIndex(ks: seq<string>, devices: map<string, Device>): (r: seq<string>)
    requires forall x :: x in ks ==> x in devices
    ensures multiset(r) == multiset(ks)
    ensures |r| == |ks|
    ensures forall x :: x in r <==> x in ks
    ensures SortedByIndex(r, devices)
  {
    if ks == [] then []
    else
      assert ks == [ks[0]] + ks[1..];
      var rest := SortByIndex(ks[1..], devices);
      InsertByIndexSorted(ks[0], rest, devices);
      InsertByIndex(ks[0], rest, devices)
  }

  lemma {:induction false} CountInDistinct(t: seq<string>, x: string)
    requires Distinct(t)
    ensures multiset(t)[x] <= 1
  {
    if t != [] {
      assert t == [t[0]] + t[1..];
      CountInDistinct(t[1..], x);
      if t[0] == x {
        assert x !in t[1..];
      }
    }
  }

  /** A permutation of a sequence without repeats has none either. */
  lemma PermutationKeepsDistinct(s: seq<string>, t: seq<string>)
    requires multiset(s) == multiset(t) && Distinct(t)
    ensures Distinct(s)
  {
    forall i, j | 0 <= i < j < |s| ensures s[i] != s[j] {
      if s[i] == s[j] {
        var x := s[i];
        assert s == s[..j] + s[j..];
        assert x in s[..j];
        assert x in s[j..];
        assert multiset(s)[x] >= 2;
        CountInDistinct(t, x);
        assert false;
      }
    }
  }

  /** Sorting keeps the relative order of devices with different indexes:
      a smaller index comes earlier. */
  lemma SortedRespectsIndex(s: seq<string>, devices: map<string, Device>, p: nat, q: nat)
    requires forall k :: k in s ==> k in devices
    requires SortedByIndex(s, devices)
    requires p < |s| && q < |s|
    requires SortKey(devices[s[p]]) < SortKey(devices[s[q]])
    ensures p < q
  {
  }
}
