/** The web client's device-set component state and its channels: the page
    cursor, the management modal, linking and unlinking devices (with the
    re-indexing of the linked group), and the drag/reorder flags. */
module WebDeviceSet {
  import opened Wrappers
  import opened WebDevice

  /** `options.x || 1` for an optional page number: absent and 0 are falsy. */
  function OrOne(v: Option<int>): (r: int)
    ensures v.None? || v.value == 0 ==> r == 1
    ensures v.Some? && v.value != 0 ==> r == v.value
  {
    if v.None? || v.value == 0 then 1 else v.value
  }

  /** The devices varhash: `keys` is the `Object.keys` order of the hash. */
  ghost predicate KeyedBy(keys: seq<string>, devices: map<string, Device>)
  {
    Distinct(keys) && forall k :: k in devices <==> k in keys
  }

  /** `toArray(devices).filter(linked)`: the linked devices' keys, in key order. */
  function LinkedKeys(keys: seq<string>, devices: map<string, Device>): (r: seq<string>)
    requires forall k :: k in keys ==> k in devices
    ensures forall k :: k in r <==> k in keys && devices[k].linked
    ensures Distinct(keys) ==> Distinct(r)
    ensures |r| <= |keys|
  {
    if keys == [] then []
    else
      var rest := LinkedKeys(keys[1..], devices);
      assert forall k :: k in keys[1..] ==> k in keys;
      (if devices[keys[0]].linked then [keys[0]] else []) + rest
  }

  /** The linked group is numbered 0 .. k-1: every linked device has an
      index below the group's size and no two share one. */
  ghost predicate WellIndexed(keys: seq<string>, devices: map<string, Device>)
    requires forall k :: k in keys ==> k in devices
  {
    var group := LinkedKeys(keys, devices);
    (forall k :: k in group ==> devices[k].index.Some? && 0 <= devices[k].index.value < |group|) &&
    (forall a, b :: a in group && b in group && a != b ==> devices[a].index != devices[b].index)
  }

  /** The device `id` marked unlinked, with a null index. */
  function Unlinked(devices: map<string, Device>, id: string): (r: map<string, Device>)
    requires id in devices
    ensures r.Keys == devices.Keys
    ensures !r[id].linked && r[id].index.None?
  {
    devices[id := devices[id].(linked := false, index := None)]
  }

  /** The `forEach` of `unlink` after `n` steps: the device at position `p`
      of `order` is given index `p`. */
  function Reindexed(devices: map<string, Device>, order: seq<string>, n: nat): (r: map<string, Device>)
    requires n <= |order| && forall k :: k in order ==> k in devices
    ensures r.Keys == devices.Keys
  {
    if n == 0 then devices
    else
      var prev := Reindexed(devices, order, n - 1);
      prev[order[n - 1] := prev[order[n - 1]].(index := Some(n - 1))]
  }

  /** The orders the engine's sort may leave the linked group in: any
      arrangement of the linked keys. */
  ghost predicate GroupOrder(order: seq<string>, keys: seq<string>, devices: map<string, Device>)
    requires forall k :: k in keys ==> k in devices
  {
    (forall k :: k in order ==> k in devices) &&
    multiset(order) == multiset(LinkedKeys(keys, devices))
  }

  /** The order `unlink` numbers the group in as the source is written: its
      comparator compares `a.index > b.index` on the index observables
      themselves (functions, not their values), which never compare greater
      or smaller, so a stable sort keeps key order. */
  function UnlinkOrderAsWritten(keys: seq<string>, devices: map<string, Device>): (r: seq<string>)
    requires forall k :: k in keys ==> k in devices
    ensures forall k :: k in r <==> k in keys && devices[k].linked
  {
    LinkedKeys(keys, devices)
  }

  /** The order the comparator is evidently meant to give: the linked
      devices ascending by their index. */
  function UnlinkOrder(keys: seq<string>, devices: map<string, Device>): (r: seq<string>)
    requires forall k :: k in keys ==> k in devices
    ensures forall k :: k in r <==> k in keys && devices[k].linked
  {
    SortByIndex(LinkedKeys(keys, devices), devices)
  }

  /** The devices after `unlink(id)` when the group is renumbered in `order`. */
  function AfterUnlinkIn(devices: map<string, Device>, id: string, order: seq<string>): map<string, Device>
    requires id in devices && forall k :: k in order ==> k in devices
  {
    Reindexed(Unlinked(devices, id), order, |order|)
  }

  /** The devices after `unlink(id)` as the source is written: the group is
      renumbered in key order. */
  function AfterUnlink(keys: seq<string>, devices: map<string, Device>, id: string): map<string, Device>
    requires forall k :: k in keys ==> k in devices
    requires id in devices
  {
    AfterUnlinkIn(devices, id, UnlinkOrderAsWritten(keys, Unlinked(devices, id)))
  }

  /** The devices after `unlink(id)` with the intended by-index order. */
  function AfterUnlinkByIndex(keys: seq<string>, devices: map<string, Device>, id: string): map<string, Device>
    requires forall k :: k in keys ==> k in devices
    requires id in devices
  {
    AfterUnlinkIn(devices, id, UnlinkOrder(keys, Unlinked(devices, id)))
  }

  /** The `forEach` of `unlink`: the device at position `p` of `order` is
      given index `p`. */
  method Renumber(devices: map<string, Device>, order: seq<string>) returns (d: map<string, Device>)
    requires forall k :: k in order ==> k in devices
    ensures d == Reindexed(devices, order, |order|)
  {
    d := devices;
    var i := 0;
    while i < |order|
      invariant 0 <= i <= |order|
      invariant d == Reindexed(devices, order, i)
    {
      d := d[order[i] := d[order[i]].(index := Some(i))];
      i := i + 1;
    }
  }

  class DeviceSetState {
    var pagesTotal: int
    var pagesCurrent: int
    var progress: int
    var modalActive: bool
    var keys: seq<string>
    var devices: map<string, Device>
    var managerActive: bool
    var dragID: string
    var overID: string

    ghost predicate Valid()
      reads this
    {
      KeyedBy(keys, devices)
    }

    /** `state(options)`: pages default to 1 through `|| 1`, the manager's
        drag and over ids start empty, progress starts at 0. */
    constructor (total: Option<int>, current: Option<int>, keys: seq<string>, devices: map<string, Device>)
      requires KeyedBy(keys, devices)
      ensures Valid()
      ensures pagesTotal == OrOne(total) && pagesCurrent == OrOne(current)
      ensures this.keys == keys && this.devices == devices
      ensures progress == 0 && !modalActive && managerActive
      ensures dragID == "" && overID == ""
    {
      pagesTotal := OrOne(total);
      pagesCurrent := OrOne(current);
      progress := 0;
      modalActive := false;
      this.keys := keys;
      this.devices := devices;
      managerActive := true;
      dragID := "";
      overID := "";
    }

    /** `previous`: back one page unless on the first. */
    method Previous()
      modifies this
      ensures progress == old(progress) && managerActive == old(managerActive)
      ensures pagesCurrent == if old(pagesCurrent) > 1 then old(pagesCurrent) - 1 else old(pagesCurrent)
      ensures pagesTotal == old(pagesTotal) && devices == old(devices) && keys == old(keys)
      ensures dragID == old(dragID) && overID == old(overID) && modalActive == old(modalActive)
    {
      var current := pagesCurrent;
      if current > 1 {
        pagesCurrent := current - 1;
      }
    }

    /** `next`: on one page unless on the last. */
    method Next()
      modifies this
      ensures progress == old(progress) && managerActive == old(managerActive)
      ensures pagesCurrent == if old(pagesCurrent) < old(pagesTotal) then old(pagesCurrent) + 1 else old(pagesCurrent)
      ensures pagesTotal == old(pagesTotal) && devices == old(devices) && keys == old(keys)
      ensures dragID == old(dragID) && overID == old(overID) && modalActive == old(modalActive)
    {
      var current := pagesCurrent;
      var total := pagesTotal;
      if current < total {
        pagesCurrent := current + 1;
      }
    }

    /** `manage`: opens the modal and nothing else. */
    method Manage()
      modifies this
      ensures progress == old(progress) && managerActive == old(managerActive)
      ensures modalActive
      ensures pagesTotal == old(pagesTotal) && pagesCurrent == old(pagesCurrent)
      ensures devices == old(devices) && keys == old(keys)
      ensures dragID == old(dragID) && overID == old(overID)
    {
      modalActive := true;
    }

    /** `link`: a missing id, an unknown device or one already linked is left
        alone; otherwise the device is linked at the end of the group. */
    method Link(id: string)
      requires Valid()
      modifies this
      ensures progress == old(progress) && managerActive == old(managerActive)
      ensures Valid()
      ensures id == "" || id !in old(devices) || old(devices)[id].linked ==> devices == old(devices)
      ensures id != "" && id in old(devices) && !old(devices)[id].linked ==>
                devices == old(devices)[id := old(devices)[id].(linked := true, index := Some(|LinkedKeys(old(keys), old(devices))|))]
      ensures keys == old(keys) && pagesTotal == old(pagesTotal) && pagesCurrent == old(pagesCurrent)
      ensures dragID == old(dragID) && overID == old(overID) && modalActive == old(modalActive)
    {
      if id == "" || id !in devices || devices[id].linked {
        return;
      }
      var linked := LinkedKeys(keys, devices);
      devices := devices[id := devices[id].(linked := true, index := Some(|linked|))];
    }

    /** `unlink`: the device leaves the group with a null index, the
        remaining linked devices are renumbered 0 .. k-1 in the order the
        sort leaves them, which as written is key order, and the manager's
        drag state is reset.  `thrown` is the TypeError of an
        unknown id (nothing changes). */
    method Unlink(id: string) returns (thrown: bool)
      requires Valid()
      modifies this
      ensures progress == old(progress) && managerActive == old(managerActive)
      ensures Valid()
      ensures thrown <==> id !in old(devices)
      ensures thrown ==> devices == old(devices) && dragID == old(dragID) && overID == old(overID)
      ensures !thrown ==> devices == AfterUnlink(old(keys), old(devices), id) && dragID == "" && overID == ""
      ensures keys == old(keys) && pagesTotal == old(pagesTotal) && pagesCurrent == old(pagesCurrent)
      ensures modalActive == old(modalActive)
    {
      if id !in devices {
        return true;
      }
      var base := Unlinked(devices, id);
      var order := UnlinkOrderAsWritten(keys, base);
      devices := Renumber(base, order);
      overID := "";
      dragID := "";
      return false;
    }

    /** `drag`: records the dragged id while dragging, '' otherwise. */
    method Drag(dragging: bool, id: string)
      modifies this
      ensures progress == old(progress) && managerActive == old(managerActive)
      ensures dragID == if dragging then id else ""
      ensures overID == old(overID) && devices == old(devices) && keys == old(keys)
      ensures pagesTotal == old(pagesTotal) && pagesCurrent == old(pagesCurrent) && modalActive == old(modalActive)
    {
      if dragging {
        dragID := id;
      } else {
        dragID := "";
      }
    }

    /** `reorder`: while dragging, the drop target and the drag target swap
        indexes.  `thrown` is the TypeError of an unknown target (nothing
        changes). */
    method Reorder(dragging: bool, droptarget: string, dragtarget: string) returns (thrown: bool)
      modifies this
      ensures progress == old(progress) && managerActive == old(managerActive)
      ensures !dragging ==> !thrown && devices == old(devices)
      ensures dragging ==> (thrown <==> droptarget !in old(devices) || dragtarget !in old(devices))
      ensures thrown ==> devices == old(devices)
      ensures dragging && !thrown ==>
                var drop := old(devices)[droptarget];
                var drag := old(devices)[dragtarget];
                devices == old(devices)[droptarget := drop.(index := drag.index)]
                                       [dragtarget := drag.(index := drop.index)]
      ensures keys == old(keys) && dragID == old(dragID) && overID == old(overID)
      ensures pagesTotal == old(pagesTotal) && pagesCurrent == old(pagesCurrent) && modalActive == old(modalActive)
    {
      if !dragging {
        return false;
      }
      if droptarget !in devices || dragtarget !in devices {
        return true;
      }
      var index := devices[droptarget].index;
      devices := devices[droptarget := devices[droptarget].(index := devices[dragtarget].index)];
      devices := devices[dragtarget := devices[dragtarget].(index := index)];
      return false;
    }

    /** `reset`: clears the manager's over and drag ids. */
    method Reset()
      modifies this
      ensures progress == old(progress) && managerActive == old(managerActive)
      ensures overID == "" && dragID == ""
      ensures devices == old(devices) && keys == old(keys)
      ensures pagesTotal == old(pagesTotal) && pagesCurrent == old(pagesCurrent) && modalActive == old(modalActive)
    {
      overID := "";
      dragID := "";
    }
  }

  // ---------------------------------------------------------------------
  // Properties of the re-indexing
  // ---------------------------------------------------------------------

  /** The devices renumbering has not reached yet are unchanged. */
  lemma {:induction false} ReindexedUntouched(devices: map<string, Device>, order: seq<string>, n: nat)
    requires n <= |order| && (forall k :: k in order ==> k in devices)
    ensures forall k :: k in devices && k !in order[..n] ==> Reindexed(devices, order, n)[k] == devices[k]
  {
    if n > 0 {
      ReindexedUntouched(devices, order, n - 1);
      assert order[..n] == order[..n - 1] + [order[n - 1]];
    }
  }

  /** A step of renumbering changes only the device it reaches. */
  lemma ReindexedStep(devices: map<string, Device>, order: seq<string>, n: nat, k: string)
    requires 0 < n <= |order| && (forall k :: k in order ==> k in devices)
    requires k in devices && k != order[n - 1]
    ensures Reindexed(devices, order, n)[k] == Reindexed(devices, order, n - 1)[k]
  {
  }

  /** The device a step reaches, not renumbered before, takes the step's
      position as its index. */
  lemma ReindexedLast(devices: map<string, Device>, order: seq<string>, n: nat)
    requires 0 < n <= |order| && (forall k :: k in order ==> k in devices)
    requires order[n - 1] !in order[..n - 1]
    ensures Reindexed(devices, order, n)[order[n - 1]] == devices[order[n - 1]].(index := Some(n - 1))
  {
    ReindexedUntouched(devices, order, n - 1);
  }

  /** In a sequence without repeats, no element occurs before its own
      position. */
  lemma DistinctNotBefore(s: seq<string>, q: nat)
    requires q < |s| && Distinct(s)
    ensures s[q] !in s[..q]
  {
    forall i | 0 <= i < q ensures s[i] != s[q] {
    }
  }

  /** The device at position `p` of the order holds index `p` once
      renumbering has passed it. */
  lemma {:induction false} ReindexedAt(devices: map<string, Device>, order: seq<string>, n: nat, p: nat)
    requires p < n <= |order| && (forall k :: k in order ==> k in devices) && Distinct(order)
    ensures Reindexed(devices, order, n)[order[p]] == devices[order[p]].(index := Some(p))
  {
    if p == n - 1 {
      DistinctNotBefore(order, p);
      ReindexedLast(devices, order, n);
    } else {
      assert order[p] != order[n - 1];
      ReindexedAt(devices, order, n - 1, p);
      ReindexedStep(devices, order, n, order[p]);
    }
  }

  lemma ReindexedPositions(devices: map<string, Device>, order: seq<string>, n: nat)
    requires n <= |order| && (forall k :: k in order ==> k in devices) && Distinct(order)
    ensures forall p :: 0 <= p < n ==> Reindexed(devices, order, n)[order[p]] == devices[order[p]].(index := Some(p))
  {
    forall p | 0 <= p < n ensures Reindexed(devices, order, n)[order[p]] == devices[order[p]].(index := Some(p)) {
      ReindexedAt(devices, order, n, p);
    }
  }

  /** Changing only indexes does not change which devices are linked. */
  lemma {:induction false} LinkedKeysSameFlags(keys: seq<string>, d1: map<string, Device>, d2: map<string, Device>)
    requires forall k :: k in keys ==> k in d1 && k in d2 && d1[k].linked == d2[k].linked
    ensures LinkedKeys(keys, d1) == LinkedKeys(keys, d2)
  {
    if keys != [] {
      LinkedKeysSameFlags(keys[1..], d1, d2);
    }
  }

  /** Linking one more device grows the group by one. */
  lemma {:induction false} LinkedKeysGrow(keys: seq<string>, devices: map<string, Device>, id: string, d: Device)
    requires forall k :: k in keys ==> k in devices
    requires Distinct(keys) && id in keys && !devices[id].linked && d.linked
    ensures |LinkedKeys(keys, devices[id := d])| == |LinkedKeys(keys, devices)| + 1
  {
    var after := devices[id := d];
    if keys[0] == id {
      assert id !in keys[1..];
      LinkedKeysSameFlags(keys[1..], devices, after);
    } else {
      assert id in keys[1..];
      LinkedKeysGrow(keys[1..], devices, id, d);
    }
  }

  /** Where `unlink` puts every device, whatever order the sort leaves the
      group in: the k-th of the order gets index k, every other device is as
      `Unlinked` left it. */
  lemma UnlinkPlacement(keys: seq<string>, devices: map<string, Device>, id: string, order: seq<string>)
    requires KeyedBy(keys, devices) && id in devices
    requires GroupOrder(order, keys, Unlinked(devices, id))
    ensures var u := Unlinked(devices, id);
      var after := AfterUnlinkIn(devices, id, order);
      Distinct(order) &&
      (forall k :: k in order <==> k in keys && u[k].linked) &&
      (forall p :: 0 <= p < |order| ==> after[order[p]] == u[order[p]].(index := Some(p))) &&
      (forall k :: k in u && k !in order ==> after[k] == u[k]) &&
      LinkedKeys(keys, after) == LinkedKeys(keys, u) &&
      |order| == |LinkedKeys(keys, u)|
  {
    var u := Unlinked(devices, id);
    var after := Reindexed(u, order, |order|);
    GroupOrderFacts(order, keys, u);
    ReindexedPositions(u, order, |order|);
    ReindexedUntouched(u, order, |order|);
    assert order[..|order|] == order;
    LinkedKeysSameFlags(keys, u, after);
  }

  /** An arrangement of the linked keys has no repeats, holds exactly the
      linked keys, and is as long as the group. */
  lemma GroupOrderFacts(order: seq<string>, keys: seq<string>, devices: map<string, Device>)
    requires KeyedBy(keys, devices) && GroupOrder(order, keys, devices)
    ensures Distinct(order) && |order| == |LinkedKeys(keys, devices)|
    ensures forall k :: k in order <==> k in keys && devices[k].linked
  {
    var group := LinkedKeys(keys, devices);
    PermutationKeepsDistinct(order, group);
    assert |multiset(order)| == |order| && |multiset(group)| == |group|;
    assert forall k :: k in order <==> k in multiset(group);
  }

  /** After `unlink` the named device is out of the group with a null index
      and the rest of the group is numbered 0 .. k-1 without repeats, for
      every order the sort may leave the group in. */
  lemma UnlinkRenumbers(keys: seq<string>, devices: map<string, Device>, id: string, order: seq<string>)
    requires KeyedBy(keys, devices) && id in devices
    requires GroupOrder(order, keys, Unlinked(devices, id))
    ensures var after := AfterUnlinkIn(devices, id, order);
      after.Keys == devices.Keys && !after[id].linked && after[id].index.None? &&
      WellIndexed(keys, after)
  {
    var after := AfterUnlinkIn(devices, id, order);
    UnlinkPlacement(keys, devices, id, order);
    var group := LinkedKeys(keys, after);
    assert forall k :: k in group <==> k in order;
    assert forall p :: 0 <= p < |order| ==> after[order[p]].index == Some(p);
    PositionsNumbered(after, order, group);
  }

  /** Unlinking as written leaves the group numbered 0 .. k-1. */
  lemma UnlinkAsWrittenRenumbers(keys: seq<string>, devices: map<string, Device>, id: string)
    requires KeyedBy(keys, devices) && id in devices
    ensures var after := AfterUnlink(keys, devices, id);
      after.Keys == devices.Keys && !after[id].linked && after[id].index.None? &&
      WellIndexed(keys, after)
  {
    UnlinkRenumbers(keys, devices, id, UnlinkOrderAsWritten(keys, Unlinked(devices, id)));
  }

  /** Unlinking as written numbers the group in key order: a device still
      linked gets as its index the number of linked devices before it in
      key order, so of two such devices the earlier one gets the smaller
      index. */
  lemma UnlinkAsWrittenKeyOrder(keys: seq<string>, devices: map<string, Device>, id: string, i: nat, j: nat)
    requires KeyedBy(keys, devices) && id in devices
    requires i < j < |keys|
    requires AfterUnlink(keys, devices, id)[keys[i]].linked && AfterUnlink(keys, devices, id)[keys[j]].linked
    ensures AfterUnlink(keys, devices, id)[keys[i]].index == Some(|LinkedKeys(keys[..i], Unlinked(devices, id))|)
    ensures AfterUnlink(keys, devices, id)[keys[j]].index == Some(|LinkedKeys(keys[..j], Unlinked(devices, id))|)
    ensures |LinkedKeys(keys[..i], Unlinked(devices, id))| < |LinkedKeys(keys[..j], Unlinked(devices, id))|
  {
    var u := Unlinked(devices, id);
    var order := UnlinkOrderAsWritten(keys, u);
    UnlinkPlacement(keys, devices, id, order);
    LinkedAt(keys, u, i);
    LinkedAt(keys, u, j);
    LinkedBefore(keys, u, i, j);
  }

  /** Filtering distributes over concatenation. */
  lemma {:induction false} LinkedKeysAppend(a: seq<string>, b: seq<string>, devices: map<string, Device>)
    requires forall k :: k in a + b ==> k in devices
    ensures LinkedKeys(a + b, devices) == LinkedKeys(a, devices) + LinkedKeys(b, devices)
  {
    if a == [] {
      assert a + b == b;
    } else {
      assert (a + b)[1..] == a[1..] + b;
      LinkedKeysAppend(a[1..], b, devices);
    }
  }

  /** A linked key sits in the group at the count of linked keys before it. */
  lemma LinkedAt(keys: seq<string>, devices: map<string, Device>, i: nat)
    requires forall k :: k in keys ==> k in devices
    requires i < |keys| && devices[keys[i]].linked
    ensures |LinkedKeys(keys[..i], devices)| < |LinkedKeys(keys, devices)|
    ensures LinkedKeys(keys, devices)[|LinkedKeys(keys[..i], devices)|] == keys[i]
  {
    assert keys == keys[..i] + keys[i..];
    LinkedKeysAppend(keys[..i], keys[i..], devices);
    assert LinkedKeys(keys[i..], devices)[0] == keys[i];
  }

  /** A linked key before position `j` adds to the count of linked keys
      before `j`. */
  lemma LinkedBefore(keys: seq<string>, devices: map<string, Device>, i: nat, j: nat)
    requires forall k :: k in keys ==> k in devices
    requires i < j <= |keys| && devices[keys[i]].linked
    ensures |LinkedKeys(keys[..i], devices)| < |LinkedKeys(keys[..j], devices)|
  {
    assert keys[..j] == keys[..i] + keys[i..j];
    LinkedKeysAppend(keys[..i], keys[i..j], devices);
    assert keys[i..j][0] == keys[i];
    assert LinkedKeys(keys[i..j], devices) != [];
  }

  /** Numbering by position: when the group is the order's devices and the
      device at each position holds that position, the group is numbered
      0 .. k-1 without repeats. */
  lemma PositionsNumbered(after: map<string, Device>, order: seq<string>, group: seq<string>)
    requires forall k :: k in order ==> k in after
    requires forall p :: 0 <= p < |order| ==> after[order[p]].index == Some(p)
    requires forall k :: k in group <==> k in order
    requires |group| == |order|
    ensures forall k :: k in group ==> k in after && after[k].index.Some? && 0 <= after[k].index.value < |group|
    ensures forall a, b :: a in group && b in group && a != b ==> after[a].index != after[b].index
  {
    forall k | k in group ensures k in after && after[k].index.Some? && 0 <= after[k].index.value < |group| {
      var p :| 0 <= p < |order| && order[p] == k;
    }
    forall a, b | a in group && b in group && a != b ensures after[a].index != after[b].index {
      var p :| 0 <= p < |order| && order[p] == a;
      var q :| 0 <= q < |order| && order[q] == b;
    }
  }

  /** Corrected, `unlink` keeps the group's order by index: of two devices
      still linked, the one with the smaller index before keeps the smaller
      index. */
  lemma UnlinkKeepsOrder(keys: seq<string>, devices: map<string, Device>, id: string, a: string, b: string)
    requires KeyedBy(keys, devices) && id in devices
    requires a in devices && b in devices
    requires AfterUnlinkByIndex(keys, devices, id)[a].linked && AfterUnlinkByIndex(keys, devices, id)[b].linked
    requires SortKey(devices[a]) < SortKey(devices[b])
    ensures AfterUnlinkByIndex(keys, devices, id)[a].index.Some? && AfterUnlinkByIndex(keys, devices, id)[b].index.Some?
    ensures AfterUnlinkByIndex(keys, devices, id)[a].index.value < AfterUnlinkByIndex(keys, devices, id)[b].index.value
  {
    var u := Unlinked(devices, id);
    var order := UnlinkOrder(keys, u);
    UnlinkPlacement(keys, devices, id, order);
    var p :| 0 <= p < |order| && order[p] == a;
    var q :| 0 <= q < |order| && order[q] == b;
    assert u[a] == devices[a] && u[b] == devices[b];
    SortedRespectsIndex(order, u, p, q);
  }

  /** `unlink` changes no link flag but the named device's, and no unlinked
      device at all, whatever order the sort leaves the group in. */
  lemma UnlinkTouchesOnlyGroup(keys: seq<string>, devices: map<string, Device>, id: string, order: seq<string>)
    requires KeyedBy(keys, devices) && id in devices
    requires GroupOrder(order, keys, Unlinked(devices, id))
    ensures var after := AfterUnlinkIn(devices, id, order);
      (forall k :: k in devices && k != id ==> after[k].linked == devices[k].linked) &&
      (forall k :: k in devices && k != id && !devices[k].linked ==> after[k] == devices[k])
  {
    UnlinkPlacement(keys, devices, id, order);
  }

  /** `link` keeps a numbered group numbered: the new member takes the next
      free index. */
  lemma LinkKeepsWellIndexed(keys: seq<string>, devices: map<string, Device>, id: string)
    requires KeyedBy(keys, devices) && WellIndexed(keys, devices)
    requires id in devices && !devices[id].linked
    ensures var after := devices[id := devices[id].(linked := true, index := Some(|LinkedKeys(keys, devices)|))];
      WellIndexed(keys, after) && |LinkedKeys(keys, after)| == |LinkedKeys(keys, devices)| + 1
  {
    var n := |LinkedKeys(keys, devices)|;
    var after := devices[id := devices[id].(linked := true, index := Some(n))];
    LinkedKeysGrow(keys, devices, id, after[id]);
  }

  // ---------------------------------------------------------------------
  // Finding: the re-indexing order as written
  // ---------------------------------------------------------------------

  /** Two linked devices: "a" at index 1 comes before "b" at index 0 in key
      order. Renumbering as written puts "a" first and so swaps the order
      the user arranged, while the by-index order keeps "b" first. */
  lemma UnlinkOrderAsWrittenSwapsGroup()
    ensures var devices := map["a" := Device("a", true, Some(1), false, ""),
                               "b" := Device("b", true, Some(0), false, "")];
      UnlinkOrderAsWritten(["a", "b"], devices) == ["a", "b"] &&
      UnlinkOrder(["a", "b"], devices) == ["b", "a"]
  {
    var a := Device("a", true, Some(1), false, "");
    var b := Device("b", true, Some(0), false, "");
    var devices := map["a" := a, "b" := b];
    assert devices["a"] == a && devices["b"] == b;
    var keys := ["a", "b"];
    assert keys[1..] == ["b"];
    assert LinkedKeys(["b"], devices) == ["b"];
    assert LinkedKeys(keys, devices) == ["a", "b"];
    assert SortByIndex(["b"], devices) == ["b"];
    assert SortByIndex(keys, devices) == InsertByIndex("a", ["b"], devices);
  }
}
