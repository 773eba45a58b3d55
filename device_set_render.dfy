/** The device-set component's view logic: which list the manager shows each
    device in and in what order, how one device item is drawn, and when the
    progress bar and the page controls are hidden. */
module WebDeviceSetRender {
  import opened WebDevice
  import opened WebDeviceSet

  /** The unlinked devices' keys, in key order. */
  function UnlinkedKeys(keys: seq<string>, devices: map<string, Device>): (r: seq<string>)
    requires forall k :: k in keys ==> k in devices
    ensures forall k :: k in r <==> k in keys && !devices[k].linked
  {
    if keys == [] then []
    else
      var rest := UnlinkedKeys(keys[1..], devices);
      assert forall k :: k in keys[1..] ==> k in keys;
      (if devices[keys[0]].linked then [] else [keys[0]]) + rest
  }

  lemma {:induction false} LinkedSnoc(keys: seq<string>, k: string, devices: map<string, Device>)
    requires forall x :: x in keys ==> x in devices
    requires k in devices
    ensures LinkedKeys(keys + [k], devices) == LinkedKeys(keys, devices) + (if devices[k].linked then [k] else [])
  {
    if keys == [] {
      assert [k][1..] == [];
      assert keys + [k] == [k];
    } else {
      var ks := keys + [k];
      assert ks[0] == keys[0];
      assert ks[1..] == keys[1..] + [k];
      LinkedSnoc(keys[1..], k, devices);
    }
  }

  lemma {:induction false} UnlinkedSnoc(keys: seq<string>, k: string, devices: map<string, Device>)
    requires forall x :: x in keys ==> x in devices
    requires k in devices
    ensures UnlinkedKeys(keys + [k], devices) == UnlinkedKeys(keys, devices) + (if devices[k].linked then [] else [k])
  {
    if keys == [] {
      assert [k][1..] == [];
      assert keys + [k] == [k];
    } else {
      var ks := keys + [k];
      assert ks[0] == keys[0];
      assert ks[1..] == keys[1..] + [k];
      UnlinkedSnoc(keys[1..], k, devices);
    }
  }

  lemma PrefixSnoc<T>(s: seq<T>, i: nat)
    requires i < |s|
    ensures s[..i + 1] == s[..i] + [s[i]]
  {
  }

  /** The partition loop and the sort of `manager`: the linked devices
      ascending by index, the unlinked ones in key order. */
  method Manager(keys: seq<string>, devices: map<string, Device>) returns (linked: seq<string>, unlinked: seq<string>)
    requires forall k :: k in keys ==> k in devices
    ensures linked == SortByIndex(LinkedKeys(keys, devices), devices)
    ensures unlinked == UnlinkedKeys(keys, devices)
  {
    linked := [];
    unlinked := [];
    var i := 0;
    while i < |keys|
      invariant 0 <= i <= |keys|
      invariant linked == LinkedKeys(keys[..i], devices)
      invariant unlinked == UnlinkedKeys(keys[..i], devices)
    {
      var id := keys[i];
      var device := devices[id];
      PrefixSnoc(keys, i);
      LinkedSnoc(keys[..i], id, devices);
      UnlinkedSnoc(keys[..i], id, devices);
      if device.linked {
        linked := linked + [id];
      } else {
        unlinked := unlinked + [id];
      }
      i := i + 1;
    }
    assert keys[..i] == keys;
    linked := SortByIndex(linked, devices);
  }

  /** Every device of the set lands in exactly one of the manager's lists,
      the one its `linked` flag names, and the linked list is ascending by
      index. */
  lemma ManagerPartitions(keys: seq<string>, devices: map<string, Device>)
    requires forall k :: k in keys ==> k in devices
    ensures var linked := SortByIndex(LinkedKeys(keys, devices), devices);
      var unlinked := UnlinkedKeys(keys, devices);
      (forall k :: k in keys ==> (k in linked <==> devices[k].linked) && (k in unlinked <==> !devices[k].linked)) &&
      (forall k :: k in linked ==> k !in unlinked) &&
      SortedByIndex(linked, devices)
  {
  }

  /** What an item of the manager's lists is drawn as. */
  datatype ItemView =
    | Placeholder(id: string)
    | Tile(id: string, classNames: seq<string>, reorderTarget: bool)

  /** `item`: the dragged device is drawn as a placeholder; any other gets
      the 'over' class while something is dragged over, 'current' for this
      browser's device, and, when linked, the reorder dragover handler. */
  function Item(device: Device, dragID: string, overID: string): (v: ItemView)
    ensures v.Placeholder? <==> dragID == device.id
    ensures v.id == device.id
    ensures v.Tile? ==> ("over" in v.classNames <==> overID != "")
    ensures v.Tile? ==> ("current" in v.classNames <==> device.current)
    ensures v.Tile? ==> (v.reorderTarget <==> device.linked)
  {
    if dragID == device.id then Placeholder(device.id)
    else
      Tile(device.id,
           (if overID != "" then ["over"] else []) + (if device.current then ["current"] else []),
           device.linked)
  }

  /** `progress`: the bar is hidden once loading reached 100 percent. */
  function ProgressHidden(progress: int): (hidden: bool)
    ensures hidden <==> progress >= 100
  {
    progress >= 100
  }

  /** `controls`: hidden until loading reached 100 percent. */
  function ControlsHidden(progress: int): (hidden: bool)
    ensures hidden <==> progress < 100
  {
    progress < 100
  }

  /** Exactly one of the progress bar and the page controls is shown. */
  lemma ProgressOrControls(progress: int)
    ensures ProgressHidden(progress) != ControlsHidden(progress)
  {
  }
}
