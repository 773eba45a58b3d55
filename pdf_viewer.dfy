/** The PDF viewer activity's device-set reconciler: joining and leaving a
    device set, moving the page of this device or of the whole linked group,
    and adopting the set when another device changes it.  Writes to the
    database are recorded in a log; pages handed to the PDF view are
    recorded in another. */
module PdfViewer {
  import opened Wrappers
  import opened Vdl

  /** A write this activity issues to the device-set table. */
  datatype DbWrite = UpdateDeviceSet(ds: DeviceSet) | DeleteDeviceSet(id: string)

  // ---------------------------------------------------------------------
  // Specification functions over a device map
  // ---------------------------------------------------------------------

  /** The entries whose device is linked, under the same ids. */
  function LinkedDevices(devices: map<string, DeviceMeta>): (r: map<string, DeviceMeta>)
    ensures forall id :: id in r <==> id in devices && devices[id].linked
    ensures forall id :: id in r ==> r[id] == devices[id]
  {
    map id | id in devices && devices[id].linked :: devices[id]
  }

  /** Every linked device moved by `delta` pages; unlinked devices untouched. */
  function ShiftLinked(devices: map<string, DeviceMeta>, delta: int): (r: map<string, DeviceMeta>)
    ensures r.Keys == devices.Keys
  {
    map id | id in devices :: if devices[id].linked then devices[id].(page := devices[id].page + delta) else devices[id]
  }

  /** No page holds the value -1 that the extremum loops use as "none yet". */
  ghost predicate NoSentinelPage(devices: map<string, DeviceMeta>)
  {
    forall id :: id in devices ==> devices[id].page != -1
  }

  /** `p` is the page of some device and no device has a smaller one. */
  ghost predicate IsSmallestPage(devices: map<string, DeviceMeta>, p: int)
  {
    (exists id :: id in devices && devices[id].page == p) &&
    forall id :: id in devices ==> p <= devices[id].page
  }

  /** `p` is the page of some device and no device has a larger one. */
  ghost predicate IsLargestPage(devices: map<string, DeviceMeta>, p: int)
  {
    (exists id :: id in devices && devices[id].page == p) &&
    forall id :: id in devices ==> devices[id].page <= p
  }

  /** Every linked device is past the first page. */
  ghost predicate LinkedAboveFirst(devices: map<string, DeviceMeta>)
  {
    forall id :: id in devices && devices[id].linked ==> devices[id].page > 1
  }

  /** Every linked device is before the last page. */
  ghost predicate LinkedBelowLast(devices: map<string, DeviceMeta>, pageCount: int)
  {
    forall id :: id in devices && devices[id].linked ==> devices[id].page < pageCount
  }

  /** Every device shows a page of the document. */
  ghost predicate PagesInRange(devices: map<string, DeviceMeta>, pageCount: int)
  {
    forall id :: id in devices ==> 1 <= devices[id].page <= pageCount
  }

  // ---------------------------------------------------------------------
  // Record construction
  // ---------------------------------------------------------------------

  /** `createDeviceMeta`: this device on page 1, zoom 1, linked. */
  function CreateDeviceMeta(deviceId: string): (dm: DeviceMeta)
    ensures dm.deviceId == deviceId && dm.page == 1 && dm.zoom == 1 && dm.linked
  {
    DeviceMeta(deviceId, 1, 1, true)
  }

  /** `createDeviceSet`: a fresh set for a file, with no devices.  The random
      id comes from the caller. */
  function CreateDeviceSet(id: string, fileId: string): (ds: DeviceSet)
    ensures ds.id == id && ds.fileId == fileId && ds.devices == map[]
  {
    DeviceSet(id, fileId, map[])
  }

  /** Joining keeps every page inside the document: the joiner starts on
      page 1, and it enters the linked group with its fresh entry. */
  lemma JoinKeepsPagesInRange(devices: map<string, DeviceMeta>, deviceId: string, pageCount: int)
    requires pageCount >= 1 && PagesInRange(devices, pageCount)
    ensures var joined := devices[deviceId := CreateDeviceMeta(deviceId)];
      PagesInRange(joined, pageCount) &&
      deviceId in LinkedDevices(joined) && LinkedDevices(joined)[deviceId] == CreateDeviceMeta(deviceId)
  {
  }

  /** A set made for a new file and joined by this device holds exactly this
      device, linked, on page 1, so the group's smallest and largest page
      are both 1. */
  lemma NewSetJoined(id: string, fileId: string, deviceId: string)
    ensures var ds := CreateDeviceSet(id, fileId);
      var joined := ds.devices[deviceId := CreateDeviceMeta(deviceId)];
      ds.fileId == fileId && joined.Keys == {deviceId} && LinkedDevices(joined) == joined &&
      IsSmallestPage(joined, 1) && IsLargestPage(joined, 1)
  {
    var joined := CreateDeviceSet(id, fileId).devices[deviceId := CreateDeviceMeta(deviceId)];
    assert LinkedDevices(joined) == joined;
  }

  // ---------------------------------------------------------------------
  // The extremum loops
  // ---------------------------------------------------------------------

  /** `getSmallestPage`: -1 for no devices, otherwise (when no page is itself
      -1) the smallest page.  The map is visited in no particular order. */
  method GetSmallestPage(devices: map<string, DeviceMeta>) returns (result: int)
    ensures devices == map[] ==> result == -1
    ensures result == -1 || exists id :: id in devices && devices[id].page == result
    ensures devices != map[] && NoSentinelPage(devices) ==> IsSmallestPage(devices, result)
  {
    result := -1;
    var remaining := devices.Keys;
    while remaining != {}
      invariant remaining <= devices.Keys
      invariant result == -1 || exists id :: id in devices && devices[id].page == result
      invariant remaining == devices.Keys ==> result == -1
      invariant NoSentinelPage(devices) && remaining != devices.Keys ==>
                  result != -1 && (exists id :: id in devices && devices[id].page == result) &&
                  forall id :: id in devices && id !in remaining ==> result <= devices[id].page
      decreases remaining
    {
      var id :| id in remaining;
      if result == -1 || devices[id].page < result {
        result := devices[id].page;
      }
      remaining := remaining - {id};
    }
  }

  /** `getLargestPage`: -1 for no devices, otherwise (when no page is itself
      -1) the largest page. */
  method GetLargestPage(devices: map<string, DeviceMeta>) returns (result: int)
    ensures devices == map[] ==> result == -1
    ensures result == -1 || exists id :: id in devices && devices[id].page == result
    ensures devices != map[] && NoSentinelPage(devices) ==> IsLargestPage(devices, result)
  {
    result := -1;
    var remaining := devices.Keys;
    while remaining != {}
      invariant remaining <= devices.Keys
      invariant result == -1 || exists id :: id in devices && devices[id].page == result
      invariant remaining == devices.Keys ==> result == -1
      invariant NoSentinelPage(devices) && remaining != devices.Keys ==>
                  result != -1 && (exists id :: id in devices && devices[id].page == result) &&
                  forall id :: id in devices && id !in remaining ==> devices[id].page <= result
      decreases remaining
    {
      var id :| id in remaining;
      if result == -1 || devices[id].page > result {
        result := devices[id].page;
      }
      remaining := remaining - {id};
    }
  }

  /** The group shift loop of `prevPage`/`nextPage`: `delta` added to the
      page of every linked device, visited in no particular order. */
  method ShiftPages(devices: map<string, DeviceMeta>, delta: int) returns (shifted: map<string, DeviceMeta>)
    ensures shifted == ShiftLinked(devices, delta)
  {
    var linked := LinkedDevices(devices);
    shifted := devices;
    var remaining := linked.Keys;
    while remaining != {}
      invariant remaining <= linked.Keys
      invariant shifted.Keys == devices.Keys
      invariant forall id :: id in devices ==>
                  shifted[id] == if id in linked && id !in remaining then devices[id].(page := devices[id].page + delta) else devices[id]
      decreases remaining
    {
      var id :| id in remaining;
      shifted := shifted[id := shifted[id].(page := shifted[id].page + delta)];
      remaining := remaining - {id};
    }
    assert shifted == ShiftLinked(devices, delta);
  }

  // ---------------------------------------------------------------------
  // The activity
  // ---------------------------------------------------------------------

  class Viewer {
    /** This device's id (`DeviceInfoFactory.getDeviceId`). */
    const deviceId: string
    /** `mCurrentDS`: the joined device set, if any. */
    var current: Option<DeviceSet>
    /** Every `updateDeviceSet` / `deleteDeviceSet` issued, oldest first. */
    var writes: seq<DbWrite>
    /** Every page handed to `mPdfView.setPage`, oldest first. */
    var shownPages: seq<int>

    constructor (deviceId: string)
      ensures this.deviceId == deviceId
      ensures current.None? && writes == [] && shownPages == []
    {
      this.deviceId := deviceId;
      current := None;
      writes := [];
      shownPages := [];
    }

    /** `getDeviceMeta`: this device's entry in the current set, or null. */
    function GetDeviceMeta(): (r: Option<DeviceMeta>)
      reads this
      ensures r.Some? <==> current.Some? && deviceId in current.value.devices
      ensures r.Some? ==> r.value == current.value.devices[deviceId]
    {
      if current.None? || deviceId !in current.value.devices then None
      else Some(current.value.devices[deviceId])
    }

    /** `getLinkedDevices`: null without a current set. */
    method GetLinkedDevices() returns (r: Option<map<string, DeviceMeta>>)
      ensures current.None? ==> r.None?
      ensures current.Some? ==> r == Some(LinkedDevices(current.value.devices))
    {
      if current.None? {
        return None;
      }
      var devices := current.value.devices;
      var result: map<string, DeviceMeta> := map[];
      var remaining := devices.Keys;
      while remaining != {}
        invariant remaining <= devices.Keys
        invariant forall id :: id in result <==> id in devices && id !in remaining && devices[id].linked
        invariant forall id :: id in result ==> result[id] == devices[id]
        decreases remaining
      {
        var id :| id in remaining;
        var dm := devices[id];
        if dm.linked {
          result := result[id := dm];
        }
        remaining := remaining - {id};
      }
      assert result == LinkedDevices(devices);
      return Some(result);
    }

    /** The map part of `joinDeviceSet`: when the file bytes were read, this
        device's fresh entry is stored (replacing any old one), the set is
        written and becomes current; otherwise nothing happens. */
    method JoinDeviceSet(ds: DeviceSet, bytesLoaded: bool)
      modifies this
      ensures !bytesLoaded ==> current == old(current) && writes == old(writes)
      ensures bytesLoaded ==>
                var joined := ds.(devices := ds.devices[deviceId := CreateDeviceMeta(deviceId)]);
                current == Some(joined) && writes == old(writes) + [UpdateDeviceSet(joined)]
      ensures shownPages == old(shownPages)
    {
      if !bytesLoaded {
        return;
      }
      var dm := CreateDeviceMeta(deviceId);
      var joined := ds.(devices := ds.devices[dm.deviceId := dm]);
      writes := writes + [UpdateDeviceSet(joined)];
      current := Some(joined);
    }

    /** `leaveDeviceSet`: this device's entry is removed; the last device to
        leave deletes the set, any other updates it; no set is current
        afterwards. */
    method LeaveDeviceSet()
      modifies this
      ensures current.None?
      ensures old(current).None? ==> writes == old(writes)
      ensures old(current).Some? ==>
                var left := old(current).value.devices - {deviceId};
                writes == old(writes) +
                  [if left == map[] then DeleteDeviceSet(old(current).value.id)
                   else UpdateDeviceSet(old(current).value.(devices := left))]
      ensures shownPages == old(shownPages)
    {
      if current.None? {
        return;
      }
      var ds := current.value;
      var devices := ds.devices - {deviceId};
      if devices == map[] {
        writes := writes + [DeleteDeviceSet(ds.id)];
      } else {
        writes := writes + [UpdateDeviceSet(ds.(devices := devices))];
      }
      current := None;
    }

    /** `prevPage`.  Without a set nothing happens.  An unlinked device only
        moves its own page back (not past 1) and writes nothing.  A linked
        device moves the whole linked group back, in one write, when the
        smallest linked page is past 1.  `npe` is the null dereference
        Java raises when this device has no entry. */
    method PrevPage() returns (npe: bool)
      modifies this
      ensures old(current).None? ==> !npe && current == old(current) && writes == old(writes)
      ensures old(current).Some? && deviceId !in old(current).value.devices ==>
                npe && current == old(current) && writes == old(writes)
      ensures old(current).Some? && deviceId in old(current).value.devices && !old(current).value.devices[deviceId].linked ==>
                var ds := old(current).value;
                var dm := ds.devices[deviceId];
                !npe && writes == old(writes) &&
                current == Some(ds.(devices := ds.devices[deviceId := dm.(page := if dm.page > 1 then dm.page - 1 else dm.page)]))
      ensures old(current).Some? && deviceId in old(current).value.devices && old(current).value.devices[deviceId].linked ==>
                var ds := old(current).value;
                !npe &&
                ((current == Some(ds.(devices := ShiftLinked(ds.devices, -1))) && writes == old(writes) + [UpdateDeviceSet(current.value)]) ||
                 (current == old(current) && writes == old(writes))) &&
                (NoSentinelPage(LinkedDevices(ds.devices)) && LinkedAboveFirst(ds.devices) ==>
                   current == Some(ds.(devices := ShiftLinked(ds.devices, -1)))) &&
                (NoSentinelPage(LinkedDevices(ds.devices)) && !LinkedAboveFirst(ds.devices) ==>
                   current == old(current) && writes == old(writes))
      ensures shownPages == old(shownPages)
    {
      npe := false;
      if current.None? {
        return;
      }
      var ds := current.value;
      var me := GetDeviceMeta();
      if me.None? {
        npe := true;
        return;
      }
      var dm := me.value;
      if !dm.linked {
        if dm.page > 1 {
          current := Some(ds.(devices := ds.devices[deviceId := dm.(page := dm.page - 1)]));
        } else {
          assert ds.devices[deviceId := dm] == ds.devices;
        }
        return;
      }
      var linked := GetLinkedDevices();
      var smallestPage := GetSmallestPage(linked.value);
      assert deviceId in linked.value;
      if smallestPage > 1 {
        assert NoSentinelPage(linked.value) ==> LinkedAboveFirst(ds.devices);
        var shifted := ShiftPages(ds.devices, -1);
        current := Some(ds.(devices := shifted));
        writes := writes + [UpdateDeviceSet(current.value)];
      } else {
        assert NoSentinelPage(linked.value) ==> !LinkedAboveFirst(ds.devices);
      }
    }

    /** `nextPage`: the mirror of `PrevPage` against the page count the PDF
        view reports. */
    method NextPage(pageCount: int) returns (npe: bool)
      modifies this
      ensures old(current).None? ==> !npe && current == old(current) && writes == old(writes)
      ensures old(current).Some? && deviceId !in old(current).value.devices ==>
                npe && current == old(current) && writes == old(writes)
      ensures old(current).Some? && deviceId in old(current).value.devices && !old(current).value.devices[deviceId].linked ==>
                var ds := old(current).value;
                var dm := ds.devices[deviceId];
                !npe && writes == old(writes) &&
                current == Some(ds.(devices := ds.devices[deviceId := dm.(page := if dm.page < pageCount then dm.page + 1 else dm.page)]))
      ensures old(current).Some? && deviceId in old(current).value.devices && old(current).value.devices[deviceId].linked ==>
                var ds := old(current).value;
                !npe &&
                ((current == Some(ds.(devices := ShiftLinked(ds.devices, 1))) && writes == old(writes) + [UpdateDeviceSet(current.value)]) ||
                 (current == old(current) && writes == old(writes))) &&
                (NoSentinelPage(LinkedDevices(ds.devices)) && LinkedBelowLast(ds.devices, pageCount) ==>
                   current == Some(ds.(devices := ShiftLinked(ds.devices, 1)))) &&
                (NoSentinelPage(LinkedDevices(ds.devices)) && !LinkedBelowLast(ds.devices, pageCount) ==>
                   current == old(current) && writes == old(writes))
      ensures shownPages == old(shownPages)
    {
      npe := false;
      if current.None? {
        return;
      }
      var ds := current.value;
      var me := GetDeviceMeta();
      if me.None? {
        npe := true;
        return;
      }
      var dm := me.value;
      if !dm.linked {
        if dm.page < pageCount {
          current := Some(ds.(devices := ds.devices[deviceId := dm.(page := dm.page + 1)]));
        } else {
          assert ds.devices[deviceId := dm] == ds.devices;
        }
        return;
      }
      var linked := GetLinkedDevices();
      var largestPage := GetLargestPage(linked.value);
      assert deviceId in linked.value;
      if largestPage < pageCount {
        assert NoSentinelPage(linked.value) ==> LinkedBelowLast(ds.devices, pageCount);
        var shifted := ShiftPages(ds.devices, 1);
        current := Some(ds.(devices := shifted));
        writes := writes + [UpdateDeviceSet(current.value)];
      } else {
        assert NoSentinelPage(linked.value) ==> !LinkedBelowLast(ds.devices, pageCount);
      }
    }

    /** The device-set list listener's `notifyItemChanged`, given the changed
        set.  It is adopted only when a set is joined and the ids agree; the
        view then shows this device's page (`npe` when it has no entry, after
        the set has been adopted). */
    method NotifyItemChanged(changed: DeviceSet) returns (npe: bool)
      modifies this
      ensures old(current).None? || changed.id != old(current).value.id ==>
                !npe && current == old(current) && shownPages == old(shownPages)
      ensures old(current).Some? && changed.id == old(current).value.id ==>
                current == Some(changed) &&
                (npe <==> deviceId !in changed.devices) &&
                shownPages == old(shownPages) + (if npe then [] else [changed.devices[deviceId].page])
      ensures writes == old(writes)
    {
      npe := false;
      if current.None? {
        return;
      }
      if changed.id != current.value.id {
        return;
      }
      current := Some(changed);
      var me := GetDeviceMeta();
      if me.None? {
        npe := true;
        return;
      }
      shownPages := shownPages + [me.value.page];
    }
  }

  // ---------------------------------------------------------------------
  // Properties
  // ---------------------------------------------------------------------

  /** A group shift back, taken only when every linked page is past 1, keeps
      every page of the document in range and moves no unlinked device. */
  lemma ShiftBackKeepsPagesInRange(devices: map<string, DeviceMeta>, pageCount: int)
    requires PagesInRange(devices, pageCount) && LinkedAboveFirst(devices)
    ensures PagesInRange(ShiftLinked(devices, -1), pageCount)
    ensures forall id :: id in devices && !devices[id].linked ==> ShiftLinked(devices, -1)[id] == devices[id]
    ensures forall id :: id in devices && devices[id].linked ==> ShiftLinked(devices, -1)[id].page == devices[id].page - 1
  {
  }

  /** A group shift forward, taken only when every linked page is before the
      last, keeps every page of the document in range. */
  lemma ShiftForwardKeepsPagesInRange(devices: map<string, DeviceMeta>, pageCount: int)
    requires PagesInRange(devices, pageCount) && LinkedBelowLast(devices, pageCount)
    ensures PagesInRange(ShiftLinked(devices, 1), pageCount)
    ensures forall id :: id in devices && !devices[id].linked ==> ShiftLinked(devices, 1)[id] == devices[id]
    ensures forall id :: id in devices && devices[id].linked ==> ShiftLinked(devices, 1)[id].page == devices[id].page + 1
  {
  }

  /** The shift back undoes the shift forward. */
  lemma ShiftRoundTrip(devices: map<string, DeviceMeta>, delta: int)
    ensures ShiftLinked(ShiftLinked(devices, delta), -delta) == devices
  {
    var back := ShiftLinked(ShiftLinked(devices, delta), -delta);
    assert forall id :: id in devices ==> back[id] == devices[id];
  }

  /** Pages in range stay in range after any prev/next of an unlinked device. */
  lemma OwnPageStepKeepsRange(devices: map<string, DeviceMeta>, id: string, pageCount: int)
    requires PagesInRange(devices, pageCount) && id in devices
    ensures var dm := devices[id];
      PagesInRange(devices[id := dm.(page := if dm.page > 1 then dm.page - 1 else dm.page)], pageCount) &&
      PagesInRange(devices[id := dm.(page := if dm.page < pageCount then dm.page + 1 else dm.page)], pageCount)
  {
  }
}
