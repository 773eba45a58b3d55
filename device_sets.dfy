/** The web client's collection of device sets and its `add` / `remove`
    channels: only PDF files start a new set, holding this browser as its
    one device. */
module WebDeviceSets {
  import opened Wrappers
  import opened WebDevice

  /** The dropped or picked file, as far as `add` reads it. */
  datatype Blob = Blob(name: string, mimeType: string)

  /** A device set as the collection holds it. */
  datatype SetEntry = SetEntry(id: string, file: Option<Blob>, devices: map<string, Device>)

  /** The error `add` reports for a file that is not a PDF. */
  function NotPdfMessage(name: string): (m: string)
    ensures m == "The file \"" + name + "\" is not a PDF."
  {
    "The file \"" + name + "\" is not a PDF."
  }

  /** The set `add` creates for a PDF: the freshly generated set id, and this
      browser as its only device, current and of type 'Browser'. */
  function NewSet(setId: string, deviceId: string, blob: Blob): (e: SetEntry)
    ensures e.id == setId && e.file == Some(blob)
    ensures e.devices.Keys == {deviceId}
    ensures e.devices[deviceId].current && e.devices[deviceId].deviceType == "Browser"
    ensures e.devices[deviceId].linked && e.devices[deviceId].index == Some(0)
  {
    SetEntry(setId, Some(blob), map[deviceId := DeviceState(deviceId, true, "Browser")])
  }

  class DeviceSetsState {
    /** The error observable; `None` is null. */
    var error: Option<string>
    /** The current set's id; `None` is null. */
    var current: Option<string>
    var collection: map<string, SetEntry>

    /** `state(options)`: an empty collection unless one is given, no current
        set, no error. */
    constructor (collection: Option<map<string, SetEntry>>)
      ensures this.collection == if collection.Some? then collection.value else map[]
      ensures current.None? && error.None?
    {
      this.collection := if collection.Some? then collection.value else map[];
      current := None;
      error := None;
    }

    /** `add`.  `setId` and `deviceId` are the uuids the new set and device
        state generate. */
    method Add(blob: Option<Blob>, setId: string, deviceId: string)
      modifies this
      ensures blob.None? ==> collection == old(collection) && error == old(error)
      ensures blob.Some? && blob.value.mimeType != "application/pdf" ==>
                collection == old(collection) && error == Some(NotPdfMessage(blob.value.name))
      ensures blob.Some? && blob.value.mimeType == "application/pdf" ==>
                collection == old(collection)[setId := NewSet(setId, deviceId, blob.value)] &&
                error == old(error)
      ensures current == old(current)
    {
      if blob.None? {
        return;
      }
      var b := blob.value;
      if b.mimeType != "application/pdf" {
        error := Some(NotPdfMessage(b.name));
        return;
      }
      var d := DeviceState(deviceId, true, "Browser");
      var ds := SetEntry(setId, Some(b), map[]);
      ds := ds.(devices := ds.devices[d.id := d]);
      collection := collection[ds.id := ds];
    }

    /** `remove`: deletes the set under that key and nothing else. */
    method Remove(id: string)
      modifies this
      ensures collection == old(collection) - {id}
      ensures error == old(error) && current == old(current)
    {
      collection := collection - {id};
    }
  }

  /** Adding a PDF under a fresh set id grows the collection by exactly one
      set and keeps every other set. */
  lemma AddGrowsByOne(collection: map<string, SetEntry>, setId: string, deviceId: string, blob: Blob)
    requires setId !in collection
    ensures var after := collection[setId := NewSet(setId, deviceId, blob)];
      |after| == |collection| + 1 &&
      after.Keys == collection.Keys + {setId} &&
      forall k :: k in collection ==> after[k] == collection[k]
  {
    var after := collection[setId := NewSet(setId, deviceId, blob)];
    assert after.Keys == collection.Keys + {setId};
  }

  /** Removing a set keeps every other one. */
  lemma RemoveKeepsOthers(collection: map<string, SetEntry>, id: string)
    ensures var after := collection - {id};
      id !in after && forall k :: k in collection && k != id ==> k in after && after[k] == collection[k]
  {
  }
}
