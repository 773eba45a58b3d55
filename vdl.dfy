/** The record types that the Android client stores in its three Syncbase
    tables (files, devices, deviceSets).  Every record carries its own id,
    and that id is the row key it is stored under. */
module Vdl {

  datatype File = File(id: string, title: string, size: int, mimeType: string, ref: string)

  datatype Device = Device(id: string, deviceType: string, name: string, arch: string,
                           width: int, height: int)

  /** The per-device position inside a device set. */
  datatype DeviceMeta = DeviceMeta(deviceId: string, page: int, zoom: int, linked: bool)

  /** One collaborative viewing session of one file. */
  datatype DeviceSet = DeviceSet(id: string, fileId: string, devices: map<string, DeviceMeta>)

  function FileId(f: File): string { f.id }
  function DeviceId(d: Device): string { d.id }
  function DeviceSetId(ds: DeviceSet): string { ds.id }
}
