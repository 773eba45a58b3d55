# Reader device-set synchronisation, modelled in Dafny

The Vanadium PDF reader lets a user join several devices to a *device set*.
A device set is one PDF file shown across devices. Each device records its own
page and zoom and whether it is *linked*. Linked devices turn pages
together: the set pages as one run of consecutive pages.

This project models the core of that synchronisation in both clients.

- **Android.** `SyncbaseDB` keeps local lists of files, devices and device
  sets. They are filled from a table scan and updated from the watch stream.
  `PdfViewerActivity` joins, leaves and pages a device set.
  `DebugUtils` saves logcat output and rotates the old log files.
- **Web.** These are the state machines of the components:
  - the device-set view, with paging, the device manager, linking, unlinking with re-indexing, and drag-reordering;
  - the device-set list;
  - the mover overlay and its "this device" controls;
  - page control.

  Around them are helpers:
  - the hashbang router helper;
  - the observable-hash helpers;
  - the animation-frame job queue;
  - the syncbase store (its status machine, table cache, blob-before-row rule and watch classifier);
  - the browser's write-if-changed `put`.

Objects whose fields the source updates in place are classes with
`modifies` frames. Pure computations are functions. Loops are methods
proved against specification functions, and lemmas state the properties
that relate operations.

The Dafny files and their modules are:

- `wrappers.dfy`: module `Wrappers`, with `Option` and `Result`.
- `vdl.dfy`: module `Vdl`, the synced entities `File`, `Device`, `DeviceMeta` and `DeviceSet`.
- `syncbase_db.dfy`: module `SyncbaseDb`.
- `pdf_viewer.dfy`: module `PdfViewer`.
- `debug_utils.dfy`: module `DebugUtils`.
- `device.dfy`: module `WebDevice`.
- `device_set.dfy`: module `WebDeviceSet`.
- `device_set_render.dfy`: module `WebDeviceSetRender`.
- `device_sets.dfy`: module `WebDeviceSets`.
- `mover_state.dfy`: module `MoverState`.
- `mover_render.dfy`: module `MoverRender`.
- `page_control.dfy`: module `PageControl`.
- `hashbang.dfy`: module `Hashbang`.
- `observ_util.dfy`: module `ObservUtil`.
- `raf_queue.dfy`: module `RafQueue`.
- `syncbase_store.dfy`: module `SyncbaseStore`.
- `syncbase_put.dfy`: module `SyncbasePut`.

The world outside the program becomes parameters:

- the results of remote and asynchronous calls;
- the transport's faults;
- decoders and encoders;
- permission checks;
- the order in which a `HashMap` iterates;
- the start time.

The contracts hold for every value of those parameters.

## Model

| member | source | states |
|---|---|---|
| SyncbaseDb.DecodedPrefix | android/app/src/main/java/io/v/android/apps/reader/db/SyncbaseDB.java:590-615 | the initial list holds exactly the rows read before the first row that failed to decode, in scan order |
| SyncbaseDb.SyncbaseDBList.constructor | android/app/src/main/java/io/v/android/apps/reader/db/SyncbaseDB.java:569-615 | a new list holds the decoded prefix of the scan, reports one scan error iff a row failed, and has no listener and no notifications |
| SyncbaseDb.ChangedBelow | android/app/src/main/java/io/v/android/apps/reader/db/SyncbaseDB.java:681-697 | every change notification of the put scan names a position below the scan bound whose item has the changed row's id |
| SyncbaseDb.Replaced | android/app/src/main/java/io/v/android/apps/reader/db/SyncbaseDB.java:681-697 | replacing by id keeps the list's length |
| SyncbaseDb.SyncbaseDBList.ReplaceMatching | android/app/src/main/java/io/v/android/apps/reader/db/SyncbaseDB.java:681-697 | the scan replaces every item whose id is the row, reports handled iff such an item existed, and notifies the listener of each replaced position |
| SyncbaseDb.ReplaceLoop | android/app/src/main/java/io/v/android/apps/reader/db/SyncbaseDB.java:681-697 | the loop leaves every item with the row's id replaced by the new item and the others unchanged, reports each replaced position once in order, and answers whether any matched |
| SyncbaseDb.SyncbaseDBList.HandlePutChange | android/app/src/main/java/io/v/android/apps/reader/db/SyncbaseDB.java:668-709 | a value that fails to decode changes nothing and is logged; otherwise matching items are replaced in place, or the item is appended with an insert notification when none matched |
| SyncbaseDb.PutExistingReplacesInPlace | android/app/src/main/java/io/v/android/apps/reader/db/SyncbaseDB.java:681-697 | with unique ids, a put for an existing id replaces exactly that position and notifies one change there |
| SyncbaseDb.ChangedBelowUnique | android/app/src/main/java/io/v/android/apps/reader/db/SyncbaseDB.java:681-697 | with unique ids, the put scan notifies at most the single position holding the id |
| SyncbaseDb.PutNewAppends | android/app/src/main/java/io/v/android/apps/reader/db/SyncbaseDB.java:699-708 | a put for an unseen id appends the item as the last element and notifies an insert at the old length |
| SyncbaseDb.PutKeepsIdsUnique | android/app/src/main/java/io/v/android/apps/reader/db/SyncbaseDB.java:668-709 | a put keeps the ids of the list unique |
| SyncbaseDb.SyncbaseDBList.HandleDeleteChange | android/app/src/main/java/io/v/android/apps/reader/db/SyncbaseDB.java:711-730 | the list becomes the result of the removing scan, the listener hears each removal, and a delete matching nothing is logged |
| SyncbaseDb.DeleteScanNoMatch | android/app/src/main/java/io/v/android/apps/reader/db/SyncbaseDB.java:711-730 | a delete whose row no item has leaves the list as it was, with no notification |
| SyncbaseDb.DeleteScanSingleMatch | android/app/src/main/java/io/v/android/apps/reader/db/SyncbaseDB.java:711-730 | when one item has the row's id, the delete scan removes exactly that one and notifies its position |
| SyncbaseDb.DeleteUnique | android/app/src/main/java/io/v/android/apps/reader/db/SyncbaseDB.java:711-730 | with unique ids a delete removes the one matching item and notifies its position, or changes nothing when none matches |
| SyncbaseDb.DeleteKeepsIdsUnique | android/app/src/main/java/io/v/android/apps/reader/db/SyncbaseDB.java:711-730 | a delete keeps the ids of the list unique |
| SyncbaseDb.SyncbaseDBList.OnWatchChange | android/app/src/main/java/io/v/android/apps/reader/db/SyncbaseDB.java:617-730 | once discarded the list ignores changes; otherwise a put change has exactly the items, notifications and logged decode error of a put, and a delete change those of a delete, including the logged miss |
| SyncbaseDb.FindById | android/app/src/main/java/io/v/android/apps/reader/db/SyncbaseDB.java:745-753 | lookup by id fails iff no item has the id, and otherwise returns the first item with that id |
| SyncbaseDb.FindByIdUnique | android/app/src/main/java/io/v/android/apps/reader/db/SyncbaseDB.java:745-753 | with unique ids, looking up an item's id returns that item |
| SyncbaseDb.ItemsFoundById | android/app/src/main/java/io/v/android/apps/reader/db/SyncbaseDB.java:735-753 | with unique ids, every position below the count (GetItemCount) holds an item (GetItem) that lookup by its id (GetItemById) answers |
| SyncbaseDb.SyncbaseDBList.GetItemById | android/app/src/main/java/io/v/android/apps/reader/db/SyncbaseDB.java:745-753 | lookup by id fails iff no item has the id, and otherwise returns an item of the list with that id |
| SyncbaseDb.SyncbaseDBList.SetListener | android/app/src/main/java/io/v/android/apps/reader/db/SyncbaseDB.java:756-759 | a second listener is refused; setting one changes nothing else |
| SyncbaseDb.SyncbaseDBList.Discard | android/app/src/main/java/io/v/android/apps/reader/db/SyncbaseDB.java:762-765 | discarding cancels the watch and keeps the items |
| SyncbaseDb.SyncbaseDB.constructor | android/app/src/main/java/io/v/android/apps/reader/db/SyncbaseDB.java:557-567 | the database starts uninitialised with no bootstrap begun |
| SyncbaseDb.SyncbaseDB.Init | android/app/src/main/java/io/v/android/apps/reader/db/SyncbaseDB.java:99-103 | initialisation begins the bootstrap only when the database is not yet initialised |
| SyncbaseDb.SyncbaseDB.CompleteBootstrap | android/app/src/main/java/io/v/android/apps/reader/db/SyncbaseDB.java:323 | a finished bootstrap marks the database initialised |
| SyncbaseDb.SyncbaseDB.GetList | android/app/src/main/java/io/v/android/apps/reader/db/SyncbaseDB.java:419-443 | before initialisation every list is the empty list, which counts 0 items and answers no item at any position or id (EmptyList.GetItemCount, GetItem, GetItemById); afterwards it is a fresh synced list holding the scan's decoded prefix |
| SyncbaseDb.SyncbaseDB.GetFileList | android/app/src/main/java/io/v/android/apps/reader/db/SyncbaseDB.java:419-425 | the file list is empty before initialisation and is otherwise a fresh list keyed by file id |
| SyncbaseDb.SyncbaseDB.GetDeviceList | android/app/src/main/java/io/v/android/apps/reader/db/SyncbaseDB.java:428-434 | the device list is empty before initialisation and is otherwise a fresh list keyed by device id |
| SyncbaseDb.SyncbaseDB.GetDeviceSetList | android/app/src/main/java/io/v/android/apps/reader/db/SyncbaseDB.java:437-443 | the device-set list is empty before initialisation and is otherwise a fresh list keyed by device-set id |
| SyncbaseDb.LastExtensionWithAt | android/app/src/main/java/io/v/android/apps/reader/db/SyncbaseDB.java:407-416 | the result is empty iff no extension of the chain contains '@', and otherwise is the last extension that does |
| SyncbaseDb.MountNameFromBlessings | android/app/src/main/java/io/v/android/apps/reader/db/SyncbaseDB.java:407-416 | the mount name is empty iff no blessing has an extension with '@', and otherwise comes from the first chain that has one |
| PdfViewer.LinkedDevices | android/app/src/main/java/io/v/android/apps/reader/PdfViewerActivity.java:396-411 | exactly the linked devices are kept, each with its metadata unchanged |
| PdfViewer.ShiftLinked | android/app/src/main/java/io/v/android/apps/reader/PdfViewerActivity.java:350-360 | shifting the pages keeps the set's devices |
| PdfViewer.JoinKeepsPagesInRange | android/app/src/main/java/io/v/android/apps/reader/PdfViewerActivity.java:209-216 | a joining device (CreateDeviceMeta) starts on page 1, linked, so joining keeps every page inside the document and puts the joiner in the linked group |
| PdfViewer.NewSetJoined | android/app/src/main/java/io/v/android/apps/reader/PdfViewerActivity.java:189-224 | a set made for a new file (CreateDeviceSet) refers to the file and, once this device joins, holds exactly this device, linked, with smallest and largest page 1 |
| PdfViewer.GetSmallestPage | android/app/src/main/java/io/v/android/apps/reader/PdfViewerActivity.java:413-424 | an empty set gives -1; otherwise the result is some device's page, and it is the minimum whenever no page equals the -1 sentinel |
| PdfViewer.GetLargestPage | android/app/src/main/java/io/v/android/apps/reader/PdfViewerActivity.java:426-437 | an empty set gives -1; otherwise the result is some device's page, and it is the maximum whenever no page equals the -1 sentinel |
| PdfViewer.ShiftPages | android/app/src/main/java/io/v/android/apps/reader/PdfViewerActivity.java:350-360 | the loop moves every linked device by the same number of pages and leaves unlinked ones alone, in any iteration order |
| PdfViewer.Viewer.constructor | android/app/src/main/java/io/v/android/apps/reader/PdfViewerActivity.java:116-128 | the viewer starts with no current device set and nothing written or shown |
| PdfViewer.Viewer.GetDeviceMeta | android/app/src/main/java/io/v/android/apps/reader/PdfViewerActivity.java:316-328 | this device's metadata is found iff a device set is current and contains this device |
| PdfViewer.Viewer.GetLinkedDevices | android/app/src/main/java/io/v/android/apps/reader/PdfViewerActivity.java:396-411 | with no current set there is no answer; otherwise the answer is exactly the linked devices of the current set |
| PdfViewer.Viewer.JoinDeviceSet | android/app/src/main/java/io/v/android/apps/reader/PdfViewerActivity.java:226-264 | joining does nothing until the file's bytes are loaded; then this device is added to the set, which becomes current and is written back |
| PdfViewer.Viewer.LeaveDeviceSet | android/app/src/main/java/io/v/android/apps/reader/PdfViewerActivity.java:266-283 | leaving removes this device, deletes a set left empty or writes the rest back, and clears the current set |
| PdfViewer.Viewer.PrevPage | android/app/src/main/java/io/v/android/apps/reader/PdfViewerActivity.java:333-361 | an unlinked device moves back one page but not below 1, locally; a linked group shifts back together and is written, only when its smallest page is above 1 |
| PdfViewer.Viewer.NextPage | android/app/src/main/java/io/v/android/apps/reader/PdfViewerActivity.java:366-394 | an unlinked device moves forward one page but not past the last, locally; a linked group shifts forward together and is written, only when its largest page is below the last |
| PdfViewer.Viewer.NotifyItemChanged | android/app/src/main/java/io/v/android/apps/reader/PdfViewerActivity.java:116-128 | only a change to the current set is taken; it becomes current and shows this device's page, or fails when this device left it |
| PdfViewer.ShiftBackKeepsPagesInRange | android/app/src/main/java/io/v/android/apps/reader/PdfViewerActivity.java:350-360 | moving a linked group back whose pages are all above 1 keeps every page inside the document and the unlinked devices unchanged |
| PdfViewer.ShiftForwardKeepsPagesInRange | android/app/src/main/java/io/v/android/apps/reader/PdfViewerActivity.java:383-393 | moving a linked group forward whose pages are all below the last keeps every page inside the document and the unlinked devices unchanged |
| PdfViewer.ShiftRoundTrip | android/app/src/main/java/io/v/android/apps/reader/PdfViewerActivity.java:333-394 | a page forward followed by a page back restores the linked group |
| PdfViewer.OwnPageStepKeepsRange | android/app/src/main/java/io/v/android/apps/reader/PdfViewerActivity.java:340-380 | an unlinked device's own page step, back or forward, keeps every page inside the document |
| DebugUtils.LogFiles | android/app/src/main/java/io/v/android/apps/reader/debug/DebugUtils.java:67-73 | exactly the files whose names start with this app's and device's log prefix are listed |
| DebugUtils.Insert | android/app/src/main/java/io/v/android/apps/reader/debug/DebugUtils.java:81-82 | insertion into the sorted listing keeps its elements and adds the one inserted |
| DebugUtils.Sort | android/app/src/main/java/io/v/android/apps/reader/debug/DebugUtils.java:81-82 | sorting the listing is a permutation of it |
| DebugUtils.SortSorted | android/app/src/main/java/io/v/android/apps/reader/debug/DebugUtils.java:81-82 | the sorted listing is in ascending lexicographic order |
| DebugUtils.Reverse | android/app/src/main/java/io/v/android/apps/reader/debug/DebugUtils.java:83 | the reversal puts the i-th from the end at position i and keeps the same elements |
| DebugUtils.AsWrittenDeletesGreatest | android/app/src/main/java/io/v/android/apps/reader/debug/DebugUtils.java:81-87 | as written, a listing of 10 or more loses all but 9 names, and every deleted name sorts after every kept one |
| DebugUtils.AsWrittenDeletesNewest | android/app/src/main/java/io/v/android/apps/reader/debug/DebugUtils.java:81-87 | as written, the newest log is deleted whenever 10 or more logs exist, although keeping the newest ones is what rotation is for |
| DebugUtils.OldestDeleted | android/app/src/main/java/io/v/android/apps/reader/debug/DebugUtils.java:81-87 | corrected, 9 names are kept, the deleted ones are a split of the listing with the kept ones, and every deleted name sorts before every kept one |
| DebugUtils.Without | android/app/src/main/java/io/v/android/apps/reader/debug/DebugUtils.java:84-86 | deleting a file removes exactly that name from the directory |
| DebugUtils.LogSaver.constructor | android/app/src/main/java/io/v/android/apps/reader/debug/DebugUtils.java:28 | logs are not being saved at first, and no command has been issued |
| DebugUtils.LogSaver.DeleteOldLogs | android/app/src/main/java/io/v/android/apps/reader/debug/DebugUtils.java:67-88 | a failed listing deletes nothing; otherwise exactly the surplus that sorting and reversing puts first, the newest log files of this app and device, is removed, except files whose delete fails, and nothing else |
| DebugUtils.LogSaver.DeleteEach | android/app/src/main/java/io/v/android/apps/reader/debug/DebugUtils.java:84-86 | each doomed name is deleted unless its delete fails, and no other file or field changes |
| DebugUtils.LogSaver.StartSavingLogs | android/app/src/main/java/io/v/android/apps/reader/debug/DebugUtils.java:35-65 | it runs once: without permission or when already saving nothing happens; otherwise old logs are rotated as written (a failed listing keeps every file), logcat is cleared and started on a timestamped file, and the saving flag is set iff both commands succeed |
| WebDevice.InsertByIndex | web/browser/components/device-set/render.js:111-123 | insertion keeps every key and adds exactly the new one |
| WebDevice.InsertByIndexSorted | web/browser/components/device-set/render.js:111-123 | inserting into a sequence ordered by index keeps it ordered by index |
| WebDevice.SortByIndex | web/browser/components/device-set/render.js:111-123 | the linked devices are sorted by index, as a permutation of the input |
| WebDevice.SortedRespectsIndex | web/browser/components/device-set/render.js:111-123 | in the sorted order a device with a smaller index comes first |
| WebDeviceSet.OrOne | web/browser/components/device-set/index.js:39-42 | an absent or zero page option defaults to 1, and any other number is kept |
| WebDeviceSet.LinkedKeys | web/browser/components/device-set/index.js:186-201 | the linked group is exactly the linked keys, without repeats |
| WebDeviceSet.Unlinked | web/browser/components/device-set/index.js:155-160 | the unlinked device loses its flag and its index and no device is added or lost |
| WebDeviceSet.Reindexed | web/browser/components/device-set/index.js:175-180 | renumbering keeps every device of the set |
| WebDeviceSet.ReindexedUntouched | web/browser/components/device-set/index.js:175-180 | after n steps every device not among the first n of the order is unchanged |
| WebDeviceSet.ReindexedAt | web/browser/components/device-set/index.js:175-180 | once renumbering has passed position p of an order without repeats, the device there holds index p and is otherwise unchanged |
| WebDeviceSet.ReindexedPositions | web/browser/components/device-set/index.js:175-180 | after n steps every device at a position p below n holds index p |
| WebDeviceSet.Renumber | web/browser/components/device-set/index.js:175-180 | the loop gives the device at each position of the order that position as its index and changes nothing else |
| WebDeviceSet.UnlinkOrder | web/browser/components/device-set/index.js:161-174 | corrected: the by-index order holds exactly the devices still linked |
| WebDeviceSet.DeviceSetState.constructor | web/browser/components/device-set/index.js:23-69 | the page cursor starts from the options or 1, the modal is closed, the manager is open, and nothing is dragged |
| WebDeviceSet.DeviceSetState.Previous | web/browser/components/device-set/index.js:134-140 | the page goes back one, but not below 1, and nothing else changes |
| WebDeviceSet.DeviceSetState.Next | web/browser/components/device-set/index.js:142-149 | the page goes forward one, but not past the total, and nothing else changes |
| WebDeviceSet.DeviceSetState.Manage | web/browser/components/device-set/index.js:151-153 | the modal opens and nothing else changes |
| WebDeviceSet.DeviceSetState.Link | web/browser/components/device-set/index.js:186-201 | an unknown, empty or already linked id changes nothing; otherwise the device joins the group at the next free index; nothing else changes |
| WebDeviceSet.DeviceSetState.Unlink | web/browser/components/device-set/index.js:155-184 | an unknown id throws and changes nothing; otherwise the device leaves, the rest of the group is renumbered in the order the comparator as written leaves it, key order, the drag state is reset, and nothing else changes |
| WebDeviceSet.DeviceSetState.Drag | web/browser/components/device-set/index.js:208-214 | the dragged id is set while dragging and cleared otherwise, and nothing else changes |
| WebDeviceSet.DeviceSetState.Reorder | web/browser/components/device-set/index.js:216-228 | a drop while dragging swaps the indexes of the two devices, an unknown one throws without changes, and nothing else changes |
| WebDeviceSet.DeviceSetState.Reset | web/browser/components/device-set/index.js:230-233 | the drag and drop-target ids are cleared and nothing else changes |
| WebDeviceSet.UnlinkPlacement | web/browser/components/device-set/index.js:155-184 | for every arrangement of the group the sort may produce, the k-th device of it holds index k after unlink and every other device is as unlinking left it |
| WebDeviceSet.UnlinkRenumbers | web/browser/components/device-set/index.js:155-184 | for every arrangement of the group the sort may produce, the unlinked device is out of the group with no index and the group is numbered 0 to k-1 without repeats |
| WebDeviceSet.UnlinkAsWrittenRenumbers | web/browser/components/device-set/index.js:155-184 | as written, unlink leaves the named device out of the group with no index and the group numbered 0 to k-1 without repeats |
| WebDeviceSet.UnlinkAsWrittenKeyOrder | web/browser/components/device-set/index.js:161-180 | as written, a device still linked gets as index the number of linked devices before it in key order, so key order decides the new numbering |
| WebDeviceSet.GroupOrderFacts | web/browser/components/device-set/index.js:161-177 | any arrangement of the linked devices has no repeats, holds exactly the linked devices and is as long as the group |
| WebDeviceSet.UnlinkKeepsOrder | web/browser/components/device-set/index.js:161-180 | corrected: renumbering in index order keeps the relative index order of the devices still linked |
| WebDeviceSet.UnlinkTouchesOnlyGroup | web/browser/components/device-set/index.js:155-184 | for every arrangement of the group the sort may produce, unlink changes no other device's flag and no unlinked device at all |
| WebDeviceSet.LinkKeepsWellIndexed | web/browser/components/device-set/index.js:186-201 | linking keeps the group numbered 0 to k-1 and grows it by one |
| WebDeviceSet.UnlinkOrderAsWritten | web/browser/components/device-set/index.js:161-174 | as written, the comparator never orders two devices, so the group keeps key order |
| WebDeviceSet.UnlinkOrderAsWrittenSwapsGroup | web/browser/components/device-set/index.js:161-174 | a concrete group where renumbering as written reverses the user's order while the intended order keeps it |
| WebDeviceSetRender.UnlinkedKeys | web/browser/components/device-set/render.js:95-109 | the unlinked list is exactly the unlinked keys |
| WebDeviceSetRender.Manager | web/browser/components/device-set/render.js:87-123 | the manager lists the linked devices sorted by index and the unlinked ones in key order |
| WebDeviceSetRender.ManagerPartitions | web/browser/components/device-set/render.js:87-123 | every device appears in exactly one of the manager's two lists |
| WebDeviceSetRender.Item | web/browser/components/device-set/render.js:152-180 | the dragged device renders as a placeholder; a tile is marked over while a target is set and current for this device, and accepts reordering iff linked |
| WebDeviceSetRender.ProgressOrControls | web/browser/components/device-set/render.js:36-51 | exactly one of the progress bar (hidden once loading reached 100, ProgressHidden) and the page controls (hidden until then, ControlsHidden) shows |
| WebDeviceSets.NewSet | web/browser/components/device-sets/index.js:50-65 | a new set holds its file and just this browser, whose device state (DeviceState) is current, linked at index 0 |
| WebDeviceSets.DeviceSetsState.constructor | web/browser/components/device-sets/index.js:17-33 | the collection starts from the given one or empty, with no current set and no error |
| WebDeviceSets.DeviceSetsState.Add | web/browser/components/device-sets/index.js:35-66 | no file changes nothing; a non-PDF sets the error naming the file (NotPdfMessage); a PDF adds a new set under its id |
| WebDeviceSets.DeviceSetsState.Remove | web/browser/components/device-sets/index.js:68-70 | the set is removed and nothing else changes |
| WebDeviceSets.AddGrowsByOne | web/browser/components/device-sets/index.js:50-65 | adding a set under a new id grows the collection by one and keeps the others |
| WebDeviceSets.RemoveKeepsOthers | web/browser/components/device-sets/index.js:68-70 | removing a set keeps every other set |
| MoverState.Mover.constructor | browser/components/mover/state.js:13-49 | the mover starts hidden, with no insertion or highlight, four linked devices and first page 2 |
| MoverState.Mover.Previous | browser/components/mover/state.js:63-67 | the overlay closes and nothing else changes |
| MoverState.Mover.Next | browser/components/mover/state.js:69-73 | the overlay closes and nothing else changes |
| MoverState.Mover.Cancel | browser/components/mover/state.js:75-79 | the overlay closes and nothing else changes |
| MoverState.Mover.Commit | browser/components/mover/state.js:89-93 | the overlay closes and nothing else changes |
| MoverState.Mover.Link | browser/components/mover/state.js:81-87 | an index beyond the linked set marks no insertion; any other index is taken; nothing else changes |
| MoverState.Mover.HighlightTarget | browser/components/mover/state.js:95-97 | the target at the index is highlighted and nothing else changes |
| MoverState.Mover.UnhighlightTarget | browser/components/mover/state.js:99-101 | no target stays highlighted and nothing else changes |
| MoverState.Mover.Noop | browser/components/mover/state.js:103-105 | nothing changes |
| MoverRender.Render | web/browser/components/mover/render.js:14-29 | the overlay is hidden iff nothing moves, and shows this device's controls iff this device is the one moving |
| MoverRender.Slots | web/browser/components/mover/render.js:56-74 | the loop renders one target and one tile per linked device |
| MoverRender.MoveThisDeviceControls | web/browser/components/mover/render.js:45-119 | the loop builds the targets and tiles of the specification, the leading node and the button label |
| MoverRender.Run | web/browser/components/mover/render.js:56-89 | a run of page labels counts up from its base one at a time |
| MoverRender.TilesPerDevice | web/browser/components/mover/render.js:56-89 | the tile row shows one tile per linked device |
| MoverRender.DeviceNodes | web/browser/components/mover/render.js:45-126 | the moving device appears once before the set, once at its slot, or once at the end, as the insertion index says |
| MoverRender.ExactlyOneDevice | web/browser/components/mover/render.js:45-126 | for an insertion index from -1 to the set's size the moving device is shown exactly once |
| MoverRender.PagesConsecutive | web/browser/components/mover/render.js:56-89 | the pages shown, including the inserted device's, are consecutive, starting one earlier when inserting before a first page other than 1 |
| MoverRender.TargetsHighlighted | web/browser/components/mover/render.js:56-102 | exactly the target at the highlight index is highlighted, and every slot but the insertion one is a target |
| PageControl.PageControlState.constructor | browser/components/page-control/state.js:9-20 | page control starts on page 1 of 0 |
| PageControl.PageControlState.Next | browser/components/page-control/state.js:22-28 | the page goes forward one only while below the total, and stays in range |
| PageControl.PageControlState.Prev | browser/components/page-control/state.js:30-36 | the page goes back one only while above 1, and stays in range |
| Hashbang.Hashbang | browser/router/hashbang.js:15-30 | every href starts with "/#!" |
| Hashbang.HashbangFoo | browser/router/hashbang.js:11-12 | the documented example maps "/foo" to "/#!/foo" |
| Hashbang.HashbangFalsy | browser/router/hashbang.js:15-16 | an absent or empty path gives the root hashbang |
| Hashbang.HashbangDoubleSlash | browser/router/hashbang.js:18-19 | only one leading slash is trimmed |
| Hashbang.HashbangTagged | browser/router/hashbang.js:21-27 | a path already tagged "#!" only gets a leading slash |
| Hashbang.HashbangPlain | browser/router/hashbang.js:18-27 | an untagged path without a leading slash is prefixed by "/#!/" |
| Hashbang.HashbangIdempotent | browser/router/hashbang.js:15-30 | applying hashbang to its own result changes nothing |
| ObservUtil.Map | web/browser/util.js:13-27 | one rendered item per key, in key order, each rendering that key's value |
| ObservUtil.ToArray | web/browser/util.js:33-42 | the values of the object in key order |
| ObservUtil.ToArrayHoldsValues | web/browser/util.js:33-42 | every value of the object is listed and nothing else is |
| ObservUtil.RemovedKeys | web/browser/util.js:45-52 | exactly the keys whose diff value is falsy are reported removed |
| ObservUtil.Removed | web/browser/util.js:45-52 | the iterator visits the removed keys in key order |
| ObservUtil.EachPairs | web/browser/util.js:66-79 | exactly the keys with an existing value and no ref update are handed on, with their full value |
| ObservUtil.Each | web/browser/util.js:66-79 | the iterator visits those pairs in key order |
| ObservUtil.RemovedAndUpdatedDisjoint | web/browser/util.js:45-79 | no key is both removed and handed on as updated |
| ObservUtil.EachSkipsRefUpdates | web/browser/util.js:66-79 | a ref update never reaches the iterator |
| RafQueue.Queue.constructor | web/browser/dom/raf-queue.js:7-8 | the queue starts empty with no frame handle |
| RafQueue.Queue.Enqueue | web/browser/dom/raf-queue.js:13-22 | the job joins the end of the queue, and a frame is requested only when none is held |
| RafQueue.Queue.Frame | web/browser/dom/raf-queue.js:25-34 | a frame with no job releases the handle; otherwise the oldest job starts |
| RafQueue.Queue.Done | web/browser/dom/raf-queue.js:35-41 | an error throws and stalls the queue with the handle held; otherwise the next frame is requested |
| RafQueue.StartsInQueueOrder | web/browser/dom/raf-queue.js:13-41 | jobs start in the order they were queued |
| SyncbasePut.ReadRow | browser/vanadium/syncbase/put.js:18-25 | a read fails on a fault, reports a missing row, and otherwise returns the decoded row |
| SyncbasePut.Decide | browser/vanadium/syncbase/put.js:21-46 | errors other than a missing row are passed on; the write is skipped iff the stored value equals the data; otherwise the encoding is written, unless encoding fails |
| SyncbasePut.Table.constructor | browser/vanadium/syncbase/put.js:18-59 | a table starts with its rows and no writes |
| SyncbasePut.Table.Put | browser/vanadium/syncbase/put.js:18-59 | the callback gets the decision's error or the data; only a write decision issues a put, and only a successful one changes the row |
| SyncbasePut.RepeatPutSkips | browser/vanadium/syncbase/put.js:29-46 | a second identical put after a successful write issues no write |
| SyncbasePut.SkipMeansStored | browser/vanadium/syncbase/put.js:21-33 | a put is skipped iff the row already decodes to the data |
| SyncbasePut.MissingRowIsWritten | browser/vanadium/syncbase/put.js:21-46 | a missing row does not stop the write |
| SyncbaseStore.Released | web/browser/vanadium/syncbase/index.js:73-108 | the queued callers each get the database, in the order they queued |
| SyncbaseStore.ReleasedAnswersEveryone | web/browser/vanadium/syncbase/index.js:73-108 | every queued caller is answered with the database |
| SyncbaseStore.Store.constructor | web/browser/vanadium/syncbase/index.js:40-64 | the store starts 'new' with no database and no tables |
| SyncbaseStore.Store.Db | web/browser/vanadium/syncbase/index.js:73-95 | a ready store answers at once with its database; during setup the caller queues; a new store starts setup once for this caller; no table is touched |
| SyncbaseStore.Store.SetupDone | web/browser/vanadium/syncbase/index.js:73-108 | a failed setup answers only its initiator; a successful one releases the queue, becomes ready and answers the initiator last |
| SyncbaseStore.StatusMeans | web/browser/vanadium/syncbase/index.js:57-95 | what `status` tells a caller (IsStatus): a ready store holds its database and queues nobody; a new one has begun no setup and cached no table |
| SyncbaseStore.TableAnswersOnlyWhenReady | web/browser/vanadium/syncbase/index.js:73-142 | a database or table is handed out only by a ready store |
| SyncbaseStore.Store.Table | web/browser/vanadium/syncbase/index.js:110-122 | a cached keyspace is answered from the cache without the database; otherwise the table's callback goes through db(), which starts or joins setup or is answered by a ready store |
| SyncbaseStore.Store.TableOpened | web/browser/vanadium/syncbase/index.js:123-141 | run on an answer db() gave: an error is passed on; otherwise the opened table is answered and cached when opening succeeds |
| SyncbaseStore.Store.Put | web/browser/vanadium/syncbase/index.js:171-201 | run on an answer table() gave: an error is passed on; a file without a blob reference has its blob stored first, through db() of the ready store, and takes the returned reference before its row is put; other rows are put directly |
| SyncbaseStore.Classify | web/browser/vanadium/syncbase/index.js:361-395 | local changes are dropped; a synced delete is emitted without value; a synced put is emitted with the fetched value or fails; any other type never calls back |

## Left out

- Syncbase transport, blessings, mounting, the syncgroup bootstrap and the watch thread and looper are left out. They are network and concurrency. Their outcomes are parameters: the table scan, watch changes, the put/read/write faults and the database results.
- VOM encoding and decoding are left out. A decode failure is an absent value; JSON encoding is an encoder parameter that may fail.
- PDF rendering, zoom, `determineInitialPage`, activity lifecycle, menus, toasts and all DOM rendering other than the modelled views are left out. They are UI, not synchronisation state.
- The other device's controls in the mover (its buttons and handlers) are left out. They are presentational and hold no state.
- The router, history, link handler and storage adapters outside `put` and the store are left out. They are not part of the synchronisation core.
- Crypto id generation is left out. Ids are parameters.
- Device-set progress is a whole number, while the source holds a float percentage. Only its comparison with 100 matters.
- PdfViewer.GetSmallestPage: the minimum is proved only when no page equals the -1 sentinel, because the loop as written treats such a page as "none seen yet".
- PdfViewer.GetLargestPage: the maximum is proved only when no page equals the -1 sentinel, for the same reason.
- A Java `HashMap` iterates in an unspecified order, which is chosen non-deterministically. The contracts hold for every order.
- Java object identity and aliasing of `DeviceMeta`/`DeviceSet` values are modelled on values. An in-place `put` into a metadata map is a map update.
- The in-place `Collections.sort` and `Collections.reverse` of the log listing are modelled on values, as functions on sequences.
- WebDevice.SortByIndex: sort stability is not modelled. The contract fixes the order only between different indexes; JavaScript engines of the time did not sort stably.
- `numDevicesInLinkedSet` is a whole number. MoverRender.ExactlyOneDevice, MoverRender.PagesConsecutive and MoverRender.TilesPerDevice are stated for sets of size 0 or more; a negative count renders no device tiles.
- RafQueue.Queue.Done: a job is assumed to call `done` once, while it runs. A second call of the same `done` is not modelled.
- The deferral of callbacks (`dezalgo`, `process.nextTick`) and the event emitter are left out. Answers are recorded in the order they are given.
- Strict deep equality in `put` is Dafny equality on values.
- The `get` and `parse` helpers of the browser store are a parse parameter.
- Inherited enumerable properties walked by `for … in` are ignored. Objects are their own keys.
- A falsy id in the web store is the empty string.
- `exec` of logcat and `getCanonicalPath` are left out. Their failures are parameters.
- The result of `File.delete()` is a parameter: `undeletable` names the files whose delete fails, and they stay.
- Storage permission checks in `startSavingLogs` are a parameter.
- The resume marker of the watch and the table's batch semantics are left out.
- WebDeviceSet.DeviceSetState.Unlink: the comparator as written always answers 0, so the group's order after `sort` is the engine's choice. The model takes the result of a stable sort, which is key order. UnlinkPlacement, UnlinkRenumbers and UnlinkTouchesOnlyGroup hold for every arrangement the sort may leave.
- The store's remote calls (the database setup, the table open, the blob creation and upload, and the row put) are left out. Their outcomes are parameters of the continuations `SetupDone`, `TableOpened` and `Put`.

## Findings

| source | as written | input that shows it | evidently intended | confidence | as-written member | corrected member |
|---|---|---|---|---|---|---|
| android/app/src/main/java/io/v/android/apps/reader/debug/DebugUtils.java:81-87 | sorts the log names ascending, reverses them, then deletes the first count-9; names end in a yyyyMMdd-HHmmss.SSS timestamp (android/app/src/main/java/io/v/android/apps/reader/Utils.java:51-55), so the newest logs are deleted | any listing of 10 or more log files of one app and device: the newest file is among those deleted | delete the oldest logs and keep the 9 newest | high, not executed | DebugUtils.DeletedAsWritten (AsWrittenDeletesNewest), used by DebugUtils.LogSaver.DeleteOldLogs | DebugUtils.DeletedOldest (OldestDeleted) |
| web/browser/components/device-set/index.js:161-174 | the sort comparator of `unlink` compares `a.index` and `b.index`, which are observable functions, not their values; no comparison is ever greater or smaller, so the group keeps key order and is renumbered in that order | a group of linked "a" at index 1 and "b" at index 0, in key order a, b: as written, renumbering after an unlink gives "a" index 0 and "b" index 1 | renumber the remaining linked devices in their index order | medium, not executed | WebDeviceSet.UnlinkOrderAsWritten (UnlinkOrderAsWrittenSwapsGroup, UnlinkAsWrittenKeyOrder), used by WebDeviceSet.DeviceSetState.Unlink | WebDeviceSet.UnlinkOrder (AfterUnlinkByIndex, UnlinkKeepsOrder) |
