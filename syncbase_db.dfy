/** The Android client's view of its Syncbase tables: a mirrored list per
    table (an initial scan followed by watch changes), the empty list handed
    out before the store is initialised, and the username search over the
    blessing's certificate chains. */
module SyncbaseDb {
  import opened Wrappers
  import opened Vdl

  /** What a mirrored list tells its (single, optional) listener. */
  datatype Notification = Changed(position: nat) | Inserted(position: nat) | Removed(position: nat)

  /** What the list hands to `handleError` (logged and shown to the user). */
  datatype Report = ScanFailed | DecodeFailed | NoMatchingItem

  /** A watch change as the list's handlers see it: the row key and, for a
      put, the decoded value (`None` when decoding the stored bytes failed). */
  datatype WatchChange<E> = PutChange(rowName: string, value: Option<E>) | DeleteChange(rowName: string)

  // ---------------------------------------------------------------------
  // Specification of the list operations
  // ---------------------------------------------------------------------

  /** No two items share an id. */
  ghost predicate UniqueIds<E>(items: seq<E>, getId: E -> string)
  {
    forall i, j :: 0 <= i < j < |items| ==> getId(items[i]) != getId(items[j])
  }

  /** Some item has id `row`. */
  ghost predicate HasId<E>(items: seq<E>, getId: E -> string, row: string)
  {
    exists i :: 0 <= i < |items| && getId(items[i]) == row
  }

  /** The rows an initial scan adds: every successfully decoded row, in scan
      order, up to the first row that fails to decode (the failure ends the
      scan). */
  function DecodedPrefix<E>(scan: seq<Option<E>>): (r: seq<E>)
    ensures |r| <= |scan|
    ensures forall k :: 0 <= k < |r| ==> scan[k] == Some(r[k])
    ensures |r| < |scan| ==> scan[|r|].None?
  {
    if scan == [] || scan[0].None? then [] else [scan[0].value] + DecodedPrefix(scan[1..])
  }

  /** The `changed(i)` notifications a put raises for the positions below `n`
      whose item has id `row`, in ascending order. */
  function ChangedBelow<E>(items: seq<E>, getId: E -> string, row: string, n: nat): (r: seq<Notification>)
    requires n <= |items|
    ensures forall k :: 0 <= k < |r| ==> r[k].Changed? && r[k].position < n && getId(items[r[k].position]) == row
  {
    if n == 0 then []
    else ChangedBelow(items, getId, row, n - 1) + (if getId(items[n - 1]) == row then [Changed(n - 1)] else [])
  }

  /** Every matching position below `n` gets its notification. */
  lemma {:induction false} ChangedBelowComplete<E>(items: seq<E>, getId: E -> string, row: string, n: nat)
    requires n <= |items|
    ensures forall p :: 0 <= p < n && getId(items[p]) == row ==> Changed(p) in ChangedBelow(items, getId, row, n)
  {
    if n > 0 {
      ChangedBelowComplete(items, getId, row, n - 1);
    }
  }

  /** No matching position, no notification. */
  lemma {:induction false} ChangedBelowNone<E>(items: seq<E>, getId: E -> string, row: string, n: nat)
    requires n <= |items|
    requires forall k :: 0 <= k < n ==> getId(items[k]) != row
    ensures ChangedBelow(items, getId, row, n) == []
  {
    if n > 0 {
      ChangedBelowNone(items, getId, row, n - 1);
    }
  }

  /** The list after a put of `item` under row key `row`: every item with that
      id is replaced in place, or, when there is none, the item is appended. */
  ghost function PutItems<E>(items: seq<E>, getId: E -> string, row: string, item: E): seq<E>
  {
    if HasId(items, getId, row) then Replaced(items, getId, row, item) else items + [item]
  }

  /** `items` with every item whose id is `row` replaced by `item`. */
  ghost function Replaced<E>(items: seq<E>, getId: E -> string, row: string, item: E): (r: seq<E>)
    ensures |r| == |items|
  {
    seq(|items|, i requires 0 <= i < |items| => if getId(items[i]) == row then item else items[i])
  }

  /** Replacing an id no item has changes nothing. */
  lemma ReplacedNone<E>(items: seq<E>, getId: E -> string, row: string, item: E)
    requires !HasId(items, getId, row)
    ensures Replaced(items, getId, row, item) == items
    ensures forall k :: 0 <= k < |items| ==> getId(items[k]) != row
  {
    assert forall k :: 0 <= k < |items| ==> getId(items[k]) != row;
  }

  /** The notifications a put raises, when a listener is set. */
  ghost function PutNotifications<E>(items: seq<E>, getId: E -> string, row: string): seq<Notification>
  {
    if HasId(items, getId, row) then ChangedBelow(items, getId, row, |items|) else [Inserted(|items|)]
  }

  /** The delete loop as written, from index `i` on: a matching item is
      removed at `i`, `removed(i)` is raised, and the scan goes on at `i + 1`
      of the shortened list.  Returns the final list and the notifications. */
  function DeleteScan<E>(items: seq<E>, getId: E -> string, row: string, i: nat): (seq<E>, seq<Notification>)
    decreases |items| - i
  {
    if i >= |items| then (items, [])
    else if getId(items[i]) == row then
      var rest := DeleteScan(items[..i] + items[i + 1..], getId, row, i + 1);
      (rest.0, [Removed(i)] + rest.1)
    else DeleteScan(items, getId, row, i + 1)
  }

  /** `x` sits at some position of `items` before which no item has id `id`. */
  ghost predicate FirstAt<E>(items: seq<E>, getId: E -> string, id: string, x: E)
  {
    exists k :: 0 <= k < |items| && items[k] == x && (forall j :: 0 <= j < k ==> getId(items[j]) != id)
  }

  /** The first item with the given id, or `None` (Java's null). */
  function FindById<E>(items: seq<E>, getId: E -> string, id: string): (r: Option<E>)
    ensures r.None? <==> forall k :: 0 <= k < |items| ==> getId(items[k]) != id
    ensures r.Some? ==> getId(r.value) == id && FirstAt(items, getId, id, r.value)
  {
    if items == [] then None
    else if getId(items[0]) == id then Some(items[0])
    else
      var r := FindById(items[1..], getId, id);
      assert r.Some? ==> FirstAt(items, getId, id, r.value) by {
        if r.Some? {
          var k :| 0 <= k < |items[1..]| && items[1..][k] == r.value &&
            (forall j :: 0 <= j < k ==> getId(items[1..][j]) != id);
          assert items[k + 1] == r.value;
          forall j | 0 <= j < k + 1 ensures getId(items[j]) != id {
            if j > 0 { assert items[j] == items[1..][j - 1]; }
          }
        }
      }
      r
  }

  // ---------------------------------------------------------------------
  // The mirrored list
  // ---------------------------------------------------------------------

  /** A local, ordered copy of one table, kept in step with it by watch
      changes.  `getId` is the id accessor of the table's record type (the
      abstract `getId` its three subclasses implement). */
  class SyncbaseDBList<E> {
    const getId: E -> string
    var items: seq<E>
    var hasListener: bool
    /** Everything the listener has been told, oldest first. */
    var notifications: seq<Notification>
    /** Everything handed to `handleError`, oldest first. */
    var errors: seq<Report>
    /** Set by `discard`: the watch stream is cancelled. */
    var cancelled: bool

    /** Reads the initial data: the rows of a scan are appended in scan order;
        a row that fails to decode aborts the scan with an error report. The
        watcher is only started after this. */
    constructor (getId: E -> string, scan: seq<Option<E>>)
      ensures this.getId == getId
      ensures items == DecodedPrefix(scan)
      ensures errors == if |DecodedPrefix(scan)| < |scan| then [ScanFailed] else []
      ensures !hasListener && notifications == [] && !cancelled
    {
      ghost var all := DecodedPrefix(scan);
      var read: seq<E> := [];
      var i := 0;
      var failed := false;
      while i < |scan| && !failed
        invariant i <= |all| && read == all[..i]
        invariant failed ==> i == |all| < |scan|
        decreases |scan| - i, if failed then 0 else 1
      {
        match scan[i]
        case None =>
          failed := true;
        case Some(item) =>
          read := read + [item];
          i := i + 1;
      }
      assert read == all;
      this.getId := getId;
      items := read;
      hasListener := false;
      notifications := [];
      errors := if failed then [ScanFailed] else [];
      cancelled := false;
    }

    /** `handlePutChange` */
    method HandlePutChange(rowName: string, value: Option<E>)
      modifies this
      ensures value.None? ==> items == old(items) && notifications == old(notifications)
                              && errors == old(errors) + [DecodeFailed]
      ensures value.Some? ==> items == PutItems(old(items), getId, rowName, value.value)
                              && errors == old(errors)
                              && notifications == old(notifications) +
                                   (if hasListener then PutNotifications(old(items), getId, rowName) else [])
      ensures hasListener == old(hasListener) && cancelled == old(cancelled)
    {
      if value.None? {
        errors := errors + [DecodeFailed];
        return;
      }
      var item := value.value;
      ghost var orig := items;
      var handled := ReplaceMatching(rowName, item);
      if handled {
        assert PutItems(orig, getId, rowName, item) == items;
        assert PutNotifications(orig, getId, rowName) == ChangedBelow(orig, getId, rowName, |orig|);
        return;
      }
      ReplacedNone(orig, getId, rowName, item);
      ChangedBelowNone(orig, getId, rowName, |orig|);
      items := items + [item];
      if hasListener {
        notifications := notifications + [Inserted(|items| - 1)];
      }
    }

    /** The loop of `handlePutChange`: every item whose id is the row key is
        replaced in place (and `changed` raised for it); the result says
        whether there was any. */
    method ReplaceMatching(rowName: string, item: E) returns (handled: bool)
      modifies this
      ensures handled == HasId(old(items), getId, rowName)
      ensures items == Replaced(old(items), getId, rowName, item)
      ensures notifications == old(notifications) +
                (if hasListener then ChangedBelow(old(items), getId, rowName, |old(items)|) else [])
      ensures errors == old(errors) && hasListener == old(hasListener) && cancelled == old(cancelled)
    {
      var xs, told;
      xs, told, handled := ReplaceLoop(items, getId, rowName, item);
      items := xs;
      if hasListener {
        notifications := notifications + told;
      }
    }

    /** `handleDeleteChange` */
    method HandleDeleteChange(rowName: string)
      modifies this
      ensures items == DeleteScan(old(items), getId, rowName, 0).0
      ensures notifications == old(notifications) +
                (if hasListener then DeleteScan(old(items), getId, rowName, 0).1 else [])
      ensures errors == old(errors) + (if DeleteScan(old(items), getId, rowName, 0).1 == [] then [NoMatchingItem] else [])
      ensures hasListener == old(hasListener) && cancelled == old(cancelled)
    {
      ghost var final := DeleteScan(items, getId, rowName, 0);
      ghost var done: seq<Notification> := [];
      var handled := false;
      var i := 0;
      while i < |items|
        invariant DeleteScan(items, getId, rowName, i).0 == final.0
        invariant done + DeleteScan(items, getId, rowName, i).1 == final.1
        invariant handled <==> done != []
        invariant notifications == old(notifications) + (if hasListener then done else [])
        invariant errors == old(errors) && hasListener == old(hasListener) && cancelled == old(cancelled)
        decreases |items| - i
      {
        if rowName == getId(items[i]) {
          items := items[..i] + items[i + 1..];
          if hasListener {
            notifications := notifications + [Removed(i)];
          }
          handled := true;
          done := done + [Removed(i)];
        }
        i := i + 1;
      }
      if !handled {
        errors := errors + [NoMatchingItem];
      }
    }

    /** One change from the watch stream, dispatched on its type. Once the
        list is discarded the cancelled stream delivers nothing more. */
    method OnWatchChange(wc: WatchChange<E>)
      modifies this
      ensures cancelled ==> items == old(items) && notifications == old(notifications) && errors == old(errors)
      ensures !cancelled && wc.PutChange? && wc.value.None? ==>
                items == old(items) && notifications == old(notifications) && errors == old(errors) + [DecodeFailed]
      ensures !cancelled && wc.PutChange? && wc.value.Some? ==>
                items == PutItems(old(items), getId, wc.rowName, wc.value.value) && errors == old(errors) &&
                notifications == old(notifications) +
                  (if hasListener then PutNotifications(old(items), getId, wc.rowName) else [])
      ensures !cancelled && wc.DeleteChange? ==>
                var scan := DeleteScan(old(items), getId, wc.rowName, 0);
                items == scan.0 &&
                notifications == old(notifications) + (if hasListener then scan.1 else []) &&
                errors == old(errors) + (if scan.1 == [] then [NoMatchingItem] else [])
      ensures hasListener == old(hasListener) && cancelled == old(cancelled)
    {
      if cancelled {
        return;
      }
      match wc
      case PutChange(row, v) => HandlePutChange(row, v);
      case DeleteChange(row) => HandleDeleteChange(row);
    }

    /** `getItemCount` */
    function GetItemCount(): (n: nat)
      reads this
      ensures n == |items|
    {
      |items|
    }

    /** `getItem`: positions out of range are the caller's error. */
    function GetItem(position: nat): (r: E)
      reads this
      requires position < |items|
      ensures r == items[position]
    {
      items[position]
    }

    /** `getItemById`: the first item with that id, or null. */
    function GetItemById(id: string): (r: Option<E>)
      reads this
      ensures r.None? <==> forall k :: 0 <= k < |items| ==> getId(items[k]) != id
      ensures r.Some? ==> getId(r.value) == id && r.value in items
    {
      FindById(items, getId, id)
    }

    /** `setListener`: the source asserts that no listener is set yet. */
    method SetListener()
      requires !hasListener
      modifies this
      ensures hasListener
      ensures items == old(items) && notifications == old(notifications) && errors == old(errors)
      ensures cancelled == old(cancelled)
    {
      hasListener := true;
    }

    /** `discard`: cancels the watch stream. */
    method Discard()
      modifies this
      ensures cancelled
      ensures items == old(items) && notifications == old(notifications) && errors == old(errors)
      ensures hasListener == old(hasListener)
    {
      cancelled := true;
    }
  }

  /** The `for` loop of `handlePutChange` on the list's items: each item
      whose id is `rowName` is replaced where it stands and `changed` is
      told for its position; `handled` says whether any matched. */
  method ReplaceLoop<E>(orig: seq<E>, getId: E -> string, rowName: string, item: E)
    returns (xs: seq<E>, told: seq<Notification>, handled: bool)
    ensures xs == Replaced(orig, getId, rowName, item)
    ensures told == ChangedBelow(orig, getId, rowName, |orig|)
    ensures handled == HasId(orig, getId, rowName)
  {
    ghost var replaced := Replaced(orig, getId, rowName, item);
    xs := orig;
    told := [];
    handled := false;
    var i := 0;
    while i < |xs|
      invariant 0 <= i <= |xs| == |orig|
      invariant forall k :: 0 <= k < i ==> xs[k] == replaced[k]
      invariant forall k :: i <= k < |xs| ==> xs[k] == orig[k]
      invariant handled <==> exists k :: 0 <= k < i && getId(orig[k]) == rowName
      invariant told == ChangedBelow(orig, getId, rowName, i)
    {
      if rowName == getId(xs[i]) {
        // mItems.remove(i) followed by mItems.add(i, item)
        xs := xs[i := item];
        told := told + [Changed(i)];
        handled := true;
      }
      i := i + 1;
    }
    assert xs == replaced;
  }

  // ---------------------------------------------------------------------
  // Properties of the list operations
  // ---------------------------------------------------------------------

  /** A put for an id held (once) at position k replaces that item in place,
      keeps the count, and raises exactly `changed(k)`. */
  lemma {:induction false} PutExistingReplacesInPlace<E>(items: seq<E>, getId: E -> string, k: nat, item: E)
    requires UniqueIds(items, getId)
    requires k < |items|
    ensures PutItems(items, getId, getId(items[k]), item) == items[k := item]
    ensures PutNotifications(items, getId, getId(items[k])) == [Changed(k)]
  {
    var row := getId(items[k]);
    assert HasId(items, getId, row);
    ChangedBelowUnique(items, getId, k, |items|);
  }

  lemma {:induction false} ChangedBelowUnique<E>(items: seq<E>, getId: E -> string, k: nat, n: nat)
    requires UniqueIds(items, getId)
    requires k < |items| && n <= |items|
    ensures ChangedBelow(items, getId, getId(items[k]), n) == if k < n then [Changed(k)] else []
  {
    if n > 0 {
      ChangedBelowUnique(items, getId, k, n - 1);
      assert getId(items[n - 1]) == getId(items[k]) <==> n - 1 == k by {
        if n - 1 < k {
          assert getId(items[n - 1]) != getId(items[k]);
        } else if k < n - 1 {
          assert getId(items[k]) != getId(items[n - 1]);
        }
      }
    }
  }

  /** A put for an id no item has appends the item and raises
      `inserted(|items|)`, the new last position. */
  lemma PutNewAppends<E>(items: seq<E>, getId: E -> string, row: string, item: E)
    requires forall i :: 0 <= i < |items| ==> getId(items[i]) != row
    ensures PutItems(items, getId, row, item) == items + [item]
    ensures |PutItems(items, getId, row, item)| == |items| + 1
    ensures PutNotifications(items, getId, row) == [Inserted(|items|)]
  {
  }

  /** With unique ids and the row key equal to the new item's id, a put keeps
      the ids unique. */
  lemma PutKeepsIdsUnique<E>(items: seq<E>, getId: E -> string, item: E)
    requires UniqueIds(items, getId)
    ensures UniqueIds(PutItems(items, getId, getId(item), item), getId)
  {
    var row := getId(item);
    var r := PutItems(items, getId, row, item);
    if HasId(items, getId, row) {
      var k :| 0 <= k < |items| && getId(items[k]) == row;
      forall i, j | 0 <= i < j < |r| ensures getId(r[i]) != getId(r[j]) {
        assert getId(r[i]) == getId(items[i]);
        assert getId(r[j]) == getId(items[j]);
      }
    }
  }

  lemma {:induction false} DeleteScanNoMatch<E>(items: seq<E>, getId: E -> string, row: string, i: nat)
    requires forall k :: i <= k < |items| ==> getId(items[k]) != row
    ensures DeleteScan(items, getId, row, i) == (items, [])
    decreases |items| - i
  {
    if i < |items| {
      DeleteScanNoMatch(items, getId, row, i + 1);
    }
  }

  lemma {:induction false} DeleteScanSingleMatch<E>(items: seq<E>, getId: E -> string, row: string, i: nat, k: nat)
    requires i <= k < |items| && getId(items[k]) == row
    requires forall j :: i <= j < |items| && j != k ==> getId(items[j]) != row
    ensures DeleteScan(items, getId, row, i) == (items[..k] + items[k + 1..], [Removed(k)])
    decreases |items| - i
  {
    if i < k {
      DeleteScanSingleMatch(items, getId, row, i + 1, k);
    } else {
      var rest := items[..k] + items[k + 1..];
      assert |rest| == |items| - 1;
      forall j | k + 1 <= j < |rest| ensures getId(rest[j]) != row {
        assert rest[j] == items[j + 1];
      }
      DeleteScanNoMatch(rest, getId, row, k + 1);
      assert i == k && i < |items| && getId(items[i]) == row;
      assert DeleteScan(rest, getId, row, k + 1) == (rest, []);
      assert DeleteScan(items, getId, row, i) == (DeleteScan(rest, getId, row, k + 1).0, [Removed(k)] + DeleteScan(rest, getId, row, k + 1).1);
      assert [Removed(k)] + [] == [Removed(k)];
    }
  }

  /** With unique ids, a delete removes exactly the item with that id and
      raises `removed` at its position; a delete with no match changes
      nothing and raises nothing (the method then reports the error). */
  lemma DeleteUnique<E>(items: seq<E>, getId: E -> string, row: string)
    requires UniqueIds(items, getId)
    ensures forall k :: 0 <= k < |items| && getId(items[k]) == row ==>
              DeleteScan(items, getId, row, 0) == (items[..k] + items[k + 1..], [Removed(k)])
    ensures (forall k :: 0 <= k < |items| ==> getId(items[k]) != row) ==>
              DeleteScan(items, getId, row, 0) == (items, [])
  {
    forall k | 0 <= k < |items| && getId(items[k]) == row
      ensures DeleteScan(items, getId, row, 0) == (items[..k] + items[k + 1..], [Removed(k)])
    {
      DeleteScanSingleMatch(items, getId, row, 0, k);
    }
    if forall k :: 0 <= k < |items| ==> getId(items[k]) != row {
      DeleteScanNoMatch(items, getId, row, 0);
    }
  }

  /** Deleting keeps the ids unique. */
  lemma DeleteKeepsIdsUnique<E>(items: seq<E>, getId: E -> string, row: string)
    requires UniqueIds(items, getId)
    ensures UniqueIds(DeleteScan(items, getId, row, 0).0, getId)
  {
    DeleteUnique(items, getId, row);
    if exists k :: 0 <= k < |items| && getId(items[k]) == row {
      var k :| 0 <= k < |items| && getId(items[k]) == row;
      RemoveAtKeepsUnique(items, getId, k);
    }
  }

  /** Dropping the item at one position keeps the other ids unique. */
  lemma RemoveAtKeepsUnique<E>(items: seq<E>, getId: E -> string, k: nat)
    requires UniqueIds(items, getId) && k < |items|
    ensures UniqueIds(items[..k] + items[k + 1..], getId)
  {
    var r := items[..k] + items[k + 1..];
    forall i, j | 0 <= i < j < |r| ensures getId(r[i]) != getId(r[j]) {
      var i' := if i < k then i else i + 1;
      var j' := if j < k then j else j + 1;
      assert r[i] == items[i'] && r[j] == items[j'];
    }
  }

  /** With unique ids, lookup by id finds the item holding it. */
  lemma {:induction false} FindByIdUnique<E>(items: seq<E>, getId: E -> string, k: nat)
    requires UniqueIds(items, getId)
    requires k < |items|
    ensures FindById(items, getId, getId(items[k])) == Some(items[k])
  {
    var r := FindById(items, getId, getId(items[k]));
    var j :| 0 <= j < |items| && items[j] == r.value && (forall h :: 0 <= h < j ==> getId(items[h]) != getId(items[k]));
    assert j == k;
  }

  /** The list's accessors agree: with unique ids, every position below the
      count holds an item, and looking up that item's id answers it. */
  lemma ItemsFoundById<E>(l: SyncbaseDBList<E>, position: nat)
    requires UniqueIds(l.items, l.getId) && position < l.GetItemCount()
    ensures l.GetItemById(l.getId(l.GetItem(position))) == Some(l.GetItem(position))
  {
    FindByIdUnique(l.items, l.getId, position);
  }

  // ---------------------------------------------------------------------
  // The list handed out before initialisation, and the store gate
  // ---------------------------------------------------------------------

  /** `EmptyList`: what every `get*List` returns before initialisation. */
  class EmptyList<E> {
    function GetItemCount(): (n: int)
      ensures n == 0
    {
      0
    }

    function GetItem(position: int): (r: Option<E>)
      ensures r.None?
    {
      None
    }

    function GetItemById(id: string): (r: Option<E>)
      ensures r.None?
    {
      None
    }
  }

  /** Either kind of list a `get*List` call returns. */
  datatype DbList<E> = Empty(empty: EmptyList<E>) | Synced(list: SyncbaseDBList<E>)

  /** The store handle. The identity bootstrap (blessings, the local and cloud
      Syncbase, the syncgroup) is external; it is started by `init` and its
      success is reported by `CompleteBootstrap`. */
  class SyncbaseDB {
    var initialized: bool
    /** How many times `init` has started the bootstrap. */
    var bootstrapStarts: nat

    constructor ()
      ensures !initialized && bootstrapStarts == 0
    {
      initialized := false;
      bootstrapStarts := 0;
    }

    /** `init`: a no-op once initialised. */
    method Init()
      modifies this
      ensures initialized == old(initialized)
      ensures bootstrapStarts == if old(initialized) then old(bootstrapStarts) else old(bootstrapStarts) + 1
    {
      if initialized {
        return;
      }
      bootstrapStarts := bootstrapStarts + 1;
    }

    /** The end of `joinSyncgroup`: the syncgroup was joined. */
    method CompleteBootstrap()
      modifies this
      ensures initialized && bootstrapStarts == old(bootstrapStarts)
    {
      initialized := true;
    }

    method GetList<E>(getId: E -> string, scan: seq<Option<E>>) returns (l: DbList<E>)
      ensures !initialized ==> l.Empty? && l.empty.GetItemCount() == 0 &&
                               (forall p :: l.empty.GetItem(p).None?) && (forall id :: l.empty.GetItemById(id).None?)
      ensures initialized ==> l.Synced? && fresh(l.list) && l.list.getId == getId
                              && l.list.items == DecodedPrefix(scan)
                              && !l.list.hasListener && !l.list.cancelled
    {
      if !initialized {
        var e := new EmptyList<E>;
        return Empty(e);
      }
      var list := new SyncbaseDBList(getId, scan);
      return Synced(list);
    }

    /** `getFileList` */
    method GetFileList(scan: seq<Option<File>>) returns (l: DbList<File>)
      ensures !initialized ==> l.Empty?
      ensures initialized ==> l.Synced? && fresh(l.list) && l.list.items == DecodedPrefix(scan)
                              && forall f :: l.list.getId(f) == f.id
    {
      l := GetList(FileId, scan);
    }

    /** `getDeviceList` */
    method GetDeviceList(scan: seq<Option<Device>>) returns (l: DbList<Device>)
      ensures !initialized ==> l.Empty?
      ensures initialized ==> l.Synced? && fresh(l.list) && l.list.items == DecodedPrefix(scan)
                              && forall d :: l.list.getId(d) == d.id
    {
      l := GetList(DeviceId, scan);
    }

    /** `getDeviceSetList` */
    method GetDeviceSetList(scan: seq<Option<DeviceSet>>) returns (l: DbList<DeviceSet>)
      ensures !initialized ==> l.Empty?
      ensures initialized ==> l.Synced? && fresh(l.list) && l.list.items == DecodedPrefix(scan)
                              && forall ds :: l.list.getId(ds) == ds.id
    {
      l := GetList(DeviceSetId, scan);
    }
  }

  // ---------------------------------------------------------------------
  // The username search over the blessing
  // ---------------------------------------------------------------------

  /** The extension of the last certificate of one chain that contains '@',
      or "" when none does.  Certificates are given by their extensions,
      first to last. */
  function LastExtensionWithAt(chain: seq<string>): (r: string)
    ensures r == "" <==> forall j :: 0 <= j < |chain| ==> '@' !in chain[j]
    ensures r != "" ==> ('@' in r &&
      exists j :: 0 <= j < |chain| && chain[j] == r && (forall k :: j < k < |chain| ==> '@' !in chain[k]))
  {
    var i := LastAtIndex(chain);
    if i < 0 then ""
    else
      assert chain[i][0] == '@' || '@' in chain[i][1..];
      chain[i]
  }

  /** The position the backwards walk over one chain stops at, -1 when it
      finds no extension containing '@'. */
  function LastAtIndex(chain: seq<string>): (i: int)
    ensures -1 <= i < |chain|
    ensures i >= 0 ==> '@' in chain[i]
    ensures forall k :: i < k < |chain| ==> '@' !in chain[k]
  {
    if chain == [] then -1
    else if '@' in chain[|chain| - 1] then |chain| - 1
    else
      var rest := chain[..|chain| - 1];
      assert forall k :: 0 <= k < |rest| ==> rest[k] == chain[k];
      LastAtIndex(rest)
  }

  /** `mountNameFromBlessings`: chains are searched in order, each from its
      last certificate backwards; the first extension containing '@' is the
      username, and "" means there is none. */
  function MountNameFromBlessings(chains: seq<seq<string>>): (r: string)
    ensures r == "" <==> forall i, j :: 0 <= i < |chains| && 0 <= j < |chains[i]| ==> '@' !in chains[i][j]
    ensures r != "" ==> exists i :: 0 <= i < |chains| && r == LastExtensionWithAt(chains[i]) &&
                          forall h :: 0 <= h < i ==> LastExtensionWithAt(chains[h]) == ""
  {
    if chains == [] then ""
    else
      var first := LastExtensionWithAt(chains[0]);
      if first != "" then first
      else
        var r := MountNameFromBlessings(chains[1..]);
        MountNameTail(chains, r);
        r
  }

  /** The search skips a first chain without a username: what the rest of
      the chains give is what all of them give. */
  lemma MountNameTail(chains: seq<seq<string>>, r: string)
    requires chains != [] && LastExtensionWithAt(chains[0]) == ""
    requires r == "" <==> forall i, j :: 0 <= i < |chains[1..]| && 0 <= j < |chains[1..][i]| ==> '@' !in chains[1..][i][j]
    requires r != "" ==> exists i :: 0 <= i < |chains[1..]| && r == LastExtensionWithAt(chains[1..][i]) &&
                           forall h :: 0 <= h < i ==> LastExtensionWithAt(chains[1..][h]) == ""
    ensures r == "" <==> forall i, j :: 0 <= i < |chains| && 0 <= j < |chains[i]| ==> '@' !in chains[i][j]
    ensures r != "" ==> exists i :: 0 <= i < |chains| && r == LastExtensionWithAt(chains[i]) &&
                          forall h :: 0 <= h < i ==> LastExtensionWithAt(chains[h]) == ""
  {
    assert forall i :: 0 < i < |chains| ==> chains[1..][i - 1] == chains[i];
    if r != "" {
      var i :| 0 <= i < |chains[1..]| && r == LastExtensionWithAt(chains[1..][i]) &&
               forall h :: 0 <= h < i ==> LastExtensionWithAt(chains[1..][h]) == "";
      assert r == LastExtensionWithAt(chains[i + 1]);
      forall h | 0 <= h < i + 1 ensures LastExtensionWithAt(chains[h]) == "" {
        if h > 0 { assert chains[h] == chains[1..][h - 1]; }
      }
    }
  }
}
