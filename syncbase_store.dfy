/** The web client's syncbase store without its transport: the status
    machine behind `db()`, which sets the database up once and queues the
    callers that arrive meanwhile; the table cache; the rule that a file's
    blob is stored before its row; and the classifier that turns watched
    changes into store changes. Callbacks are numbered and the answers they
    receive are kept in order; the results of the remote calls are
    parameters. */
module SyncbaseStore {
  import opened Wrappers

  datatype Status = New | Initializing | Ready

  /** A database or table handle. */
  type Handle = nat

  /** A callback called with an error or a handle. */
  datatype Answer = Answer(callback: nat, result: Result<Handle, string>)

  /** The answers the 'db' event gives the queued callers, in the order they
      queued. */
  function Released(waiting: seq<nat>, db: Handle): (r: seq<Answer>)
    ensures |r| == |waiting|
    ensures forall i :: 0 <= i < |r| ==> r[i] == Answer(waiting[i], Ok(db))
  {
    seq(|waiting|, i requires 0 <= i < |waiting| => Answer(waiting[i], Ok(db)))
  }

  /** A row headed for `put`: `ref` is the blob reference, "" while there is
      none, and is assigned in place. */
  class Data {
    const id: string
    const blob: nat
    var ref: string

    constructor (id: string, blob: nat, ref: string)
      ensures this.id == id && this.blob == blob && this.ref == ref
    {
      this.id := id;
      this.blob := blob;
      this.ref := ref;
    }
  }

  /** Where `put` hands over: an error for the callback, or the row put of
      the write-if-changed `put` on this table. */
  datatype PutStep = PutFailed(error: string) | RowPut(table: Handle)

  class Store {
    var status: Status
    /** `_db`, set once setup succeeded. */
    var db: Option<Handle>
    /** The callers queued on the 'db' event. */
    var waiting: seq<nat>
    /** The caller that began setup, while setup is under way. */
    var initiator: Option<nat>
    /** How often setup was begun. */
    var setupStarts: nat
    /** The answers `db()` gave its callbacks so far, in order. */
    var answers: seq<Answer>
    /** The answers `table()` gave its callbacks so far, in order. */
    var tableAnswers: seq<Answer>
    /** `_tables`. */
    var tables: map<string, Handle>
    /** How often `table` or `putBlob` went through `db()`. */
    var dbLookups: nat
    /** The blobs `putBlob` was asked to store. */
    var blobPuts: seq<nat>

    /** Setup is begun once, on leaving 'new'; a ready store holds its
        database and nobody waits for it; and no database or table is handed
        out, nor a table cached, before the store is ready. */
    ghost predicate Valid()
      reads this
    {
      (status == New ==> db.None? && waiting == [] && initiator.None?) &&
      (status == Ready ==> db.Some? && waiting == [] && initiator.None?) &&
      setupStarts == (if status == New then 0 else 1) &&
      (tables != map[] ==> status == Ready) &&
      (forall a :: a in answers && a.result.Ok? ==> status == Ready) &&
      (forall a :: a in tableAnswers && a.result.Ok? ==> status == Ready)
    }

    /** `Store`: status 'new', no database, no tables. */
    constructor ()
      ensures Valid()
      ensures status == New && db.None? && tables == map[] && answers == [] && tableAnswers == [] && blobPuts == []
    {
      status := New;
      db := None;
      waiting := [];
      initiator := None;
      setupStarts := 0;
      answers := [];
      tableAnswers := [];
      tables := map[];
      dbLookups := 0;
      blobPuts := [];
    }

    /** `status(s)`. */
    function IsStatus(s: Status): (r: bool)
      reads this
      ensures r <==> status == s
    {
      status == s
    }

    /** What one call of `db()` does: a ready store answers at once with its
        database; during setup the caller is queued; a new store moves to
        'initializing' and begins setup for this caller. */
    twostate predicate DbStepped(callback: nat)
      reads this
    {
      tables == old(tables) && db == old(db) && blobPuts == old(blobPuts) && tableAnswers == old(tableAnswers) &&
      (old(status) == Ready ==>
         status == Ready && db.Some? && answers == old(answers) + [Answer(callback, Ok(db.value))] &&
         waiting == old(waiting) && initiator == old(initiator) && setupStarts == old(setupStarts)) &&
      (old(status) == Initializing ==>
         status == Initializing && waiting == old(waiting) + [callback] &&
         answers == old(answers) && initiator == old(initiator) && setupStarts == old(setupStarts)) &&
      (old(status) == New ==>
         status == Initializing && initiator == Some(callback) && setupStarts == 1 &&
         answers == old(answers) && waiting == old(waiting))
    }

    /** `db()`. */
    method Db(callback: nat)
      requires Valid()
      modifies this
      ensures Valid() && DbStepped(callback) && dbLookups == old(dbLookups)
    {
      if status == Ready {
        answers := answers + [Answer(callback, Ok(db.value))];
        return;
      }
      if status == Initializing {
        waiting := waiting + [callback];
        return;
      }
      status := Initializing;
      initiator := Some(callback);
      setupStarts := setupStarts + 1;
    }

    /** `ondb`, the end of setup: a failure reaches only the caller that
        began it and the status stays 'initializing'; success stores the
        database, releases the queued callers through the 'db' event, turns
        the status 'ready' and answers the initiating caller last. */
    method SetupDone(result: Result<Handle, string>)
      requires Valid() && initiator.Some?
      modifies this
      ensures Valid()
      ensures initiator.None? && tables == old(tables) && blobPuts == old(blobPuts) && dbLookups == old(dbLookups)
      ensures tableAnswers == old(tableAnswers)
      ensures result.Err? ==>
        status == Initializing && db == old(db) && waiting == old(waiting) &&
        answers == old(answers) + [Answer(old(initiator).value, Err(result.error))]
      ensures result.Ok? ==>
        status == Ready && db == Some(result.value) && waiting == [] &&
        answers == old(answers) + Released(old(waiting), result.value) + [Answer(old(initiator).value, Ok(result.value))]
    {
      var callback := initiator.value;
      initiator := None;
      if result.Err? {
        answers := answers + [Answer(callback, Err(result.error))];
        return;
      }
      db := Some(result.value);
      answers := answers + Released(waiting, result.value);
      waiting := [];
      status := Ready;
      answers := answers + [Answer(callback, Ok(result.value))];
    }

    /** `table()` up to its call of `db()`: a cached keyspace is answered
        from the cache without touching the database; otherwise the table's
        `ondb` callback goes through `db()`. */
    method Table(keyspace: string, callback: nat)
      requires Valid()
      modifies this
      ensures Valid()
      ensures keyspace in old(tables) ==>
        tableAnswers == old(tableAnswers) + [Answer(callback, Ok(old(tables)[keyspace]))] &&
        status == old(status) && db == old(db) && waiting == old(waiting) && answers == old(answers) &&
        initiator == old(initiator) && setupStarts == old(setupStarts) &&
        tables == old(tables) && blobPuts == old(blobPuts) && dbLookups == old(dbLookups)
      ensures keyspace !in old(tables) ==> DbStepped(callback) && dbLookups == old(dbLookups) + 1
    {
      if keyspace in tables {
        tableAnswers := tableAnswers + [Answer(callback, Ok(tables[keyspace]))];
        return;
      }
      dbLookups := dbLookups + 1;
      Db(callback);
    }

    /** The `ondb` callback of `table()`, run on the answer `db()` gave it:
        an error is passed on; otherwise the table `keyspace` of that
        database is opened, with result `outcome`, and cached when that
        succeeds. */
    method TableOpened(keyspace: string, callback: nat, dbAnswer: Result<Handle, string>, outcome: Result<Handle, string>)
      returns (r: Result<Handle, string>)
      requires Valid() && Answer(callback, dbAnswer) in answers
      modifies this
      ensures Valid()
      ensures dbAnswer.Err? ==> r == Err(dbAnswer.error) && tables == old(tables)
      ensures dbAnswer.Ok? ==>
        r == outcome && tables == (if outcome.Ok? then old(tables)[keyspace := outcome.value] else old(tables))
      ensures tableAnswers == old(tableAnswers) + [Answer(callback, r)]
      ensures status == old(status) && db == old(db) && waiting == old(waiting) && answers == old(answers)
      ensures initiator == old(initiator) && setupStarts == old(setupStarts)
      ensures blobPuts == old(blobPuts) && dbLookups == old(dbLookups)
    {
      if dbAnswer.Err? {
        r := Err(dbAnswer.error);
      } else if outcome.Err? {
        r := Err(outcome.error);
      } else {
        tables := tables[keyspace := outcome.value];
        r := outcome;
      }
      tableAnswers := tableAnswers + [Answer(callback, r)];
    }

    /** The `ontable` callback of `put`, run on the answer `table()` gave it:
        `data.id` is required; an error is passed on; a file without a blob
        reference first has its blob stored through `putBlob`, whose `db()`
        call, numbered `blobCallback`, the ready store answers at once; the
        reference `putBlob` returns is set on `data` before the row is put. */
    method Put(keyspace: string, data: Data, callback: nat, tableAnswer: Result<Handle, string>,
               blobCallback: nat, blobResult: Result<string, string>)
      returns (step: PutStep)
      requires Valid() && Answer(callback, tableAnswer) in tableAnswers
      requires data.id != ""
      modifies this, data
      ensures Valid()
      ensures status == old(status) && db == old(db) && waiting == old(waiting)
      ensures tables == old(tables) && initiator == old(initiator) && setupStarts == old(setupStarts)
      ensures tableAnswers == old(tableAnswers)
      ensures tableAnswer.Err? ==>
        step == PutFailed(tableAnswer.error) && data.ref == old(data.ref) &&
        answers == old(answers) && blobPuts == old(blobPuts) && dbLookups == old(dbLookups)
      ensures tableAnswer.Ok? ==> status == Ready && db.Some?
      ensures tableAnswer.Ok? && keyspace == "files" && old(data.ref) == "" ==>
        answers == old(answers) + [Answer(blobCallback, Ok(db.value))] &&
        blobPuts == old(blobPuts) + [data.blob] && dbLookups == old(dbLookups) + 1 &&
        (blobResult.Err? ==> step == PutFailed(blobResult.error) && data.ref == old(data.ref)) &&
        (blobResult.Ok? ==> step == RowPut(tableAnswer.value) && data.ref == blobResult.value)
      ensures tableAnswer.Ok? && !(keyspace == "files" && old(data.ref) == "") ==>
        step == RowPut(tableAnswer.value) && data.ref == old(data.ref) &&
        answers == old(answers) && blobPuts == old(blobPuts) && dbLookups == old(dbLookups)
    {
      if tableAnswer.Err? {
        step := PutFailed(tableAnswer.error);
        return;
      }
      if keyspace == "files" && data.ref == "" {
        dbLookups := dbLookups + 1;
        Db(blobCallback);
        blobPuts := blobPuts + [data.blob];
        if blobResult.Err? {
          step := PutFailed(blobResult.error);
          return;
        }
        data.ref := blobResult.value;
        step := RowPut(tableAnswer.value);
      } else {
        step := RowPut(tableAnswer.value);
      }
    }
  }

  /** What a caller learns from `status`: a ready store holds its database
      and queues nobody, and a new one has begun no setup and cached no
      table. */
  lemma StatusMeans(s: Store)
    requires s.Valid()
    ensures s.IsStatus(Ready) ==> s.db.Some? && s.waiting == [] && s.setupStarts == 1
    ensures s.IsStatus(New) ==> s.db.None? && s.setupStarts == 0 && s.tables == map[]
  {
  }

  /** A table is handed out only by a ready store, and a ready store answers
      the `ondb` of `table()` with its own database. */
  lemma TableAnswersOnlyWhenReady(s: Store, callback: nat, t: Handle)
    requires s.Valid()
    requires Answer(callback, Ok(t)) in s.tableAnswers || Answer(callback, Ok(t)) in s.answers
    ensures s.IsStatus(Ready) && s.db.Some?
  {
  }

  /** Every caller of `db()` on a store that sets up successfully receives
      the database, the queued ones in the order they called. */
  lemma ReleasedAnswersEveryone(waiting: seq<nat>, db: Handle, callback: nat)
    requires callback in waiting
    ensures Answer(callback, Ok(db)) in Released(waiting, db)
  {
    var i :| 0 <= i < |waiting| && waiting[i] == callback;
    assert Released(waiting, db)[i] == Answer(callback, Ok(db));
  }

  /** A change the watch stream delivers. */
  datatype WatchChunk = WatchChunk(fromSync: bool, changeType: string, rowName: string, tableName: string)

  /** A change as the store emits it. */
  datatype StoreChange<V> = StoreChange(changeType: string, key: string, keyspace: string, value: Option<V>)

  /** What `write` does with a chunk. */
  datatype WatchStep<V> =
    | Dropped
    | Emitted(change: StoreChange<V>)
    | WatchFailed(error: string)
    | Stalled

  /** Whether `write` fetches the row's value. */
  predicate FetchesValue(chunk: WatchChunk)
  {
    chunk.fromSync && chunk.changeType == "put"
  }

  /** `write` of the watch stream: local changes are dropped; a delete is
      emitted as type, key and keyspace; a put is emitted with the value
      `get` fetched for it, whose answer is `fetched`; any other type never
      calls back. */
  function Classify<V>(chunk: WatchChunk, fetched: Result<V, string>): (s: WatchStep<V>)
    ensures s.Dropped? <==> !chunk.fromSync
    ensures chunk.fromSync && chunk.changeType == "delete" ==>
      s == Emitted(StoreChange("delete", chunk.rowName, chunk.tableName, None))
    ensures FetchesValue(chunk) && fetched.Ok? ==>
      s == Emitted(StoreChange("put", chunk.rowName, chunk.tableName, Some(fetched.value)))
    ensures FetchesValue(chunk) && fetched.Err? ==> s == WatchFailed(fetched.error)
    ensures s.Stalled? <==> chunk.fromSync && chunk.changeType != "put" && chunk.changeType != "delete"
    ensures s.Emitted? ==> s.change.key == chunk.rowName && s.change.keyspace == chunk.tableName
    ensures s.Emitted? ==> (s.change.value.Some? <==> s.change.changeType == "put")
  {
    if !chunk.fromSync then Dropped
    else if chunk.changeType == "put" then
      match fetched
      case Err(e) => WatchFailed(e)
      case Ok(v) => Emitted(StoreChange(chunk.changeType, chunk.rowName, chunk.tableName, Some(v)))
    else if chunk.changeType == "delete" then
      Emitted(StoreChange(chunk.changeType, chunk.rowName, chunk.tableName, None))
    else Stalled
  }
}
