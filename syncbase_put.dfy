/** The write-if-changed `put` of the browser's store: read the row under
    `data.id`, skip the write when the stored value already equals `data`,
    and otherwise write the JSON encoding of `data` under its id. The table
    is a map from row key to stored string plus a log of the `table.put`
    calls issued; decoding, encoding and the transport's faults are
    parameters. */
module SyncbasePut {
  import opened Wrappers

  /** What the read of `data.id` delivers: the decoded value, the missing
      row (`NoExistError`), or any other error. */
  datatype ReadResult<V> = Found(value: V) | NoExist | ReadFailed(reason: string)

  datatype PutError = ReadError(reason: string) | EncodeError | WriteError(reason: string)

  /** What `onGet` does with the read. */
  datatype Decision = Fail(error: PutError) | Skip | Write(encoded: string)

  /** The read of a key: a transport fault, a missing row, a row whose
      stored string does not decode, or the decoded value. */
  function ReadRow<V>(rows: map<string, string>, key: string, parse: string -> Option<V>, fault: Option<string>): (r: ReadResult<V>)
    ensures fault.Some? ==> r == ReadFailed(fault.value)
    ensures fault.None? && key !in rows ==> r.NoExist?
    ensures fault.None? && key in rows ==> (r.Found? <==> parse(rows[key]).Some?)
    ensures r.Found? ==> key in rows && parse(rows[key]) == Some(r.value)
  {
    if fault.Some? then ReadFailed(fault.value)
    else if key !in rows then NoExist
    else match parse(rows[key])
      case None => ReadFailed("parse")
      case Some(v) => Found(v)
  }

  /** `onGet`: any read error but a missing row is passed on; a stored value
      strictly equal to `data` means nothing to write; otherwise `data` is
      written in its encoding, unless encoding it fails. */
  function Decide<V(==)>(read: ReadResult<V>, data: V, encoded: Option<string>): (d: Decision)
    ensures read.ReadFailed? ==> d == Fail(ReadError(read.reason))
    ensures d.Skip? <==> read == Found(data)
    ensures d.Write? <==> !read.ReadFailed? && read != Found(data) && encoded.Some?
    ensures d.Write? ==> d.encoded == encoded.value
    ensures d == Fail(EncodeError) <==> !read.ReadFailed? && read != Found(data) && encoded.None?
  {
    if read.ReadFailed? then Fail(ReadError(read.reason))
    else if read == Found(data) then Skip
    else match encoded
      case None => Fail(EncodeError)
      case Some(s) => Write(s)
  }

  class Table<V(==)> {
    const name: string
    /** `data.id`. */
    const idOf: V -> string
    /** The row decoding of the read path. */
    const parse: string -> Option<V>
    /** `JSON.stringify`, `None` where it throws. */
    const encode: V -> Option<string>
    var rows: map<string, string>
    /** The `table.put` calls issued: key and string. */
    var writes: seq<(string, string)>

    constructor (name: string, idOf: V -> string, parse: string -> Option<V>, encode: V -> Option<string>, rows: map<string, string>)
      ensures this.name == name && this.idOf == idOf && this.parse == parse && this.encode == encode
      ensures this.rows == rows && writes == []
    {
      this.name := name;
      this.idOf := idOf;
      this.parse := parse;
      this.encode := encode;
      this.rows := rows;
      writes := [];
    }

    /** `put`: the callback's answer is the result. `readFault` and
        `writeFault` are the errors the transport reports, if any. */
    method Put(data: V, readFault: Option<string>, writeFault: Option<string>) returns (r: Result<V, PutError>)
      modifies this
      ensures var d := Decide(ReadRow(old(rows), idOf(data), parse, readFault), data, encode(data));
        (d.Fail? ==> r == Err(d.error) && rows == old(rows) && writes == old(writes)) &&
        (d.Skip? ==> r == Ok(data) && rows == old(rows) && writes == old(writes)) &&
        (d.Write? ==>
           (writes == old(writes) + [(idOf(data), d.encoded)] &&
            (writeFault.None? ==> r == Ok(data) && rows == old(rows)[idOf(data) := d.encoded]) &&
            (writeFault.Some? ==> r == Err(WriteError(writeFault.value)) && rows == old(rows))))
    {
      var key := idOf(data);
      var stored := ReadRow(rows, key, parse, readFault);
      if stored.ReadFailed? {
        r := Err(ReadError(stored.reason));
        return;
      }
      if stored == Found(data) {
        r := Ok(data);
        return;
      }
      var s := encode(data);
      if s.None? {
        r := Err(EncodeError);
        return;
      }
      writes := writes + [(key, s.value)];
      if writeFault.Some? {
        r := Err(WriteError(writeFault.value));
      } else {
        rows := rows[key := s.value];
        r := Ok(data);
      }
    }
  }

  /** A value that decodes back from its own encoding is stored for good by
      one put: afterwards, an identical put reads it back equal and issues no
      second write. */
  lemma RepeatPutSkips<V>(rows: map<string, string>, key: string, data: V,
                          parse: string -> Option<V>, encode: V -> Option<string>, readFault: Option<string>)
    requires encode(data).Some? && parse(encode(data).value) == Some(data)
    requires Decide(ReadRow(rows, key, parse, readFault), data, encode(data)).Write?
    ensures Decide(ReadRow(rows[key := encode(data).value], key, parse, None), data, encode(data)) == Skip
  {
  }

  /** A put is skipped exactly when the row already holds a string that
      decodes to `data`. */
  lemma SkipMeansStored<V>(rows: map<string, string>, key: string, data: V,
                           parse: string -> Option<V>, encoded: Option<string>, readFault: Option<string>)
    ensures Decide(ReadRow(rows, key, parse, readFault), data, encoded) == Skip <==>
            readFault.None? && key in rows && parse(rows[key]) == Some(data)
  {
  }

  /** A missing row never stops the write: it is treated as absent. */
  lemma MissingRowIsWritten<V>(rows: map<string, string>, key: string, data: V,
                               parse: string -> Option<V>, encoded: Option<string>)
    requires key !in rows && encoded.Some?
    ensures Decide(ReadRow(rows, key, parse, None), data, encoded) == Write(encoded.value)
  {
  }
}
