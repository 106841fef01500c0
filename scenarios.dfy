/** Clients of LmdbDict, proved from the class's contracts alone. */
module Scenarios {
  import opened Wrappers
  import opened Lmdb
  import opened Errors
  import opened Core

  /** b"key" and b"value". */
  const KEY: Key := [0x6b, 0x65, 0x79]
  const VALUE: Value := [0x76, 0x61, 0x6c, 0x75, 0x65]

  /**
   * The class docstring: a writer used as a context manager stores
   * b"key" = b"value"; a read-only handle opened afterwards on the same
   * directory reads it back.
   */
  method DocstringExample(dir: Directory) returns (read: Result<Value, Error>)
    modifies dir
    ensures read == Ok(VALUE)
    ensures dir.data == old(dir.data)[KEY := VALUE]
  {
    var db := new LmdbDict(dir, true);
    var w := db.Enter();
    var _ := w.Set(KEY, VALUE);
    w.Exit();
    var reader := new LmdbDict(dir);
    var r := reader.Enter();
    read := r.Get(KEY);
    var txn := r.Transaction();
    assert txn.Ok? && !txn.value.write;
    var flushed := r.Flush();
    assert flushed == Err(EngineError(Lmdb.ReadOnlyEnv));
    r.Exit();
  }

  /**
   * A closed handle refuses reads and writes and keeps the data; entering it
   * again reopens it and the data is read back. A read-only handle refuses
   * to write.
   */
  method ReopenExample(dir: Directory) returns (afterClose: Result<Value, Error>, afterReopen: Result<Value, Error>, readerSet: Result<(), Error>)
    modifies dir
    ensures afterClose == Err(RuntimeError(NOT_OPEN))
    ensures afterReopen == Ok(VALUE)
    ensures readerSet == Err(RuntimeError(NOT_WRITER))
    ensures dir.data == old(dir.data)[KEY := VALUE]
  {
    var db := new LmdbDict(dir, true);
    var _ := db.Set(KEY, VALUE);
    db.Close();
    db.Close();
    afterClose := db.Get(KEY);
    var refused := db.Set(KEY, []);
    assert refused == Err(RuntimeError(NOT_WRITER));
    var same := db.Enter();
    afterReopen := same.Get(KEY);
    same.Exit();
    var reader := new LmdbDict(dir, false);
    readerSet := reader.Set(KEY, []);
    reader.Close();
  }
}
