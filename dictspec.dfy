/**
 * The behaviour of an LmdbDict as a state machine over abstract values: the
 * writer flag fixed at construction, whether the environment is open, and the
 * contents of the environment directory. Each operation gives its result and,
 * for those that change something, the next state.
 */
module DictSpec {
  import opened Wrappers
  import opened Bytes
  import opened Lmdb
  import opened Errors

  datatype State = State(writer: bool, open: bool, store: Store)

  /** Construction opens the environment at once. */
  function Init(writer: bool, store: Store): (st: State) {
    State(writer, true, store)
  }

  function Get(st: State, key: Key): (r: Result<Value, Error>) {
    if !st.open then Err(RuntimeError(NOT_OPEN))
    else if key in st.store then Ok(st.store[key])
    else Err(KeyError(key))
  }

  function Set(st: State, key: Key, value: Value): (step: (State, Result<(), Error>)) {
    if !st.writer || !st.open then (st, Err(RuntimeError(NOT_WRITER)))
    else (st.(store := st.store[key := value]), Ok(()))
  }

  function Delete(st: State, key: Key): (step: (State, Result<(), Error>)) {
    if !st.writer || !st.open then (st, Err(RuntimeError(NOT_WRITER)))
    else if key in st.store then (st.(store := st.store - {key}), Ok(()))
    else (st, Err(KeyError(key)))
  }

  function Items(st: State): (r: Result<seq<(Key, Value)>, Error>) {
    if !st.open then Err(RuntimeError(NOT_OPEN)) else Ok(CursorWalk(st.store))
  }

  function Keys(st: State): (r: Result<seq<Key>, Error>) {
    if !st.open then Err(RuntimeError(NOT_OPEN)) else Ok(Firsts(CursorWalk(st.store)))
  }

  function Values(st: State): (r: Result<seq<Value>, Error>) {
    if !st.open then Err(RuntimeError(NOT_OPEN)) else Ok(Seconds(CursorWalk(st.store)))
  }

  function Len(st: State): (r: Result<nat, Error>) {
    if !st.open then Err(RuntimeError(NOT_OPEN)) else Ok(|st.store|)
  }

  /**
   * The explicit transaction escape hatch: on success, whether the
   * transaction is a write transaction. The dictionary only guards against a
   * closed environment; the engine refuses a write transaction on a
   * read-only environment.
   */
  function Transaction(st: State, write: bool): (r: Result<bool, Error>) {
    if !st.open then Err(RuntimeError(NOT_OPEN))
    else if write && !st.writer then Err(EngineError(ReadOnlyEnv))
    else Ok(write)
  }

  /**
   * `flush`: nothing on a closed handle; on an open one the engine's sync,
   * which the engine refuses on a read-only environment.
   */
  function Flush(st: State): (r: Result<(), Error>) {
    if !st.open then Ok(())
    else if !st.writer then Err(EngineError(ReadOnlyEnv))
    else Ok(())
  }

  function Close(st: State): (next: State) {
    st.(open := false)
  }

  function Enter(st: State): (next: State) {
    st.(open := true)
  }

  function Exit(st: State): (next: State) {
    Close(st)
  }

  /** A freshly constructed handle is open, keeps its writer flag and sees the directory as it is. */
  lemma InitOpens(writer: bool, store: Store)
    ensures Init(writer, store).open
    ensures Init(writer, store).writer == writer && Init(writer, store).store == store
    ensures Len(Init(writer, store)) == Ok(|store|)
  {
  }

  /**
   * On a closed handle every operation fails with RuntimeError and nothing
   * changes.
   */
  lemma ClosedHandleRefuses(st: State, key: Key, value: Value, write: bool)
    requires !st.open
    ensures Get(st, key) == Err(RuntimeError(NOT_OPEN))
    ensures Len(st) == Err(RuntimeError(NOT_OPEN))
    ensures Keys(st) == Err(RuntimeError(NOT_OPEN))
    ensures Values(st) == Err(RuntimeError(NOT_OPEN))
    ensures Items(st) == Err(RuntimeError(NOT_OPEN))
    ensures Transaction(st, write) == Err(RuntimeError(NOT_OPEN))
    ensures Set(st, key, value) == (st, Err(RuntimeError(NOT_WRITER)))
    ensures Delete(st, key) == (st, Err(RuntimeError(NOT_WRITER)))
  {
  }

  /**
   * A read-only handle refuses writes and leaves the store unchanged, but it
   * reads like any other: `get` performs no writer check.
   */
  lemma ReaderRefusesWrites(st: State, key: Key, value: Value)
    requires !st.writer
    ensures Set(st, key, value) == (st, Err(RuntimeError(NOT_WRITER)))
    ensures Delete(st, key) == (st, Err(RuntimeError(NOT_WRITER)))
    ensures st.open && key in st.store ==> Get(st, key) == Ok(st.store[key])
    ensures Transaction(st, true).Err? && Transaction(st, false) == (if st.open then Ok(false) else Err(RuntimeError(NOT_OPEN)))
  {
  }

  /** `get` succeeds exactly on an open handle and a present key, and then yields the stored value. */
  lemma GetFindsStored(st: State, key: Key)
    ensures Get(st, key).Ok? <==> st.open && key in st.store
    ensures Get(st, key).Ok? ==> Get(st, key).value == st.store[key]
    ensures st.open && key !in st.store ==> Get(st, key) == Err(KeyError(key))
  {
  }

  /**
   * Upsert round trip: on an open writer `set` succeeds, a following `get`
   * of the key yields the value just written, every other key reads as
   * before, and the count grows by one exactly when the key was new.
   */
  lemma SetThenGet(st: State, key: Key, value: Value, other: Key)
    requires st.open && st.writer
    ensures Set(st, key, value).1 == Ok(())
    ensures Get(Set(st, key, value).0, key) == Ok(value)
    ensures other != key ==> Get(Set(st, key, value).0, other) == Get(st, other)
    ensures Len(Set(st, key, value).0) == Ok(if key in st.store then |st.store| else |st.store| + 1)
  {
  }

  /**
   * Deleting a present key on an open writer removes exactly that key: a
   * following `get` raises KeyError, other keys read as before, and the count
   * drops by one.
   */
  lemma DeleteThenGet(st: State, key: Key, other: Key)
    requires st.open && st.writer && key in st.store
    ensures Delete(st, key).1 == Ok(())
    ensures Get(Delete(st, key).0, key) == Err(KeyError(key))
    ensures other != key ==> Get(Delete(st, key).0, other) == Get(st, other)
    ensures Len(Delete(st, key).0) == Ok(|st.store| - 1)
  {
  }

  /** Deleting an absent key raises KeyError and leaves the store unchanged. */
  lemma DeleteAbsent(st: State, key: Key)
    requires st.open && st.writer && key !in st.store
    ensures Delete(st, key) == (st, Err(KeyError(key)))
  {
  }

  /**
   * The traversals walk one cursor: keys and values are the two projections
   * of items, the count agrees with `len`, keys come out strictly ascending,
   * and a key is listed exactly when it is stored.
   */
  lemma TraversalsAgree(st: State)
    requires st.open
    ensures Items(st).Ok? && Keys(st).Ok? && Values(st).Ok? && Len(st).Ok?
    ensures Keys(st).value == Firsts(Items(st).value)
    ensures Values(st).value == Seconds(Items(st).value)
    ensures |Items(st).value| == Len(st).value
    ensures Ascending(Keys(st).value)
    ensures forall k :: k in Keys(st).value <==> k in st.store
    ensures forall i :: 0 <= i < |Keys(st).value| ==> st.store[Keys(st).value[i]] == Values(st).value[i]
  {
  }

  /**
   * Iteration order is fixed by the contents: any listing of the store's
   * entries in ascending key order is what `items` yields.
   */
  lemma IterationOrder(st: State, c: seq<(Key, Value)>)
    requires st.open && Enumerates(c, st.store)
    ensures Items(st) == Ok(c)
    ensures Keys(st) == Ok(Firsts(c))
  {
    CursorUnique(c, st.store);
  }

  /**
   * Writing b"three", b"one" and b"two", in that order, into an empty
   * store and then iterating yields them in byte order, not insertion order.
   */
  lemma InsertionOrderExample()
    ensures
      var one: Key := [0x6f, 0x6e, 0x65];
      var three: Key := [0x74, 0x68, 0x72, 0x65, 0x65];
      var two: Key := [0x74, 0x77, 0x6f];
      var st0 := Init(true, map[]);
      var st1 := Set(st0, three, [0x33]).0;
      var st2 := Set(st1, one, [0x31]).0;
      var st3 := Set(st2, two, [0x32]).0;
      Keys(st3) == Ok([one, three, two])
  {
    var one: Key := [0x6f, 0x6e, 0x65];
    var three: Key := [0x74, 0x68, 0x72, 0x65, 0x65];
    var two: Key := [0x74, 0x77, 0x6f];
    var st3 := Init(true, map[three := [0x33], one := [0x31], two := [0x32]]);
    var c := [(one, [0x31]), (three, [0x33]), (two, [0x32])];
    assert Less(one, three);
    assert three[1..] == [0x68, 0x72, 0x65, 0x65] && two[1..] == [0x77, 0x6f];
    assert Less(three, two);
    assert Less(one, two);
    assert Firsts(c) == [one, three, two];
    IterationOrder(st3, c);
  }

  /**
   * `flush` touches nothing on a closed handle, succeeds on an open writer,
   * and fails with the engine's read-only error on an open reader.
   */
  lemma FlushOutcome(st: State)
    ensures !st.open ==> Flush(st) == Ok(())
    ensures Flush(st).Err? <==> st.open && !st.writer
    ensures Flush(st).Err? ==> Flush(st).error == EngineError(ReadOnlyEnv)
  {
  }

  /** `close` leaves the handle closed and the data in place; closing twice is closing once. */
  lemma CloseIdempotent(st: State)
    ensures !Close(st).open
    ensures Close(st).store == st.store && Close(st).writer == st.writer
    ensures Close(Close(st)) == Close(st)
  {
  }

  /**
   * `__enter__` reopens a closed handle and leaves an open one as it is;
   * the data written before closing is read back after reopening.
   */
  lemma EnterReopens(st: State, key: Key)
    ensures Enter(st).open && Enter(st).store == st.store && Enter(st).writer == st.writer
    ensures st.open ==> Enter(st) == st
    ensures Get(Enter(Close(st)), key) == Get(Enter(st), key)
  {
  }

  /** `__exit__` always closes, whatever the state. */
  lemma ExitCloses(st: State)
    ensures Exit(st) == Close(st) && !Exit(st).open
  {
  }

  /**
   * The data outlives the handle: what a writer stored before it was closed
   * is what a reader opened afterwards on the same directory sees.
   */
  lemma ReaderSeesWriterData(store: Store, key: Key, value: Value)
    ensures
      var written := Set(Init(true, store), key, value).0;
      var reader := Init(false, Exit(written).store);
      Get(reader, key) == Ok(value) && Len(reader) == Len(written)
  {
  }
}
