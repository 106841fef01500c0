# lmdb-simple: the LmdbDict handle

`LmdbDict` (lmdb_simple/core.py) wraps an LMDB environment directory in a
dictionary interface. Keys and values are opaque byte strings. The dictionary
operations (get, set, delete, the traversals and `len`) first check that the
environment is open, and set and delete also check that the handle was built
as a writer. Each then runs one short transaction and returns a value or
raises `KeyError` or `RuntimeError`. `flush` asks the engine to sync, and
does nothing on a closed handle. `transaction` checks only that the handle
is open, then returns a transaction that the caller must finish. The handle
is also a context manager: entering reopens a closed environment and leaving
closes it. `close`, `__enter__` and `__exit__` run no transaction. The data
stays in the directory across close and reopen.

The model has these modules:

- `Bytes` (bytes.dfy): the `byte` type and LMDB's default key order. The
  comparison is byte by byte, unsigned, and a proper prefix comes first. The
  module proves that this order is irreflexive, asymmetric, transitive and
  total.
- `Lmdb` (lmdb.dfy): an abstract stand-in for the engine. A `Directory` holds
  the on-disk contents as a `map` from keys to values; several handles can
  share one. An `Environment` class is what `lmdb.open` returns: it carries
  its `readonly` and `create` flags and can be closed. A `Txn` has get, put,
  delete, stat and cursor, all acting on the directory's map. `CursorWalk`
  lists a store's entries in ascending key order, and `CursorUnique` proves
  that no other ascending listing exists.
- `Errors` (errors.dfy): `KeyError(key)`, `RuntimeError(msg)` with the two
  messages the source uses, and `EngineError` for an error the engine raises
  itself.
- `DictSpec` (dictspec.dfy): the handle as a pure state machine. The state is
  `writer`, `open` and `store`. The module has one function per operation and
  lemmas that relate the operations to each other.
- `Core` (core.dfy): class `LmdbDict` with the fields `path` (the directory),
  `writer` (a `const`, so it is fixed for the object's lifetime) and `env`
  (`null` once closed). `Valid()` says that an open environment belongs to the
  handle's directory, is read-only exactly when `writer` is false, and may
  create files exactly when `writer` is true. The constructor is proved to
  agree with `DictSpec.Init`. `Iter` and `Keys` agree with `DictSpec.Keys`.
  Every other dictionary method, and `Flush`, `Close`, `Enter` and `Exit`,
  agrees with the `DictSpec` function of the same name, applied to `Abs()`.
  `Transaction` agrees with `DictSpec.Transaction` on whether it succeeds, on
  the error, and on the write flag; on success it returns a transaction on
  this handle's environment. `OpenEnv` has no `DictSpec` counterpart: it
  states the new environment's flags directly. Three small methods hold the
  loops of the `for ... in cursor: yield` generators.
- `Scenarios` (scenarios.dfy): clients that use only the class's contracts.
  One is the class docstring's example; the other walks through close and
  reopen.

Points of the source that the model follows exactly:

- Errors. `RuntimeError("Environment is not open")` is raised from get, the
  traversals, `len` and `transaction`. `RuntimeError("Database not opened
  for writing")` is raised from `__setitem__` and `__delitem__`, both on a
  reader and on a closed handle. `KeyError(key)` is raised for a missing key.
- `transaction` has no writer check. With `write=True` on a read-only handle
  it passes the handle's guard, and the engine then refuses the write
  transaction. This is modelled as `EngineError(ReadOnlyEnv)`.
- `flush` on an open read-only handle reaches the engine's sync. The engine
  refuses to sync a read-only environment; this is also modelled as
  `EngineError(ReadOnlyEnv)`.
- Opening. Construction opens the environment eagerly. `__enter__` reopens
  only a closed handle.
- Defaults. `writer` defaults to false and `transaction`'s `write` defaults
  to false, as in the source.

## Model

| member | source | states |
|---|---|---|
| `Core.LmdbDict.constructor` | lmdb_simple/core.py:28-41 | the new handle is open on a fresh environment, keeps `writer` and the directory, and the environment is read-only exactly when `writer` is false |
| `Core.LmdbDict.OpenEnv` | lmdb_simple/core.py:43-50 | opens a fresh environment on the directory with `readonly = not writer` and `create = writer` |
| `Core.LmdbDict.Get` | lmdb_simple/core.py:52-59 | the result is `DictSpec.Get` of the handle's state: RuntimeError when closed, the stored value when the key is present, KeyError when absent; no writer check |
| `Core.LmdbDict.Set` | lmdb_simple/core.py:61-65 | new state and result are those of `DictSpec.Set`: refused with RuntimeError and the store unchanged unless open and a writer, otherwise an upsert of exactly that key |
| `Core.LmdbDict.Delete` | lmdb_simple/core.py:67-73 | new state and result are those of `DictSpec.Delete`: refused unless open and a writer; a present key is removed; an absent key raises KeyError with the store unchanged |
| `Core.LmdbDict.Iter` | lmdb_simple/core.py:75-81 | on an open handle, the keys of the cursor walk over the directory's contents; RuntimeError when closed |
| `Core.LmdbDict.Len` | lmdb_simple/core.py:83-88 | on an open handle, the number of stored entries; RuntimeError when closed |
| `Core.LmdbDict.Keys` | lmdb_simple/core.py:90-91 | the same result as `Iter` |
| `Core.LmdbDict.Values` | lmdb_simple/core.py:93-99 | on an open handle, the values of the cursor walk, in key order; RuntimeError when closed |
| `Core.LmdbDict.Items` | lmdb_simple/core.py:101-107 | on an open handle, the whole cursor walk as pairs; RuntimeError when closed |
| `Core.YieldKeys` | lmdb_simple/core.py:79-81 | the loop yields the first component of every cursor pair, in order |
| `Core.YieldValues` | lmdb_simple/core.py:97-99 | the loop yields the second component of every cursor pair, in order |
| `Core.YieldItems` | lmdb_simple/core.py:105-107 | the loop yields every cursor pair, in order |
| `Core.LmdbDict.Flush` | lmdb_simple/core.py:109-113 | state unchanged and the result is `DictSpec.Flush`: nothing is done on a closed handle, an open writer's environment syncs once, and an open reader fails with the engine's read-only error without syncing |
| `Core.LmdbDict.Close` | lmdb_simple/core.py:115-119 | the handle ends closed, an open environment is closed, the store is untouched; on a closed handle nothing changes |
| `Core.LmdbDict.Enter` | lmdb_simple/core.py:121-124 | returns the handle itself; an open environment is kept as is (same object), a closed handle gets a fresh one |
| `Core.LmdbDict.Exit` | lmdb_simple/core.py:126-132 | always leaves the handle closed with the store untouched, and closes the environment it held |
| `Core.LmdbDict.Transaction` | lmdb_simple/core.py:134-143 | RuntimeError when closed; otherwise a transaction of the requested mode on this handle's environment, except that the engine refuses a write transaction on a read-only handle |
| `Lmdb.CursorWalk` | lmdb_simple/core.py:79-80 | the cursor lists every entry of the store exactly once, with keys in strictly ascending byte order, and has as many pairs as the store has entries |
| `Lmdb.CursorUnique` | lmdb_simple/core.py:79-80 | any listing of a store's entries in ascending key order is the cursor walk, so the order depends on the contents only |
| `Lmdb.Environment.Open` | lmdb_simple/core.py:45-50 | `lmdb.open`: a new, open environment on the directory with the given `readonly` and `create` flags and no syncs yet |
| `Lmdb.Environment.Begin` | lmdb_simple/core.py:55 | `env.begin`: succeeds exactly on an open environment when no write is asked of a read-only one, giving a transaction bound to it in the requested mode |
| `Lmdb.Environment.Sync` | lmdb_simple/core.py:113 | `env.sync`: a writable environment syncs once; a read-only one is refused with its count unchanged |
| `Lmdb.Environment.Close` | lmdb_simple/core.py:118 | `env.close`: the environment ends closed |
| `Lmdb.Txn.Get` | lmdb_simple/core.py:56 | `txn.get`: a value exactly when the key is stored, and then the stored value |
| `Lmdb.Txn.Put` | lmdb_simple/core.py:65 | `txn.put`: the directory's map updated at exactly that key |
| `Lmdb.Txn.Delete` | lmdb_simple/core.py:71 | `txn.delete`: reports whether the key was stored and removes exactly it, leaving the map unchanged when it was absent |
| `Lmdb.Txn.Stat` | lmdb_simple/core.py:87 | `txn.stat()["entries"]`: the number of stored keys |
| `Lmdb.Txn.Cursor` | lmdb_simple/core.py:79 | `txn.cursor()`: enumerates the directory's entries, one pair per entry, keys strictly ascending |
| `Bytes.LessTotal` | lmdb_simple/core.py:79-80 | the cursor's byte order ranks any two distinct keys one way or the other |
| `Bytes.LessTransitive` | lmdb_simple/core.py:79-80 | the cursor's byte order is transitive |
| `DictSpec.InitOpens` | lmdb_simple/core.py:35-41 | construction yields an open handle with the given writer flag over the directory's contents |
| `DictSpec.ClosedHandleRefuses` | lmdb_simple/core.py:52-143 | on a closed handle get, len, every traversal and transaction raise RuntimeError("Environment is not open"), set and delete raise RuntimeError("Database not opened for writing"), and the state is unchanged |
| `DictSpec.ReaderRefusesWrites` | lmdb_simple/core.py:52-73 | a read-only handle refuses set and delete and keeps its store, still reads stored values, and cannot obtain a write transaction |
| `DictSpec.GetFindsStored` | lmdb_simple/core.py:52-59 | get succeeds exactly when open and the key is present, returns the stored value, and raises KeyError for an absent key |
| `DictSpec.SetThenGet` | lmdb_simple/core.py:52-65 | after set on an open writer, get of that key yields the new value, other keys read as before, and len grows by one exactly for a new key |
| `DictSpec.DeleteThenGet` | lmdb_simple/core.py:67-73 | deleting a present key succeeds, get of it then raises KeyError, other keys read as before, len drops by one |
| `DictSpec.DeleteAbsent` | lmdb_simple/core.py:67-73 | deleting an absent key raises KeyError and leaves the state unchanged |
| `DictSpec.TraversalsAgree` | lmdb_simple/core.py:75-107 | keys and values are the two projections of items, the count of items equals len, keys are strictly ascending, a key is listed exactly when stored, and the i-th value is the value stored under the i-th key |
| `DictSpec.IterationOrder` | lmdb_simple/core.py:78-81 | any ascending listing of the entries is exactly what items yields, and its keys are what keys yields |
| `DictSpec.InsertionOrderExample` | lmdb_simple/core.py:78-81 | writing b"three", b"one", b"two" in that order, then iterating, gives b"one", b"three", b"two" |
| `DictSpec.FlushOutcome` | lmdb_simple/core.py:109-113 | flush succeeds and does nothing on a closed handle, and fails, with the read-only error, exactly on an open reader |
| `DictSpec.CloseIdempotent` | lmdb_simple/core.py:115-119 | close leaves the handle closed with store and writer unchanged, and closing twice equals closing once |
| `DictSpec.EnterReopens` | lmdb_simple/core.py:121-124 | enter opens the handle, keeps store and writer, changes nothing on an open handle, and after close and enter reads give what they gave before |
| `DictSpec.ExitCloses` | lmdb_simple/core.py:126-132 | exit is close, whatever the state |
| `DictSpec.ReaderSeesWriterData` | lmdb_simple/core.py:22-26 | a value set through a writer that is then closed is what a read-only handle opened afterwards on the same directory reads, and both see the same count |
| `Scenarios.DocstringExample` | lmdb_simple/core.py:22-26 | the docstring's writer-then-reader example, its reader built with the default `writer=False`, reads back b"value"; that reader's default `transaction()` is a read transaction and its flush is refused; the directory holds exactly the new entry |
| `Scenarios.ReopenExample` | lmdb_simple/core.py:115-124 | after close (done twice) get raises RuntimeError, enter restores reading, and a read-only handle's set raises RuntimeError |

## Left out

- lmdb_simple/pool.py (`init_reader`, `make_reader_pool`): a process-wide global set inside worker processes and a `multiprocessing.Pool` factory. This is process plumbing with no logic of its own.
- scratchpad.py: a demonstration script.
- The engine's internals (B-tree, pages, MVCC snapshots, locking) are abstracted as a map and an ascending cursor walk. Snapshot isolation between concurrent readers and writers is concurrency and is not modelled.
- Opening can fail (a missing directory for a reader, a refused option, a permission error). The model's environments always open.
- Core.LmdbDict.constructor: does not model the `mkdir(parents=True, exist_ok=True)` a writer performs; the directory always exists.
- Core.LmdbDict.Flush: durability is not modelled; a successful sync is only counted.
- `env_kwargs` is an opaque options bag passed to `lmdb.open`, so it is not modelled.
- The engine's own limits and failures during a transaction are not modelled: key size limits, the rejection of empty keys, a full map, disk errors.
- Core.LmdbDict.Transaction: only the guard is modelled, not what a caller does with the returned transaction.
- Core.LmdbDict.Iter, Core.LmdbDict.Keys, Core.LmdbDict.Values, Core.LmdbDict.Items: in the source these are generators. Their "Environment is not open" check runs at the first step of the traversal, not at the call, and the read transaction stays open across each `yield`. Here each traversal is one call that checks the guard and returns the whole sequence.
- The methods `LmdbDict` inherits from `MutableMapping` (`in`, `get` with a default, `pop`, `update`, `setdefault`, ...) are not written in core.py and are not modelled.
- Keys and values are typed generically in the source but are byte strings for the engine. They are modelled as byte sequences, and an encoding step is not modelled.
- Core.LmdbDict.Exit: the three exception arguments are ignored by the source and omitted.
