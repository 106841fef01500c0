/**
 * LmdbDict: a dictionary-shaped handle on an LMDB environment directory.
 *
 * The dictionary operations (Get, Set, Delete, the traversals and Len) check
 * that the environment is open, and Set and Delete also check that the handle
 * is a writer. Each then runs one transaction and returns a result or one of
 * the errors of module Errors. Flush asks the engine to sync and does nothing
 * on a closed handle. Transaction checks only that the handle is open and
 * returns a transaction that the caller finishes. Close, Enter and Exit run no
 * transaction.
 *
 * The constructor agrees with DictSpec.Init, Iter and Keys with DictSpec.Keys,
 * and every other method except OpenEnv and Transaction with the DictSpec
 * function of its own name, on the handle's abstract state. Transaction agrees
 * with DictSpec.Transaction on success, on the error and on the write flag.
 * OpenEnv has no DictSpec counterpart: through Valid() it states that the
 * fresh environment is open, on the handle's directory, with the handle's flags.
 */
module Core {
  import opened Wrappers
  import opened Lmdb
  import opened Errors
  import DictSpec

  /** The `for k, _ in cursor: yield k` loop, run to completion. */
  method YieldKeys(cursor: seq<(Key, Value)>) returns (ks: seq<Key>)
    ensures ks == Firsts(cursor)
  {
    ks := [];
    var i := 0;
    while i < |cursor|
      invariant 0 <= i <= |cursor|
      invariant |ks| == i
      invariant forall j :: 0 <= j < i ==> ks[j] == cursor[j].0
    {
      ks := ks + [cursor[i].0];
      i := i + 1;
    }
    assert ks == Firsts(cursor);
  }

  /** The `for _, v in cursor: yield v` loop, run to completion. */
  method YieldValues(cursor: seq<(Key, Value)>) returns (vs: seq<Value>)
    ensures vs == Seconds(cursor)
  {
    vs := [];
    var i := 0;
    while i < |cursor|
      invariant 0 <= i <= |cursor|
      invariant |vs| == i
      invariant forall j :: 0 <= j < i ==> vs[j] == cursor[j].1
    {
      vs := vs + [cursor[i].1];
      i := i + 1;
    }
    assert vs == Seconds(cursor);
  }

  /** The `for k, v in cursor: yield k, v` loop, run to completion. */
  method YieldItems(cursor: seq<(Key, Value)>) returns (kvs: seq<(Key, Value)>)
    ensures kvs == cursor
  {
    kvs := [];
    var i := 0;
    while i < |cursor|
      invariant 0 <= i <= |cursor|
      invariant kvs == cursor[..i]
    {
      kvs := kvs + [cursor[i]];
      i := i + 1;
    }
    assert cursor[..i] == cursor;
  }

  class LmdbDict {
    /** The environment directory; its contents persist when the handle closes. */
    const path: Directory
    const writer: bool
    /** The open environment, or null once closed. */
    var env: Environment?

    /**
     * An open environment belongs to this handle's directory, is read-only
     * exactly when the handle is not a writer, and may create files exactly
     * when it is.
     */
    ghost predicate Valid()
      reads this, env
    {
      env != null ==> env.dir == path && env.readonly == !writer && env.create == writer && !env.closed
    }

    ghost function Abs(): DictSpec.State
      reads this, path
    {
      DictSpec.State(writer, env != null, path.data)
    }

    constructor (path: Directory, writer: bool := false)
      ensures Valid() && env != null && fresh(env)
      ensures this.path == path && this.writer == writer
      ensures Abs() == DictSpec.Init(writer, path.data)
    {
      this.path := path;
      this.writer := writer;
      env := null;
      new;
      OpenEnv();
    }

    /** Opens a new environment on the directory, read-only unless the handle is a writer. */
    method OpenEnv()
      modifies this`env
      ensures Valid() && env != null && fresh(env)
    {
      env := new Environment.Open(path, !writer, writer);
    }

    method Get(key: Key) returns (r: Result<Value, Error>)
      requires Valid()
      ensures r == DictSpec.Get(Abs(), key)
    {
      if env == null {
        return Err(RuntimeError(NOT_OPEN));
      }
      var txn := env.Begin(false).value;
      var value := txn.Get(key);
      if value.None? {
        return Err(KeyError(key));
      }
      return Ok(value.value);
    }

    method Set(key: Key, value: Value) returns (r: Result<(), Error>)
      requires Valid()
      modifies path
      ensures Valid()
      ensures (Abs(), r) == DictSpec.Set(old(Abs()), key, value)
    {
      if !writer || env == null {
        return Err(RuntimeError(NOT_WRITER));
      }
      var txn := env.Begin(true).value;
      txn.Put(key, value);
      return Ok(());
    }

    method Delete(key: Key) returns (r: Result<(), Error>)
      requires Valid()
      modifies path
      ensures Valid()
      ensures (Abs(), r) == DictSpec.Delete(old(Abs()), key)
    {
      if !writer || env == null {
        return Err(RuntimeError(NOT_WRITER));
      }
      var txn := env.Begin(true).value;
      var success := txn.Delete(key);
      if !success {
        return Err(KeyError(key));
      }
      return Ok(());
    }

    /** The keys, in the order a cursor over one read transaction visits them. */
    method Iter() returns (r: Result<seq<Key>, Error>)
      requires Valid()
      ensures r == DictSpec.Keys(Abs())
    {
      if env == null {
        return Err(RuntimeError(NOT_OPEN));
      }
      var txn := env.Begin(false).value;
      var ks := YieldKeys(txn.Cursor());
      return Ok(ks);
    }

    method Len() returns (r: Result<nat, Error>)
      requires Valid()
      ensures r == DictSpec.Len(Abs())
    {
      if env == null {
        return Err(RuntimeError(NOT_OPEN));
      }
      var txn := env.Begin(false).value;
      var entries := txn.Stat();
      return Ok(entries);
    }

    method Keys() returns (r: Result<seq<Key>, Error>)
      requires Valid()
      ensures r == DictSpec.Keys(Abs())
    {
      r := Iter();
    }

    method Values() returns (r: Result<seq<Value>, Error>)
      requires Valid()
      ensures r == DictSpec.Values(Abs())
    {
      if env == null {
        return Err(RuntimeError(NOT_OPEN));
      }
      var txn := env.Begin(false).value;
      var vs := YieldValues(txn.Cursor());
      return Ok(vs);
    }

    method Items() returns (r: Result<seq<(Key, Value)>, Error>)
      requires Valid()
      ensures r == DictSpec.Items(Abs())
    {
      if env == null {
        return Err(RuntimeError(NOT_OPEN));
      }
      var txn := env.Begin(false).value;
      var kvs := YieldItems(txn.Cursor());
      return Ok(kvs);
    }

    /**
     * Asks the engine to sync to disk; does nothing on a closed handle. The
     * engine refuses to sync a read-only environment.
     */
    method Flush() returns (r: Result<(), Error>)
      requires Valid()
      modifies env
      ensures Valid() && Abs() == old(Abs())
      ensures r == DictSpec.Flush(Abs())
      ensures env != null && writer ==> env.syncs == old(env.syncs) + 1
      ensures env != null && !writer ==> env.syncs == old(env.syncs)
    {
      if env == null {
        return Ok(());
      }
      var synced := env.Sync();
      if synced.Err? {
        return Err(EngineError(synced.error));
      }
      return Ok(());
    }

    /** Closes the environment if it is open; closing a closed handle does nothing. */
    method Close()
      requires Valid()
      modifies this, env
      ensures Valid() && env == null
      ensures Abs() == DictSpec.Close(old(Abs()))
      ensures old(env) != null ==> old(env).closed
    {
      if env != null {
        env.Close();
        env := null;
      }
    }

    /** Reopens the environment only if the handle is closed, and returns the handle itself. */
    method Enter() returns (self: LmdbDict)
      requires Valid()
      modifies this
      ensures self == this
      ensures Valid() && Abs() == DictSpec.Enter(old(Abs()))
      ensures old(env) != null ==> env == old(env)
      ensures old(env) == null ==> fresh(env)
    {
      if env == null {
        OpenEnv();
      }
      return this;
    }

    /** Always closes; returns nothing, so an exception leaving the block is not suppressed. */
    method Exit()
      requires Valid()
      modifies this, env
      ensures Valid() && env == null
      ensures Abs() == DictSpec.Exit(old(Abs()))
      ensures old(env) != null ==> old(env).closed
    {
      Close();
    }

    /**
     * The explicit transaction: refused on a closed handle. A write
     * transaction on a read-only handle passes this guard and is refused
     * by the engine.
     */
    method Transaction(write: bool := false) returns (r: Result<Txn, Error>)
      requires Valid()
      ensures r.Ok? <==> DictSpec.Transaction(Abs(), write).Ok?
      ensures r.Ok? ==> r.value == Txn(env, write) && DictSpec.Transaction(Abs(), write) == Ok(r.value.write)
      ensures r.Err? ==> DictSpec.Transaction(Abs(), write) == Err(r.error)
    {
      if env == null {
        return Err(RuntimeError(NOT_OPEN));
      }
      var began := env.Begin(write);
      if began.Err? {
        return Err(EngineError(began.error));
      }
      return Ok(began.value);
    }
  }
}
