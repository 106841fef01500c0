/**
 * An abstraction of the LMDB engine as the dictionary uses it. The engine
 * itself (B-tree, pages, locking, MVCC) is not modelled: the contents of an
 * environment are a finite map from keys to values, and a cursor visits the
 * entries in ascending key order.
 */
module Lmdb {
  import opened Wrappers
  import opened Bytes

  type Key = Bytes
  type Value = Bytes
  type Store = map<Key, Value>

  /**
   * The environment directory on disk. Its contents outlive every handle
   * opened on it, and several handles may be opened on the same directory.
   */
  class Directory {
    var data: Store

    constructor (data: Store)
      ensures this.data == data
    {
      this.data := data;
    }
  }

  /** Why the engine refuses to begin a transaction. */
  datatype Fault = EnvClosed | ReadOnlyEnv

  /** An open environment handle, as returned by `lmdb.open`. */
  class Environment {
    const dir: Directory
    const readonly: bool
    const create: bool
    var closed: bool
    /** How many syncs to disk the engine has carried out. */
    ghost var syncs: nat

    constructor Open(dir: Directory, readonly: bool, create: bool)
      ensures this.dir == dir && this.readonly == readonly && this.create == create
      ensures !closed && syncs == 0
    {
      this.dir := dir;
      this.readonly := readonly;
      this.create := create;
      closed := false;
      syncs := 0;
    }

    /** Begins a transaction; a write transaction needs a writable environment. */
    function Begin(write: bool): (r: Result<Txn, Fault>)
      reads this
      ensures r.Ok? <==> !closed && (!write || !readonly)
      ensures r.Ok? ==> r.value.env == this && r.value.write == write
      ensures !closed && write && readonly ==> r == Err(ReadOnlyEnv)
    {
      if closed then Err(EnvClosed)
      else if write && readonly then Err(ReadOnlyEnv)
      else Ok(Txn(this, write))
    }

    /** Syncs to disk; the engine refuses to sync a read-only environment. */
    method Sync() returns (r: Result<(), Fault>)
      requires !closed
      modifies this`syncs
      ensures readonly ==> r == Err(ReadOnlyEnv) && syncs == old(syncs)
      ensures !readonly ==> r == Ok(()) && syncs == old(syncs) + 1
    {
      if readonly {
        return Err(ReadOnlyEnv);
      }
      syncs := syncs + 1;
      return Ok(());
    }

    method Close()
      modifies this`closed
      ensures closed
    {
      closed := true;
    }
  }

  /** A transaction bound to one environment; its operations act on the directory's contents. */
  datatype Txn = Txn(env: Environment, write: bool)
  {
    function Get(key: Key): (r: Option<Value>)
      reads env.dir
      ensures r.Some? <==> key in env.dir.data
      ensures r.Some? ==> r.value == env.dir.data[key]
    {
      if key in env.dir.data then Some(env.dir.data[key]) else None
    }

    method Put(key: Key, value: Value)
      requires write
      modifies env.dir
      ensures env.dir.data == old(env.dir.data)[key := value]
    {
      env.dir.data := env.dir.data[key := value];
    }

    /** Removes the key; reports whether there was an entry to remove. */
    method Delete(key: Key) returns (found: bool)
      requires write
      modifies env.dir
      ensures found == (key in old(env.dir.data))
      ensures env.dir.data == old(env.dir.data) - {key}
      ensures !found ==> env.dir.data == old(env.dir.data)
    {
      found := key in env.dir.data;
      env.dir.data := env.dir.data - {key};
      assert !found ==> env.dir.data == old(env.dir.data);
    }

    /** The `entries` figure of the database statistics. */
    function Stat(): (entries: nat)
      reads env.dir
      ensures entries == |env.dir.data.Keys|
    {
      |env.dir.data|
    }

    /** The pairs a cursor over the whole database yields, in order. */
    function Cursor(): (c: seq<(Key, Value)>)
      reads env.dir
      ensures |c| == |env.dir.data| && Enumerates(c, env.dir.data)
    {
      CursorWalk(env.dir.data)
    }
  }

  function Firsts(c: seq<(Key, Value)>): (ks: seq<Key>) {
    seq(|c|, i requires 0 <= i < |c| => c[i].0)
  }

  function Seconds(c: seq<(Key, Value)>): (vs: seq<Value>) {
    seq(|c|, i requires 0 <= i < |c| => c[i].1)
  }

  /**
   * c lists the entries of s: keys strictly ascending, every pair an entry of
   * s, and every key of s present.
   */
  predicate Enumerates(c: seq<(Key, Value)>, s: Store) {
    && Ascending(Firsts(c))
    && (forall i :: 0 <= i < |c| ==> c[i].0 in s && s[c[i].0] == c[i].1)
    && (forall k :: k in s ==> k in Firsts(c))
  }

  predicate IsLeast(m: Key, ks: set<Key>) {
    forall k :: k in ks && k != m ==> Less(m, k)
  }

  lemma {:induction false} LeastExists(ks: set<Key>)
    requires ks != {}
    ensures exists m :: m in ks && IsLeast(m, ks)
    decreases ks
  {
    var x :| x in ks;
    if ks != {x} {
      var rest := ks - {x};
      LeastExists(rest);
      var m :| m in rest && IsLeast(m, rest);
      LessTotal(x, m);
      if Less(x, m) {
        forall k | k in ks && k != x
          ensures Less(x, k)
        {
          if k != m {
            LessTransitive(x, m, k);
          }
        }
        assert IsLeast(x, ks);
      } else {
        assert IsLeast(m, ks);
      }
    } else {
      assert IsLeast(x, ks);
    }
  }

  lemma LeastUnique(ks: set<Key>)
    ensures forall a, b :: a in ks && b in ks && IsLeast(a, ks) && IsLeast(b, ks) ==> a == b
  {
    forall a, b | a in ks && b in ks && IsLeast(a, ks) && IsLeast(b, ks)
      ensures a == b
    {
      LessAsymmetric(a, b);
    }
  }

  /** The smallest key of a non-empty set, where an LMDB cursor starts. */
  function Least(ks: set<Key>): (m: Key)
    requires ks != {}
    ensures m in ks && IsLeast(m, ks)
  {
    LeastExists(ks);
    LeastUnique(ks);
    var m :| m in ks && IsLeast(m, ks);
    m
  }

  /** Putting the least key in front of an enumeration of the others enumerates the whole store. */
  lemma ConsEnumerates(m: Key, tail: seq<(Key, Value)>, s: Store)
    requires m in s && IsLeast(m, s.Keys)
    requires Enumerates(tail, s - {m})
    ensures Enumerates([(m, s[m])] + tail, s)
  {
    var c := [(m, s[m])] + tail;
    var ks := Firsts(c);
    assert ks == [m] + Firsts(tail);
    forall i, j | 0 <= i < j < |ks|
      ensures Less(ks[i], ks[j])
    {
      if i == 0 {
        assert ks[j] == tail[j - 1].0;
        assert ks[j] in s - {m};
      } else {
        assert ks[i] == Firsts(tail)[i - 1] && ks[j] == Firsts(tail)[j - 1];
      }
    }
    forall k | k in s
      ensures k in ks
    {
      if k != m {
        assert k in s - {m};
        assert k in Firsts(tail);
      }
    }
  }

  /** The walk of a cursor from the first key to the last. */
  function CursorWalk(s: Store): (c: seq<(Key, Value)>)
    ensures |c| == |s|
    ensures Enumerates(c, s)
    decreases |s|
  {
    if |s| == 0 then []
    else
      var m := Least(s.Keys);
      var rest := s - {m};
      assert rest.Keys == s.Keys - {m};
      var tail := CursorWalk(rest);
      ConsEnumerates(m, tail, s);
      [(m, s[m])] + tail
  }

  /** An enumeration of a non-empty store starts at its least key. */
  lemma HeadIsLeast(c: seq<(Key, Value)>, s: Store)
    requires Enumerates(c, s) && |s| > 0
    ensures |c| > 0 && c[0].0 == Least(s.Keys)
  {
    var m := Least(s.Keys);
    assert m in Firsts(c);
    var j :| 0 <= j < |c| && Firsts(c)[j] == m;
    assert c[0].0 in s;
    LessAsymmetric(c[0].0, m);
    assert j > 0 ==> Less(Firsts(c)[0], Firsts(c)[j]);
  }

  /** Dropping the first pair of an enumeration enumerates the store without that key. */
  lemma TailEnumerates(c: seq<(Key, Value)>, s: Store)
    requires Enumerates(c, s) && |c| > 0
    ensures Enumerates(c[1..], s - {c[0].0})
  {
    var m := c[0].0;
    var tail := c[1..];
    var rest := s - {m};
    assert Firsts(tail) == Firsts(c)[1..];
    LessIrreflexive(m);
    forall i | 0 <= i < |tail|
      ensures tail[i].0 in rest && rest[tail[i].0] == tail[i].1
    {
      assert Less(Firsts(c)[0], Firsts(c)[i + 1]);
    }
    forall k | k in rest
      ensures k in Firsts(tail)
    {
      var i :| 0 <= i < |c| && Firsts(c)[i] == k;
      assert Firsts(tail)[i - 1] == k;
    }
  }

  /** Only the empty sequence enumerates an empty store. */
  lemma NothingEnumeratesEmpty(c: seq<(Key, Value)>, s: Store)
    ensures Enumerates(c, s) && |s| == 0 ==> c == []
  {
    if |c| > 0 {
      assert Enumerates(c, s) ==> c[0].0 in s;
    }
  }

  /** One step of the walk: the least entry, then the walk of the rest. */
  lemma WalkUnfold(s: Store)
    requires |s| > 0
    ensures CursorWalk(s) == [(Least(s.Keys), s[Least(s.Keys)])] + CursorWalk(s - {Least(s.Keys)})
  {
  }

  /**
   * The cursor walk is the only enumeration of a store in ascending key
   * order: the order of iteration depends on the contents alone, never on
   * the order in which the entries were written.
   */
  lemma {:induction false} CursorUnique(c: seq<(Key, Value)>, s: Store)
    requires Enumerates(c, s)
    ensures c == CursorWalk(s)
    decreases |s|
  {
    if |s| > 0 {
      HeadIsLeast(c, s);
      var m := c[0].0;
      assert c[0] == (m, s[m]);
      TailEnumerates(c, s);
      var rest := s - {m};
      assert |rest| < |s| by {
        assert rest.Keys == s.Keys - {m};
      }
      CursorUnique(c[1..], rest);
      WalkUnfold(s);
      assert c == [c[0]] + c[1..];
    } else {
      NothingEnumeratesEmpty(c, s);
    }
  }
}
