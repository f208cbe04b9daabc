/** Per-instance caching and memoization (the `cache` and `memoize` decorators). */
module Util {
  import opened Wrappers

  /** The attribute under which `cache` stores a method's value. */
  function CacheName(funcName: string): (r: string)
    ensures |r| == |funcName| + 7
    ensures r[..1] == "_" && r[|r| - 6..] == "_cache" && r[1..|r| - 6] == funcName
  {
    "_" + funcName + "_cache"
  }

  /** The attribute under which `memoize` stores a method's table; also exposed as `func.memo`. */
  function MemoName(funcName: string): (r: string)
    ensures |r| == |funcName| + 6
    ensures r[..1] == "_" && r[|r| - 5..] == "_memo" && r[1..|r| - 5] == funcName
  {
    "_" + funcName + "_memo"
  }

  /** Different methods never share a memo attribute. */
  lemma MemoNameInjective(f: string, g: string)
    requires MemoName(f) == MemoName(g)
    ensures f == g
  {
    var r := MemoName(f);
    assert f == r[1..|r| - 5];
  }

  /** Different methods never share a cache attribute. */
  lemma CacheNameInjective(f: string, g: string)
    requires CacheName(f) == CacheName(g)
    ensures f == g
  {
    var r := CacheName(f);
    assert f == r[1..|r| - 6];
  }

  /** The memo attribute name the library's memoize test expects. */
  lemma MemoNameExample()
    ensures MemoName("baz") == "_baz_memo"
  {
  }

  /**
   * The `_<name>_cache` slot of one instance: empty until the first call of the
   * decorated method, then holding the value that call computed.
   * `calls` counts how often the wrapped method body ran.
   */
  class Cache<T> {
    var stored: Option<T>
    ghost var calls: nat

    ghost predicate Valid()
      reads this
    {
      calls <= 1 && (stored.None? <==> calls == 0)
    }

    constructor ()
      ensures Valid() && stored == None && calls == 0
    {
      stored := None;
      calls := 0;
    }

    /** The decorated call: return the stored value, or compute, store and return it. */
    method Get(compute: () -> T) returns (r: T)
      requires Valid()
      modifies this
      ensures Valid()
      ensures old(stored).Some? ==> r == old(stored).value && stored == old(stored) && calls == old(calls)
      ensures old(stored).None? ==> r == compute() && stored == Some(r) && calls == old(calls) + 1
      ensures calls <= 1 && stored.Some?
    {
      match stored {
        case Some(v) =>
          r := v;
        case None =>
          r := compute();
          stored := Some(r);
          calls := calls + 1;
      }
    }
  }

  /** A memo table: the dict `memoize` keeps on an instance. */
  class Memo<K(==), V> {
    var table: map<K, V>

    constructor ()
      ensures table == map[]
    {
      table := map[];
    }

    method Lookup(key: K) returns (r: Option<V>)
      ensures r == if key in table then Some(table[key]) else None
    {
      if key in table {
        r := Some(table[key]);
      } else {
        r := None;
      }
    }

    method Store(key: K, value: V)
      modifies this
      ensures table == old(table)[key := value]
    {
      table := table[key := value];
    }
  }

  /**
   * One instance carrying a memoized method: `memo` is the `_<name>_memo`
   * attribute, absent (null) until the first call creates it.
   */
  class Memoized<K(==), V> {
    var memo: Memo?<K, V>
    ghost var calls: nat

    ghost predicate Valid()
      reads this, memo
    {
      (memo == null ==> calls == 0) && (memo != null ==> calls == |memo.table|)
    }

    constructor ()
      ensures Valid() && memo == null && calls == 0
    {
      memo := null;
      calls := 0;
    }

    /** The memoized call: a seen key returns its stored result, an unseen key runs `f` once and stores it. */
    method Call(key: K, f: K -> V) returns (r: V)
      requires Valid()
      modifies this, memo
      ensures Valid() && memo != null
      ensures old(memo) == null ==> fresh(memo)
      ensures old(memo) != null ==> memo == old(memo)
      ensures old(memo) != null && key in old(memo.table) ==>
                r == old(memo.table)[key] && memo.table == old(memo.table) && calls == old(calls)
      ensures (old(memo) == null || key !in old(memo.table)) ==>
                r == f(key) && calls == old(calls) + 1 &&
                memo.table == (if old(memo) == null then map[] else old(memo.table))[key := r]
    {
      if memo == null {
        memo := new Memo();
      }
      var hit := memo.Lookup(key);
      match hit {
        case Some(v) =>
          r := v;
        case None =>
          r := f(key);
          memo.Store(key, r);
          calls := calls + 1;
      }
    }
  }

  /**
   * Two calls with the same key run the wrapped body once; a second instance
   * runs it again for itself, and the first instance's table still holds
   * exactly its own one entry afterwards.
   */
  method MemoizeTwice<K(==), V>(key: K, f: K -> V) returns (a: V, b: V, ghost runs: nat, c: V, ghost otherRuns: nat, table: map<K, V>)
    ensures a == b == c == f(key)
    ensures runs == 1 && otherRuns == 1
    ensures table == map[key := f(key)]
  {
    var m := new Memoized<K, V>();
    a := m.Call(key, f);
    b := m.Call(key, f);
    runs := m.calls;
    var other := new Memoized<K, V>();
    c := other.Call(key, f);
    otherRuns := other.calls;
    table := m.memo.table;
  }

  /** A cached method's body runs once however often it is called; a second instance runs it once more. */
  method CacheTwice<T>(compute: () -> T) returns (a: T, b: T, ghost runs: nat, ghost otherRuns: nat)
    ensures a == b == compute()
    ensures runs == 1 && otherRuns == 1
  {
    var c := new Cache<T>();
    a := c.Get(compute);
    b := c.Get(compute);
    runs := c.calls;
    var d := new Cache<T>();
    var e := d.Get(compute);
    e := d.Get(compute);
    otherRuns := d.calls;
  }
}
