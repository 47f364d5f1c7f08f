/**
  Name-keyed lookup tables filled by an insert-if-absent loop over an ordered
  list of (name, item) pairs: the first item with a given name wins and every
  later item with that name is skipped.
 */
module Table {

  /** The table after visiting `entries` in order, starting from `m`:
      an entry is inserted only when its key is not already present. */
  function InsertAllAbsent<K, V>(m: map<K, V>, entries: seq<(K, V)>): map<K, V>
  {
    if entries == [] then m
    else
      var t := InsertAllAbsent(m, entries[..|entries| - 1]);
      var last := entries[|entries| - 1];
      if last.0 in t then t else t[last.0 := last.1]
  }

  /** The keys that occur in `entries`. */
  function Names<K, V>(entries: seq<(K, V)>): set<K>
  {
    set i | 0 <= i < |entries| :: entries[i].0
  }

  /** Entry `i` is the first one in `entries` that carries its key. */
  ghost predicate FirstWith<K, V>(entries: seq<(K, V)>, i: int)
  {
    0 <= i < |entries| && forall j :: 0 <= j < i ==> entries[j].0 != entries[i].0
  }

  /** The key set of the table is the old key set plus every key of `entries`. */
  lemma {:induction false} InsertAllAbsentKeys<K, V>(m: map<K, V>, entries: seq<(K, V)>)
    ensures InsertAllAbsent(m, entries).Keys == m.Keys + Names(entries)
  {
    if entries != [] {
      var prefix := entries[..|entries| - 1];
      InsertAllAbsentKeys(m, prefix);
      assert Names(entries) == Names(prefix) + {entries[|entries| - 1].0} by {
        forall k | k in Names(entries) ensures k in Names(prefix) + {entries[|entries| - 1].0} {
          var i :| 0 <= i < |entries| && entries[i].0 == k;
          if i < |entries| - 1 { assert prefix[i] == entries[i]; }
        }
        forall k | k in Names(prefix) ensures k in Names(entries) {
          var i :| 0 <= i < |prefix| && prefix[i].0 == k;
          assert entries[i] == prefix[i];
        }
      }
    }
  }

  /** A key that was already in the table keeps its item. */
  lemma {:induction false} InsertAllAbsentKeeps<K, V>(m: map<K, V>, entries: seq<(K, V)>, k: K)
    requires k in m
    ensures k in InsertAllAbsent(m, entries) && InsertAllAbsent(m, entries)[k] == m[k]
  {
    if entries != [] {
      InsertAllAbsentKeeps(m, entries[..|entries| - 1], k);
    }
  }

  /** The first entry carrying a new key decides that key's item. */
  lemma {:induction false} InsertAllAbsentFirstWins<K, V>(m: map<K, V>, entries: seq<(K, V)>, i: int)
    requires FirstWith(entries, i) && entries[i].0 !in m
    ensures entries[i].0 in InsertAllAbsent(m, entries)
    ensures InsertAllAbsent(m, entries)[entries[i].0] == entries[i].1
  {
    var prefix := entries[..|entries| - 1];
    var k := entries[i].0;
    if i == |entries| - 1 {
      InsertAllAbsentKeys(m, prefix);
      assert k !in Names(prefix) by {
        forall j | 0 <= j < |prefix| ensures prefix[j].0 != k {
          assert prefix[j] == entries[j];
        }
      }
    } else {
      assert prefix[i] == entries[i];
      assert FirstWith(prefix, i) by {
        forall j | 0 <= j < i ensures prefix[j].0 != prefix[i].0 {
          assert prefix[j] == entries[j];
        }
      }
      InsertAllAbsentFirstWins(m, prefix, i);
    }
  }

  /** Conversely, every new key of the table holds the item of the first
      entry that carries it. */
  lemma {:induction false} InsertAllAbsentFromFirst<K, V>(m: map<K, V>, entries: seq<(K, V)>, k: K)
    requires k in InsertAllAbsent(m, entries) && k !in m
    ensures exists i :: FirstWith(entries, i) && entries[i].0 == k && InsertAllAbsent(m, entries)[k] == entries[i].1
  {
    var prefix := entries[..|entries| - 1];
    var t := InsertAllAbsent(m, prefix);
    if k in t {
      InsertAllAbsentFromFirst(m, prefix, k);
      var i :| FirstWith(prefix, i) && prefix[i].0 == k && t[k] == prefix[i].1;
      assert entries[i] == prefix[i];
      assert FirstWith(entries, i) by {
        forall j | 0 <= j < i ensures entries[j].0 != entries[i].0 {
          assert prefix[j] == entries[j];
        }
      }
    } else {
      var n := |entries| - 1;
      InsertAllAbsentKeys(m, prefix);
      assert FirstWith(entries, n) by {
        forall j | 0 <= j < n ensures entries[j].0 != entries[n].0 {
          assert prefix[j] == entries[j];
          assert prefix[j].0 in Names(prefix);
        }
      }
    }
  }

  /** Visiting an entry whose key is already present leaves the table as it was. */
  lemma SkipPresent<K, V>(m: map<K, V>, entries: seq<(K, V)>, k: K, v: V)
    requires k in InsertAllAbsent(m, entries)
    ensures InsertAllAbsent(m, entries + [(k, v)]) == InsertAllAbsent(m, entries)
  {
    assert (entries + [(k, v)])[..|entries|] == entries;
  }

  /** The declarative description of a first-wins table built on top of `m`:
      its keys are the old keys and the keys of `entries`, an old key keeps its
      item, and a new key holds the item of the first entry that carries it. */
  ghost predicate FirstWins<K, V>(m: map<K, V>, t: map<K, V>, entries: seq<(K, V)>)
  {
    && t.Keys == m.Keys + Names(entries)
    && (forall k :: k in m ==> k in t && t[k] == m[k])
    && (forall i :: FirstWith(entries, i) && entries[i].0 !in m ==> entries[i].0 in t && t[entries[i].0] == entries[i].1)
  }

  /** The insert-if-absent loop builds exactly the first-wins table, and no other
      table is first-wins for the same entries. */
  lemma InsertAllAbsentIsFirstWins<K, V>(m: map<K, V>, entries: seq<(K, V)>, t: map<K, V>)
    ensures t == InsertAllAbsent(m, entries) <==> FirstWins(m, t, entries)
  {
    var u := InsertAllAbsent(m, entries);
    InsertAllAbsentKeys(m, entries);
    forall k | k in m ensures k in u && u[k] == m[k] {
      InsertAllAbsentKeeps(m, entries, k);
    }
    forall i | FirstWith(entries, i) && entries[i].0 !in m
      ensures entries[i].0 in u && u[entries[i].0] == entries[i].1
    {
      InsertAllAbsentFirstWins(m, entries, i);
    }
    assert FirstWins(m, u, entries);
    if FirstWins(m, t, entries) {
      forall k | k in t ensures t[k] == u[k] {
        if k !in m {
          InsertAllAbsentFromFirst(m, entries, k);
          var i :| FirstWith(entries, i) && entries[i].0 == k && u[k] == entries[i].1;
        }
      }
      assert t == u;
    }
  }
}
