/**
 * The `tiles` table of the cache's metadata index as a value: one row per
 * stored path with its last-use time and its size, the total size that the
 * budget is checked against, and what a least-recently-used eviction run
 * must leave behind.
 */
module TileIndex {
  import opened Sharding

  /** A row of `tiles(path, used, size)`: seconds of last use and bytes stored. */
  datatype Row = Row(used: int, size: nat)

  type Table = map<Path, Row>

  /** `SELECT SUM(size) FROM tiles`, with 0 for the empty table. */
  ghost function Sum(m: Table): nat
    decreases |m|
  {
    if m == map[] then 0
    else
      var p :| p in m;
      assert |m - {p}| < |m| by { assert (m - {p}).Keys < m.Keys; }
      m[p].size + Sum(m - {p})
  }

  /** Taking any one row out of the table takes its size out of the total. */
  lemma {:induction false} SumRemove(m: Table, k: Path)
    requires k in m
    ensures Sum(m) == m[k].size + Sum(m - {k})
    decreases |m|
  {
    var p :| p in m && Sum(m) == m[p].size + Sum(m - {p});
    if p != k {
      assert |m - {p}| < |m| by { assert (m - {p}).Keys < m.Keys; }
      assert |m - {k}| < |m| by { assert (m - {k}).Keys < m.Keys; }
      SumRemove(m - {p}, k);
      SumRemove(m - {k}, p);
      assert m - {p} - {k} == m - {k} - {p};
    }
  }

  /** Replacing or inserting one row changes the total by the difference in size. */
  lemma SumUpdate(m: Table, k: Path, r: Row)
    ensures Sum(m[k := r]) == Sum(m - {k}) + r.size
  {
    SumRemove(m[k := r], k);
    assert m[k := r] - {k} == m - {k};
  }

  /** Removing rows never increases the total. */
  lemma {:induction false} SumRemoveAll(m: Table, ks: set<Path>)
    ensures Sum(m - ks) <= Sum(m)
    decreases |m|
  {
    if k :| k in m && k in ks {
      SumRemove(m, k);
      assert |m - {k}| < |m| by { assert (m - {k}).Keys < m.Keys; }
      SumRemoveAll(m - {k}, ks);
      assert m - {k} - ks == m - ks;
    } else {
      assert m - ks == m;
    }
  }

  /**
   * `UPDATE tiles SET used=? WHERE path=?`: a new last-use time for one path,
   * and nothing at all when that path has no row.
   */
  function Touch(m: Table, key: Path, now: int): (r: Table)
    ensures r.Keys == m.Keys
    ensures forall p :: p in m ==> r[p].size == m[p].size
    ensures forall p :: p in m && p != key ==> r[p] == m[p]
    ensures key in m ==> r[key].used == now
  {
    if key in m then m[key := m[key].(used := now)] else m
  }

  /** Recording a use never changes the total size the budget is checked against. */
  lemma SumTouch(m: Table, key: Path, now: int)
    ensures Sum(Touch(m, key, now)) == Sum(m)
  {
    if key in m {
      SumUpdate(m, key, m[key].(used := now));
      SumRemove(m, key);
    }
  }

  /** The paths named by a sequence of evictions. */
  ghost function Evicted(evicted: seq<Path>): set<Path> {
    set p | p in evicted
  }

  /** A sequence without repetitions names as many paths as it has entries. */
  lemma {:induction false} EvictedCount(evicted: seq<Path>)
    requires forall i, j :: 0 <= i < j < |evicted| ==> evicted[i] != evicted[j]
    ensures |Evicted(evicted)| == |evicted|
  {
    if evicted != [] {
      var init := evicted[..|evicted| - 1];
      var last := evicted[|evicted| - 1];
      EvictedCount(init);
      assert Evicted(evicted) == Evicted(init) + {last};
      assert last !in Evicted(init);
    }
  }

  /**
   * The paths `evicted` were removed from `before`, in that order, leaving
   * `after`: each path once and only rows of `before`; every other row
   * untouched; oldest first, that is each evicted row is no newer than any row
   * evicted after it or left behind.
   */
  ghost predicate EvictedInOrder(before: Table, after: Table, evicted: seq<Path>) {
    && (forall i :: 0 <= i < |evicted| ==> evicted[i] in before)
    && (forall i, j :: 0 <= i < j < |evicted| ==> evicted[i] != evicted[j])
    && after == before - Evicted(evicted)
    && (forall i, j :: 0 <= i < j < |evicted| ==> before[evicted[i]].used <= before[evicted[j]].used)
    && (forall i, p :: 0 <= i < |evicted| && p in after ==> before[evicted[i]].used <= after[p].used)
  }

  /** An eviction in order takes exactly one row out of the table per evicted path. */
  lemma RowsRemoved(before: Table, after: Table, evicted: seq<Path>)
    requires EvictedInOrder(before, after, evicted)
    ensures |after| == |before| - |evicted|
  {
    EvictedCount(evicted);
    assert Evicted(evicted) <= before.Keys;
    assert after.Keys == before.Keys - Evicted(evicted);
  }

  /**
   * What an eviction run against budget `limit` leaves behind: rows removed
   * oldest first, ending within budget or with the table empty, and stopping
   * as soon as it is within budget.
   */
  ghost predicate LruEviction(before: Table, after: Table, evicted: seq<Path>, limit: int) {
    && EvictedInOrder(before, after, evicted)
    && (Sum(after) <= limit || after == map[])
    && (evicted != [] ==> Sum(after) + before[evicted[|evicted| - 1]].size > limit)
  }

  /** Removing one more path is removing the larger set of paths. */
  lemma RemoveOneMore<V>(m: map<Path, V>, gone: set<Path>, p: Path)
    ensures m - gone - {p} == m - (gone + {p})
  {
  }

  /** Nothing removed yet is an eviction in order. */
  lemma EvictedNothing(before: Table)
    ensures EvictedInOrder(before, before, [])
  {
    assert Evicted([]) == {};
  }

  /** Removing a row of least `used` from what is left extends an eviction in order. */
  lemma EvictOldest(before: Table, after: Table, evicted: seq<Path>, p: Path)
    requires EvictedInOrder(before, after, evicted)
    requires p in after && forall q :: q in after ==> after[p].used <= after[q].used
    ensures EvictedInOrder(before, after - {p}, evicted + [p])
  {
    var evicted' := evicted + [p];
    assert Evicted(evicted') == Evicted(evicted) + {p};
    assert after - {p} == before - Evicted(evicted');
    forall i, j | 0 <= i < j < |evicted'|
      ensures evicted'[i] != evicted'[j]
      ensures before[evicted'[i]].used <= before[evicted'[j]].used
    {
      if j == |evicted| {
        assert evicted'[i] in Evicted(evicted);
      }
    }
  }

  /**
   * The state of an eviction loop that started from rows `before` and files
   * `filesBefore`: rows removed in order, each with its file, and `over`
   * tracking how far the remaining total lies above the budget.
   */
  ghost predicate EvictionLoop<V>(before: Table, filesBefore: map<Path, V>, rows: Table, files: map<Path, V>,
                                  evicted: seq<Path>, limit: int, over: int) {
    && EvictedInOrder(before, rows, evicted)
    && files == filesBefore - Evicted(evicted)
    && Sum(rows) == limit + over
    && (evicted != [] ==> over + before[evicted[|evicted| - 1]].size > 0)
  }

  /** Before the first removal the loop's state holds with `over` the excess of the total over the budget. */
  lemma EvictionLoopStart<V>(before: Table, filesBefore: map<Path, V>, limit: int, over: int)
    requires Sum(before) == limit + over
    ensures EvictionLoop(before, filesBefore, before, filesBefore, [], limit, over)
  {
    EvictedNothing(before);
    assert filesBefore - Evicted([]) == filesBefore;
  }

  /** Removing a row of least `used`, and its file, while over budget keeps the loop's state. */
  lemma EvictionLoopStep<V>(before: Table, filesBefore: map<Path, V>, rows: Table, files: map<Path, V>,
                            evicted: seq<Path>, limit: int, over: int, p: Path)
    requires EvictionLoop(before, filesBefore, rows, files, evicted, limit, over)
    requires over > 0 && p in rows && forall q :: q in rows ==> rows[p].used <= rows[q].used
    ensures EvictionLoop(before, filesBefore, rows - {p}, files - {p}, evicted + [p], limit, over - rows[p].size)
  {
    SumRemove(rows, p);
    EvictOldest(before, rows, evicted, p);
    assert Evicted(evicted + [p]) == Evicted(evicted) + {p};
    RemoveOneMore(filesBefore, Evicted(evicted), p);
  }

  /** A loop that ends within budget, or with no rows left, has performed an LRU eviction. */
  lemma EvictionLoopDone<V>(before: Table, filesBefore: map<Path, V>, rows: Table, files: map<Path, V>,
                            evicted: seq<Path>, limit: int, over: int)
    requires EvictionLoop(before, filesBefore, rows, files, evicted, limit, over)
    requires over <= 0 || rows == map[]
    ensures LruEviction(before, rows, evicted, limit)
  {
  }

  /**
   * Each evicted row was a row of least `used` among the rows still in the
   * table when it was removed.
   */
  lemma LruStepMinimal(before: Table, after: Table, evicted: seq<Path>, limit: int, i: nat, p: Path)
    requires LruEviction(before, after, evicted, limit)
    requires i < |evicted| && p in before - Evicted(evicted[..i])
    ensures before[evicted[i]].used <= before[p].used
  {
    if p !in after {
      var j :| 0 <= j < |evicted| && evicted[j] == p;
      if j < i {
        assert false;
      }
    }
  }

  /** An eviction run removes something only when the table started over budget. */
  lemma EvictionOnlyOverBudget(before: Table, after: Table, evicted: seq<Path>, limit: int)
    requires LruEviction(before, after, evicted, limit)
    ensures evicted != [] ==> Sum(before) > limit
  {
    if evicted != [] {
      var last := evicted[|evicted| - 1];
      SumRemove(before, last);
      SumRemoveAll(before - {last}, Evicted(evicted));
      assert before - {last} - Evicted(evicted) == after;
    }
  }

  /** A table already within budget loses nothing to eviction. */
  lemma NoEvictionUnderBudget(before: Table, after: Table, evicted: seq<Path>, limit: int)
    requires LruEviction(before, after, evicted, limit)
    requires Sum(before) <= limit
    ensures evicted == [] && after == before
  {
    EvictionOnlyOverBudget(before, after, evicted, limit);
    assert Evicted(evicted) == {};
  }

  /** Distinct paths drawn from two name at most two entries. */
  lemma PairEvictedAtMostTwice(a: Path, b: Path, evicted: seq<Path>)
    requires forall i :: 0 <= i < |evicted| ==> evicted[i] == a || evicted[i] == b
    requires forall i, j :: 0 <= i < j < |evicted| ==> evicted[i] != evicted[j]
    ensures |evicted| <= 2
  {
    EvictedCount(evicted);
    var named := Evicted(evicted);
    assert {a, b} == named + ({a, b} - named) && named !! ({a, b} - named);
  }

  /** A run over a two-row table evicts nothing, one of the rows, or both in some order. */
  lemma EvictionsOfPair(a: Path, b: Path, evicted: seq<Path>)
    requires forall i :: 0 <= i < |evicted| ==> evicted[i] == a || evicted[i] == b
    requires forall i, j :: 0 <= i < j < |evicted| ==> evicted[i] != evicted[j]
    ensures evicted == [] || evicted == [a] || evicted == [b] || evicted == [a, b] || evicted == [b, a]
  {
    PairEvictedAtMostTwice(a, b, evicted);
    assert |evicted| == 1 ==> evicted == [evicted[0]];
    assert |evicted| == 2 ==> evicted == [evicted[0], evicted[1]];
  }

  /**
   * With a budget of 1000 bytes, a 600-byte tile used at t1 and another stored
   * later at t2 > t1 leave only the later one: the older is evicted.
   */
  lemma OlderTileEvicted(a: Path, b: Path, t1: int, t2: int, after: Table, evicted: seq<Path>)
    requires a != b && t1 < t2
    requires LruEviction(map[a := Row(t1, 600), b := Row(t2, 600)], after, evicted, 1000)
    ensures evicted == [a] && after == map[b := Row(t2, 600)]
  {
    var before := map[a := Row(t1, 600), b := Row(t2, 600)];
    var onlyA, onlyB := map[a := Row(t1, 600)], map[b := Row(t2, 600)];
    assert before - {a} == onlyB && before - {b} == onlyA;
    SumRemove(before, a);
    SumRemove(onlyB, b);
    SumRemove(onlyA, a);
    assert onlyB - {b} == map[] && onlyA - {a} == map[];
    assert Sum(before) == 1200;
    EvictionsOfPair(a, b, evicted);
    assert Evicted([]) == {} && Evicted([a]) == {a} && Evicted([b]) == {b};
    assert Evicted([a, b]) == {a, b} == Evicted([b, a]);
    assert before - {} == before && before - {a, b} == map[];
    assert evicted != [];
    assert evicted != [a, b] && evicted != [b, a];
    assert evicted != [b];
  }
}
