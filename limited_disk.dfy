/**
 * The limited disk cache: tiles stored as files under sharded paths, a
 * `tiles` index of sizes and last-use times kept within a byte budget by
 * least-recently-used eviction, and lock directories that guard the
 * regeneration of a tile. The file system is the map `files`, the index the
 * map `tiles`, the lock directories the map `locks`; the clock is the
 * parameter `now`.
 */
module LimitedDiskCache {
  import opened Options
  import opened Sharding
  import opened TileIndex
  import opened LockDirs

  type Bytes = seq<bv8>

  /** The tile handed to the cache: its identity and the payload slot that the cache fills. */
  class Tile {
    const id: TileId
    var data: Option<Bytes>

    constructor (id: TileId)
      ensures this.id == id && data == None
    {
      this.id := id;
      data := None;
    }
  }

  /** What a hit returns: the file's path when the cache sends files, its bytes otherwise. */
  datatype Fetched = FilePath(path: Path) | Contents(bytes: Bytes)

  /** `int(time.time())`: whole seconds, truncated toward zero. */
  function Seconds(now: real): (s: int)
    ensures 0.0 <= now ==> 0 <= s && s as real <= now < s as real + 1.0
    ensures now < 0.0 ==> s <= 0 && s as real - 1.0 < now <= s as real
  {
    if now >= 0.0 then now.Floor else -((-now).Floor)
  }

  /**
   * The file store after an atomic publish: the payload is written under the
   * temporary name, which is then renamed onto the key. The key holds the
   * payload, the temporary name is gone, every other file is as it was.
   */
  function Published(files: map<Path, Bytes>, key: Path, tmp: Path, data: Bytes): (r: map<Path, Bytes>)
    requires tmp != key
    ensures key in r && r[key] == data && tmp !in r
    ensures forall p :: p != key && p != tmp ==> (p in r <==> p in files)
    ensures forall p :: p in r && p != key ==> p in files && r[p] == files[p]
  {
    (files - {tmp})[key := data]
  }

  /** Publishing a tile and writing its row keeps files and rows in step, also after removing paths from both. */
  lemma PublishKeepsIndex(files: map<Path, Bytes>, rows: Table, key: Path, tmp: Path, data: Bytes, row: Row,
                          gone: set<Path>)
    requires files.Keys == rows.Keys && tmp != key && tmp !in files
    ensures (Published(files, key, tmp, data) - gone).Keys == (rows[key := row] - gone).Keys
  {
    assert Published(files, key, tmp, data).Keys == files.Keys + {key};
  }

  class LimitedDisk {
    const basedir: string
    /** The byte budget; `None` when the cache is unbounded. */
    const limit: Option<int>
    const readonly: bool
    /** Return a hit as the file's path rather than its contents. */
    const sendfile: bool
    /** Age in seconds after which a lock directory counts as abandoned. */
    const stale: real
    /** The writing process's identifier, used in temporary file names. */
    const pid: nat
    /** The lock directory of a tile, as the base cache names it. */
    const lockName: TileId -> Path

    var files: map<Path, Bytes>
    var tiles: Table
    var locks: LockTable

    /** Every stored tile has a row in the index, and every row a stored tile. */
    ghost predicate Consistent()
      reads this
    {
      files.Keys == tiles.Keys
    }

    /** Attaches to the cache directory as it stands; creating the tables leaves existing rows alone. */
    constructor (basedir: string, limit: Option<int>, readonly: bool, sendfile: bool, stale: real,
                 pid: nat, lockName: TileId -> Path,
                 files: map<Path, Bytes>, tiles: Table, locks: LockTable)
      ensures this.basedir == basedir && this.limit == limit && this.readonly == readonly
      ensures this.sendfile == sendfile && this.stale == stale && this.pid == pid
      ensures this.lockName == lockName
      ensures this.files == files && this.tiles == tiles && this.locks == locks
    {
      this.basedir := basedir;
      this.limit := limit;
      this.readonly := readonly;
      this.sendfile := sendfile;
      this.stale := stale;
      this.pid := pid;
      this.lockName := lockName;
      this.files := files;
      this.tiles := tiles;
      this.locks := locks;
    }

    /** `SELECT SUM(size) FROM tiles`. */
    method TotalSize() returns (total: nat)
      ensures total == Sum(tiles)
    {
      var rest := tiles;
      total := 0;
      while rest != map[]
        invariant total + Sum(rest) == Sum(tiles)
        decreases |rest|
      {
        var p :| p in rest;
        SumRemove(rest, p);
        total := total + rest[p].size;
        assert |rest - {p}| < |rest| by { assert (rest - {p}).Keys < rest.Keys; }
        rest := rest - {p};
      }
    }

    /** `SELECT path FROM tiles ORDER BY used ASC LIMIT 1`: a row of least `used`, ties broken arbitrarily. */
    method Oldest() returns (oldest: Option<Path>)
      ensures oldest.None? <==> tiles == map[]
      ensures oldest.Some? ==> oldest.value in tiles
      ensures oldest.Some? ==> forall p :: p in tiles ==> tiles[oldest.value].used <= tiles[p].used
    {
      if tiles == map[] {
        return None;
      }
      var best :| best in tiles;
      var rest := tiles.Keys - {best};
      while rest != {}
        invariant best in tiles && rest <= tiles.Keys
        invariant forall p :: p in tiles && p !in rest ==> tiles[best].used <= tiles[p].used
        decreases |rest|
      {
        var p :| p in rest;
        if tiles[p].used < tiles[best].used {
          best := p;
        }
        rest := rest - {p};
      }
      return Some(best);
    }

    /** `_remove`: deletes the file if there is one, and the path's row. */
    method Remove(path: Path)
      modifies this`files, this`tiles
      ensures files == old(files) - {path} && tiles == old(tiles) - {path}
    {
      if path in files {
        files := files - {path};
      }
      tiles := tiles - {path};
    }

    /** `delete`: removes the tile's file and row; every other path is left alone. */
    method Delete(tile: Tile)
      modifies this`files, this`tiles
      ensures files == old(files) - {Key(basedir, tile.id)}
      ensures tiles == old(tiles) - {Key(basedir, tile.id)}
      ensures old(Consistent()) ==> Consistent()
    {
      Remove(Key(basedir, tile.id));
    }

    /**
     * `get`: on a hit, records the use in the tile's row (if it has one) and
     * returns the path or the bytes, the bytes also going into the tile's
     * payload slot; on a miss, returns None and changes nothing.
     */
    method Get(tile: Tile, now: real) returns (r: Option<Fetched>)
      modifies this`tiles, tile`data
      ensures Key(basedir, tile.id) !in files ==>
                r == None && tiles == old(tiles) && tile.data == old(tile.data)
      ensures Key(basedir, tile.id) in files ==>
                tiles == Touch(old(tiles), Key(basedir, tile.id), Seconds(now))
      ensures Key(basedir, tile.id) in files && sendfile ==>
                r == Some(FilePath(Key(basedir, tile.id))) && tile.data == old(tile.data)
      ensures Key(basedir, tile.id) in files && !sendfile ==>
                r == Some(Contents(files[Key(basedir, tile.id)]))
                && tile.data == Some(files[Key(basedir, tile.id)])
      ensures old(Consistent()) ==> Consistent()
    {
      var key := Key(basedir, tile.id);
      if key in files {
        tiles := Touch(tiles, key, Seconds(now));
        if sendfile {
          r := Some(FilePath(key));
        } else {
          tile.data := Some(files[key]);
          r := Some(Contents(files[key]));
        }
      } else {
        r := None;
      }
    }

    /** The atomic writer: the payload goes to `key + ".<pid>.tmp"`, which is renamed onto `key`. */
    method Publish(key: Path, data: Bytes)
      requires |key| > 0
      modifies this`files
      ensures files == Published(old(files), key, TempPath(key, pid), data)
    {
      var tmp := TempPath(key, pid);
      files := files[tmp := data];
      files := (files - {tmp})[key := files[tmp]];
      assert files == Published(old(files), key, tmp, data);
    }

    /**
     * The eviction run after a store under a budget: while the total is over
     * the budget, remove a row of least `used` together with its file.
     */
    method Evict() returns (ghost evicted: seq<Path>)
      requires limit.Some?
      modifies this`files, this`tiles
      ensures LruEviction(old(tiles), tiles, evicted, limit.value)
      ensures files == old(files) - Evicted(evicted)
    {
      ghost var before, filesBefore := tiles, files;
      evicted := [];
      var total := TotalSize();
      var over := total - limit.value;
      EvictionLoopStart(before, filesBefore, limit.value, over);
      if total > limit.value {
        while over > 0
          invariant EvictionLoop(before, filesBefore, tiles, files, evicted, limit.value, over)
          decreases |tiles|
        {
          var oldest := Oldest();
          if oldest.None? {
            break;
          }
          var path := oldest.value;
          var size := tiles[path].size;
          EvictionLoopStep(before, filesBefore, tiles, files, evicted, limit.value, over, path);
          assert |tiles - {path}| < |tiles| by { assert (tiles - {path}).Keys < tiles.Keys; }
          Remove(path);
          evicted := evicted + [path];
          over := over - size;
        }
      }
      EvictionLoopDone(before, filesBefore, tiles, files, evicted, limit.value, over);
    }

    /**
     * `set`, as the evidently intended behaviour: publish the payload, fill the
     * tile's payload slot, replace the path's row with (now, size), and run the
     * eviction when a budget is set. Read-only caches change nothing.
     */
    method Set(tile: Tile, data: Bytes, now: real) returns (r: Bytes, ghost evicted: seq<Path>)
      modifies this`files, this`tiles, tile`data
      ensures r == data
      ensures readonly ==>
                files == old(files) && tiles == old(tiles) && tile.data == old(tile.data) && evicted == []
      ensures !readonly ==> tile.data == Some(data)
      ensures !readonly ==>
                files == Published(old(files), Key(basedir, tile.id), TempPath(Key(basedir, tile.id), pid), data)
                         - Evicted(evicted)
      ensures !readonly && limit.None? ==>
                evicted == [] && tiles == old(tiles)[Key(basedir, tile.id) := Row(Seconds(now), |data|)]
      ensures !readonly && limit.Some? ==>
                LruEviction(old(tiles)[Key(basedir, tile.id) := Row(Seconds(now), |data|)],
                            tiles, evicted, limit.value)
      ensures !readonly && Key(basedir, tile.id) !in evicted ==>
                && Key(basedir, tile.id) in files && files[Key(basedir, tile.id)] == data
                && Key(basedir, tile.id) in tiles && tiles[Key(basedir, tile.id)] == Row(Seconds(now), |data|)
      ensures !readonly ==> TempPath(Key(basedir, tile.id), pid) !in files
      ensures old(Consistent()) && TempPath(Key(basedir, tile.id), pid) !in old(files) ==> Consistent()
    {
      if readonly {
        return data, [];
      }
      var key := Key(basedir, tile.id);
      ghost var filesBefore, rowsBefore := files, tiles;
      Publish(key, data);
      tile.data := Some(data);
      tiles := tiles[key := Row(Seconds(now), |data|)];
      evicted := [];
      assert Evicted(evicted) == {};
      ghost var stored, published := tiles, files;
      if limit.Some? {
        evicted := Evict();
        assert LruEviction(stored, tiles, evicted, limit.value);
      } else {
        assert files == published - Evicted(evicted);
      }
      if filesBefore.Keys == rowsBefore.Keys && TempPath(key, pid) !in filesBefore {
        PublishKeepsIndex(filesBefore, rowsBefore, key, TempPath(key, pid), data, Row(Seconds(now), |data|),
                          Evicted(evicted));
      }
      r := data;
    }

    /**
     * `set` as written: the row is inserted on a connection that is committed
     * only inside the budget branch, so without a budget the insert is never
     * committed and the index keeps its old rows.
     */
    method SetAsWritten(tile: Tile, data: Bytes, now: real) returns (r: Bytes, ghost evicted: seq<Path>)
      modifies this`files, this`tiles, tile`data
      ensures r == data
      ensures readonly ==>
                files == old(files) && tiles == old(tiles) && tile.data == old(tile.data) && evicted == []
      ensures !readonly ==> tile.data == Some(data)
      ensures !readonly ==>
                files == Published(old(files), Key(basedir, tile.id), TempPath(Key(basedir, tile.id), pid), data)
                         - Evicted(evicted)
      ensures !readonly && limit.None? ==> evicted == [] && tiles == old(tiles)
      ensures !readonly && limit.Some? ==>
                LruEviction(old(tiles)[Key(basedir, tile.id) := Row(Seconds(now), |data|)],
                            tiles, evicted, limit.value)
    {
      if readonly {
        return data, [];
      }
      var key := Key(basedir, tile.id);
      Publish(key, data);
      tile.data := Some(data);
      evicted := [];
      assert Evicted(evicted) == {};
      if limit.Some? {
        tiles := tiles[key := Row(Seconds(now), |data|)];
        evicted := Evict();
      }
      r := data;
    }

    /**
     * `attemptLock`: creates the tile's lock directory when there is none, or
     * replaces it when it is stale; refuses while it is held.
     */
    method AttemptLock(tile: Tile, now: real) returns (acquired: bool)
      modifies this`locks
      ensures acquired <==> StateOf(old(locks), lockName(tile.id), now, stale) != Held
      ensures acquired ==> locks == old(locks)[lockName(tile.id) := now]
      ensures !acquired ==> locks == old(locks)
    {
      var name := lockName(tile.id);
      if name !in locks {
        locks := locks[name := now];
        return true;
      }
      if locks[name] + stale < now {
        Unlock(tile);
        locks := locks[name := now];
        return true;
      }
      return false;
    }

    /** `unlock`: removes the tile's lock directory; a missing one is only reported. */
    method Unlock(tile: Tile)
      modifies this`locks
      ensures locks == old(locks) - {lockName(tile.id)}
    {
      var name := lockName(tile.id);
      if name in locks {
        locks := locks - {name};
      }
    }
  }

  /** A stored tile is fetched back byte for byte unless the eviction after the store removed it. */
  method StoreThenFetch(cache: LimitedDisk, tile: Tile, data: Bytes, now: real, later: real)
    returns (fetched: Option<Fetched>, ghost evicted: seq<Path>)
    requires !cache.readonly && !cache.sendfile
    modifies cache, tile
    ensures Key(cache.basedir, tile.id) !in evicted ==> fetched == Some(Contents(data))
    ensures Key(cache.basedir, tile.id) in evicted ==> fetched == None
  {
    ghost var key := Key(cache.basedir, tile.id);
    var stored;
    stored, evicted := cache.Set(tile, data, now);
    assert key !in evicted ==> key in cache.files && cache.files[key] == data;
    assert key in evicted ==> key !in cache.files;
    fetched := cache.Get(tile, later);
  }

  /** After a delete, fetching the tile reports a miss. */
  method DeleteThenFetch(cache: LimitedDisk, tile: Tile, now: real) returns (fetched: Option<Fetched>)
    modifies cache, tile
    ensures fetched == None
  {
    cache.Delete(tile);
    fetched := cache.Get(tile, now);
  }

  /**
   * A second attempt on a lock inside the staleness window fails; once the
   * lock is released, the next attempt succeeds.
   */
  method LockLifecycle(cache: LimitedDisk, tile: Tile, t1: real, t2: real, t3: real)
    returns (first: bool, second: bool, third: bool)
    requires t2 <= t1 + cache.stale
    modifies cache
    ensures first ==> !second
    ensures third
  {
    first := cache.AttemptLock(tile, t1);
    second := cache.AttemptLock(tile, t2);
    if first {
      HeldUntilStale(old(cache.locks), cache.lockName(tile.id), t1, t2, cache.stale);
    }
    cache.Unlock(tile);
    third := cache.AttemptLock(tile, t3);
  }

  /** The first store into an empty cache with a budget of 1000 bytes: a 600-byte tile is kept. */
  method StoreWithinBudget(cache: LimitedDisk, tile: Tile, data: Bytes, now: real)
    requires cache.limit == Some(1000) && !cache.readonly && cache.tiles == map[] && |data| == 600
    modifies cache, tile
    ensures cache.tiles == map[Key(cache.basedir, tile.id) := Row(Seconds(now), 600)]
  {
    var key, row := Key(cache.basedir, tile.id), Row(Seconds(now), 600);
    var stored;
    ghost var evicted;
    stored, evicted := cache.Set(tile, data, now);
    assert map[][key := row] == map[key := row];
    SumRemove(map[key := row], key);
    assert map[key := row] - {key} == map[];
    NoEvictionUnderBudget(map[key := row], cache.tiles, evicted, 1000);
  }

  /**
   * A second 600-byte tile stored in a later second into a cache holding one
   * 600-byte row, under a budget of 1000 bytes: the older row and its file go.
   */
  method StoreOverBudget(cache: LimitedDisk, tile: Tile, data: Bytes, now: real, older: Path, used: int)
    requires cache.limit == Some(1000) && !cache.readonly && |data| == 600
    requires cache.tiles == map[older := Row(used, 600)] && used < Seconds(now)
    requires older != Key(cache.basedir, tile.id)
    modifies cache, tile
    ensures cache.tiles == map[Key(cache.basedir, tile.id) := Row(Seconds(now), 600)]
    ensures older !in cache.files
    ensures Key(cache.basedir, tile.id) in cache.files && cache.files[Key(cache.basedir, tile.id)] == data
  {
    var key, row := Key(cache.basedir, tile.id), Row(Seconds(now), 600);
    var stored;
    ghost var evicted;
    stored, evicted := cache.Set(tile, data, now);
    assert map[older := Row(used, 600)][key := row] == map[older := Row(used, 600), key := row];
    assert evicted == [older] && cache.tiles == map[key := row] by {
      OlderTileEvicted(older, key, used, Seconds(now), cache.tiles, evicted);
    }
    assert Evicted(evicted) == {older};
  }

  /**
   * A budget of 1000 bytes, a 600-byte tile stored, then another stored in a
   * later second: the first is evicted and fetching it misses, the second is a hit.
   */
  method BudgetScenario(cache: LimitedDisk, tileA: Tile, tileB: Tile, dataA: Bytes, dataB: Bytes,
                        t1: real, t2: real, t3: real)
    returns (fetchedA: Option<Fetched>, fetchedB: Option<Fetched>)
    requires cache.limit == Some(1000) && !cache.readonly && !cache.sendfile && cache.tiles == map[]
    requires tileA.id != tileB.id && |dataA| == 600 && |dataB| == 600 && Seconds(t1) < Seconds(t2)
    modifies cache, tileA, tileB
    ensures fetchedA == None && fetchedB == Some(Contents(dataB))
  {
    KeyInjective(cache.basedir, tileA.id, cache.basedir, tileB.id);
    StoreWithinBudget(cache, tileA, dataA, t1);
    StoreOverBudget(cache, tileB, dataB, t2, Key(cache.basedir, tileA.id), Seconds(t1));
    fetchedA := cache.Get(tileA, t3);
    fetchedB := cache.Get(tileB, t3);
  }

  /** Without a budget, the index as written never records a stored tile. */
  method UnboundedStoreAsWritten(id: TileId, data: Bytes, now: real) returns (stored: bool, indexed: bool)
    ensures stored && !indexed
  {
    var cache := new LimitedDisk("base", None, false, false, 300.0, 1,
                                 (t: TileId) => Key("locks", t), map[], map[], map[]);
    var tile := new Tile(id);
    var r;
    ghost var evicted;
    r, evicted := cache.SetAsWritten(tile, data, now);
    stored := Key("base", id) in cache.files;
    indexed := Key("base", id) in cache.tiles;
  }

  /** Without a budget, the corrected store records the tile in the index. */
  method UnboundedStore(id: TileId, data: Bytes, now: real) returns (stored: bool, indexed: bool)
    ensures stored && indexed
  {
    var cache := new LimitedDisk("base", None, false, false, 300.0, 1,
                                 (t: TileId) => Key("locks", t), map[], map[], map[]);
    var tile := new Tile(id);
    var r;
    ghost var evicted;
    r, evicted := cache.Set(tile, data, now);
    stored := Key("base", id) in cache.files;
    indexed := Key("base", id) in cache.tiles;
  }
}
