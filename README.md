# LimitedDisk tile cache — a Dafny model

TileCache's `LimitedDisk` cache keeps map tiles as files under a base directory.
It computes each tile's path with a sharder that splits the column and row
numbers into groups of three digits. It records every stored file in a SQLite
table `tiles(path, used, size)`, and after each store it evicts the
least-recently-used files until the total size is back within an optional byte
budget. It also guards the regeneration of a tile with a lock directory that
counts as abandoned once it is older than a staleness threshold.

The model has six modules:

- `Options` (`options.dfy`): the `Option` datatype for absent values.
- `Decimal` (`decimal.dfy`): Python's `"%0<w>d"` integer formatting, and the
  parser that reads such text back.
- `Sharding` (`sharding.dfy`): `getKey`, modelled as `Key`. A path is the
  sequence of components passed to `os.path.join`. `ParseKey` is its inverse.
- `TileIndex` (`tile_index.dfy`): the `tiles` table as a map from path to
  `Row(used, size)`. It defines the total size `Sum`, the `UPDATE ... SET used`
  of a hit (`Touch`), and what an LRU eviction run must leave behind
  (`LruEviction`).
- `LockDirs` (`lock_dirs.dfy`): lock directories as a map from lock name to
  creation time, and the state a contender sees (unlocked, held or stale).
- `LimitedDiskCache` (`limited_disk.dfy`): the cache as a class. It has three
  fields:
  - `files` is the file system below the base directory;
  - `tiles` is the committed index;
  - `locks` holds the lock directories.

  Its methods `Get`, `Evict`, `Remove`, `Delete`, `AttemptLock` and `Unlock`
  update these fields as the Python class does. `SetAsWritten` is `set` as
  written. `Set` is the corrected store, which records the row also without a
  budget (see "## Findings").

What the model takes as parameters instead of reading them itself:

- The clock is the `now: real` parameter, the value `time.time()` would return.
- The process id is the constant `pid`.
- The base cache's lock naming is the constant `lockName`.

The sharder follows the code. The cache's design describes the millions
group as reduced modulo 1000, but the code formats `int(x / 1000000)`
unreduced, so `Split` keeps the full quotient.
`KeyFanOut` proves the three-digit layout only for coordinates below 10^9.
Python 2's `/` on integers floors, and its `%` is non-negative for a positive
divisor, the same as Dafny's `/` and `%`. So negative coordinates are modelled
as the code treats them, and `"%03d"` of a negative number counts the minus
sign in the width.

## Model

| member | source | states |
|---|---|---|
| Decimal.FormatIntRoundTrip | TileCache/Caches/LimitedDisk.py:89-95 | Every number formatted by `"%0<w>d"` reads back as that number, negative numbers and any width included |
| Decimal.FormatIntInjective | TileCache/Caches/LimitedDisk.py:89-95 | Distinct numbers give distinct text at one width |
| Decimal.ThreeDigits | TileCache/Caches/LimitedDisk.py:90-95 | `"%03d"` of a value in [0, 1000) is exactly three digits |
| Sharding.Split | TileCache/Caches/LimitedDisk.py:90-95 | The millions, thousands and units of a coordinate recombine to the coordinate, with thousands and units in [0, 1000); the millions are in [0, 1000) for coordinates below 10^9 |
| Sharding.Key | TileCache/Caches/LimitedDisk.py:86-98 | A tile's path has nine components, starting with the base directory and the layer name |
| Sharding.KeyRoundTrip | TileCache/Caches/LimitedDisk.py:86-98 | The tile identity (layer, zoom, column, row, extension) can be read back from its path |
| Sharding.KeyInjective | TileCache/Caches/LimitedDisk.py:86-98 | Two tiles, or two base directories, never share a path |
| Sharding.KeyFanOut | TileCache/Caches/LimitedDisk.py:89-95 | For zoom in [0, 100) and coordinates in [0, 10^9), the zoom directory has two digits and every shard directory three, so no directory holds more than 1000 numeric entries |
| Sharding.KeyExample | TileCache/Caches/LimitedDisk.py:86-98 | Tile (osm, 3, 1234567, 890123, png) is stored at base/osm/03/001/234/567/000/890/123.png |
| Sharding.TempPath | TileCache/Caches/LimitedDisk.py:123 | The temporary name lies in the key's directory and differs from the key |
| TileIndex.SumRemove | TileCache/Caches/LimitedDisk.py:142 | Taking one row out of the table takes its size out of the total |
| TileIndex.SumUpdate | TileCache/Caches/LimitedDisk.py:139 | After the insert-or-replace of a row, the total is the other rows' total plus the new row's size |
| TileIndex.Touch | TileCache/Caches/LimitedDisk.py:105 | Recording a use changes only the `used` time of that path's row, and nothing when the path has no row |
| TileIndex.SumTouch | TileCache/Caches/LimitedDisk.py:105 | Recording a use never changes the total size |
| TileIndex.EvictedCount | TileCache/Caches/LimitedDisk.py:146-152 | A sequence of evicted paths without repeats names as many distinct paths as it has entries |
| TileIndex.RowsRemoved | TileCache/Caches/LimitedDisk.py:146-152 | An eviction run leaves the table with exactly one row fewer per evicted path |
| TileIndex.EvictionLoopStep | TileCache/Caches/LimitedDisk.py:146-152 | Removing a least-recently-used row and its file while over budget keeps the loop's invariant, with `over` reduced by that row's size |
| TileIndex.EvictionLoopDone | TileCache/Caches/LimitedDisk.py:145-148 | A loop that stops within budget, or with no rows left, has performed an LRU eviction |
| TileIndex.LruStepMinimal | TileCache/Caches/LimitedDisk.py:146-151 | Each evicted row had the least `used` among the rows still present when it was removed |
| TileIndex.EvictionOnlyOverBudget | TileCache/Caches/LimitedDisk.py:143-145 | Eviction removes something only when the total was over the budget |
| TileIndex.NoEvictionUnderBudget | TileCache/Caches/LimitedDisk.py:143-145 | A table within budget loses no row and no file |
| TileIndex.EvictionsOfPair | TileCache/Caches/LimitedDisk.py:145-152 | A run over two rows evicts nothing, one of them, or both, each at most once |
| TileIndex.OlderTileEvicted | TileCache/Caches/LimitedDisk.py:141-152 | With a budget of 1000 and two 600-byte rows, exactly the older row is evicted |
| LockDirs.HeldUntilStale | TileCache/Caches/LimitedDisk.py:182 | A lock created at t is held, not stale, for every contender whose clock reads at most t + stale, an earlier clock included |
| LockDirs.OtherLocksUnaffected | TileCache/Caches/LimitedDisk.py:173-197 | Creating or removing one lock leaves every other lock's state as it was |
| LimitedDiskCache.Seconds | TileCache/Caches/LimitedDisk.py:105 | `int(time.time())` truncates toward zero and stays within one second of the clock |
| LimitedDiskCache.Published | TileCache/Caches/LimitedDisk.py:123-135 | After the write-then-rename, the key holds the payload, the temporary name is gone, and every other file is unchanged |
| LimitedDiskCache.PublishKeepsIndex | TileCache/Caches/LimitedDisk.py:132-139 | Publishing a file and writing its row keeps files and rows in step, also after evicting paths from both |
| LimitedDiskCache.LimitedDisk.TotalSize | TileCache/Caches/LimitedDisk.py:142 | The loop returns the sum of the sizes of all rows |
| LimitedDiskCache.LimitedDisk.Oldest | TileCache/Caches/LimitedDisk.py:146-148 | The loop returns None exactly when the table is empty, and otherwise a path whose row has the least `used` |
| LimitedDiskCache.LimitedDisk.Remove | TileCache/Caches/LimitedDisk.py:159-162 | `_remove` deletes the path's file if there is one, and its row |
| LimitedDiskCache.LimitedDisk.Delete | TileCache/Caches/LimitedDisk.py:165-170 | The tile's file and row are gone, nothing else changes, and files and rows stay in step |
| LimitedDiskCache.LimitedDisk.Get | TileCache/Caches/LimitedDisk.py:100-115 | A miss returns None and changes nothing. A hit touches the row, and returns the path under sendfile, otherwise the stored bytes, which also go into the tile's payload slot |
| LimitedDiskCache.LimitedDisk.Publish | TileCache/Caches/LimitedDisk.py:123-135 | Writing to `key.<pid>.tmp` and renaming it onto the key leaves the file store `Published` describes |
| LimitedDiskCache.LimitedDisk.Evict | TileCache/Caches/LimitedDisk.py:141-152 | The eviction loop performs an LRU eviction of the index against the budget and removes the evicted paths' files |
| LimitedDiskCache.LimitedDisk.Set | TileCache/Caches/LimitedDisk.py:117-157 | Corrected (see ## Findings): read-only caches change nothing. Otherwise the payload is published and put into the tile, the row becomes (now, size), and under a budget an LRU eviction follows. A tile not evicted is stored and indexed, the temporary file is gone, and files and rows stay in step |
| LimitedDiskCache.LimitedDisk.SetAsWritten | TileCache/Caches/LimitedDisk.py:137-155 | As written, without a budget the file is published but the index keeps its old rows |
| LimitedDiskCache.LimitedDisk.AttemptLock | TileCache/Caches/LimitedDisk.py:173-190 | The lock is acquired exactly when it was not held, meaning absent or stale. Then the directory is (re)created at `now`; otherwise nothing changes |
| LimitedDiskCache.LimitedDisk.Unlock | TileCache/Caches/LimitedDisk.py:192-197 | The tile's lock directory is gone; a missing one changes nothing |
| LimitedDiskCache.StoreThenFetch | TileCache/Caches/LimitedDisk.py:100-157 | A stored tile is read back byte for byte unless the eviction after the store removed it, in which case the fetch misses |
| LimitedDiskCache.DeleteThenFetch | TileCache/Caches/LimitedDisk.py:100-115 | After a delete, the tile is a miss |
| LimitedDiskCache.LockLifecycle | TileCache/Caches/LimitedDisk.py:173-197 | A second attempt within the staleness window fails, and the attempt after an unlock succeeds |
| LimitedDiskCache.StoreWithinBudget | TileCache/Caches/LimitedDisk.py:141-144 | A first 600-byte store under a 1000-byte budget evicts nothing |
| LimitedDiskCache.StoreOverBudget | TileCache/Caches/LimitedDisk.py:141-152 | A later 600-byte store over one 600-byte row under a 1000-byte budget evicts the older tile and keeps the new one |
| LimitedDiskCache.BudgetScenario | TileCache/Caches/LimitedDisk.py:100-157 | In that scenario, fetching the older tile misses and fetching the newer returns its bytes |
| LimitedDiskCache.UnboundedStoreAsWritten | TileCache/Caches/LimitedDisk.py:137-155 | As written, a store without a budget leaves the file on disk but no row in the index |
| LimitedDiskCache.UnboundedStore | TileCache/Caches/LimitedDisk.py:137-155 | Corrected, a store without a budget leaves both the file and its row |

## Left out

- SQL text, connections and transactions are not modelled. `tiles` is the committed state of the table.
- The `locks` table (lines 8-15) is created but never read or written by the cache, so it is not modelled.
- Directory creation is not modelled: `makedirs`, its handling of errno 17, and the `access` checks for a directory are left out. Files are a map from full path to bytes, with no directory tree.
- Paths are sequences of components. A layer name or extension containing a path separator, and `os.path.join`'s reset on an absolute component, are not modelled.
- The process umask is not modelled. Nor is the fact that it is not restored when `makedirs` raises (in `attemptLock` the directory already exists on every contended attempt).
- The second rename attempt after `os.unlink(filename)` (lines 133-135) is not modelled separately. Both branches end with the payload at the key, and any failure of the unlink or the second rename is an I/O error outside the model.
- File-system and SQLite failures are not modelled: every `makedirs`, `stat`, `unlink`, write, rename and statement is taken to succeed. The source behaves differently on failure in ways the model does not show. `attemptLock` catches every `OSError` (lines 175-179, 188-190) and returns False, so a `makedirs` refused for lack of permission fails the attempt; `AttemptLock` always acquires an absent lock. An `os.unlink` that raises inside the eviction loop (line 161) aborts `set` before the commit at 154: the new row and the uncommitted row deletions roll back, but the files already unlinked stay gone. A write that fails at lines 126-128 leaves the temporary file behind and the process umask changed.
- The Jython branch of `access` (lines 75-79) is not modelled; only the CPython branch is.
- Tile coordinates are integers. Float coordinates and the truncation by `int()` of a float quotient are not modelled.
- Several processes sharing one cache are not modelled. Two contenders that both see a stale lock can both reclaim it, because the second `makedirs` hides "directory exists". The model runs one operation at a time, so it does not show this.
- Warnings and the message printed on a failed `rmdir` are not modelled. A failed `rmdir` of a missing directory changes nothing.
- The base `Cache` class, including `getLockName`, `readonly` and `sendfile`, is not part of this model. Lock naming is the constant `lockName` of the cache object.
- LimitedDiskCache.LimitedDisk.Oldest: which row is chosen when several share the least `used` second is left open, as it is by SQL's `ORDER BY used LIMIT 1`.
- The constructor only attaches to existing state. Creating the base directory and the tables is not modelled, and `int(limit)` is taken as already done.

## Findings

| source | as written | input that shows it | evidently intended | confidence | as-written member | corrected member |
|---|---|---|---|---|---|---|
| TileCache/Caches/LimitedDisk.py:137-155 | The `INSERT OR REPLACE` of the tile's row is committed only inside `if self.limit is not None`. Without a budget the connection is never committed, so the row is discarded. | A cache with `limit = None`; `set` of any tile on an empty cache: the file exists afterwards but `tiles` has no row for it | Commit the upsert whether or not a budget is set, so the index records every stored tile | high, not executed | LimitedDiskCache.UnboundedStoreAsWritten | LimitedDiskCache.UnboundedStore |
