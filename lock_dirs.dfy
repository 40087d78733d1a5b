/**
 * Lock directories as a map from lock name to the directory's creation time,
 * and the state a lock is in as seen by a contender at time `now`.
 */
module LockDirs {
  import opened Sharding

  type LockTable = map<Path, real>

  /** Unlocked: no directory. Held: a directory that is not yet stale. Stale: one older than the threshold. */
  datatype LockState = Unlocked | Held | Stale

  /** A lock is stale once its creation time plus the threshold lies strictly before `now`. */
  function StateOf(locks: LockTable, name: Path, now: real, stale: real): LockState {
    if name !in locks then Unlocked
    else if locks[name] + stale < now then Stale
    else Held
  }

  /**
   * A lock created at t is held for every contender whose clock reads at most
   * t + stale, including one whose clock lies before t.
   */
  lemma HeldUntilStale(locks: LockTable, name: Path, t: real, now: real, stale: real)
    requires now <= t + stale
    ensures StateOf(locks[name := t], name, now, stale) == Held
  {
  }

  /** Creating or removing one lock leaves the state of every other lock as it was. */
  lemma OtherLocksUnaffected(locks: LockTable, name: Path, other: Path, t: real, now: real, stale: real)
    requires name != other
    ensures StateOf(locks[name := t], other, now, stale) == StateOf(locks, other, now, stale)
    ensures StateOf(locks - {name}, other, now, stale) == StateOf(locks, other, now, stale)
  {
  }
}
