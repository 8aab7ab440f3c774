/** What one step of a recovery task does to the mutex and to the flag that guard the recovery. */
module Locks {
  import opened Bytes

  /** The mutex is taken on entering the locked part and released on leaving it. */
  predicate MutexEffect(t: nat, held: bool, holds: bool, m: Option<nat>, n: Option<nat>) {
    if holds && !held then m == None && n == Some(t)
    else if held && !holds then n == None
    else n == m
  }

  /** The flag goes up on entering the flagged part and down on leaving it. */
  predicate FlagEffect(flagged: bool, flags: bool, r: bool, n: bool) {
    n == if flagged == flags then r else flags
  }
}
