/** The sequence-counter futex that `Condvar` waits on. The counter has 32 bits; the
    models keep the number of bumps since creation and compare words modulo 2^32. */
module Condvar {
  const WORD: nat := 0x1_0000_0000

  /** `seq` still holds the value a waiter loaded when `seen` bumps had happened. */
  predicate SameSeq(bumps: nat, seen: nat) {
    bumps % WORD == seen % WORD
  }
}
