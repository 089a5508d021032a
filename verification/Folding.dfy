/**
 Facts that are kept folded: `forall level {:trigger Look(level)} :: Look(level) && level == L ==> P`.
 A proof that needs the details of `P` says `assert Look(L)`; all others carry it around as one
 fact.  Each folded fact has a level of its own.
 */
module Folding {
  /** Holds of everything. */
  predicate Look(level: int) {
    true
  }

  const RING_FOLD := 0
  const PORTS_FOLD := 1
  const DESCRIPTOR_FOLD := 2
  const HANDLER_FOLD := 3
  const BATCH_FOLD := 4
  const STEP_FOLD := 5
  const LISTING_FOLD := 6
  const DIGITS_FOLD := 7
  const PARTS_FOLD := 8
  const TIMEOUT_LIST_FOLD := 9
  const TIMEOUT_QUEUE_FOLD := 10
  const TIMER_FOLD := 11
  const DELETION_FOLD := 12
  const POLL_FOLD := 13
  const LEDGER_FOLD := 14
  const SPELLING_FOLD := 15
  const MIRROR_FOLD := 16
  const TAKING_FOLD := 17
  const CHAIN_FOLD := 18
  const DUE_FOLD := 19
  const PLAN_FOLD := 20
  const REWIND_FOLD := 21
}
