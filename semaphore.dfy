/**
 * The binary hand-off flag of semaphore.c: the global `g_semaphore`, taken by
 * the receive interrupt when a frame completes and meant to be given back by
 * the main loop.  Neither operation reports whether it changed anything.
 */
module Semaphore {

  /** BinarySemaphoreState; the C enum gives UNLOCKED the value 0 and LOCKED the value 1. */
  datatype SemaphoreState = SEMAPHORE_UNLOCKED | SEMAPHORE_LOCKED

  /** The enum's integer value. */
  function Encoding(s: SemaphoreState): (v: nat)
    ensures v < 2
    ensures v == 0 <==> s == SEMAPHORE_UNLOCKED
  {
    match s
    case SEMAPHORE_UNLOCKED => 0
    case SEMAPHORE_LOCKED => 1
  }

  /** The state acquire_semaphore leaves behind. */
  function Acquired(s: SemaphoreState): (r: SemaphoreState)
    ensures r == SEMAPHORE_LOCKED
    ensures s == SEMAPHORE_LOCKED ==> r == s
  {
    if s.SEMAPHORE_UNLOCKED? then SEMAPHORE_LOCKED else s
  }

  /** The state release_semaphore leaves behind. */
  function Released(s: SemaphoreState): (r: SemaphoreState)
    ensures r == SEMAPHORE_UNLOCKED
    ensures s == SEMAPHORE_UNLOCKED ==> r == s
  {
    if s.SEMAPHORE_LOCKED? then SEMAPHORE_UNLOCKED else s
  }

  /** The storage `g_semaphore` that both operations update through a pointer. */
  class BinarySemaphore {
    var state: SemaphoreState

    /** The global's initialiser. */
    constructor ()
      ensures state == SEMAPHORE_UNLOCKED
    {
      state := SEMAPHORE_UNLOCKED;
    }

    /** acquire_semaphore: locks an unlocked flag; a locked one stays locked, and nothing is reported. */
    method Acquire()
      modifies this
      ensures state == Acquired(old(state))
      ensures state == SEMAPHORE_LOCKED
    {
      if state == SEMAPHORE_UNLOCKED {
        state := SEMAPHORE_LOCKED;
      }
    }

    /** release_semaphore: unlocks a locked flag; an unlocked one is left as it is. */
    method Release()
      modifies this
      ensures state == Released(old(state))
      ensures state == SEMAPHORE_UNLOCKED
    {
      if state == SEMAPHORE_LOCKED {
        state := SEMAPHORE_UNLOCKED;
      }
    }
  }

  /** Both operations are idempotent, and release undoes acquire from the unlocked state. */
  lemma HandOffRoundTrip(s: SemaphoreState)
    ensures Acquired(Acquired(s)) == Acquired(s)
    ensures Released(Released(s)) == Released(s)
    ensures s == SEMAPHORE_UNLOCKED ==> Released(Acquired(s)) == s
  {
  }
}
