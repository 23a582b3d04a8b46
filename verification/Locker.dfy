/** What the lock does to the shared set of held upload IDs; the interleaved system is built from the same steps. */
module Locks {
  predicate Free(held: set<string>, id: string) {
    id !in held
  }

  function Taken(held: set<string>, id: string): set<string> {
    held + {id}
  }

  /** Giving a lock back; `reached` says whether the set could be reached to do so. */
  function GivenBack(held: set<string>, id: string, reached: bool): set<string> {
    if reached then held - {id} else held
  }

  /** The three of them, member by member. */
  lemma LocksMean(held: set<string>, id: string, other: string)
    ensures Free(held, id) <==> id !in held
    ensures other in Taken(held, id) <==> other == id || other in held
    ensures other in GivenBack(held, id, true) <==> other != id && other in held
    ensures GivenBack(held, id, false) == held
  {
  }
}

/** The in-memory lock: one shared set of held upload IDs. */
module Lockers {
  import opened Core
  import opened Locks

  class MemoryLocker {
    var held: set<string>

    constructor ()
      ensures held == {}
    {
      held := {};
    }

    /** One look at the set, under its mutex. */
    method Poll(id: string) returns (taken: bool)
      modifies this
      ensures taken <==> id !in old(held)
      ensures forall other :: other in held <==> other == id || other in old(held)
      ensures (taken <==> Free(old(held), id)) && (taken ==> held == Taken(old(held), id)) && (!taken ==> held == old(held))
    {
      taken := id !in held;
      held := held + {id};
    }

    /**
     * Polls the set until the ID can be inserted or the deadline passes. `polls` is what the other tasks have made of
     * the set by the time of each look at it; the last look is the one after which the deadline has passed. The lock is
     * granted exactly if one of the looks finds the ID free, and then by the first, which changes the set as one step.
     */
    method Acquire(id: string, polls: seq<set<string>>) returns (r: Result<MemoryLock>)
      requires polls != []
      modifies this
      ensures r.Ok? <==> exists i :: 0 <= i < |polls| && id !in polls[i]
      ensures r.Ok? ==>
        && fresh(r.value) && r.value.id == id && r.value.locker == this && !r.value.released
        && exists i :: 0 <= i < |polls| && id !in polls[i] && (forall j :: 0 <= j < i ==> id in polls[j])
                       && held == polls[i] + {id}
      ensures r.Err? ==> r.error == LockTimeout && held == polls[|polls| - 1]
    {
      var i := 0;
      while true
        invariant 0 <= i < |polls|
        invariant forall j :: 0 <= j < i ==> id in polls[j]
        decreases |polls| - i
      {
        held := polls[i];
        var taken := Poll(id);
        if taken {
          var lock := new MemoryLock(id, this);
          return Ok(lock);
        }
        if i == |polls| - 1 {
          return Err(LockTimeout);
        }
        i := i + 1;
      }
    }
  }

  class MemoryLock {
    const id: string
    const locker: MemoryLocker
    var released: bool

    constructor (id: string, locker: MemoryLocker)
      ensures this.id == id && this.locker == locker && !released
    {
      this.id, this.locker, released := id, locker, false;
    }

    method Release()
      modifies this, locker
      ensures released && id !in locker.held
      ensures forall other :: other != id ==> (other in locker.held <==> other in old(locker.held))
      ensures locker.held == GivenBack(old(locker.held), id, true)
    {
      locker.held := locker.held - {id};
      released := true;
    }

    /** Dropping releases a lock that is still held, unless the set's own mutex happens to be taken. */
    method Drop(mutexFree: bool)
      modifies locker
      ensures released == old(released)
      ensures !released && mutexFree ==> id !in locker.held
      ensures released || !mutexFree ==> locker.held == old(locker.held)
      ensures forall other :: other != id ==> (other in locker.held <==> other in old(locker.held))
      ensures locker.held == GivenBack(old(locker.held), id, !released && mutexFree)
    {
      if !released {
        if mutexFree {
          locker.held := locker.held - {id};
        }
      }
    }
  }
}
