/** The re-entrant artifact guards of one spool instance (src/monitor_agent/spool.py:822-987). */
module Guards {
  import opened SpoolProtocol

  /** The hidden artifacts a guard protects. */
  datatype Artifact =
    | StagedFile
    | MarkerTemp
    | PublishLock(destination: Stem)
    | OperationLock(op: Op)
    | DestinationLock(destination: Stem)

  /** How an acquisition ended: with the guard, refused, or with an exception. */
  datatype Outcome = Got | Busy | Raised

  /** Guard file to nesting depth, the `_artifact_guards` dictionary. */
  type Held = map<nat, nat>

  predicate Positive(held: Held) {
    forall s :: s in held ==> held[s] >= 1
  }

  function Taken(held: Held, slot: nat): Held {
    held[slot := if slot in held then held[slot] + 1 else 1]
  }

  function Freed(held: Held, slot: nat): Held
    requires slot in held
  {
    if held[slot] > 1 then held[slot := held[slot] - 1] else held - {slot}
  }

  /** Releasing undoes acquiring, whatever else is held and however slots collide. */
  lemma FreedUndoesTaken(held: Held, slot: nat)
    requires Positive(held)
    ensures Positive(Taken(held, slot)) && Freed(Taken(held, slot), slot) == held
  {
    assert Freed(Taken(held, slot), slot).Keys == held.Keys;
  }

  class ArtifactGuards {
    var held: Held
    /** Which guard file an artifact uses; several artifacts may share one. */
    const slot: Artifact -> nat

    constructor (slot: Artifact -> nat)
      ensures this.slot == slot && held == map[]
    {
      this.slot := slot;
      held := map[];
    }

    /** The guard of `a` can be taken without waiting: by this instance again, or because no other
    process holds the guard file. */
    predicate Obtainable(a: Artifact, free: bool)
      reads this
    {
      slot(a) in held || free
    }

    /** `_acquire_artifact_guard`; `free` tells whether no other process holds the guard file, and
    `reliable` that no system call fails. */
    method Acquire(a: Artifact, blocking: bool, free: bool, reliable: bool) returns (outcome: Outcome)
      requires Positive(held)
      modifies this
      ensures Positive(held)
      ensures held == if outcome == Got then Taken(old(held), slot(a)) else old(held)
      ensures slot(a) in old(held) ==> outcome == Got
      ensures outcome == Busy ==> !blocking && !free
      ensures outcome == Got && slot(a) !in old(held) && !blocking ==> free
      ensures reliable ==> outcome == if blocking || old(Obtainable(a, free)) then Got else Busy
    {
      FreedUndoesTaken(held, slot(a));
      if slot(a) in held {
        held := held[slot(a) := held[slot(a)] + 1];
        return Got;
      }
      var opens: bool := *;
      if !opens && !reliable { return Raised; }
      if !blocking && !free { return Busy; }
      var sameFile: bool := *;
      if !sameFile && !reliable { return Raised; }
      held := held[slot(a) := 1];
      return Got;
    }

    /** `_release_artifact_guard`, its unlock and close succeeding. */
    method Release(a: Artifact)
      requires Positive(held) && slot(a) in held
      modifies this
      ensures Positive(held) && held == Freed(old(held), slot(a))
    {
      var depth := held[slot(a)];
      if depth > 1 {
        held := held[slot(a) := depth - 1];
      } else {
        held := held - {slot(a)};
      }
    }

    /** `_cleanup_stale_hidden_file`: opens, checks, locks and unlinks under the guard. Who has the guard
    finds the file unlocked, since its owner would have the guard (module Interleaving). */
    method CleanupStale(a: Artifact, free: bool, reliable: bool) returns (removed: bool, raised: bool)
      requires Positive(held)
      modifies this
      ensures Positive(held) && held == old(held)
      ensures reliable ==> !raised && (removed <==> old(Obtainable(a, free)))
    {
      FreedUndoesTaken(held, slot(a));
      removed, raised := false, false;
      var outcome := Acquire(a, false, free, reliable);
      if outcome == Raised { raised := true; }
      if outcome != Got { return; }
      var opens, regular, locks, fails: bool := *, *, *, *;
      if fails && !reliable {
        raised := true;
      } else {
        removed := reliable || (opens && regular && locks);
      }
      Release(a);
    }

    /** `_acquire_reservation`: at most two attempts at exclusive creation around one cleanup. If no call
    fails, a stale file is gone after the cleanup, and the reservation is taken exactly if its guard
    can be. */
    method AcquireReservation(a: Artifact, free: bool, reliable: bool) returns (outcome: Outcome)
      requires Positive(held)
      modifies this
      ensures Positive(held)
      ensures held == if outcome == Got then Taken(old(held), slot(a)) else old(held)
      ensures reliable ==> outcome == if old(Obtainable(a, free)) then Got else Busy
    {
      FreedUndoesTaken(held, slot(a));
      outcome := Acquire(a, false, free, reliable);
      if outcome != Got { return; }
      outcome := Busy;
      var attempt := 0;
      while attempt < 2
        invariant Positive(held) && held == Taken(old(held), slot(a)) && outcome == Busy
        invariant reliable ==> attempt <= 1
      {
        var created := Create(attempt == 0, reliable);
        if created == Got {
          var locks: bool := *;
          outcome := if locks || reliable then Got else Raised;
          break;
        } else if created == Raised {
          outcome := Raised;
          break;
        }
        var removed, raised := CleanupStale(a, free, reliable);
        if raised {
          outcome := Raised;
          break;
        }
        if !removed { break; }
        attempt := attempt + 1;
      }
      if outcome != Got { Release(a); }
    }

    /** Exclusive creation; `Busy` is FileExistsError. */
    method Create(stale: bool, reliable: bool) returns (created: Outcome)
      ensures reliable ==> created == Got || (stale && created == Busy)
    {
      created := *;
      if reliable && !(stale && created == Busy) {
        created := Got;
      }
    }

    /** `_release_reservation`, its unlink, unlock and close succeeding. */
    method ReleaseReservation(a: Artifact)
      requires Positive(held) && slot(a) in held
      modifies this
      ensures Positive(held) && held == Freed(old(held), slot(a))
    {
      Release(a);
    }
  }
}
