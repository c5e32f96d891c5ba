/** Any number of spool instances share the hidden artifacts of one directory: staged files and
reservation locks (src/monitor_agent/spool.py:690-734, 808-987).

Every step is one system call of one process: taking a guard, exclusive creation, locking, opening a
name, trying a lock, comparing name and descriptor, unlinking by name, closing, releasing. A crash
releases all locks of a process and may happen anywhere. Guards are re-entrant inside an instance, so
the argument needs both the guard (against other processes) and the per-file lock (against oneself). */
module Interleaving {

  type Pid = nat
  type Ino = nat

  datatype Name = StagedName(id: nat) | ReservationName(id: nat)

  /** Which guard file protects a name; collisions are allowed. */
  type Slots = Name -> nat

  /** `flock` belongs to an open file: the owner's descriptor, or a cleaner's. */
  datatype Lock = Lock(pid: Pid, cleaner: bool)

  datatype Owned = Owned(ino: Ino, locked: bool, named: bool)

  datatype Phase =
    | Idle
    | Holding(name: Name)
    | Creating(name: Name, ino: Ino)
    | CleanGuard(name: Name, nested: bool)
    | CleanOpen(name: Name, nested: bool, ino: Ino)
    | CleanLocked(name: Name, nested: bool, ino: Ino)
    | CleanChecked(name: Name, nested: bool, ino: Ino)

  datatype Proc = Proc(guards: map<nat, nat>, owned: map<Name, Owned>, phase: Phase)

  datatype State = State(names: map<Name, Ino>, locks: map<Ino, Lock>, procs: map<Pid, Proc>, next: Ino)

  datatype Action =
    | Spawn
    | Crash
    | Begin(name: Name)
    | GiveUp
    | Create
    | LockNew
    | LockFails
    | StartClean(name: Name)
    | StartNested
    | Open
    | TryLock
    | Compare
    | Unlink
    | EndClean
    | OwnerUnlink(name: Name)
    | OwnerClose(name: Name)
    | Release(name: Name)

  predicate Cleaning(ph: Phase) {
    ph.CleanGuard? || ph.CleanOpen? || ph.CleanLocked? || ph.CleanChecked?
  }

  predicate HasLock(ph: Phase) {
    ph.CleanLocked? || ph.CleanChecked?
  }

  predicate GuardFree(st: State, p: Pid, k: nat) {
    forall q :: q in st.procs && q != p ==> k !in st.procs[q].guards
  }

  /** The process is not in the middle of giving up a reservation. */
  predicate Steady(pr: Proc) {
    forall n :: n in pr.owned ==> (pr.owned[n].locked && pr.owned[n].named) || n.StagedName?
  }

  function Take(guards: map<nat, nat>, k: nat): map<nat, nat> {
    guards[k := if k in guards then guards[k] + 1 else 1]
  }

  function Drop(guards: map<nat, nat>, k: nat): map<nat, nat> {
    if k !in guards then guards
    else if guards[k] > 1 then guards[k := guards[k] - 1]
    else guards - {k}
  }

  function Depth(guards: map<nat, nat>, k: nat): nat {
    if k in guards then guards[k] else 0
  }

  predicate Enabled(slot: Slots, st: State, p: Pid, a: Action) {
    if a.Spawn? then p !in st.procs
    else
      p in st.procs &&
      var pr := st.procs[p];
      var ph := pr.phase;
      match a
      case Crash => true
      case Begin(n) =>
        ph.Idle? && Steady(pr) && GuardFree(st, p, slot(n)) && (n.StagedName? ==> n !in pr.owned)
      case GiveUp => ph.Holding?
      case Create => ph.Holding? && ph.name !in st.names
      case LockNew => ph.Creating? && ph.ino !in st.locks
      case LockFails => ph.Creating?
      case StartClean(n) => ph.Idle? && pr.owned == map[] && GuardFree(st, p, slot(n))
      case StartNested => ph.Holding? && ph.name.ReservationName? && ph.name in st.names
      case Open => ph.CleanGuard? && ph.name in st.names
      case TryLock => ph.CleanOpen? && ph.ino !in st.locks
      case Compare => ph.CleanLocked? && ph.name in st.names && st.names[ph.name] == ph.ino
      case Unlink => ph.CleanChecked?
      case EndClean => Cleaning(ph)
      case OwnerUnlink(n) => ph.Idle? && n in pr.owned && pr.owned[n].named
      case OwnerClose(n) => ph.Idle? && n in pr.owned && pr.owned[n].locked
      case Release(n) => ph.Idle? && n in pr.owned && !pr.owned[n].locked
      case Spawn => true
  }

  /** What a call changes in the directory. */
  function NamesAfter(st: State, ph: Phase, a: Action): map<Name, Ino> {
    match a
    case Create => if ph.Idle? then st.names else st.names[ph.name := st.next]
    case LockFails => if ph.Idle? then st.names else st.names - {ph.name}
    case Unlink => if ph.Idle? then st.names else st.names - {ph.name}
    case OwnerUnlink(n) => st.names - {n}
    case _ => st.names
  }

  /** What a call changes among the file locks. */
  function LocksAfter(st: State, p: Pid, pr: Proc, a: Action): map<Ino, Lock> {
    match a
    case LockNew => if pr.phase.Creating? then st.locks[pr.phase.ino := Lock(p, false)] else st.locks
    case TryLock => if pr.phase.CleanOpen? then st.locks[pr.phase.ino := Lock(p, true)] else st.locks
    case EndClean => if HasLock(pr.phase) then st.locks - {pr.phase.ino} else st.locks
    case OwnerClose(n) => if n in pr.owned then st.locks - {pr.owned[n].ino} else st.locks
    case _ => st.locks
  }

  /** What a call changes inside the calling process. */
  function ProcAfter(slot: Slots, st: State, pr: Proc, a: Action): Proc {
    var ph := pr.phase;
    match a
    case Begin(n) => pr.(guards := Take(pr.guards, slot(n)), phase := Holding(n))
    case StartClean(n) => pr.(guards := Take(pr.guards, slot(n)), phase := CleanGuard(n, false))
    case OwnerUnlink(n) =>
      if n in pr.owned then pr.(owned := pr.owned[n := pr.owned[n].(named := false)]) else pr
    case OwnerClose(n) =>
      if n in pr.owned then pr.(owned := pr.owned[n := pr.owned[n].(locked := false)]) else pr
    case Release(n) => pr.(guards := Drop(pr.guards, slot(n)), owned := pr.owned - {n})
    case _ => if ph.Idle? then pr else FrameAfter(slot, st, pr, a)
  }

  function FrameAfter(slot: Slots, st: State, pr: Proc, a: Action): Proc
    requires !pr.phase.Idle?
  {
    var ph := pr.phase;
    var n := ph.name;
    match a
    case GiveUp => pr.(guards := Drop(pr.guards, slot(n)), phase := Idle)
    case Create => pr.(phase := Creating(n, st.next))
    case LockNew =>
      if ph.Creating? then pr.(owned := pr.owned[n := Owned(ph.ino, true, true)], phase := Idle) else pr
    case LockFails => pr.(guards := Drop(pr.guards, slot(n)), phase := Idle)
    case StartNested => pr.(guards := Take(pr.guards, slot(n)), phase := CleanGuard(n, true))
    case Open => if ph.CleanGuard? && n in st.names then pr.(phase := CleanOpen(n, ph.nested, st.names[n])) else pr
    case TryLock => if ph.CleanOpen? then pr.(phase := CleanLocked(n, ph.nested, ph.ino)) else pr
    case Compare => if ph.CleanLocked? then pr.(phase := CleanChecked(n, ph.nested, ph.ino)) else pr
    case Unlink => if ph.CleanChecked? then pr.(phase := CleanLocked(n, ph.nested, ph.ino)) else pr
    case EndClean =>
      if Cleaning(ph)
      then pr.(guards := Drop(pr.guards, slot(n)), phase := if ph.nested then Holding(n) else Idle)
      else pr
    case _ => pr
  }

  function Apply(slot: Slots, st: State, p: Pid, a: Action): State
    requires Enabled(slot, st, p, a)
  {
    match a
    case Spawn => st.(procs := st.procs[p := Proc(map[], map[], Idle)])
    case Crash =>
      st.(procs := st.procs - {p}, locks := map i | i in st.locks && st.locks[i].pid != p :: st.locks[i])
    case _ =>
      var pr := st.procs[p];
      State(NamesAfter(st, pr.phase, a), LocksAfter(st, p, pr, a),
            st.procs[p := ProcAfter(slot, st, pr, a)], if a.Create? then st.next + 1 else st.next)
  }

  // ---------------------------------------------------------------------------------------------
  // Invariant
  // ---------------------------------------------------------------------------------------------

  /** How often a process holds guard `k`: once for each artifact it owns there, once for the artifact
  it is acquiring, once for a cleanup, twice for a cleanup nested in an acquisition. */
  function Uses(slot: Slots, pr: Proc, k: nat): nat {
    |set n | n in pr.owned && slot(n) == k| + FrameUses(slot, pr.phase, k)
  }

  function FrameUses(slot: Slots, ph: Phase, k: nat): nat {
    if ph.Idle? || slot(ph.name) != k then 0
    else if Cleaning(ph) && ph.nested then 2 else 1
  }

  ghost predicate Counted(slot: Slots, pr: Proc) {
    forall k :: Depth(pr.guards, k) == Uses(slot, pr, k) && (k in pr.guards ==> pr.guards[k] > 0)
  }

  /** No live artifact of this process has been unlinked by anybody else: every name it still counts on
  refers to the very file it created. */
  ghost predicate Unharmed(st: State, p: Pid)
    requires p in st.procs
  {
    var pr := st.procs[p];
    && (forall n :: n in pr.owned && pr.owned[n].named ==> n in st.names && st.names[n] == pr.owned[n].ino)
    && (pr.phase.Creating? ==> pr.phase.name in st.names && st.names[pr.phase.name] == pr.phase.ino)
  }

  ghost predicate Locking(st: State, p: Pid)
    requires p in st.procs
  {
    var pr := st.procs[p];
    && (forall n :: n in pr.owned && pr.owned[n].locked ==>
          pr.owned[n].ino in st.locks && st.locks[pr.owned[n].ino] == Lock(p, false))
    && (HasLock(pr.phase) ==> pr.phase.ino in st.locks && st.locks[pr.phase.ino] == Lock(p, true))
    && (pr.phase.CleanChecked? ==> pr.phase.name in st.names && st.names[pr.phase.name] == pr.phase.ino)
  }

  /** Discipline inside one process, and freshness of the inodes it knows. */
  ghost predicate Phased(st: State, p: Pid)
    requires p in st.procs
  {
    var pr := st.procs[p];
    && (!pr.phase.Idle? ==> Steady(pr))
    && (Cleaning(pr.phase) && !pr.phase.nested ==> pr.owned == map[])
    && (Cleaning(pr.phase) && pr.phase.nested ==> pr.phase.name.ReservationName?)
    && (pr.phase.CleanOpen? || HasLock(pr.phase) || pr.phase.Creating? ==> pr.phase.ino < st.next)
    && (!pr.phase.Idle? && pr.phase.name.StagedName? ==> pr.phase.name !in pr.owned)
  }

  ghost predicate Distinct(st: State, p: Pid)
    requires p in st.procs
  {
    var pr := st.procs[p];
    && (forall n :: n in pr.owned ==> pr.owned[n].ino < st.next)
    && (forall n, m :: n in pr.owned && m in pr.owned && pr.owned[n].ino == pr.owned[m].ino ==> n == m)
    && (pr.phase.Creating? ==>
          pr.phase.name !in pr.owned && forall n :: n in pr.owned ==> pr.owned[n].ino != pr.phase.ino)
  }

  ghost predicate Local(st: State, p: Pid)
    requires p in st.procs
  {
    Phased(st, p) && Distinct(st, p)
  }

  ghost predicate Good(slot: Slots, st: State, p: Pid)
    requires p in st.procs
  {
    Counted(slot, st.procs[p]) && Unharmed(st, p) && Locking(st, p) && Local(st, p)
  }

  ghost predicate Bounded(st: State) {
    && (forall n :: n in st.names ==> st.names[n] < st.next)
    && (forall i :: i in st.locks ==> i < st.next && st.locks[i].pid in st.procs)
  }

  ghost predicate Inv(slot: Slots, st: State) {
    && Bounded(st)
    && (forall p :: p in st.procs ==> Good(slot, st, p))
    && (forall p, q, k :: p in st.procs && q in st.procs && p != q && k in st.procs[p].guards ==>
          k !in st.procs[q].guards)
  }

  // ---------------------------------------------------------------------------------------------
  // Every step keeps the invariant
  // ---------------------------------------------------------------------------------------------

  /** Whatever a process owns, acquires or cleans lies under a guard it holds. */
  lemma UsedGuardIsHeld(slot: Slots, pr: Proc, n: Name)
    requires Counted(slot, pr) && (n in pr.owned || (!pr.phase.Idle? && pr.phase.name == n))
    ensures slot(n) in pr.guards
  {
    var k := slot(n);
    assert Depth(pr.guards, k) == Uses(slot, pr, k);
    if n in pr.owned {
      var there := set m | m in pr.owned && slot(m) == k;
      assert n in there;
      assert |there| > 0;
    } else {
      assert FrameUses(slot, pr.phase, k) > 0;
    }
  }

  lemma UsesOfMore(slot: Slots, owned: map<Name, Owned>, n: Name, o: Owned, k: nat)
    ensures |set m | m in owned[n := o] && slot(m) == k| ==
            |set m | m in owned && slot(m) == k| + (if slot(n) == k && n !in owned then 1 else 0)
  {
    var before := set m | m in owned && slot(m) == k;
    var after := set m | m in owned[n := o] && slot(m) == k;
    if slot(n) == k && n !in owned {
      assert after == before + {n};
    } else {
      assert after == before;
    }
  }

  lemma UsesOfFewer(slot: Slots, owned: map<Name, Owned>, n: Name, k: nat)
    requires n in owned
    ensures |set m | m in owned - {n} && slot(m) == k| + (if slot(n) == k then 1 else 0) ==
            |set m | m in owned && slot(m) == k|
  {
    var before := set m | m in owned && slot(m) == k;
    var after := set m | m in owned - {n} && slot(m) == k;
    assert after == if slot(n) == k then before - {n} else before;
  }

  lemma DropDepth(guards: map<nat, nat>, k: nat)
    requires forall j :: j in guards ==> guards[j] > 0
    requires k in guards
    ensures forall j :: Depth(Drop(guards, k), j) == Depth(guards, j) - (if j == k then 1 else 0)
    ensures forall j :: j in Drop(guards, k) ==> Drop(guards, k)[j] > 0
  {
  }

  /** The process keeps its artifacts and moves from one frame to another. */
  lemma FrameCounted(slot: Slots, pr: Proc, pr': Proc)
    requires Counted(slot, pr) && pr'.owned == pr.owned
    requires forall k :: k in pr'.guards ==> pr'.guards[k] > 0
    requires forall k :: Depth(pr'.guards, k) - Depth(pr.guards, k) ==
                    FrameUses(slot, pr'.phase, k) - FrameUses(slot, pr.phase, k)
    ensures Counted(slot, pr')
  {
    forall k ensures Depth(pr'.guards, k) == Uses(slot, pr', k) {
      assert Depth(pr.guards, k) == Uses(slot, pr, k);
    }
  }

  /** Each step takes or drops exactly the guard it should. */
  lemma StaysCounted(slot: Slots, st: State, p: Pid, a: Action)
    requires p in st.procs && Good(slot, st, p) && Enabled(slot, st, p, a) && !a.Crash? && !a.Spawn?
    ensures Counted(slot, ProcAfter(slot, st, st.procs[p], a))
  {
    var pr := st.procs[p];
    var pr' := ProcAfter(slot, st, pr, a);
    if a.OwnerUnlink? || a.OwnerClose? || a.Release? || a.LockNew? {
      OwnersCounted(slot, st, p, a);
    } else {
      if a.GiveUp? || a.LockFails? || a.EndClean? {
        UsedGuardIsHeld(slot, pr, pr.phase.name);
        DropDepth(pr.guards, slot(pr.phase.name));
      }
      FrameCounted(slot, pr, pr');
    }
  }

  lemma OwnersCounted(slot: Slots, st: State, p: Pid, a: Action)
    requires p in st.procs && Good(slot, st, p) && Enabled(slot, st, p, a)
    requires a.OwnerUnlink? || a.OwnerClose? || a.Release? || a.LockNew?
    ensures Counted(slot, ProcAfter(slot, st, st.procs[p], a))
  {
    var pr := st.procs[p];
    var pr' := ProcAfter(slot, st, pr, a);
    if a.Release? {
      UsedGuardIsHeld(slot, pr, a.name);
      DropDepth(pr.guards, slot(a.name));
    }
    forall k ensures Depth(pr'.guards, k) == Uses(slot, pr', k) {
      assert Depth(pr.guards, k) == Uses(slot, pr, k);
      if a.Release? {
        UsesOfFewer(slot, pr.owned, a.name, k);
      } else {
        var n := if a.LockNew? then pr.phase.name else a.name;
        UsesOfMore(slot, pr.owned, n, pr'.owned[n], k);
      }
    }
  }

  lemma StaysPhased(slot: Slots, st: State, p: Pid, a: Action)
    requires p in st.procs && Unharmed(st, p) && Local(st, p) && Bounded(st)
    requires Enabled(slot, st, p, a) && !a.Crash? && !a.Spawn?
    ensures Phased(Apply(slot, st, p, a), p)
  {
  }

  lemma StaysDistinct(slot: Slots, st: State, p: Pid, a: Action)
    requires p in st.procs && Unharmed(st, p) && Local(st, p) && Bounded(st)
    requires Enabled(slot, st, p, a) && !a.Crash? && !a.Spawn?
    ensures Distinct(Apply(slot, st, p, a), p)
  {
  }

  lemma StaysLocal(slot: Slots, st: State, p: Pid, a: Action)
    requires p in st.procs && Unharmed(st, p) && Local(st, p) && Bounded(st)
    requires Enabled(slot, st, p, a) && !a.Crash? && !a.Spawn?
    ensures Local(Apply(slot, st, p, a), p)
  {
    StaysPhased(slot, st, p, a);
    StaysDistinct(slot, st, p, a);
  }

  lemma StaysUnharmed(slot: Slots, st: State, p: Pid, a: Action)
    requires p in st.procs && Unharmed(st, p) && Locking(st, p) && Local(st, p)
    requires Enabled(slot, st, p, a) && !a.Crash? && !a.Spawn?
    ensures Unharmed(Apply(slot, st, p, a), p)
  {
  }

  lemma StaysLocking(slot: Slots, st: State, p: Pid, a: Action)
    requires p in st.procs && Unharmed(st, p) && Locking(st, p) && Local(st, p)
    requires Enabled(slot, st, p, a) && !a.Crash? && !a.Spawn?
    ensures Locking(Apply(slot, st, p, a), p)
  {
  }

  ghost predicate Apart(st: State, p: Pid, q: Pid)
    requires p in st.procs && q in st.procs
  {
    forall k :: k in st.procs[p].guards ==> k !in st.procs[q].guards
  }

  /** Names the call creates or takes away are under a guard of the caller, so no other process owns,
  acquires or cleans them. */
  lemma OthersNamesKept(slot: Slots, st: State, p: Pid, a: Action, q: Pid, n: Name)
    requires p in st.procs && q in st.procs && p != q && Good(slot, st, p) && Good(slot, st, q) && Apart(st, p, q)
    requires Enabled(slot, st, p, a) && !a.Crash? && !a.Spawn?
    requires n in st.procs[q].owned || (!st.procs[q].phase.Idle? && st.procs[q].phase.name == n)
    ensures var names := NamesAfter(st, st.procs[p].phase, a);
      (n in names <==> n in st.names) && (n in names ==> names[n] == st.names[n])
  {
    var pr, qr := st.procs[p], st.procs[q];
    UsedGuardIsHeld(slot, qr, n);
    if !pr.phase.Idle? && n == pr.phase.name {
      UsedGuardIsHeld(slot, pr, n);
    } else if a.OwnerUnlink? && n == a.name {
      UsedGuardIsHeld(slot, pr, n);
    }
  }

  lemma OthersLocksKept(slot: Slots, st: State, p: Pid, a: Action, q: Pid, i: Ino)
    requires p in st.procs && p != q && Locking(st, p)
    requires Enabled(slot, st, p, a) && !a.Crash? && !a.Spawn?
    requires i in st.locks && st.locks[i].pid == q
    ensures var locks := LocksAfter(st, p, st.procs[p], a); i in locks && locks[i] == st.locks[i]
  {
  }

  /** Another process notices nothing: its artifacts, locks and frames are as they were. */
  lemma OthersKeep(slot: Slots, st: State, p: Pid, a: Action, q: Pid)
    requires p in st.procs && q in st.procs && p != q && Good(slot, st, p) && Good(slot, st, q) && Apart(st, p, q)
    requires Enabled(slot, st, p, a) && !a.Crash? && !a.Spawn?
    ensures var st' := Apply(slot, st, p, a); st'.procs[q] == st.procs[q] && Good(slot, st', q)
  {
    var st', qr := Apply(slot, st, p, a), st.procs[q];
    forall n | n in qr.owned || (!qr.phase.Idle? && qr.phase.name == n)
      ensures (n in st'.names <==> n in st.names) && (n in st'.names ==> st'.names[n] == st.names[n])
    {
      OthersNamesKept(slot, st, p, a, q, n);
    }
    forall i | i in st.locks && st.locks[i].pid == q ensures i in st'.locks && st'.locks[i] == st.locks[i] {
      OthersLocksKept(slot, st, p, a, q, i);
    }
  }

  lemma GuardsGrowBy(slot: Slots, st: State, p: Pid, a: Action, k: nat)
    requires p in st.procs && Counted(slot, st.procs[p])
    requires Enabled(slot, st, p, a) && !a.Crash? && !a.Spawn?
    requires k in ProcAfter(slot, st, st.procs[p], a).guards
    ensures k in st.procs[p].guards || GuardFree(st, p, k)
  {
    if a.StartNested? { UsedGuardIsHeld(slot, st.procs[p], st.procs[p].phase.name); }
  }

  lemma StaysApart(slot: Slots, st: State, p: Pid, a: Action, q: Pid)
    requires p in st.procs && Counted(slot, st.procs[p])
    requires q in st.procs && q != p && Apart(st, p, q)
    requires Enabled(slot, st, p, a) && !a.Crash? && !a.Spawn?
    ensures Apart(Apply(slot, st, p, a), p, q) && Apart(Apply(slot, st, p, a), q, p)
  {
    forall k | k in ProcAfter(slot, st, st.procs[p], a).guards ensures k !in st.procs[q].guards {
      GuardsGrowBy(slot, st, p, a, k);
    }
  }

  lemma StaysBounded(slot: Slots, st: State, p: Pid, a: Action)
    requires Bounded(st) && p in st.procs && Local(st, p) && Enabled(slot, st, p, a) && !a.Crash? && !a.Spawn?
    ensures Bounded(Apply(slot, st, p, a))
  {
  }

  lemma CallerKeeps(slot: Slots, st: State, p: Pid, a: Action)
    requires p in st.procs && Good(slot, st, p) && Bounded(st)
    requires Enabled(slot, st, p, a) && !a.Crash? && !a.Spawn?
    ensures Bounded(Apply(slot, st, p, a)) && Good(slot, Apply(slot, st, p, a), p)
  {
    StaysBounded(slot, st, p, a);
    StaysCounted(slot, st, p, a);
    StaysUnharmed(slot, st, p, a);
    StaysLocking(slot, st, p, a);
    StaysLocal(slot, st, p, a);
  }

  lemma CallKeepsInv(slot: Slots, st: State, p: Pid, a: Action)
    requires Inv(slot, st) && Enabled(slot, st, p, a) && !a.Crash? && !a.Spawn?
    ensures Inv(slot, Apply(slot, st, p, a))
  {
    CallerKeeps(slot, st, p, a);
    ghost var st' := Apply(slot, st, p, a);
    forall q | q in st.procs && q != p
      ensures st'.procs[q] == st.procs[q] && Good(slot, st', q) && Apart(st', p, q) && Apart(st', q, p)
    {
      OthersKeep(slot, st, p, a, q);
      StaysApart(slot, st, p, a, q);
    }
    InvFromParts(slot, st, st', p);
  }

  lemma InvFromParts(slot: Slots, st: State, st': State, p: Pid)
    requires Inv(slot, st) && p in st.procs && st'.procs.Keys == st.procs.Keys
    requires Bounded(st') && Good(slot, st', p)
    requires forall q :: q in st.procs && q != p ==>
      st'.procs[q] == st.procs[q] && Good(slot, st', q) && Apart(st', p, q) && Apart(st', q, p)
    ensures Inv(slot, st')
  {
  }

  lemma CrashKeepsInv(slot: Slots, st: State, p: Pid)
    requires Inv(slot, st) && p in st.procs
    ensures Inv(slot, Apply(slot, st, p, Crash))
  {
    var st' := Apply(slot, st, p, Crash);
    forall q | q in st'.procs ensures Good(slot, st', q) {
      assert Good(slot, st, q);
    }
  }

  lemma SpawnKeepsInv(slot: Slots, st: State, p: Pid)
    requires Inv(slot, st) && Enabled(slot, st, p, Spawn)
    ensures Inv(slot, Apply(slot, st, p, Spawn))
  {
    var st' := Apply(slot, st, p, Spawn);
    forall q | q in st'.procs ensures Good(slot, st', q) {
      if q != p { assert Good(slot, st, q); }
    }
  }

  lemma StepKeepsInv(slot: Slots, st: State, p: Pid, a: Action)
    requires Inv(slot, st) && Enabled(slot, st, p, a)
    ensures Inv(slot, Apply(slot, st, p, a))
  {
    if a.Spawn? {
      SpawnKeepsInv(slot, st, p);
    } else if a.Crash? {
      CrashKeepsInv(slot, st, p);
    } else {
      CallKeepsInv(slot, st, p, a);
    }
  }

  // ---------------------------------------------------------------------------------------------
  // Whole runs
  // ---------------------------------------------------------------------------------------------

  datatype Event = Event(pid: Pid, action: Action)

  function After(slot: Slots, st: State, run: seq<Event>): State
    requires CanRun(slot, st, run)
    decreases |run|, 1
  {
    if run == [] then st
    else Apply(slot, After(slot, st, run[..|run| - 1]), run[|run| - 1].pid, run[|run| - 1].action)
  }

  predicate CanRun(slot: Slots, st: State, run: seq<Event>)
    decreases |run|, 0
  {
    run == [] ||
    (CanRun(slot, st, run[..|run| - 1]) &&
     Enabled(slot, After(slot, st, run[..|run| - 1]), run[|run| - 1].pid, run[|run| - 1].action))
  }

  /** A directory no process has open, with whatever hidden files earlier processes left in it. */
  ghost predicate AtRest(st: State) {
    st.procs == map[] && st.locks == map[] && forall n :: n in st.names ==> st.names[n] < st.next
  }

  /** In every interleaving, with crashes anywhere, recovery and cleanup never take away a staged file
  or a reservation whose owner is still alive. */
  lemma {:induction false} LiveArtifactsSurvive(slot: Slots, st: State, run: seq<Event>)
    requires AtRest(st) && CanRun(slot, st, run)
    ensures Inv(slot, After(slot, st, run))
    ensures forall p :: p in After(slot, st, run).procs ==> Unharmed(After(slot, st, run), p)
  {
    if run != [] {
      var before, e := run[..|run| - 1], run[|run| - 1];
      LiveArtifactsSurvive(slot, st, before);
      StepKeepsInv(slot, After(slot, st, before), e.pid, e.action);
    }
    forall p | p in After(slot, st, run).procs ensures Unharmed(After(slot, st, run), p) {
      assert Good(slot, After(slot, st, run), p);
    }
  }

  /** An instance between operations that owns nothing holds no guard at all, whatever it did before. */
  lemma GuardsAreBalanced(slot: Slots, st: State, p: Pid)
    requires Inv(slot, st) && p in st.procs && st.procs[p].phase.Idle? && st.procs[p].owned == map[]
    ensures st.procs[p].guards == map[]
  {
    var pr := st.procs[p];
    assert Good(slot, st, p);
    forall k ensures k !in pr.guards {
      assert Depth(pr.guards, k) == Uses(slot, pr, k);
      assert (set n | n in pr.owned && slot(n) == k) == {};
    }
  }

  /** What no living process owns is not kept for ever: an idle instance that finds the guard free and
  the file unlocked removes it. */
  lemma StaleArtifactsCanGo(slot: Slots, st: State, p: Pid, n: Name) returns (run: seq<Event>)
    requires Inv(slot, st) && p in st.procs && st.procs[p].phase.Idle? && st.procs[p].owned == map[]
    requires n in st.names && st.names[n] !in st.locks && GuardFree(st, p, slot(n))
    ensures CanRun(slot, st, run) && After(slot, st, run).names == st.names - {n}
    ensures After(slot, st, run).locks == st.locks && After(slot, st, run).procs == st.procs
  {
    GuardsAreBalanced(slot, st, p);
    run := CleanUp(slot, st, p, n);
  }

  /** The state after calls of process `p` that left it with these guards, artifacts and phase. */
  function WithProc(
    st: State, names: map<Name, Ino>, locks: map<Ino, Lock>, p: Pid, guards: map<nat, nat>, owned: map<Name, Owned>,
    phase: Phase, next: Ino): State
  {
    State(names, locks, st.procs[p := Proc(guards, owned, phase)], next)
  }

  lemma OneCall(slot: Slots, st: State, run: seq<Event>, mid: State, p: Pid, a: Action, end: State)
    returns (more: seq<Event>)
    requires CanRun(slot, st, run) && After(slot, st, run) == mid
    requires Enabled(slot, mid, p, a) && Apply(slot, mid, p, a) == end
    ensures CanRun(slot, st, more) && After(slot, st, more) == end
  {
    Extend(slot, st, run, p, a);
    more := run + [Event(p, a)];
  }

  /** A call of `p` on a state whose other processes are those of `st`. */
  lemma CallOf(
    slot: Slots, st: State, names: map<Name, Ino>, locks: map<Ino, Lock>, p: Pid, pr: Proc, next: Ino, a: Action)
    requires var mid := State(names, locks, st.procs[p := pr], next); Enabled(slot, mid, p, a) && !a.Spawn? && !a.Crash?
    ensures var mid := State(names, locks, st.procs[p := pr], next);
      Apply(slot, mid, p, a) ==
      State(NamesAfter(mid, pr.phase, a), LocksAfter(mid, p, pr, a), st.procs[p := ProcAfter(slot, mid, pr, a)],
            if a.Create? then next + 1 else next)
  {
    assert st.procs[p := pr][p] == pr;
  }

  /** A free name under a free guard can be taken by an idle instance, which then owns a new file there,
  locked and guarded. */
  lemma FreeNameCanBeTaken(slot: Slots, st: State, p: Pid, n: Name) returns (run: seq<Event>)
    requires Inv(slot, st) && p in st.procs && st.procs[p].phase.Idle? && st.procs[p].owned == map[]
    requires n !in st.names && GuardFree(st, p, slot(n))
    ensures CanRun(slot, st, run)
    ensures After(slot, st, run) ==
      WithProc(st, st.names[n := st.next], st.locks[st.next := Lock(p, false)], p, map[slot(n) := 1],
               map[n := Owned(st.next, true, true)], Idle, st.next + 1)
  {
    GuardsAreBalanced(slot, st, p);
    var guards := map[slot(n) := 1];
    var st1 := WithProc(st, st.names, st.locks, p, guards, map[], Holding(n), st.next);
    run := OneCall(slot, st, [], st, p, Begin(n), st1);
    var names := st.names[n := st.next];
    var st2 := WithProc(st, names, st.locks, p, guards, map[], Creating(n, st.next), st.next + 1);
    CallOf(slot, st, st.names, st.locks, p, Proc(guards, map[], Holding(n)), st.next, Create);
    run := OneCall(slot, st, run, st1, p, Create, st2);
    var owned := map[n := Owned(st.next, true, true)];
    var locks := st.locks[st.next := Lock(p, false)];
    var st3 := WithProc(st, names, locks, p, guards, owned, Idle, st.next + 1);
    CallOf(slot, st, names, st.locks, p, Proc(guards, map[], Creating(n, st.next)), st.next + 1, LockNew);
    run := OneCall(slot, st, run, st2, p, LockNew, st3);
  }

  /** Giving it up again leaves the directory, the locks and every instance as they were. */
  lemma TakenNameCanBeReleased(slot: Slots, st: State, p: Pid, n: Name, i: Ino) returns (run: seq<Event>)
    requires p in st.procs && st.procs[p] == Proc(map[slot(n) := 1], map[n := Owned(i, true, true)], Idle)
    ensures CanRun(slot, st, run)
    ensures After(slot, st, run) == WithProc(st, st.names - {n}, st.locks - {i}, p, map[], map[], Idle, st.next)
  {
    var guards := map[slot(n) := 1];
    var named, locked := map[n := Owned(i, true, false)], map[n := Owned(i, false, false)];
    assert map[n := Owned(i, true, true)][n := Owned(i, true, false)] == named;
    assert named[n := Owned(i, false, false)] == locked;
    var st1 := WithProc(st, st.names - {n}, st.locks, p, guards, named, Idle, st.next);
    run := OneCall(slot, st, [], st, p, OwnerUnlink(n), st1);
    var st2 := WithProc(st, st.names - {n}, st.locks - {i}, p, guards, locked, Idle, st.next);
    CallOf(slot, st, st.names - {n}, st.locks, p, Proc(guards, named, Idle), st.next, OwnerClose(n));
    run := OneCall(slot, st, run, st1, p, OwnerClose(n), st2);
    run := ReleaseLast(slot, st, run, st.names - {n}, st.locks - {i}, p, n, i);
  }

  lemma ReleaseLast(
    slot: Slots, st: State, run: seq<Event>, names: map<Name, Ino>, locks: map<Ino, Lock>, p: Pid, n: Name, i: Ino)
    returns (more: seq<Event>)
    requires CanRun(slot, st, run)
    requires After(slot, st, run) ==
      WithProc(st, names, locks, p, map[slot(n) := 1], map[n := Owned(i, false, false)], Idle, st.next)
    ensures CanRun(slot, st, more)
    ensures After(slot, st, more) == WithProc(st, names, locks, p, map[], map[], Idle, st.next)
  {
    var guards, owned := map[slot(n) := 1], map[n := Owned(i, false, false)];
    assert guards - {slot(n)} == map[] && owned - {n} == map[];
    var mid := WithProc(st, names, locks, p, guards, owned, Idle, st.next);
    CallOf(slot, st, names, locks, p, Proc(guards, owned, Idle), st.next, Release(n));
    more := OneCall(slot, st, run, mid, p, Release(n), WithProc(st, names, locks, p, map[], map[], Idle, st.next));
  }

  lemma CleanUp(slot: Slots, st: State, p: Pid, n: Name) returns (run: seq<Event>)
    requires p in st.procs && st.procs[p] == Proc(map[], map[], Idle)
    requires n in st.names && st.names[n] !in st.locks && GuardFree(st, p, slot(n))
    ensures CanRun(slot, st, run) && After(slot, st, run) == st.(names := st.names - {n})
  {
    run := CleanUpToUnlink(slot, st, p, n);
    Extend(slot, st, run, p, EndClean);
    run := run + [Event(p, EndClean)];
    assert After(slot, st, run).locks == st.locks;
    assert After(slot, st, run).procs == st.procs;
  }

  lemma CleanUpToUnlink(slot: Slots, st: State, p: Pid, n: Name) returns (run: seq<Event>)
    requires p in st.procs && st.procs[p] == Proc(map[], map[], Idle)
    requires n in st.names && st.names[n] !in st.locks && GuardFree(st, p, slot(n))
    ensures CanRun(slot, st, run)
    ensures After(slot, st, run) ==
      State(st.names - {n}, st.locks[st.names[n] := Lock(p, true)],
            st.procs[p := Proc(map[slot(n) := 1], map[], CleanLocked(n, false, st.names[n]))], st.next)
  {
    run := CleanUpToLock(slot, st, p, n);
    var st1 := After(slot, st, run);
    Extend(slot, st, run, p, Compare);
    run := run + [Event(p, Compare)];
    var st2 := st1.(procs := st.procs[p := Proc(map[slot(n) := 1], map[], CleanChecked(n, false, st.names[n]))]);
    assert After(slot, st, run).procs == st2.procs;
    Extend(slot, st, run, p, Unlink);
    run := run + [Event(p, Unlink)];
    assert After(slot, st, run).procs == st1.procs;
  }

  lemma CleanUpToLock(slot: Slots, st: State, p: Pid, n: Name) returns (run: seq<Event>)
    requires p in st.procs && st.procs[p] == Proc(map[], map[], Idle)
    requires n in st.names && st.names[n] !in st.locks && GuardFree(st, p, slot(n))
    ensures CanRun(slot, st, run)
    ensures After(slot, st, run) ==
      st.(locks := st.locks[st.names[n] := Lock(p, true)],
          procs := st.procs[p := Proc(map[slot(n) := 1], map[], CleanLocked(n, false, st.names[n]))])
  {
    var guards := map[slot(n) := 1];
    Extend(slot, st, [], p, StartClean(n));
    run := [] + [Event(p, StartClean(n))];
    var st1 := st.(procs := st.procs[p := Proc(guards, map[], CleanGuard(n, false))]);
    assert After(slot, st, run) == st1;
    Extend(slot, st, run, p, Open);
    run := run + [Event(p, Open)];
    var st2 := st.(procs := st.procs[p := Proc(guards, map[], CleanOpen(n, false, st.names[n]))]);
    assert After(slot, st, run).procs == st2.procs;
    Extend(slot, st, run, p, TryLock);
    run := run + [Event(p, TryLock)];
    var st3 := st.(procs := st.procs[p := Proc(guards, map[], CleanLocked(n, false, st.names[n]))]);
    assert After(slot, st, run).procs == st3.procs;
  }

  lemma Extend(slot: Slots, st: State, run: seq<Event>, p: Pid, a: Action)
    requires CanRun(slot, st, run) && Enabled(slot, After(slot, st, run), p, a)
    ensures CanRun(slot, st, run + [Event(p, a)])
    ensures After(slot, st, run + [Event(p, a)]) == Apply(slot, After(slot, st, run), p, a)
  {
    assert (run + [Event(p, a)])[..|run + [Event(p, a)]| - 1] == run;
  }
}
