/**
  The Windows installer's transaction (deploy/windows/install.ps1): a forward
  sequence of journaled mutations, the resolution of journal entries that broke
  off, and the rollback.

  A fault may strike before or after the effect of any action, and a removal
  or a copy may stop half-way.  `Slot` is everything known about one managed
  name; what the journal must keep true of it is `Consistent`.
 */
module WindowsInstall {
  import opened FileTrees
  import opened Wrappers

  datatype Entry = Entry(attempted: bool, completed: bool)

  const UNTOUCHED := Entry(false, false)
  const ATTEMPTED := Entry(true, false)
  const COMPLETED := Entry(true, true)

  datatype PriorFile = PriorFile(existed: bool, backupPrepared: bool, removal: Entry)

  /** `Ready` stands for every state in which the task is neither queued nor running. */
  datatype TaskState = Ready | Queued | Running

  datatype Task = Task(definition: string, state: TaskState)

  /** A queued task counts as active, like a running one. */
  predicate Active(t: Task) {
    t.state != Ready
  }

  /** The registered task is as before; one that was queued may run by now. */
  predicate SameTask(prior: Option<Task>, now: Option<Task>) {
    && prior.Some? == now.Some?
    && (prior.Some? ==>
          && now.value.definition == prior.value.definition
          && (now.value.state == prior.value.state || (Active(prior.value) && now.value.state == Running)))
  }

  /** What the final check of a rollback asks of the task: it runs exactly if it was active. */
  predicate LooksRestored(prior: Option<Task>, now: Option<Task>) {
    && prior.Some? == now.Some?
    && (prior.Some? ==> (now.value.state == Running <==> Active(prior.value)))
  }

  /** The check refuses a task that nobody touched exactly if it was queued. */
  lemma UntouchedTaskLooksRestored(prior: Option<Task>)
    ensures SameTask(prior, prior)
    ensures LooksRestored(prior, prior) <==> !(prior.Some? && prior.value.state == Queued)
  {
  }

  /** Names in the install root: the four managed ones, the two state directories, the rest. */
  datatype Name = Venv | Environment | Launcher | TaskTemplate | Logs | SpoolDirectory | Other(name: string)

  const MANAGED_NAMES: seq<Name> := [Venv, Environment, Launcher, TaskTemplate]
  const STATE_DIRECTORIES: seq<Name> := [Logs, SpoolDirectory]

  predicate Managed(name: Name) {
    name.Venv? || name.Environment? || name.Launcher? || name.TaskTemplate?
  }

  /** The place of a managed name in the order of the loops. */
  function Place(name: Name): (i: nat)
    ensures Managed(name) ==> i < |MANAGED_NAMES| && MANAGED_NAMES[i] == name
  {
    match name
    case Venv => 0
    case Environment => 1
    case Launcher => 2
    case TaskTemplate => 3
    case _ => 4
  }

  predicate IsState(name: Name) {
    name.Logs? || name.SpoolDirectory?
  }

  type Files = map<Name, Tree>

  // --------------------------------------------------------- one managed name

  /** `was` is the content before the installation; the rest is what can be seen later. */
  datatype Slot = Slot(
    was: Option<Tree>, live: Option<Tree>, stage: Option<Tree>, backup: Option<Tree>,
    prior: PriorFile, published: Entry)

  /** The staged tree has been moved to the live path. */
  predicate Moved(s: Slot) {
    s.stage.None?
  }

  predicate Consistent(s: Slot) {
    && s.prior.existed == s.was.Some?
    && (s.prior.backupPrepared ==> s.was.Some? && s.backup == s.was)
    && (s.prior.removal.attempted ==> s.prior.backupPrepared)
    && (s.prior.removal.completed ==> s.prior.removal.attempted)
    && (s.published.completed ==> Moved(s))
    && (Moved(s) ==> s.published.attempted && s.live.Some? && (s.was.Some? ==> s.prior.removal.attempted))
    && (!Moved(s) ==>
          if s.prior.removal.attempted then PartOf(s.live, s.was.value) else s.live == s.was)
    && (s.prior.removal.completed && !Moved(s) ==> s.live.None?)
    && (s.published.attempted && s.was.Some? ==> s.prior.removal.completed)
  }

  function ResolvedPrior(s: Slot): PriorFile {
    if s.prior.backupPrepared && s.prior.removal == ATTEMPTED && s.live.None?
    then s.prior.(removal := COMPLETED) else s.prior
  }

  function ResolvedPublished(s: Slot): Entry {
    if s.published == ATTEMPTED && s.stage.None? && s.live.Some? then COMPLETED else s.published
  }

  function Resolved(s: Slot): Slot {
    s.(prior := ResolvedPrior(s), published := ResolvedPublished(s))
  }

  /** After the resolution the journal says what happened, however the actions ended. */
  lemma JournalIsExact(s: Slot)
    requires Consistent(s)
    ensures Consistent(Resolved(s))
    ensures Resolved(s).published.completed <==> Moved(s)
    ensures Resolved(s).prior.removal.completed <==>
            s.prior.removal.attempted && (Moved(s) || s.live.None?)
  {}

  /** What rollback leaves at the live path; `None` inside says absent, outside that the copy failed. */
  function RolledBack(s: Slot): Option<Option<Tree>> {
    var live := if s.published.completed then None else s.live;
    if s.prior.backupPrepared && s.prior.removal.attempted && s.backup.Some? then
      var copy := Copy(s.backup.value, live);
      if copy.Some? then Some(copy) else None
    else Some(live)
  }

  lemma RollbackRestores(s: Slot)
    requires Consistent(s)
    ensures RolledBack(Resolved(s)) == Some(s.was)
  {
    if s.prior.removal.attempted {
      CopyAfterRemoval(s.was.value, if Moved(s) then None else s.live);
    }
  }

  /** The same, when the resolution has been done. */
  lemma ResolvedIsReady(s: Slot)
    requires Consistent(s) && (s.published.completed <==> Moved(s))
    ensures RolledBack(s) == Some(s.was)
  {
    RollbackRestores(s);
  }

  /**
    Why the resolution is needed: left ambiguous, a publication that took effect
    survives the rollback, except where it holds nothing but names of the old tree.
   */
  lemma UnresolvedPublicationStays(s: Slot)
    requires Consistent(s) && Moved(s) && !s.published.completed
    ensures RolledBack(s) == Some(s.was) <==> s.was.Some? && Within(s.live, s.was.value)
  {
    if s.was.Some? {
      CopyRestores(s.was.value, s.live);
    }
  }

  // ------------------------------------------------------- the journal's state

  function Slots(was: Files, live: Files, stage: Files, backup: Files,
                 prior: map<Name, PriorFile>, published: map<Name, Entry>, name: Name): Slot
    requires name in prior && name in published
  {
    Slot(Lookup(was, name), Lookup(live, name), Lookup(stage, name), Lookup(backup, name), prior[name], published[name])
  }

  ghost predicate FilesOk(was: Files, live: Files, stage: Files, backup: Files,
                          prior: map<Name, PriorFile>, published: map<Name, Entry>)
  {
    forall name :: Managed(name) ==>
      name in prior && name in published && Consistent(Slots(was, live, stage, backup, prior, published, name))
  }

  predicate SameBut(name: Name, was: Files, now: Files, other: Name) {
    other != name ==> Lookup(now, other) == Lookup(was, other)
  }

  /** Anything may change under one managed name that stays consistent. */
  lemma OneSlotChanged(
    name: Name, was: Files,
    live: Files, stage: Files, backup: Files, prior: map<Name, PriorFile>, published: map<Name, Entry>,
    live': Files, stage': Files, backup': Files, prior': map<Name, PriorFile>, published': map<Name, Entry>)
    requires FilesOk(was, live, stage, backup, prior, published) && Managed(name)
    requires forall other :: SameBut(name, live, live', other) && SameBut(name, stage, stage', other)
                             && SameBut(name, backup, backup', other)
    requires name in prior && name in published && name in prior' && name in published'
    requires prior' == prior[name := prior'[name]] && published' == published[name := published'[name]]
    requires Consistent(Slots(was, live', stage', backup', prior', published', name))
    ensures FilesOk(was, live', stage', backup', prior', published')
  {
    forall other | Managed(other)
      ensures other in prior' && other in published'
              && Consistent(Slots(was, live', stage', backup', prior', published', other))
    {
      assert SameBut(name, live, live', other) && SameBut(name, stage, stage', other)
             && SameBut(name, backup, backup', other);
    }
  }

  /** What holds of a state directory, journaled or found there. */
  predicate DirectoryOk(was: Files, live: Files, directories: map<Name, Entry>, name: Name) {
    if name in directories then
      && IsState(name) && Lookup(was, name).None?
      && (Lookup(live, name).Some? ==> directories[name].attempted)
      && (directories[name].completed ==> Lookup(live, name).Some?)
    else
      IsState(name) ==> (Lookup(live, name).Some? <==> Lookup(was, name).Some?)
  }

  ghost predicate DirectoriesOk(was: Files, live: Files, directories: map<Name, Entry>) {
    forall name :: DirectoryOk(was, live, directories, name)
  }

  ghost predicate OthersOk(was: Files, live: Files) {
    forall name: Name :: name.Other? ==> Lookup(live, name) == Lookup(was, name)
  }

  /** An action on one managed name. */
  lemma OneNameChanged(
    name: Name, tree: Option<Tree>, was: Files, live: Files, directories: map<Name, Entry>)
    requires Managed(name) && DirectoriesOk(was, live, directories) && OthersOk(was, live)
    ensures DirectoriesOk(was, Put(live, name, tree), directories) && OthersOk(was, Put(live, name, tree))
  {
    var now := Put(live, name, tree);
    forall other ensures DirectoryOk(was, now, directories, other) {
      assert DirectoryOk(was, live, directories, other);
      assert IsState(other) ==> Lookup(now, other) == Lookup(live, other);
    }
  }

  lemma OneDirectoryChanged(
    name: Name, tree: Option<Tree>, entry: Entry, was: Files, live: Files, directories: map<Name, Entry>)
    requires IsState(name) && DirectoriesOk(was, live, directories) && OthersOk(was, live)
    requires Lookup(was, name).None?
    requires tree.Some? ==> entry.attempted
    requires entry.completed ==> tree.Some?
    ensures DirectoriesOk(was, Put(live, name, tree), directories[name := entry])
    ensures OthersOk(was, Put(live, name, tree))
  {
    var now, journal := Put(live, name, tree), directories[name := entry];
    forall other ensures DirectoryOk(was, now, journal, other) {
      assert DirectoryOk(was, live, directories, other);
      assert other != name ==> Lookup(now, other) == Lookup(live, other);
    }
  }

  predicate AsBefore(was: Files, live: Files, name: Name) {
    if IsState(name) && name in was then name in live else Lookup(live, name) == Lookup(was, name)
  }

  /** Managed names restored and created directories gone: every name is as before. */
  lemma NamesRestored(was: Files, broken: Files, live: Files, directories: map<Name, Entry>)
    requires DirectoriesOk(was, broken, directories) && OthersOk(was, broken)
    requires forall name :: name in directories ==> (directories[name].completed <==> name in broken)
    requires forall name :: Managed(name) ==> Lookup(live, name) == Lookup(was, name)
    requires forall name: Name :: name.Other? ==> Lookup(live, name) == Lookup(broken, name)
    requires forall name :: IsState(name) ==>
               Lookup(live, name) ==
               if name in directories && directories[name].completed then None else Lookup(broken, name)
    ensures forall name :: AsBefore(was, live, name)
    ensures was == map[] ==> live == map[]
  {
    forall name ensures AsBefore(was, live, name) {
      assert DirectoryOk(was, broken, directories, name);
    }
    if was == map[] {
      forall name ensures name !in live {
        assert AsBefore(was, live, name);
      }
    }
  }

  /** `live` with some of the agent's own files written over; nothing appears or goes. */
  function Rewritten(live: Files, written: Files): (r: Files)
    ensures r.Keys == live.Keys
    ensures forall name: Name :: name in live ==> r[name] == live[name] || (name in written && r[name] == written[name])
    ensures forall name: Name :: name.Other? ==> Lookup(r, name) == Lookup(live, name)
  {
    map name | name in live :: if !name.Other? && name in written then written[name] else live[name]
  }

  /** What was there under other names than the managed ones is there still. */
  ghost predicate UnmanagedKept(before: Files, now: Files) {
    forall name :: !Managed(name) && name in before ==> Lookup(now, name) == Lookup(before, name)
  }

  // ------------------------------------------------------------ the installer

  /** How far an action got before a fault: not to its effect, to its effect, to its end. */
  datatype Reach = Nowhere | Effect | End

  /** `CleanupRequired`: committed, but staged files or backups could not be removed. */
  datatype Verdict = Committed | CleanupRequired | RollbackComplete | RecoveryRequired

  class WindowsInstaller {
    var rootPresent: bool
    var live: Files                         // under the install root
    var stage: Files                        // under the transaction root
    var backup: Files                       // under the backup root
    var task: Option<Task>

    var priorFiles: map<Name, PriorFile>
    var publishedFiles: map<Name, Entry>
    var stateDirectories: map<Name, Entry>
    var installRoot: Entry
    var priorTaskStop: Entry
    var taskRegistration: Entry
    var taskStart: Entry

    // before the installation
    const wasPresent: bool
    const was: Files
    const priorTask: Option<Task>

    /** No action of the forward sequence faults. */
    const faultless: bool

    function SlotOf(name: Name): Slot
      reads this
      requires name in priorFiles && name in publishedFiles
    {
      Slots(was, live, stage, backup, priorFiles, publishedFiles, name)
    }

    predicate TaskOk()
      reads this`taskRegistration, this`task, this`priorTaskStop
    {
      || taskRegistration.attempted
      || task == priorTask
      || (priorTaskStop.attempted && priorTask.Some? && Active(priorTask.value)
          && task.Some? && task.value.definition == priorTask.value.definition)
    }

    predicate RootOk()
      reads this`rootPresent, this`installRoot, this`live
    {
      && (wasPresent ==> rootPresent)
      && (rootPresent && !wasPresent ==> installRoot.attempted)
      && (!rootPresent ==> live == map[])
      && (!wasPresent ==> was == map[])
    }

    /** What the journal keeps true between any two effects. */
    ghost predicate Valid()
      reads this
    {
      && FilesOk(was, live, stage, backup, priorFiles, publishedFiles)
      && DirectoriesOk(was, live, stateDirectories)
      && OthersOk(was, live) && RootOk() && TaskOk()
    }

    constructor (wasPresent: bool, was: Files, priorTask: Option<Task>, staged: Files, faultless: bool)
      requires !wasPresent ==> was == map[]
      requires forall name :: name in MANAGED_NAMES ==> name in staged
      ensures Valid() && Restored()
      ensures this.wasPresent == wasPresent && this.was == was && this.priorTask == priorTask
      ensures Untouched() && priorTaskStop == UNTOUCHED && stage == staged && this.faultless == faultless
    {
      this.wasPresent, this.was, this.priorTask, this.faultless := wasPresent, was, priorTask, faultless;
      rootPresent, live, stage, backup, task := wasPresent, was, staged, map[], priorTask;
      priorFiles := map name | name in MANAGED_NAMES :: PriorFile(name in was, false, UNTOUCHED);
      publishedFiles := map name | name in MANAGED_NAMES :: UNTOUCHED;
      stateDirectories := map[];
      installRoot, priorTaskStop, taskRegistration, taskStart := UNTOUCHED, UNTOUCHED, UNTOUCHED, UNTOUCHED;
    }

    /** The prior task was waiting to run, and the installation did nothing to it. */
    predicate LeftQueued()
      reads this`priorTaskStop, this`taskRegistration
    {
      priorTask.Some? && priorTask.value.state == Queued && !priorTaskStop.attempted && !taskRegistration.attempted
    }

    /** As before; only the content of a state directory that was there may differ. */
    ghost predicate Restored()
      reads this
    {
      && rootPresent == wasPresent
      && SameTask(priorTask, task)
      && forall name: Name :: AsBefore(was, live, name)
    }

    // --------------------------------------------------------------- forward

    /** How far an action gets; without faults, to its end. */
    method Act() returns (reach: Reach)
      ensures faultless ==> reach == End
    {
      reach := *;
      if faultless {
        reach := End;
      }
    }

    method CreateInstallRoot() returns (ok: bool)
      requires Valid()
      modifies this`rootPresent, this`installRoot
      ensures Valid()
      ensures ok ==> rootPresent
      ensures faultless ==> ok
    {
      if rootPresent {
        return true;
      }
      var reach := Act();
      installRoot := ATTEMPTED;
      if reach != Nowhere {
        rootPresent := true;
      }
      if reach == End {
        installRoot := COMPLETED;
      }
      ok := reach == End;
    }

    /** A prior task that runs, or is about to, is stopped before any file is touched. */
    method StopPriorTask() returns (ok: bool)
      requires Valid() && task == priorTask && taskRegistration == UNTOUCHED
      modifies this`priorTaskStop, this`task
      ensures Valid()
      ensures ok ==> task == if priorTask.None? then None else Some(priorTask.value.(state := Ready))
      ensures faultless ==> ok
    {
      if priorTask.None? || !Active(priorTask.value) {
        return true;
      }
      var reach := Act();
      priorTaskStop := ATTEMPTED;
      if reach != Nowhere {
        task := Some(priorTask.value.(state := Ready));
      }
      if reach == End {
        priorTaskStop := COMPLETED;
      }
      ok := reach == End;
    }

    /** Copies the live tree away.  A copy that breaks off leaves anything behind. */
    method BackUp(name: Name) returns (ok: bool)
      requires Valid() && Managed(name) && name in was
      requires priorFiles[name] == PriorFile(true, false, UNTOUCHED) && publishedFiles[name] == UNTOUCHED
      modifies this`backup, this`priorFiles
      ensures Valid() && publishedFiles == old(publishedFiles)
      ensures priorFiles == old(priorFiles)[name := PriorFile(true, ok, UNTOUCHED)]
      ensures faultless ==> ok
    {
      assert Consistent(SlotOf(name));
      var copied := CopyTreeItem(live[name], None);
      CopyAfterRemoval(was[name], None);
      var partial: Option<Tree> := *;
      var reach := Act();
      ok := reach == End;
      backup := Put(backup, name, if ok then copied else partial);
      priorFiles := priorFiles[name := PriorFile(true, ok, UNTOUCHED)];
      OneSlotChanged(name, was, old(live), old(stage), old(backup), old(priorFiles), old(publishedFiles),
                     live, stage, backup, priorFiles, publishedFiles);
    }

    /** A removal that fails may have removed any part of the tree, all of it included. */
    method RemovePrior(name: Name) returns (ok: bool)
      requires Valid() && Managed(name) && name in was
      requires priorFiles[name] == PriorFile(true, true, UNTOUCHED) && publishedFiles[name] == UNTOUCHED
      modifies this`live, this`priorFiles
      ensures Valid() && publishedFiles == old(publishedFiles) && UnmanagedKept(old(live), live)
      ensures priorFiles == old(priorFiles)[name := PriorFile(true, true, Entry(true, ok))]
      ensures faultless ==> ok
    {
      assert Consistent(SlotOf(name));
      var left: Option<Tree> := *;
      WholeIsPart(was[name]);
      var reach := Act();
      ok := reach == End;
      if ok || !PartOf(left, was[name]) {
        left := None;
      }
      OneNameChanged(name, left, was, live, stateDirectories);
      live := Put(live, name, left);
      priorFiles := priorFiles[name := PriorFile(true, true, Entry(true, ok))];
      OneSlotChanged(name, was, old(live), old(stage), old(backup), old(priorFiles), old(publishedFiles),
                     live, stage, backup, priorFiles, publishedFiles);
    }

    method Publish(name: Name) returns (ok: bool)
      requires Valid() && rootPresent && Managed(name)
      requires publishedFiles[name] == UNTOUCHED
      requires name in was ==> priorFiles[name].removal.completed
      modifies this`live, this`stage, this`publishedFiles
      ensures Valid()
      ensures publishedFiles == old(publishedFiles)[name := Entry(true, ok)]
      ensures ok ==> Lookup(live, name) == Lookup(old(stage), name)
      ensures forall other :: other != name ==>
                Lookup(live, other) == Lookup(old(live), other) && Lookup(stage, other) == Lookup(old(stage), other)
      ensures faultless ==> ok
    {
      assert Consistent(SlotOf(name));
      var reach := Act();
      ok := reach == End;
      if reach != Nowhere {
        OneNameChanged(name, Lookup(stage, name), was, live, stateDirectories);
        live := Put(live, name, Lookup(stage, name));
        stage := Put(stage, name, None);
      }
      publishedFiles := publishedFiles[name := Entry(true, ok)];
      OneSlotChanged(name, was, old(live), old(stage), old(backup), old(priorFiles), old(publishedFiles),
                     live, stage, backup, priorFiles, publishedFiles);
    }

    method CreateStateDirectory(name: Name) returns (ok: bool)
      requires Valid() && rootPresent && IsState(name) && name !in stateDirectories
      modifies this`live, this`stateDirectories
      ensures Valid()
      ensures ok ==> name in live
      ensures name in old(live) ==> ok && live == old(live)
      ensures ok && name !in old(live) ==> Lookup(live, name) == Some(Dir(map[]))
      ensures ok && name !in old(live) ==> name in stateDirectories && stateDirectories[name] == COMPLETED
      ensures stateDirectories.Keys <= old(stateDirectories).Keys + {name}
      ensures forall other :: other != name ==> Lookup(live, other) == Lookup(old(live), other)
      ensures faultless ==> ok
    {
      if name in live {
        return true;
      }
      assert DirectoryOk(was, live, stateDirectories, name);
      var reach := Act();
      ok := reach == End;
      var tree := if reach == Nowhere then None else Some(Dir(map[]));
      OneDirectoryChanged(name, tree, Entry(true, ok), was, live, stateDirectories);
      live := Put(live, name, tree);
      stateDirectories := stateDirectories[name := Entry(true, ok)];
      assert forall other :: Managed(other) ==> SlotOf(other) == old(SlotOf(other));
    }

    /** The new agent looks at its configuration; it may write into what it owns by now. */
    method CheckLiveConfiguration() returns (ok: bool, written: Files)
      requires Valid() && rootPresent
      requires forall name :: Managed(name) ==> publishedFiles[name] == COMPLETED
      modifies this`live
      ensures Valid() && live == Rewritten(old(live), written)
      ensures faultless ==> ok
    {
      assert forall name :: Managed(name) ==> Consistent(SlotOf(name));
      written := *;
      var reach := Act();
      ok := reach == End;
      var now := Rewritten(live, written);
      forall name ensures DirectoryOk(was, now, stateDirectories, name) {
        assert DirectoryOk(was, live, stateDirectories, name);
      }
      live := now;
    }

    method RegisterTask(definition: string) returns (ok: bool)
      requires Valid()
      modifies this`taskRegistration, this`task
      ensures Valid()
      ensures taskRegistration.attempted
      ensures ok ==> task == Some(Task(definition, Ready))
      ensures faultless ==> ok
    {
      var reach := Act();
      ok := reach == End;
      taskRegistration := Entry(true, ok);
      if reach != Nowhere {
        task := Some(Task(definition, Ready));
      }
    }

    method StartTask() returns (ok: bool)
      requires Valid() && taskRegistration.attempted
      modifies this`taskStart, this`task
      ensures Valid()
      ensures ok ==> old(task).Some? && task == Some(old(task).value.(state := Running))
      ensures faultless && old(task).Some? ==> ok
    {
      var reach := Act();
      ok := reach == End && task.Some?;
      if reach != Nowhere && task.Some? {
        task := Some(task.value.(state := Running));
      }
      taskStart := Entry(true, ok);
    }

    /** Nothing has been done yet. */
    ghost predicate Untouched()
      reads this
    {
      && RemovedUpTo(0) && PublishedUpTo(0, stage)
      && stateDirectories == map[] && task == priorTask && taskRegistration == UNTOUCHED
      && live == was
    }

    /** Everything that was there besides the managed names is there with its content, but for what the
    configuration check wrote into a state directory. */
    ghost predicate DataKept(written: Files)
      reads this`live
    {
      forall name :: !Managed(name) && name in was ==>
        name in live && (live[name] == was[name] || (IsState(name) && name in written && live[name] == written[name]))
    }

    /** The whole effect of the forward sequence: every managed name holds its staged tree, the state
    directories are there, unmanaged names are as they were, and the new task runs. Only the configuration
    check, which wrote `written`, came in between. */
    ghost predicate Deployed(staged: Files, written: Files, definition: string)
      reads this
    {
      && rootPresent && task == Some(Task(definition, Running))
      && (forall name | Managed(name) :: IsPublished(staged, written, name))
      && (forall name | IsState(name) :: name in live)
      && (forall name: Name | name.Other? :: Lookup(live, name) == Lookup(was, name))
      && DataKept(written)
    }

    predicate IsPublished(staged: Files, written: Files, name: Name)
      reads this`publishedFiles, this`live
    {
      && name in publishedFiles && publishedFiles[name] == COMPLETED
      && name in staged && name in live
      && (live[name] == staged[name] || (name in written && live[name] == written[name]))
    }

    /** The forward sequence, up to the first fault. */
    method Deploy(definition: string) returns (ok: bool, written: Files)
      requires Valid() && Untouched()
      modifies this
      ensures Valid() && DataKept(written)
      ensures ok ==> Deployed(old(stage), written, definition)
      ensures faultless ==> ok
    {
      written := map[];
      ok := CreateInstallRoot();
      if !ok { return; }
      ok := StopPriorTask();
      if !ok { return; }
      ok := ReplaceFiles();
      if !ok { return; }
      ok, written := Activate(definition);
    }

    /** Before the first publication every managed name is staged. */
    lemma EverythingIsStaged()
      requires Valid() && PublishedUpTo(0, stage)
      ensures forall name | Managed(name) :: name in stage
    {
      forall name | Managed(name) ensures name in stage {
        assert Consistent(SlotOf(name));
      }
    }

    /** The managed files and the state directories. */
    method ReplaceFiles() returns (ok: bool)
      requires Valid() && rootPresent && RemovedUpTo(0) && PublishedUpTo(0, stage) && stateDirectories == map[]
      modifies this`live, this`stage, this`backup, this`priorFiles, this`publishedFiles, this`stateDirectories
      ensures Valid() && UnmanagedKept(old(live), live)
      ensures ok ==> Logs in live && SpoolDirectory in live
      ensures ok ==> forall name | Managed(name) :: IsPublished(old(stage), map[], name)
      ensures faultless ==> ok
    {
      EverythingIsStaged();
      ok := RemoveAllPrior();
      if !ok { return; }
      ok := PublishAll();
      if !ok { return; }
      ghost var published := live;
      ok := CreateStateDirectories();
      forall name | ok && Managed(name) ensures IsPublished(old(stage), map[], name) {
        assert Place(name) < |MANAGED_NAMES| && Lookup(live, name) == Lookup(published, name);
      }
    }

    method CreateStateDirectories() returns (ok: bool)
      requires Valid() && rootPresent && stateDirectories == map[]
      modifies this`live, this`stateDirectories
      ensures Valid() && UnmanagedKept(old(live), live)
      ensures ok ==> Logs in live && SpoolDirectory in live
      ensures forall name :: !IsState(name) ==> Lookup(live, name) == Lookup(old(live), name)
      ensures faultless ==> ok
    {
      ok := CreateStateDirectory(Logs);
      if ok {
        assert Lookup(live, Logs).Some?;
        ok := CreateStateDirectory(SpoolDirectory);
        assert Lookup(live, Logs).Some?;
      }
    }

    /** The configuration check and the task; the task must stay up for a while. */
    method Activate(definition: string) returns (ok: bool, written: Files)
      requires Valid() && rootPresent
      requires forall name :: Managed(name) ==> publishedFiles[name] == COMPLETED
      modifies this`live, this`task, this`taskRegistration, this`taskStart
      ensures Valid() && live == Rewritten(old(live), written)
      ensures ok ==> task == Some(Task(definition, Running))
      ensures faultless ==> ok
    {
      ok, written := CheckLiveConfiguration();
      if !ok { return; }
      ok := RegisterTask(definition);
      if !ok { return; }
      ok := StartTask();
      if !ok { return; }
      var reach := Act();
      ok := reach == End;
    }

    method BackUpAndRemove(name: Name) returns (ok: bool)
      requires Valid() && Managed(name)
      requires priorFiles[name] == PriorFile(name in was, false, UNTOUCHED) && publishedFiles[name] == UNTOUCHED
      modifies this`live, this`backup, this`priorFiles
      ensures Valid() && publishedFiles == old(publishedFiles) && UnmanagedKept(old(live), live)
      ensures ok && name in was ==> priorFiles[name].removal.completed
      ensures name in priorFiles && priorFiles == old(priorFiles)[name := priorFiles[name]]
      ensures faultless ==> ok
    {
      ok := true;
      if priorFiles[name].existed {
        ok := BackUp(name);
        if ok {
          ok := RemovePrior(name);
        }
      }
    }

    /** The prior files before place `i` are gone, the others untouched. */
    ghost predicate RemovedUpTo(i: nat)
      reads this`priorFiles
    {
      forall name | Managed(name) ::
        && name in priorFiles
        && (Place(name) < i && name in was ==> priorFiles[name].removal.completed)
        && (Place(name) >= i ==> priorFiles[name] == PriorFile(name in was, false, UNTOUCHED))
    }

    method RemoveNext(i: nat) returns (ok: bool)
      requires Valid() && i < |MANAGED_NAMES| && RemovedUpTo(i)
      requires publishedFiles[MANAGED_NAMES[i]] == UNTOUCHED
      modifies this`live, this`backup, this`priorFiles
      ensures Valid() && publishedFiles == old(publishedFiles) && UnmanagedKept(old(live), live)
      ensures ok ==> RemovedUpTo(i + 1)
      ensures faultless ==> ok
    {
      var name := MANAGED_NAMES[i];
      assert Managed(name) && Place(name) == i;
      ok := BackUpAndRemove(name);
    }

    method RemoveAllPrior() returns (ok: bool)
      requires Valid() && RemovedUpTo(0) && PublishedUpTo(0, stage)
      modifies this`live, this`backup, this`priorFiles
      ensures Valid() && UnmanagedKept(old(live), live)
      ensures ok ==> RemovedUpTo(|MANAGED_NAMES|) && PublishedUpTo(0, stage)
      ensures faultless ==> ok
    {
      ok := true;
      for i := 0 to |MANAGED_NAMES|
        invariant Valid() && publishedFiles == old(publishedFiles) && RemovedUpTo(i) && PublishedUpTo(0, stage)
        invariant UnmanagedKept(old(live), live)
      {
        assert Managed(MANAGED_NAMES[i]);
        ok := RemoveNext(i);
        if !ok { return; }
      }
    }

    /** The staged files before place `i` are live, the others still staged. */
    ghost predicate PublishedUpTo(i: nat, staged: Files)
      reads this`publishedFiles, this`live, this`stage
    {
      forall name | Managed(name) ::
        && name in publishedFiles
        && (Place(name) < i ==> publishedFiles[name] == COMPLETED && Lookup(live, name) == Lookup(staged, name))
        && (Place(name) >= i ==> publishedFiles[name] == UNTOUCHED && Lookup(stage, name) == Lookup(staged, name))
    }

    method PublishNext(i: nat, ghost staged: Files) returns (ok: bool)
      requires Valid() && rootPresent && i < |MANAGED_NAMES| && PublishedUpTo(i, staged)
      requires MANAGED_NAMES[i] in was ==> priorFiles[MANAGED_NAMES[i]].removal.completed
      modifies this`live, this`stage, this`publishedFiles
      ensures Valid() && UnmanagedKept(old(live), live)
      ensures ok ==> PublishedUpTo(i + 1, staged)
      ensures faultless ==> ok
    {
      var name := MANAGED_NAMES[i];
      assert Managed(name) && Place(name) == i;
      ok := Publish(name);
    }

    method PublishAll() returns (ok: bool)
      requires Valid() && rootPresent && PublishedUpTo(0, stage) && RemovedUpTo(|MANAGED_NAMES|)
      modifies this`live, this`stage, this`publishedFiles
      ensures Valid() && UnmanagedKept(old(live), live)
      ensures ok ==> PublishedUpTo(|MANAGED_NAMES|, old(stage))
      ensures faultless ==> ok
    {
      ok := true;
      for i := 0 to |MANAGED_NAMES|
        invariant Valid() && PublishedUpTo(i, old(stage)) && UnmanagedKept(old(live), live)
      {
        assert Place(MANAGED_NAMES[i]) < |MANAGED_NAMES|;
        ok := PublishNext(i, old(stage));
        if !ok { return; }
      }
    }

    // ------------------------------------------------------------ resolution

    method ResolveAmbiguousJournal()
      requires Valid()
      modifies this`installRoot, this`priorFiles, this`publishedFiles, this`stateDirectories
      ensures Valid()
      ensures installRoot.attempted == old(installRoot.attempted)
      ensures !wasPresent && old(installRoot) == ATTEMPTED ==> (installRoot.completed <==> rootPresent)
      ensures forall name :: Managed(name) ==> SlotOf(name) == Resolved(old(SlotOf(name)))
      ensures forall name :: name in stateDirectories ==> (stateDirectories[name].completed <==> name in live)
    {
      if !wasPresent && installRoot == ATTEMPTED && rootPresent {
        installRoot := COMPLETED;
      }
      ResolveFiles();
      ResolveDirectories();
    }

    method ResolveFiles()
      requires Valid()
      modifies this`priorFiles, this`publishedFiles
      ensures Valid()
      ensures forall name :: Managed(name) ==> SlotOf(name) == Resolved(old(SlotOf(name)))
    {
      for i := 0 to |MANAGED_NAMES|
        invariant forall name :: Managed(name) ==> name in priorFiles && name in publishedFiles
        invariant forall name :: Managed(name) ==>
                    SlotOf(name) == if Place(name) < i then Resolved(old(SlotOf(name))) else old(SlotOf(name))
      {
        var name := MANAGED_NAMES[i];
        assert Managed(name) && Place(name) == i;
        var slot := SlotOf(name);
        priorFiles := priorFiles[name := ResolvedPrior(slot)];
        publishedFiles := publishedFiles[name := ResolvedPublished(slot)];
      }
      forall name | Managed(name) ensures Consistent(SlotOf(name)) {
        JournalIsExact(old(SlotOf(name)));
      }
    }

    method ResolveDirectories()
      requires Valid()
      modifies this`stateDirectories
      ensures Valid()
      ensures forall name :: name in stateDirectories ==> (stateDirectories[name].completed <==> name in live)
    {
      var resolved := map name | name in stateDirectories ::
        if stateDirectories[name] == ATTEMPTED && name in live then COMPLETED else stateDirectories[name];
      forall name ensures DirectoryOk(was, live, resolved, name)
      {
        assert DirectoryOk(was, live, stateDirectories, name);
      }
      forall name | name in resolved ensures resolved[name].completed <==> name in live {
        assert DirectoryOk(was, live, stateDirectories, name);
      }
      stateDirectories := resolved;
    }

    // -------------------------------------------------------------- rollback

    /** Everything rollback needs to know about the journal. */
    ghost predicate JournalResolved()
      reads this
    {
      && Valid()
      && (forall name :: Managed(name) ==> RolledBack(SlotOf(name)) == Some(Lookup(was, name)))
      && (forall name :: name in stateDirectories ==> (stateDirectories[name].completed <==> name in live))
    }

    /** Removes what is at a name; a removal that fails leaves anything. */
    method RemoveSafePath(name: Name, reliable: bool) returns (ok: bool)
      modifies this`live
      ensures exists left :: live == Put(old(live), name, left)
      ensures ok ==> live == Put(old(live), name, None)
      ensures reliable ==> ok
    {
      var left: Option<Tree> := *;
      ok := *;
      ok := ok || reliable;
      if ok {
        left := None;
      }
      live := Put(live, name, left);
    }

    /** One managed name.  A failure is noted, and the next part is still tried. */
    method RestoreManaged(name: Name, reliable: bool) returns (ok: bool)
      requires Managed(name) && name in priorFiles && name in publishedFiles
      requires RolledBack(SlotOf(name)) == Some(Lookup(was, name))
      requires priorFiles[name].backupPrepared ==> name in backup
      modifies this`live
      ensures forall other :: other != name ==> Lookup(live, other) == Lookup(old(live), other)
      ensures ok ==> Lookup(live, name) == Lookup(was, name)
      ensures reliable ==> ok
    {
      ok := true;
      if publishedFiles[name].completed {
        ok := RemoveSafePath(name, reliable);
      }
      if priorFiles[name].backupPrepared && priorFiles[name].removal.attempted {
        var copied := CopyTreeItem(backup[name], Lookup(live, name));
        var broken: bool := *;
        var left: Option<Tree> := *;
        if copied.None? || (broken && !reliable) {
          ok := false;
          live := Put(live, name, left);
        } else {
          live := Put(live, name, copied);
        }
      }
    }

    method RestoreAllManaged(reliable: bool) returns (ok: bool)
      requires JournalResolved()
      modifies this`live
      ensures forall other :: !Managed(other) ==> Lookup(live, other) == Lookup(old(live), other)
      ensures ok ==> forall name :: Managed(name) ==> Lookup(live, name) == Lookup(was, name)
      ensures reliable ==> ok
    {
      ok := true;
      for i := 0 to |MANAGED_NAMES|
        invariant forall name :: !Managed(name) || Place(name) >= i ==> Lookup(live, name) == Lookup(old(live), name)
        invariant ok ==> forall name :: Managed(name) && Place(name) < i ==> Lookup(live, name) == Lookup(was, name)
        invariant reliable ==> ok
      {
        var name := MANAGED_NAMES[i];
        assert Managed(name) && Place(name) == i;
        assert SlotOf(name) == old(SlotOf(name)) && Consistent(old(SlotOf(name)));
        var restored := RestoreManaged(name, reliable);
        ok := ok && restored;
      }
    }

    method RemoveStateDirectories(reliable: bool) returns (ok: bool)
      modifies this`live
      ensures forall other :: !IsState(other) ==> Lookup(live, other) == Lookup(old(live), other)
      ensures forall name :: !(name in stateDirectories && stateDirectories[name].completed) ==>
                Lookup(live, name) == Lookup(old(live), name)
      ensures ok ==> forall name :: IsState(name) && name in stateDirectories && stateDirectories[name].completed ==>
                Lookup(live, name) == None
      ensures reliable ==> ok
    {
      var first, second := true, true;
      if Logs in stateDirectories && stateDirectories[Logs].completed {
        first := RemoveSafePath(Logs, reliable);
      }
      if SpoolDirectory in stateDirectories && stateDirectories[SpoolDirectory].completed {
        second := RemoveSafePath(SpoolDirectory, reliable);
      }
      ok := first && second;
    }

    /** A root that the installation created goes, if nothing is left in it. */
    method RemoveInstallRoot(reliable: bool) returns (ok: bool)
      modifies this`rootPresent
      ensures ok && !wasPresent && installRoot.attempted && live == map[] ==> !rootPresent
      ensures rootPresent != old(rootPresent) ==> !wasPresent
      ensures rootPresent ==> old(rootPresent)
      ensures reliable ==> ok
    {
      ok := true;
      if !wasPresent && installRoot.attempted && rootPresent && live == map[] {
        ok := *;
        ok := ok || reliable;
        if ok {
          rootPresent := false;
        }
      }
    }

    method RemoveNewTask(reliable: bool) returns (ok: bool)
      modifies this`task
      ensures !taskRegistration.attempted ==> task == old(task)
      ensures taskRegistration.attempted && ok ==> task.None?
      ensures reliable ==> ok
    {
      ok := true;
      if taskRegistration.attempted && task.Some? {
        ok := *;
        ok := ok || reliable;
        var left: Option<Task> := *;
        task := if ok then None else left;
      }
    }

    /** Registers the prior task again and starts it, where something was done to it. */
    method RestorePriorTask(reliable: bool) returns (ok: bool)
      requires TaskOk()
      modifies this`task
      ensures ok && (taskRegistration.attempted && priorTask.None? ==> old(task) == None) ==> SameTask(priorTask, task)
      ensures ok && priorTask.Some? && !LeftQueued() ==> LooksRestored(priorTask, task)
      ensures LeftQueued() ==> task == old(task)
      ensures reliable ==> ok
    {
      ok := true;
      if priorTask.None? {
        return;
      }
      if taskRegistration.attempted {
        ok := *;
        ok := ok || reliable;
        var left: Option<Task> := *;
        task := if ok then Some(priorTask.value.(state := Ready)) else left;
      }
      if Active(priorTask.value) && (priorTaskStop.attempted || taskRegistration.attempted) {
        if task.None? {
          ok := false;
        } else if task.value.state != Running {
          var started: bool := *;
          started := started || reliable;
          if started {
            task := Some(task.value.(state := Running));
          }
          ok := ok && started;
        }
      }
    }

    /** The final look at what rollback achieved: presence, not content. */
    method TestRollbackState() returns (good: bool)
      requires forall name :: Managed(name) ==> name in priorFiles && (priorFiles[name].existed <==> name in was)
      requires forall name :: name in stateDirectories ==> IsState(name) && name !in was
      requires !wasPresent && rootPresent ==> installRoot.attempted
      ensures Restored() && LooksRestored(priorTask, task) ==> good
      ensures good ==> forall name :: Managed(name) ==> (name in live <==> name in was)
      ensures good ==> LooksRestored(priorTask, task)
    {
      good := true;
      for i := 0 to |MANAGED_NAMES|
        invariant Restored() && LooksRestored(priorTask, task) ==> good
        invariant good ==> forall name :: Managed(name) && Place(name) < i ==> (name in live <==> name in was)
      {
        var name := MANAGED_NAMES[i];
        assert Managed(name) && Place(name) == i;
        if priorFiles[name].existed != (name in live) {
          assert !AsBefore(was, live, name);
          good := false;
        }
      }
      for i := 0 to |STATE_DIRECTORIES|
        invariant Restored() && LooksRestored(priorTask, task) ==> good
        invariant good ==> forall name :: Managed(name) ==> (name in live <==> name in was)
      {
        var name := STATE_DIRECTORIES[i];
        if name in stateDirectories && stateDirectories[name].completed && name in live {
          assert !AsBefore(was, live, name);
          good := false;
        }
      }
      if !wasPresent && installRoot.attempted && rootPresent {
        good := false;
      }
      if !LooksRestored(priorTask, task) {
        good := false;
      }
    }

    /** Managed files, state directories and the install root. */
    method RestoreTree(reliable: bool) returns (ok: bool)
      requires JournalResolved()
      modifies this`live, this`rootPresent
      ensures ok ==> rootPresent == wasPresent && forall name: Name :: AsBefore(was, live, name)
      ensures wasPresent ==> rootPresent
      ensures rootPresent ==> old(rootPresent)
      ensures forall name :: !Managed(name) && name in was ==> Lookup(live, name) == Lookup(old(live), name)
      ensures reliable ==> ok
    {
      assert forall name :: name in stateDirectories ==> DirectoryOk(was, live, stateDirectories, name);
      var files := RestoreAllManaged(reliable);
      var directories := RemoveStateDirectories(reliable);
      if files && directories {
        NamesRestored(was, old(live), live, stateDirectories);
      }
      var root := RemoveInstallRoot(reliable);
      ok := files && directories && root;
    }

    /**
      Reports success only after everything is as it was.  `reliable` says that
      none of its own operations fails: then everything is as it was, and success
      is reported except over a queued task that was left alone.
     */
    method Rollback(reliable: bool) returns (complete: bool)
      requires JournalResolved()
      modifies this`live, this`stage, this`backup, this`rootPresent, this`task
      ensures complete ==> Restored()
      ensures reliable ==> Restored() && (complete <==> !LeftQueued())
      ensures LeftQueued() ==> task == old(task)
      ensures !Restored() ==> backup == old(backup)
      ensures forall name :: !Managed(name) && name in was ==> Lookup(live, name) == Lookup(old(live), name)
    {
      assert forall name :: name in stateDirectories ==> DirectoryOk(was, live, stateDirectories, name);
      assert forall name :: Managed(name) ==> Consistent(SlotOf(name));
      var removedTask := RemoveNewTask(reliable);
      var tree := RestoreTree(reliable);
      var restoredTask := RestorePriorTask(reliable);
      var good := TestRollbackState();
      complete := removedTask && tree && restoredTask && good;
      if complete {
        complete := RemoveRecovery(reliable);
      }
    }

    /** Staged files and backups go; without success some backups may be left. */
    method RemoveRecovery(reliable: bool) returns (ok: bool)
      modifies this`stage, this`backup
      ensures reliable ==> ok
      ensures ok ==> stage == map[] && backup == map[]
    {
      stage := map[];
      ok := *;
      ok := ok || reliable;
      if ok {
        backup := map[];
      }
    }

    /**
      Runs the whole script.  Without faults it commits; what is committed is never
      rolled back.  After a failure nothing is left to chance but a failing rollback.
     */
    method Install(definition: string, reliable: bool) returns (verdict: Verdict, written: Files)
      requires Valid() && Untouched()
      modifies this
      ensures verdict == RollbackComplete ==> Restored()
      ensures DataKept(written)
      ensures faultless ==> verdict == Committed
      ensures verdict == Committed || verdict == CleanupRequired ==> Deployed(old(stage), written, definition)
      ensures verdict == Committed ==> stage == map[] && backup == map[]
      ensures reliable && (verdict == RollbackComplete || verdict == RecoveryRequired) ==>
                Restored() && (verdict == RecoveryRequired <==> LeftQueued())
    {
      var ok;
      ok, written := Deploy(definition);
      if ok {
        var clean := RemoveRecovery(faultless);
        return if clean then Committed else CleanupRequired, written;
      }
      ResolveAmbiguousJournal();
      forall name | Managed(name) ensures RolledBack(SlotOf(name)) == Some(Lookup(was, name)) {
        ResolvedIsReady(SlotOf(name));
      }
      var complete := Rollback(reliable);
      verdict := if complete then RollbackComplete else RecoveryRequired;
    }
  }

  /** A queued task, a fault before the install root is created, and a rollback in which nothing fails:
  the rollback reports failure over an unchanged system. */
  method QueuedTaskIsReported(definition: string, staged: Files)
    returns (installer: WindowsInstaller, complete: bool)
    requires forall name :: name in MANAGED_NAMES ==> name in staged
    ensures !complete && installer.Restored() && fresh(installer)
    ensures installer.priorTask == Some(Task(definition, Queued)) && installer.task == installer.priorTask
  {
    installer := new WindowsInstaller(false, map[], Some(Task(definition, Queued)), staged, false);
    installer.installRoot := ATTEMPTED;
    installer.ResolveAmbiguousJournal();
    forall name | Managed(name)
      ensures RolledBack(installer.SlotOf(name)) == Some(Lookup(installer.was, name))
    {
      ResolvedIsReady(installer.SlotOf(name));
    }
    complete := installer.Rollback(true);
  }
}
