/**
  The macOS installer's transaction (deploy/macos/install.sh): four components
  are moved away and replaced, the LaunchDaemon is stopped and started, and a
  trap rolls everything back.  A command that fails has no effect.
 */
module MacInstall {
  import opened FileTrees
  import opened Wrappers

  datatype Component = Venv | Launcher | Environment | Plist

  type Files = map<Component, Tree>

  /** A daemon that is not loaded does not run. */
  datatype Daemon = Daemon(loaded: bool, running: bool)

  const UNLOADED := Daemon(false, false)

  datatype Verdict = Refused | Installed | RolledBack | RollbackIncomplete

  // ------------------------------------------------------------ one component

  datatype Slot = Slot(
    was: Option<Tree>, live: Option<Tree>, backup: Option<Tree>, backedUp: bool, published: bool)

  predicate Consistent(s: Slot) {
    && (s.backedUp ==> s.was.Some? && s.backup == s.was)
    && (s.published ==> s.live.Some? && (s.was.Some? ==> s.backedUp))
    && (!s.published ==> s.live == if s.backedUp then None else s.was)
  }

  /** A component's restoration, when no command fails: the new live path, or a refusal. */
  function Restoration(s: Slot): Option<Option<Tree>> {
    if s.backedUp then
      if s.live.Some? && !s.published then None else Some(s.backup)
    else if s.published then
      if s.was.Some? then None else Some(None)
    else Some(s.live)
  }

  lemma RestorationIsExact(s: Slot)
    requires Consistent(s)
    ensures Restoration(s) == Some(s.was)
  {}

  class MacInstaller {
    var live: Files
    var backup: Files
    var staged: Files
    var daemon: Daemon

    var mutationStarted: bool
    var daemonStateMutated: bool
    var backupCompleted: set<Component>
    var publicationCompleted: set<Component>

    // before the installation
    const was: Files
    const prior: Daemon

    /** No command of the forward sequence fails. */
    const faultless: bool

    /** Does launchd start the daemon as soon as it loads this property list? */
    const runsAtLoad: Tree -> bool

    function SlotOf(c: Component): Slot
      reads this
    {
      Slot(Lookup(was, c), Lookup(live, c), Lookup(backup, c), c in backupCompleted, c in publicationCompleted)
    }

    predicate DaemonOk()
      reads this
    {
      && (daemon.running ==> daemon.loaded)
      && (prior.running ==> prior.loaded)
      && (prior.loaded ==> Plist in was)
      && (daemonStateMutated ==> mutationStarted)
      && (!daemonStateMutated ==> daemon == prior)
      && (mutationStarted && prior.loaded ==> daemonStateMutated)
    }

    predicate ComponentsOk()
      reads this
    {
      forall c: Component :: Consistent(SlotOf(c))
    }

    predicate Valid()
      reads this
    {
      DaemonOk() && ComponentsOk()
    }

    predicate Restored()
      reads this
    {
      daemon == prior && forall c: Component :: Lookup(live, c) == Lookup(was, c)
    }

    /** The prior component still exists, in its place or in the backup. */
    predicate Kept(c: Component)
      reads this`live, this`backup
    {
      c in was ==> Lookup(live, c) == Lookup(was, c) || Lookup(backup, c) == Lookup(was, c)
    }

    /** Rollback cannot bring back a running daemon whose property list does not start it. */
    predicate Restartable()
      reads this
    {
      prior.running && Plist in was ==> runsAtLoad(was[Plist])
    }

    constructor (live: Files, staged: Files, daemon: Daemon, runsAtLoad: Tree -> bool, faultless: bool)
      requires daemon.running ==> daemon.loaded
      ensures Restored() && this.was == live == this.live && this.prior == daemon && this.staged == staged
      ensures this.runsAtLoad == runsAtLoad && this.faultless == faultless
      ensures !mutationStarted && !daemonStateMutated && backupCompleted == {} && publicationCompleted == {}
    {
      this.was, this.prior, this.runsAtLoad, this.faultless := live, daemon, runsAtLoad, faultless;
      this.live, this.staged, this.daemon := live, staged, daemon;
      backup := map[];
      mutationStarted, daemonStateMutated := false, false;
      backupCompleted, publicationCompleted := {}, {};
    }

    // -------------------------------------------------------------- launchctl

    method Bootout(reliable: bool) returns (ok: bool)
      requires daemon.running ==> daemon.loaded
      modifies this`daemon
      ensures daemon == if ok then UNLOADED else old(daemon)
      ensures reliable && old(daemon).loaded ==> ok
    {
      ok := *;
      ok := daemon.loaded && (ok || reliable);
      if ok {
        daemon := UNLOADED;
      }
    }

    /** Loads the daemon from the live property list. */
    method Bootstrap(reliable: bool) returns (ok: bool)
      modifies this`daemon
      ensures ok ==> Plist in live && daemon == Daemon(true, runsAtLoad(live[Plist]))
      ensures !ok ==> daemon == old(daemon)
      ensures reliable && !old(daemon).loaded && Plist in live ==> ok
    {
      ok := *;
      ok := !daemon.loaded && Plist in live && (ok || reliable);
      if ok {
        daemon := Daemon(true, runsAtLoad(live[Plist]));
      }
    }

    method Stop(reliable: bool) returns (ok: bool)
      modifies this`daemon
      ensures daemon == if ok then old(daemon).(running := false) else old(daemon)
      ensures reliable ==> ok
    {
      ok := *;
      ok := ok || reliable;
      if ok {
        daemon := daemon.(running := false);
      }
    }

    /** Every other command: it either works or it does not. */
    method Command(reliable: bool) returns (ok: bool)
      ensures reliable ==> ok
    {
      ok := *;
      ok := ok || reliable;
    }

    // --------------------------------------------------------------- forward

    method StopPriorDaemon() returns (ok: bool)
      requires Valid() && !mutationStarted && !daemonStateMutated
      modifies this`mutationStarted, this`daemonStateMutated, this`daemon
      ensures Valid() && mutationStarted
      ensures ok ==> daemon == UNLOADED && daemonStateMutated == prior.loaded
      ensures faultless ==> ok
    {
      mutationStarted := true;
      ok := true;
      if prior.loaded {
        daemonStateMutated := true;
        ok := Bootout(faultless);
      }
      assert forall c: Component :: SlotOf(c) == old(SlotOf(c));
    }

    method BackUp(c: Component) returns (ok: bool)
      requires Valid() && c !in backupCompleted && c !in publicationCompleted
      modifies this`live, this`backup, this`backupCompleted
      ensures Valid()
      ensures backupCompleted == if ok && c in was then old(backupCompleted) + {c} else old(backupCompleted)
      ensures faultless ==> ok
    {
      ok := true;
      if c in was {
        assert Consistent(SlotOf(c));
        ok := Command(faultless);
        if ok {
          backup, live := Put(backup, c, Lookup(live, c)), Put(live, c, None);
          backupCompleted := backupCompleted + {c};
        }
      }
      assert forall other :: other != c ==> SlotOf(other) == old(SlotOf(other));
    }

    method Publish(c: Component) returns (ok: bool)
      requires Valid() && c in staged && c !in publicationCompleted
      requires c in was ==> c in backupCompleted
      modifies this`live, this`staged, this`publicationCompleted
      ensures Valid()
      ensures publicationCompleted == if ok then old(publicationCompleted) + {c} else old(publicationCompleted)
      ensures ok ==> Lookup(live, c) == Lookup(old(staged), c)
      ensures forall other :: other != c ==>
                Lookup(staged, other) == Lookup(old(staged), other) && Lookup(live, other) == Lookup(old(live), other)
      ensures faultless ==> ok
    {
      assert Consistent(SlotOf(c));
      ok := Command(faultless);
      if ok {
        live, staged := Put(live, c, Lookup(staged, c)), Put(staged, c, None);
        publicationCompleted := publicationCompleted + {c};
      }
      assert forall other :: other != c ==> SlotOf(other) == old(SlotOf(other));
    }

    method BackUpAll() returns (ok: bool)
      requires Valid() && backupCompleted == {} && publicationCompleted == {}
      modifies this`live, this`backup, this`backupCompleted
      ensures Valid()
      ensures ok ==> forall c :: c in was ==> c in backupCompleted
      ensures faultless ==> ok
    {
      ok := BackUp(Venv);
      if !ok { return; }
      ok := BackUp(Launcher);
      if !ok { return; }
      ok := BackUp(Environment);
      if !ok { return; }
      ok := BackUp(Plist);
      forall c | ok && c in was ensures c in backupCompleted {
        match c case Venv => case Launcher => case Environment => case Plist =>
      }
    }

    method PublishAll() returns (ok: bool)
      requires Valid() && publicationCompleted == {}
      requires forall c: Component :: c in staged && (c in was ==> c in backupCompleted)
      modifies this`live, this`staged, this`publicationCompleted
      ensures Valid()
      ensures ok ==> forall c: Component :: c in publicationCompleted && Lookup(live, c) == Lookup(old(staged), c)
      ensures faultless ==> ok
    {
      ok := Publish(Venv);
      if !ok { return; }
      assert Lookup(staged, Launcher).Some? && Lookup(staged, Environment).Some? && Lookup(staged, Plist).Some?;
      ok := Publish(Launcher);
      if !ok { return; }
      assert Lookup(staged, Environment).Some? && Lookup(staged, Plist).Some?;
      ok := Publish(Environment);
      if !ok { return; }
      assert Lookup(staged, Plist).Some?;
      ok := Publish(Plist);
      forall c: Component | ok ensures c in publicationCompleted && Lookup(live, c) == Lookup(old(staged), c) {
        match c case Venv => case Launcher => case Environment => case Plist =>
      }
    }

    /** The live check may write into the published components. */
    method CheckLiveConfiguration() returns (ok: bool, written: Files)
      requires Valid() && forall c: Component :: c in publicationCompleted
      modifies this`live
      ensures Valid() && live.Keys == old(live).Keys
      ensures forall c :: c in live ==> live[c] == if c in written then written[c] else old(live)[c]
      ensures faultless ==> ok
    {
      ok := Command(faultless);
      written := *;
      live := map c | c in live :: if c in written then written[c] else live[c];
      forall c: Component ensures Consistent(SlotOf(c)) {
        assert Consistent(old(SlotOf(c))) && SlotOf(c) == old(SlotOf(c)).(live := Lookup(live, c));
      }
    }

    method StartDaemon() returns (ok: bool)
      requires Valid() && mutationStarted
      modifies this`daemonStateMutated, this`daemon
      ensures Valid()
      ensures ok ==> daemon == Daemon(true, true) && Plist in live && runsAtLoad(live[Plist])
      ensures faultless && old(daemon) == UNLOADED && Plist in live ==> (ok <==> runsAtLoad(live[Plist]))
    {
      daemonStateMutated := true;
      ok := Bootstrap(faultless);
      assert forall c: Component :: SlotOf(c) == old(SlotOf(c));
      if !ok { return; }
      ok := Command(faultless);                        // enable
      if !ok { return; }
      ok := Command(faultless);                    // can the state be read?
      ok := ok && daemon.loaded && daemon.running;
    }

    // -------------------------------------------------------------- rollback

    method RestoreComponent(c: Component, reliable: bool) returns (ok: bool)
      requires Restoration(SlotOf(c)) == Some(Lookup(was, c))
      requires Kept(c) && (c in backupCompleted ==> Lookup(backup, c) == Lookup(was, c) && c in was)
      modifies this`live, this`backup
      ensures Kept(c)
      ensures forall other :: other != c ==>
                Lookup(live, other) == Lookup(old(live), other) && Lookup(backup, other) == Lookup(old(backup), other)
      ensures ok ==> Lookup(live, c) == Lookup(was, c)
      ensures reliable ==> ok
    {
      ok := true;
      if c in backupCompleted {
        if c in publicationCompleted {
          if c in live {
            ok := Command(reliable);
            if ok {
              live := Put(live, c, None);
            }
          }
        } else if c in live {
          ok := false;
        }
        if ok {
          ok := Command(reliable);
          if ok {
            live, backup := Put(live, c, Lookup(backup, c)), Put(backup, c, None);
          }
        }
      } else if c in publicationCompleted {
        if c !in was {
          ok := Command(reliable);
          if ok {
            live := Put(live, c, None);
          }
        } else {
          ok := false;
        }
      }
    }

    method RestoreComponents(reliable: bool) returns (ok: bool)
      requires ComponentsOk()
      modifies this`live, this`backup
      ensures forall c: Component :: Kept(c)
      ensures ok ==> forall c: Component :: Lookup(live, c) == Lookup(was, c)
      ensures reliable ==> ok
    {
      assert forall c: Component :: Consistent(SlotOf(c));
      var venv := RestoreComponent(Venv, reliable);
      assert SlotOf(Launcher) == old(SlotOf(Launcher));
      var launcher := RestoreComponent(Launcher, reliable);
      assert SlotOf(Environment) == old(SlotOf(Environment));
      var environment := RestoreComponent(Environment, reliable);
      assert SlotOf(Plist) == old(SlotOf(Plist));
      var plist := RestoreComponent(Plist, reliable);
      ok := venv && launcher && environment && plist;
      forall c: Component ensures Kept(c) && (ok ==> Lookup(live, c) == Lookup(was, c)) {
        match c case Venv => case Launcher => case Environment => case Plist =>
      }
    }

    method StopCurrentDaemon(reliable: bool) returns (ok: bool)
      requires DaemonOk()
      modifies this`daemon
      ensures ok ==> daemon == if daemonStateMutated then UNLOADED else prior
      ensures daemon.running ==> daemon.loaded
      ensures reliable ==> ok
    {
      if !daemonStateMutated {
        return true;
      }
      ok := Command(reliable);                     // can the state be read?
      if ok && daemon.loaded {
        ok := Bootout(reliable);
      }
    }

    /** Loads the prior daemon again, stops it if it did not run, and looks at the result. */
    method RestoreDaemon(reliable: bool) returns (ok: bool)
      modifies this`daemon
      ensures !prior.loaded ==> ok && daemon == old(daemon)
      ensures ok && prior.loaded ==> daemon == prior
      ensures reliable && prior.loaded && old(daemon) == UNLOADED && Lookup(live, Plist) == Lookup(was, Plist)
                && Plist in was ==>
                (ok <==> Restartable()) && daemon == Daemon(true, prior.running && runsAtLoad(was[Plist]))
    {
      ok := true;
      if prior.loaded {
        ok := Bootstrap(reliable);
        if ok {
          ok := Command(reliable);                 // enable
        }
        if !prior.running {
          var stopped := Stop(reliable);
          ok := ok && stopped;
        }
        var readable := Command(reliable);
        if !readable || !daemon.loaded || daemon.running != prior.running {
          ok := false;
        }
      }
    }

    /**
      Success is reported only when the components and the daemon are as they
      were, and no prior component is lost either way.  When none of its commands
      fails, the components are restored, and success is reported except where the
      prior property list cannot restart a daemon that was running: then the
      daemon is left loaded and stopped.
     */
    method Rollback(reliable: bool) returns (ok: bool)
      requires Valid() && mutationStarted
      modifies this`live, this`backup, this`daemon
      ensures forall c: Component :: Kept(c)
      ensures ok ==> Restored()
      ensures reliable ==> forall c: Component :: Lookup(live, c) == Lookup(was, c)
      ensures reliable ==> (ok <==> Restartable())
      ensures reliable && !Restartable() ==> daemon == Daemon(true, false)
    {
      var stopped := StopCurrentDaemon(reliable);
      assert forall c: Component :: SlotOf(c) == old(SlotOf(c)) && Consistent(old(SlotOf(c)));
      var components := RestoreComponents(reliable);
      var daemonRestored := RestoreDaemon(reliable);
      ok := stopped && components && daemonRestored;
    }

    /** What the forward sequence leaves: the staged components, but for what the live check wrote. */
    ghost predicate Published(staged: Files, written: Files)
      reads this`live
    {
      forall c: Component ::
        c in live && c in staged && live[c] == if c in written then written[c] else staged[c]
    }

    /** The property list that the new daemon is started from. */
    function NewPlist(staged: Files, written: Files): Tree
      requires Plist in staged
    {
      if Plist in written then written[Plist] else staged[Plist]
    }

    /**
      Refuses exactly a loaded daemon without a property list.  If no command
      fails, it installs exactly when the new property list starts the daemon.
     */
    method Install(reliable: bool) returns (verdict: Verdict, written: Files)
      requires daemon == prior && live == was && (prior.running ==> prior.loaded)
      requires !mutationStarted && !daemonStateMutated && backupCompleted == {} && publicationCompleted == {}
      requires forall c: Component :: c in staged
      modifies this
      ensures forall c: Component :: Kept(c)
      ensures verdict == Refused <==> prior.loaded && Plist !in was
      ensures verdict == Refused ==> Restored()
      ensures verdict == RolledBack ==> Restored()
      ensures verdict == Installed ==> daemon == Daemon(true, true) && Published(old(staged), written)
      ensures verdict == Installed ==> runsAtLoad(NewPlist(old(staged), written))
      ensures faultless && verdict != Refused ==>
                (verdict == Installed <==> runsAtLoad(NewPlist(old(staged), written)))
      ensures reliable && verdict != Installed ==> forall c: Component :: Lookup(live, c) == Lookup(was, c)
      ensures reliable && (verdict == RolledBack || verdict == RollbackIncomplete) ==>
                (verdict == RolledBack <==> Restartable())
    {
      if prior.loaded && Plist !in live {
        return Refused, map[];
      }
      var ok;
      ok, written := Deploy();
      if ok {
        forall c: Component ensures Kept(c) {
          assert Consistent(SlotOf(c));
        }
        return Installed, written;
      }
      var complete := Rollback(reliable);
      verdict := if complete then RolledBack else RollbackIncomplete;
    }

    /** Everything after the staging, up to the first command that fails. */
    method Deploy() returns (ok: bool, written: Files)
      requires Valid() && !mutationStarted && !daemonStateMutated && backupCompleted == {} && publicationCompleted == {}
      requires forall c: Component :: c in staged
      modifies this
      ensures Valid() && mutationStarted
      ensures ok ==> daemon == Daemon(true, true) && forall c: Component :: c in publicationCompleted
      ensures ok ==> Published(old(staged), written) && runsAtLoad(NewPlist(old(staged), written))
      ensures faultless ==> (ok <==> runsAtLoad(NewPlist(old(staged), written)))
    {
      written := map[];
      ok := StopPriorDaemon();
      if !ok { return; }
      ok := Command(faultless);                        // the directories
      if !ok { return; }
      ok := BackUpAll();
      if !ok { return; }
      ok := PublishAll();
      if !ok { return; }
      ok := Command(faultless);                        // ownership and modes
      if !ok { return; }
      ok, written := Activate(old(staged));
    }

    /** The live check and the new daemon. */
    method Activate(ghost source: Files) returns (ok: bool, written: Files)
      requires Valid() && mutationStarted && forall c: Component :: c in publicationCompleted
      requires forall c: Component :: c in source && Lookup(live, c) == Lookup(source, c)
      modifies this`live, this`daemonStateMutated, this`daemon
      ensures Valid()
      ensures ok ==>
        daemon == Daemon(true, true) && Published(source, written) && runsAtLoad(NewPlist(source, written))
      ensures faultless && old(daemon) == UNLOADED ==> (ok <==> runsAtLoad(NewPlist(source, written)))
    {
      forall c: Component ensures c in live && live[c] == source[c] {
        assert Lookup(live, c) == Lookup(source, c);
      }
      ok, written := CheckLiveConfiguration();
      assert Published(source, written);
      if !ok { return; }
      ok := StartDaemon();
    }
  }

  /** A running daemon whose property list does not start it at load, an installation that stopped it,
  and a rollback in which every command works: the daemon stays stopped, and the rollback says so. */
  method StoppedDaemonIsReported(plist: Tree) returns (installer: MacInstaller, complete: bool)
    ensures !complete && fresh(installer) && installer.prior == Daemon(true, true)
    ensures installer.daemon == Daemon(true, false) && Lookup(installer.live, Plist) == Some(plist)
  {
    installer := new MacInstaller(map[Plist := plist], map[], Daemon(true, true), (t: Tree) => false, false);
    installer.mutationStarted, installer.daemonStateMutated, installer.daemon := true, true, UNLOADED;
    assert forall c: Component :: Consistent(installer.SlotOf(c));
    complete := installer.Rollback(true);
  }
}
