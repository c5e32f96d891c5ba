/** Where the dead-letter protocol falls short, and exactly when.

`_move_to_dead_letter` opens the source, then waits for its lock, and compares the source name with
the open file only after it has persisted a marker (src/monitor_agent/spool.py:372-376, 436-440,
464). If the process that held the lock died between its `link` and its commit, the waiter finds an
existing uncommitted destination and rewrites the marker: `Overwrites` in SpoolRuns is that step.

`_existing_rejection` looks at one marker only, and not at whether it was committed
(src/monitor_agent/spool.py:531-542): RejectionNamesTheRecord in Spool says when that is right.

`ack` and the retention pass look at the link count of a record before they unlink its name, without
a lock (src/monitor_agent/spool.py:142-143, 166-167, 177-178): RetiredDeadLetter in SpoolRuns says
when a record becomes a dead letter in between. */
module SpoolRaces {
  import opened SpoolProtocol
  import opened SpoolRuns
  import opened SpoolRecovery
  import opened Spool
  import opened Wrappers

  /** A record that has a root name and a dead-letter name, while no marker names the second. */
  ghost predicate Stranded(fs: FS, i: Ino, d: Stem) {
    && i in fs.origin && Names(fs, i) == {Pending(fs.origin[i]), DeadLetter(d)}
    && forall op :: op in fs.markers && op.source == fs.origin[i] ==> fs.markers[op].destination != d
  }

  /** A run that rewrites the marker of the move of a record leaves it stranded, if it left it with
  its root name. */
  lemma OverwritingStrands(fs: FS, run: seq<Label>, i: Ino, d: Stem)
    requires Inv(fs) && CanRun(fs, run) && Unmoved(fs, i) && i in After(fs, run).origin
    requires Names(After(fs, run), i) == {Pending(After(fs, run).origin[i]), DeadLetter(d)}
    ensures Stranded(After(fs, run), i, d) <==>
            Mover(fs, run, i).Some? && RunOverwrites(fs, run, Mover(fs, run, i).value, i)
  {
    var fs' := After(fs, run);
    assert DeadLetter(d) in Names(fs', i);
    forall op: Op | op.source == fs'.origin[i]
      ensures Tells(fs', op, i) <==> Mover(fs, run, i) == Some(op) && !RunOverwrites(fs, run, op, i)
      ensures Mover(fs, run, i).Some?
      ensures Mover(fs, run, i).value in fs'.markers && Mover(fs, run, i).value.source == op.source
      ensures Tells(fs', op, i) <==> op in fs'.markers && fs'.markers[op].destination == d
    {
      MarkerTellsExactly(fs, run, op, i);
    }
    MarkerTellsExactly(fs, run, Op(fs'.origin[i], REJECTED), i);
  }

  /** Only the unlink of an acknowledgement or eviction that was checked before the move can end it. */
  lemma StepKeepsStranded(fs: FS, l: Label, i: Ino, d: Stem)
    requires Inv(fs) && Enabled(fs, l) && Stranded(fs, i, d)
    ensures Stranded(Apply(fs, l), i, d) <==> !Overtakes(fs, l, i)
    ensures i !in fs.doomed ==> i !in Apply(fs, l).doomed && Stranded(Apply(fs, l), i, d)
  {
    NamesAfter(fs, l, i);
    StepKeepsRecord(fs, l, i);
    assert Sound(fs, i);
    assert DeadLetter(d) in Names(fs, i) && Pending(fs.origin[i]) in Names(fs, i);
    assert Names(fs, i) != {Pending(fs.origin[i])};
    match l
    case MoveLink(other) => NamesOf(fs, Pending(other.source));
    case MoveRename(other) => NamesOf(fs, Pending(other.source));
    case DropSource(other) => PendingIsPublished(fs, other.source);
    case Retire(s) => NamesOf(fs, Pending(s));
    case Check(s) => NamesOf(fs, Pending(s));
    case _ =>
  }

  /** A stranded record that nobody had checked before its move is lost to every reader for ever: no
  run of any processes, and no recovery, lists it as pending or counts it as a dead letter again. */
  lemma StrandedForEver(fs: FS, run: seq<Label>, i: Ino, d: Stem)
    requires Inv(fs) && CanRun(fs, run) && Stranded(fs, i, d) && i !in fs.doomed
    ensures var fs' := Recovered(After(fs, run), NOBODY);
      && Stranded(fs', i, d)
      && (forall p :: p in Listed(fs') || p in DeadLetters(fs') ==> fs'.names[p] != i)
  {
    RunKeepsInv(fs, run);
    StrandedRun(fs, run, i, d);
    StrandedIsInvisible(After(fs, run), i, d);
  }

  lemma {:induction false} StrandedRun(fs: FS, run: seq<Label>, i: Ino, d: Stem)
    requires Inv(fs) && CanRun(fs, run) && Stranded(fs, i, d) && i !in fs.doomed
    ensures Stranded(After(fs, run), i, d) && i !in After(fs, run).doomed
  {
    if run != [] {
      var before := run[..|run| - 1];
      RunKeepsInv(fs, before);
      StrandedRun(fs, before, i, d);
      StepKeepsStranded(After(fs, before), run[|run| - 1], i, d);
    }
  }

  lemma StrandedIsInvisible(fs: FS, i: Ino, d: Stem)
    requires Inv(fs) && Stranded(fs, i, d)
    ensures var fs' := Recovered(fs, NOBODY);
      && Stranded(fs', i, d)
      && (forall p :: p in Listed(fs') || p in DeadLetters(fs') ==> fs'.names[p] != i)
  {
    assert Sound(fs, i);
    assert DeadLetter(d) in Names(fs, i) && Pending(fs.origin[i]) in Names(fs, i);
    RecordRecovered(fs, NOBODY, i);
    forall op | op in fs.markers && op.source == fs.origin[i]
      ensures DeadLetter(fs.markers[op].destination) !in Names(fs, i)
    {
    }
  }

  // ---------------------------------------------------------------------------------------------
  // Runs of one record
  // ---------------------------------------------------------------------------------------------

  const EMPTY := FS(map[], map[], map[], map[], map[], {}, {}, {})
  const REJECT := Op("a", REJECTED)
  const QUARANTINE := Op("a", "")
  const CONTENT: Bytes := [7]

  /** One record, published under the name "a". */
  const ONE_RECORD :=
    FS(map[0 := CONTENT], map[Pending("a") := 0], map[], map[0 := CONTENT], map[0 := "a"], {}, {}, {})

  function Reserved(op: Op, n: nat): Label {
    Mark(op, Marker(Candidate(op, n), Sha256(CONTENT), false))
  }

  lemma PublishOne() returns (run: seq<Label>)
    ensures Inv(EMPTY) && CanRun(EMPTY, run) && After(EMPTY, run) == ONE_RECORD
  {
    forall i ensures Sound(EMPTY, i) {}
    run := [];
    Extend(EMPTY, run, Stage(0, CONTENT));
    run := run + [Stage(0, CONTENT)];
    var fs1 := EMPTY.(data := map[0 := []], names := map[Staged(0) := 0], intended := map[0 := CONTENT]);
    assert After(EMPTY, run) == fs1;
    Extend(EMPTY, run, Write(0, 1));
    run := run + [Write(0, 1)];
    var fs2 := fs1.(data := map[0 := CONTENT]);
    assert CONTENT[..1] == CONTENT;
    assert After(EMPTY, run) == fs2;
    assert Names(fs2, 0) == {Staged(0)};
    Extend(EMPTY, run, PublishRename(0, "a"));
    run := run + [PublishRename(0, "a")];
    assert After(EMPTY, run).names == ONE_RECORD.names;
  }

  lemma OneRecord()
    ensures Inv(ONE_RECORD) && Names(ONE_RECORD, 0) == {Pending("a")} && Unmoved(ONE_RECORD, 0)
  {
    var published := PublishOne();
    RunKeepsInv(EMPTY, published);
  }

  lemma CanReserve(op: Op, m: Marker)
    requires op.source == "a" && op.suffix in SUFFIXES && IsCandidate(op, m.destination)
    requires m.digest == Sha256(CONTENT) && !m.committed
    ensures Enabled(ONE_RECORD, Mark(op, m))
  {
    assert 0 in ONE_RECORD.origin;
  }

  /** A process reserves the first candidate of an operation on the record. */
  lemma ReserveFirst(op: Op) returns (run: seq<Label>)
    requires op == REJECT || op == QUARANTINE
    ensures Inv(ONE_RECORD) && run == [Reserved(op, 0)] && CanRun(ONE_RECORD, run)
    ensures After(ONE_RECORD, run) == ONE_RECORD.(markers := map[op := Reserved(op, 0).marker])
    ensures Names(After(ONE_RECORD, run), 0) == {Pending("a")}
  {
    OneRecord();
    CanonicalIsCandidate(op);
    var m := Reserved(op, 0).marker;
    CanReserve(op, m);
    run := FirstCall(op, m);
  }

  lemma FirstCall(op: Op, m: Marker) returns (run: seq<Label>)
    requires Enabled(ONE_RECORD, Mark(op, m)) && Names(ONE_RECORD, 0) == {Pending("a")}
    ensures run == [Mark(op, m)] && CanRun(ONE_RECORD, run)
    ensures After(ONE_RECORD, run) == ONE_RECORD.(markers := map[op := m])
    ensures Names(After(ONE_RECORD, run), 0) == {Pending("a")}
  {
    assert CanRun(ONE_RECORD, []);
    Extend(ONE_RECORD, [], Mark(op, m));
    run := [Mark(op, m)];
    assert [] + run == run;
    assert Names(After(ONE_RECORD, run), 0) == Names(ONE_RECORD, 0);
  }

  /** The two-instance run that strands the record: one instance starts to reject it and dies after its
  `link`; the other, which opened the source before, turns to the next candidate. */
  lemma StrandedIsReachable() returns (run: seq<Label>)
    ensures Inv(ONE_RECORD) && CanRun(ONE_RECORD, run)
    ensures Stranded(After(ONE_RECORD, run), 0, Candidate(REJECT, 0))
    ensures Mover(ONE_RECORD, run, 0) == Some(REJECT) && RunOverwrites(ONE_RECORD, run, REJECT, 0)
    ensures 0 !in After(ONE_RECORD, run).doomed
  {
    run := ReserveFirst(REJECT);
    var fs1 := After(ONE_RECORD, run);
    Extend(ONE_RECORD, run, MoveLink(REJECT));
    MoverOfMore(ONE_RECORD, run, MoveLink(REJECT), 0);
    run := run + [MoveLink(REJECT)];
    var fs2 := fs1.(names := map[Pending("a") := 0, DeadLetter(Candidate(REJECT, 0)) := 0]);
    assert After(ONE_RECORD, run) == fs2;
    assert DeadLetter(Candidate(REJECT, 0)) in Names(fs2, 0);
    NextCandidate();
    assert 0 in fs2.origin;
    Extend(ONE_RECORD, run, Reserved(REJECT, 1));
    MoverOfMore(ONE_RECORD, run, Reserved(REJECT, 1), 0);
    run := run + [Reserved(REJECT, 1)];
    assert Names(After(ONE_RECORD, run), 0) == {Pending("a"), DeadLetter(Candidate(REJECT, 0))};
  }

  lemma NextCandidate()
    ensures IsCandidate(REJECT, Candidate(REJECT, 1)) && Candidate(REJECT, 1) != Candidate(REJECT, 0)
  {
    assert |Candidate(REJECT, 1)| > |Candidate(REJECT, 0)|;
  }

  lemma MoverOfMore(fs: FS, run: seq<Label>, l: Label, i: Ino)
    requires CanRun(fs, run) && Enabled(After(fs, run), l) && CanRun(fs, run + [l])
    ensures Mover(fs, run + [l], i) ==
            if Mover(fs, run, i).Some? then Mover(fs, run, i) else Moves(After(fs, run), l, i)
  {
    assert (run + [l])[..|run + [l]| - 1] == run;
  }

  /** One process, no crash: `load` quarantines the record; `reject` then answers with a name at which
  there is nothing, while the record is elsewhere. */
  lemma QuarantineIsNotFound() returns (run: seq<Label>)
    ensures Inv(ONE_RECORD) && CanRun(ONE_RECORD, run)
    ensures var fs := After(ONE_RECORD, run);
      && Names(fs, 0) == {DeadLetter(Candidate(QUARANTINE, 0))}
      && QUARANTINE in fs.markers && fs.markers[QUARANTINE].committed
      && ExistingRejection(fs, "a") == Ok(Candidate(REJECT, 0))
      && DeadLetter(Candidate(REJECT, 0)) !in fs.names
  {
    run := ReserveFirst(QUARANTINE);
    var d := DeadLetter(Candidate(QUARANTINE, 0));
    var fs1 := After(ONE_RECORD, run);
    Extend(ONE_RECORD, run, MoveRename(QUARANTINE));
    run := run + [MoveRename(QUARANTINE)];
    var fs2 := fs1.(names := map[d := 0]);
    assert After(ONE_RECORD, run).names == fs2.names;
    assert Names(fs2, 0) == {d};
    var commit := Mark(QUARANTINE, Reserved(QUARANTINE, 0).marker.(committed := true));
    Extend(ONE_RECORD, run, commit);
    run := run + [commit];
    var fs3 := After(ONE_RECORD, run);
    assert fs3.names == fs2.names && Names(fs3, 0) == {d};
    CanonicalIsCandidate(REJECT);
    CanonicalIsCandidate(QUARANTINE);
    CandidatesDiffer(REJECT, QUARANTINE, Candidate(REJECT, 0), Candidate(QUARANTINE, 0));
  }

  /** A process dies after it persisted the marker, the record is evicted, and somebody puts the same
  bytes at the destination: `reject` answers with that file. */
  lemma ForeignFileIsTaken() returns (run: seq<Label>)
    ensures Inv(ONE_RECORD) && CanRun(ONE_RECORD, run)
    ensures var fs := After(ONE_RECORD, run); var d := Candidate(REJECT, 0);
      && 0 in fs.retired && Names(fs, 0) == {}
      && REJECT in fs.markers && !fs.markers[REJECT].committed
      && DeadLetter(d) in fs.names && fs.names[DeadLetter(d)] in fs.foreign
      && ExistingRejection(fs, "a") == Ok(d)
  {
    run := ReserveFirst(REJECT);
    var m := Reserved(REJECT, 0).marker;
    run := EvictReserved(run, REJECT, m);
    run := TakeDestination(run, REJECT, m);
  }

  lemma Evicting(fs: FS, stem: Stem)
    requires fs.names == map[Pending(stem) := 0] && fs.doomed == {} && fs.retired == {}
    ensures Enabled(fs, Check(stem)) && Enabled(Apply(fs, Check(stem)), Retire(stem))
    ensures Apply(Apply(fs, Check(stem)), Retire(stem)) == fs.(names := map[], doomed := {0}, retired := {0})
  {
    assert Names(fs, 0) == {Pending(stem)};
    assert fs.names - {Pending(stem)} == map[];
  }

  lemma EvictReserved(before: seq<Label>, op: Op, m: Marker) returns (run: seq<Label>)
    requires CanRun(ONE_RECORD, before) && After(ONE_RECORD, before) == ONE_RECORD.(markers := map[op := m])
    ensures CanRun(ONE_RECORD, run)
    ensures After(ONE_RECORD, run) ==
            ONE_RECORD.(markers := map[op := m], names := map[], doomed := {0}, retired := {0})
  {
    var fs := ONE_RECORD.(markers := map[op := m]);
    Evicting(fs, "a");
    Extend(ONE_RECORD, before, Check("a"));
    Extend(ONE_RECORD, before + [Check("a")], Retire("a"));
    run := before + [Check("a")] + [Retire("a")];
  }

  lemma TakeDestination(before: seq<Label>, op: Op, m: Marker) returns (run: seq<Label>)
    requires CanRun(ONE_RECORD, before) && op.source == "a" && op.suffix == REJECTED
    requires After(ONE_RECORD, before) ==
             ONE_RECORD.(markers := map[op := m], names := map[], doomed := {0}, retired := {0})
    requires m.digest == Sha256(CONTENT)
    ensures CanRun(ONE_RECORD, run)
    ensures var fs, d := After(ONE_RECORD, run), DeadLetter(m.destination);
      && fs.retired == {0} && fs.markers == map[op := m] && Names(fs, 0) == {}
      && d in fs.names && fs.names[d] in fs.foreign
      && ExistingRejection(fs, "a") == Ok(m.destination)
  {
    run := before;
    var l := ForeignCreate(1, m.destination, CONTENT);
    Extend(ONE_RECORD, run, l);
    run := run + [l];
    var fs := After(ONE_RECORD, run);
    assert fs.names == map[DeadLetter(m.destination) := 1];
    assert Names(fs, 1) == {DeadLetter(m.destination)} && Names(fs, 0) == {};
  }

  /** An eviction that looked at the record before a `reject` linked it, and unlinks its name after:
  the record is evicted and a dead letter. */
  lemma EvictedDeadLetter() returns (run: seq<Label>)
    ensures Inv(ONE_RECORD) && CanRun(ONE_RECORD, run) && RunOvertakes(ONE_RECORD, run, 0)
    ensures var fs := After(ONE_RECORD, run);
      && 0 in fs.retired && Names(fs, 0) == {DeadLetter(Candidate(REJECT, 0))}
      && REJECT in fs.markers && !fs.markers[REJECT].committed
  {
    run := ReserveFirst(REJECT);
    var d := DeadLetter(Candidate(REJECT, 0));
    var fs1 := After(ONE_RECORD, run);
    Extend(ONE_RECORD, run, Check("a"));
    run := run + [Check("a")];
    var fs2 := After(ONE_RECORD, run);
    assert Names(fs2, 0) == Names(fs1, 0);
    Extend(ONE_RECORD, run, MoveLink(REJECT));
    run := run + [MoveLink(REJECT)];
    var fs3 := After(ONE_RECORD, run);
    assert fs3.names == map[Pending("a") := 0, d := 0];
    assert d in Names(fs3, 0);
    Extend(ONE_RECORD, run, Retire("a"));
    assert (run + [Retire("a")])[..|run + [Retire("a")]| - 1] == run;
    run := run + [Retire("a")];
    assert After(ONE_RECORD, run).names == map[d := 0];
  }
}
