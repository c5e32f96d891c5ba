/** Statements about whole runs of the spool protocol. A run mixes the system calls of any number of
instances in any order; where one of them crashed shows only in which calls are missing. */
module SpoolRuns {
  import opened SpoolProtocol
  import opened Wrappers

  /** The state after a run whose last label is the last element. */
  function After(fs: FS, run: seq<Label>): FS
    requires CanRun(fs, run)
    decreases |run|, 1
  {
    if run == [] then fs else Apply(After(fs, run[..|run| - 1]), run[|run| - 1])
  }

  predicate CanRun(fs: FS, run: seq<Label>)
    decreases |run|, 0
  {
    run == [] ||
    (CanRun(fs, run[..|run| - 1]) && Enabled(After(fs, run[..|run| - 1]), run[|run| - 1]))
  }

  lemma {:induction false} RunKeepsInv(fs: FS, run: seq<Label>)
    requires Inv(fs) && CanRun(fs, run)
    ensures Inv(After(fs, run))
  {
    if run != [] {
      var before := run[..|run| - 1];
      RunKeepsInv(fs, before);
      StepKeepsInv(After(fs, before), run[|run| - 1]);
    }
  }

  /** Bookkeeping only grows and published bytes never change. */
  lemma StepKeepsRecord(fs: FS, l: Label, i: Ino)
    requires Inv(fs) && Enabled(fs, l) && i in fs.origin
    ensures var fs' := Apply(fs, l);
      i in fs'.origin && fs'.origin[i] == fs.origin[i]
      && i in fs.data && i in fs'.data && fs'.data[i] == fs.data[i]
      && i in fs.intended && i in fs'.intended && fs'.intended[i] == fs.intended[i]
  {
    assert Sound(fs, i);
  }

  /** No run loses a published record: its bytes never change, and unless it was acknowledged or
  evicted it has a name at which they are found: its own root name, alone or beside its staging name
  or one dead-letter name, or one dead-letter name alone. */
  lemma {:induction false} RecordNeverLost(fs: FS, run: seq<Label>, i: Ino)
    requires Inv(fs) && CanRun(fs, run) && i in fs.origin
    ensures var fs' := After(fs, run);
      && i in fs'.origin && fs'.origin[i] == fs.origin[i]
      && i in fs.data && i in fs'.data && i in fs'.intended
      && fs'.data[i] == fs.data[i] == fs'.intended[i]
      && (if i in fs'.retired then Departed(fs', i) else Placed(fs', i) && Names(fs', i) != {})
  {
    RunKeepsInv(fs, run);
    assert Sound(After(fs, run), i);
    assert Sound(fs, i);
    if run != [] {
      var before := run[..|run| - 1];
      RecordNeverLost(fs, before, i);
      RunKeepsInv(fs, before);
      StepKeepsRecord(After(fs, before), run[|run| - 1], i);
    }
  }

  // ---------------------------------------------------------------------------------------------
  // Rejecting converges
  // ---------------------------------------------------------------------------------------------

  /** The record has no dead-letter name. */
  ghost predicate Unmoved(fs: FS, i: Ino) {
    forall d :: DeadLetter(d) !in Names(fs, i)
  }

  /** A record that reached the dead-letter directory stays under that one name. */
  lemma StepKeepsDeadLetter(fs: FS, l: Label, i: Ino, d: Stem)
    requires Inv(fs) && Enabled(fs, l) && i in fs.origin && DeadLetter(d) in Names(fs, i)
    ensures DeadLetter(d) in Names(Apply(fs, l), i)
    ensures forall e :: DeadLetter(e) in Names(Apply(fs, l), i) ==> e == d
  {
    NamesAfter(fs, l, i);
    assert Sound(fs, i) && (i in fs.retired ==> Departed(fs, i)) && (i !in fs.retired ==> Placed(fs, i));
    match l
    case MoveLink(op) => NamesOf(fs, Pending(op.source));
    case MoveRename(op) => NamesOf(fs, Pending(op.source));
    case DropSource(op) => NamesOf(fs, Pending(op.source));
    case ForeignDelete(e) => NamesOf(fs, DeadLetter(e));
    case _ =>
  }

  /** The operation that gives record `i` a dead-letter name in this step. */
  function Moves(fs: FS, l: Label, i: Ino): Option<Op>
    requires Enabled(fs, l)
  {
    match l
    case MoveLink(op) => if fs.names[Pending(op.source)] == i then Some(op) else None
    case MoveRename(op) => if fs.names[Pending(op.source)] == i then Some(op) else None
    case _ => None
  }

  /** The operation that gave record `i` a dead-letter name in this run. */
  function Mover(fs: FS, run: seq<Label>, i: Ino): Option<Op>
    requires CanRun(fs, run)
  {
    if run == [] then None
    else
      var earlier := Mover(fs, run[..|run| - 1], i);
      if earlier.Some? then earlier else Moves(After(fs, run[..|run| - 1]), run[|run| - 1], i)
  }

  /** The step rewrites the marker of `op` although the record is already at a dead-letter name. */
  ghost predicate Overwrites(fs: FS, l: Label, op: Op, i: Ino) {
    l.Mark? && l.op == op && !l.marker.committed && !Unmoved(fs, i)
  }

  ghost predicate RunOverwrites(fs: FS, run: seq<Label>, op: Op, i: Ino)
    requires CanRun(fs, run)
  {
    run != [] &&
    (RunOverwrites(fs, run[..|run| - 1], op, i)
     || Overwrites(After(fs, run[..|run| - 1]), run[|run| - 1], op, i))
  }

  /** The marker of `op` tells a dead-letter name of the record. */
  ghost predicate Tells(fs: FS, op: Op, i: Ino) {
    op in fs.markers && DeadLetter(fs.markers[op].destination) in Names(fs, i)
  }

  ghost predicate DigestAgrees(fs: FS, op: Op, i: Ino) {
    op in fs.markers && i in fs.data && fs.markers[op].digest == Sha256(fs.data[i])
  }

  /** A record that has been moved: only an overwriting step makes its marker tell another name. */
  lemma TellsAfterMove(fs: FS, l: Label, op: Op, i: Ino)
    requires Inv(fs) && Enabled(fs, l) && i in fs.origin && !Unmoved(fs, i)
    ensures !Unmoved(Apply(fs, l), i) && Moves(fs, l, i) == None
    ensures Tells(Apply(fs, l), op, i) <==> Tells(fs, op, i) && !Overwrites(fs, l, op, i)
    ensures Tells(Apply(fs, l), op, i) && DigestAgrees(fs, op, i) ==> DigestAgrees(Apply(fs, l), op, i)
  {
    var d :| DeadLetter(d) in Names(fs, i);
    StepKeepsDeadLetter(fs, l, i, d);
    StepKeepsRecord(fs, l, i);
    NamesAfter(fs, l, i);
    assert Sound(fs, i) && (i in fs.retired ==> Departed(fs, i)) && (i !in fs.retired ==> Placed(fs, i));
    match l
    case MoveLink(other) => NamesOf(fs, Pending(other.source));
    case MoveRename(other) => NamesOf(fs, Pending(other.source));
    case _ =>
  }

  /** A record that has not been moved: only its own move makes a marker tell its name. */
  lemma TellsBeforeMove(fs: FS, l: Label, op: Op, i: Ino)
    requires Inv(fs) && Enabled(fs, l) && Unmoved(fs, i)
    requires i in Apply(fs, l).origin ==> Apply(fs, l).origin[i] == op.source
    requires i !in fs.foreign && !(l.ForeignCreate? && l.file == i)
    ensures !Tells(fs, op, i)
    ensures Tells(Apply(fs, l), op, i) <==> Moves(fs, l, i) == Some(op)
    ensures Unmoved(Apply(fs, l), i) <==> Moves(fs, l, i) == None
    ensures Moves(fs, l, i) == Some(op) ==> DigestAgrees(Apply(fs, l), op, i)
  {
    NamesAfter(fs, l, i);
    match l
    case MoveLink(other) => MoveTells(fs, l, other, op, i);
    case MoveRename(other) => MoveTells(fs, l, other, op, i);
    case _ =>
  }

  lemma MoveTells(fs: FS, l: Label, other: Op, op: Op, i: Ino)
    requires Inv(fs) && Enabled(fs, l) && (l == MoveLink(other) || l == MoveRename(other)) && Unmoved(fs, i)
    requires i in fs.origin ==> fs.origin[i] == op.source
    ensures Tells(Apply(fs, l), op, i) <==> Moves(fs, l, i) == Some(op)
    ensures Unmoved(Apply(fs, l), i) <==> Moves(fs, l, i) == None
    ensures Moves(fs, l, i) == Some(op) ==> DigestAgrees(Apply(fs, l), op, i)
  {
    var fs' := Apply(fs, l);
    NamesAfter(fs, l, i);
    if fs.names[Pending(other.source)] == i {
      PendingIsPublished(fs, other.source);
      var d := fs.markers[other].destination;
      assert DeadLetter(d) in Names(fs', i);
      if op != other && op in fs.markers {
        CandidatesDiffer(op, other, fs.markers[op].destination, d);
      }
    }
  }

  /** Every dead-letter name of the record is one that operation `op` may choose. */
  ghost predicate ChoseAll(fs: FS, op: Op, i: Ino) {
    forall d :: DeadLetter(d) in Names(fs, i) ==> IsCandidate(op, d)
  }

  lemma MovesToCandidate(fs: FS, l: Label, i: Ino)
    requires Inv(fs) && Enabled(fs, l) && Moves(fs, l, i).Some? && Unmoved(fs, i)
    ensures ChoseAll(Apply(fs, l), Moves(fs, l, i).value, i)
  {
    NamesAfter(fs, l, i);
  }

  /** What a run that starts before the move of record `i` says about markers: a marker tells the
  record's dead-letter name exactly if its operation moved the record and nobody has rewritten it
  since. Any number of crashes, retries and operations under either suffix may occur. */
  lemma MarkerTellsExactly(fs: FS, run: seq<Label>, op: Op, i: Ino)
    requires Inv(fs) && CanRun(fs, run) && Unmoved(fs, i)
    requires i in After(fs, run).origin && After(fs, run).origin[i] == op.source
    ensures Tells(After(fs, run), op, i) <==> Mover(fs, run, i) == Some(op) && !RunOverwrites(fs, run, op, i)
    ensures Tells(After(fs, run), op, i) ==> DigestAgrees(After(fs, run), op, i)
    ensures Unmoved(After(fs, run), i) <==> Mover(fs, run, i) == None
    ensures Mover(fs, run, i).Some? ==>
      Mover(fs, run, i).value.source == op.source && Mover(fs, run, i).value in After(fs, run).markers
    ensures Mover(fs, run, i).Some? ==> ChoseAll(After(fs, run), Mover(fs, run, i).value, i)
  {
    RunKeepsInv(fs, run);
    assert Sound(After(fs, run), i);
    TellsInAllRuns(fs, run, op, i);
  }

  /** The induction behind it, which also covers the time before the record is published. */
  lemma {:induction false} TellsInAllRuns(fs: FS, run: seq<Label>, op: Op, i: Ino)
    requires Inv(fs) && CanRun(fs, run) && Unmoved(fs, i)
    requires i !in After(fs, run).foreign
    requires i in After(fs, run).origin ==> After(fs, run).origin[i] == op.source
    ensures Tells(After(fs, run), op, i) <==> Mover(fs, run, i) == Some(op) && !RunOverwrites(fs, run, op, i)
    ensures Tells(After(fs, run), op, i) ==> DigestAgrees(After(fs, run), op, i)
    ensures Unmoved(After(fs, run), i) <==> Mover(fs, run, i) == None
    ensures Mover(fs, run, i).Some? ==>
      && i in After(fs, run).origin
      && Mover(fs, run, i).value.source == op.source && Mover(fs, run, i).value in After(fs, run).markers
    ensures Mover(fs, run, i).Some? ==> ChoseAll(After(fs, run), Mover(fs, run, i).value, i)
  {
    if run != [] {
      var before, l := run[..|run| - 1], run[|run| - 1];
      var mid := After(fs, before);
      RunKeepsInv(fs, before);
      StepOnlyGrows(mid, l);
      TellsInAllRuns(fs, before, op, i);
      if Unmoved(mid, i) {
        TellsBeforeMove(mid, l, op, i);
        OverwritesNothing(fs, before, op, i);
        if Moves(mid, l, i).Some? {
          PendingIsPublished(mid, Moves(mid, l, i).value.source);
          MovesToCandidate(mid, l, i);
        }
      } else {
        TellsAfterMove(mid, l, op, i);
        var d :| DeadLetter(d) in Names(mid, i);
        StepKeepsDeadLetter(mid, l, i, d);
      }
    }
  }

  /** Before the move there is nothing to overwrite. */
  lemma {:induction false} OverwritesNothing(fs: FS, run: seq<Label>, op: Op, i: Ino)
    requires Inv(fs) && CanRun(fs, run) && Unmoved(fs, i) && Unmoved(After(fs, run), i)
    requires i !in After(fs, run).foreign
    ensures !RunOverwrites(fs, run, op, i)
  {
    if run != [] {
      var before, l := run[..|run| - 1], run[|run| - 1];
      var mid := After(fs, before);
      RunKeepsInv(fs, before);
      StepOnlyGrows(mid, l);
      if !Unmoved(mid, i) {
        var d :| DeadLetter(d) in Names(mid, i);
        assert Sound(mid, i);
        StepKeepsDeadLetter(mid, l, i, d);
      }
      OverwritesNothing(fs, before, op, i);
    }
  }

  lemma StepOnlyGrows(fs: FS, l: Label)
    requires Inv(fs) && Enabled(fs, l)
    ensures forall i :: i in fs.origin ==> i in Apply(fs, l).origin && Apply(fs, l).origin[i] == fs.origin[i]
    ensures forall op :: op in fs.markers ==> op in Apply(fs, l).markers
    ensures fs.foreign <= Apply(fs, l).foreign
  {
  }

  /** Over any run whatsoever a record gains at most one dead-letter name and keeps it for ever. */
  lemma {:induction false} OneDeadLetterName(fs: FS, run: seq<Label>, i: Ino, d: Stem)
    requires Inv(fs) && CanRun(fs, run) && i in fs.origin && DeadLetter(d) in Names(fs, i)
    ensures i in After(fs, run).origin
    ensures DeadLetter(d) in Names(After(fs, run), i)
    ensures forall e :: DeadLetter(e) in Names(After(fs, run), i) ==> e == d
  {
    if run != [] {
      var before := run[..|run| - 1];
      RunKeepsInv(fs, before);
      OneDeadLetterName(fs, before, i, d);
      StepKeepsDeadLetter(After(fs, before), run[|run| - 1], i, d);
    } else {
      assert Sound(fs, i) && (i in fs.retired ==> Departed(fs, i)) && (i !in fs.retired ==> Placed(fs, i));
    }
  }

  // ---------------------------------------------------------------------------------------------
  // Acknowledging and evicting
  // ---------------------------------------------------------------------------------------------

  /** The step unlinks the root name of record `i` although the record has a dead-letter name: it was
  checked for an acknowledgement or an eviction before a move gave it that name. */
  ghost predicate Overtakes(fs: FS, l: Label, i: Ino) {
    l.Retire? && Pending(l.stem) in fs.names && fs.names[Pending(l.stem)] == i && !Unmoved(fs, i)
  }

  ghost predicate RunOvertakes(fs: FS, run: seq<Label>, i: Ino)
    requires CanRun(fs, run)
  {
    run != [] &&
    (RunOvertakes(fs, run[..|run| - 1], i) || Overtakes(After(fs, run[..|run| - 1]), run[|run| - 1], i))
  }

  /** A record is both acknowledged or evicted and a dead letter exactly if its check was overtaken by
  a move. */
  lemma {:induction false} RetiredDeadLetter(fs: FS, run: seq<Label>, i: Ino)
    requires Inv(fs) && CanRun(fs, run) && i in fs.origin && i !in fs.retired
    ensures i in After(fs, run).origin
    ensures i in After(fs, run).retired && !Unmoved(After(fs, run), i) <==> RunOvertakes(fs, run, i)
  {
    if run != [] {
      var before, l := run[..|run| - 1], run[|run| - 1];
      var mid := After(fs, before);
      RunKeepsInv(fs, before);
      RetiredDeadLetter(fs, before, i);
      RetiredDeadLetterStep(mid, l, i);
    }
  }

  lemma RetiredDeadLetterStep(fs: FS, l: Label, i: Ino)
    requires Inv(fs) && Enabled(fs, l) && i in fs.origin
    ensures i in Apply(fs, l).origin
    ensures (i in Apply(fs, l).retired && !Unmoved(Apply(fs, l), i)) <==>
            (i in fs.retired && !Unmoved(fs, i)) || Overtakes(fs, l, i)
  {
    NamesAfter(fs, l, i);
    assert Sound(fs, i) && (i in fs.retired ==> Departed(fs, i)) && (i !in fs.retired ==> Placed(fs, i));
    match l
    case Retire(s) => NamesOf(fs, Pending(s));
    case MoveLink(op) => NamesOf(fs, Pending(op.source));
    case MoveRename(op) => NamesOf(fs, Pending(op.source));
    case DropSource(op) => NamesOf(fs, Pending(op.source));
    case ForeignDelete(e) => NamesOf(fs, DeadLetter(e));
    case _ =>
  }

  /** Only a check made before the move can overtake it: a record that nobody has checked and that is
  half-moved or moved is never acknowledged or evicted. */
  lemma {:induction false} MovedIsNeverRetired(fs: FS, run: seq<Label>, i: Ino)
    requires Inv(fs) && CanRun(fs, run) && i in fs.origin && !Unmoved(fs, i)
    requires i !in fs.retired && i !in fs.doomed
    ensures i in After(fs, run).origin && i !in After(fs, run).retired && i !in After(fs, run).doomed
    ensures !Unmoved(After(fs, run), i)
  {
    if run != [] {
      var before, l := run[..|run| - 1], run[|run| - 1];
      var mid := After(fs, before);
      RunKeepsInv(fs, before);
      MovedIsNeverRetired(fs, before, i);
      var d :| DeadLetter(d) in Names(mid, i);
      StepKeepsDeadLetter(mid, l, i, d);
    }
  }

  /** Running one more call. */
  lemma Extend(fs: FS, run: seq<Label>, l: Label)
    requires CanRun(fs, run) && Enabled(After(fs, run), l)
    ensures CanRun(fs, run + [l]) && After(fs, run + [l]) == Apply(After(fs, run), l)
    ensures forall op, i :: RunOverwrites(fs, run + [l], op, i) <==>
                       RunOverwrites(fs, run, op, i) || Overwrites(After(fs, run), l, op, i)
  {
    assert (run + [l])[..|run + [l]| - 1] == run;
  }

  /** A run may be cut anywhere, for example where a process crashed. */
  lemma {:induction false} RunSplits(fs: FS, before: seq<Label>, after: seq<Label>)
    requires CanRun(fs, before + after)
    ensures CanRun(fs, before) && CanRun(After(fs, before), after)
    ensures After(After(fs, before), after) == After(fs, before + after)
  {
    if after == [] {
      assert before + after == before;
    } else {
      var init := after[..|after| - 1];
      assert (before + after)[..|before + after| - 1] == before + init;
      RunSplits(fs, before, init);
    }
  }

  /** A file somebody else put into the dead-letter directory keeps its name and its bytes over every
  run in which nobody else takes it away. */
  lemma {:induction false} ForeignFileKept(fs: FS, run: seq<Label>, d: Stem, i: Ino)
    requires Inv(fs) && CanRun(fs, run)
    requires DeadLetter(d) in fs.names && fs.names[DeadLetter(d)] == i && i in fs.foreign
    requires ForeignDelete(d) !in run
    ensures var fs' := After(fs, run);
      && DeadLetter(d) in fs'.names && fs'.names[DeadLetter(d)] == i && i in fs'.foreign
      && i in fs.data && i in fs'.data && fs'.data[i] == fs.data[i]
  {
    assert Sound(fs, i);
    if run != [] {
      var before, l := run[..|run| - 1], run[|run| - 1];
      ForeignFileKept(fs, before, d, i);
      RunKeepsInv(fs, before);
      var mid := After(fs, before);
      assert Sound(mid, i);
      match l
      case ForeignDelete(e) => assert l in run;
      case _ =>
    }
  }
}
