/** The directory as an object that spool instances change one system call at a time, while other
processes do the same in between. */
module SharedDirectory {
  import opened SpoolProtocol
  import opened SpoolRuns
  import opened Wrappers

  /** Labels another process cannot issue while this instance holds the lock of source `s`, the lock
  of the operations on it, and the reservation of dead-letter name `d`. Acknowledging and evicting
  take none of these locks, so both stay possible. */
  predicate Spares(fs: FS, l: Label, s: Stem, d: Option<Stem>) {
    match l
    case PublishLink(_, t) => t != s
    case PublishRename(_, t) => t != s
    case Mark(op, _) => op.source != s
    case MoveLink(op) => op.source != s && (op in fs.markers ==> d != Some(fs.markers[op].destination))
    case MoveRename(op) => op.source != s && (op in fs.markers ==> d != Some(fs.markers[op].destination))
    case DropSource(op) => op.source != s
    case _ => true
  }

  /** Labels that change which dead-letter names exist. */
  predicate Disturbs(l: Label) {
    l.MoveLink? || l.MoveRename? || l.ForeignCreate? || l.ForeignDelete?
  }

  /** What a stretch of spared interference may have done to record `i`, published under `s`. */
  ghost predicate Spared(a: FS, b: FS, s: Stem, i: Ino, d: Option<Stem>) {
    && i in a.origin && i in b.origin && b.origin[i] == a.origin[i] == s
    && i in a.data && i in b.data && b.data[i] == a.data[i]
    && (forall op: Op :: op.source == s ==>
          (op in b.markers <==> op in a.markers) && (op in a.markers ==> b.markers[op] == a.markers[op]))
    && RecordUntouched(a, b, s, i)
    && (d.Some? && DeadLetter(d.value) in b.names ==>
          b.names[DeadLetter(d.value)] in b.foreign ||
          (DeadLetter(d.value) in a.names && b.names[DeadLetter(d.value)] == a.names[DeadLetter(d.value)]))
    && a.foreign <= b.foreign
  }

  /** The record has the names it had, or all but its root name, which an acknowledgement or eviction
  took; its root name was not reused. */
  ghost predicate RecordUntouched(a: FS, b: FS, s: Stem, i: Ino) {
    && (|| (Names(b, i) == Names(a, i) && (i in b.retired <==> i in a.retired))
        || (Pending(s) in Names(a, i) && Names(b, i) == Names(a, i) - {Pending(s)}
            && i in b.retired && i !in a.retired))
    && (Pending(s) in b.names ==> Pending(s) in a.names && b.names[Pending(s)] == a.names[Pending(s)])
  }

  lemma SparedStep(fs: FS, l: Label, s: Stem, i: Ino, d: Option<Stem>)
    requires Inv(fs) && Enabled(fs, l) && Spares(fs, l, s, d)
    requires i in fs.origin && fs.origin[i] == s && Staged(i) !in Names(fs, i)
    ensures Spared(fs, Apply(fs, l), s, i, d)
  {
    UntouchedStep(fs, l, s, i, d);
    StepKeepsRecord(fs, l, i);
  }

  lemma UntouchedStep(fs: FS, l: Label, s: Stem, i: Ino, d: Option<Stem>)
    requires Inv(fs) && Enabled(fs, l) && Spares(fs, l, s, d)
    requires i in fs.origin && fs.origin[i] == s && Staged(i) !in Names(fs, i)
    ensures RecordUntouched(fs, Apply(fs, l), s, i)
  {
    NamesAfter(fs, l, i);
    assert Sound(fs, i);
    match l
    case Retire(t) => NamesOf(fs, Pending(t));
    case MoveLink(op) => PendingIsPublished(fs, op.source);
    case MoveRename(op) => PendingIsPublished(fs, op.source);
    case DropSource(op) => PendingIsPublished(fs, op.source);
    case ForeignDelete(e) => NamesOf(fs, DeadLetter(e));
    case _ =>
  }

  lemma SparedTwice(a: FS, b: FS, c: FS, s: Stem, i: Ino, d: Option<Stem>)
    requires Spared(a, b, s, i, d) && Spared(b, c, s, i, d)
    requires Inv(b) && Inv(c)
    ensures Spared(a, c, s, i, d)
  {
    assert Sound(b, i) && Sound(c, i);
  }

  /** The same dead-letter names exist. */
  ghost predicate SameDeadNames(a: FS, b: FS) {
    forall d :: DeadLetter(d) in b.names <==> DeadLetter(d) in a.names
  }

  lemma UndisturbedStep(fs: FS, l: Label)
    requires Inv(fs) && Enabled(fs, l) && !Disturbs(l)
    ensures SameDeadNames(fs, Apply(fs, l))
  {
  }

  /** Calls only the owner of staged file `i` makes; the module Interleaving shows why. */
  predicate TouchesStage(l: Label, i: Ino) {
    match l
    case Stage(j, _) => j == i
    case Write(j, _) => j == i
    case PublishLink(j, _) => j == i
    case PublishRename(j, _) => j == i
    case DropStaged(j) => j == i
    case _ => false
  }

  ghost predicate SameStage(a: FS, b: FS, i: Ino) {
    && i in a.intended && i in b.intended && b.intended[i] == a.intended[i]
    && i in a.data && i in b.data && b.data[i] == a.data[i]
    && i !in b.origin && Names(b, i) == Names(a, i)
  }

  lemma StageUntouched(fs: FS, l: Label, i: Ino)
    requires Inv(fs) && Enabled(fs, l) && !TouchesStage(l, i) && i in fs.intended && i !in fs.origin
    ensures SameStage(fs, Apply(fs, l), i)
  {
    NamesAfter(fs, l, i);
    assert Sound(fs, i);
    match l
    case Retire(s) => PendingIsPublished(fs, s);
    case MoveLink(op) => PendingIsPublished(fs, op.source);
    case MoveRename(op) => PendingIsPublished(fs, op.source);
    case DropSource(op) => PendingIsPublished(fs, op.source);
    case ForeignDelete(d) => NamesOf(fs, DeadLetter(d));
    case _ =>
  }

  /** A published file that still has its staging name. */
  ghost predicate SamePublished(a: FS, b: FS, i: Ino, s: Stem) {
    && i in a.origin && i in b.origin && b.origin[i] == a.origin[i] == s
    && i in a.intended && i in b.intended && b.intended[i] == a.intended[i]
    && Names(b, i) == Names(a, i) == {Staged(i), Pending(s)}
  }

  lemma PublishedUntouched(fs: FS, l: Label, i: Ino, s: Stem)
    requires Inv(fs) && Enabled(fs, l) && !TouchesStage(l, i)
    requires i in fs.origin && fs.origin[i] == s && Names(fs, i) == {Staged(i), Pending(s)}
    ensures SamePublished(fs, Apply(fs, l), i, s)
  {
    NamesAfter(fs, l, i);
    StepKeepsRecord(fs, l, i);
    assert Sound(fs, i) && Staged(i) in Names(fs, i);
    match l
    case Retire(t) => NamesOf(fs, Pending(t));
    case MoveLink(op) => PendingIsPublished(fs, op.source);
    case MoveRename(op) => PendingIsPublished(fs, op.source);
    case DropSource(op) => NamesOf(fs, Pending(op.source));
    case ForeignDelete(d) => NamesOf(fs, DeadLetter(d));
    case _ =>
  }

  /** No process rewrote a marker of source `s` after its record was moved. */
  ghost predicate NoNewOverwrite(start: FS, before: seq<Label>, after: seq<Label>, s: Stem, i: Ino)
    requires CanRun(start, before) && CanRun(start, after)
  {
    forall op: Op :: op.source == s ==>
      (RunOverwrites(start, after, op, i) <==> RunOverwrites(start, before, op, i))
  }

  predicate Publishes(l: Label, s: Stem) {
    (l.PublishLink? || l.PublishRename?) && l.stem == s
  }

  lemma NameNotReused(fs: FS, l: Label, s: Stem)
    requires Enabled(fs, l) && !Publishes(l, s)
    ensures Pending(s) in Apply(fs, l).names ==>
      Pending(s) in fs.names && Apply(fs, l).names[Pending(s)] == fs.names[Pending(s)]
  {
  }

  /** A published record without a staging name, whatever any process does next. */
  lemma RecordStays(fs: FS, l: Label, i: Ino)
    requires Inv(fs) && Enabled(fs, l) && i in fs.origin && Staged(i) !in Names(fs, i)
    ensures var fs' := Apply(fs, l);
      && i in fs'.origin && fs'.origin[i] == fs.origin[i] && Staged(i) !in Names(fs', i)
      && i in fs.data && i in fs'.data && fs'.data[i] == fs.data[i]
      && fs.doomed <= fs'.doomed
  {
    NamesAfter(fs, l, i);
    StepKeepsRecord(fs, l, i);
  }

  class Directory {
    var fs: FS
    /** The guard files and the locks of files that other live processes hold. */
    const elsewhere: set<nat>
    const locked: set<Ino>
    /** No other process acts on this directory, so what is held elsewhere stays held. */
    const quiet: bool
    /** No system call fails but for what the directory and the locks say. */
    const reliable: bool
    /** The calls issued so far, by everybody. */
    ghost const start: FS
    ghost var run: seq<Label>
    /** How many more times other processes will create or delete a dead-letter name. */
    var interference: nat

    ghost predicate Valid()
      reads this
    {
      Inv(start) && CanRun(start, run) && fs == After(start, run) && Inv(fs)
    }

    constructor (fs: FS, elsewhere: set<nat>, locked: set<Ino>, quiet: bool, reliable: bool, interference: nat)
      requires Inv(fs)
      ensures Valid() && this.fs == fs && this.start == fs && run == []
      ensures this.elsewhere == elsewhere && this.locked == locked
      ensures this.quiet == quiet && this.reliable == reliable && this.interference == interference
    {
      this.fs, this.start, this.run := fs, fs, [];
      this.elsewhere, this.locked, this.quiet, this.reliable := elsewhere, locked, quiet, reliable;
      this.interference := interference;
    }

    /** One system call. */
    method Do(l: Label)
      requires Valid() && Enabled(fs, l)
      modifies this`fs, this`run
      ensures Valid() && fs == Apply(old(fs), l) && run == old(run) + [l]
      ensures forall op, i :: RunOverwrites(start, run, op, i) <==>
                RunOverwrites(start, old(run), op, i) || Overwrites(old(fs), l, op, i)
    {
      StepKeepsInv(fs, l);
      Extend(start, run, l);
      fs := Apply(fs, l);
      run := run + [l];
    }

    /** Another process issues one call while this instance holds the locks of source `s`. */
    method OtherCall(s: Stem, d: Option<Stem>, ghost i: Ino)
      requires Valid() && i in fs.origin && fs.origin[i] == s && Staged(i) !in Names(fs, i)
      modifies this
      ensures Valid() && old(run) <= run && old(fs.markers).Keys <= fs.markers.Keys
      ensures Spared(old(fs), fs, s, i, d)
      ensures NoNewOverwrite(start, old(run), run, s, i)
      ensures interference <= old(interference)
      ensures interference == old(interference) ==> SameDeadNames(old(fs), fs)
    {
      assert Enabled(fs, Skip) && Spares(fs, Skip, s, d);
      var l: Label :| Enabled(fs, l) && Spares(fs, l, s, d) && (Disturbs(l) ==> interference > 0);
      SparedStep(fs, l, s, i, d);
      StepOnlyGrows(fs, l);
      if Disturbs(l) {
        interference := interference - 1;
      } else {
        UndisturbedStep(fs, l);
      }
      Do(l);
    }

    /** Other processes act while this instance holds the locks of source `s`. */
    method Others(s: Stem, d: Option<Stem>, ghost i: Ino)
      requires Valid() && i in fs.origin && fs.origin[i] == s && Staged(i) !in Names(fs, i)
      modifies this
      ensures Valid() && old(run) <= run && (quiet ==> run == old(run) && fs == old(fs))
      ensures old(fs.markers).Keys <= fs.markers.Keys
      ensures Spared(old(fs), fs, s, i, d)
      ensures NoNewOverwrite(start, old(run), run, s, i)
      ensures interference <= old(interference)
      ensures interference == old(interference) ==> SameDeadNames(old(fs), fs)
    {
      SparedStep(fs, Skip, s, i, d);
      var steps: nat := *;
      while steps > 0 && !quiet
        invariant Valid() && old(run) <= run && (quiet ==> run == old(run) && fs == old(fs))
        invariant old(fs.markers).Keys <= fs.markers.Keys
        invariant Spared(old(fs), fs, s, i, d)
        invariant NoNewOverwrite(start, old(run), run, s, i)
        invariant interference <= old(interference)
        invariant interference == old(interference) ==> SameDeadNames(old(fs), fs)
      {
        ghost var mid := fs;
        OtherCall(s, d, i);
        SparedTwice(old(fs), mid, fs, s, i, d);
        steps := steps - 1;
      }
    }

    /** Other processes act while this instance holds nothing. */
    method OthersFreely()
      requires Valid()
      modifies this
      ensures Valid() && old(run) <= run && (quiet ==> run == old(run) && fs == old(fs))
      ensures old(fs.markers).Keys <= fs.markers.Keys
    {
      var steps: nat := *;
      while steps > 0 && !quiet
        invariant Valid() && old(run) <= run && (quiet ==> run == old(run) && fs == old(fs))
        invariant old(fs.markers).Keys <= fs.markers.Keys
      {
        assert Enabled(fs, Skip);
        var l: Label :| Enabled(fs, l) && (Disturbs(l) ==> interference > 0);
        if Disturbs(l) { interference := interference - 1; }
        StepOnlyGrows(fs, l);
        Do(l);
        steps := steps - 1;
      }
    }

    /** Other processes act while this instance holds no lock but knows a record; unless `reuse`, they
    publish nothing under its name. */
    method OthersUnhindered(s: Stem, reuse: bool, ghost i: Ino)
      requires Valid() && i in fs.origin && fs.origin[i] == s && Staged(i) !in Names(fs, i)
      requires !reuse && Pending(s) in fs.names ==> fs.names[Pending(s)] == i
      modifies this
      ensures !reuse && Pending(s) in fs.names ==> fs.names[Pending(s)] == i
      ensures old(fs.doomed) <= fs.doomed
      ensures Valid() && old(run) <= run && (quiet ==> run == old(run))
      ensures i in fs.origin && fs.origin[i] == s && Staged(i) !in Names(fs, i)
      ensures i in old(fs.data) && i in fs.data && fs.data[i] == old(fs.data[i])
    {
      StepKeepsRecord(fs, Skip, i);
      var steps: nat := *;
      while steps > 0 && !quiet
        invariant Valid() && old(run) <= run && (quiet ==> run == old(run))
        invariant !reuse && Pending(s) in fs.names ==> fs.names[Pending(s)] == i
        invariant old(fs.doomed) <= fs.doomed
        invariant i in fs.origin && fs.origin[i] == s && Staged(i) !in Names(fs, i)
        invariant i in old(fs.data) && i in fs.data && fs.data[i] == old(fs.data[i])
      {
        assert Enabled(fs, Skip);
        var l: Label :| Enabled(fs, l) && (Disturbs(l) ==> interference > 0) && (reuse || !Publishes(l, s));
        RecordStays(fs, l, i);
        if !reuse { NameNotReused(fs, l, s); }
        if Disturbs(l) { interference := interference - 1; }
        Do(l);
        steps := steps - 1;
      }
    }

    /** Other processes act while this instance owns staged file `i`. */
    method OthersBesides(i: Ino)
      requires Valid() && i in fs.intended && i !in fs.origin
      modifies this
      ensures Valid() && old(run) <= run && (quiet ==> run == old(run))
      ensures SameStage(old(fs), fs, i)
    {
      StageUntouched(fs, Skip, i);
      var steps: nat := *;
      while steps > 0 && !quiet
        invariant Valid() && old(run) <= run && (quiet ==> run == old(run))
        invariant SameStage(old(fs), fs, i)
      {
        assert Enabled(fs, Skip) && !TouchesStage(Skip, i);
        var l: Label :| Enabled(fs, l) && !TouchesStage(l, i);
        StageUntouched(fs, l, i);
        Do(l);
        steps := steps - 1;
      }
    }

    /** Other processes act between the link and the unlink that publish staged file `i`. */
    method OthersBesidePublished(i: Ino, ghost s: Stem)
      requires Valid() && i in fs.origin && fs.origin[i] == s && Names(fs, i) == {Staged(i), Pending(s)}
      modifies this
      ensures Valid() && old(run) <= run && (quiet ==> run == old(run))
      ensures SamePublished(old(fs), fs, i, s)
    {
      PublishedUntouched(fs, Skip, i, s);
      var steps: nat := *;
      while steps > 0 && !quiet
        invariant Valid() && old(run) <= run && (quiet ==> run == old(run))
        invariant SamePublished(old(fs), fs, i, s)
      {
        assert Enabled(fs, Skip) && !TouchesStage(Skip, i);
        var l: Label :| Enabled(fs, l) && !TouchesStage(l, i);
        PublishedUntouched(fs, l, i, s);
        Do(l);
        steps := steps - 1;
      }
    }
  }
}
