/** The spool's public operations as methods over a shared directory (src/monitor_agent/spool.py). */
module Spool {
  import opened SpoolProtocol
  import opened SpoolRuns
  import opened SpoolRecovery
  import opened SharedDirectory
  import opened Guards
  import opened Wrappers

  datatype Failure = Io | InProgress | NotPending | MarkerMismatch | SourceChanged | Exhausted

  datatype Result<T> = Ok(value: T) | Err(failure: Failure)

  /** How publishing one name onto another ended; `Collision` is FileExistsError. */
  datatype Attempt = Published | Collision | Failed(failure: Failure)

  /** What own and other calls since `a` left of record `i`, apart from the markers of its source. */
  ghost predicate Kept(a: FS, b: FS, s: Stem, i: Ino) {
    && i in a.origin && i in b.origin && b.origin[i] == a.origin[i] == s
    && i in a.data && i in b.data && b.data[i] == a.data[i]
    && RecordUntouched(a, b, s, i)
  }

  lemma KeptTwice(a: FS, b: FS, c: FS, s: Stem, i: Ino)
    requires Kept(a, b, s, i) && Kept(b, c, s, i)
    ensures Kept(a, c, s, i)
  {
  }

  /** `_destination_matches_digest`: an ordinary file of link count one with these contents. */
  predicate DestinationMatches(fs: FS, d: Stem, digest: Digest) {
    SoleName(fs, DeadLetter(d)) && fs.names[DeadLetter(d)] in fs.data
    && Sha256(fs.data[fs.names[DeadLetter(d)]]) == digest
  }

  /** The record and the marker of its move, between two rounds of the dead-letter loop. */
  ghost predicate RecordReady(fs: FS, op: Op, i: Ino, digest: Digest, destination: Stem) {
    && i in fs.origin && fs.origin[i] == op.source && Staged(i) !in Names(fs, i)
    && i in fs.data && digest == Sha256(fs.data[i])
    && op in fs.markers && fs.markers[op].destination == destination && fs.markers[op].digest == digest
  }

  lemma ReadyLater(a: FS, b: FS, op: Op, i: Ino, digest: Digest, destination: Stem, d: Option<Stem>)
    requires RecordReady(a, op, i, digest, destination) && Spared(a, b, op.source, i, d)
    ensures RecordReady(b, op, i, digest, destination) && b.markers[op] == a.markers[op]
    ensures Kept(a, b, op.source, i)
  {
  }

  function Verdict(r: Attempt, destination: Stem): Result<Stem>
    requires r != Collision
  {
    match r
    case Published => Ok(destination)
    case Failed(f) => Err(f)
  }

  /** How a dead-letter move ends, from the state in which the source lock was granted. Success means
  that the record is under the one name the committed marker tells, or that the marker had been
  committed before and names a file of the same bytes, the source being left alone. Failure leaves
  the record where it was, or at the destination its marker tells, possibly with its root name. */
  ghost predicate Settled(a: FS, b: FS, op: Op, i: Ino, r: Result<Stem>) {
    && i in a.origin && i in b.origin && a.origin[i] == b.origin[i] == op.source
    && i in a.data && i in b.data && b.data[i] == a.data[i]
    && match r
       case Ok(d) =>
         && op in b.markers && b.markers[op].committed && b.markers[op].destination == d
         && b.markers[op].digest == Sha256(a.data[i]) && DeadLetter(d) in b.names
         && (|| (Names(a, i) == {Pending(op.source)} && Names(b, i) == {DeadLetter(d)})
             || (RecordUntouched(a, b, op.source, i) && op in a.markers && a.markers[op] == b.markers[op]
                 && DestinationMatches(b, d, Sha256(a.data[i]))))
       case Err(_) =>
         || RecordUntouched(a, b, op.source, i)
         || (op in b.markers && Names(a, i) == {Pending(op.source)}
             && (|| Names(b, i) == {Pending(op.source), DeadLetter(b.markers[op].destination)}
                 || Names(b, i) == {DeadLetter(b.markers[op].destination)}))
  }

  lemma SettledLater(a: FS, b: FS, c: FS, op: Op, i: Ino, r: Result<Stem>)
    requires Kept(a, b, op.source, i) && Settled(b, c, op, i, r)
    requires r.Ok? ==> Names(b, i) == {Pending(op.source)} && Names(c, i) == {DeadLetter(r.value)}
    ensures Settled(a, c, op, i, r)
  {
  }

  /** What one round of the dead-letter loop achieves: it settles the move, or is ready for another
  round with destination `next`. */
  ghost predicate Rounded(a: FS, b: FS, op: Op, i: Ino, digest: Digest, r: Option<Result<Stem>>, next: Stem) {
    && op in a.markers
    && match r
       case Some(result) =>
         && Settled(a, b, op, i, result)
         && (result.Ok? && !(Names(a, i) == {Pending(op.source)} && Names(b, i) == {DeadLetter(result.value)}) ==>
               a.markers[op].committed && op in b.markers && b.markers[op] == a.markers[op])
       case None =>
         && Kept(a, b, op.source, i) && RecordReady(b, op, i, digest, next)
         && (b.markers[op].committed ==> b.markers[op] == a.markers[op])
  }

  lemma RoundedLater(
    a: FS, b: FS, c: FS, op: Op, i: Ino, digest: Digest, destination: Stem, r: Option<Result<Stem>>, next: Stem)
    requires RecordReady(a, op, i, digest, destination) && Spared(a, b, op.source, i, None)
    requires Rounded(b, c, op, i, digest, r, next)
    ensures Rounded(a, c, op, i, digest, r, next)
  {
    ReadyLater(a, b, op, i, digest, destination, None);
    if r.None? {
      KeptTwice(a, b, c, op.source, i);
    }
  }

  lemma SettledFromRound(a: FS, b: FS, c: FS, op: Op, i: Ino, r: Result<Stem>)
    requires Kept(a, b, op.source, i) && Settled(b, c, op, i, r)
    requires r.Ok? && !(Names(b, i) == {Pending(op.source)} && Names(c, i) == {DeadLetter(r.value)}) ==>
      op in a.markers && op in b.markers && a.markers[op] == b.markers[op] == c.markers[op]
    ensures Settled(a, c, op, i, r)
  {
  }

  /** No record of the spool is at dead-letter name `d`. */
  predicate FreeForUs(fs: FS, d: Stem) {
    DeadLetter(d) in fs.names ==> fs.names[DeadLetter(d)] in fs.foreign
  }

  /** `_existing_rejection`: what `reject` answers once the source name is gone. */
  function ExistingRejection(fs: FS, source: Stem): Result<Stem> {
    var op := Op(source, REJECTED);
    if op !in fs.markers then Ok(DeadLetterName(source, REJECTED))
    else
      var d := fs.markers[op].destination;
      if DeadLetter(d) in fs.names && !DestinationMatches(fs, d, fs.markers[op].digest) then Err(MarkerMismatch)
      else Ok(d)
  }

  /** The answer names the record itself. */
  ghost predicate NamesRecord(fs: FS, answer: Result<Stem>, i: Ino) {
    answer.Ok? && DeadLetter(answer.value) in Names(fs, i)
  }

  /** Where `_existing_rejection` looks, if it looks anywhere. */
  function Looked(fs: FS, source: Stem): Stem {
    var op := Op(source, REJECTED);
    if op in fs.markers then fs.markers[op].destination else DeadLetterName(source, REJECTED)
  }

  /** What a `reject` that finds its source gone answers, after any run that starts before the record
  was moved. It names the record exactly if a `reject` moved it and nobody has rewritten the marker
  since. In every other case it names another file, exactly if there is one that passes for the record
  or no marker at all, or nothing, or it fails. */
  lemma RejectionNamesTheRecord(fs: FS, run: seq<Label>, source: Stem, i: Ino)
    requires Inv(fs) && CanRun(fs, run) && Unmoved(fs, i)
    requires i in After(fs, run).origin && After(fs, run).origin[i] == source
    requires Pending(source) !in After(fs, run).names
    ensures var fs', op := After(fs, run), Op(source, REJECTED);
      var answer, d := ExistingRejection(fs', source), Looked(fs', source);
      var named := Mover(fs, run, i) == Some(op) && !RunOverwrites(fs, run, op, i);
      && (NamesRecord(fs', answer, i) <==> named)
      && (answer.Ok? ==> answer.value == d)
      && (!named ==>
            (answer.Err? <==>
              op in fs'.markers && DeadLetter(d) in fs'.names
              && !DestinationMatches(fs', d, fs'.markers[op].digest)))
    ensures Mover(fs, run, i) == None ==> i in After(fs, run).retired && Names(After(fs, run), i) == {}
  {
    var op := Op(source, REJECTED);
    var fs' := After(fs, run);
    RunKeepsInv(fs, run);
    MarkerTellsExactly(fs, run, op, i);
    GoneRecord(fs', i);
    if op !in fs'.markers && Mover(fs, run, i).Some? {
      CanonicalIsCandidate(op);
      var other := Mover(fs, run, i).value;
      forall d | DeadLetter(d) in Names(fs', i) ensures d != DeadLetterName(source, REJECTED) {
        CandidatesDiffer(op, other, DeadLetterName(source, REJECTED), d);
      }
    }
  }

  /** A rejection that died once its record had the dead-letter name: after the next recovery the record
  has that name alone, and a retry answers it. */
  lemma RetryAfterTheMove(fs: FS, i: Ino, d: Stem)
    requires Inv(fs) && i in fs.origin && i !in fs.retired && DeadLetter(d) in Names(fs, i)
    requires Op(fs.origin[i], REJECTED) in fs.markers && fs.markers[Op(fs.origin[i], REJECTED)].destination == d
    requires Pending(fs.origin[i]) in fs.names ==> fs.names[Pending(fs.origin[i])] == i
    ensures var r := Recovered(fs, NOBODY);
      && Names(r, i) == {DeadLetter(d)} && Pending(fs.origin[i]) !in r.names
      && ExistingRejection(r, fs.origin[i]) == Ok(d)
  {
    var op := Op(fs.origin[i], REJECTED);
    var r := Recovered(fs, NOBODY);
    assert MarkerOk(fs, op);
    forall other: Op | other.source == op.source && other != op && other in fs.markers
      ensures fs.markers[other].destination != d
    {
      assert MarkerOk(fs, other);
      CandidatesDiffer(op, other, d, fs.markers[other].destination);
    }
    OnlyOneTells(fs, op, i, d);
    MovedRecovered(fs, op, i);
    RecoveredKeepsInv(fs, NOBODY);
    if Pending(op.source) in r.names { NamesOf(r, Pending(op.source)); }
    assert DeadLetter(d) in Names(r, i);
  }

  lemma OnlyOneTells(fs: FS, op: Op, i: Ino, d: Stem)
    requires Inv(fs) && i in fs.origin && DeadLetter(d) in Names(fs, i)
    requires forall other: Op :: other.source == op.source && other != op && other in fs.markers ==>
               fs.markers[other].destination != d
    ensures forall other: Op :: other.source == op.source && other != op ==> !Tells(fs, other, i)
  {
    StepKeepsDeadLetter(fs, Skip, i, d);
  }

  lemma CanonicalIsCandidate(op: Op)
    requires op.suffix in SUFFIXES
    ensures IsCandidate(op, DeadLetterName(op.source, op.suffix))
  {
    assert DeadLetterName(op.source, op.suffix) == Numbered(DeadLetterName(op.source, op.suffix), 0);
  }

  /** A record without its root name has one dead-letter name, alone, or was retired and has none. */
  lemma GoneRecord(fs: FS, i: Ino)
    requires Inv(fs) && i in fs.origin && Pending(fs.origin[i]) !in fs.names
    ensures Unmoved(fs, i) ==> i in fs.retired && Names(fs, i) == {}
    ensures forall d :: DeadLetter(d) in Names(fs, i) ==> Names(fs, i) == {DeadLetter(d)}
  {
    assert Sound(fs, i) && (i in fs.retired ==> Departed(fs, i)) && (i !in fs.retired ==> Placed(fs, i));
    assert Pending(fs.origin[i]) !in Names(fs, i);
    if i !in fs.retired {
      var d :| Names(fs, i) == {DeadLetter(d)};
      assert DeadLetter(d) in Names(fs, i);
    } else if Names(fs, i) != {} {
      var d :| Names(fs, i) == {DeadLetter(d)};
      assert DeadLetter(d) in Names(fs, i);
    }
  }

  /** The directory without the root names of the moves in `done` that recovery can finish. */
  ghost function WithoutSources(fs: FS, busy: Holders, done: set<Op>): FS {
    fs.(names := map p | p in fs.names && !(p.Pending? && exists op: Op ::
                           op in done && op.source == p.stem && Finishable(fs, busy, op)) :: fs.names[p])
  }

  /** Recovery of one operation's move. */
  function FinishOne(fs: FS, busy: Holders, op: Op): FS {
    if Finishable(fs, busy, op) then Apply(fs, DropSource(op)) else fs
  }

  lemma NothingDone(fs: FS, busy: Holders)
    ensures WithoutSources(fs, busy, {}) == fs
  {
    assert WithoutSources(fs, busy, {}).names == fs.names;
  }

  lemma OneMoreSource(fs: FS, busy: Holders, done: set<Op>, op: Op)
    requires Inv(fs) && op in fs.markers
    ensures WithoutSources(fs, busy, done + {op}) == FinishOne(WithoutSources(fs, busy, done), busy, op)
  {
    var cur, next := WithoutSources(fs, busy, done), WithoutSources(fs, busy, done + {op});
    if Pending(op.source) in cur.names {
      var i := fs.names[Pending(op.source)];
      PendingIsPublished(fs, op.source);
      assert Sound(fs, i) && Placed(fs, i);
      if HalfMoved(cur, op) {
        assert {Pending(op.source), DeadLetter(fs.markers[op].destination)} <= Names(fs, i);
        assert HalfMoved(fs, op);
      }
      if HalfMoved(fs, op) {
        assert DeadLetter(fs.markers[op].destination) in Names(fs, i);
        assert Names(cur, i) == Names(fs, i);
      }
    }
    assert next.names == if Finishable(cur, busy, op) then cur.names - {Pending(op.source)} else cur.names;
  }

  /** The directory without those staging names in `done` that nobody holds and whose file has
  `links` names. */
  ghost function WithoutStages(fs: FS, busy: Holders, links: nat, done: set<Path>): FS {
    fs.(names := map p | p in fs.names && !(p in done && StaleStage(fs, busy, links, p)) :: fs.names[p])
  }

  ghost predicate StaleStage(fs: FS, busy: Holders, links: nat, p: Path)
    requires p in fs.names
  {
    p.Staged? && !busy.staging && p.file !in busy.files && |Names(fs, p.file)| == links
  }

  /** The directory after the visit of one staging name. */
  ghost function DropOne(fs: FS, busy: Holders, links: nat, p: Path): FS {
    if p in fs.names && StaleStage(fs, busy, links, p) then fs.(names := fs.names - {p}) else fs
  }

  lemma NoStages(fs: FS, busy: Holders, links: nat, done: set<Path>)
    requires forall p :: p in done ==> !p.Staged?
    ensures WithoutStages(fs, busy, links, done) == fs
  {
    assert WithoutStages(fs, busy, links, done).names == fs.names;
  }

  lemma OneMoreStage(fs: FS, busy: Holders, links: nat, done: set<Path>, p: Path)
    requires Inv(fs) && p in fs.names && p.Staged? && p !in done
    ensures var cur := WithoutStages(fs, busy, links, done);
      && p in cur.names && Names(cur, p.file) == Names(fs, p.file)
      && WithoutStages(fs, busy, links, done + {p}) == DropOne(cur, busy, links, p)
  {
    var cur, next := WithoutStages(fs, busy, links, done), WithoutStages(fs, busy, links, done + {p});
    assert next.names == if StaleStage(fs, busy, links, p) then cur.names - {p} else cur.names;
  }

  /** In an invariant directory a staging name is its file's only name, or one of two. */
  lemma StageLinks(fs: FS, i: Ino)
    requires Inv(fs) && Staged(i) in fs.names
    ensures Names(fs, i) == {Staged(i)} || (i in fs.origin && Names(fs, i) == {Staged(i), Pending(fs.origin[i])})
    ensures |Names(fs, i)| == 1 || |Names(fs, i)| == 2
  {
    NamesOf(fs, Staged(i));
    assert Sound(fs, i);
    if i in fs.origin { assert Placed(fs, i); }
  }

  lemma StageRecovered(fs0: FS, fs1: FS, fs2: FS, fs3: FS, busy: Holders, i: Ino)
    requires Inv(fs0) && Inv(fs1) && Inv(fs2)
    requires fs1 == WithoutSources(fs0, busy, fs0.markers.Keys)
    requires fs2 == WithoutStages(fs1, busy, 2, fs1.names.Keys)
    requires fs3 == WithoutStages(fs2, busy, 1, fs2.names.Keys)
    requires Staged(i) in fs0.names
    ensures Staged(i) in fs3.names <==> Staged(i) in Recovered(fs0, busy).names
  {
    StageLinks(fs1, i);
    if Staged(i) in fs2.names { StageLinks(fs2, i); }
  }

  lemma StagesRecovered(fs0: FS, fs1: FS, fs2: FS, fs3: FS, busy: Holders)
    requires Inv(fs0) && Inv(fs1) && Inv(fs2)
    requires fs1 == WithoutSources(fs0, busy, fs0.markers.Keys)
    requires fs2 == WithoutStages(fs1, busy, 2, fs1.names.Keys)
    requires fs3 == WithoutStages(fs2, busy, 1, fs2.names.Keys)
    ensures fs3 == Recovered(fs0, busy)
  {
    var r := Recovered(fs0, busy);
    forall p | p in fs0.names
      ensures p in fs3.names <==> p in r.names
      ensures p in fs3.names ==> fs3.names[p] == fs0.names[p]
    {
      if p.Staged? { StageRecovered(fs0, fs1, fs2, fs3, busy, p.file); }
    }
    assert fs3.names == r.names;
  }

  lemma TwoNames(fs: FS, op: Op)
    requires op in fs.markers && Pending(op.source) in fs.names && DeadLetter(fs.markers[op].destination) in fs.names
    ensures var i := fs.names[Pending(op.source)]; var d := DeadLetter(fs.markers[op].destination);
      (fs.names[d] == i && |Names(fs, i)| == 2) <==> Names(fs, i) == {Pending(op.source), d}
  {
    var i := fs.names[Pending(op.source)];
    var p, d := Pending(op.source), DeadLetter(fs.markers[op].destination);
    if fs.names[d] == i && |Names(fs, i)| == 2 {
      var rest := Names(fs, i) - {p, d};
      assert |Names(fs, i)| == |rest| + |{p, d}|;
    } else if Names(fs, i) == {p, d} {
      assert d in Names(fs, i);
    }
  }

  /** Same record, same bytes, same marker of this operation. */
  ghost predicate SameRecord(a: FS, b: FS, op: Op, i: Ino) {
    && i in a.origin && i in b.origin && a.origin[i] == b.origin[i] == op.source
    && i in a.data && i in b.data && b.data[i] == a.data[i]
    && op in a.markers && op in b.markers && b.markers[op] == a.markers[op]
    && Staged(i) !in Names(b, i)
    && (Pending(op.source) in b.names ==> Pending(op.source) in a.names
                                          && b.names[Pending(op.source)] == a.names[Pending(op.source)])
  }

  lemma LinkedRecord(fs: FS, op: Op, i: Ino)
    requires Inv(fs) && MoveEnabled(fs, op) && fs.names[Pending(op.source)] == i
    requires i in fs.origin && fs.origin[i] == op.source
    ensures var fs' := Apply(fs, MoveLink(op));
      SameRecord(fs, fs', op, i) && HalfMoved(fs', op) && fs'.names[Pending(op.source)] == i
      && Names(fs', i) == {Pending(op.source), DeadLetter(fs.markers[op].destination)}
  {
    NamesAfter(fs, MoveLink(op), i);
    StepKeepsRecord(fs, MoveLink(op), i);
  }

  lemma RenamedRecord(fs: FS, op: Op, i: Ino)
    requires Inv(fs) && MoveEnabled(fs, op) && fs.names[Pending(op.source)] == i
    requires i in fs.origin && fs.origin[i] == op.source
    ensures var fs' := Apply(fs, MoveRename(op));
      SameRecord(fs, fs', op, i) && Names(fs', i) == {DeadLetter(fs.markers[op].destination)}
  {
    NamesAfter(fs, MoveRename(op), i);
    StepKeepsRecord(fs, MoveRename(op), i);
  }

  lemma DroppedSource(fs: FS, op: Op, i: Ino)
    requires Inv(fs) && i in fs.origin && fs.origin[i] == op.source && i in fs.data
    requires op in fs.markers && fs.markers[op].digest == Sha256(fs.data[i])
    requires Names(fs, i) == {Pending(op.source), DeadLetter(fs.markers[op].destination)}
    ensures HalfMoved(fs, op)
    ensures var fs' := Apply(fs, DropSource(op));
      SameRecord(fs, fs', op, i) && Names(fs', i) == {DeadLetter(fs.markers[op].destination)}
  {
    assert Pending(op.source) in Names(fs, i);
    NamesAfter(fs, DropSource(op), i);
    StepKeepsRecord(fs, DropSource(op), i);
  }

  lemma SameRecordTwice(a: FS, b: FS, c: FS, op: Op, i: Ino)
    requires SameRecord(a, b, op, i) && SameRecord(b, c, op, i)
    ensures SameRecord(a, c, op, i)
  {
  }

  /** What others can do to a record between its link and its unlink: take its root name. */
  lemma AfterLink(a: FS, b: FS, op: Op, i: Ino, d: Option<Stem>)
    requires Inv(a) && Inv(b) && HalfMoved(a, op) && a.names[Pending(op.source)] == i
    requires Spared(a, b, op.source, i, d)
    ensures SameRecord(a, b, op, i)
    ensures var p, q := Pending(op.source), DeadLetter(b.markers[op].destination);
      if p in b.names then b.names[p] == i && Names(b, i) == {p, q}
      else Names(b, i) == {q} && i in b.retired
  {
    NamesOf(a, Pending(op.source));
    assert Sound(b, i);
    if Pending(op.source) in b.names {
      NamesOf(b, Pending(op.source));
    } else {
      assert Pending(op.source) !in Names(b, i);
    }
  }

  /** A marker that may be written may still be written after others have acted, and it touches no name. */
  lemma MarkLater(a: FS, b: FS, op: Op, m: Marker, i: Ino)
    requires Inv(a) && Inv(b) && Spared(a, b, op.source, i, Some(m.destination))
    requires m.digest == Sha256(a.data[i])
    requires if m.committed
             then op in a.markers && m == a.markers[op].(committed := true)
                  && Names(a, i) == {DeadLetter(m.destination)}
             else IsCandidate(op, m.destination) && FreeForUs(a, m.destination)
    ensures Enabled(b, Mark(op, m))
    ensures Kept(a, Apply(b, Mark(op, m)), op.source, i)
    ensures Names(Apply(b, Mark(op, m)), i) == Names(b, i)
    ensures !m.committed ==> FreeForUs(b, m.destination)
  {
    assert Sound(b, i);
    if m.committed {
      assert DeadLetter(m.destination) in Names(a, i);
      assert DeadLetter(m.destination) in Names(b, i);
    }
  }

  // ---------------------------------------------------------------------------------------------
  // Exact answers, for a directory on which nobody else acts and no call fails
  // ---------------------------------------------------------------------------------------------

  /** The directory with the marker of one operation replaced. */
  function Marked(fs: FS, op: Op, m: Marker): FS {
    fs.(markers := fs.markers[op := m])
  }

  /** The record under its dead-letter name instead of its root name. */
  function Moved(fs: FS, op: Op, i: Ino, d: Stem): FS {
    fs.(names := (fs.names - {Pending(op.source)})[DeadLetter(d) := i])
  }

  /** The record moved, and its marker committed. */
  function Finished(fs: FS, op: Op, i: Ino, d: Stem): FS
    requires i in fs.data
  {
    Marked(Moved(fs, op, i, d), op, Marker(d, Sha256(fs.data[i]), true))
  }

  lemma RenameMoves(fs: FS, op: Op, i: Ino)
    requires Enabled(fs, MoveRename(op)) && fs.names[Pending(op.source)] == i
    ensures Apply(fs, MoveRename(op)) == Moved(fs, op, i, fs.markers[op].destination)
  {
    assert Apply(fs, MoveRename(op)).names == Moved(fs, op, i, fs.markers[op].destination).names;
  }

  lemma LinkAndUnlinkMove(fs: FS, op: Op, i: Ino)
    requires Enabled(fs, MoveLink(op)) && fs.names[Pending(op.source)] == i
    requires Enabled(Apply(fs, MoveLink(op)), DropSource(op))
    ensures Apply(Apply(fs, MoveLink(op)), DropSource(op)) == Moved(fs, op, i, fs.markers[op].destination)
  {
    assert Apply(Apply(fs, MoveLink(op)), DropSource(op)).names == Moved(fs, op, i, fs.markers[op].destination).names;
  }

  lemma MarkedTwice(fs: FS, op: Op, i: Ino, d: Stem, m: Marker)
    requires i in fs.data
    ensures Finished(Marked(fs, op, m), op, i, d) == Finished(fs, op, i, d)
    ensures Marked(Marked(fs, op, m), op, Marker(d, Sha256(fs.data[i]), true)) ==
            Marked(fs, op, Marker(d, Sha256(fs.data[i]), true))
  {
  }

  /** The directory with one more record, complete and published. */
  function Enqueued(fs: FS, i: Ino, s: Stem, content: Bytes): FS {
    fs.(data := fs.data[i := content], names := fs.names[Pending(s) := i], intended := fs.intended[i := content],
        origin := fs.origin[i := s])
  }

  /** The directory after an enqueue that found no name: the file has none. */
  function Abandoned(fs: FS, i: Ino, content: Bytes): FS {
    fs.(data := fs.data[i := content], intended := fs.intended[i := content])
  }

  /** The directory with a complete staged file. */
  function StagedIn(fs: FS, i: Ino, content: Bytes): FS {
    Abandoned(fs, i, content).(names := fs.names[Staged(i) := i])
  }

  /** The staged file under its published name instead. */
  function PublishedIn(fs: FS, i: Ino, s: Stem): FS {
    fs.(names := fs.names[Pending(s) := i] - {Staged(i)}, origin := fs.origin[i := s])
  }

  lemma EnqueuedInSteps(fs: FS, i: Ino, content: Bytes, r: Result<Stem>)
    requires Staged(i) !in fs.names
    ensures forall s :: PublishedIn(StagedIn(fs, i, content), i, s) == Enqueued(fs, i, s, content)
    ensures var staged := StagedIn(fs, i, content);
            staged.(names := staged.names - {Staged(i)}) == Abandoned(fs, i, content)
  {
    forall s ensures PublishedIn(StagedIn(fs, i, content), i, s) == Enqueued(fs, i, s, content) {
      assert PublishedIn(StagedIn(fs, i, content), i, s).names == Enqueued(fs, i, s, content).names;
    }
    assert fs.names[Staged(i) := i] - {Staged(i)} == fs.names;
  }

  /** The marker of the operation holds another digest than the record. */
  predicate Mismatched(fs: FS, op: Op, i: Ino) {
    op in fs.markers && i in fs.data && fs.markers[op].digest != Sha256(fs.data[i])
  }

  /** The move was committed at destination `d`, and the file there has the digest. */
  predicate CommittedAt(fs: FS, op: Op, d: Stem) {
    op in fs.markers && fs.markers[op].committed && DestinationMatches(fs, d, fs.markers[op].digest)
  }

  class Spool {
    const disk: Directory
    const guards: ArtifactGuards

    /** Nobody else acts, and no call fails. */
    predicate Steady() {
      disk.quiet && disk.reliable
    }

    /** While `held` is held, the guard of `a` can be taken without waiting. */
    predicate Usable(held: Held, a: Artifact) {
      guards.slot(a) in held || guards.slot(a) !in disk.elsewhere
    }

    /** A dead-letter name that is neither used nor reserved. */
    predicate FreeName(held: Held, fs: FS, d: Stem) {
      Usable(held, DestinationLock(d)) && DeadLetter(d) !in fs.names
    }

    /** The free candidate of the lowest number, or none. */
    ghost predicate LowestFree(held: Held, fs: FS, op: Op, r: Result<Stem>) {
      match r
      case Ok(d) =>
        exists n: nat ::
          n < CANDIDATES && d == Candidate(op, n) && FreeName(held, fs, d) && NoNameBelow(held, fs, op, n)
      case Err(f) =>
        f == Exhausted && NoNameBelow(held, fs, op, CANDIDATES)
    }

    lemma NextName(held: Held, fs: FS, op: Op, n: nat)
      requires n < CANDIDATES
      ensures NoNameBelow(held, fs, op, n) ==>
        if FreeName(held, fs, Candidate(op, n)) then LowestFree(held, fs, op, Ok(Candidate(op, n)))
        else NoNameBelow(held, fs, op, n + 1)
    {
    }

    ghost predicate NoNameBelow(held: Held, fs: FS, op: Op, n: nat) {
      forall m: nat :: m < n ==> !FreeName(held, fs, Candidate(op, m))
    }

    /** The move to the lowest free name. */
    ghost predicate MovedToLowest(held: Held, a: FS, b: FS, op: Op, i: Ino, r: Result<Stem>)
      requires i in a.data
    {
      LowestFree(held, a, op, r) && b == if r.Ok? then Finished(a, op, i, r.value) else a
    }

    /** A name for a new record that is neither used nor reserved. */
    predicate FreeStem(held: Held, fs: FS, s: Stem) {
      Usable(held, PublishLock(s)) && Pending(s) !in fs.names
    }

    /** The free numbered name of the lowest number, or none. */
    ghost predicate LowestStem(held: Held, fs: FS, base: Stem, r: Result<Stem>) {
      match r
      case Ok(s) =>
        exists n: nat ::
          n < CANDIDATES && s == Numbered(base, n) && FreeStem(held, fs, s) && NoStemBelow(held, fs, base, n)
      case Err(f) =>
        f == Exhausted && NoStemBelow(held, fs, base, CANDIDATES)
    }

    lemma NextStem(held: Held, fs: FS, base: Stem, n: nat)
      requires n < CANDIDATES
      ensures NoStemBelow(held, fs, base, n) ==>
        if FreeStem(held, fs, Numbered(base, n)) then LowestStem(held, fs, base, Ok(Numbered(base, n)))
        else NoStemBelow(held, fs, base, n + 1)
      ensures NoStemBelow(held, fs, base, 0)
    {
    }

    ghost predicate NoStemBelow(held: Held, fs: FS, base: Stem, n: nat) {
      forall m: nat :: m < n ==> !FreeStem(held, fs, Numbered(base, m))
    }

    /** One round, from the state `a`: destination `d` is free and gets the record, or is reserved by
    others; or the move had been committed there; or another name is reserved. */
    ghost predicate TurnAnswer(
      held: Held, a: FS, b: FS, op: Op, i: Ino, d: Stem, reserved: bool, r: Option<Result<Stem>>, next: Stem,
      locked: bool)
      requires i in a.data
    {
      if DeadLetter(d) !in a.names then
        if reserved || Usable(held, DestinationLock(d)) then r == Some(Ok(d)) && b == Finished(a, op, i, d)
        else r == Some(Err(InProgress)) && b == a
      else if CommittedAt(a, op, d) then r == Some(Ok(d)) && b == a
      else
        && LowestFree(held, a, op, if r.None? then Ok(next) else r.value)
        && (r.None? ==> locked && b == Marked(a, op, Marker(next, Sha256(a.data[i]), false)))
        && (r.Some? ==> r.value.Err? && b == a)
    }

    /** The move of a record whose marker names destination `d`. */
    ghost predicate Answer(held: Held, a: FS, b: FS, op: Op, i: Ino, d: Stem, reserved: bool, r: Result<Stem>)
      requires i in a.data
    {
      if DeadLetter(d) !in a.names then
        if reserved || Usable(held, DestinationLock(d)) then r == Ok(d) && b == Finished(a, op, i, d)
        else r == Err(InProgress) && b == a
      else if CommittedAt(a, op, d) then r == Ok(d) && b == a
      else MovedToLowest(held, a, b, op, i, r)
    }

    /** The move under the lock of its operation, from the state `a`: without a marker, to the lowest free
    name; with one of another digest, nowhere; otherwise as the marker says. */
    ghost predicate MoveAnswer(held: Held, a: FS, b: FS, op: Op, i: Ino, r: Result<Stem>)
      requires i in a.data
    {
      if op !in a.markers then MovedToLowest(held, a, b, op, i, r)
      else if Mismatched(a, op, i) then r == Err(MarkerMismatch) && b == a
      else Answer(held, a, b, op, i, a.markers[op].destination, false, r)
    }

    /** The whole move: refused while somebody else holds the lock of the operation. */
    ghost predicate SteadyMove(held: Held, a: FS, b: FS, op: Op, i: Ino, entered: bool, r: Result<Stem>) {
      && i in a.data && (entered <==> Usable(held, OperationLock(op)))
      && if entered then MoveAnswer(Taken(held, guards.slot(OperationLock(op))), a, b, op, i, r)
         else r == Err(InProgress) && b == a
    }

    /** A rejection that died after it had reserved a name, before the link: if that name is still free, a
    retry moves the record there. */
    lemma RetryBeforeTheMove(held: Held, fs: FS, b: FS, op: Op, i: Ino, d: Stem, r: Result<Stem>)
      requires Inv(fs) && i in fs.origin && fs.origin[i] == op.source && Names(fs, i) == {Pending(op.source)}
      requires i in fs.data && op in fs.markers && fs.markers[op] == Marker(d, Sha256(fs.data[i]), false)
      requires FreeName(held, fs, d)
      ensures var a := Recovered(fs, NOBODY);
        && Names(a, i) == {Pending(op.source)} && i in a.data
        && (MoveAnswer(held, a, b, op, i, r) ==> r == Ok(d) && b == Finished(a, op, i, d))
    {
      NamesRecovered(fs, NOBODY, i);
      assert Sound(fs, i);
      assert Pending(op.source) in Names(fs, i);
      forall other | other in fs.markers && other.source == op.source ensures !HalfMoved(fs, other) {
      }
    }

    /** What the loop of a move has done so far: nothing, or it has reserved the lowest free name. */
    ghost predicate Turned(
      held: Held, begin: FS, fs: FS, op: Op, i: Ino, first: Stem, reservedFirst: bool, destination: Stem,
      reserved: bool)
      requires i in begin.data
    {
      || (fs == begin && destination == first && reserved == reservedFirst)
      || (DeadLetter(first) in begin.names && !CommittedAt(begin, op, first) && reserved
          && LowestFree(held, begin, op, Ok(destination))
          && fs == Marked(begin, op, Marker(destination, Sha256(begin.data[i]), false)))
    }

    lemma TurnsToAnswer(
      held: Held, begin: FS, a: FS, b: FS, op: Op, i: Ino, first: Stem, reservedFirst: bool, destination: Stem,
      reserved: bool, r: Option<Result<Stem>>, next: Stem, locked: bool)
      requires i in begin.data && i in a.data
      requires Turned(held, begin, a, op, i, first, reservedFirst, destination, reserved)
      requires TurnAnswer(held, a, b, op, i, destination, reserved, r, next, locked)
      ensures r.Some? ==> Answer(held, begin, b, op, i, first, reservedFirst, r.value)
      ensures r.None? ==> Turned(held, begin, b, op, i, first, reservedFirst, next, locked)
    {
      MarkedTwice(begin, op, i, destination, Marker(destination, Sha256(begin.data[i]), false));
    }

    ghost predicate Valid()
      reads this, disk, guards
    {
      disk.Valid() && Positive(guards.held)
    }

    constructor (disk: Directory, guards: ArtifactGuards)
      requires disk.Valid() && Positive(guards.held)
      ensures Valid() && this.disk == disk && this.guards == guards
    {
      this.disk, this.guards := disk, guards;
    }

    /** A guard file can be taken if nobody else has it; while others act, that may change. */
    method GuardIsFree(a: Artifact) returns (free: bool)
      ensures disk.quiet ==> free == (guards.slot(a) !in disk.elsewhere)
    {
      free := *;
      if disk.quiet { free := guards.slot(a) !in disk.elsewhere; }
    }

    /** `_acquire_artifact_guard` on this directory. */
    method Acquire(a: Artifact, blocking: bool) returns (outcome: Outcome)
      requires Positive(guards.held)
      modifies guards
      ensures Positive(guards.held)
      ensures guards.held == if outcome == Got then Taken(old(guards.held), guards.slot(a)) else old(guards.held)
      ensures blocking ==> outcome != Busy
      ensures disk.quiet && !blocking && outcome == Got ==> Usable(old(guards.held), a)
      ensures disk.quiet && outcome == Busy ==> !Usable(old(guards.held), a)
      ensures Steady() ==> outcome == if blocking || Usable(old(guards.held), a) then Got else Busy
    {
      var free := GuardIsFree(a);
      outcome := guards.Acquire(a, blocking, free, disk.reliable);
    }

    /** `_acquire_reservation` on this directory. */
    method Reserve(a: Artifact) returns (outcome: Outcome)
      requires Positive(guards.held)
      modifies guards
      ensures Positive(guards.held)
      ensures guards.held == if outcome == Got then Taken(old(guards.held), guards.slot(a)) else old(guards.held)
      ensures Steady() ==> outcome == if Usable(old(guards.held), a) then Got else Busy
    {
      var free := GuardIsFree(a);
      outcome := guards.AcquireReservation(a, free, disk.reliable);
    }

    // -------------------------------------------------------------------------------------------
    // Dead-letter move
    // -------------------------------------------------------------------------------------------

    /** `_persist_operation_marker`: written aside, then put in place by one rename. */
    method PersistMarker(op: Op, m: Marker, replaceExisting: bool, ghost i: Ino) returns (ok: bool)
      requires Valid() && i in disk.fs.origin && disk.fs.origin[i] == op.source && Staged(i) !in Names(disk.fs, i)
      requires i in disk.fs.data && m.digest == Sha256(disk.fs.data[i])
      requires if m.committed
               then op in disk.fs.markers && m == disk.fs.markers[op].(committed := true)
                    && Names(disk.fs, i) == {DeadLetter(m.destination)}
               else IsCandidate(op, m.destination) && FreeForUs(disk.fs, m.destination)
      modifies disk, guards
      ensures Valid() && guards.held == old(guards.held) && old(disk.run) <= disk.run
      ensures Kept(old(disk.fs), disk.fs, op.source, i) && Staged(i) !in Names(disk.fs, i)
      ensures !m.committed ==> FreeForUs(disk.fs, m.destination)
      ensures ok ==> op in disk.fs.markers && disk.fs.markers[op] == m
      ensures !ok && op in disk.fs.markers && disk.fs.markers[op] != m ==>
        op in old(disk.fs.markers) && disk.fs.markers[op] == old(disk.fs.markers)[op]
      ensures op in old(disk.fs.markers) ==> op in disk.fs.markers
      ensures m.committed || Unmoved(old(disk.fs), i) ==>
        (RunOverwrites(disk.start, disk.run, op, i) <==> RunOverwrites(disk.start, old(disk.run), op, i))
      ensures disk.interference <= old(disk.interference)
      ensures disk.interference == old(disk.interference) ==> SameDeadNames(old(disk.fs), disk.fs)
      ensures Steady() ==>
        && ok == (replaceExisting || op !in old(disk.fs.markers))
        && disk.fs == if ok then Marked(old(disk.fs), op, m) else old(disk.fs)
    {
      FreedUndoesTaken(guards.held, guards.slot(MarkerTemp));
      var got := Acquire(MarkerTemp, true);
      ghost var before := disk.fs;
      disk.Others(op.source, Some(m.destination), i);
      MarkLater(before, disk.fs, op, m, i);
      if got != Got { return false; }
      ok := ReplaceMarker(op, m, replaceExisting);
      guards.Release(MarkerTemp);
    }

    /** The marker file is written under another name and renamed; the sync after it may fail. */
    method ReplaceMarker(op: Op, m: Marker, replaceExisting: bool) returns (ok: bool)
      requires Valid() && Enabled(disk.fs, Mark(op, m))
      modifies disk
      ensures Valid() && disk.interference == old(disk.interference)
      ensures (disk.run == old(disk.run) && disk.fs == old(disk.fs))
              || (disk.run == old(disk.run) + [Mark(op, m)] && disk.fs == Marked(old(disk.fs), op, m))
      ensures forall j :: RunOverwrites(disk.start, disk.run, op, j) ==>
        RunOverwrites(disk.start, old(disk.run), op, j) || Overwrites(old(disk.fs), Mark(op, m), op, j)
      ensures forall j :: RunOverwrites(disk.start, old(disk.run), op, j) ==> RunOverwrites(disk.start, disk.run, op, j)
      ensures ok ==> disk.fs == Marked(old(disk.fs), op, m)
      ensures !replaceExisting && op in old(disk.fs.markers) ==> !ok && disk.fs == old(disk.fs)
      ensures disk.reliable ==> ok == (replaceExisting || op !in old(disk.fs.markers))
      ensures disk.reliable && !ok ==> disk.fs == old(disk.fs)
    {
      var writes := Works();
      if !writes || (!replaceExisting && op in disk.fs.markers) { return false; }
      disk.Do(Mark(op, m));
      ok := Works();
    }

    /** A call that may fail. */
    method Works() returns (ok: bool)
      ensures disk.reliable ==> ok
    {
      ok := *;
      ok := ok || disk.reliable;
    }

    /** `_reserve_dead_letter_destination`: the first numbered name that is neither reserved nor used. */
    method ReserveDestination(op: Op, ghost i: Ino) returns (r: Result<Stem>)
      requires op.suffix in SUFFIXES
      requires Valid() && i in disk.fs.origin && disk.fs.origin[i] == op.source && Staged(i) !in Names(disk.fs, i)
      modifies disk, guards
      ensures Valid() && old(disk.run) <= disk.run
      ensures Spared(old(disk.fs), disk.fs, op.source, i, None)
      ensures NoNewOverwrite(disk.start, old(disk.run), disk.run, op.source, i)
      ensures disk.interference <= old(disk.interference)
      ensures disk.interference == old(disk.interference) ==> SameDeadNames(old(disk.fs), disk.fs)
      ensures r.Err? ==> guards.held == old(guards.held)
      ensures r.Ok? ==>
        && guards.held == Taken(old(guards.held), guards.slot(DestinationLock(r.value)))
        && DeadLetter(r.value) !in disk.fs.names
        && IsCandidate(op, r.value)
      ensures r.Err? ==> r.failure in {Io, Exhausted}
      ensures Steady() ==> disk.fs == old(disk.fs) && LowestFree(old(guards.held), old(disk.fs), op, r)
    {
      SparedStep(disk.fs, Skip, op.source, i, None);
      var number := 0;
      while number < CANDIDATES
        invariant Valid() && old(disk.run) <= disk.run && guards.held == old(guards.held)
        invariant Spared(old(disk.fs), disk.fs, op.source, i, None) && 0 <= number
        invariant NoNewOverwrite(disk.start, old(disk.run), disk.run, op.source, i)
        invariant disk.interference <= old(disk.interference)
        invariant disk.interference == old(disk.interference) ==> SameDeadNames(old(disk.fs), disk.fs)
        invariant Steady() ==> disk.fs == old(disk.fs) && NoNameBelow(guards.held, disk.fs, op, number)
      {
        var candidate := Candidate(op, number);
        NextName(guards.held, disk.fs, op, number);
        FreedUndoesTaken(guards.held, guards.slot(DestinationLock(candidate)));
        var got := Reserve(DestinationLock(candidate));
        if got == Raised { return Err(Io); }
        ghost var mid := disk.fs;
        disk.Others(op.source, None, i);
        SparedTwice(old(disk.fs), mid, disk.fs, op.source, i, None);
        if got == Got {
          if DeadLetter(candidate) !in disk.fs.names { return Ok(candidate); }
          guards.ReleaseReservation(DestinationLock(candidate));
        }
        number := number + 1;
      }
      return Err(Exhausted);
    }

    /** The `link` and `unlink` fallback of `_publish_noreplace`. */
    method LinkThenUnlink(op: Op, ghost i: Ino) returns (r: Attempt)
      requires Valid() && MoveEnabled(disk.fs, op) && disk.fs.names[Pending(op.source)] == i
      requires i in disk.fs.origin && disk.fs.origin[i] == op.source
      modifies disk
      ensures Valid() && old(disk.run) <= disk.run && disk.interference <= old(disk.interference)
      ensures SameRecord(old(disk.fs), disk.fs, op, i)
      ensures RunOverwrites(disk.start, disk.run, op, i) <==> RunOverwrites(disk.start, old(disk.run), op, i)
      ensures r != Collision
      ensures r == Published ==> Names(disk.fs, i) == {DeadLetter(disk.fs.markers[op].destination)}
      ensures r.Failed? ==>
        || Names(disk.fs, i) == {Pending(op.source), DeadLetter(disk.fs.markers[op].destination)}
        || (Names(disk.fs, i) == {DeadLetter(disk.fs.markers[op].destination)} && i in disk.fs.retired)
      ensures r.Failed? ==> r.failure == Io
      ensures Steady() ==>
        r == Published && disk.fs == Moved(old(disk.fs), op, i, old(disk.fs.markers)[op].destination)
    {
      LinkedRecord(disk.fs, op, i);
      disk.Do(MoveLink(op));
      if Steady() { LinkAndUnlinkMove(old(disk.fs), op, i); }
      r := UnlinkSource(op, i);
    }

    /** The second call: the root name may have gone by now. */
    method UnlinkSource(op: Op, ghost i: Ino) returns (r: Attempt)
      requires Valid() && HalfMoved(disk.fs, op) && disk.fs.names[Pending(op.source)] == i
      requires i in disk.fs.origin && disk.fs.origin[i] == op.source
      modifies disk
      ensures Valid() && old(disk.run) <= disk.run && disk.interference <= old(disk.interference)
      ensures SameRecord(old(disk.fs), disk.fs, op, i)
      ensures RunOverwrites(disk.start, disk.run, op, i) <==> RunOverwrites(disk.start, old(disk.run), op, i)
      ensures r != Collision
      ensures r == Published ==> Names(disk.fs, i) == {DeadLetter(disk.fs.markers[op].destination)}
      ensures r.Failed? ==>
        || Names(disk.fs, i) == {Pending(op.source), DeadLetter(disk.fs.markers[op].destination)}
        || (Names(disk.fs, i) == {DeadLetter(disk.fs.markers[op].destination)} && i in disk.fs.retired)
      ensures r.Failed? ==> r.failure == Io
      ensures Steady() ==> r == Published && disk.fs == Apply(old(disk.fs), DropSource(op))
    {
      ghost var linked := disk.fs;
      disk.Others(op.source, Some(disk.fs.markers[op].destination), i);
      AfterLink(linked, disk.fs, op, i, Some(disk.fs.markers[op].destination));
      var unlinks := Works();
      if !unlinks || Pending(op.source) !in disk.fs.names { return Failed(Io); }
      ghost var mid := disk.fs;
      DroppedSource(disk.fs, op, i);
      disk.Do(DropSource(op));
      SameRecordTwice(linked, mid, disk.fs, op, i);
      return Published;
    }

    /** `_publish_noreplace` from the root into the dead-letter directory: one atomic rename where the
    kernel has it, otherwise `link` and then `unlink`. */
    method MoveNoReplace(op: Op, ghost i: Ino) returns (r: Attempt)
      requires Valid() && i in disk.fs.origin && disk.fs.origin[i] == op.source && Staged(i) !in Names(disk.fs, i)
      requires i in disk.fs.data && op in disk.fs.markers && disk.fs.markers[op].digest == Sha256(disk.fs.data[i])
      requires FreeForUs(disk.fs, disk.fs.markers[op].destination)
      requires Pending(op.source) in disk.fs.names ==> disk.fs.names[Pending(op.source)] == i
      requires Names(disk.fs, i) == {Pending(op.source)}
      modifies disk
      ensures Valid() && old(disk.run) <= disk.run && disk.interference <= old(disk.interference)
      ensures SameRecord(old(disk.fs), disk.fs, op, i)
      ensures RunOverwrites(disk.start, disk.run, op, i) <==> RunOverwrites(disk.start, old(disk.run), op, i)
      ensures r == Published ==> Names(disk.fs, i) == {DeadLetter(disk.fs.markers[op].destination)}
      ensures r == Collision ==>
        && Spared(old(disk.fs), disk.fs, op.source, i, Some(old(disk.fs.markers)[op].destination))
        && DeadLetter(disk.fs.markers[op].destination) in disk.fs.names
        && (disk.interference == old(disk.interference) ==> SameDeadNames(old(disk.fs), disk.fs))
      ensures r.Failed? ==>
        || RecordUntouched(old(disk.fs), disk.fs, op.source, i)
        || Names(disk.fs, i) == {Pending(op.source), DeadLetter(disk.fs.markers[op].destination)}
        || (Names(disk.fs, i) == {DeadLetter(disk.fs.markers[op].destination)} && i in disk.fs.retired)
      ensures r.Failed? ==> r.failure == Io
      ensures var d := old(disk.fs.markers)[op].destination;
        Steady() && DeadLetter(d) !in old(disk.fs.names) ==>
          r == Published && disk.fs == Moved(old(disk.fs), op, i, d)
    {
      var d := disk.fs.markers[op].destination;
      disk.Others(op.source, Some(d), i);
      var works := Works();
      if !works { return Failed(Io); }
      if DeadLetter(d) in disk.fs.names { return Collision; }
      if Pending(op.source) !in disk.fs.names { return Failed(Io); }
      NamesOf(disk.fs, Pending(op.source));
      var atomic: bool := *;
      if atomic {
        RenamedRecord(disk.fs, op, i);
        RenameMoves(disk.fs, op, i);
        disk.Do(MoveRename(op));
        return Published;
      }
      r := LinkThenUnlink(op, i);
    }

    /** Reserves a new destination and persists it, replacing the marker if there is one. */
    method Redirect(op: Op, digest: Digest, replaceExisting: bool, ghost i: Ino) returns (r: Result<Stem>)
      requires op.suffix in SUFFIXES
      requires Valid() && i in disk.fs.origin && disk.fs.origin[i] == op.source && Staged(i) !in Names(disk.fs, i)
      requires i in disk.fs.data && digest == Sha256(disk.fs.data[i])
      modifies disk, guards
      ensures Valid() && old(disk.run) <= disk.run
      ensures Kept(old(disk.fs), disk.fs, op.source, i)
      ensures Unmoved(old(disk.fs), i) ==>
        (RunOverwrites(disk.start, disk.run, op, i) <==> RunOverwrites(disk.start, old(disk.run), op, i))
      ensures disk.interference <= old(disk.interference)
      ensures disk.interference == old(disk.interference) ==> SameDeadNames(old(disk.fs), disk.fs)
      ensures r.Err? ==> guards.held == old(guards.held)
      ensures r.Ok? ==>
        && guards.held == Taken(old(guards.held), guards.slot(DestinationLock(r.value)))
        && op in disk.fs.markers && disk.fs.markers[op] == Marker(r.value, digest, false)
        && FreeForUs(disk.fs, r.value)
        && (disk.interference == old(disk.interference) ==> DeadLetter(r.value) !in disk.fs.names)
      ensures op in old(disk.fs.markers) ==> op in disk.fs.markers
      ensures r.Err? ==> r.failure in {Io, Exhausted}
      ensures Steady() && (replaceExisting || op !in old(disk.fs.markers)) ==>
        && LowestFree(old(guards.held), old(disk.fs), op, r)
        && disk.fs == if r.Ok? then Marked(old(disk.fs), op, Marker(r.value, digest, false)) else old(disk.fs)
    {
      r := ReserveDestination(op, i);
      if r.Err? { return; }
      ghost var mid := disk.fs;
      FreedUndoesTaken(old(guards.held), guards.slot(DestinationLock(r.value)));
      var ok := PersistMarker(op, Marker(r.value, digest, false), replaceExisting, i);
      KeptTwice(old(disk.fs), mid, disk.fs, op.source, i);
      if !ok {
        guards.ReleaseReservation(DestinationLock(r.value));
        return Err(Io);
      }
    }

    /** After publication: sync, check the destination, commit the marker. */
    method Commit(op: Op, digest: Digest, destination: Stem, i: Ino) returns (ok: bool)
      requires Valid() && RecordReady(disk.fs, op, i, digest, destination)
      requires Names(disk.fs, i) == {DeadLetter(destination)}
      modifies disk, guards
      ensures Valid() && old(disk.run) <= disk.run && disk.interference <= old(disk.interference)
      ensures guards.held == old(guards.held)
      ensures RecordReady(disk.fs, op, i, digest, destination) && Names(disk.fs, i) == {DeadLetter(destination)}
      ensures RunOverwrites(disk.start, disk.run, op, i) <==> RunOverwrites(disk.start, old(disk.run), op, i)
      ensures ok ==> disk.fs.markers[op].committed
      ensures Steady() ==> ok && disk.fs == Marked(old(disk.fs), op, Marker(destination, digest, true))
    {
      disk.Others(op.source, Some(destination), i);
      var syncs := Works();
      if !syncs || !DestinationMatches(disk.fs, destination, digest) { return false; }
      assert Sound(disk.fs, i);
      ok := PersistMarker(op, Marker(destination, digest, true), true, i);
    }

    /** From the comparison of source and open file to the committed marker. */
    method PublishAndCommit(op: Op, digest: Digest, destination: Stem, i: Ino, ghost held: Held)
      returns (r: Attempt, locked: bool)
      requires Valid() && Positive(held)
      requires guards.held == Taken(held, guards.slot(DestinationLock(destination)))
      requires RecordReady(disk.fs, op, i, digest, destination) && FreeForUs(disk.fs, destination)
      requires Pending(op.source) in disk.fs.names && disk.fs.names[Pending(op.source)] == i
      requires Names(disk.fs, i) == {Pending(op.source)}
      modifies disk, guards
      ensures Valid() && old(disk.run) <= disk.run && disk.interference <= old(disk.interference)
      ensures guards.held == if locked then Taken(held, guards.slot(DestinationLock(destination))) else held
      ensures RunOverwrites(disk.start, disk.run, op, i) <==> RunOverwrites(disk.start, old(disk.run), op, i)
      ensures r == Collision ==>
        && !locked && Spared(old(disk.fs), disk.fs, op.source, i, Some(destination))
        && DeadLetter(destination) in disk.fs.names
        && (disk.interference == old(disk.interference) ==> SameDeadNames(old(disk.fs), disk.fs))
      ensures r != Collision ==> Settled(old(disk.fs), disk.fs, op, i, Verdict(r, destination))
      ensures r == Published ==>
        Names(old(disk.fs), i) == {Pending(op.source)} && Names(disk.fs, i) == {DeadLetter(destination)}
      ensures r.Failed? ==> r.failure == Io
      ensures Steady() && DeadLetter(destination) !in old(disk.fs.names) ==>
        r == Published && locked && disk.fs == Finished(old(disk.fs), op, i, destination)
    {
      locked := true;
      r := MoveNoReplace(op, i);
      if r == Collision {
        FreedUndoesTaken(held, guards.slot(DestinationLock(destination)));
        guards.ReleaseReservation(DestinationLock(destination));
        locked := false;
      } else if r == Published {
        var ok := Commit(op, digest, destination, i);
        if !ok { r := Failed(Io); }
      }
    }

    /** The rest of one loop round once the destination was seen free: reserve it if that is still to
    do, compare the source, publish, commit. */
    method TryPublish(op: Op, digest: Digest, destination: Stem, reserved: bool, i: Ino, ghost held: Held)
      returns (r: Attempt, locked: bool)
      requires Valid() && Positive(held)
      requires guards.held == if reserved then Taken(held, guards.slot(DestinationLock(destination))) else held
      requires RecordReady(disk.fs, op, i, digest, destination)
      requires DeadLetter(destination) !in disk.fs.names
      modifies disk, guards
      ensures Valid() && old(disk.run) <= disk.run && disk.interference <= old(disk.interference)
      ensures guards.held == if locked then Taken(held, guards.slot(DestinationLock(destination))) else held
      ensures RunOverwrites(disk.start, disk.run, op, i) <==> RunOverwrites(disk.start, old(disk.run), op, i)
      ensures r == Collision ==>
        && !locked && disk.interference < old(disk.interference)
        && Spared(old(disk.fs), disk.fs, op.source, i, None)
      ensures r != Collision ==> Settled(old(disk.fs), disk.fs, op, i, Verdict(r, destination))
      ensures r == Published ==>
        Names(old(disk.fs), i) == {Pending(op.source)} && Names(disk.fs, i) == {DeadLetter(destination)}
      ensures r.Failed? ==> r.failure in {Io, InProgress, SourceChanged}
      ensures Steady() && Names(old(disk.fs), i) == {Pending(op.source)} ==>
        if reserved || Usable(held, DestinationLock(destination))
        then r == Published && disk.fs == Finished(old(disk.fs), op, i, destination)
        else r == Failed(InProgress) && disk.fs == old(disk.fs)
    {
      ghost var begin := disk.fs;
      if Steady() && Names(begin, i) == {Pending(op.source)} { assert Pending(op.source) in Names(begin, i); }
      var got := ReserveAgain(op, destination, reserved, i, held);
      locked := got == Got;
      if got != Got {
        return if got == Raised then Failed(Io)
               else if DeadLetter(destination) in disk.fs.names then Collision else Failed(InProgress), false;
      }
      ghost var mid := disk.fs;
      ReadyLater(begin, mid, op, i, digest, destination, Some(destination));
      if Pending(op.source) !in disk.fs.names || disk.fs.names[Pending(op.source)] != i
         || !SoleName(disk.fs, Pending(op.source)) {
        return Failed(SourceChanged), locked;
      }
      r, locked := PublishAndCommit(op, digest, destination, i, held);
      if r != Collision {
        SettledLater(begin, mid, disk.fs, op, i, Verdict(r, destination));
      } else {
        SparedTwice(begin, mid, disk.fs, op.source, i, Some(destination));
      }
    }

    /** Takes the reservation of a destination that the marker named already. */
    method ReserveAgain(op: Op, destination: Stem, reserved: bool, ghost i: Ino, ghost held: Held)
      returns (got: Outcome)
      requires Valid() && Positive(held) && i in disk.fs.origin && disk.fs.origin[i] == op.source
      requires Staged(i) !in Names(disk.fs, i)
      requires guards.held == if reserved then Taken(held, guards.slot(DestinationLock(destination))) else held
      modifies disk, guards
      ensures Valid() && old(disk.run) <= disk.run && disk.interference <= old(disk.interference)
      ensures guards.held == if got == Got then Taken(held, guards.slot(DestinationLock(destination))) else held
      ensures Spared(old(disk.fs), disk.fs, op.source, i, if got == Got then Some(destination) else None)
      ensures NoNewOverwrite(disk.start, old(disk.run), disk.run, op.source, i)
      ensures disk.interference == old(disk.interference) ==> SameDeadNames(old(disk.fs), disk.fs)
      ensures Steady() ==>
        && disk.fs == old(disk.fs)
        && got == if reserved || Usable(held, DestinationLock(destination)) then Got else Busy
    {
      got := Got;
      if !reserved {
        FreedUndoesTaken(held, guards.slot(DestinationLock(destination)));
        got := Reserve(DestinationLock(destination));
      }
      disk.Others(op.source, if got == Got then Some(destination) else None, i);
    }

    /** One round of the loop. Without a result, the round turned to another destination, or the one
    it has was taken by somebody else after it had been seen free. */
    method Round(op: Op, digest: Digest, destination: Stem, reserved: bool, i: Ino, ghost held: Held)
      returns (r: Option<Result<Stem>>, next: Stem, locked: bool)
      requires op.suffix in SUFFIXES
      requires Valid() && Positive(held)
      requires guards.held == if reserved then Taken(held, guards.slot(DestinationLock(destination))) else held
      requires RecordReady(disk.fs, op, i, digest, destination)
      modifies disk, guards
      ensures Valid() && old(disk.run) <= disk.run
      ensures guards.held == if locked then Taken(held, guards.slot(DestinationLock(next))) else held
      ensures Unmoved(old(disk.fs), i) ==>
        (RunOverwrites(disk.start, disk.run, op, i) <==> RunOverwrites(disk.start, old(disk.run), op, i))
      ensures Rounded(old(disk.fs), disk.fs, op, i, digest, r, next)
      ensures r.None? ==>
        && disk.interference <= old(disk.interference)
        && (disk.interference == old(disk.interference) ==>
              DeadLetter(destination) in old(disk.fs.names) && DeadLetter(next) !in disk.fs.names)
      ensures r != Some(Err(MarkerMismatch))
      ensures Steady() && Names(old(disk.fs), i) == {Pending(op.source)} ==>
        TurnAnswer(held, old(disk.fs), disk.fs, op, i, destination, reserved, r, next, locked)
    {
      ghost var top := disk.fs;
      disk.Others(op.source, None, i);
      ghost var mid := disk.fs;
      ReadyLater(top, mid, op, i, digest, destination, None);
      r, next, locked := Turn(op, digest, destination, reserved, i, held);
      RoundedLater(top, mid, disk.fs, op, i, digest, destination, r, next);
    }

    /** The round from the look at the destination on. */
    method Turn(op: Op, digest: Digest, destination: Stem, reserved: bool, i: Ino, ghost held: Held)
      returns (r: Option<Result<Stem>>, next: Stem, locked: bool)
      requires op.suffix in SUFFIXES
      requires Valid() && Positive(held)
      requires guards.held == if reserved then Taken(held, guards.slot(DestinationLock(destination))) else held
      requires RecordReady(disk.fs, op, i, digest, destination)
      modifies disk, guards
      ensures Valid() && old(disk.run) <= disk.run
      ensures guards.held == if locked then Taken(held, guards.slot(DestinationLock(next))) else held
      ensures Unmoved(old(disk.fs), i) ==>
        (RunOverwrites(disk.start, disk.run, op, i) <==> RunOverwrites(disk.start, old(disk.run), op, i))
      ensures Rounded(old(disk.fs), disk.fs, op, i, digest, r, next)
      ensures r.None? ==>
        && disk.interference <= old(disk.interference)
        && (disk.interference == old(disk.interference) ==>
              DeadLetter(destination) in old(disk.fs.names) && DeadLetter(next) !in disk.fs.names)
      ensures r != Some(Err(MarkerMismatch))
      ensures Steady() && Names(old(disk.fs), i) == {Pending(op.source)} ==>
        TurnAnswer(held, old(disk.fs), disk.fs, op, i, destination, reserved, r, next, locked)
    {
      next, locked := destination, reserved;
      if DeadLetter(destination) !in disk.fs.names {
        ghost var begin := disk.fs;
        var attempt;
        attempt, locked := TryPublish(op, digest, destination, reserved, i, held);
        if attempt == Collision {
          ReadyLater(begin, disk.fs, op, i, digest, destination, None);
          return None, next, locked;
        }
        return Some(Verdict(attempt, destination)), next, locked;
      }
      if disk.fs.markers[op].committed && DestinationMatches(disk.fs, destination, digest) {
        return Some(Ok(destination)), next, locked;
      }
      FreedUndoesTaken(held, guards.slot(DestinationLock(destination)));
      if reserved { guards.ReleaseReservation(DestinationLock(destination)); }
      var redirected := Redirect(op, digest, true, i);
      if redirected.Err? { return Some(redirected), next, false; }
      return None, redirected.value, true;
    }

    /** The `while True` loop of `_move_to_dead_letter`. It ends because every round that neither
    publishes nor fails uses up one creation or deletion of a dead-letter name by somebody else, or
    turns away from a name that was taken. */
    method PublishDeadLetter(op: Op, digest: Digest, first: Stem, reservedFirst: bool, i: Ino, ghost held: Held)
      returns (r: Result<Stem>, lock: Option<Stem>)
      requires op.suffix in SUFFIXES
      requires Valid() && Positive(held)
      requires guards.held == if reservedFirst then Taken(held, guards.slot(DestinationLock(first))) else held
      requires RecordReady(disk.fs, op, i, digest, first)
      modifies disk, guards
      ensures Valid() && old(disk.run) <= disk.run
      ensures guards.held == if lock.Some? then Taken(held, guards.slot(DestinationLock(lock.value))) else held
      ensures Unmoved(old(disk.fs), i) ==>
        (RunOverwrites(disk.start, disk.run, op, i) <==> RunOverwrites(disk.start, old(disk.run), op, i))
      ensures Settled(old(disk.fs), disk.fs, op, i, r)
      ensures r != Err(MarkerMismatch)
      ensures Steady() && Names(old(disk.fs), i) == {Pending(op.source)} ==>
        Answer(held, old(disk.fs), disk.fs, op, i, first, reservedFirst, r)
    {
      var destination, reserved := first, reservedFirst;
      ghost var begin := disk.fs;
      while true
        invariant Valid() && old(disk.run) <= disk.run
        invariant Kept(begin, disk.fs, op.source, i) && RecordReady(disk.fs, op, i, digest, destination)
        invariant disk.fs.markers[op].committed ==> disk.fs.markers[op] == begin.markers[op]
        invariant guards.held == if reserved then Taken(held, guards.slot(DestinationLock(destination))) else held
        invariant Unmoved(begin, i) ==>
          (RunOverwrites(disk.start, disk.run, op, i) <==> RunOverwrites(disk.start, old(disk.run), op, i))
        invariant Steady() && Names(begin, i) == {Pending(op.source)} ==>
          && Names(disk.fs, i) == {Pending(op.source)}
          && Turned(held, begin, disk.fs, op, i, first, reservedFirst, destination, reserved)
        decreases disk.interference, if DeadLetter(destination) in disk.fs.names then 1 else 0
      {
        ghost var top := disk.fs;
        var done, next, locked := Round(op, digest, destination, reserved, i, held);
        if Steady() && Names(begin, i) == {Pending(op.source)} {
          TurnsToAnswer(held, begin, top, disk.fs, op, i, first, reservedFirst, destination, reserved, done, next,
                        locked);
        }
        if done.Some? {
          SettledFromRound(begin, top, disk.fs, op, i, done.value);
          return done.value, if locked then Some(next) else None;
        }
        KeptTwice(begin, top, disk.fs, op.source, i);
        destination, reserved := next, locked;
      }
    }

    /** `_move_to_dead_letter` under the lock of its operation. */
    method MoveLocked(op: Op, i: Ino) returns (r: Result<Stem>)
      requires op.suffix in SUFFIXES
      requires Valid() && i in disk.fs.origin && disk.fs.origin[i] == op.source && Staged(i) !in Names(disk.fs, i)
      requires i in disk.fs.data
      modifies disk, guards
      ensures Valid() && old(disk.run) <= disk.run && guards.held == old(guards.held)
      ensures Unmoved(old(disk.fs), i) ==>
        (RunOverwrites(disk.start, disk.run, op, i) <==> RunOverwrites(disk.start, old(disk.run), op, i))
      ensures Settled(old(disk.fs), disk.fs, op, i, r)
      ensures r == Err(MarkerMismatch) <==> Mismatched(old(disk.fs), op, i)
      ensures Steady() && Names(old(disk.fs), i) == {Pending(op.source)} ==>
        MoveAnswer(old(guards.held), old(disk.fs), disk.fs, op, i, r)
    {
      var digest := Sha256(disk.fs.data[i]);
      ghost var held, begin := guards.held, disk.fs;
      var destination, reserved;
      if op in disk.fs.markers {
        destination, reserved := disk.fs.markers[op].destination, false;
        if disk.fs.markers[op].digest != digest { return Err(MarkerMismatch); }
      } else {
        var directed := Redirect(op, digest, false, i);
        if directed.Err? { return directed; }
        destination, reserved := directed.value, true;
      }
      ghost var mid := disk.fs;
      r := MoveAndRelease(op, digest, destination, reserved, i, held);
      if Steady() { MarkedTwice(begin, op, i, destination, Marker(destination, digest, false)); }
      assert Kept(begin, begin, op.source, i);
      SettledFromRound(begin, mid, disk.fs, op, i, r);
    }

    /** The loop, and the release of the reservation that it ends with. */
    method MoveAndRelease(op: Op, digest: Digest, destination: Stem, reserved: bool, i: Ino, ghost held: Held)
      returns (r: Result<Stem>)
      requires op.suffix in SUFFIXES
      requires Valid() && Positive(held)
      requires guards.held == if reserved then Taken(held, guards.slot(DestinationLock(destination))) else held
      requires RecordReady(disk.fs, op, i, digest, destination)
      modifies disk, guards
      ensures Valid() && old(disk.run) <= disk.run && guards.held == held
      ensures Unmoved(old(disk.fs), i) ==>
        (RunOverwrites(disk.start, disk.run, op, i) <==> RunOverwrites(disk.start, old(disk.run), op, i))
      ensures Settled(old(disk.fs), disk.fs, op, i, r)
      ensures r != Err(MarkerMismatch)
      ensures Steady() && Names(old(disk.fs), i) == {Pending(op.source)} ==>
        Answer(held, old(disk.fs), disk.fs, op, i, destination, reserved, r)
    {
      var lock;
      r, lock := PublishDeadLetter(op, digest, destination, reserved, i, held);
      if lock.Some? {
        FreedUndoesTaken(held, guards.slot(DestinationLock(lock.value)));
        guards.ReleaseReservation(DestinationLock(lock.value));
      }
    }

    /** `_move_to_dead_letter`. `file` is the inode the opened descriptor refers to, `grant` the run up
    to the moment its lock was granted; `entered` tells that the lock of the operation was taken. */
    method MoveToDeadLetter(source: Stem, suffix: string)
      returns (r: Result<Stem>, ghost file: Ino, ghost grant: seq<Label>, ghost entered: bool)
      requires Valid() && suffix in SUFFIXES
      modifies disk, guards
      ensures Valid() && guards.held == old(guards.held)
      ensures old(disk.run) <= grant <= disk.run && CanRun(disk.start, grant)
      ensures SoleName(old(disk.fs), Pending(source)) ==>
        && file == old(disk.fs.names)[Pending(source)]
        && Settled(After(disk.start, grant), disk.fs, Op(source, suffix), file, r)
        && (Unmoved(After(disk.start, grant), file) ==>
              (RunOverwrites(disk.start, disk.run, Op(source, suffix), file) <==>
               RunOverwrites(disk.start, grant, Op(source, suffix), file)))
      ensures !SoleName(old(disk.fs), Pending(source)) ==> r == Err(NotPending) && disk.run == old(disk.run)
      ensures disk.quiet ==> grant == old(disk.run)
      ensures entered ==> (r == Err(MarkerMismatch) <==> Mismatched(After(disk.start, grant), Op(source, suffix), file))
      ensures !entered ==> r.Err? && r.failure in {NotPending, InProgress, Io}
      ensures Steady() && SoleName(old(disk.fs), Pending(source)) ==>
        SteadyMove(old(guards.held), old(disk.fs), disk.fs, Op(source, suffix), file, entered, r)
    {
      var op := Op(source, suffix);
      file, grant, entered := 0, disk.run, false;
      if !SoleName(disk.fs, Pending(source)) { return Err(NotPending), file, grant, entered; }
      var i := disk.fs.names[Pending(source)];
      PendingIsPublished(disk.fs, source);
      disk.OthersUnhindered(source, true, i);
      file, grant := i, disk.run;
      ghost var begin := disk.fs;
      assert Kept(begin, begin, source, i);
      var locks := Works();
      if !locks { return Err(Io), file, grant, entered; }
      var held := guards.held;
      FreedUndoesTaken(held, guards.slot(OperationLock(op)));
      var got := Reserve(OperationLock(op));
      if got != Got {
        return Err(if got == Busy then InProgress else Io), file, grant, entered;
      }
      entered := true;
      r := MoveLocked(op, i);
      guards.ReleaseReservation(OperationLock(op));
    }

    // -------------------------------------------------------------------------------------------
    // Recovery
    // -------------------------------------------------------------------------------------------

    /** What recovery finds held by others. */
    ghost function HeldByOthers(): Holders {
      Holders((op: Op) => guards.slot(OperationLock(op)) in disk.elsewhere, disk.locked,
              guards.slot(StagedFile) in disk.elsewhere)
    }

    /** A file can be locked if nobody else has its lock; while others act, that may change. */
    method LockIsFree(i: Ino) returns (free: bool)
      ensures disk.quiet ==> free == (i !in disk.locked)
    {
      free := *;
      if disk.quiet { free := i !in disk.locked; }
    }

    /** `_recover_dead_letter_links`. */
    method RecoverDeadLetterLinks() returns (ok: bool)
      requires Valid() && guards.held == map[]
      modifies disk, guards
      ensures Valid() && guards.held == map[] && old(disk.run) <= disk.run
      ensures ok && disk.quiet ==>
        disk.fs == WithoutSources(old(disk.fs), HeldByOthers(), old(disk.fs.markers.Keys))
      ensures Steady() ==> ok
    {
      ghost var fs0, all, busy := disk.fs, disk.fs.markers.Keys, HeldByOthers();
      ghost var done: set<Op> := {};
      var todo := disk.fs.markers.Keys;
      NothingDone(fs0, busy);
      while todo != {}
        invariant Valid() && guards.held == map[] && old(disk.run) <= disk.run
        invariant done + todo == all && all <= disk.fs.markers.Keys
        invariant disk.quiet ==> disk.fs == WithoutSources(fs0, busy, done)
      {
        var op :| op in todo;
        OneMoreSource(fs0, busy, done, op);
        todo, done := todo - {op}, done + {op};
        ok := RecoverMarker(op);
        if !ok { return; }
      }
      assert done == all;
      return true;
    }

    /** The marker of one operation, under its guard. */
    method RecoverMarker(op: Op) returns (ok: bool)
      requires Valid() && guards.held == map[] && op in disk.fs.markers
      modifies disk, guards
      ensures Valid() && guards.held == map[] && old(disk.run) <= disk.run
      ensures old(disk.fs.markers).Keys <= disk.fs.markers.Keys
      ensures ok && disk.quiet ==>
        disk.fs == FinishOne(old(disk.fs), HeldByOthers(), op)
      ensures Steady() ==> ok
    {
      disk.OthersFreely();
      FreedUndoesTaken(map[], guards.slot(OperationLock(op)));
      var got := Acquire(OperationLock(op), false);
      if got != Got { return got == Busy; }
      ok := RecoverOne(op);
      guards.Release(OperationLock(op));
    }

    /** One marker: finish the move if source and destination are the two names of one file. */
    method RecoverOne(op: Op) returns (intact: bool)
      requires Valid() && op in disk.fs.markers
      requires disk.quiet ==> guards.slot(OperationLock(op)) !in disk.elsewhere
      modifies disk
      ensures Valid() && old(disk.run) <= disk.run && old(disk.fs.markers).Keys <= disk.fs.markers.Keys
      ensures intact && disk.quiet ==>
        disk.fs == FinishOne(old(disk.fs), HeldByOthers(), op)
      ensures !intact && disk.quiet ==> disk.fs == old(disk.fs)
      ensures disk.quiet ==> intact
    {
      var fs, d := disk.fs, disk.fs.markers[op].destination;
      if Pending(op.source) !in fs.names { return true; }
      var i := fs.names[Pending(op.source)];
      PendingIsPublished(fs, op.source);
      var free := LockIsFree(i);
      if !free || DeadLetter(d) !in fs.names { return true; }
      TwoNames(fs, op);
      if fs.names[DeadLetter(d)] != i || |Names(fs, i)| != 2 { return true; }
      if Sha256(fs.data[i]) != fs.markers[op].digest { return false; }
      disk.Others(op.source, Some(d), i);
      if Pending(op.source) !in disk.fs.names { return false; }
      NamesOf(disk.fs, Pending(op.source));
      disk.Do(DropSource(op));
      return true;
    }

    /** `_recover_pending_links`, then `_cleanup_hidden_artifacts` for staged files: the first removes
    the staging name of a file that also has one root name, the second a file's only, staging name. */
    method DropStagedNames(links: nat) returns (ok: bool)
      requires Valid() && guards.held == map[]
      modifies disk, guards
      ensures Valid() && guards.held == map[] && old(disk.run) <= disk.run
      ensures ok && disk.quiet ==>
        disk.fs == WithoutStages(old(disk.fs), HeldByOthers(), links, old(disk.fs.names.Keys))
      ensures Steady() ==> ok
    {
      ghost var fs0, all := disk.fs, disk.fs.names.Keys;
      var todo := set p | p in disk.fs.names && p.Staged?;
      NoStages(fs0, HeldByOthers(), links, all - todo);
      while todo != {}
        invariant Valid() && guards.held == map[] && old(disk.run) <= disk.run && todo <= all
        invariant forall p :: p in todo ==> p.Staged?
        invariant disk.quiet ==> disk.fs == WithoutStages(fs0, HeldByOthers(), links, all - todo)
      {
        var p :| p in todo;
        OneMoreStage(fs0, HeldByOthers(), links, all - todo, p);
        assert all - (todo - {p}) == (all - todo) + {p};
        todo := todo - {p};
        ok := DropIfStale(p, links);
        if !ok { return; }
      }
      assert all - todo == all;
      return true;
    }

    /** One staging name, under the guard that all of them share. */
    method DropIfStale(p: Path, links: nat) returns (ok: bool)
      requires Valid() && guards.held == map[] && p.Staged?
      modifies disk, guards
      ensures Valid() && guards.held == map[] && old(disk.run) <= disk.run
      ensures ok && disk.quiet ==> disk.fs == DropOne(old(disk.fs), HeldByOthers(), links, p)
      ensures Steady() ==> ok
    {
      disk.OthersFreely();
      FreedUndoesTaken(map[], guards.slot(StagedFile));
      var got := Acquire(StagedFile, false);
      if got != Got { return got == Busy; }
      var free := LockIsFree(p.file);
      if free && p in disk.fs.names && |Names(disk.fs, p.file)| == links {
        disk.Do(DropStaged(p.file));
      }
      guards.Release(StagedFile);
      return true;
    }

    /** `_prepare`: if no call fails and nobody else acts, it succeeds, and the directory is the recovered
    one. */
    method Prepare() returns (ok: bool)
      requires Valid() && guards.held == map[]
      modifies disk, guards
      ensures Valid() && guards.held == map[] && old(disk.run) <= disk.run
      ensures ok && disk.quiet ==> disk.fs == Recovered(old(disk.fs), HeldByOthers())
      ensures Steady() ==> ok
    {
      ghost var fs0 := disk.fs;
      ok := RecoverDeadLetterLinks();
      if !ok { return; }
      ghost var fs1 := disk.fs;
      ok := DropStagedNames(2);
      if !ok { return; }
      ghost var fs2 := disk.fs;
      ok := DropStagedNames(1);
      if ok && disk.quiet { StagesRecovered(fs0, fs1, fs2, disk.fs, HeldByOthers()); }
    }

    // -------------------------------------------------------------------------------------------
    // Public operations
    // -------------------------------------------------------------------------------------------

    /** The file under its staging name alone, still unpublished. */
    ghost predicate Owns(i: Ino, content: Bytes)
      reads this, disk
    {
      && i in disk.fs.intended && disk.fs.intended[i] == content && i !in disk.fs.origin
      && i in disk.fs.data && Names(disk.fs, i) == {Staged(i)}
    }

    /** The calls since `before` are those of one enqueue, if nobody else acted. */
    ghost predicate OnlyEnqueueCalls(before: seq<Label>, i: Ino, content: Bytes)
      reads this, disk
    {
      before <= disk.run &&
      (disk.quiet ==> forall k :: |before| <= k < |disk.run| ==> EnqueueLabel(disk.run[k], i, content))
    }

    /** The writes of `_write_staged`, in chunks of any size. */
    method FillStaged(i: Ino, content: Bytes) returns (ok: bool)
      requires Valid() && Owns(i, content) && disk.fs.data[i] == []
      modifies disk
      ensures Valid() && OnlyEnqueueCalls(old(disk.run), i, content) && Owns(i, content)
      ensures ok ==> disk.fs.data[i] == content
      ensures Steady() ==> ok && disk.fs == old(disk.fs).(data := old(disk.fs.data)[i := content])
    {
      while |disk.fs.data[i]| < |content|
        invariant Valid() && Owns(i, content) && disk.fs.data[i] <= content
        invariant OnlyEnqueueCalls(old(disk.run), i, content)
        invariant Steady() ==> disk.fs == old(disk.fs).(data := old(disk.fs.data)[i := disk.fs.data[i]])
        decreases |content| - |disk.fs.data[i]|
      {
        ok := WriteMore(i, content);
        if !ok { return; }
      }
      return true;
    }

    /** One `write`, of any positive length. */
    method WriteMore(i: Ino, content: Bytes) returns (ok: bool)
      requires Valid() && Owns(i, content) && disk.fs.data[i] <= content && |disk.fs.data[i]| < |content|
      modifies disk
      ensures Valid() && OnlyEnqueueCalls(old(disk.run), i, content) && Owns(i, content)
      ensures ok ==> disk.fs.data[i] <= content && |old(disk.fs.data)[i]| < |disk.fs.data[i]|
      ensures disk.quiet ==> disk.fs == old(disk.fs).(data := old(disk.fs.data)[i := disk.fs.data[i]])
      ensures Steady() ==> ok
    {
      disk.OthersBesides(i);
      var length: nat := *;
      if disk.reliable && !(|disk.fs.data[i]| < length <= |content|) { length := |content|; }
      if !(|disk.fs.data[i]| < length <= |content|) { return false; }
      NamesAfter(disk.fs, Write(i, length), i);
      disk.Do(Write(i, length));
      return true;
    }

    /** `_write_staged`: create, lock and fill the staged file under the staging guard. */
    method WriteStaged(i: Ino, content: Bytes) returns (ok: bool)
      requires Valid()
      modifies disk, guards
      ensures Valid() && OnlyEnqueueCalls(old(disk.run), i, content)
      ensures guards.held == if ok then Taken(old(guards.held), guards.slot(StagedFile)) else old(guards.held)
      ensures ok ==> Owns(i, content) && disk.fs.data[i] == content
      ensures Steady() && i !in old(disk.fs.data) ==> ok && disk.fs == StagedIn(old(disk.fs), i, content)
    {
      FreedUndoesTaken(guards.held, guards.slot(StagedFile));
      var got := Acquire(StagedFile, true);
      if got != Got { return false; }
      ok := CreateStaged(i, content);
      if !ok { guards.Release(StagedFile); }
    }

    /** The file itself; on a failure its name goes again. */
    method CreateStaged(i: Ino, content: Bytes) returns (ok: bool)
      requires Valid()
      modifies disk
      ensures Valid() && OnlyEnqueueCalls(old(disk.run), i, content)
      ensures ok ==> Owns(i, content) && disk.fs.data[i] == content
      ensures Steady() && i !in old(disk.fs.data) ==> ok && disk.fs == StagedIn(old(disk.fs), i, content)
    {
      if i in disk.fs.data { return false; }
      assert Sound(disk.fs, i);
      NamesAfter(disk.fs, Stage(i, content), i);
      disk.Do(Stage(i, content));
      ok := FillStaged(i, content);
      if !ok { DiscardStaged(i, content); }
    }

    /** Removing the staging name on the way out of a failure; a failure of this call is swallowed. */
    method DiscardStaged(i: Ino, content: Bytes)
      requires Valid() && i in disk.fs.data
      modifies disk
      ensures Valid() && OnlyEnqueueCalls(old(disk.run), i, content)
      ensures disk.fs.(names := old(disk.fs.names)) == old(disk.fs)
      ensures disk.fs.names == old(disk.fs.names) || disk.fs.names == old(disk.fs.names) - {Staged(i)}
      ensures disk.reliable ==> disk.fs.names == old(disk.fs.names) - {Staged(i)}
    {
      var unlinks := Works();
      if unlinks && Staged(i) in disk.fs.names { disk.Do(DropStaged(i)); }
    }

    /** One attempt of `_publish_noreplace` inside the root. */
    method PublishNoReplace(i: Ino, stem: Stem, content: Bytes) returns (r: Attempt)
      requires Valid() && Owns(i, content) && disk.fs.data[i] == content
      modifies disk
      ensures Valid() && OnlyEnqueueCalls(old(disk.run), i, content)
      ensures r == Collision ==> Owns(i, content) && disk.fs.data[i] == content && Pending(stem) in disk.fs.names
      ensures r == Published ==> i in disk.fs.origin && disk.fs.origin[i] == stem && Staged(i) !in disk.fs.names
      ensures r.Failed? ==> Owns(i, content) || (i in disk.fs.origin && disk.fs.origin[i] == stem)
      ensures i in disk.fs.intended && disk.fs.intended[i] == content
      ensures Steady() ==>
        if Pending(stem) in old(disk.fs.names) then r == Collision && disk.fs == old(disk.fs)
        else r == Published && disk.fs == PublishedIn(old(disk.fs), i, stem)
    {
      disk.OthersBesides(i);
      var works := Works();
      var atomic: bool := *;
      if !works { return Failed(Io); }
      if Pending(stem) in disk.fs.names { return Collision; }
      assert Staged(i) in Names(disk.fs, i);
      if atomic {
        disk.Do(PublishRename(i, stem));
        return Published;
      }
      r := LinkThenDrop(i, stem, content);
    }

    /** The `link` and `unlink` fallback inside the root. */
    method LinkThenDrop(i: Ino, stem: Stem, content: Bytes) returns (r: Attempt)
      requires Valid() && Owns(i, content) && disk.fs.data[i] == content && Pending(stem) !in disk.fs.names
      modifies disk
      ensures Valid() && OnlyEnqueueCalls(old(disk.run), i, content)
      ensures r != Collision
      ensures r == Published ==> Staged(i) !in disk.fs.names
      ensures i in disk.fs.origin && disk.fs.origin[i] == stem
      ensures i in disk.fs.intended && disk.fs.intended[i] == content
      ensures Steady() ==> r == Published && disk.fs == PublishedIn(old(disk.fs), i, stem)
    {
      assert Staged(i) in Names(disk.fs, i);
      NamesAfter(disk.fs, PublishLink(i, stem), i);
      disk.Do(PublishLink(i, stem));
      disk.OthersBesidePublished(i, stem);
      var unlinks := Works();
      if !unlinks { return Failed(Io); }
      assert Staged(i) in Names(disk.fs, i);
      disk.Do(DropStaged(i));
      return Published;
    }

    /** `_publish_staged`: the first numbered name that is neither reserved nor taken. */
    method PublishStaged(i: Ino, base: Stem, content: Bytes) returns (r: Result<Stem>)
      requires Valid() && Owns(i, content) && disk.fs.data[i] == content
      modifies disk, guards
      ensures Valid() && guards.held == old(guards.held) && OnlyEnqueueCalls(old(disk.run), i, content)
      ensures r.Ok? ==>
        && i in disk.fs.origin && disk.fs.origin[i] == r.value && Staged(i) !in disk.fs.names
        && exists n :: 0 <= n < CANDIDATES && r.value == Numbered(base, n)
      ensures r.Err? ==> i in disk.fs.origin || Owns(i, content)
      ensures i in disk.fs.intended && disk.fs.intended[i] == content
      ensures Steady() ==>
        && LowestStem(old(guards.held), old(disk.fs), base, r)
        && disk.fs == if r.Ok? then PublishedIn(old(disk.fs), i, r.value) else old(disk.fs)
    {
      var number := 0;
      while number < CANDIDATES
        invariant 0 <= number && Valid() && guards.held == old(guards.held)
        invariant Owns(i, content) && disk.fs.data[i] == content && OnlyEnqueueCalls(old(disk.run), i, content)
        invariant Steady() ==> disk.fs == old(disk.fs) && NoStemBelow(guards.held, disk.fs, base, number)
      {
        NextStem(guards.held, disk.fs, base, number);
        var done := PublishAs(i, Numbered(base, number), content);
        if done.Some? { return done.value; }
        number := number + 1;
      }
      return Err(Exhausted);
    }

    /** One name: nothing is done if it is reserved or taken. */
    method PublishAs(i: Ino, stem: Stem, content: Bytes) returns (r: Option<Result<Stem>>)
      requires Valid() && Owns(i, content) && disk.fs.data[i] == content
      modifies disk, guards
      ensures Valid() && guards.held == old(guards.held) && OnlyEnqueueCalls(old(disk.run), i, content)
      ensures r.None? ==> Owns(i, content) && disk.fs.data[i] == content
      ensures r.Some? && r.value.Ok? ==>
        r.value.value == stem && i in disk.fs.origin && disk.fs.origin[i] == stem && Staged(i) !in disk.fs.names
      ensures r.Some? && r.value.Err? ==> i in disk.fs.origin || Owns(i, content)
      ensures i in disk.fs.intended && disk.fs.intended[i] == content
      ensures Steady() ==>
        if FreeStem(old(guards.held), old(disk.fs), stem)
        then r == Some(Ok(stem)) && disk.fs == PublishedIn(old(disk.fs), i, stem)
        else r == None && disk.fs == old(disk.fs)
    {
      FreedUndoesTaken(guards.held, guards.slot(PublishLock(stem)));
      var got := Reserve(PublishLock(stem));
      if got == Raised { return Some(Err(Io)); }
      if got == Busy { return None; }
      var attempt := PublishNoReplace(i, stem, content);
      guards.ReleaseReservation(PublishLock(stem));
      if attempt == Published {
        var syncs := Works();
        return Some(if syncs then Ok(stem) else Err(Io));
      }
      r := if attempt == Collision then None else Some(Err(Io));
    }

    /** `enqueue` up to its retention pass. `file` is the inode mkstemp happens to choose; `entry` is the
    run up to the end of the recovery. A failure may still leave the complete record published. */
    method Enqueue(base: Stem, content: Bytes, file: Ino)
      returns (r: Result<Stem>, ghost entry: Option<seq<Label>>)
      requires Valid() && guards.held == map[]
      modifies disk, guards
      ensures Valid() && guards.held == map[]
      ensures entry.None? ==> r == Err(Io)
      ensures entry.Some? ==>
        && old(disk.run) <= entry.value && CanRun(disk.start, entry.value)
        && OnlyEnqueueCalls(entry.value, file, content)
        && (disk.quiet ==> After(disk.start, entry.value) == Recovered(old(disk.fs), HeldByOthers()))
      ensures r.Ok? ==>
        && file in disk.fs.origin && disk.fs.origin[file] == r.value && Staged(file) !in disk.fs.names
        && file in disk.fs.data && disk.fs.data[file] == content
        && exists n :: 0 <= n < CANDIDATES && r.value == Numbered(base, n)
      ensures Steady() ==> entry.Some?
      ensures Steady() && file !in old(disk.fs.data) ==>
        var fs := Recovered(old(disk.fs), HeldByOthers());
        && LowestStem(Taken(map[], guards.slot(StagedFile)), fs, base, r)
        && disk.fs == if r.Ok? then Enqueued(fs, file, r.value, content) else Abandoned(fs, file, content)
    {
      entry := None;
      var ok := Prepare();
      if !ok { return Err(Io), entry; }
      entry := Some(disk.run);
      r := AddRecord(base, content, file);
    }

    /** The rest of it, on the recovered directory. */
    method AddRecord(base: Stem, content: Bytes, file: Ino) returns (r: Result<Stem>)
      requires Valid() && guards.held == map[]
      modifies disk, guards
      ensures Valid() && guards.held == map[] && OnlyEnqueueCalls(old(disk.run), file, content)
      ensures r.Ok? ==>
        && file in disk.fs.origin && disk.fs.origin[file] == r.value && Staged(file) !in disk.fs.names
        && file in disk.fs.data && disk.fs.data[file] == content
        && exists n :: 0 <= n < CANDIDATES && r.value == Numbered(base, n)
      ensures Steady() && file !in old(disk.fs.data) ==>
        && LowestStem(Taken(map[], guards.slot(StagedFile)), old(disk.fs), base, r)
        && disk.fs == if r.Ok? then Enqueued(old(disk.fs), file, r.value, content)
                      else Abandoned(old(disk.fs), file, content)
    {
      ghost var fs0 := disk.fs;
      assert file !in fs0.data ==> Sound(fs0, file);
      assert file !in fs0.data ==> Staged(file) !in fs0.names by {
        if Staged(file) in fs0.names { NamesOf(fs0, Staged(file)); }
      }
      var ok := WriteStaged(file, content);
      if !ok { return Err(Io); }
      FreedUndoesTaken(map[], guards.slot(StagedFile));
      r := PublishStaged(file, base, content);
      if Steady() && file !in fs0.data { EnqueuedInSteps(fs0, file, content, r); }
      assert Sound(disk.fs, file);
      if r.Err? { DiscardStaged(file, content); }
      guards.Release(StagedFile);
    }

    /** `ack`: recover, check that the record has one link, unlink its name. Nothing is locked, so
    others may move or remove the record in between; `entry` is the directory that was checked. */
    method Ack(stem: Stem) returns (r: Result<bool>, ghost entry: Option<FS>)
      requires Valid() && guards.held == map[]
      modifies disk, guards
      ensures Valid() && guards.held == map[] && old(disk.run) <= disk.run
      ensures entry.None? ==> r == Err(Io)
      ensures entry.Some? && disk.quiet ==> entry.value == Recovered(old(disk.fs), HeldByOthers())
      ensures r == Ok(true) <==> entry.Some? && SoleName(entry.value, Pending(stem))
      ensures r == Ok(false) <==> entry.Some? && Pending(stem) !in entry.value.names
      ensures r == Ok(true) ==>
        && Pending(stem) !in disk.fs.names
        && var i := entry.value.names[Pending(stem)];
           (i in disk.fs.retired || !Unmoved(disk.fs, i))
           && (disk.quiet ==> disk.fs == Apply(Apply(entry.value, Check(stem)), Retire(stem)))
      ensures entry.Some? && r != Ok(true) ==> disk.fs == entry.value
      ensures Steady() ==> entry.Some?
    {
      entry := None;
      var ok := Prepare();
      if !ok { return Err(Io), entry; }
      entry := Some(disk.fs);
      if Pending(stem) !in disk.fs.names { return Ok(false), entry; }
      if !SoleName(disk.fs, Pending(stem)) { return Err(NotPending), entry; }
      var i := disk.fs.names[Pending(stem)];
      PendingIsPublished(disk.fs, stem);
      disk.Do(Check(stem));
      disk.OthersUnhindered(stem, false, i);
      if Pending(stem) in disk.fs.names { disk.Do(Retire(stem)); }
      GoneRecord(disk.fs, i);
      return Ok(true), entry;
    }

    /** `reject`: recover, then move the record, or look up where it went. `entry` is the directory in
    which the source name was looked for. */
    method Reject(source: Stem)
      returns (r: Result<Stem>, ghost entry: Option<FS>, ghost file: Ino, ghost grant: seq<Label>,
               ghost entered: bool)
      requires Valid() && guards.held == map[]
      modifies disk, guards
      ensures Valid() && guards.held == map[] && old(disk.run) <= disk.run
      ensures entry.None? ==> r == Err(Io)
      ensures entry.Some? && disk.quiet ==> entry.value == Recovered(old(disk.fs), HeldByOthers())
      ensures entry.Some? && Pending(source) !in entry.value.names ==>
        r == ExistingRejection(disk.fs, source) && (disk.quiet ==> disk.fs == entry.value)
      ensures entry.Some? && SoleName(entry.value, Pending(source)) ==>
        && file == entry.value.names[Pending(source)] && grant <= disk.run && CanRun(disk.start, grant)
        && Settled(After(disk.start, grant), disk.fs, Op(source, REJECTED), file, r)
        && (Unmoved(After(disk.start, grant), file) ==>
              (RunOverwrites(disk.start, disk.run, Op(source, REJECTED), file) <==>
               RunOverwrites(disk.start, grant, Op(source, REJECTED), file)))
        && (entered ==>
              (r == Err(MarkerMismatch) <==> Mismatched(After(disk.start, grant), Op(source, REJECTED), file)))
        && (!entered ==> r.Err? && r.failure in {InProgress, NotPending, Io})
        && (disk.quiet ==> After(disk.start, grant) == entry.value)
      ensures entry.Some? && Pending(source) in entry.value.names && !SoleName(entry.value, Pending(source)) ==>
        r == Err(NotPending) && disk.fs == entry.value
      ensures Steady() ==> entry.Some?
      ensures Steady() && SoleName(entry.value, Pending(source)) ==>
        SteadyMove(map[], entry.value, disk.fs, Op(source, REJECTED), file, entered, r)
    {
      file, grant, entry, entered := 0, disk.run, None, false;
      var ok := Prepare();
      if !ok { return Err(Io), entry, file, grant, entered; }
      entry := Some(disk.fs);
      if Pending(source) !in disk.fs.names {
        disk.OthersFreely();
        return ExistingRejection(disk.fs, source), entry, file, grant, entered;
      }
      r, file, grant, entered := MoveToDeadLetter(source, REJECTED);
    }
  }
}
