/** What `_prepare` does to a directory left behind by crashed processes, as a function, and what
that means for records: enqueue is atomic, recovery leaves one name per record and is idempotent. */
module SpoolRecovery {
  import opened SpoolProtocol
  import opened SpoolRuns
  import opened Wrappers

  /** What other live processes hold: the guard files that dead-letter operations use, which several
  operations may share, the locks of files, and the one guard file of all staged files. */
  datatype Holders = Holders(operations: Op -> bool, files: set<Ino>, staging: bool)

  const NOBODY := Holders((op: Op) => false, {}, false)

  /** A half-finished move whose guard and source lock recovery can take. */
  predicate Finishable(fs: FS, busy: Holders, op: Op) {
    && op in fs.markers && !busy.operations(op)
    && HalfMoved(fs, op) && fs.names[Pending(op.source)] !in busy.files
  }

  predicate Dropped(fs: FS, busy: Holders, p: Path)
    requires p in fs.names
  {
    match p
    case Staged(_) => !busy.staging && fs.names[p] !in busy.files
    case Pending(s) => exists op :: op in fs.markers && op.source == s && Finishable(fs, busy, op)
    case DeadLetter(_) => false
  }

  /** The directory after `_prepare`: half-finished moves are finished, stale staging names are gone. */
  function Recovered(fs: FS, busy: Holders): FS {
    fs.(names := map p | p in fs.names && !Dropped(fs, busy, p) :: fs.names[p])
  }

  /** The records `pending` lists: files with a root name and link count one. */
  function Listed(fs: FS): map<Path, Bytes> {
    map p | p in fs.names && p.Pending? && SoleName(fs, p) && fs.names[p] in fs.data :: fs.data[fs.names[p]]
  }

  /** The dead letters `stats` counts: dead-letter names with link count one. */
  function DeadLetters(fs: FS): map<Path, Bytes> {
    map p | p in fs.names && p.DeadLetter? && SoleName(fs, p) && fs.names[p] in fs.data :: fs.data[fs.names[p]]
  }

  lemma NamesRecovered(fs: FS, busy: Holders, i: Ino)
    ensures Names(Recovered(fs, busy), i) == set p | p in Names(fs, i) && !Dropped(fs, busy, p)
  {
  }

  /** A published record loses its staging name, or its root name if it has a dead-letter name. */
  lemma RecordRecovered(fs: FS, busy: Holders, i: Ino)
    requires Inv(fs) && i in fs.origin && i !in fs.retired
    ensures var s := fs.origin[i]; var left := Names(Recovered(fs, busy), i);
      if Names(fs, i) == {Staged(i), Pending(s)} then
        left == if busy.staging || i in busy.files then Names(fs, i) else {Pending(s)}
      else if exists op ::
                op in fs.markers && op.source == s && Finishable(fs, busy, op) && fs.names[Pending(s)] == i then
        left == Names(fs, i) - {Pending(s)} && left != {}
      else
        left == Names(fs, i)
  {
    NamesRecovered(fs, busy, i);
    assert Sound(fs, i) && Placed(fs, i);
    forall op | op in fs.markers && op.source == fs.origin[i] && Finishable(fs, busy, op)
                && fs.names[Pending(op.source)] == i
      ensures DeadLetter(fs.markers[op].destination) in Names(Recovered(fs, busy), i)
    {
      assert DeadLetter(fs.markers[op].destination) in Names(fs, i);
    }
  }

  lemma RecoveredKeepsInv(fs: FS, busy: Holders)
    requires Inv(fs)
    ensures Inv(Recovered(fs, busy))
  {
    var fs' := Recovered(fs, busy);
    forall i ensures Sound(fs', i) {
      assert Sound(fs, i);
      NamesRecovered(fs, busy, i);
      if i in fs.origin && i !in fs.retired {
        RecordRecovered(fs, busy, i);
      }
    }
  }

  /** What recovery makes of a record after any run, once every process has died. Its bytes stay. If
  nobody moved it, it has its root name only; if it was moved and its marker not rewritten since, it
  has the marker's destination only; if the marker was rewritten, it keeps the names it has. */
  lemma RecoveryLeavesOneName(fs: FS, run: seq<Label>, i: Ino)
    requires Inv(fs) && CanRun(fs, run) && Unmoved(fs, i) && i in After(fs, run).origin
    ensures var fs' := After(fs, run); var r := Recovered(fs', NOBODY); var mover := Mover(fs, run, i);
      && i in fs'.data && i in r.data && r.data[i] == fs'.data[i]
      && if i in fs'.retired then Names(r, i) == Names(fs', i) && Departed(r, i)
         else if mover.None? then Names(r, i) == {Pending(fs'.origin[i])}
         else if RunOverwrites(fs, run, mover.value, i) then Names(r, i) == Names(fs', i)
         else mover.value in fs'.markers
              && Names(r, i) == {DeadLetter(fs'.markers[mover.value].destination)}
  {
    var fs', mover := After(fs, run), Mover(fs, run, i);
    RunKeepsInv(fs, run);
    assert Sound(fs', i);
    NamesRecovered(fs', NOBODY, i);
    forall op: Op | op.source == fs'.origin[i]
      ensures Tells(fs', op, i) <==> mover == Some(op) && !RunOverwrites(fs, run, op, i)
      ensures Tells(fs', op, i) ==> DigestAgrees(fs', op, i)
      ensures Unmoved(fs', i) <==> mover == None
    {
      MarkerTellsExactly(fs, run, op, i);
    }
    if i !in fs'.retired {
      RecordRecovered(fs', NOBODY, i);
      if mover.Some? {
        MarkerTellsExactly(fs, run, Op(fs'.origin[i], REJECTED), i);
        MovedRecovered(fs', mover.value, i);
      } else {
        MarkerTellsExactly(fs, run, Op(fs'.origin[i], REJECTED), i);
        assert Placed(fs', i);
      }
    }
  }

  /** Recovery and a moved record: it loses its root name if a marker tells its dead-letter name. */
  lemma MovedRecovered(fs: FS, op: Op, i: Ino)
    requires Inv(fs) && i in fs.origin && i !in fs.retired && !Unmoved(fs, i)
    requires op in fs.markers && op.source == fs.origin[i]
    requires forall other: Op :: other.source == op.source && other != op ==> !Tells(fs, other, i)
    requires Tells(fs, op, i) ==> DigestAgrees(fs, op, i)
    ensures Names(Recovered(fs, NOBODY), i) ==
            if Tells(fs, op, i) then {DeadLetter(fs.markers[op].destination)} else Names(fs, i)
  {
    RecordRecovered(fs, NOBODY, i);
    assert Sound(fs, i) && Placed(fs, i);
    var d :| DeadLetter(d) in Names(fs, i);
    forall other | other in fs.markers && other.source == op.source && Finishable(fs, NOBODY, other)
                   && fs.names[Pending(op.source)] == i
      ensures other == op && Tells(fs, op, i)
    {
      assert DeadLetter(fs.markers[other].destination) in Names(fs, i);
    }
    if Tells(fs, op, i) && Pending(op.source) in Names(fs, i) {
      assert Finishable(fs, NOBODY, op);
    }
  }

  lemma StillHalfMoved(fs: FS, busy: Holders, op: Op)
    requires Inv(fs) && HalfMoved(Recovered(fs, busy), op)
    ensures HalfMoved(fs, op) && !Finishable(fs, busy, op)
  {
    var i := fs.names[Pending(op.source)];
    PendingIsPublished(fs, op.source);
    RecordRecovered(fs, busy, i);
    assert Sound(fs, i) && Placed(fs, i);
    assert DeadLetter(fs.markers[op].destination) in Names(Recovered(fs, busy), i);
  }

  /** A second recovery finds nothing to do. */
  lemma RecoveryIsIdempotent(fs: FS, busy: Holders)
    requires Inv(fs)
    ensures Recovered(Recovered(fs, busy), busy) == Recovered(fs, busy)
  {
    var fs' := Recovered(fs, busy);
    forall p | p in fs'.names ensures !Dropped(fs', busy, p) {
      forall op | op in fs'.markers && HalfMoved(fs', op) ensures !Finishable(fs', busy, op) {
        StillHalfMoved(fs, busy, op);
      }
    }
    assert Recovered(fs', busy).names == fs'.names;
  }

  // ---------------------------------------------------------------------------------------------
  // Enqueue is atomic
  // ---------------------------------------------------------------------------------------------

  /** The system calls one enqueue issues for its staged file `i`. */
  predicate EnqueueLabel(l: Label, i: Ino, content: Bytes) {
    || l == Skip
    || l == Stage(i, content)
    || (l.Write? && l.file == i)
    || ((l.PublishLink? || l.PublishRename?) && l.file == i)
    || l == DropStaged(i)
  }

  /** Which record names recovery would list, and with which bytes. */
  function Visible(fs: FS, busy: Holders): map<Path, Bytes> {
    Listed(Recovered(fs, busy))
  }

  lemma ListedIsComplete(fs: FS, p: Path)
    requires Inv(fs) && p in Listed(fs)
    ensures fs.names[p] in fs.origin && fs.names[p] in fs.intended
    ensures Listed(fs)[p] == fs.intended[fs.names[p]]
  {
    PendingIsPublished(fs, p.stem);
  }

  /** `fs'` differs from `fs` by some of the calls for staged file `i`: by its staging name, by its
  published name, which was free, and by its bytes. */
  ghost predicate Around(fs: FS, fs': FS, i: Ino, content: Bytes) {
    && fs'.markers == fs.markers && i !in fs.data && Names(fs, i) == {}
    && AroundBytes(fs, fs', i, content) && AroundNames(fs, fs', i)
  }

  ghost predicate AroundBytes(fs: FS, fs': FS, i: Ino, content: Bytes) {
    && i !in fs'.retired
    && (forall j :: j != i ==> (j in fs'.data <==> j in fs.data) && (j in fs.data ==> fs'.data[j] == fs.data[j]))
    && (i in fs'.intended ==> fs'.intended[i] == content)
  }

  ghost predicate AroundNames(fs: FS, fs': FS, i: Ino) {
    && (forall p :: p != Staged(i) && !IsPublished(fs', i, p) ==>
          (p in fs'.names <==> p in fs.names) && (p in fs.names ==> fs'.names[p] == fs.names[p]))
    && (forall p :: IsPublished(fs', i, p) ==> p !in fs.names && p in fs'.names && fs'.names[p] == i)
  }

  predicate IsPublished(fs: FS, i: Ino, p: Path) {
    i in fs.origin && p == Pending(fs.origin[i])
  }

  lemma BytesStep(fs: FS, mid: FS, l: Label, i: Ino, content: Bytes)
    requires Inv(mid) && AroundBytes(fs, mid, i, content) && Enabled(mid, l) && EnqueueLabel(l, i, content)
    ensures AroundBytes(fs, Apply(mid, l), i, content)
  {
  }

  lemma NamesStep(fs: FS, mid: FS, l: Label, i: Ino, content: Bytes)
    requires Inv(mid) && AroundNames(fs, mid, i) && Enabled(mid, l) && EnqueueLabel(l, i, content)
    ensures AroundNames(fs, Apply(mid, l), i)
  {
  }

  lemma AroundStep(fs: FS, mid: FS, l: Label, i: Ino, content: Bytes)
    requires Inv(mid) && Around(fs, mid, i, content) && Enabled(mid, l) && EnqueueLabel(l, i, content)
    ensures Around(fs, Apply(mid, l), i, content)
  {
    BytesStep(fs, mid, l, i, content);
    NamesStep(fs, mid, l, i, content);
  }

  lemma {:induction false} AroundRun(fs: FS, run: seq<Label>, i: Ino, content: Bytes)
    requires Inv(fs) && CanRun(fs, run) && i !in fs.data
    requires forall k :: 0 <= k < |run| ==> EnqueueLabel(run[k], i, content)
    ensures Around(fs, After(fs, run), i, content)
  {
    if run == [] {
      assert Sound(fs, i);
    } else {
      var before := run[..|run| - 1];
      AroundRun(fs, before, i, content);
      RunKeepsInv(fs, before);
      AroundStep(fs, After(fs, before), run[|run| - 1], i, content);
    }
  }

  lemma Nameless(fs: FS, i: Ino)
    requires Names(fs, i) == {}
    ensures forall p :: p in fs.names ==> fs.names[p] != i
  {
    forall p | p in fs.names ensures fs.names[p] != i {
      NamesOf(fs, p);
    }
  }

  /** Every other file has the names it had; file `i` has its staging name, its published name, both
  or none. */
  lemma NamesAround(fs: FS, fs': FS, i: Ino, content: Bytes, j: Ino)
    requires Inv(fs) && Inv(fs') && Around(fs, fs', i, content)
    ensures Names(fs', j) ==
            if j != i then Names(fs, j)
            else (if Staged(i) in fs'.names then {Staged(i)} else {})
                 + (if i in fs'.origin then {Pending(fs'.origin[i])} else {})
  {
    forall p
      ensures p in Names(fs', j) <==>
              if j != i then p in Names(fs, j) else (p == Staged(i) && p in fs'.names) || IsPublished(fs', i, p)
    {
      if p in fs.names && fs.names[p] == i {
        NamesOf(fs, p);
      }
    }
  }

  /** Recovery finishes the same moves. */
  lemma SameMoves(fs: FS, fs': FS, i: Ino, content: Bytes, busy: Holders, op: Op)
    requires Inv(fs) && Inv(fs') && Around(fs, fs', i, content)
    ensures Finishable(fs', busy, op) <==> Finishable(fs, busy, op)
  {
    var p := Pending(op.source);
    if p in fs.names {
      NamesOf(fs, p);
      NamesAround(fs, fs', i, content, fs.names[p]);
      assert !IsPublished(fs', i, p);
      assert Sound(fs, fs.names[p]);
    } else if p in fs'.names {
      NamesAround(fs, fs', i, content, i);
    }
  }

  /** Recovery takes the same names from other files, and the staging name of `i` if it may. */
  lemma SameDropped(fs: FS, fs': FS, i: Ino, content: Bytes, busy: Holders, p: Path)
    requires Inv(fs) && Inv(fs') && Around(fs, fs', i, content) && p in fs'.names
    ensures p in fs.names ==> fs'.names[p] == fs.names[p] && (Dropped(fs', busy, p) <==> Dropped(fs, busy, p))
    ensures p !in fs.names ==>
      fs'.names[p] == i && (p == Staged(i) || IsPublished(fs', i, p))
      && (Dropped(fs', busy, p) <==> p == Staged(i) && !busy.staging && i !in busy.files)
  {
    if p in fs.names {
      NamesOf(fs, p);
    }
    if p.Pending? {
      forall op: Op | op.source == p.stem ensures Finishable(fs', busy, op) <==> Finishable(fs, busy, op) {
        SameMoves(fs, fs', i, content, busy, op);
      }
      if p !in fs.names {
        NamesAround(fs, fs', i, content, i);
      }
    }
  }

  /** The record of staged file `i` is in the listing: published, and its staging name gone or due. */
  ghost predicate ShownAfter(fs': FS, i: Ino, busy: Holders) {
    i in fs'.origin && (Staged(i) in fs'.names ==> !busy.staging && i !in busy.files)
  }

  lemma OthersRecovered(fs: FS, fs': FS, i: Ino, content: Bytes, busy: Holders, j: Ino)
    requires Inv(fs) && Inv(fs') && Around(fs, fs', i, content) && j != i
    ensures Names(Recovered(fs', busy), j) == Names(Recovered(fs, busy), j)
  {
    NamesRecovered(fs, busy, j);
    NamesRecovered(fs', busy, j);
    NamesAround(fs, fs', i, content, j);
    forall p | p in Names(fs', j) ensures Dropped(fs', busy, p) <==> Dropped(fs, busy, p) {
      SameDropped(fs, fs', i, content, busy, p);
    }
  }

  lemma StageRecoveredAround(fs: FS, fs': FS, i: Ino, content: Bytes, busy: Holders)
    requires Inv(fs) && Inv(fs') && Around(fs, fs', i, content) && i in fs'.origin
    ensures Names(Recovered(fs', busy), i) ==
            {Pending(fs'.origin[i])} + if ShownAfter(fs', i, busy) then {} else {Staged(i)}
  {
    NamesRecovered(fs', busy, i);
    NamesAround(fs, fs', i, content, i);
    assert IsPublished(fs', i, Pending(fs'.origin[i]));
    Nameless(fs, i);
    forall p | p in Names(fs', i)
      ensures Dropped(fs', busy, p) <==> p == Staged(i) && !busy.staging && i !in busy.files
    {
      SameDropped(fs, fs', i, content, busy, p);
    }
  }

  /** What readers see after recovery: the same records and dead letters, and the record of staged file
  `i`, complete, under a name nobody used, if it is shown. */
  ghost predicate OldOrOneMore(fs: FS, fs': FS, i: Ino, content: Bytes, busy: Holders) {
    && DeadLetters(Recovered(fs', busy)) == DeadLetters(Recovered(fs, busy))
    && if ShownAfter(fs', i, busy)
       then Pending(fs'.origin[i]) !in fs.names
            && Visible(fs', busy) == Visible(fs, busy)[Pending(fs'.origin[i]) := content]
       else Visible(fs', busy) == Visible(fs, busy)
  }

  predicate SeenAlike(r: FS, r': FS, p: Path) {
    && (SoleName(r', p) <==> SoleName(r, p))
    && (SoleName(r, p) ==>
          && r'.names[p] == r.names[p]
          && (r'.names[p] in r'.data <==> r.names[p] in r.data)
          && (r.names[p] in r.data && r'.names[p] in r'.data ==> r'.data[r'.names[p]] == r.data[r.names[p]]))
  }

  lemma SeenAround(fs: FS, fs': FS, i: Ino, content: Bytes, busy: Holders, p: Path)
    requires Inv(fs) && Inv(fs') && Around(fs, fs', i, content)
    requires !p.Staged? && !IsPublished(fs', i, p)
    ensures SeenAlike(Recovered(fs, busy), Recovered(fs', busy), p)
  {
    if p in fs.names {
      NamesOf(fs, p);
      SameDropped(fs, fs', i, content, busy, p);
      OthersRecovered(fs, fs', i, content, busy, fs.names[p]);
    }
  }

  lemma SeenAtPublished(fs: FS, fs': FS, i: Ino, content: Bytes, busy: Holders)
    requires Inv(fs) && Inv(fs') && Around(fs, fs', i, content) && i in fs'.origin
    ensures var p, r' := Pending(fs'.origin[i]), Recovered(fs', busy);
      && p !in fs.names && p in r'.names && r'.names[p] == i
      && (SoleName(r', p) <==> ShownAfter(fs', i, busy))
      && i in r'.data && r'.data[i] == content
  {
    var p, r' := Pending(fs'.origin[i]), Recovered(fs', busy);
    assert IsPublished(fs', i, p);
    StageRecoveredAround(fs, fs', i, content, busy);
    assert p in Names(r', i);
    assert Sound(fs', i);
  }

  lemma VisibleAround(fs: FS, fs': FS, i: Ino, content: Bytes, busy: Holders)
    requires Inv(fs) && Inv(fs') && Around(fs, fs', i, content)
    ensures OldOrOneMore(fs, fs', i, content, busy)
  {
    var r, r' := Recovered(fs, busy), Recovered(fs', busy);
    if i in fs'.origin { SeenAtPublished(fs, fs', i, content, busy); }
    forall p: Path | !p.Staged? && !IsPublished(fs', i, p) ensures SeenAlike(r, r', p) {
      SeenAround(fs, fs', i, content, busy, p);
    }
    if i in fs'.origin {
      SameViews(r, r', Pending(fs'.origin[i]), content, ShownAfter(fs', i, busy));
    } else {
      SameViews(r, r', Staged(i), content, false);
    }
  }

  /** Two directories that look alike but for one root name. */
  lemma SameViews(r: FS, r': FS, name: Path, content: Bytes, shown: bool)
    requires !name.DeadLetter?
    requires forall p: Path :: !p.Staged? && p != name ==> SeenAlike(r, r', p)
    requires name.Pending? ==> name !in r.names && (SoleName(r', name) <==> shown)
    requires shown ==> name.Pending? && name in r'.names && r'.names[name] in r'.data
                       && r'.data[r'.names[name]] == content
    ensures Listed(r') == if shown then Listed(r)[name := content] else Listed(r)
    ensures DeadLetters(r') == DeadLetters(r)
  {
    forall p: Path | p != name
      ensures p in DeadLetters(r') <==> p in DeadLetters(r)
      ensures p in DeadLetters(r) ==> DeadLetters(r')[p] == DeadLetters(r)[p]
    {
      if !p.Staged? { assert SeenAlike(r, r', p); }
    }
    forall p: Path | p != name
      ensures p in Listed(r') <==> p in Listed(r)
      ensures p in Listed(r) ==> Listed(r')[p] == Listed(r)[p]
    {
      if !p.Staged? { assert SeenAlike(r, r', p); }
    }
    SameButOne(DeadLetters(r), DeadLetters(r'), name, content, false);
    SameButOne(Listed(r), Listed(r'), name, content, shown);
  }

  lemma SameButOne(m: map<Path, Bytes>, m': map<Path, Bytes>, name: Path, content: Bytes, shown: bool)
    requires forall p: Path :: p != name ==> (p in m' <==> p in m) && (p in m ==> m'[p] == m[p])
    requires name !in m && (name in m' <==> shown) && (shown ==> m'[name] == content)
    ensures m' == if shown then m[name := content] else m
  {
  }

  /** However far an enqueue got before it crashed, and whoever holds guards and locks meanwhile,
  recovery shows readers the records they would have seen without it, or those and one more: the
  complete one, under a name nobody used. */
  lemma EnqueueIsAtomic(fs: FS, run: seq<Label>, i: Ino, content: Bytes, busy: Holders)
    requires Inv(fs) && CanRun(fs, run) && i !in fs.data
    requires forall k :: 0 <= k < |run| ==> EnqueueLabel(run[k], i, content)
    ensures OldOrOneMore(fs, After(fs, run), i, content, busy)
  {
    AroundRun(fs, run, i, content);
    RunKeepsInv(fs, run);
    VisibleAround(fs, After(fs, run), i, content, busy);
  }

  lemma PrefixRuns(start: FS, entry: seq<Label>, own: seq<Label>, k: nat)
    requires CanRun(start, entry + own) && k <= |own|
    ensures CanRun(start, entry) && CanRun(start, entry + own[..k]) && CanRun(After(start, entry), own[..k])
    ensures After(start, entry + own[..k]) == After(After(start, entry), own[..k])
  {
    assert entry + own == (entry + own[..k]) + own[k..];
    RunSplits(start, entry + own[..k], own[k..]);
    RunSplits(start, entry, own[..k]);
  }

  /** The same for an enqueue that followed an arbitrary run and crashed after `k` of its calls. */
  lemma CrashedEnqueue(start: FS, entry: seq<Label>, own: seq<Label>, k: nat, i: Ino, content: Bytes, busy: Holders)
    requires Inv(start) && CanRun(start, entry + own) && k <= |own|
    requires forall j :: 0 <= j < |own| ==> EnqueueLabel(own[j], i, content)
    requires CanRun(start, entry) && i !in After(start, entry).data
    ensures CanRun(start, entry + own[..k])
    ensures OldOrOneMore(After(start, entry), After(start, entry + own[..k]), i, content, busy)
  {
    PrefixRuns(start, entry, own, k);
    RunKeepsInv(start, entry);
    EnqueueIsAtomic(After(start, entry), own[..k], i, content, busy);
  }
}
