/** The spool directory as a protocol: what one system call may do to it, and what every run keeps.

The state is the directory as all processes see it: inodes with their bytes, one map of names for
the spool root and its dead-letter directory, and the persisted dead-letter operation markers.
A `Label` is one system call. `Enabled` is what the code has established when it issues that call,
`Apply` is the effect. A crash changes nothing here: it only ends the sequence of labels of one
process, so a statement about every run is a statement about every crash point and about every
interleaving of spool instances. The classes in the other modules may touch the directory only
through enabled labels. */
module SpoolProtocol {
  import PythonText

  type Byte = b: nat | b < 256
  type Bytes = seq<Byte>
  type Ino = nat

  /** A visible record name without its ".json" extension. */
  type Stem = string

  /** Stands for SHA-256 taken as an injective function. */
  datatype Digest = Sha256(preimage: Bytes)

  /** A dead-letter operation; its hashed identifier is taken as injective. */
  datatype Op = Op(source: Stem, suffix: string)

  datatype Marker = Marker(destination: Stem, digest: Digest, committed: bool)

  const REJECTED := ".rejected"

  /** What `load` and `reject` append to the names of records they move. */
  const SUFFIXES := {"", REJECTED}

  const CANDIDATES := 1_000_000

  /** `_numbered_name`, on names without their extension. */
  function Numbered(base: Stem, number: nat): Stem {
    if number == 0 then base else base + "." + PythonText.Decimal(number)
  }

  /** `_dead_letter_name`; the attribution hash is represented by its argument. */
  function DeadLetterName(source: Stem, suffix: string): Stem {
    source + "." + source + suffix
  }

  /** The names among which an operation chooses, in order. */
  function Candidate(op: Op, n: nat): Stem {
    Numbered(DeadLetterName(op.source, op.suffix), n)
  }

  /** One of the names an operation may reserve for its record. */
  predicate IsCandidate(op: Op, d: Stem) {
    op.suffix in SUFFIXES
    && exists n :: 0 <= n < CANDIDATES && d == Numbered(DeadLetterName(op.source, op.suffix), n)
  }

  lemma CandidateTail(op: Op, d: Stem)
    requires IsCandidate(op, d)
    ensures var base := op.source + "." + op.source;
      && base <= d
      && (op.suffix == "" ==> d == base || (|d| > |base| + 1 && PythonText.IsDigit(d[|base| + 1])))
      && (op.suffix == REJECTED ==> |d| > |base| + 1 && d[|base| + 1] == 'r')
  {
    var base := op.source + "." + op.source;
    var n :| 0 <= n < CANDIDATES && d == Numbered(DeadLetterName(op.source, op.suffix), n);
    if op.suffix == "" {
      assert DeadLetterName(op.source, op.suffix) == base;
    } else {
      assert DeadLetterName(op.source, op.suffix)[|base| + 1] == REJECTED[1];
    }
  }

  /** Two operations on one source never choose the same name. */
  lemma CandidatesDiffer(op: Op, other: Op, d: Stem, e: Stem)
    requires IsCandidate(op, d) && IsCandidate(other, e) && op.source == other.source && op != other
    ensures d != e
  {
    CandidateTail(op, d);
    CandidateTail(other, e);
  }

  /** mkstemp never hands out the same staging name twice, so a staged file is named by its inode. */
  datatype Path = Staged(file: Ino) | Pending(stem: Stem) | DeadLetter(stem: Stem)

  /** The first three fields are the directory. The last five are bookkeeping for the statements:
  what each staged file is meant to contain, under which name it was published, which records some
  process has checked in order to acknowledge or evict them, which records were acknowledged or
  evicted, and which files somebody else put into the dead-letter directory. */
  datatype FS = FS(
    data: map<Ino, Bytes>,
    names: map<Path, Ino>,
    markers: map<Op, Marker>,
    intended: map<Ino, Bytes>,
    origin: map<Ino, Stem>,
    doomed: set<Ino>,
    retired: set<Ino>,
    foreign: set<Ino>)

  datatype Label =
    | Skip
    | Stage(file: Ino, content: Bytes)
    | Write(file: Ino, length: nat)
    | PublishLink(file: Ino, stem: Stem)
    | PublishRename(file: Ino, stem: Stem)
    | DropStaged(file: Ino)
    | Check(stem: Stem)
    | Retire(stem: Stem)
    | Mark(op: Op, marker: Marker)
    | MoveLink(op: Op)
    | MoveRename(op: Op)
    | DropSource(op: Op)
    | ForeignCreate(file: Ino, stem: Stem, content: Bytes)
    | ForeignDelete(stem: Stem)

  /** Every name of an inode; its size is the link count. */
  function Names(fs: FS, i: Ino): set<Path> {
    set p | p in fs.names && fs.names[p] == i
  }

  /** `st_nlink == 1` for the file named by `p`. */
  predicate SoleName(fs: FS, p: Path) {
    p in fs.names && Names(fs, fs.names[p]) == {p}
  }

  // ---------------------------------------------------------------------------------------------
  // Transitions
  // ---------------------------------------------------------------------------------------------

  predicate Enabled(fs: FS, l: Label) {
    match l
    case Skip => true
    case Stage(i, _) => i !in fs.data
    case Write(i, n) =>
      && i in fs.data && i in fs.intended && Staged(i) in fs.names && i !in fs.origin
      && |fs.data[i]| <= n <= |fs.intended[i]|
    case PublishLink(i, s) => PublishEnabled(fs, i, s)
    case PublishRename(i, s) => PublishEnabled(fs, i, s)
    case DropStaged(i) => Staged(i) in fs.names
    case Check(s) => SoleName(fs, Pending(s))
    case Retire(s) => Pending(s) in fs.names && fs.names[Pending(s)] in fs.doomed
    case Mark(op, m) => if m.committed then CommitEnabled(fs, op, m) else ReserveEnabled(fs, op, m)
    case MoveLink(op) => MoveEnabled(fs, op)
    case MoveRename(op) => MoveEnabled(fs, op)
    case DropSource(op) => HalfMoved(fs, op)
    case ForeignCreate(i, d, _) => i !in fs.data && DeadLetter(d) !in fs.names
    case ForeignDelete(d) => DeadLetter(d) in fs.names && fs.names[DeadLetter(d)] in fs.foreign
  }

  /** The staged file is complete and has no other name; the destination is free. */
  predicate PublishEnabled(fs: FS, i: Ino, s: Stem) {
    && Staged(i) in fs.names && fs.names[Staged(i)] == i && SoleName(fs, Staged(i))
    && i in fs.data && i in fs.intended && fs.data[i] == fs.intended[i]
    && i !in fs.origin
    && Pending(s) !in fs.names
  }

  /** An uncommitted marker carries the digest of a record published under the source name and one of
  its candidate destinations, which no record of the spool occupies. Nothing more is established: the code compares
  the source name with the opened file only after the marker is on disk. */
  predicate ReserveEnabled(fs: FS, op: Op, m: Marker) {
    && IsCandidate(op, m.destination)
    && (exists i :: i in fs.origin && fs.origin[i] == op.source && i in fs.data && m.digest == Sha256(fs.data[i]))
    && (DeadLetter(m.destination) in fs.names ==> fs.names[DeadLetter(m.destination)] in fs.foreign)
  }

  /** A marker is committed, unchanged otherwise, once its destination is the record itself. */
  predicate CommitEnabled(fs: FS, op: Op, m: Marker) {
    && op in fs.markers
    && m == fs.markers[op].(committed := true)
    && SoleName(fs, DeadLetter(m.destination))
    && var j := fs.names[DeadLetter(m.destination)];
    && j in fs.data && Sha256(fs.data[j]) == m.digest
    && j in fs.origin && fs.origin[j] == op.source
  }

  predicate MoveEnabled(fs: FS, op: Op) {
    && SoleName(fs, Pending(op.source))
    && op in fs.markers
    && DeadLetter(fs.markers[op].destination) !in fs.names
    && fs.names[Pending(op.source)] in fs.data
    && fs.markers[op].digest == Sha256(fs.data[fs.names[Pending(op.source)]])
  }

  /** The record carries exactly its root name and the destination its marker names. */
  predicate HalfMoved(fs: FS, op: Op) {
    && op in fs.markers
    && Pending(op.source) in fs.names
    && var i := fs.names[Pending(op.source)];
    && Names(fs, i) == {Pending(op.source), DeadLetter(fs.markers[op].destination)}
    && i in fs.data && fs.markers[op].digest == Sha256(fs.data[i])
  }

  function Apply(fs: FS, l: Label): FS
    requires Enabled(fs, l)
  {
    match l
    case Skip => fs
    case Stage(i, content) =>
      fs.(data := fs.data[i := []], names := fs.names[Staged(i) := i], intended := fs.intended[i := content])
    case Write(i, n) => fs.(data := fs.data[i := fs.intended[i][..n]])
    case PublishLink(i, s) =>
      fs.(names := fs.names[Pending(s) := i], origin := fs.origin[i := s])
    case PublishRename(i, s) =>
      fs.(names := fs.names[Pending(s) := i] - {Staged(i)}, origin := fs.origin[i := s])
    case DropStaged(i) => fs.(names := fs.names - {Staged(i)})
    case Check(s) => fs.(doomed := fs.doomed + {fs.names[Pending(s)]})
    case Retire(s) =>
      fs.(names := fs.names - {Pending(s)}, retired := fs.retired + {fs.names[Pending(s)]})
    case Mark(op, m) => fs.(markers := fs.markers[op := m])
    case MoveLink(op) =>
      fs.(names := fs.names[DeadLetter(fs.markers[op].destination) := fs.names[Pending(op.source)]])
    case MoveRename(op) =>
      fs.(names := fs.names[DeadLetter(fs.markers[op].destination) := fs.names[Pending(op.source)]]
                   - {Pending(op.source)})
    case DropSource(op) => fs.(names := fs.names - {Pending(op.source)})
    case ForeignCreate(i, d, content) =>
      fs.(data := fs.data[i := content], names := fs.names[DeadLetter(d) := i], foreign := fs.foreign + {i})
    case ForeignDelete(d) => fs.(names := fs.names - {DeadLetter(d)})
  }

  // ---------------------------------------------------------------------------------------------
  // Invariant
  // ---------------------------------------------------------------------------------------------

  /** Where a published record may be: under its root name, alone or beside its staging name or one
  dead-letter name, or under one dead-letter name alone. */
  ghost predicate Placed(fs: FS, i: Ino)
    requires i in fs.origin
  {
    var s := fs.origin[i];
    || Names(fs, i) == {Pending(s)}
    || Names(fs, i) == {Staged(i), Pending(s)}
    || (exists d: Stem :: Names(fs, i) == {Pending(s), DeadLetter(d)})
    || (exists d: Stem :: Names(fs, i) == {DeadLetter(d)})
  }

  /** An acknowledged or evicted record has no name, or a dead-letter name that a process gave it
  between the check and the unlink. */
  ghost predicate Departed(fs: FS, i: Ino) {
    Names(fs, i) == {} || exists d: Stem :: Names(fs, i) == {DeadLetter(d)}
  }

  ghost predicate Sound(fs: FS, i: Ino) {
    && (i in fs.doomed ==> i in fs.origin)
    && if i in fs.origin then
      && i in fs.data && i in fs.intended && fs.data[i] == fs.intended[i]
      && i !in fs.foreign
      && (if i in fs.retired then Departed(fs, i) else Placed(fs, i))
      && (i in fs.doomed ==> Staged(i) !in Names(fs, i))
    else if i in fs.intended then
      && i in fs.data && fs.data[i] <= fs.intended[i]
      && i !in fs.retired && i !in fs.foreign
      && Names(fs, i) <= {Staged(i)}
    else if i in fs.foreign then
      && i in fs.data && i !in fs.retired
      && forall p :: p in Names(fs, i) ==> p.DeadLetter?
    else
      i !in fs.data && i !in fs.retired && Names(fs, i) == {}
  }

  /** A marker names a candidate; if a record of its source is there, it holds that record's digest. */
  ghost predicate MarkerOk(fs: FS, op: Op)
    requires op in fs.markers
  {
    && IsCandidate(op, fs.markers[op].destination)
    && var d := DeadLetter(fs.markers[op].destination);
       (d in fs.names && fs.names[d] in fs.origin && fs.origin[fs.names[d]] == op.source ==>
          fs.names[d] in fs.data && fs.markers[op].digest == Sha256(fs.data[fs.names[d]]))
  }

  /** Staged names are self-describing, every inode is sound, and so is every marker. */
  ghost predicate Inv(fs: FS) {
    && (forall i :: Staged(i) in fs.names ==> fs.names[Staged(i)] == i)
    && (forall i :: Sound(fs, i))
    && (forall op :: op in fs.markers ==> MarkerOk(fs, op))
  }

  lemma NamesOf(fs: FS, p: Path)
    requires p in fs.names
    ensures p in Names(fs, fs.names[p])
  {
  }

  /** What an invariant state says about one visible name. */
  lemma PendingIsPublished(fs: FS, s: Stem)
    requires Inv(fs) && Pending(s) in fs.names
    ensures var i := fs.names[Pending(s)];
      i in fs.origin && fs.origin[i] == s && i !in fs.retired && i !in fs.foreign
      && i in fs.data && i in fs.intended && fs.data[i] == fs.intended[i]
  {
    var i := fs.names[Pending(s)];
    NamesOf(fs, Pending(s));
    assert Sound(fs, i);
    if i in fs.origin {
      assert Placed(fs, i);
      assert Pending(s) in Names(fs, i);
    }
  }

  // ---------------------------------------------------------------------------------------------
  // Every step keeps the invariant
  // ---------------------------------------------------------------------------------------------

  /** Names of inodes other than those touched are untouched. */
  lemma NamesAfter(fs: FS, l: Label, i: Ino)
    requires Inv(fs) && Enabled(fs, l)
    ensures Names(Apply(fs, l), i) ==
      match l
      case Stage(j, _) => if i == j then {Staged(j)} else Names(fs, i)
      case PublishLink(j, s) => if i == j then {Staged(j), Pending(s)} else Names(fs, i)
      case PublishRename(j, s) => if i == j then {Pending(s)} else Names(fs, i)
      case DropStaged(j) => Names(fs, i) - {Staged(j)}
      case Retire(s) => if i == fs.names[Pending(s)] then Names(fs, i) - {Pending(s)} else Names(fs, i)
      case MoveLink(op) =>
        if i == fs.names[Pending(op.source)] then {Pending(op.source), DeadLetter(fs.markers[op].destination)}
        else Names(fs, i)
      case MoveRename(op) =>
        if i == fs.names[Pending(op.source)] then {DeadLetter(fs.markers[op].destination)} else Names(fs, i)
      case DropSource(op) =>
        if i == fs.names[Pending(op.source)] then {DeadLetter(fs.markers[op].destination)} else Names(fs, i)
      case ForeignCreate(j, d, _) => if i == j then {DeadLetter(d)} else Names(fs, i)
      case ForeignDelete(d) => Names(fs, i) - {DeadLetter(d)}
      case _ => Names(fs, i)
  {
    var after := Names(Apply(fs, l), i);
    match l
    case Stage(j, _) => assert Sound(fs, j); assert Names(fs, j) == {};
    case DropStaged(j) => assert after == Names(fs, i) - {Staged(j)};
    case Retire(s) => assert after == Names(fs, i) - {Pending(s)};
    case MoveLink(op) =>
      var d := DeadLetter(fs.markers[op].destination);
      assert after == if i == fs.names[Pending(op.source)] then Names(fs, i) + {d} else Names(fs, i);
    case MoveRename(op) =>
      var d := DeadLetter(fs.markers[op].destination);
      assert after == if i == fs.names[Pending(op.source)] then {d} else Names(fs, i);
    case DropSource(op) => assert after == Names(fs, i) - {Pending(op.source)};
    case ForeignCreate(j, _, _) => assert Sound(fs, j); assert Names(fs, j) == {};
    case ForeignDelete(d) => assert after == Names(fs, i) - {DeadLetter(d)};
    case _ =>
  }

  lemma SoundAfter(fs: FS, l: Label, i: Ino)
    requires Inv(fs) && Enabled(fs, l)
    ensures Sound(Apply(fs, l), i)
  {
    NamesAfter(fs, l, i);
    assert Sound(fs, i);
    if i in fs.origin {
      PublishedAfter(fs, l, i);
    } else {
      UnpublishedAfter(fs, l, i);
    }
  }

  lemma PublishedAfter(fs: FS, l: Label, i: Ino)
    requires Inv(fs) && Enabled(fs, l) && i in fs.origin
    ensures Sound(Apply(fs, l), i)
  {
    var fs' := Apply(fs, l);
    NamesAfter(fs, l, i);
    assert Sound(fs, i);
    if i !in fs.retired {
      assert Placed(fs, i);
      match l
      case MoveLink(op) =>
        NamesOf(fs, Pending(op.source));
        assert i == fs.names[Pending(op.source)] ==>
          Names(fs', i) == {Pending(op.source), DeadLetter(fs.markers[op].destination)};
      case MoveRename(op) =>
        NamesOf(fs, Pending(op.source));
      case DropSource(op) =>
        NamesOf(fs, Pending(op.source));
      case Retire(s) => NamesOf(fs, Pending(s));
      case ForeignDelete(d) => NamesOf(fs, DeadLetter(d));
      case _ =>
    }
  }

  lemma UnpublishedAfter(fs: FS, l: Label, i: Ino)
    requires Inv(fs) && Enabled(fs, l) && i !in fs.origin
    ensures Sound(Apply(fs, l), i)
  {
    var fs' := Apply(fs, l);
    NamesAfter(fs, l, i);
    assert Sound(fs, i);
    match l
    case Retire(s) => PendingIsPublished(fs, s);
    case MoveLink(op) => PendingIsPublished(fs, op.source);
    case MoveRename(op) => PendingIsPublished(fs, op.source);
    case DropSource(op) => PendingIsPublished(fs, op.source);
    case _ =>
  }

  lemma MarkerAfter(fs: FS, l: Label, op: Op)
    requires Inv(fs) && Enabled(fs, l) && op in Apply(fs, l).markers
    ensures MarkerOk(Apply(fs, l), op)
  {
    match l
    case Mark(other, m) =>
      if DeadLetter(m.destination) in fs.names { assert Sound(fs, fs.names[DeadLetter(m.destination)]); }
    case MoveLink(other) => MovedMarker(fs, l, other, op);
    case MoveRename(other) => MovedMarker(fs, l, other, op);
    case PublishLink(i, s) => NewMarker(fs, l, i, op);
    case PublishRename(i, s) => NewMarker(fs, l, i, op);
    case Write(i, n) => NewMarker(fs, l, i, op);
    case Stage(i, content) => assert Sound(fs, i);
    case ForeignCreate(i, d, content) => assert Sound(fs, i);
    case _ =>
  }

  /** A record arrives at a destination that only its own operation's marker names. */
  lemma MovedMarker(fs: FS, l: Label, other: Op, op: Op)
    requires Inv(fs) && (l == MoveLink(other) || l == MoveRename(other)) && Enabled(fs, l) && op in fs.markers
    ensures MarkerOk(Apply(fs, l), op)
  {
    PendingIsPublished(fs, other.source);
    assert MarkerOk(fs, op) && MarkerOk(fs, other);
    if op.source == other.source && op != other {
      CandidatesDiffer(op, other, fs.markers[op].destination, fs.markers[other].destination);
    }
  }

  /** A file that is not published yet is no dead letter. */
  lemma NewMarker(fs: FS, l: Label, i: Ino, op: Op)
    requires Inv(fs) && Enabled(fs, l) && op in fs.markers
    requires l.PublishLink? || l.PublishRename? || l.Write?
    requires l.file == i
    ensures MarkerOk(Apply(fs, l), op)
  {
    assert MarkerOk(fs, op) && Sound(fs, i);
    var d := DeadLetter(fs.markers[op].destination);
    if d in fs.names { NamesOf(fs, d); }
    assert d in fs.names ==> fs.names[d] != i;
  }

  /** Every system call of every instance keeps every record and every marker sound. */
  lemma StepKeepsInv(fs: FS, l: Label)
    requires Inv(fs) && Enabled(fs, l)
    ensures Inv(Apply(fs, l))
  {
    forall i ensures Sound(Apply(fs, l), i) {
      SoundAfter(fs, l, i);
    }
    forall op | op in Apply(fs, l).markers ensures MarkerOk(Apply(fs, l), op) {
      MarkerAfter(fs, l, op);
    }
  }
}
