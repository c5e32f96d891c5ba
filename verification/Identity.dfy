/**
  The persisted machine identity (identity.py): text of a version 4 UUID in one
  file, created by whichever process is first and polled by the rest.  Any
  number of processes are interleaved, each system call a step.
 */
module Identity {
  import opened UuidText
  import opened Wrappers

  /** How an identity is written, and how text is read. */
  datatype Format = Format(
    valid: nat -> bool,
    write: nat -> string,
    read: string -> Option<string>)

  /** The format of the program; `other` as in `ParseUuid`. */
  function UuidFormat(other: string -> Option<nat>): Format {
    Format((n: nat) => IsVersion4(n), (n: nat) => Canonical(n), s => ReadFallback(other, s))
  }

  /** What is written reads back as itself, and no part of it reads at all. */
  ghost predicate PrefixFree(f: Format) {
    && (forall n: nat :: f.valid(n) ==> f.read(f.write(n)) == Some(f.write(n)))
    && (forall n: nat, w: nat :: w < |f.write(n)| ==> f.read(f.write(n)[..w]) == None)
  }

  lemma UuidTextIsPrefixFree(other: string -> Option<nat>)
    ensures PrefixFree(UuidFormat(other))
  {
    var f := UuidFormat(other);
    forall n: nat | f.valid(n) ensures f.read(f.write(n)) == Some(f.write(n)) {
      CanonicalReadsBack(other, n);
    }
    forall n: nat, w: nat | w < |f.write(n)| ensures f.read(f.write(n)[..w]) == None {
      CanonicalIsPlain(n);
      ProperPrefixIsRefused(other, n, w);
    }
  }

  const FALLBACK_READ_ATTEMPTS: nat := 100

  /** `Garbage` is content that is not UTF-8. */
  datatype File = Missing | Garbage | Text(text: string)

  datatype Proc =
    | Starting                                    // about to read for the first time
    | Creating                                    // found no file
    | Writing(uuid: nat, written: nat)            // created the file, `written` characters are out
    | Polling(left: nat)                          // reads the winner's file, `left` attempts to go
    | Returned(value: string)
    | Failed                                      // raised an exception, or died

  datatype World = World(file: File, procs: map<nat, Proc>, format: Format)

  function ProcOf(w: World, p: nat): Proc {
    if p in w.procs then w.procs[p] else Starting
  }

  function ReadFile(w: World): Option<string> {
    if w.file.Text? then w.format.read(w.file.text) else None
  }

  datatype Label =
    | Read(p: nat)                   // the first read
    | Create(p: nat, uuid: nat)      // exclusive creation, with the identity it drew
    | Write(p: nat, count: nat)      // some more characters reach the file
    | Close(p: nat)
    | Poll(p: nat)
    | Die(p: nat)                    // killed, or an unexpected error

  predicate Enabled(w: World, l: Label) {
    var proc := ProcOf(w, l.p);
    match l
    case Read(_) => proc == Starting
    case Create(_, uuid) => proc == Creating && w.format.valid(uuid)
    case Write(_, count) => proc.Writing? && proc.written + count <= |w.format.write(proc.uuid)|
    case Close(_) => proc.Writing? && proc.written == |w.format.write(proc.uuid)|
    case Poll(_) => proc.Polling?
    case Die(_) => !proc.Returned?
  }

  function Now(w: World, p: nat, proc: Proc): World {
    w.(procs := w.procs[p := proc])
  }

  function AfterRead(w: World): Proc {
    if w.file == Missing then Creating
    else if ReadFile(w).Some? then Returned(ReadFile(w).value)
    else Polling(FALLBACK_READ_ATTEMPTS)
  }

  function AfterPoll(w: World, left: nat): Proc {
    if left == 0 then Failed
    else if ReadFile(w).Some? then Returned(ReadFile(w).value)
    else Polling(left - 1)
  }

  function Apply(w: World, l: Label): World
    requires Enabled(w, l)
  {
    var proc := ProcOf(w, l.p);
    match l
    case Read(p) => Now(w, p, AfterRead(w))
    case Create(p, uuid) =>
      if w.file == Missing then Now(w.(file := Text("")), p, Writing(uuid, 0))
      else Now(w, p, Polling(FALLBACK_READ_ATTEMPTS))
    case Write(p, count) =>
      var written := proc.written + count;
      Now(w.(file := Text(w.format.write(proc.uuid)[..written])), p, Writing(proc.uuid, written))
    case Close(p) => Now(w, p, Returned(w.format.write(proc.uuid)))
    case Poll(p) => Now(w, p, AfterPoll(w, proc.left))
    case Die(p) => Now(w, p, Failed)
  }

  predicate CanRun(w: World, run: seq<Label>)
    decreases |run|, 0
  {
    run == [] || (CanRun(w, run[..|run| - 1]) && Enabled(After(w, run[..|run| - 1]), run[|run| - 1]))
  }

  function After(w: World, run: seq<Label>): World
    requires CanRun(w, run)
    decreases |run|, 1
  {
    if run == [] then w else Apply(After(w, run[..|run| - 1]), run[|run| - 1])
  }

  // ------------------------------------------------------------- agreement

  /** A writer holds a prefix of its own text in the file, and is alone. */
  ghost predicate WriterOwnsFile(w: World, p: nat) {
    var proc := ProcOf(w, p);
    proc.Writing? ==>
      && w.format.valid(proc.uuid)
      && proc.written <= |w.format.write(proc.uuid)|
      && w.file == Text(w.format.write(proc.uuid)[..proc.written])
      && forall q :: ProcOf(w, q).Writing? ==> q == p
  }

  /** A returned value is what the file says. */
  predicate ReturnIsFile(w: World, p: nat) {
    ProcOf(w, p).Returned? ==> ReadFile(w) == Some(ProcOf(w, p).value)
  }

  ghost predicate Inv(w: World) {
    PrefixFree(w.format) && forall p :: WriterOwnsFile(w, p) && ReturnIsFile(w, p)
  }

  /** Nobody runs yet; whatever an earlier process left is in the file. */
  predicate Init(w: World) {
    w.procs == map[]
  }

  lemma WriteIsUnseen(w: World, l: Label)
    requires Inv(w) && Enabled(w, l) && l.Write? && l.count > 0
    ensures ReadFile(w) == None
  {
    assert WriterOwnsFile(w, l.p);
  }

  /** Once the file reads as an identity, it reads as that one for good. */
  lemma IdentityIsFinal(w: World, l: Label)
    requires Inv(w) && Enabled(w, l) && ReadFile(w).Some?
    ensures ReadFile(Apply(w, l)) == ReadFile(w)
  {
    if l.Write? {
      assert WriterOwnsFile(w, l.p);
      if l.count > 0 {
        WriteIsUnseen(w, l);
      }
    }
  }

  lemma StepKeepsInv(w: World, l: Label)
    requires Inv(w) && Enabled(w, l)
    ensures Inv(Apply(w, l))
  {
    var now := Apply(w, l);
    assert WriterOwnsFile(w, l.p);
    forall p ensures WriterOwnsFile(now, p) {
      assert WriterOwnsFile(w, p);
      forall q | ProcOf(now, p).Writing? && ProcOf(now, q).Writing? ensures q == p {
        assert WriterOwnsFile(w, q);
      }
    }
    forall p ensures ReturnIsFile(now, p) {
      assert ReturnIsFile(w, p);
      if p != l.p && ProcOf(w, p).Returned? {
        IdentityIsFinal(w, l);
      } else if p == l.p && l.Close? {
        var text := w.format.write(ProcOf(w, p).uuid);
        assert text[..|text|] == text;
      }
    }
  }

  lemma {:induction false} RunKeepsInv(w: World, run: seq<Label>)
    requires Inv(w) && CanRun(w, run)
    ensures Inv(After(w, run)) && After(w, run).format == w.format
  {
    if run != [] {
      RunKeepsInv(w, run[..|run| - 1]);
      StepKeepsInv(After(w, run[..|run| - 1]), run[|run| - 1]);
    }
  }

  /** In every format of this kind the processes that return agree, and the file agrees with them. */
  lemma ReturnsAgree(w: World, run: seq<Label>, p: nat, q: nat)
    requires Init(w) && PrefixFree(w.format) && CanRun(w, run)
    requires ProcOf(After(w, run), p).Returned? && ProcOf(After(w, run), q).Returned?
    ensures ProcOf(After(w, run), p) == ProcOf(After(w, run), q)
    ensures ReadFile(After(w, run)) == Some(ProcOf(After(w, run), p).value)
  {
    RunKeepsInv(w, run);
    assert ReturnIsFile(After(w, run), p) && ReturnIsFile(After(w, run), q);
  }

  /** So they do with the text of version 4 UUIDs, whatever the interleaving. */
  lemma AllReturnTheSame(other: string -> Option<nat>, w: World, run: seq<Label>, p: nat, q: nat)
    requires Init(w) && w.format == UuidFormat(other) && CanRun(w, run)
    requires ProcOf(After(w, run), p).Returned? && ProcOf(After(w, run), q).Returned?
    ensures ProcOf(After(w, run), p) == ProcOf(After(w, run), q)
    ensures ReadFile(After(w, run)) == Some(ProcOf(After(w, run), p).value)
  {
    UuidTextIsPrefixFree(other);
    ReturnsAgree(w, run, p, q);
  }

  /** An identity found on disk is the one everybody returns. */
  lemma {:induction false} PersistedIdentityIsKept(w: World, run: seq<Label>)
    requires Inv(w) && ReadFile(w).Some? && CanRun(w, run)
    ensures ReadFile(After(w, run)) == ReadFile(w)
    ensures forall p :: ProcOf(After(w, run), p).Returned? ==> ProcOf(After(w, run), p).value == ReadFile(w).value
  {
    if run != [] {
      PersistedIdentityIsKept(w, run[..|run| - 1]);
      RunKeepsInv(w, run[..|run| - 1]);
      IdentityIsFinal(After(w, run[..|run| - 1]), run[|run| - 1]);
    }
    RunKeepsInv(w, run);
    forall p | ProcOf(After(w, run), p).Returned?
      ensures ProcOf(After(w, run), p).value == ReadFile(w).value
    {
      assert ReturnIsFile(After(w, run), p);
    }
  }

  /** Content that is no identity and that nobody is writing. */
  ghost predicate Abandoned(w: World) {
    w.file != Missing && ReadFile(w) == None && forall p :: !ProcOf(w, p).Writing?
  }

  lemma StepKeepsAbandoned(w: World, l: Label)
    requires Inv(w) && Abandoned(w) && Enabled(w, l)
    ensures Apply(w, l).file == w.file && Abandoned(Apply(w, l))
  {
    forall p ensures !ProcOf(Apply(w, l), p).Writing? {
      assert !ProcOf(w, p).Writing?;
    }
  }

  /** If the creator dies half-way, nobody ever returns: the file is never replaced. */
  lemma {:induction false} AbandonedForGood(w: World, run: seq<Label>)
    requires Inv(w) && Abandoned(w) && CanRun(w, run)
    ensures After(w, run).file == w.file && Abandoned(After(w, run))
    ensures forall p :: !ProcOf(After(w, run), p).Returned?
  {
    RunKeepsInv(w, run);
    if run != [] {
      var before := run[..|run| - 1];
      AbandonedForGood(w, before);
      RunKeepsInv(w, before);
      StepKeepsAbandoned(After(w, before), run[|run| - 1]);
    }
    forall p ensures !ProcOf(After(w, run), p).Returned? {
      assert ReturnIsFile(After(w, run), p);
    }
  }

  lemma DeadCreatorAbandons(w: World, p: nat)
    requires Inv(w) && ProcOf(w, p).Writing?
    ensures Abandoned(Apply(w, Die(p))) <==> ProcOf(w, p).written < |w.format.write(ProcOf(w, p).uuid)|
  {
    assert WriterOwnsFile(w, p);
    var text := w.format.write(ProcOf(w, p).uuid);
    if ProcOf(w, p).written == |text| {
      assert text[..|text|] == text;
    } else {
      forall q ensures !ProcOf(Apply(w, Die(p)), q).Writing? {
        assert ProcOf(w, q).Writing? ==> q == p;
      }
    }
  }

  // ------------------------------------------------------------ the program

  datatype Outcome<T> = Ok(value: T) | Missed | Invalid | Error

  /** One state directory as one process sees it: its calls, and what others do between them. */
  class StateDirectory {
    var world: World
    const me: nat
    /** No other process acts. */
    const quiet: bool
    /** No write fails. */
    const reliable: bool

    ghost predicate Valid()
      reads this
    {
      Inv(world)
    }

    constructor (world: World, me: nat, quiet: bool, reliable: bool)
      requires Inv(world) && ProcOf(world, me) == Starting
      ensures Valid() && this.world == world && this.me == me && this.quiet == quiet && this.reliable == reliable
    {
      this.world, this.me, this.quiet, this.reliable := world, me, quiet, reliable;
    }

    /** Any number of steps of other processes. */
    method Others(steps: nat)
      requires Valid()
      modifies this
      ensures Valid() && ProcOf(world, me) == ProcOf(old(world), me) && world.format == old(world).format
      ensures world.file.Missing? ==> old(world).file.Missing?
      ensures ReadFile(old(world)).Some? ==> ReadFile(world) == ReadFile(old(world))
      ensures quiet ==> world == old(world)
    {
      for i := 0 to steps
        invariant Valid() && ProcOf(world, me) == ProcOf(old(world), me) && world.format == old(world).format
        invariant world.file.Missing? ==> old(world).file.Missing?
        invariant ReadFile(old(world)).Some? ==> ReadFile(world) == ReadFile(old(world))
        invariant quiet ==> world == old(world)
      {
        var l: Label := *;
        if !quiet && l.p != me && Enabled(world, l) {
          StepKeepsInv(world, l);
          if ReadFile(world).Some? {
            IdentityIsFinal(world, l);
          }
          world := Apply(world, l);
        }
      }
    }

    method Do(l: Label)
      requires Valid() && l.p == me && Enabled(world, l)
      modifies this
      ensures Valid() && world == Apply(old(world), l)
    {
      StepKeepsInv(world, l);
      world := Apply(world, l);
    }

    /** `Invalid` is a ValueError, `Missed` a FileNotFoundError. */
    method ReadFallbackFile() returns (r: Outcome<string>)
      ensures r == if world.file.Missing? then Missed
                   else if ReadFile(world).Some? then Ok(ReadFile(world).value) else Invalid
    {
      match world.file
      case Missing => r := Missed;
      case Garbage => r := Invalid;
      case Text(text) =>
        var value := world.format.read(text);
        r := if value.Some? then Ok(value.value) else Invalid;
    }

    method ReadConcurrentWinner() returns (r: Outcome<string>)
      requires Valid() && ProcOf(world, me) == Polling(FALLBACK_READ_ATTEMPTS)
      modifies this
      ensures Valid() && world.format == old(world).format
      ensures r.Ok? ==> ProcOf(world, me) == Returned(r.value) && ReadFile(world) == Some(r.value)
      ensures !r.Ok? ==> r == Error && ProcOf(world, me) == Failed
      ensures ReadFile(old(world)).Some? ==> r == Ok(ReadFile(old(world)).value)
      ensures quiet ==> world.file == old(world).file && (r.Ok? <==> ReadFile(old(world)).Some?)
    {
      for attempt := 0 to FALLBACK_READ_ATTEMPTS
        invariant Valid() && world.format == old(world).format
        invariant ProcOf(world, me) == Polling(FALLBACK_READ_ATTEMPTS - attempt)
        invariant ReadFile(old(world)).Some? ==> ReadFile(world) == ReadFile(old(world)) && attempt == 0
        invariant quiet ==> world.file == old(world).file
      {
        var steps: nat := *;
        Others(steps);
        r := ReadFallbackFile();
        Do(Poll(me));
        if r.Ok? {
          return;
        }
      }
      Do(Poll(me));
      r := Error;
    }

    /** The identity this process settles on, which is then the file's. Alone, and if no write fails, it
    returns what it finds, creates the file if there is none, and fails exactly if the file holds
    something that is no identity. */
    method LoadOrCreateFallback(candidate: nat) returns (r: Outcome<string>)
      requires Valid() && ProcOf(world, me) == Starting && world.format.valid(candidate)
      modifies this
      ensures Valid() && world.format == old(world).format
      ensures r.Ok? ==> ProcOf(world, me) == Returned(r.value) && ReadFile(world) == Some(r.value)
      ensures !r.Ok? ==> r == Error && ProcOf(world, me) == Failed
      ensures ReadFile(old(world)).Some? ==> r == Ok(ReadFile(old(world)).value)
      ensures quiet && reliable ==>
        if old(world).file.Missing? then
          r == Ok(world.format.write(candidate)) && world.file == Text(world.format.write(candidate))
        else
          world.file == old(world).file && (r.Ok? <==> ReadFile(old(world)).Some?)
    {
      var steps: nat := *;
      Others(steps);
      r := ReadFallbackFile();
      Do(Read(me));
      if r.Ok? {
        return;
      } else if r.Invalid? {
        r := ReadConcurrentWinner();
        return;
      }

      steps := *;
      Others(steps);
      var taken := !world.file.Missing?;
      Do(Create(me, candidate));
      if taken {
        r := ReadConcurrentWinner();
        return;
      }
      r := WriteCandidate(candidate);
    }

    /** The text leaves in pieces of any size; the write may fail after any of them. */
    method WriteCandidate(candidate: nat) returns (r: Outcome<string>)
      requires Valid() && ProcOf(world, me) == Writing(candidate, 0)
      modifies this
      ensures Valid() && world.format == old(world).format
      ensures r.Ok? ==> r.value == world.format.write(candidate)
                        && ProcOf(world, me) == Returned(r.value) && ReadFile(world) == Some(r.value)
      ensures !r.Ok? ==> r == Error && ProcOf(world, me) == Failed
      ensures r.Ok? ==> world.file == Text(r.value)
      ensures reliable ==> r.Ok?
    {
      var text := world.format.write(candidate);
      var written := 0;
      while written < |text|
        invariant Valid() && world.format == old(world).format
        invariant written <= |text| && ProcOf(world, me) == Writing(candidate, written)
      {
        var steps: nat := *;
        Others(steps);
        var broken: bool := *;
        if broken && !reliable {
          Do(Die(me));
          return Error;
        }
        var count: nat := *;
        count := if 0 < count <= |text| - written then count else 1;
        Do(Write(me, count));
        written := written + count;
      }
      assert WriterOwnsFile(world, me) && text[..|text|] == text;
      Do(Close(me));
      assert ReturnIsFile(world, me);
      r := Ok(text);
    }
  }
}
