/** The delivery runtime (src/monitor_agent/runtime.py:63-162): replay the backlog oldest first, then
send or queue the live event. Events are numbered in the order in which they are built. Transport
outcomes, clock readings, corruption of stored files and crashes are arbitrary. */
module Runtime {
  import opened Transport
  import opened Retention
  import opened PendingQueue

  /** One call of the transport and what it reported. */
  datatype Send = Send(event: nat, kind: Kind)

  datatype CycleResult = CycleResult(event: nat, delivered: bool, spooled: bool, kind: Kind, sent: bool)

  /** The events of the calls reported SUCCESS, in order. */
  function Successes(log: seq<Send>): seq<nat> {
    if log == [] then []
    else
      var last := log[|log| - 1];
      Successes(log[..|log| - 1]) + (if last.kind == SUCCESS then [last.event] else [])
  }

  predicate NonDecreasing(s: seq<nat>) {
    forall i, j :: 0 <= i < j < |s| ==> s[i] <= s[j]
  }

  predicate Increasing(s: seq<nat>) {
    forall i, j :: 0 <= i < j < |s| ==> s[i] < s[j]
  }

  function Events(records: set<Rec>): set<nat> {
    set r | r in records :: r.event
  }

  function Delivered(log: seq<Send>): set<nat> {
    set e | e in Successes(log)
  }

  /** Events of records are distinct, and the order of records is the order of events. */
  predicate InOrder(live: set<Rec>) {
    forall a, b :: a in live && b in live && a != b ==> (Before(a, b) <==> a.event < b.event) && a.event != b.event
  }

  lemma SuccessesOfMore(log: seq<Send>, event: nat, kind: Kind)
    ensures Successes(log + [Send(event, kind)]) == Successes(log) + (if kind == SUCCESS then [event] else [])
  {
    assert (log + [Send(event, kind)])[..|log + [Send(event, kind)]| - 1] == log;
  }

  lemma DeliveredOfMore(log: seq<Send>, event: nat, kind: Kind)
    ensures Successes(log + [Send(event, kind)]) == Successes(log) + (if kind == SUCCESS then [event] else [])
    ensures Delivered(log + [Send(event, kind)]) == Delivered(log) + (if kind == SUCCESS then {event} else {})
  {
    SuccessesOfMore(log, event, kind);
  }

  /** The events of the readable records, in order: what a replay of them sends. */
  function Readable(records: seq<Rec>): seq<nat> {
    if records == [] then []
    else
      var last := records[|records| - 1];
      Readable(records[..|records| - 1]) + (if last.intact then [last.event] else [])
  }

  function Sent(log: seq<Send>): seq<nat> {
    seq(|log|, i requires 0 <= i < |log| => log[i].event)
  }

  lemma ReadableOfMore(sent: seq<nat>, records: seq<Rec>, k: nat)
    requires k < |records|
    ensures sent + Readable(records[..k + 1]) == sent + Readable(records[..k]) + Readable([records[k]])
  {
    assert records[..k + 1][..k] == records[..k];
    ReadableOfOne(records[k]);
  }

  lemma ReadableOfOne(r: Rec)
    ensures Readable([r]) == if r.intact then [r.event] else []
  {
    assert [r][..0] == [];
  }

  lemma EventsOfFewer(live: set<Rec>, gone: set<Rec>)
    requires InOrder(live) && gone <= live
    ensures Events(live - gone) == Events(live) - Events(gone) && InOrder(live - gone)
    ensures Events(gone) <= Events(live)
  {
  }

  lemma EventsOfMore(records: set<Rec>, more: set<Rec>)
    ensures Events(records + more) == Events(records) + Events(more)
  {
  }

  /** Every event below `built`, except those in hand, is in exactly one of the five places. */
  ghost predicate Partition(built: nat, hand: set<nat>, delivered: set<nat>, live: set<nat>, dead: set<nat>,
                            evicted: set<nat>, dropped: set<nat>)
  {
    && (forall e: nat :: e < built && e !in hand <==>
          e in delivered || e in live || e in dead || e in evicted || e in dropped)
    && delivered !! live !! dead !! evicted !! dropped
  }

  /** The event in hand joins the pending ones. */
  lemma HandBecomesLive(built: nat, event: nat, delivered: set<nat>, live: set<nat>, dead: set<nat>,
                        evicted: set<nat>, dropped: set<nat>)
    requires Partition(built, {event}, delivered, live, dead, evicted, dropped) && event < built
    ensures Partition(built, {}, delivered, live + {event}, dead, evicted, dropped)
  {
  }

  /** Deliveries and pending records respect creation order. */
  ghost predicate Ordering(live: set<Rec>, built: nat, clock: int, log: seq<Send>) {
    && UniqueNames(live) && InOrder(live)
    && (forall r :: r in live ==> r.event < built && r.name == r.event && r.time <= clock)
    && NonDecreasing(Successes(log))
    && (forall e, r :: e in Successes(log) && r in live ==> e <= r.event)
    && (forall e :: e in Successes(log) ==> e < built)
    && (forall s :: s in log ==> s.event < built)
  }

  /** Whatever happens, repeated deliveries of one event are adjacent among the deliveries. */
  lemma RepeatsAreAdjacent(live: set<Rec>, built: nat, clock: int, log: seq<Send>, i: nat, j: nat)
    requires Ordering(live, built, clock, log)
    requires i < j < |Successes(log)| && Successes(log)[i] == Successes(log)[j]
    ensures forall k :: i <= k <= j ==> Successes(log)[k] == Successes(log)[i]
  {
    var s := Successes(log);
    forall k | i < k < j ensures s[k] == s[i] {
      assert s[i] <= s[k] <= s[j];
    }
  }

  lemma SpoiltOrder(a: Rec, b: Rec, bad: set<nat>)
    ensures Before(Spoilt(a, bad), Spoilt(b, bad)) <==> Before(a, b)
    ensures Spoilt(a, bad).name == a.name && Spoilt(a, bad).event == a.event && Spoilt(a, bad).time == a.time
  {
  }

  lemma DecayedPair(live: set<Rec>, bad: set<nat>, a: Rec, b: Rec)
    requires UniqueNames(live) && InOrder(live) && a in Decayed(live, bad) && b in Decayed(live, bad)
    ensures a.name == b.name ==> a == b
    ensures a != b ==> (Before(a, b) <==> a.event < b.event) && a.event != b.event
  {
    var x :| x in live && a == Spoilt(x, bad);
    var y :| y in live && b == Spoilt(y, bad);
    SpoiltOrder(x, y, bad);
  }

  lemma DecayedEvents(live: set<Rec>, bad: set<nat>)
    ensures Events(Decayed(live, bad)) == Events(live)
  {
    forall x | x in live ensures x.event in Events(Decayed(live, bad)) {
      assert Spoilt(x, bad) in Decayed(live, bad);
    }
  }

  /** Files that become unreadable keep their place in the order. */
  lemma OrderingOfDecayed(live: set<Rec>, bad: set<nat>, built: nat, clock: int, log: seq<Send>)
    requires Ordering(live, built, clock, log)
    ensures Ordering(Decayed(live, bad), built, clock, log)
    ensures Events(Decayed(live, bad)) == Events(live)
  {
    var now := Decayed(live, bad);
    DecayedEvents(live, bad);
    forall a, b | a in now && b in now
      ensures a.name == b.name ==> a == b
      ensures a != b ==> (Before(a, b) <==> a.event < b.event) && a.event != b.event
    {
      DecayedPair(live, bad, a, b);
    }
    forall r | r in now
      ensures r.event < built && r.name == r.event && r.time <= clock
      ensures forall e :: e in Successes(log) ==> e <= r.event
    {
      var x :| x in live && r == Spoilt(x, bad);
    }
  }

  lemma OrderingOfFewer(live: set<Rec>, fewer: set<Rec>, built: nat, clock: int, log: seq<Send>)
    requires Ordering(live, built, clock, log) && fewer <= live
    ensures Ordering(fewer, built, clock, log)
  {
  }

  /** Sending the oldest pending record keeps the order of deliveries. */
  lemma OrderingAfterSend(live: set<Rec>, built: nat, clock: int, log: seq<Send>, r: Rec, kind: Kind)
    requires Ordering(live, built, clock, log) && IsFirst(r, live)
    ensures Ordering(live, built, clock, log + [Send(r.event, kind)])
    ensures Delivered(log + [Send(r.event, kind)]) == Delivered(log) + (if kind == SUCCESS then {r.event} else {})
    ensures Increasing(Successes(log)) && r.event !in Delivered(log) ==>
      Increasing(Successes(log + [Send(r.event, kind)]))
  {
    DeliveredOfMore(log, r.event, kind);
    var before, after := Successes(log), Successes(log + [Send(r.event, kind)]);
    OldestIsNext(live, built, clock, log, r);
    forall e, x | e in after && x in live ensures e <= x.event {
      if x != r { assert Before(r, x); }
    }
  }

  /** Everything delivered is at most the oldest pending event. */
  lemma OldestIsNext(live: set<Rec>, built: nat, clock: int, log: seq<Send>, r: Rec)
    requires Ordering(live, built, clock, log) && IsFirst(r, live)
    ensures var before := Successes(log);
      forall i :: 0 <= i < |before| ==> before[i] <= r.event && (r.event !in Delivered(log) ==> before[i] != r.event)
  {
    var before := Successes(log);
    forall i | 0 <= i < |before| ensures before[i] <= r.event && (r.event !in Delivered(log) ==> before[i] != r.event) {
      assert before[i] in before;
    }
  }

  /** The record of an event newer than everything pending or delivered goes to the end. */
  lemma OrderingAfterEnqueue(live: set<Rec>, built: nat, clock: int, log: seq<Send>, r: Rec)
    requires Ordering(live, built, clock, log) && r.name == r.event < built && r.time > clock
    requires forall x :: x in live ==> x.event < r.event
    requires forall e :: e in Successes(log) ==> e < r.event
    ensures r !in live && UniqueNames(live + {r}) && Ordering(live + {r}, built, r.time, log)
  {
  }

  lemma OneEvent(r: Rec)
    ensures Events({r}) == {r.event}
  {
  }

  lemma FirstOfListing(records: seq<Rec>, k: nat, live: set<Rec>)
    requires k < |records| && Lists(records[k..], live)
    ensures IsFirst(records[k], live)
  {
    var rest := records[k..];
    assert rest[0] == records[k] && rest[0] in rest;
    forall r | r in live && r != records[k] ensures Before(records[k], r) {
      assert r in Elements(rest);
      var j :| 0 <= j < |rest| && rest[j] == r;
    }
  }

  /** A batch looked at the first `tried` records, settled all of them or all but the last, and sent the
  readable ones in order; it stopped early exactly after a send that is to be repeated. */
  ghost predicate BatchSent(
    records: seq<Rec>, batch: nat, settled: nat, tried: nat, before: seq<Send>, log: seq<Send>)
  {
    && settled <= tried <= settled + 1 && tried <= |records| && tried <= batch
    && Sent(log) == Sent(before) + Readable(records[..tried])
    && (tried == settled ==> tried == batch || tried == |records|)
    && (tried > settled ==> |log| > 0 && log[|log| - 1].kind in {RETRIABLE, AUTHENTICATION})
  }

  /** The queue after an event was queued: its record joined what was there, and two retention passes
  followed, the first at the record's own time. */
  ghost predicate Queued(before: set<Rec>, after: set<Rec>, event: nat, maxAge: nat, maxBytes: nat) {
    exists r: Rec, listing: seq<Rec>, later: int ::
      r.event == event && QueuedAs(r, listing, later, before, after, maxAge, maxBytes)
  }

  ghost predicate QueuedAs(
    r: Rec, listing: seq<Rec>, later: int, before: set<Rec>, after: set<Rec>, maxAge: nat, maxBytes: nat)
  {
    && r !in before && Lists(listing, before + {r}) && (forall x :: x in before ==> Before(x, r))
    && Lists(Retained(Retained(listing, r.time - maxAge, maxBytes), later - maxAge, maxBytes), after)
  }

  datatype Progress = Next | Stop | Died

  class AgentRuntime {
    const spool: PendingQueue
    const batch: nat
    /** What the transport reports for its n-th call. */
    const answers: nat -> Kind
    /** No process dies. */
    const deathless: bool
    /** How many events have been built; the next one gets this number. */
    var built: nat
    /** The time of the newest enqueue. */
    var clock: int
    /** The calls of the transport so far. */
    var log: seq<Send>
    ghost var dropped: set<nat>
    /** A process died somewhere in the past. */
    ghost var crashed: bool

    ghost predicate Conserved(hand: set<nat>)
      reads this, spool
    {
      && Increasing(Successes(log))
      && Partition(built, hand, Delivered(log), Events(spool.live), Events(spool.dead),
                   Events(spool.evicted), dropped)
    }

    ghost predicate Valid(hand: set<nat>)
      reads this, spool
    {
      Ordering(spool.live, built, clock, log) && (!crashed ==> Conserved(hand))
    }

    constructor (spool: PendingQueue, batch: nat, answers: nat -> Kind, deathless: bool)
      requires batch > 0 && spool.live == {} && spool.dead == {} && spool.evicted == {}
      ensures Valid({}) && this.spool == spool && this.batch == batch && built == 0 && log == [] && !crashed
      ensures this.answers == answers && this.deathless == deathless
    {
      this.spool, this.batch, this.answers, this.deathless := spool, batch, answers, deathless;
      built, clock, log, dropped, crashed := 0, 0, [], {}, false;
    }

    /** Does the process die here? */
    method Dies() returns (dies: bool)
      ensures deathless ==> !dies
    {
      dies := *;
      dies := dies && !deathless;
    }

    /** One call of the transport. */
    method Call() returns (kind: Kind)
      ensures kind == answers(|log|)
    {
      kind := answers(|log|);
    }

    /** Body of the replay loop for the oldest pending record: quarantine it if it cannot be read,
    otherwise send it and acknowledge, reject or keep it. The process may die before and after the
    transport call. */
    method ReplayOne(record: Rec, ghost hand: set<nat>) returns (progress: Progress)
      requires Valid(hand) && IsFirst(record, spool.live)
      modifies this`log, this`crashed, spool`live, spool`dead
      ensures Valid(hand)
      ensures progress == Died ==> crashed && !deathless
      ensures progress != Died ==>
        && crashed == old(crashed)
        && log == old(log) + (if record.intact then [Send(record.event, answers(|old(log)|))] else [])
        && Sent(log) == Sent(old(log)) + (if record.intact then [record.event] else [])
        && (progress == Stop ==> record.intact && log[|log| - 1].kind in {RETRIABLE, AUTHENTICATION})
        && (progress == Next && record.intact ==> log[|log| - 1].kind in {SUCCESS, PERMANENT})
        && spool.live == old(spool.live) - (if progress == Next then {record} else {})
        && spool.dead == old(spool.dead) +
             (if progress == Next && (!record.intact || log[|log| - 1].kind == PERMANENT) then {record} else {})
    {
      var dies := Dies();
      if dies {
        crashed := true;
        return Died;
      }
      if !record.intact {
        Quarantine(record, hand);
        return Next;
      }
      progress := SendPending(record, hand);
    }

    /** A record that cannot be read becomes a dead letter. */
    method Quarantine(record: Rec, ghost hand: set<nat>)
      requires Valid(hand) && record in spool.live
      modifies spool`live, spool`dead
      ensures Valid(hand)
      ensures spool.live == old(spool.live) - {record} && spool.dead == old(spool.dead) + {record}
    {
      EventsOfFewer(spool.live, {record});
      EventsOfMore(spool.dead, {record});
      OneEvent(record);
      OrderingOfFewer(spool.live, spool.live - {record}, built, clock, log);
      spool.Reject(record);
    }

    /** The oldest record is sent, and acknowledged, rejected or kept; the process may die after the send. */
    method SendPending(record: Rec, ghost hand: set<nat>) returns (progress: Progress)
      requires Valid(hand) && IsFirst(record, spool.live) && record.intact
      modifies this`log, this`crashed, spool`live, spool`dead
      ensures Valid(hand)
      ensures progress == Died ==> crashed && !deathless
      ensures progress != Died ==>
        && crashed == old(crashed)
        && log == old(log) + [Send(record.event, answers(|old(log)|))]
        && Sent(log) == Sent(old(log)) + [record.event]
        && (progress == Stop ==> log[|log| - 1].kind in {RETRIABLE, AUTHENTICATION})
        && (progress == Next ==> log[|log| - 1].kind in {SUCCESS, PERMANENT})
        && spool.live == old(spool.live) - (if progress == Next then {record} else {})
        && spool.dead == old(spool.dead) +
             (if progress == Next && log[|log| - 1].kind == PERMANENT then {record} else {})
    {
      EventsOfFewer(spool.live, {record});
      EventsOfMore(spool.dead, {record});
      OneEvent(record);
      var kind := Call();
      OrderingAfterSend(spool.live, built, clock, log, record, kind);
      log := log + [Send(record.event, kind)];
      OrderingOfFewer(spool.live, spool.live - {record}, built, clock, log);
      var dies := Dies();
      if dies {
        crashed := true;
        return Died;
      }
      if kind == SUCCESS {
        spool.Ack(record);
        return Next;
      }
      if kind == PERMANENT {
        spool.Reject(record);
        return Next;
      }
      return Stop;
    }

    /** One round of the loop of `replay`: the record at place `k` of the listing, of which the earlier
    ones are gone. */
    method ReplayNext(records: seq<Rec>, k: nat, ghost hand: set<nat>) returns (progress: Progress)
      requires Valid(hand) && k < |records| && Sorted(records) && Lists(records[k..], spool.live)
      modifies this`log, this`crashed, spool`live, spool`dead
      ensures Valid(hand)
      ensures progress == Died ==> crashed && !deathless
      ensures progress != Died ==>
        && crashed == old(crashed)
        && Sent(log) == Sent(old(log)) + Readable([records[k]])
        && (progress == Stop ==> |log| > 0 && log[|log| - 1].kind in {RETRIABLE, AUTHENTICATION})
        && Lists(records[if progress == Next then k + 1 else k..], spool.live)
    {
      SuffixLists(records, k);
      FirstOfListing(records, k, spool.live);
      ReadableOfOne(records[k]);
      progress := ReplayOne(records[k], hand);
    }

    /** The loop of `replay` over at most `batch` records, oldest first. */
    method ReplayBatch(records: seq<Rec>, ghost hand: set<nat>) returns (died: bool, settled: nat, tried: nat)
      requires Valid(hand) && Lists(records, spool.live)
      modifies this`log, this`crashed, spool`live, spool`dead
      ensures Valid(hand)
      ensures died ==> crashed && !deathless
      ensures !died ==>
        && crashed == old(crashed)
        && BatchSent(records, batch, settled, tried, old(log), log)
        && Lists(records[settled..], spool.live)
    {
      settled, tried := 0, 0;
      var count := if |records| < batch then |records| else batch;
      assert records[0..] == records;
      assert Sent(log) + Readable(records[..0]) == Sent(log);
      while tried < count
        invariant Valid(hand) && crashed == old(crashed)
        invariant settled == tried <= count && Lists(records[tried..], spool.live)
        invariant Sent(log) == Sent(old(log)) + Readable(records[..tried])
      {
        var progress := ReplayNext(records, tried, hand);
        if progress == Died { return true, settled, tried; }
        ReadableOfMore(Sent(old(log)), records, tried);
        tried := tried + 1;
        if progress == Stop { return false, settled, tried; }
        settled := settled + 1;
      }
      return false, settled, tried;
    }

    /** A retention pass at time `now`. A process that dies in it has evicted some of the oldest. */
    method Retain(now: int, ghost listing: seq<Rec>, ghost hand: set<nat>) returns (died: bool)
      requires Valid(hand) && Lists(listing, spool.live)
      modifies this`crashed, spool`live, spool`evicted
      ensures Valid(hand) && spool.live <= old(spool.live)
      ensures spool.evicted == old(spool.evicted) + (old(spool.live) - spool.live)
      ensures died ==> crashed && !deathless
      ensures !died ==>
        && crashed == old(crashed)
        && Lists(Retained(listing, now - spool.maxAge, spool.maxBytes), spool.live)
    {
      ghost var live, evicted := spool.live, spool.evicted;
      died := Dies();
      if died {
        var records := spool.PendingPaths();
        var k: int := *;
        spool.EvictOldest(records, if 0 <= k <= |records| then k else 0);
        crashed := true;
      } else {
        var evictions, bytes;
        ghost var before;
        evictions, bytes, before := spool.EnforceRetention(now);
        ListingIsUnique(before, listing);
      }
      EventsOfFewer(live, live - spool.live);
      assert live - (live - spool.live) == spool.live;
      EventsOfMore(evicted, live - spool.live);
      OrderingOfFewer(live, spool.live, built, clock, log);
    }

    /** The listing a replay starts from; by now files may have become unreadable. */
    method List(ghost hand: set<nat>) returns (records: seq<Rec>, ghost bad: set<nat>)
      requires Valid(hand)
      modifies spool`live
      ensures Valid(hand) && spool.live == Decayed(old(spool.live), bad) && Lists(records, spool.live)
    {
      var spoilt: set<nat> := *;
      OrderingOfDecayed(spool.live, spoilt, built, clock, log);
      spool.Decay(spoilt);
      bad := spoilt;
      records := spool.PendingPaths();
    }

    /** `replay`: one bounded batch, then a retention pass. `before` lists the queue found, in which the
    records of `bad` have become unreadable; `settled` counts the records that left it for good, `tried`
    those looked at, and `now` is the time of the pass. */
    method Replay(ghost hand: set<nat>)
      returns (empty: bool, died: bool, ghost bad: set<nat>, ghost before: seq<Rec>, settled: nat, tried: nat,
               ghost now: int)
      requires Valid(hand)
      modifies this`log, this`crashed, spool`live, spool`dead, spool`evicted
      ensures Valid(hand) && Lists(before, Decayed(old(spool.live), bad))
      ensures died ==> crashed && !deathless
      ensures !died ==>
        && crashed == old(crashed)
        && empty == (spool.live == {})
        && BatchSent(before, batch, settled, tried, old(log), log) && settled <= |before|
        && Lists(Retained(before[settled..], now - spool.maxAge, spool.maxBytes), spool.live)
    {
      var records;
      records, bad := List(hand);
      before := records;
      died, settled, tried := ReplayBatch(records, hand);
      empty, now := false, 0;
      if !died {
        empty, died, now := FinishReplay(before[settled..], hand);
      }
    }

    /** The retention pass that ends a replay, and the look whether anything is left. */
    method FinishReplay(ghost listing: seq<Rec>, ghost hand: set<nat>)
      returns (empty: bool, died: bool, ghost now: int)
      requires Valid(hand) && Lists(listing, spool.live)
      modifies this`crashed, spool`live, spool`evicted
      ensures Valid(hand)
      ensures died ==> crashed && !deathless
      ensures !died ==>
        && crashed == old(crashed) && empty == (spool.live == {})
        && Lists(Retained(listing, now - spool.maxAge, spool.maxBytes), spool.live)
    {
      var time: int := *;
      now := time;
      died := Retain(time, listing, hand);
      empty := spool.live == {};
    }

    /** `_enqueue`: the event in hand becomes the newest record, then retention runs, twice. */
    method Enqueue(event: nat) returns (died: bool)
      requires Valid({event}) && event < built
      requires forall r :: r in spool.live ==> r.event < event
      requires forall e :: e in Successes(log) ==> e < event
      modifies this`clock, this`crashed, spool`live, spool`evicted
      ensures Valid({})
      ensures died ==> crashed && !deathless
      ensures !died ==> crashed == old(crashed) && (event in Events(spool.live) || event in Events(spool.evicted))
      ensures !died ==> Queued(old(spool.live), spool.live, event, spool.maxAge, spool.maxBytes)
      ensures forall r :: r in spool.live ==> r in old(spool.live) || r.event == event
    {
      var now, later, size: int := *, *, *;
      var readable: bool := *;
      var record := Rec(if now > clock then now else clock + 1, event, if size < 0 then 0 else size, event, readable);
      OrderingAfterEnqueue(spool.live, built, clock, log, record);
      clock := record.time;
      ghost var listing;
      died, listing := Store(record);
      if died { return; }
      died := Retain(later, Retained(listing, record.time - spool.maxAge, spool.maxBytes), {});
      assert !died ==> QueuedAs(record, listing, later, old(spool.live), spool.live, spool.maxAge, spool.maxBytes);
    }

    /** `Spool.enqueue` as the runtime sees it. A process that dies in it has published the record, or not. */
    method Store(record: Rec) returns (died: bool, ghost listing: seq<Rec>)
      requires record !in spool.live && Ordering(spool.live + {record}, built, clock, log)
      requires !crashed ==> Conserved({record.event}) && record.event < built
      modifies this`crashed, spool`live, spool`evicted
      ensures Valid({})
      ensures died ==> crashed && !deathless
      ensures !died ==> crashed == old(crashed) && (record in spool.live || record in spool.evicted)
      ensures !died ==>
        && Lists(listing, old(spool.live) + {record})
        && Lists(Retained(listing, record.time - spool.maxAge, spool.maxBytes), spool.live)
      ensures spool.live <= old(spool.live) + {record} && old(spool.evicted) <= spool.evicted
    {
      EventsOfMore(spool.live, {record});
      OneEvent(record);
      OrderingOfFewer(spool.live + {record}, spool.live, built, clock, log);
      listing := [];
      died := Dies();
      if died {
        crashed := true;
        return;
      }
      if !crashed {
        HandBecomesLive(built, record.event, Delivered(log), Events(spool.live), Events(spool.dead),
                        Events(spool.evicted), dropped);
      }
      spool.Publish(record);
      listing := Ordered(spool.live);
      died := Retain(record.time, listing, {});
    }

    /** Where the event of a finished cycle is. */
    ghost predicate Accounted(result: CycleResult)
      reads this, spool
    {
      && (result.delivered <==> result.sent && result.kind == SUCCESS)
      && (result.spooled <==> !result.sent || result.kind in {RETRIABLE, AUTHENTICATION})
      && (result.sent ==> |log| > 0 && log[|log| - 1] == Send(result.event, result.kind))
      && (!result.sent ==> forall s :: s in log ==> s.event != result.event)
      && (result.delivered ==> result.event in Delivered(log) && spool.live == {})
      && (result.spooled ==> result.event in Events(spool.live) || result.event in Events(spool.evicted))
      && (!result.delivered && !result.spooled ==> result.event in dropped)
    }

    /** The live send of a cycle whose backlog is gone. The process may die before or after the call. */
    method SendLive(event: nat) returns (kind: Kind, died: bool)
      requires Valid({event}) && event < built && spool.live == {}
      requires forall e :: e in Successes(log) ==> e < event
      modifies this`log, this`dropped, this`crashed
      ensures Ordering(spool.live, built, clock, log)
      ensures died ==> crashed && !deathless
      ensures !died ==> crashed == old(crashed) && kind == answers(|old(log)|) && log == old(log) + [Send(event, kind)]
      ensures !died && kind == SUCCESS ==> Valid({}) && event in Delivered(log)
      ensures !died && kind == PERMANENT ==> Valid({}) && event in dropped
      ensures !died && kind in {RETRIABLE, AUTHENTICATION} ==>
        Valid({event}) && Successes(log) == Successes(old(log))
    {
      kind := RETRIABLE;
      died := Dies();
      if died {
        crashed := true;
        return;
      }
      kind := Call();
      SuccessesOfMore(log, event, kind);
      LiveSuccess(log, event, kind);
      log := log + [Send(event, kind)];
      died := Dies();
      if died {
        crashed := true;
        return;
      }
      if kind == PERMANENT { dropped := dropped + {event}; }
    }

    /** A cycle that found the backlog empty: send the event, queue it if that may help later. */
    method SendOrQueue(event: nat) returns (result: CycleResult, died: bool)
      requires Valid({event}) && event < built && spool.live == {}
      requires forall e :: e in Successes(log) ==> e < event
      modifies this`log, this`clock, this`dropped, this`crashed, spool`live, spool`evicted
      ensures Valid({})
      ensures died ==> crashed && !deathless
      ensures !died ==>
        && crashed == old(crashed) && result.event == event && result.sent && Accounted(result)
        && log == old(log) + [Send(event, result.kind)] && result.kind == answers(|old(log)|)
        && Placed(result, {})
    {
      var kind;
      kind, died := SendLive(event);
      result := CycleResult(event, kind == SUCCESS, kind in {RETRIABLE, AUTHENTICATION}, kind, true);
      if !died && kind in {RETRIABLE, AUTHENTICATION} {
        died := Enqueue(event);
      }
    }

    /** `run_cycle`. The event is sent exactly if the replay leaves nothing pending: if the retention pass
    after it gives up whatever the batch did not settle. Otherwise it is queued behind the rest. If the
    process dies, the event in hand may be lost. */
    method RunCycle()
      returns (result: CycleResult, died: bool, ghost bad: set<nat>, ghost before: seq<Rec>, ghost settled: nat,
               ghost tried: nat, ghost now: int)
      requires Valid({})
      modifies this`log, this`crashed, this`built, this`clock, this`dropped, spool`live, spool`dead, spool`evicted
      ensures Valid({}) && built == old(built) + 1
      ensures died ==> crashed && !deathless
      ensures !died ==> crashed == old(crashed) && result.event == old(built) && Accounted(result)
      ensures Lists(before, Decayed(old(spool.live), bad))
      ensures !died ==>
        settled <= |before| && tried <= |before| &&
        Told(result, Sent(old(log)) + Readable(before[..tried]),
             Retained(before[settled..], now - spool.maxAge, spool.maxBytes))
      ensures !died && old(spool.live) == {} ==> result.sent
    {
      var empty, s, t;
      empty, died, bad, before, s, t, now := Replay({});
      settled, tried := s, t;
      if died {
        var event := Build();
        result := CycleResult(event, false, true, RETRIABLE, false);
        return;
      }
      EmptyStaysEmpty(old(spool.live), bad, before, settled, now - spool.maxAge, spool.maxBytes);
      result, died := FinishCycle(empty, Retained(before[settled..], now - spool.maxAge, spool.maxBytes));
    }

    /** The rest of a cycle, whose replay left `rest`. */
    method FinishCycle(empty: bool, ghost rest: seq<Rec>) returns (result: CycleResult, died: bool)
      requires Valid({}) && Lists(rest, spool.live) && empty == (spool.live == {})
      modifies this`log, this`crashed, this`built, this`clock, this`dropped, spool`live, spool`evicted
      ensures Valid({}) && built == old(built) + 1
      ensures died ==> crashed && !deathless
      ensures !died ==> crashed == old(crashed) && result.event == old(built) && Accounted(result)
      ensures !died ==> Told(result, Sent(old(log)), rest)
    {
      var event := Build();
      NothingPending(rest);
      result, died := Deliver(event, empty);
    }

    /** What a cycle tells after a replay that sent `sent` in all and left `rest`: whether it sent its own
    event, which it does exactly if there is no rest, what came of that, and where the event is now. */
    ghost predicate Told(result: CycleResult, sent: seq<nat>, rest: seq<Rec>)
      reads this, spool
    {
      && Sent(log) == sent + (if result.sent then [result.event] else [])
      && (result.sent <==> rest == []) && Placed(result, Elements(rest))
      && (result.sent ==> |log| > 0 && result.kind == answers(|log| - 1))
    }

    /** Newer than everything pending or ever sent. */
    ghost predicate IsNew(event: nat)
      reads this, spool
    {
      && (forall r :: r in spool.live ==> r.event < event)
      && (forall s :: s in log ==> s.event != event)
      && (forall e :: e in Successes(log) ==> e < event)
    }

    /** The event of a cycle gets its number. It may be lost with its process. */
    method Build() returns (event: nat)
      requires Valid({})
      modifies this`built
      ensures Valid({event}) && (crashed ==> Valid({})) && IsNew(event)
      ensures event == old(built) && built == event + 1
    {
      event := built;
      built := built + 1;
    }

    /** The live event of a cycle, after its replay. */
    method Deliver(event: nat, empty: bool) returns (result: CycleResult, died: bool)
      requires Valid({event}) && event < built && empty == (spool.live == {})
      requires IsNew(event)
      modifies this`log, this`clock, this`dropped, this`crashed, spool`live, spool`evicted
      ensures Valid({})
      ensures died ==> crashed && !deathless
      ensures !died ==>
        && crashed == old(crashed) && result.event == event && Accounted(result)
        && (result.sent <==> old(spool.live) == {}) && Placed(result, old(spool.live))
        && (result.sent ==> |log| > 0 && result.kind == answers(|log| - 1))
        && Sent(log) == Sent(old(log)) + (if result.sent then [event] else [])
    {
      result := CycleResult(event, false, true, RETRIABLE, false);
      if empty {
        result, died := SendOrQueue(event);
      } else {
        died := Enqueue(event);
      }
    }

    /** The queue after a cycle: the event behind the rest, or, if it was sent for good, nothing. */
    ghost predicate Placed(result: CycleResult, rest: set<Rec>)
      reads this, spool
    {
      if result.spooled then Queued(rest, spool.live, result.event, spool.maxAge, spool.maxBytes)
      else spool.live == {}
    }

    /** Any number of cycles, of any number of processes one after the other. */
    method Live(cycles: nat)
      requires Valid({})
      modifies this`log, this`crashed, this`built, this`clock, this`dropped, spool`live, spool`dead, spool`evicted
      ensures Valid({}) && built == old(built) + cycles
    {
      var k := 0;
      while k < cycles
        invariant 0 <= k <= cycles && Valid({}) && built == old(built) + k
      {
        ghost var bad, before, settled, tried, now;
        var result, died;
        result, died, bad, before, settled, tried, now := RunCycle();
        k := k + 1;
      }
    }
  }

  /** After a replay of an empty queue nothing is pending. */
  lemma EmptyStaysEmpty(
    live: set<Rec>, bad: set<nat>, before: seq<Rec>, settled: nat, cutoff: int, maxBytes: nat)
    requires Lists(before, Decayed(live, bad)) && settled <= |before|
    ensures live == {} ==> Retained(before[settled..], cutoff, maxBytes) == []
  {
    NothingPending(before);
  }

  lemma NothingPending(listing: seq<Rec>)
    ensures listing == [] <==> Elements(listing) == {}
  {
    if listing != [] { assert listing[0] in Elements(listing); }
  }

  lemma LiveSuccess(log: seq<Send>, event: nat, kind: Kind)
    requires NonDecreasing(Successes(log)) && forall e :: e in Successes(log) ==> e < event
    ensures NonDecreasing(Successes(log + [Send(event, kind)]))
    ensures Increasing(Successes(log)) ==> Increasing(Successes(log + [Send(event, kind)]))
    ensures Delivered(log + [Send(event, kind)]) == Delivered(log) + (if kind == SUCCESS then {event} else {})
  {
    SuccessesOfMore(log, event, kind);
    var before := Successes(log);
    forall i | 0 <= i < |before| ensures before[i] < event {
      assert before[i] in before;
    }
  }
}
