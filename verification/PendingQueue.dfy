/** The pending records as the runtime sees them: a directory listed in order, with `enqueue`, `ack`,
`reject` and the retention pass (src/monitor_agent/spool.py:72-186). */
module PendingQueue {
  import opened Retention

  predicate IsFirst(m: Rec, live: set<Rec>) {
    m in live && forall r :: r in live && r != m ==> Before(m, r)
  }

  lemma {:induction false} FirstExists(live: set<Rec>)
    requires UniqueNames(live) && live != {}
    ensures exists m :: IsFirst(m, live)
  {
    var x :| x in live;
    if live != {x} {
      FirstExists(live - {x});
      var m :| IsFirst(m, live - {x});
      assert x.name != m.name;
      if Before(x, m) {
        forall r | r in live && r != x ensures Before(x, r) {
          assert r in live - {x};
        }
        assert IsFirst(x, live);
      } else {
        assert IsFirst(m, live);
      }
    } else {
      assert IsFirst(x, live);
    }
  }

  lemma FirstThenRest(m: Rec, rest: seq<Rec>, live: set<Rec>)
    requires IsFirst(m, live) && Lists(rest, live - {m})
    ensures Lists([m] + rest, live)
  {
    assert forall k :: 0 <= k < |rest| ==> rest[k] in Elements(rest);
    var all := [m] + rest;
    forall i, j | 0 <= i < j < |all| ensures Before(all[i], all[j]) {
      assert all[j] == rest[j - 1];
      if i > 0 { assert all[i] == rest[i - 1]; }
    }
    assert Elements(all) == Elements(rest) + {m};
  }

  /** `sorted` by time and name. */
  function Ordered(live: set<Rec>): (s: seq<Rec>)
    requires UniqueNames(live)
    ensures Lists(s, live)
    decreases |live|
  {
    if live == {} then []
    else
      FirstExists(live);
      var m :| IsFirst(m, live);
      var rest := Ordered(live - {m});
      FirstThenRest(m, rest, live);
      [m] + rest
  }

  lemma SuffixLists(s: seq<Rec>, k: nat)
    requires Sorted(s) && k < |s|
    ensures Sorted(s[k..]) && Elements(s[k + 1..]) == Elements(s[k..]) - {s[k]}
    ensures Total(s[k..]) == s[k].size + Total(s[k + 1..])
  {
    TailElements(s[k..]);
    assert s[k..][1..] == s[k + 1..];
  }

  /** The records of the events in `bad` can no longer be read. */
  function Decayed(live: set<Rec>, bad: set<nat>): set<Rec> {
    set r | r in live :: Spoilt(r, bad)
  }

  function Spoilt(r: Rec, bad: set<nat>): Rec {
    r.(intact := r.intact && r.event !in bad)
  }

  class PendingQueue {
    var live: set<Rec>
    var dead: set<Rec>
    ghost var evicted: set<Rec>
    const maxBytes: nat
    const maxAge: nat

    constructor (maxBytes: nat, maxAge: nat)
      requires maxBytes > 0 && maxAge > 0
      ensures live == {} && dead == {} && evicted == {} && this.maxBytes == maxBytes && this.maxAge == maxAge
    {
      this.maxBytes, this.maxAge := maxBytes, maxAge;
      live, dead, evicted := {}, {}, {};
    }

    /** Removes one file that retention gives up. */
    method Evict(r: Rec)
      requires r in live
      modifies this`live, this`evicted
      ensures live == old(live) - {r} && evicted == old(evicted) + {r}
    {
      live, evicted := live - {r}, evicted + {r};
    }

    /** `_pending_paths`. */
    method PendingPaths() returns (records: seq<Rec>)
      requires UniqueNames(live)
      ensures Lists(records, live)
    {
      records := Ordered(live);
    }

    /** First loop of `enforce_retention`: every record older than the cutoff goes. */
    method EvictExpired(records: seq<Rec>, cutoff: int) returns (count: nat, bytes: nat)
      requires Lists(records, live)
      modifies this`live, this`evicted
      ensures Lists(DropExpired(records, cutoff), live)
      ensures evicted == old(evicted) + (old(live) - live) && live <= old(live)
      ensures count == |records| - |DropExpired(records, cutoff)|
      ensures bytes == Total(records) - Total(DropExpired(records, cutoff))
    {
      ghost var k := DropExpiredIsExact(records, cutoff);
      count, bytes := 0, 0;
      var i := 0;
      assert records[0..] == records;
      while i < |records|
        invariant 0 <= i <= |records| && count == (if i < k then i else k)
        invariant Lists(records[count..], live) && live <= old(live)
        invariant evicted == old(evicted) + (old(live) - live)
        invariant bytes == Total(records) - Total(records[count..])
      {
        if records[i].time < cutoff {
          SuffixLists(records, i);
          assert records[i] in Elements(records[i..]) by { assert records[i..][0] == records[i]; }
          Evict(records[i]);
          count, bytes := count + 1, bytes + records[i].size;
        }
        i := i + 1;
      }
    }

    /** Second loop of `enforce_retention`: the oldest records go until the rest fits. */
    method EvictToFit(records: seq<Rec>) returns (count: nat, bytes: nat)
      requires Lists(records, live)
      modifies this`live, this`evicted
      ensures Lists(DropToFit(records, maxBytes), live)
      ensures evicted == old(evicted) + (old(live) - live) && live <= old(live)
      ensures count == |records| - |DropToFit(records, maxBytes)|
      ensures bytes == Total(records) - Total(DropToFit(records, maxBytes))
    {
      ghost var k := DropToFitIsExact(records, maxBytes);
      count, bytes := 0, 0;
      var pending := Total(records);
      assert records[0..] == records;
      var i := 0;
      while i < |records|
        invariant 0 <= i <= k && count == i
        invariant Lists(records[i..], live) && live <= old(live)
        invariant evicted == old(evicted) + (old(live) - live)
        invariant pending == Total(records[i..]) && bytes == Total(records) - pending
      {
        if pending <= maxBytes { break; }
        SuffixLists(records, i);
        assert records[i] in Elements(records[i..]) by { assert records[i..][0] == records[i]; }
        Evict(records[i]);
        pending := pending - records[i].size;
        count, bytes := count + 1, bytes + records[i].size;
        i := i + 1;
      }
    }

    /** `enforce_retention`; `before` is the listing it started from. */
    method EnforceRetention(now: int) returns (count: nat, bytes: nat, ghost before: seq<Rec>)
      requires UniqueNames(live)
      modifies this`live, this`evicted
      ensures UniqueNames(live) && Lists(before, old(live))
      ensures Lists(Retained(before, now - maxAge, maxBytes), live)
      ensures evicted == old(evicted) + (old(live) - live) && live <= old(live)
      ensures count == |before| - |Retained(before, now - maxAge, maxBytes)|
      ensures bytes == Total(before) - Total(Retained(before, now - maxAge, maxBytes))
    {
      var records := PendingPaths();
      before := records;
      count, bytes := EvictExpired(records, now - maxAge);
      var rest := PendingPaths();
      ListingIsUnique(rest, DropExpired(records, now - maxAge));
      var moreCount, moreBytes := EvictToFit(rest);
      count, bytes := count + moreCount, bytes + moreBytes;
    }

    /** The first part of a retention pass that broke off: the `k` oldest records are gone. */
    method EvictOldest(records: seq<Rec>, k: nat)
      requires Lists(records, live) && k <= |records|
      modifies this`live, this`evicted
      ensures Lists(records[k..], live) && live <= old(live)
      ensures evicted == old(evicted) + (old(live) - live)
    {
      assert records[0..] == records;
      for i := 0 to k
        invariant Lists(records[i..], live) && live <= old(live)
        invariant evicted == old(evicted) + (old(live) - live)
      {
        SuffixLists(records, i);
        assert records[i] in Elements(records[i..]) by { assert records[i..][0] == records[i]; }
        Evict(records[i]);
      }
    }

    /** A new file becomes visible. */
    method Publish(r: Rec)
      requires r !in live
      modifies this`live
      ensures live == old(live) + {r}
    {
      live := live + {r};
    }

    /** `enqueue`: a new file, then the retention pass at the record's own time. */
    method Enqueue(r: Rec) returns (ghost before: seq<Rec>)
      requires UniqueNames(live + {r}) && r !in live
      modifies this`live, this`evicted
      ensures UniqueNames(live) && Lists(before, old(live) + {r})
      ensures Lists(Retained(before, r.time - maxAge, maxBytes), live)
      ensures evicted == old(evicted) + (old(live) + {r} - live) && live <= old(live) + {r}
    {
      Publish(r);
      var count, bytes;
      count, bytes, before := EnforceRetention(r.time);
    }

    /** Files may become unreadable at any time. */
    method Decay(bad: set<nat>)
      modifies this`live
      ensures live == Decayed(old(live), bad)
    {
      live := Decayed(live, bad);
    }

    /** `ack`. */
    method Ack(r: Rec)
      modifies this`live
      ensures live == old(live) - {r}
    {
      live := live - {r};
    }

    /** `reject`, and the quarantine of an unreadable record. */
    method Reject(r: Rec)
      requires r in live
      modifies this`live, this`dead
      ensures live == old(live) - {r} && dead == old(dead) + {r}
    {
      live, dead := live - {r}, dead + {r};
    }
  }
}
