/** The pending directory and its retention pass (src/monitor_agent/spool.py:155-186, 308-314). */
module Retention {

  /** A pending record: its logical time and name order it, `event` identifies its payload, `intact`
  tells whether `load` can read it. */
  datatype Rec = Rec(time: int, name: nat, size: nat, event: nat, intact: bool)

  /** The order of `_pending_paths`. */
  predicate Before(a: Rec, b: Rec) {
    a.time < b.time || (a.time == b.time && a.name < b.name)
  }

  /** A directory: one file per name. */
  predicate UniqueNames(live: set<Rec>) {
    forall a, b :: a in live && b in live && a.name == b.name ==> a == b
  }

  predicate Sorted(s: seq<Rec>) {
    forall i, j :: 0 <= i < j < |s| ==> Before(s[i], s[j])
  }

  function Elements(s: seq<Rec>): set<Rec> {
    set r | r in s
  }

  function Total(s: seq<Rec>): nat {
    if s == [] then 0 else s[0].size + Total(s[1..])
  }

  predicate AllFresh(s: seq<Rec>, cutoff: int) {
    forall r :: r in s ==> r.time >= cutoff
  }

  /** Listing `s` is the directory `live` in order. */
  predicate Lists(s: seq<Rec>, live: set<Rec>) {
    Sorted(s) && Elements(s) == live
  }

  lemma {:induction false} ListingIsUnique(s: seq<Rec>, t: seq<Rec>)
    requires Sorted(s) && Sorted(t) && Elements(s) == Elements(t)
    ensures s == t
  {
    assert s == [] <==> Elements(s) == {} by { if s != [] { assert s[0] in Elements(s); } }
    assert t == [] <==> Elements(t) == {} by { if t != [] { assert t[0] in Elements(t); } }
    if s != [] {
      assert s[0] in Elements(t) && t[0] in Elements(s);
      assert s[0] == t[0];
      TailElements(s);
      TailElements(t);
      ListingIsUnique(s[1..], t[1..]);
    }
  }

  lemma TailElements(s: seq<Rec>)
    requires Sorted(s) && s != []
    ensures Elements(s[1..]) == Elements(s) - {s[0]}
  {
    forall r | r in Elements(s) && r != s[0] ensures r in s[1..] {
      var k :| 0 <= k < |s| && s[k] == r;
      assert s[1..][k - 1] == r;
    }
  }

  // ---------------------------------------------------------------------------------------------
  // What retention keeps
  // ---------------------------------------------------------------------------------------------

  function DropExpired(s: seq<Rec>, cutoff: int): seq<Rec> {
    if s == [] || s[0].time >= cutoff then s else DropExpired(s[1..], cutoff)
  }

  function DropToFit(s: seq<Rec>, maxBytes: nat): seq<Rec> {
    if Total(s) <= maxBytes then s else DropToFit(s[1..], maxBytes)
  }

  function Retained(s: seq<Rec>, cutoff: int, maxBytes: nat): seq<Rec> {
    DropToFit(DropExpired(s, cutoff), maxBytes)
  }

  predicate Acceptable(s: seq<Rec>, cutoff: int, maxBytes: nat) {
    AllFresh(s, cutoff) && Total(s) <= maxBytes
  }

  lemma {:induction false} DropExpiredIsExact(s: seq<Rec>, cutoff: int) returns (k: nat)
    requires Sorted(s)
    ensures k <= |s| && DropExpired(s, cutoff) == s[k..] && AllFresh(s[k..], cutoff)
    ensures forall j :: 0 <= j < |s| ==> (s[j].time < cutoff <==> j < k)
  {
    if s == [] || s[0].time >= cutoff {
      k := 0;
      assert s[0..] == s;
    } else {
      k := DropExpiredIsExact(s[1..], cutoff);
      assert s[1..][k..] == s[k + 1..];
      forall j | 0 <= j < |s| ensures s[j].time < cutoff <==> j < k + 1 {
        if j > 0 { assert s[1..][j - 1] == s[j]; }
      }
      k := k + 1;
    }
  }

  lemma {:induction false} DropToFitIsExact(s: seq<Rec>, maxBytes: nat) returns (k: nat)
    ensures k <= |s| && DropToFit(s, maxBytes) == s[k..] && Total(s[k..]) <= maxBytes
    ensures forall j :: 0 <= j < k ==> Total(s[j..]) > maxBytes
  {
    if Total(s) <= maxBytes {
      k := 0;
      assert s[0..] == s;
    } else {
      k := DropToFitIsExact(s[1..], maxBytes);
      assert s[1..][k..] == s[k + 1..];
      forall j | 0 <= j < k + 1 ensures Total(s[j..]) > maxBytes {
        if j == 0 { assert s[0..] == s; } else { assert s[1..][j - 1..] == s[j..]; }
      }
      k := k + 1;
    }
  }

  /** Retention is exact: what survives is a suffix of the order, none of it older than the cutoff, its
  bytes within the cap, and every longer suffix breaks one of the two limits. */
  lemma RetentionIsExact(s: seq<Rec>, cutoff: int, maxBytes: nat) returns (k: nat)
    requires Sorted(s)
    ensures k <= |s| && Retained(s, cutoff, maxBytes) == s[k..]
    ensures Acceptable(s[k..], cutoff, maxBytes)
    ensures forall j :: 0 <= j < k ==> !Acceptable(s[j..], cutoff, maxBytes)
  {
    var a := DropExpiredIsExact(s, cutoff);
    var t := s[a..];
    var b := DropToFitIsExact(t, maxBytes);
    k := a + b;
    assert t[b..] == s[k..];
    forall r | r in s[k..] ensures r in s[a..] {
      var j :| 0 <= j < |s[k..]| && s[k..][j] == r;
      assert s[a..][b + j] == r;
    }
    forall j | 0 <= j < k ensures !Acceptable(s[j..], cutoff, maxBytes) {
      if j < a {
        assert s[j] == s[j..][0] && s[j] in s[j..];
      } else {
        assert t[j - a..] == s[j..];
      }
    }
  }

  /** A second pass at the same time evicts nothing. */
  lemma RetentionIsIdempotent(s: seq<Rec>, cutoff: int, maxBytes: nat)
    requires Sorted(s)
    ensures Retained(Retained(s, cutoff, maxBytes), cutoff, maxBytes) == Retained(s, cutoff, maxBytes)
  {
    var k := RetentionIsExact(s, cutoff, maxBytes);
    var t := s[k..];
    if t != [] { assert t[0] in t; }
    assert DropExpired(t, cutoff) == t;
  }

  /** A record survives exactly if it is fresh and it fits together with everything not older. In
  particular the record an enqueue has just added, being the newest, is evicted by the enqueue's own
  retention pass exactly if it alone exceeds the cap. */
  lemma SurvivesExactly(s: seq<Rec>, i: nat, cutoff: int, maxBytes: nat)
    requires Sorted(s) && i < |s|
    ensures s[i] in Retained(s, cutoff, maxBytes) <==> s[i].time >= cutoff && Total(s[i..]) <= maxBytes
    ensures i == |s| - 1 && s[i].time >= cutoff ==>
      (s[i] in Retained(s, cutoff, maxBytes) <==> s[i].size <= maxBytes)
  {
    var k := RetentionIsExact(s, cutoff, maxBytes);
    InSuffix(s, k, i);
    if k <= i {
      FitsInside(s, k, i);
    } else {
      assert !Acceptable(s[i..], cutoff, maxBytes);
      FreshFromHere(s, i, cutoff);
    }
    if i == |s| - 1 {
      LastAlone(s);
    }
  }

  lemma InSuffix(s: seq<Rec>, k: nat, i: nat)
    requires Sorted(s) && i < |s| && k <= |s|
    ensures s[i] in s[k..] <==> k <= i
  {
    if k <= i { assert s[k..][i - k] == s[i]; }
  }

  /** What is newer than a survivor weighs no more than all survivors. */
  lemma FitsInside(s: seq<Rec>, k: nat, i: nat)
    requires k <= i < |s|
    ensures Total(s[i..]) <= Total(s[k..])
    ensures s[i] in s[k..]
  {
    TotalOfSuffix(s[k..], i - k);
    assert s[k..][i - k..] == s[i..];
    assert s[k..][i - k] == s[i];
  }

  lemma FreshFromHere(s: seq<Rec>, i: nat, cutoff: int)
    requires Sorted(s) && i < |s|
    ensures s[i].time >= cutoff ==> AllFresh(s[i..], cutoff)
  {
    if s[i].time >= cutoff {
      forall r | r in s[i..] ensures r.time >= cutoff {
        var j :| 0 <= j < |s[i..]| && s[i..][j] == r;
        assert s[i + j] == r;
      }
    }
  }

  lemma LastAlone(s: seq<Rec>)
    requires s != []
    ensures Total(s[|s| - 1..]) == s[|s| - 1].size
  {
    var last := s[|s| - 1..];
    assert last == [s[|s| - 1]] && last[1..] == [];
  }

  lemma {:induction false} TotalOfSuffix(s: seq<Rec>, k: nat)
    requires k <= |s|
    ensures Total(s) == Total(s[..k]) + Total(s[k..])
  {
    if k == 0 {
      assert s[0..] == s;
    } else {
      TotalOfSuffix(s[1..], k - 1);
      assert s[..k][1..] == s[1..][..k - 1] && s[1..][k - 1..] == s[k..];
    }
  }
}
