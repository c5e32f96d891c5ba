/** Replacing one text in another, on any kind of characters: what was replaced is gone, and nothing
appears that was not there. */
module Occurrences {

  /** `s` with every occurrence of `part`, found from left to right, replaced by `put`. */
  function Replaced<T(==)>(s: seq<T>, part: seq<T>, put: seq<T>): seq<T>
    requires part != []
    decreases |s|
  {
    if s == [] then []
    else if part <= s then put + Replaced(s[|part|..], part, put)
    else [s[0]] + Replaced(s[1..], part, put)
  }

  /** `p` is somewhere in `s`. */
  predicate Occurs<T(==)>(s: seq<T>, p: seq<T>) {
    p <= s || (s != [] && Occurs(s[1..], p))
  }

  predicate OccursAt<T(==)>(s: seq<T>, p: seq<T>, i: nat) {
    i + |p| <= |s| && s[i..i + |p|] == p
  }

  lemma OccursFirst<T>(s: seq<T>, p: seq<T>)
    ensures OccursAt(s, p, 0) <==> p <= s
  {
    if |p| <= |s| { assert s[0..0 + |p|] == s[..|p|]; }
  }

  lemma OccursNext<T>(s: seq<T>, p: seq<T>, i: nat)
    requires s != []
    ensures OccursAt(s, p, i + 1) <==> OccursAt(s[1..], p, i)
  {
    if i + 1 + |p| <= |s| { assert s[i + 1..i + 1 + |p|] == s[1..][i..i + |p|]; }
  }

  lemma PrefixOfTwo<T>(p: seq<T>, y: seq<T>, x: seq<T>)
    requires p <= y + x
    ensures |p| <= |y| ==> p <= y
    ensures |p| > |y| ==> forall k :: 0 <= k < |y| ==> y[k] in p
    ensures |p| > |y| ==> x != [] && x[0] in p
  {
    assert forall k :: 0 <= k < |p| ==> p[k] == (y + x)[k];
    if |p| > |y| {
      assert p[|y|] == x[0];
      forall k | 0 <= k < |y| ensures y[k] in p { assert p[k] == y[k]; }
    }
  }

  lemma {:induction false} OccursSomewhere<T>(s: seq<T>, p: seq<T>)
    ensures Occurs(s, p) <==> exists i: nat :: OccursAt(s, p, i)
  {
    if p <= s {
      assert OccursAt(s, p, 0);
    } else if s == [] {
      assert forall i: nat :: OccursAt(s, p, i) ==> p == [];
    } else {
      OccursSomewhere(s[1..], p);
      OccursFirst(s, p);
      forall i: nat | OccursAt(s, p, i) ensures exists j: nat :: OccursAt(s[1..], p, j) {
        OccursNext(s, p, i - 1);
      }
      forall i: nat | OccursAt(s[1..], p, i) ensures exists j: nat :: OccursAt(s, p, j) {
        OccursNext(s, p, i);
      }
    }
  }

  lemma {:induction false} OccursLater<T>(s: seq<T>, n: nat, p: seq<T>)
    requires n <= |s| && Occurs(s[n..], p)
    ensures Occurs(s, p)
  {
    if n > 0 {
      assert s[1..][n - 1..] == s[n..];
      OccursLater(s[1..], n - 1, p);
    } else {
      assert s[0..] == s;
    }
  }

  /** No occurrence of `p` can begin or end inside `put`, or hold it: neither end of `put` is in `p`, and
  `p` is not in `put`. */
  predicate Distinct<T(==)>(p: seq<T>, put: seq<T>) {
    p != [] && put != [] && put[0] !in p && put[|put| - 1] !in p && !Occurs(put, p)
  }

  lemma {:induction false} AfterPart<T>(y: seq<T>, x: seq<T>, p: seq<T>)
    requires y != [] ==> y[|y| - 1] !in p && !Occurs(y, p)
    requires Occurs(y + x, p)
    ensures Occurs(x, p)
  {
    if y == [] {
      assert y + x == x;
    } else {
      var all := y + x;
      if p <= all {
        PrefixOfTwo(p, y, x);
      } else {
        assert all[1..] == y[1..] + x;
        AfterPart(y[1..], x, p);
      }
    }
  }

  /** What stands on the two sides of `put` keeps what it held. */
  lemma {:induction false} OneSide<T>(a: seq<T>, put: seq<T>, x: seq<T>, p: seq<T>)
    requires Distinct(p, put) && Occurs(a + (put + x), p)
    ensures Occurs(a, p) || Occurs(x, p)
  {
    var all := a + (put + x);
    if a == [] {
      assert all == put + x;
      AfterPart(put, x, p);
    } else if p <= all {
      PrefixOfTwo(p, a, put + x);
    } else {
      assert all[1..] == a[1..] + (put + x);
      OneSide(a[1..], put, x, p);
      if Occurs(a[1..], p) { OccursLater(a, 1, p); }
    }
  }

  /** The beginning of the result up to the first replacement is the beginning of the text. */
  lemma {:induction false} SameUpTo<T>(s: seq<T>, part: seq<T>, put: seq<T>, n: nat)
    requires part != [] && put != [] && n <= |Replaced(s, part, put)| && put[0] !in Replaced(s, part, put)[..n]
    ensures n <= |s| && Replaced(s, part, put)[..n] == s[..n]
    ensures Replaced(s, part, put)[n..] == Replaced(s[n..], part, put)
  {
    var r := Replaced(s, part, put);
    if n > 0 {
      assert r[0] == r[..n][0];
      var rest := Replaced(s[1..], part, put);
      assert r == [s[0]] + rest;
      assert rest[..n - 1] == r[..n][1..];
      SameUpTo(s[1..], part, put, n - 1);
      assert s[..n] == [s[0]] + s[1..][..n - 1] && s[1..][n - 1..] == s[n..];
      assert r[n..] == rest[n - 1..];
    } else {
      assert s[0..] == s && r[0..] == r;
    }
  }

  lemma {:induction false} NothingReplaced<T>(s: seq<T>, part: seq<T>, put: seq<T>)
    requires part != [] && !Occurs(s, part)
    ensures Replaced(s, part, put) == s
  {
    if s != [] {
      NothingReplaced(s[1..], part, put);
    }
  }

  /** Replacing makes nothing appear. */
  lemma {:induction false} NothingAppears<T>(s: seq<T>, part: seq<T>, put: seq<T>, p: seq<T>)
    requires part != [] && Distinct(p, put) && Occurs(Replaced(s, part, put), p)
    ensures Occurs(s, p)
    decreases |s|
  {
    var r := Replaced(s, part, put);
    if s != [] {
      if part <= s {
        AfterPart(put, Replaced(s[|part|..], part, put), p);
        NothingAppears(s[|part|..], part, put, p);
        OccursLater(s, |part|, p);
      } else if p <= r {
        assert r[..|p|] == p;
        SameUpTo(s, part, put, |p|);
      } else {
        assert r[1..] == Replaced(s[1..], part, put);
        NothingAppears(s[1..], part, put, p);
      }
    }
  }

  /** What was replaced is gone. */
  lemma {:induction false} ReplacedIsGone<T>(s: seq<T>, p: seq<T>, put: seq<T>)
    requires Distinct(p, put)
    ensures !Occurs(Replaced(s, p, put), p)
    decreases |s|
  {
    var r := Replaced(s, p, put);
    if s != [] {
      if p <= s {
        ReplacedIsGone(s[|p|..], p, put);
        if Occurs(r, p) { AfterPart(put, Replaced(s[|p|..], p, put), p); }
      } else {
        ReplacedIsGone(s[1..], p, put);
        assert r[1..] == Replaced(s[1..], p, put);
        if p <= r {
          assert r[..|p|] == p;
          SameUpTo(s, p, put, |p|);
        }
      }
    }
  }
}
