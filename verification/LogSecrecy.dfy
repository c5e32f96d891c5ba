/** What the log filter hides (logging_setup.py:76-80, 153-206): configured secrets and the credentials
after bearer headers. */
module LogSecrecy {
  import opened PythonText
  import opened LogMarkers
  import opened Occurrences

  predicate SameHeader(s: string, t: string, h: nat) {
    h < |s| && h < |t| && t[..h] == s[..h] && !IsSpace(t[h])
  }

  /** What the proofs need to know of the header at the start of `s`: it holds no bracket, it ends where
  its own text says, and no other one begins inside it. */
  ghost predicate Anchored(header: string -> nat, s: string) {
    && (forall k :: 0 <= k < header(s) && k < |s| ==> s[k] != '[')
    && s != "" && !IsSpace(s[0])
    && (forall t: string {:trigger SameHeader(s, t, header(s))} ::
          SameHeader(s, t, header(s)) ==> header(t) == header(s))
    && (forall k {:trigger header(s[k..])} :: 0 < k < header(s) && k < |s| ==> header(s[k..]) == 0)
  }

  ghost predicate IsBearerHeader(header: string -> nat) {
    && IsHeader(header)
    && (forall s: string {:trigger Anchored(header, s)} :: header(s) > 0 ==> Anchored(header, s))
    && (forall k, x: string :: 0 <= k < |REDACTED| ==> header(REDACTED[k..] + x) == 0)
  }

  /** Two letters that stand together only at the beginning of a header. */
  predicate Begins(fold: char -> char, s: string, k: nat) {
    k + 1 < |s| && fold(s[k]) == 'a' && fold(s[k + 1]) == 'u'
  }

  lemma HeaderBegins(fold: char -> char, s: string)
    requires HeaderEnd(fold, s) > 0
    ensures Begins(fold, s, 0)
  {
    assert fold(s[0]) == "authorization"[0] && fold(s[1]) == "authorization"[1];
  }

  lemma BeginsOnce(fold: char -> char, s: string, colon: nat, value: nat, h: nat, k: nat)
    requires Standard(fold) && HeaderShape(fold, s, colon, value, h) && 0 < k < h
    ensures !Begins(fold, s, k)
  {
    if k < 13 {
      assert fold(s[k]) == "authorization"[k];
      assert k < 12 ==> fold(s[k + 1]) == "authorization"[k + 1];
    } else if k < value {
      assert s[k] == ':' || IsSpace(s[k]);
    } else if k < value + 6 {
      assert fold(s[k]) == "bearer"[k - value];
      assert k < value + 5 ==> fold(s[k + 1]) == "bearer"[k + 1 - value];
    } else {
      assert IsSpace(s[k]);
    }
  }

  lemma HeaderIsAnchored(fold: char -> char, s: string)
    requires Standard(fold) && HeaderEnd(fold, s) > 0
    ensures Anchored((t: string) => HeaderEnd(fold, t), s)
  {
    var colon, value := HeaderHasShape(fold, s);
    var h := HeaderEnd(fold, s);
    forall k | 0 <= k < h ensures s[k] != '[' {
      ShapeHoldsNoBracket(fold, s, colon, value, h, k);
    }
    assert fold(s[0]) == 'a';
    forall t: string | SameHeader(s, t, h) ensures HeaderEnd(fold, t) == h {
      assert forall k :: 0 <= k < h ==> t[k] == t[..h][k] && s[k] == s[..h][k];
      ShapeIsHeader(fold, t, colon, value, h);
    }
    forall k | 0 < k < h ensures HeaderEnd(fold, s[k..]) == 0 {
      BeginsOnce(fold, s, colon, value, h, k);
      if HeaderEnd(fold, s[k..]) > 0 { HeaderBegins(fold, s[k..]); }
    }
  }

  lemma ShapeHoldsNoBracket(fold: char -> char, s: string, colon: nat, value: nat, h: nat, k: nat)
    requires Standard(fold) && HeaderShape(fold, s, colon, value, h) && k < h
    ensures s[k] != '['
  {
    assert fold('[') == '[';
    if k < 13 {
      assert fold(s[k]) == "authorization"[k];
    } else if value <= k < value + 6 {
      assert fold(s[k]) == "bearer"[k - value];
    }
  }

  lemma RedactedBeginsNothing(fold: char -> char, k: nat, x: string)
    requires Standard(fold) && k < |REDACTED|
    ensures HeaderEnd(fold, REDACTED[k..] + x) == 0
  {
    var s := REDACTED[k..] + x;
    assert s[0] == REDACTED[k] && (k < 9 ==> s[1] == REDACTED[k + 1]);
    if HeaderEnd(fold, s) > 0 {
      HeaderBegins(fold, s);
    }
  }

  lemma BearerIsAnchored(fold: char -> char)
    requires Standard(fold)
    ensures IsBearerHeader((s: string) => HeaderEnd(fold, s))
  {
    BearerIsHeader(fold);
    forall s: string | HeaderEnd(fold, s) > 0 ensures Anchored((t: string) => HeaderEnd(fold, t), s) {
      HeaderIsAnchored(fold, s);
    }
    forall k, x: string | 0 <= k < |REDACTED| ensures HeaderEnd(fold, REDACTED[k..] + x) == 0 {
      RedactedBeginsNothing(fold, k, x);
    }
  }

  // ---------------------------------------------------- credentials in a text

  predicate AreMarks(arguments: set<string>, ts: seq<Token>) {
    forall i :: 0 <= i < |ts| ==> IsArgument(arguments, ts[i]) && MarkOk(ts[i])
  }

  /** The redaction text, or nothing but markers of arguments. */
  ghost predicate Hides(arguments: set<string>, credential: string) {
    credential == REDACTED ||
    exists marks :: marks != [] && AreMarks(arguments, marks) && credential == Encode(marks)
  }

  /** If a header begins here, what follows it up to the next white space is hidden. */
  ghost predicate CoveredHere(header: string -> nat, arguments: set<string>, s: string) {
    0 < header(s) <= |s| ==> Hides(arguments, s[header(s)..][..Skip(NotSpace, s[header(s)..], 0)])
  }

  /** The credential after every header is hidden. */
  ghost predicate Covered(header: string -> nat, arguments: set<string>, s: string) {
    forall i :: 0 <= i <= |s| ==> CoveredHere(header, arguments, s[i..])
  }

  /** No header begins in `a`. */
  ghost predicate NoHeaderIn(header: string -> nat, a: string, x: string) {
    forall i :: 0 <= i < |a| ==> header(a[i..] + x) == 0
  }

  lemma CoveredAfter(header: string -> nat, arguments: set<string>, a: string, x: string)
    requires Covered(header, arguments, x) && NoHeaderIn(header, a, x)
    ensures Covered(header, arguments, a + x)
  {
    forall i | 0 <= i <= |a + x| ensures CoveredHere(header, arguments, (a + x)[i..]) {
      if i < |a| {
        assert (a + x)[i..] == a[i..] + x;
      } else {
        assert (a + x)[i..] == x[i - |a|..];
      }
    }
  }

  lemma CoveredFirst(header: string -> nat, arguments: set<string>, s: string)
    requires s != "" && CoveredHere(header, arguments, s) && Covered(header, arguments, s[1..])
    ensures Covered(header, arguments, s)
  {
    forall i | 0 <= i <= |s| ensures CoveredHere(header, arguments, s[i..]) {
      if i == 0 {
        assert s[0..] == s;
      } else {
        assert s[i..] == s[1..][i - 1..];
      }
    }
  }

  lemma {:induction false} TokensAreOk(s: string)
    ensures forall t :: t in Tokens(s) ==> MarkOk(t)
    decreases |s|
  {
    if s != "" {
      TokensAreOk(if MarkerEnd(s) > 0 then s[MarkerEnd(s)..] else s[1..]);
    }
  }

  lemma {:induction false} MarksAreDigits(arguments: set<string>, ts: seq<Token>)
    requires AreMarks(arguments, ts)
    ensures forall k :: 0 <= k < |Encode(ts)| ==> Encode(ts)[k] == NUL || IsDigit(Encode(ts)[k])
    ensures ts != [] ==> Encode(ts) != "" && Encode(ts)[0] == NUL
  {
    if ts != [] {
      assert AreMarks(arguments, ts[1..]);
      MarksAreDigits(arguments, ts[1..]);
    }
  }

  /** What replaces a credential hides it, has no white space and begins no header. */
  lemma CredentialHides(header: string -> nat, arguments: set<string>, credential: string, x: string)
    returns (c: string)
    requires IsBearerHeader(header)
    ensures c == Encode(Credential(arguments, Tokens(credential)))
    ensures Hides(arguments, c) && c != "" && (c[0] == '[' || (arguments != {} && c[0] == NUL))
    ensures (forall k :: 0 <= k < |c| ==> NotSpace(c[k])) && NoHeaderIn(header, c, x)
  {
    var ts := Tokens(credential);
    var marks := ArgumentMarks(arguments, ts);
    c := Encode(Credential(arguments, ts));
    if marks == [] {
      EncodeChars(REDACTED);
      RedactedHasNoSpace();
    } else {
      TokensAreOk(credential);
      ArgumentMarksAreMarks(arguments, ts);
      assert forall i :: 0 <= i < |marks| ==> marks[i] in marks;
      assert marks[0].digits in arguments;
      MarksAreDigits(arguments, marks);
      DigitsBeginNothing(header, c, x);
    }
  }

  lemma RedactedHasNoSpace()
    ensures forall k :: 0 <= k < |REDACTED| ==> NotSpace(REDACTED[k])
    ensures REDACTED[0] == '[' && REDACTED[|REDACTED| - 1] == ']'
  {
  }

  lemma DigitsBeginNothing(header: string -> nat, c: string, x: string)
    requires IsHeader(header) && forall k :: 0 <= k < |c| ==> c[k] == NUL || IsDigit(c[k])
    ensures (forall k :: 0 <= k < |c| ==> NotSpace(c[k])) && NoHeaderIn(header, c, x)
  {
    forall i | 0 <= i < |c| ensures header(c[i..] + x) == 0 {
      var y := c[i..] + x;
      assert y[0] == c[i];
      assert header(y) > 0 ==> HeaderLies(y, header(y));
    }
  }

  /** Nothing that is put in place of a credential begins in `s`. */
  predicate NoStop(arguments: set<string>, s: string) {
    '[' !in s && (arguments != {} ==> NUL !in s)
  }

  lemma StopsAt(arguments: set<string>, r: string, n: nat, h: nat)
    requires n <= |r| && NoStop(arguments, r[..n]) && h < |r|
    requires r[h] == '[' || (arguments != {} && r[h] == NUL)
    ensures n <= h
  {
    assert forall k :: 0 <= k < n ==> r[k] == r[..n][k];
  }

  /** If nothing is put in place of a credential in the first `n` characters of `r`, they are those of
  `s`, and behind them there is white space or nothing only if there was. */
  predicate SameBefore(r: string, s: string, arguments: set<string>, n: nat) {
    n <= |r| && NoStop(arguments, r[..n]) ==>
      n <= |s| && r[..n] == s[..n] && (n < |r| && NotSpace(r[n]) ==> n < |s| && NotSpace(s[n]))
  }

  /** Up to the first thing put in place of a credential, the result is the text. */
  lemma {:induction false} SubstituteSameUpTo(header: string -> nat, arguments: set<string>, s: string, n: nat)
    requires IsBearerHeader(header)
    ensures SameBefore(Substitute(header, arguments, s).result, s, arguments, n)
    ensures Substitute(header, arguments, s).result == "" <==> s == ""
    decreases |s|
  {
    var r := Substitute(header, arguments, s).result;
    if s != "" {
      if 0 < header(s) <= |s| {
        SameUpToHeader(header, arguments, s, n);
      } else {
        var rest := Substitute(header, arguments, s[1..]).result;
        assert r == [s[0]] + rest;
        if 0 < n <= |r| && NoStop(arguments, r[..n]) {
          NoStopNext(arguments, s[0], rest, n);
          SubstituteSameUpTo(header, arguments, s[1..], n - 1);
          SameUpToNext(s, rest, n);
        }
      }
    }
  }

  lemma NoStopNext(arguments: set<string>, c: char, rest: string, n: nat)
    requires 0 < n <= |rest| + 1 && NoStop(arguments, ([c] + rest)[..n])
    ensures NoStop(arguments, rest[..n - 1])
  {
    assert ([c] + rest)[..n][1..] == rest[..n - 1];
  }

  lemma SameUpToNext(s: string, rest: string, n: nat)
    requires s != "" && 0 < n <= |rest| + 1 && n <= |s| && rest[..n - 1] == s[1..][..n - 1]
    ensures ([s[0]] + rest)[..n] == s[..n]
  {
    assert s[..n] == [s[0]] + s[1..][..n - 1];
  }

  lemma SameUpToHeader(header: string -> nat, arguments: set<string>, s: string, n: nat)
    requires IsBearerHeader(header) && 0 < header(s) <= |s|
    ensures Substitute(header, arguments, s).result != ""
    ensures SameBefore(Substitute(header, arguments, s).result, s, arguments, n)
  {
    var h := header(s);
    assert HeaderLies(s, h);
    var tail := s[h..];
    var e := Skip(NotSpace, tail, 0);
    var rest := Substitute(header, arguments, tail[e..]).result;
    var c := CredentialHides(header, arguments, tail[..e], rest);
    var r := Substitute(header, arguments, s).result;
    assert r == s[..h] + (c + rest) && r[h] == c[0];
    if n <= |r| && NoStop(arguments, r[..n]) { StopsAt(arguments, r, n, h); }
  }

  /** A text that begins with white space, or none, begins no run. */
  lemma RunEnds(c: string, x: string)
    requires (forall k :: 0 <= k < |c| ==> NotSpace(c[k])) && (x == "" || IsSpace(x[0]))
    ensures Skip(NotSpace, c + x, 0) == |c| && (c + x)[..|c|] == c
  {
    SkipEndsAt(NotSpace, c + x, 0, |c|);
  }

  /** The substitution leaves no credential: every header that can be found in the result is followed by
  the redaction text, or by markers of arguments. */
  lemma {:induction false} SubstitutionCovers(header: string -> nat, arguments: set<string>, s: string)
    requires IsBearerHeader(header)
    ensures Covered(header, arguments, Substitute(header, arguments, s).result)
    decreases |s|, 1
  {
    var r := Substitute(header, arguments, s).result;
    if s == "" {
      assert HeaderLies("", header("")) || header("") == 0;
    } else if 0 < header(s) <= |s| {
      CoversAtHeader(header, arguments, s);
    } else {
      SubstitutionCovers(header, arguments, s[1..]);
      NoNewHeader(header, arguments, s);
      assert r[1..] == Substitute(header, arguments, s[1..]).result;
      CoveredFirst(header, arguments, r);
    }
  }

  /** Where no header begins in the text, none begins in the result. */
  lemma NoNewHeader(header: string -> nat, arguments: set<string>, s: string)
    requires IsBearerHeader(header) && s != "" && header(s) == 0
    ensures header(Substitute(header, arguments, s).result) == 0
  {
    var r := Substitute(header, arguments, s).result;
    var h := header(r);
    if h > 0 {
      assert HeaderLies(r, h) && Anchored(header, r);
      assert forall k :: 0 <= k < h ==> r[k] == r[..h][k];
      SubstituteSameUpTo(header, arguments, s, h);
      assert SameHeader(r, s, h);
    }
  }

  lemma CoversAtHeader(header: string -> nat, arguments: set<string>, s: string)
    requires IsBearerHeader(header) && 0 < header(s) <= |s|
    ensures Covered(header, arguments, Substitute(header, arguments, s).result)
    decreases |s|, 0
  {
    var h := header(s);
    assert HeaderLies(s, h) && Anchored(header, s);
    var tail := s[h..];
    var e := Skip(NotSpace, tail, 0);
    var after := tail[e..];
    SubstitutionCovers(header, arguments, after);
    var rest := Substitute(header, arguments, after).result;
    var c := CredentialHides(header, arguments, tail[..e], rest);
    RestBegins(header, arguments, after);
    CoveredAfter(header, arguments, c, rest);
    HeaderIsCovered(header, arguments, s, c, rest);
    assert Substitute(header, arguments, s).result == s[..h] + (c + rest);
  }

  /** The rest after a credential begins with white space, if there is any. */
  lemma RestBegins(header: string -> nat, arguments: set<string>, after: string)
    requires IsBearerHeader(header) && (after == "" || IsSpace(after[0]))
    ensures var rest := Substitute(header, arguments, after).result; rest == "" || IsSpace(rest[0])
  {
    assert header(after) > 0 ==> HeaderLies(after, header(after)) && Anchored(header, after);
  }

  /** A header that stays, a hidden credential and a covered rest. */
  lemma HeaderIsCovered(header: string -> nat, arguments: set<string>, s: string, c: string, rest: string)
    requires IsBearerHeader(header) && 0 < header(s) < |s| && Anchored(header, s)
    requires Hides(arguments, c) && c != "" && forall k :: 0 <= k < |c| ==> NotSpace(c[k])
    requires (rest == "" || IsSpace(rest[0])) && Covered(header, arguments, c + rest)
    ensures Covered(header, arguments, s[..header(s)] + (c + rest))
  {
    var h := header(s);
    var r := s[..h] + (c + rest);
    assert r[h] == c[0] && r[..h] == s[..h];
    assert SameHeader(s, r, h);
    assert header(r) == h && Anchored(header, r);
    RunEnds(c, rest);
    assert r[h..] == c + rest;
    forall i | 0 <= i <= |r| ensures CoveredHere(header, arguments, r[i..]) {
      if i == 0 {
        assert r[0..] == r;
      } else if i >= h {
        assert r[i..] == (c + rest)[i - h..];
      }
    }
  }

  // ------------------------------------------------------- secrets in a text

  lemma {:induction false} ReplaceIsReplaced(s: string, part: string)
    requires part != ""
    ensures Replace(s, part) == Replaced(s, part, REDACTED)
    decreases |s|
  {
    if s != "" {
      ReplaceIsReplaced(if part <= s then s[|part|..] else s[1..], part);
    }
  }

  /** Redacting makes nothing appear that the redaction text has no part in. */
  lemma {:induction false} RedactingAddsNothing(secrets: seq<string>, s: string, p: string)
    requires "" !in secrets && Distinct(p, REDACTED) && Occurs(RedactText(secrets, s), p)
    ensures Occurs(s, p)
  {
    if secrets != [] {
      RedactingAddsNothing(secrets[1..], Replace(s, secrets[0]), p);
      ReplaceIsReplaced(s, secrets[0]);
      NothingAppears(s, secrets[0], REDACTED, p);
    }
  }

  /** Every secret is gone after the redaction, in whatever order the secrets are replaced. */
  lemma {:induction false} RedactedSecretIsGone(secrets: seq<string>, s: string, p: string)
    requires "" !in secrets && p in secrets && Distinct(p, REDACTED)
    ensures !Occurs(RedactText(secrets, s), p)
  {
    var next := Replace(s, secrets[0]);
    if p == secrets[0] {
      ReplaceIsReplaced(s, p);
      ReplacedIsGone(s, p, REDACTED);
      if Occurs(RedactText(secrets[1..], next), p) { RedactingAddsNothing(secrets[1..], next, p); }
    } else {
      RedactedSecretIsGone(secrets[1..], next, p);
    }
  }

  /** A text without secrets is left as it is. */
  lemma {:induction false} NothingRedacted(secrets: seq<string>, s: string)
    requires "" !in secrets && forall p :: p in secrets ==> !Occurs(s, p)
    ensures RedactText(secrets, s) == s
  {
    if secrets != [] {
      ReplaceIsReplaced(s, secrets[0]);
      NothingReplaced(s, secrets[0], REDACTED);
      NothingRedacted(secrets[1..], s);
    }
  }

  /** For a secret without brackets that is exactly when it is no part of the redaction text. */
  lemma SecretIsGoneExactly(p: string)
    requires p != "" && '[' !in p && ']' !in p
    ensures Distinct(p, REDACTED) <==> !Occurs(REDACTED, p)
    ensures (forall s :: !Occurs(RedactText([p], s), p)) <==> !Occurs(REDACTED, p)
  {
    RedactedHasNoSpace();
    if Occurs(REDACTED, p) {
      assert p[|p|..] == "" && Replace(p, p) == REDACTED + Replace(p[|p|..], p);
      assert RedactText([p], p) == RedactText([p][1..], Replace(p, p)) == REDACTED;
    } else {
      forall s ensures !Occurs(RedactText([p], s), p) {
        RedactedSecretIsGone([p], s, p);
      }
    }
  }

  lemma {:induction false} OccursInPrefix<T>(s: seq<T>, n: nat, p: seq<T>)
    requires n <= |s| && Occurs(s[..n], p)
    ensures Occurs(s, p)
  {
    if p <= s[..n] {
      assert p == s[..n][..|p|] == s[..|p|];
    } else {
      var rest := s[1..];
      assert s[..n][1..] == rest[..n - 1];
      OccursInPrefix(rest, n - 1, p);
      assert Occurs(rest, p);
    }
  }

  /** Replacing credentials in an argument makes no secret appear. */
  lemma {:induction false} SubstitutionAddsNothing(header: string -> nat, s: string, p: string)
    requires IsBearerHeader(header) && Distinct(p, REDACTED) && Occurs(Substitute(header, {}, s).result, p)
    ensures Occurs(s, p)
    decreases |s|
  {
    var r := Substitute(header, {}, s).result;
    if s != "" {
      var h := header(s);
      if 0 < h <= |s| {
        var e := Skip(NotSpace, s[h..], 0);
        BesideHeader(header, s, p);
        if !Occurs(s, p) {
          SubstitutionAddsNothing(header, s[h..][e..], p);
          assert s[h..][e..] == s[h + e..];
          OccursLater(s, h + e, p);
        }
      } else if p <= r {
        assert r[..|p|] == p;
        RedactedHasNoSpace();
        SubstituteSameUpTo(header, {}, s, |p|);
      } else {
        assert r[1..] == Substitute(header, {}, s[1..]).result;
        SubstitutionAddsNothing(header, s[1..], p);
      }
    }
  }

  lemma BesideHeader(header: string -> nat, s: string, p: string)
    requires Distinct(p, REDACTED) && 0 < header(s) <= |s| && Occurs(Substitute(header, {}, s).result, p)
    ensures var tail := s[header(s)..];
            Occurs(s, p) || Occurs(Substitute(header, {}, tail[Skip(NotSpace, tail, 0)..]).result, p)
  {
    var h := header(s);
    var tail := s[h..];
    var e := Skip(NotSpace, tail, 0);
    var rest := Substitute(header, {}, tail[e..]).result;
    NoArguments(Tokens(tail[..e]));
    EncodeChars(REDACTED);
    assert Substitute(header, {}, s).result == s[..h] + (REDACTED + rest);
    OneSide(s[..h], REDACTED, rest, p);
    if Occurs(s[..h], p) { OccursInPrefix(s, h, p); }
  }

  lemma {:induction false} NoArguments(ts: seq<Token>)
    ensures ArgumentMarks({}, ts) == []
  {
    if ts != [] {
      NoArguments(ts[1..]);
    }
  }

  // -------------------------------------------------- secrets in the template

  /** The secrets one after the other, among markers. */
  function RedactEach(secrets: seq<string>, ts: seq<Token>): seq<Token>
    requires "" !in secrets
  {
    if secrets == [] then ts
    else RedactEach(secrets[1..], Replaced(ts, Chars(secrets[0]), Chars(REDACTED)))
  }

  lemma {:induction false} ReplacedLead(s: string, ts: seq<Token>, part: string)
    requires part != "" && (ts == [] || ts[0].Mark?)
    ensures Replaced(Chars(s) + ts, Chars(part), Chars(REDACTED)) ==
            Chars(Replace(s, part)) + Replaced(ts, Chars(part), Chars(REDACTED))
    decreases |s|
  {
    var all := Chars(s) + ts;
    var p := Chars(part);
    PartOfLead(s, ts, part);
    if s == "" {
      assert all == ts && Chars("") + Replaced(ts, p, Chars(REDACTED)) == Replaced(ts, p, Chars(REDACTED));
    } else if part <= s {
      var rest := s[|part|..];
      CharsFrom(s, ts, |part|);
      ReplacedLead(rest, ts, part);
      CharsJoin(REDACTED, Replace(rest, part), Replaced(ts, p, Chars(REDACTED)));
    } else {
      CharsFrom(s, ts, 1);
      ReplacedLead(s[1..], ts, part);
      assert Chars([s[0]]) == [Ch(s[0])] && all[0] == Ch(s[0]);
      CharsJoin([s[0]], Replace(s[1..], part), Replaced(ts, p, Chars(REDACTED)));
    }
  }

  lemma CharsFrom(s: string, ts: seq<Token>, n: nat)
    requires n <= |s|
    ensures (Chars(s) + ts)[n..] == Chars(s[n..]) + ts
  {
  }

  lemma CharsJoin(a: string, b: string, ts: seq<Token>)
    ensures Chars(a + b) + ts == Chars(a) + (Chars(b) + ts)
  {
  }

  lemma PartOfLead(s: string, ts: seq<Token>, part: string)
    requires part != "" && (ts == [] || ts[0].Mark?)
    ensures Chars(part) <= Chars(s) + ts <==> part <= s
    ensures s == "" ==> !(Chars(part) <= ts)
  {
    var all, p := Chars(s) + ts, Chars(part);
    assert |all| > |s| ==> all[|s|].Mark?;
    if p <= all {
      assert forall k :: 0 <= k < |p| ==> all[k] == Ch(part[k]);
      assert forall k :: 0 <= k < |s| ==> all[k] == Ch(s[k]);
    }
    if s == "" { assert all == ts; }
  }

  lemma {:induction false} EachLead(secrets: seq<string>, s: string, ts: seq<Token>)
    requires "" !in secrets && (ts == [] || ts[0].Mark?)
    ensures RedactEach(secrets, Chars(s) + ts) == Chars(RedactText(secrets, s)) + RedactEach(secrets, ts)
  {
    if secrets != [] {
      ReplacedLead(s, ts, secrets[0]);
      EachLead(secrets[1..], Replace(s, secrets[0]), Replaced(ts, Chars(secrets[0]), Chars(REDACTED)));
    }
  }

  lemma {:induction false} EachMark(secrets: seq<string>, t: Token, ts: seq<Token>)
    requires "" !in secrets && t.Mark?
    ensures RedactEach(secrets, [t] + ts) == [t] + RedactEach(secrets, ts)
  {
    if secrets != [] {
      assert ([t] + ts)[1..] == ts;
      assert Chars(secrets[0])[0].Ch?;
      EachMark(secrets[1..], t, Replaced(ts, Chars(secrets[0]), Chars(REDACTED)));
    }
  }

  lemma {:induction false} EachOfNothing(secrets: seq<string>)
    requires "" !in secrets
    ensures RedactEach(secrets, []) == []
  {
    if secrets != [] {
      EachOfNothing(secrets[1..]);
    }
  }

  /** Redacting the parts between the markers is redacting the whole, markers being no text. */
  lemma {:induction false} RedactTokensIsEach(secrets: seq<string>, ts: seq<Token>)
    requires "" !in secrets
    ensures RedactTokens(secrets, ts) == RedactEach(secrets, ts)
    decreases |ts|
  {
    var lead := Lead(ts);
    LeadIsLead(ts);
    var tail := ts[|lead|..];
    assert ts == Chars(lead) + tail;
    EachLead(secrets, lead, tail);
    if tail == [] {
      EachOfNothing(secrets);
    } else {
      assert tail == [tail[0]] + tail[1..];
      EachMark(secrets, tail[0], tail[1..]);
      RedactTokensIsEach(secrets, tail[1..]);
    }
  }

  lemma {:induction false} OccursInChars(s: string, p: string)
    ensures Occurs(Chars(s), Chars(p)) <==> Occurs(s, p)
  {
    assert Chars(p) <= Chars(s) <==> p <= s by { CharsPrefix(s, p); }
    if s != "" {
      assert Chars(s)[1..] == Chars(s[1..]);
      OccursInChars(s[1..], p);
    }
  }

  lemma CharsPrefix(s: string, p: string)
    ensures Chars(p) <= Chars(s) <==> p <= s
  {
    if |p| <= |s| {
      assert Chars(p) == Chars(s)[..|p|] <==> forall k :: 0 <= k < |p| ==> Chars(p)[k] == Chars(s)[k];
      assert p == s[..|p|] <==> forall k :: 0 <= k < |p| ==> p[k] == s[k];
    }
  }

  lemma DistinctChars(p: string)
    requires Distinct(p, REDACTED)
    ensures Distinct(Chars(p), Chars(REDACTED))
  {
    OccursInChars(REDACTED, p);
  }

  lemma {:induction false} EachAddsNothing(secrets: seq<string>, ts: seq<Token>, p: string)
    requires "" !in secrets && Distinct(p, REDACTED) && Occurs(RedactEach(secrets, ts), Chars(p))
    ensures Occurs(ts, Chars(p))
  {
    if secrets != [] {
      DistinctChars(p);
      EachAddsNothing(secrets[1..], Replaced(ts, Chars(secrets[0]), Chars(REDACTED)), p);
      NothingAppears(ts, Chars(secrets[0]), Chars(REDACTED), Chars(p));
    }
  }

  /** No secret is left among the characters of the template. */
  lemma {:induction false} EachSecretIsGone(secrets: seq<string>, ts: seq<Token>, p: string)
    requires "" !in secrets && p in secrets && Distinct(p, REDACTED)
    ensures !Occurs(RedactEach(secrets, ts), Chars(p))
  {
    var next := Replaced(ts, Chars(secrets[0]), Chars(REDACTED));
    if p == secrets[0] {
      DistinctChars(p);
      ReplacedIsGone(ts, Chars(p), Chars(REDACTED));
      if Occurs(RedactEach(secrets[1..], next), Chars(p)) { EachAddsNothing(secrets[1..], next, p); }
    } else {
      EachSecretIsGone(secrets[1..], next, p);
    }
  }

  lemma {:induction false} NothingRedactedEach(secrets: seq<string>, ts: seq<Token>)
    requires "" !in secrets && forall p :: p in secrets ==> !Occurs(ts, Chars(p))
    ensures RedactEach(secrets, ts) == ts
  {
    if secrets != [] {
      NothingReplaced(ts, Chars(secrets[0]), Chars(REDACTED));
      NothingRedactedEach(secrets[1..], ts);
    }
  }

  // ------------------------------------------------ credentials in the template

  /** The redaction text, or nothing but markers of arguments. */
  predicate HidesRun(arguments: set<string>, run: seq<Token>) {
    run == Chars(REDACTED) || (run != [] && AreMarks(arguments, run))
  }

  predicate RunCoveredHere(header: string -> nat, arguments: set<string>, ts: seq<Token>) {
    var h := header(Encode(ts));
    0 < h <= |ts| ==> HidesRun(arguments, ts[h..][..Run(ts[h..])])
  }

  /** The run of tokens after every header is the redaction text, or nothing but markers of arguments. */
  ghost predicate RunsCovered(header: string -> nat, arguments: set<string>, ts: seq<Token>) {
    forall i :: 0 <= i <= |ts| ==> RunCoveredHere(header, arguments, ts[i..])
  }

  lemma {:induction false} EncodeTokens(s: string)
    ensures Encode(Tokens(s)) == s
    decreases |s|
  {
    if s != "" {
      var e := MarkerEnd(s);
      if e > 0 {
        EncodeTokens(s[e..]);
        EncodeFirst(Mark(s[1..e - 1]), Tokens(s[e..]));
        MarkerText(s);
      } else {
        EncodeTokens(s[1..]);
        EncodeFirst(Ch(s[0]), Tokens(s[1..]));
        HeadAndTail(s);
      }
    }
  }

  lemma MarkerText(s: string)
    requires MarkerEnd(s) > 0
    ensures var e := MarkerEnd(s); Encoding(Mark(s[1..e - 1])) == s[..e] && s[..e] + s[e..] == s
  {
    var e := MarkerEnd(s);
    assert s[0] == NUL && s[e - 1] == NUL;
    var t := Encoding(Mark(s[1..e - 1]));
    assert |t| == e;
    forall k | 0 <= k < e ensures t[k] == s[..e][k] {
      if 1 <= k < e - 1 { assert t[k] == s[1..e - 1][k - 1]; }
    }
  }

  /** What the pattern finds holds nothing else that looks like a marker. */
  lemma TokensAreSafe(s: string)
    ensures Safe(Tokens(s))
  {
    var ts := Tokens(s);
    TokensAreOk(s);
    assert forall i :: 0 <= i < |ts| ==> ts[i] in ts;
    EncodeTokens(s);
    TokensOfEncoded(ts);
  }

  lemma CharsAreSafe(s: string)
    requires NUL !in s
    ensures Safe(Chars(s)) && Encode(Chars(s)) == s
  {
    NoNulIsSafe(s, false);
    SafeChars(s, []);
    assert Chars(s) + [] == Chars(s);
    EncodeChars(s);
  }

  lemma HiddenRun(arguments: set<string>, run: seq<Token>)
    requires Safe(run) && Hides(arguments, Encode(run))
    ensures HidesRun(arguments, run)
  {
    if Encode(run) == REDACTED {
      assert NUL !in REDACTED;
      CharsAreSafe(REDACTED);
      SameTokens(run, Chars(REDACTED));
    } else {
      var marks :| marks != [] && AreMarks(arguments, marks) && Encode(run) == Encode(marks);
      OnlyMarksAreSafe(marks);
      SameTokens(run, marks);
    }
  }

  lemma SameTokens(ts: seq<Token>, us: seq<Token>)
    requires Safe(ts) && Safe(us) && Encode(ts) == Encode(us)
    ensures ts == us
  {
    SafeIsFound(ts);
    SafeIsFound(us);
  }

  lemma RunIsCovered(header: string -> nat, arguments: set<string>, ts: seq<Token>)
    requires IsHeader(header) && Safe(ts) && CoveredHere(header, arguments, Encode(ts))
    ensures RunCoveredHere(header, arguments, ts)
  {
    var s := Encode(ts);
    var h := header(s);
    if 0 < h <= |ts| {
      HeaderIsAligned(header, ts);
      var tail := ts[h..];
      RunOfEncoded(tail);
      SafeParts(tail, Run(tail));
      HiddenRun(arguments, tail[..Run(tail)]);
    }
  }

  /** What is covered as a text is covered as tokens. */
  lemma TokensAreCovered(header: string -> nat, arguments: set<string>, s: string)
    requires IsHeader(header) && Covered(header, arguments, s)
    ensures RunsCovered(header, arguments, Tokens(s))
  {
    var ts := Tokens(s);
    TokensAreSafe(s);
    EncodeTokens(s);
    forall i | 0 <= i <= |ts| ensures RunCoveredHere(header, arguments, ts[i..]) {
      SafeParts(ts, i);
      EncodeJoin(ts[..i], ts[i..]);
      var j := |Encode(ts[..i])|;
      assert s[j..] == Encode(ts[i..]);
      assert CoveredHere(header, arguments, s[j..]);
      RunIsCovered(header, arguments, ts[i..]);
    }
  }

  /** A secret that no white space and no part of the redaction text can be taken for. */
  predicate Plain(p: string) {
    Distinct(p, REDACTED) && forall k :: 0 <= k < |p| ==> NotSpace(p[k])
  }

  /** A hidden run and what follows it, up to the next white space, survive the next secret. */
  lemma {:induction false} RunSurvives(run: seq<Token>, after: seq<Token>, p: string)
    requires Plain(p) && (after == [] || IsGap(after[0]))
    requires !Occurs(run, Chars(p)) && forall i :: 0 <= i < |run| ==> !IsGap(run[i])
    ensures Replaced(run + after, Chars(p), Chars(REDACTED)) == run + Replaced(after, Chars(p), Chars(REDACTED))
    ensures var r := Replaced(after, Chars(p), Chars(REDACTED)); r == [] || IsGap(r[0])
  {
    var part := Chars(p);
    assert after != [] ==> !(part <= after) && after[0] !in part;
    if run == [] {
      assert run + after == after;
      assert run + Replaced(after, part, Chars(REDACTED)) == Replaced(after, part, Chars(REDACTED));
    } else {
      var all := run + after;
      if part <= all { PrefixOfTwo(part, run, after); }
      assert all[1..] == run[1..] + after;
      RunSurvives(run[1..], after, p);
      var rest := Replaced(after, part, Chars(REDACTED));
      HeadAndTail(run);
      Associative([run[0]], run[1..], rest);
    }
  }

  lemma {:induction false} RunOfJoin(run: seq<Token>, after: seq<Token>)
    requires (forall i :: 0 <= i < |run| ==> !IsGap(run[i])) && (after == [] || IsGap(after[0]))
    ensures Run(run + after) == |run| && (run + after)[..|run|] == run
  {
    if run == [] {
      assert run + after == after;
    } else {
      assert (run + after)[1..] == run[1..] + after;
      RunOfJoin(run[1..], after);
    }
  }

  lemma {:induction false} MarksHoldNoText(arguments: set<string>, ts: seq<Token>, p: string)
    requires AreMarks(arguments, ts) && p != ""
    ensures !Occurs(ts, Chars(p))
  {
    assert Chars(p)[0].Ch?;
    if ts != [] {
      assert AreMarks(arguments, ts[1..]);
      MarksHoldNoText(arguments, ts[1..], p);
    }
  }

  lemma HiddenRunSurvives(arguments: set<string>, ts: seq<Token>, p: string)
    requires Plain(p) && HidesRun(arguments, ts[..Run(ts)])
    ensures var r := Replaced(ts, Chars(p), Chars(REDACTED)); HidesRun(arguments, r[..Run(r)])
  {
    var n := Run(ts);
    var run, after := ts[..n], ts[n..];
    assert ts == run + after;
    if run == Chars(REDACTED) {
      OccursInChars(REDACTED, p);
    } else {
      MarksHoldNoText(arguments, run, p);
    }
    RunSurvives(run, after, p);
    RunOfJoin(run, Replaced(after, Chars(p), Chars(REDACTED)));
  }

  /** A header in the result was one in the text, with the same tail. */
  lemma HeaderWasThere(header: string -> nat, ts: seq<Token>, p: string)
    requires IsBearerHeader(header) && Plain(p)
    requires var r := Replaced(ts, Chars(p), Chars(REDACTED)); 0 < header(Encode(r)) <= |r|
    ensures var r := Replaced(ts, Chars(p), Chars(REDACTED)); var h := header(Encode(r));
            h <= |ts| && header(Encode(ts)) == h && r[h..] == Replaced(ts[h..], Chars(p), Chars(REDACTED))
  {
    var r := Replaced(ts, Chars(p), Chars(REDACTED));
    var h := header(Encode(r));
    HeaderOfTokens(header, r);
    SameUpTo(ts, Chars(p), Chars(REDACTED), h);
    NextIsNoGap(r[h..], ts[h..], p);
    CutAt(r, h);
    CutAt(ts, h);
    assert Anchored(header, Encode(r));
    HeaderStays(header, r, ts, r[..h], r[h..], ts[h..]);
  }

  lemma CutAt<T>(s: seq<T>, n: nat)
    requires n <= |s|
    ensures s == s[..n] + s[n..]
  {
  }

  lemma HeaderStays(
    header: string -> nat, r: seq<Token>, ts: seq<Token>, first: seq<Token>, tail: seq<Token>, rest: seq<Token>)
    requires r == first + tail && ts == first + rest
    requires Anchored(header, Encode(r)) && header(Encode(r)) == |Encode(first)| > 0
    requires Encode(tail) != "" && Encode(rest) != "" && NotSpace(Encode(rest)[0])
    ensures header(Encode(ts)) == |Encode(first)|
  {
    EncodeSplit(r, first, tail);
    EncodeSplit(ts, first, rest);
    SameHeaderBefore(header, Encode(r), Encode(ts), Encode(first), Encode(tail), Encode(rest));
  }

  lemma EncodeSplit(ts: seq<Token>, first: seq<Token>, rest: seq<Token>)
    requires ts == first + rest
    ensures Encode(ts) == Encode(first) + Encode(rest)
  {
    EncodeJoin(first, rest);
  }

  /** A header is one whatever follows its white space, if anything does. */
  lemma SameHeaderBefore(header: string -> nat, s: string, t: string, head: string, tail: string, rest: string)
    requires s == head + tail && t == head + rest && tail != "" && rest != "" && NotSpace(rest[0])
    requires Anchored(header, s) && header(s) == |head| > 0
    ensures header(t) == |head|
  {
    TextGoesOn(head, tail);
    TextGoesOn(head, rest);
    assert SameHeader(s, t, |head|);
  }

  /** The tokens of a header. */
  lemma HeaderOfTokens(header: string -> nat, r: seq<Token>)
    requires IsBearerHeader(header) && 0 < header(Encode(r)) <= |r|
    ensures var s, h := Encode(r), header(Encode(r));
      && Ch('[') !in r[..h] && h < |s| && Encode(r[..h]) == s[..h] && |Encode(r[..h])| == h
      && Encode(r[h..]) != "" && NotSpace(Encode(r[h..])[0])
  {
    var s := Encode(r);
    var h := header(s);
    assert HeaderLies(s, h) && Anchored(header, s);
    LeadingChars(r, h);
    assert forall k :: 0 <= k < h ==> r[..h][k] == Ch(s[k]);
    assert Encode(r[h..]) == s[h..] && s[h..][0] == s[h];
  }

  /** Behind the header, too, there was something else than white space. */
  lemma NextIsNoGap(tail: seq<Token>, rest: seq<Token>, p: string)
    requires Plain(p) && tail == Replaced(rest, Chars(p), Chars(REDACTED))
    requires Encode(tail) != "" && NotSpace(Encode(tail)[0])
    ensures Encode(rest) != "" && NotSpace(Encode(rest)[0])
  {
    assert rest != [];
    if Chars(p) <= rest {
      assert rest[0] == Chars(p)[0] == Ch(p[0]);
      assert Encode(rest)[0] == p[0];
    } else {
      assert tail[0] == rest[0];
      assert Encode(rest)[0] == Encoding(rest[0])[0] == Encode(tail)[0];
    }
  }

  lemma TextGoesOn(head: string, tail: string)
    requires tail != ""
    ensures |head| < |head + tail| && (head + tail)[..|head|] == head && (head + tail)[|head|] == tail[0]
  {
  }

  /** Replacing a plain secret uncovers no credential. */
  lemma {:induction false} ReplacingCovers(header: string -> nat, arguments: set<string>, ts: seq<Token>, p: string)
    requires IsBearerHeader(header) && Plain(p) && RunsCovered(header, arguments, ts)
    ensures RunsCovered(header, arguments, Replaced(ts, Chars(p), Chars(REDACTED)))
    decreases |ts|
  {
    var part := Chars(p);
    var r := Replaced(ts, part, Chars(REDACTED));
    if ts == [] {
    } else if part <= ts {
      SuffixIsCovered(header, arguments, ts, |part|);
      ReplacingCovers(header, arguments, ts[|part|..], p);
      RedactedCovers(header, arguments, Replaced(ts[|part|..], part, Chars(REDACTED)));
    } else {
      SuffixIsCovered(header, arguments, ts, 1);
      ReplacingCovers(header, arguments, ts[1..], p);
      var rest := Replaced(ts[1..], part, Chars(REDACTED));
      FirstIsCovered(header, arguments, ts, p);
      forall i | 0 <= i <= |r| ensures RunCoveredHere(header, arguments, r[i..]) {
        if i == 0 {
          assert r[0..] == r;
        } else {
          assert r[i..] == rest[i - 1..];
        }
      }
    }
  }

  lemma SuffixIsCovered(header: string -> nat, arguments: set<string>, ts: seq<Token>, n: nat)
    requires RunsCovered(header, arguments, ts) && n <= |ts|
    ensures RunsCovered(header, arguments, ts[n..])
  {
    forall i | 0 <= i <= |ts[n..]| ensures RunCoveredHere(header, arguments, ts[n..][i..]) {
      assert ts[n..][i..] == ts[n + i..];
    }
  }

  lemma FirstIsCovered(header: string -> nat, arguments: set<string>, ts: seq<Token>, p: string)
    requires IsBearerHeader(header) && Plain(p) && RunsCovered(header, arguments, ts)
    ensures RunCoveredHere(header, arguments, Replaced(ts, Chars(p), Chars(REDACTED)))
  {
    var r := Replaced(ts, Chars(p), Chars(REDACTED));
    var h := header(Encode(r));
    if 0 < h <= |r| {
      HeaderWasThere(header, ts, p);
      assert ts[0..] == ts && RunCoveredHere(header, arguments, ts[0..]);
      HiddenRunSurvives(arguments, ts[h..], p);
    }
  }

  /** No header begins in the redaction text. */
  lemma RedactedCovers(header: string -> nat, arguments: set<string>, ts: seq<Token>)
    requires IsBearerHeader(header) && RunsCovered(header, arguments, ts)
    ensures RunsCovered(header, arguments, Chars(REDACTED) + ts)
  {
    var r := Chars(REDACTED) + ts;
    forall i | 0 <= i <= |r| ensures RunCoveredHere(header, arguments, r[i..]) {
      if i < |REDACTED| {
        assert r[i..] == Chars(REDACTED[i..]) + ts;
        RedactedTail(header, REDACTED[i..], ts);
      } else {
        assert r[i..] == ts[i - |REDACTED|..];
      }
    }
  }

  lemma RedactedTail(header: string -> nat, tail: string, ts: seq<Token>)
    requires forall x: string :: header(tail + x) == 0
    ensures header(Encode(Chars(tail) + ts)) == 0
  {
    EncodeJoin(Chars(tail), ts);
    EncodeChars(tail);
    assert header(tail + Encode(ts)) == 0;
  }

  /** Nor does replacing all of them. */
  lemma {:induction false} EachCovers(
    header: string -> nat, arguments: set<string>, secrets: seq<string>, ts: seq<Token>)
    requires IsBearerHeader(header) && "" !in secrets && forall p :: p in secrets ==> Plain(p)
    requires RunsCovered(header, arguments, ts)
    ensures RunsCovered(header, arguments, RedactEach(secrets, ts))
  {
    if secrets != [] {
      ReplacingCovers(header, arguments, ts, secrets[0]);
      EachCovers(header, arguments, secrets[1..], Replaced(ts, Chars(secrets[0]), Chars(REDACTED)));
    }
  }

  // ------------------------------------------------------ reading the markers

  /** A replaced secret makes no beginning of a marker. */
  lemma {:induction false} StartsReplaced(ts: seq<Token>, p: string)
    requires p != "" && Starts(Replaced(ts, Chars(p), Chars(REDACTED)))
    ensures Starts(ts)
    decreases |ts|
  {
    var part := Chars(p);
    var r := Replaced(ts, part, Chars(REDACTED));
    FirstReplaced(ts, p);
    if |ts| > 1 {
      FirstReplaced(ts[1..], p);
      assert r[1..] == Replaced(ts[1..], part, Chars(REDACTED));
      if Starts(r[1..]) { StartsReplaced(ts[1..], p); }
    }
  }

  lemma FirstReplaced(ts: seq<Token>, p: string)
    requires p != ""
    ensures var r := Replaced(ts, Chars(p), Chars(REDACTED));
      && (r == [] <==> ts == [])
      && (ts != [] && Chars(p) <= ts ==> r[0] == Ch('['))
      && (ts != [] && !(Chars(p) <= ts) ==> r[0] == ts[0] && r[1..] == Replaced(ts[1..], Chars(p), Chars(REDACTED)))
  {
    RedactedHasNoSpace();
  }

  lemma {:induction false} ReplacedStaysSafe(ts: seq<Token>, p: string)
    requires p != "" && Safe(ts)
    ensures Safe(Replaced(ts, Chars(p), Chars(REDACTED)))
    decreases |ts|
  {
    var part := Chars(p);
    if ts != [] {
      if part <= ts {
        SafeParts(ts, |part|);
        ReplacedStaysSafe(ts[|part|..], p);
        assert NUL !in REDACTED;
        CharsAreSafe(REDACTED);
        RedactedHasNoSpace();
        SafeJoin(Chars(REDACTED), Replaced(ts[|part|..], part, Chars(REDACTED)));
      } else {
        ReplacedStaysSafe(ts[1..], p);
        var rest := Replaced(ts[1..], part, Chars(REDACTED));
        assert ([ts[0]] + rest)[1..] == rest;
        if Starts(rest) { StartsReplaced(ts[1..], p); }
      }
    }
  }

  lemma {:induction false} EachStaysSafe(secrets: seq<string>, ts: seq<Token>)
    requires "" !in secrets && Safe(ts)
    ensures Safe(RedactEach(secrets, ts))
  {
    if secrets != [] {
      ReplacedStaysSafe(ts, secrets[0]);
      EachStaysSafe(secrets[1..], Replaced(ts, Chars(secrets[0]), Chars(REDACTED)));
    }
  }

  /** After the redaction the same markers are found, with the redacted parts between them. */
  lemma RedactedIsFound(secrets: seq<string>, s: string)
    requires "" !in secrets
    ensures Tokens(RedactPreservingMarkers(secrets, s)) == RedactEach(secrets, Tokens(s))
  {
    TokensAreSafe(s);
    RedactTokensIsEach(secrets, Tokens(s));
    EachStaysSafe(secrets, Tokens(s));
    SafeIsFound(RedactEach(secrets, Tokens(s)));
  }
}
