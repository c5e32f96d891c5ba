/**
  The marked template (logging_setup.py): conversions are replaced by numbered
  markers between NUL characters while the text around them is redacted.

  The program works on strings; the proofs work on tokens.  `TokensOfEncoded`
  says when the two views agree, and `SubstitutionRefines` that the bearer
  substitution on the string is the one on the tokens.
 */
module LogMarkers {
  import opened PythonText

  const NUL := '\U{0}'
  const REDACTED := "[REDACTED]"

  datatype Token = Ch(c: char) | Mark(digits: string)

  function Encoding(t: Token): string {
    if t.Ch? then [t.c] else [NUL] + t.digits + [NUL]
  }

  function Encode(ts: seq<Token>): string {
    if ts == [] then "" else Encoding(ts[0]) + Encode(ts[1..])
  }

  /** The end of a marker at the start of `s`, or 0. */
  function MarkerEnd(s: string): (e: nat)
    ensures e > 0 ==> 2 < e <= |s| && forall k :: 1 <= k < e - 1 ==> IsDigit(s[k])
  {
    if s != "" && s[0] == NUL then
      var end := Skip(IsDigit, s, 1);
      if 1 < end < |s| && s[end] == NUL then end + 1 else 0
    else 0
  }

  /** The markers the pattern finds from left to right, and the characters between them. */
  function Tokens(s: string): seq<Token> {
    if s == "" then []
    else if MarkerEnd(s) > 0 then [Mark(s[1..MarkerEnd(s) - 1])] + Tokens(s[MarkerEnd(s)..])
    else [Ch(s[0])] + Tokens(s[1..])
  }

  predicate MarkOk(t: Token) {
    t.Mark? ==> t.digits != "" && forall k :: 0 <= k < |t.digits| ==> IsDigit(t.digits[k])
  }

  predicate IsDigitToken(t: Token) {
    t.Ch? && IsDigit(t.c)
  }

  /** The token's text begins with NUL. */
  predicate Closes(t: Token) {
    t.Mark? || t == Ch(NUL)
  }

  /** After a NUL, these tokens would be taken for the rest of a marker: digits and another NUL. */
  predicate Starts(ts: seq<Token>) {
    |ts| > 1 && IsDigitToken(ts[0]) && (Closes(ts[1]) || Starts(ts[1..]))
  }

  /** No text that looks like a marker begins at a character token. */
  predicate Safe(ts: seq<Token>) {
    ts == [] || (MarkOk(ts[0]) && (ts[0] == Ch(NUL) ==> !Starts(ts[1..])) && Safe(ts[1..]))
  }

  /** A token that neither is nor continues the beginning of a marker. */
  predicate Solid(t: Token) {
    !IsDigitToken(t) && t != Ch(NUL)
  }

  lemma {:induction false} StartsJoin(ts: seq<Token>, us: seq<Token>)
    ensures Starts(ts) ==> Starts(ts + us)
    ensures ts != [] && Solid(ts[|ts| - 1]) ==> (Starts(ts + us) <==> Starts(ts))
  {
    if |ts| > 1 {
      assert (ts + us)[1..] == ts[1..] + us;
      StartsJoin(ts[1..], us);
    } else if |ts| == 1 {
      assert (ts + us)[0] == ts[0];
    }
  }

  lemma {:induction false} SafeJoin(ts: seq<Token>, us: seq<Token>)
    requires Safe(ts) && Safe(us) && (ts == [] || Solid(ts[|ts| - 1]))
    ensures Safe(ts + us)
  {
    if ts == [] {
      assert ts + us == us;
    } else {
      assert (ts + us)[1..] == ts[1..] + us;
      SafeJoin(ts[1..], us);
      StartsJoin(ts[1..], us);
    }
  }

  lemma {:induction false} SafeSplit(ts: seq<Token>, us: seq<Token>)
    requires Safe(ts + us)
    ensures Safe(ts) && Safe(us)
  {
    if ts == [] {
      assert ts + us == us;
    } else {
      assert (ts + us)[1..] == ts[1..] + us;
      SafeSplit(ts[1..], us);
      StartsJoin(ts[1..], us);
    }
  }

  lemma SafeParts(ts: seq<Token>, i: nat)
    requires Safe(ts) && i <= |ts|
    ensures Safe(ts[..i]) && Safe(ts[i..]) && ts == ts[..i] + ts[i..]
  {
    assert ts == ts[..i] + ts[i..];
    SafeSplit(ts[..i], ts[i..]);
  }

  lemma {:induction false} SafeMarks(ts: seq<Token>)
    requires Safe(ts)
    ensures forall i :: 0 <= i < |ts| ==> MarkOk(ts[i])
  {
    if ts != [] {
      SafeMarks(ts[1..]);
      assert forall i :: 1 <= i < |ts| ==> ts[i] == ts[1..][i - 1];
    }
  }

  lemma EncodeFirst(t: Token, ts: seq<Token>)
    ensures Encode([t] + ts) == Encoding(t) + Encode(ts)
  {
    TailOfFirst(t, ts);
  }

  lemma {:induction false} EncodeJoin(ts: seq<Token>, us: seq<Token>)
    ensures Encode(ts + us) == Encode(ts) + Encode(us)
  {
    if ts == [] {
      assert ts + us == us;
    } else {
      HeadAndTail(ts);
      Associative([ts[0]], ts[1..], us);
      EncodeFirst(ts[0], ts[1..] + us);
      EncodeJoin(ts[1..], us);
      Associative(Encoding(ts[0]), Encode(ts[1..]), Encode(us));
    }
  }

  /** `Starts` on the text. */
  predicate StartsText(s: string) {
    |s| > 1 && IsDigit(s[0]) && (s[1] == NUL || StartsText(s[1..]))
  }

  lemma {:induction false} StartsEncoded(ts: seq<Token>)
    ensures StartsText(Encode(ts)) <==> Starts(ts)
  {
    if ts != [] && ts[0].Ch? {
      StartsEncoded(ts[1..]);
      assert Encode(ts)[1..] == Encode(ts[1..]);
      if |ts| > 1 {
        assert Encode(ts)[1] == Encoding(ts[1])[0];
      }
    }
  }

  lemma {:induction false} StartsSkips(s: string)
    ensures var e := Skip(IsDigit, s, 0); StartsText(s) <==> 0 < e < |s| && s[e] == NUL
  {
    if |s| > 1 && IsDigit(s[0]) {
      StartsSkips(s[1..]);
      SkipOneMore(s);
    }
  }

  lemma SkipOneMore(s: string)
    requires s != "" && IsDigit(s[0])
    ensures Skip(IsDigit, s, 0) == 1 + Skip(IsDigit, s[1..], 0)
  {
    var e := Skip(IsDigit, s[1..], 0);
    assert forall k :: 1 <= k < e + 1 ==> s[k] == s[1..][k - 1];
    SkipEndsAt(IsDigit, s, 0, e + 1);
  }

  lemma MarkerStarts(s: string)
    ensures MarkerEnd([NUL] + s) > 0 <==> StartsText(s)
  {
    var t := [NUL] + s;
    var e := Skip(IsDigit, s, 0);
    StartsSkips(s);
    assert forall k :: 1 <= k < e + 1 ==> t[k] == s[k - 1];
    SkipEndsAt(IsDigit, t, 1, e + 1);
  }

  /** The first token is found, or it is the beginning of what looks like a marker. */
  lemma FirstFound(ts: seq<Token>)
    requires ts != [] && MarkOk(ts[0])
    ensures if ts[0] == Ch(NUL) && Starts(ts[1..])
            then Tokens(Encode(ts)) != [] && Tokens(Encode(ts))[0].Mark?
            else Tokens(Encode(ts)) == [ts[0]] + Tokens(Encode(ts[1..]))
  {
    if ts[0].Mark? {
      MarkerIsFound(ts[0], Encode(ts[1..]));
    } else {
      CharIsFound(ts);
    }
  }

  /** Markers are found where they were put and nowhere else exactly if nothing else looks like one. */
  lemma {:induction false} TokensOfEncoded(ts: seq<Token>)
    requires forall i :: 0 <= i < |ts| ==> MarkOk(ts[i])
    ensures Tokens(Encode(ts)) == ts <==> Safe(ts)
  {
    if ts != [] {
      TokensOfEncoded(ts[1..]);
      FirstFound(ts);
      SameTail(ts[0], Tokens(Encode(ts[1..])), ts);
    }
  }

  lemma SameTail(t: Token, us: seq<Token>, ts: seq<Token>)
    requires ts != [] && ts[0] == t
    ensures [t] + us == ts <==> us == ts[1..]
  {
    TailOfFirst(t, us);
    HeadAndTail(ts);
  }

  lemma CharIsFound(ts: seq<Token>)
    requires ts != [] && ts[0].Ch?
    ensures Encode(ts) != "" && Encode(ts)[0] == ts[0].c && Encode(ts)[1..] == Encode(ts[1..])
    ensures MarkerEnd(Encode(ts)) > 0 <==> ts[0] == Ch(NUL) && Starts(ts[1..])
  {
    MarkerStarts(Encode(ts[1..]));
    StartsEncoded(ts[1..]);
  }

  lemma SafeIsFound(ts: seq<Token>)
    requires Safe(ts)
    ensures Tokens(Encode(ts)) == ts
  {
    SafeMarks(ts);
    TokensOfEncoded(ts);
  }

  lemma MarkerIsFound(t: Token, rest: string)
    requires t.Mark? && MarkOk(t)
    ensures var s := Encoding(t) + rest;
            MarkerEnd(s) == |t.digits| + 2 && s[1..MarkerEnd(s) - 1] == t.digits && s[MarkerEnd(s)..] == rest
  {
    var s := Encoding(t) + rest;
    assert forall k :: 1 <= k < |t.digits| + 1 ==> s[k] == t.digits[k - 1];
    SkipEndsAt(IsDigit, s, 1, |t.digits| + 1);
  }

  // ----------------------------------------------------------- bearer headers

  /** A fold of case that is the usual one on ASCII and changes no white space; the rest is left open. */
  ghost predicate Standard(fold: char -> char) {
    && (forall c: char :: c <= '\U{7F}' ==> fold(c) == AsciiLower(c))
    && (forall c :: IsSpace(c) ==> fold(c) == c)
  }

  function AsciiLower(c: char): char {
    if 'A' <= c <= 'Z' then c + ' ' else c
  }

  /** The end of `word` at `i`, or 0. */
  function WordEnd(fold: char -> char, word: string, s: string, i: nat): (j: nat)
    ensures j > 0 ==> j == i + |word| <= |s| && forall k :: i <= k < j ==> fold(s[k]) == word[k - i]
  {
    if i + |word| <= |s| && forall k :: i <= k < i + |word| ==> fold(s[k]) == word[k - i] then i + |word| else 0
  }

  /** The end of a colon at `i` with spaces around it, or 0. */
  function ColonEnd(s: string, i: nat): (j: nat)
    requires i <= |s|
    ensures j > 0 ==> i < j <= |s| && forall k :: i <= k < j ==> s[k] == ':' || IsSpace(s[k])
  {
    var colon := Skip(IsSpace, s, i);
    if colon < |s| && s[colon] == ':' then Skip(IsSpace, s, colon + 1) else 0
  }

  /** The end of a header, up to its credential, at the start of `s`; 0 if there is none. */
  function HeaderEnd(fold: char -> char, s: string): (e: nat)
    ensures e > 0 ==> 0 < e < |s| && IsSpace(s[e - 1]) && !IsSpace(s[e])
  {
    var name := WordEnd(fold, "authorization", s, 0);
    if name == 0 || ColonEnd(s, name) == 0 then 0
    else
      var value := WordEnd(fold, "bearer", s, ColonEnd(s, name));
      if value == 0 then 0
      else
        var end := Skip(IsSpace, s, value);
        if value < end < |s| then end else 0
  }

  lemma WordHoldsNoMarker(fold: char -> char, word: string, s: string, i: nat)
    requires Standard(fold) && forall k :: 0 <= k < |word| ==> word[k] != NUL && !IsDigit(word[k])
    ensures forall k :: i <= k < WordEnd(fold, word, s, i) ==> s[k] != NUL && !IsDigit(s[k])
  {
    forall k | i <= k < WordEnd(fold, word, s, i) ensures s[k] != NUL && !IsDigit(s[k]) {
      assert fold(s[k]) == word[k - i];
      assert s[k] <= '9' ==> fold(s[k]) == s[k];
    }
  }

  /** The header pattern, read off its definition: the two words in any case, white space and one colon
  between them, white space and then something else after them. */
  predicate HeaderShape(fold: char -> char, s: string, colon: nat, value: nat, h: nat) {
    && 13 <= colon < value && value + 6 < h < |s|
    && (forall k :: 0 <= k < 13 ==> fold(s[k]) == "authorization"[k])
    && (forall k :: 13 <= k < value && k != colon ==> IsSpace(s[k])) && s[colon] == ':'
    && (forall k :: value <= k < value + 6 ==> fold(s[k]) == "bearer"[k - value])
    && (forall k :: value + 6 <= k < h ==> IsSpace(s[k])) && !IsSpace(s[h])
  }

  lemma HeaderHasShape(fold: char -> char, s: string) returns (colon: nat, value: nat)
    requires HeaderEnd(fold, s) > 0
    ensures HeaderShape(fold, s, colon, value, HeaderEnd(fold, s))
  {
    colon := Skip(IsSpace, s, 13);
    value := ColonEnd(s, 13);
    assert |"authorization"| == 13 && |"bearer"| == 6;
  }

  lemma ShapeIsHeader(fold: char -> char, s: string, colon: nat, value: nat, h: nat)
    requires Standard(fold) && HeaderShape(fold, s, colon, value, h)
    ensures HeaderEnd(fold, s) == h
  {
    assert |"authorization"| == 13 && |"bearer"| == 6;
    assert !IsSpace(s[colon]);
    SkipEndsAt(IsSpace, s, 13, colon);
    assert fold(s[value]) == 'b' && !IsSpace('b');
    SkipEndsAt(IsSpace, s, colon + 1, value);
    SkipEndsAt(IsSpace, s, value + 6, h);
  }

  /** A header is found exactly where there is one. */
  lemma HeaderIsExact(fold: char -> char, s: string)
    requires Standard(fold)
    ensures HeaderEnd(fold, s) > 0 <==> exists colon: nat, value: nat, h: nat :: HeaderShape(fold, s, colon, value, h)
    ensures forall colon: nat, value: nat, h: nat :: HeaderShape(fold, s, colon, value, h) ==> HeaderEnd(fold, s) == h
  {
    forall colon: nat, value: nat, h: nat | HeaderShape(fold, s, colon, value, h) ensures HeaderEnd(fold, s) == h {
      ShapeIsHeader(fold, s, colon, value, h);
    }
    if HeaderEnd(fold, s) > 0 {
      var colon, value := HeaderHasShape(fold, s);
    }
  }

  lemma HeaderHoldsNoMarker(fold: char -> char, s: string)
    requires Standard(fold) && HeaderEnd(fold, s) > 0
    ensures !IsDigit(s[0])
    ensures forall k :: 0 <= k < HeaderEnd(fold, s) ==> s[k] != NUL
  {
    var name := WordEnd(fold, "authorization", s, 0);
    WordHoldsNoMarker(fold, "authorization", s, 0);
    WordHoldsNoMarker(fold, "bearer", s, ColonEnd(s, name));
  }

  /** What the proofs need to know of the header pattern: `header(s)` is its end in `s`, or 0. */
  ghost predicate IsHeader(header: string -> nat) {
    forall s: string :: header(s) > 0 ==> HeaderLies(s, header(s))
  }

  predicate HeaderLies(s: string, h: nat) {
    && 0 < h < |s| && IsSpace(s[h - 1]) && !IsSpace(s[h])
    && !IsDigit(s[0]) && forall k :: 0 <= k < h ==> s[k] != NUL
  }

  lemma BearerIsHeader(fold: char -> char)
    requires Standard(fold)
    ensures IsHeader((s: string) => HeaderEnd(fold, s))
  {
    forall s: string | HeaderEnd(fold, s) > 0 ensures HeaderLies(s, HeaderEnd(fold, s)) {
      HeaderHoldsNoMarker(fold, s);
    }
  }

  /** What the substitution makes of the text, the markers of arguments it saw in credentials, and all
  the markers it saw there. */
  datatype Rewritten<T> = Rewritten(result: T, bearers: set<string>, seen: set<string>)

  predicate IsArgument(arguments: set<string>, t: Token) {
    t.Mark? && t.digits in arguments
  }

  function ArgumentMarks(arguments: set<string>, ts: seq<Token>): seq<Token> {
    if ts == [] then []
    else (if IsArgument(arguments, ts[0]) then [ts[0]] else []) + ArgumentMarks(arguments, ts[1..])
  }

  function Chars(s: string): (ts: seq<Token>)
    ensures |ts| == |s| && forall i :: 0 <= i < |s| ==> ts[i] == Ch(s[i])
  {
    seq(|s|, i requires 0 <= i < |s| => Ch(s[i]))
  }

  function Names(ts: seq<Token>): set<string> {
    set t | t in ts && t.Mark? :: t.digits
  }

  /** A credential goes, but markers of arguments in it stay. */
  function Credential(arguments: set<string>, ts: seq<Token>): seq<Token> {
    var marks := ArgumentMarks(arguments, ts);
    if marks == [] then Chars(REDACTED) else marks
  }

  predicate NotSpace(c: char) {
    !IsSpace(c)
  }

  /** The substitution as the program makes it, on the string. */
  function Substitute(header: string -> nat, arguments: set<string>, s: string): Rewritten<string>
    decreases |s|
  {
    if s == "" then Rewritten("", {}, {})
    else
      var h := header(s);
      if 0 < h <= |s| then
        var tail := s[h..];
        var e := Skip(NotSpace, tail, 0);
        var credential := Tokens(tail[..e]);
        var rest := Substitute(header, arguments, tail[e..]);
        Rewritten(s[..h] + (Encode(Credential(arguments, credential)) + rest.result),
                  Names(ArgumentMarks(arguments, credential)) + rest.bearers, Names(credential) + rest.seen)
      else
        var rest := Substitute(header, arguments, s[1..]);
        Rewritten([s[0]] + rest.result, rest.bearers, rest.seen)
  }

  // ------------------------------------------------ the substitution on tokens

  predicate IsGap(t: Token) {
    t.Ch? && IsSpace(t.c)
  }

  /** The number of tokens before the first white space. */
  function Run(ts: seq<Token>): (n: nat)
    ensures n <= |ts|
    ensures forall i :: 0 <= i < n ==> !IsGap(ts[i])
    ensures n < |ts| ==> IsGap(ts[n])
  {
    if ts == [] || IsGap(ts[0]) then 0 else 1 + Run(ts[1..])
  }

  function SubstituteTokens(header: string -> nat, arguments: set<string>, ts: seq<Token>): Rewritten<seq<Token>>
    decreases |ts|
  {
    if ts == [] then Rewritten([], {}, {})
    else
      var h := header(Encode(ts));
      if 0 < h <= |ts| then
        var tail := ts[h..];
        var e := Run(tail);
        var rest := SubstituteTokens(header, arguments, tail[e..]);
        Rewritten(ts[..h] + (Credential(arguments, tail[..e]) + rest.result),
                  Names(ArgumentMarks(arguments, tail[..e])) + rest.bearers, Names(tail[..e]) + rest.seen)
      else
        var rest := SubstituteTokens(header, arguments, ts[1..]);
        Rewritten([ts[0]] + rest.result, rest.bearers, rest.seen)
  }

  lemma FirstChar(ts: seq<Token>)
    requires ts != [] && Encode(ts) != "" && Encode(ts)[0] != NUL
    ensures ts[0] == Ch(Encode(ts)[0]) && Encode(ts)[1..] == Encode(ts[1..])
  {
    assert Encode(ts)[0] == Encoding(ts[0])[0];
  }

  lemma {:induction false} EncodeChars(s: string)
    ensures Encode(Chars(s)) == s
  {
    if s != "" {
      assert Chars(s)[1..] == Chars(s[1..]);
      EncodeChars(s[1..]);
    }
  }

  lemma SomeToken(ts: seq<Token>)
    requires |Encode(ts)| > 0
    ensures ts != []
  {
  }

  /** The first `n` characters of the text come from character tokens. */
  predicate Leads(ts: seq<Token>, s: string, n: nat) {
    n <= |ts| && n <= |s| && ts[..n] == Chars(s[..n]) && Encode(ts[n..]) == s[n..]
  }

  lemma LeadsOneMore(ts: seq<Token>, s: string, n: nat)
    requires Leads(ts, s, n) && n < |s| && s[n] != NUL
    ensures Leads(ts, s, n + 1)
  {
    var us, rest := ts[n..], s[n..];
    SomeToken(us);
    FirstChar(us);
    assert us[1..] == ts[n + 1..] && rest[1..] == s[n + 1..];
    assert ts[..n + 1] == ts[..n] + [ts[n]];
  }

  /** Text without NUL consists of character tokens. */
  lemma LeadingChars(ts: seq<Token>, n: nat)
    requires n <= |Encode(ts)| && forall k :: 0 <= k < n ==> Encode(ts)[k] != NUL
    ensures n <= |ts| && Encode(ts[n..]) == Encode(ts)[n..] && Encode(ts[..n]) == Encode(ts)[..n]
    ensures ts[..n] == Chars(Encode(ts)[..n])
  {
    var s := Encode(ts);
    assert ts[0..] == ts && s[0..] == s;
    for i := 0 to n
      invariant Leads(ts, s, i)
    {
      LeadsOneMore(ts, s, i);
    }
    EncodeChars(s[..n]);
  }

  lemma {:induction false} RunHasNoSpace(ts: seq<Token>)
    requires forall i :: 0 <= i < |ts| ==> MarkOk(ts[i]) && !IsGap(ts[i])
    ensures forall k :: 0 <= k < |Encode(ts)| ==> NotSpace(Encode(ts)[k])
  {
    if ts != [] {
      RunHasNoSpace(ts[1..]);
    }
  }

  lemma RunOfEncoded(ts: seq<Token>)
    requires Safe(ts)
    ensures Skip(NotSpace, Encode(ts), 0) == |Encode(ts[..Run(ts)])|
    ensures var e := |Encode(ts[..Run(ts)])|;
            e <= |Encode(ts)| && Encode(ts)[..e] == Encode(ts[..Run(ts)]) && Encode(ts)[e..] == Encode(ts[Run(ts)..])
  {
    var r := Run(ts);
    SafeParts(ts, r);
    SafeMarks(ts[..r]);
    EncodeJoin(ts[..r], ts[r..]);
    RunHasNoSpace(ts[..r]);
    if r < |ts| {
      assert Encode(ts[r..])[0] == ts[r].c;
    }
    SkipEndsAt(NotSpace, Encode(ts), 0, |Encode(ts[..r])|);
  }

  /** A header consists of character tokens. */
  lemma HeaderIsAligned(header: string -> nat, ts: seq<Token>)
    requires IsHeader(header) && Safe(ts) && header(Encode(ts)) > 0
    ensures var s, h := Encode(ts), header(Encode(ts));
            h <= |ts| && h <= |s| && Encode(ts[..h]) == s[..h] && Encode(ts[h..]) == s[h..] && Safe(ts[h..])
            && forall i :: 0 <= i < h ==> ts[i] == Ch(s[i])
  {
    var s, h := Encode(ts), header(Encode(ts));
    assert HeaderLies(s, h);
    LeadingChars(ts, h);
    assert forall i :: 0 <= i < h ==> ts[i] == ts[..h][i] && s[i] == s[..h][i];
    SafeParts(ts, h);
  }

  lemma CharPassesThrough(header: string -> nat, arguments: set<string>, c: char, rest: string)
    requires IsHeader(header) && (c == NUL || IsDigit(c))
    ensures var r := Substitute(header, arguments, rest);
            Substitute(header, arguments, [c] + rest) == Rewritten([c] + r.result, r.bearers, r.seen)
  {
    var s := [c] + rest;
    assert header(s) > 0 ==> HeaderLies(s, header(s));
    assert s[1..] == rest;
  }

  lemma {:induction false} MarkerPassesThrough(
    header: string -> nat, arguments: set<string>, p: string, rest: string)
    requires IsHeader(header) && forall k :: 0 <= k < |p| ==> p[k] == NUL || IsDigit(p[k])
    ensures var r := Substitute(header, arguments, rest);
            Substitute(header, arguments, p + rest) == Rewritten(p + r.result, r.bearers, r.seen)
  {
    var r := Substitute(header, arguments, rest);
    if p == "" {
      assert p + rest == rest && p + r.result == r.result;
    } else {
      var c, q := p[0], p[1..];
      MarkerPassesThrough(header, arguments, q, rest);
      CharPassesThrough(header, arguments, c, q + rest);
      assert p == [c] + q;
      Associative([c], q, rest);
      Associative([c], q, r.result);
    }
  }

  lemma {:induction false} SubstitutionRefines(header: string -> nat, arguments: set<string>, ts: seq<Token>)
    requires IsHeader(header) && Safe(ts)
    ensures var r := SubstituteTokens(header, arguments, ts);
            Substitute(header, arguments, Encode(ts)) == Rewritten(Encode(r.result), r.bearers, r.seen)
    decreases |ts|, 1
  {
    if ts != [] {
      var h := header(Encode(ts));
      if h > 0 {
        HeaderIsAligned(header, ts);
        RefinesAtHeader(header, arguments, ts);
      } else {
        SubstitutionRefines(header, arguments, ts[1..]);
        RefinesAtFirst(header, arguments, ts);
      }
    }
  }

  /** A token at which no header begins. */
  lemma RefinesAtFirst(header: string -> nat, arguments: set<string>, ts: seq<Token>)
    requires IsHeader(header) && Safe(ts) && ts != [] && header(Encode(ts)) == 0
    requires var rest := SubstituteTokens(header, arguments, ts[1..]);
             Substitute(header, arguments, Encode(ts[1..])) == Rewritten(Encode(rest.result), rest.bearers, rest.seen)
    ensures var r := SubstituteTokens(header, arguments, ts);
            Substitute(header, arguments, Encode(ts)) == Rewritten(Encode(r.result), r.bearers, r.seen)
  {
    var rest := SubstituteTokens(header, arguments, ts[1..]);
    EncodeFirst(ts[0], rest.result);
    if ts[0].Mark? {
      MarkerPassesThrough(header, arguments, Encoding(ts[0]), Encode(ts[1..]));
    } else {
      assert Encode(ts)[1..] == Encode(ts[1..]);
    }
  }

  lemma RefinesAtHeader(header: string -> nat, arguments: set<string>, ts: seq<Token>)
    requires IsHeader(header) && Safe(ts) && 0 < header(Encode(ts)) <= |ts|
    ensures var r := SubstituteTokens(header, arguments, ts);
            Substitute(header, arguments, Encode(ts)) == Rewritten(Encode(r.result), r.bearers, r.seen)
    decreases |ts|, 0
  {
    var h := header(Encode(ts));
    HeaderIsAligned(header, ts);
    var tail := ts[h..];
    RunOfEncoded(tail);
    var e := Run(tail);
    SafeParts(tail, e);
    SafeIsFound(tail[..e]);
    SubstitutionRefines(header, arguments, tail[e..]);
    var rest := SubstituteTokens(header, arguments, tail[e..]);
    var credential := Credential(arguments, tail[..e]);
    EncodeJoin(credential, rest.result);
    EncodeJoin(ts[..h], credential + rest.result);
  }

  // ---------------------------------------------------- what the markers keep

  /** No percent sign outside the markers, and only markers out of `names`. */
  predicate Quiet(names: set<string>, ts: seq<Token>) {
    forall i :: 0 <= i < |ts| ==> if ts[i].Ch? then ts[i].c != '%' else ts[i].digits in names
  }

  lemma MarksOfFirst(arguments: set<string>, t: Token, ts: seq<Token>)
    ensures ArgumentMarks(arguments, [t] + ts) ==
            (if IsArgument(arguments, t) then [t] else []) + ArgumentMarks(arguments, ts)
  {
    TailOfFirst(t, ts);
  }

  lemma {:induction false} ArgumentMarksJoin(arguments: set<string>, ts: seq<Token>, us: seq<Token>)
    ensures ArgumentMarks(arguments, ts + us) == ArgumentMarks(arguments, ts) + ArgumentMarks(arguments, us)
  {
    if ts == [] {
      assert ts + us == us;
    } else {
      var t, rest := ts[0], ts[1..];
      HeadAndTail(ts);
      Associative([t], rest, us);
      MarksOfFirst(arguments, t, rest);
      MarksOfFirst(arguments, t, rest + us);
      ArgumentMarksJoin(arguments, rest, us);
      Associative(if IsArgument(arguments, t) then [t] else [],
                  ArgumentMarks(arguments, rest), ArgumentMarks(arguments, us));
    }
  }

  lemma {:induction false} CharsHoldNoMark(arguments: set<string>, ts: seq<Token>)
    requires forall i :: 0 <= i < |ts| ==> ts[i].Ch?
    ensures ArgumentMarks(arguments, ts) == []
  {
    if ts != [] {
      CharsHoldNoMark(arguments, ts[1..]);
    }
  }

  lemma {:induction false} ArgumentMarksAreMarks(arguments: set<string>, ts: seq<Token>)
    ensures forall t :: t in ArgumentMarks(arguments, ts) ==> t in ts && IsArgument(arguments, t)
  {
    if ts != [] {
      ArgumentMarksAreMarks(arguments, ts[1..]);
    }
  }

  lemma {:induction false} OnlyArguments(arguments: set<string>, ts: seq<Token>)
    requires forall t :: t in ts ==> IsArgument(arguments, t)
    ensures ArgumentMarks(arguments, ts) == ts
  {
    if ts != [] {
      OnlyArguments(arguments, ts[1..]);
      assert ts == [ts[0]] + ts[1..];
    }
  }

  /** `now` has the argument markers of `ts`, in order, no new marker, and nothing that looks like one. */
  predicate Keeps(arguments: set<string>, names: set<string>, ts: seq<Token>, now: seq<Token>) {
    ArgumentMarks(arguments, now) == ArgumentMarks(arguments, ts) && Safe(now) && Quiet(names, now)
  }

  lemma KeepsJoin(
    arguments: set<string>, names: set<string>,
    ts: seq<Token>, now: seq<Token>, us: seq<Token>, later: seq<Token>)
    requires Keeps(arguments, names, ts, now) && Keeps(arguments, names, us, later)
    requires Safe(now + later)
    ensures Keeps(arguments, names, ts + us, now + later)
  {
    ArgumentMarksJoin(arguments, ts, us);
    ArgumentMarksJoin(arguments, now, later);
  }

  lemma QuietSplit(names: set<string>, ts: seq<Token>, i: nat)
    requires Safe(ts) && Quiet(names, ts) && i <= |ts|
    ensures Safe(ts[..i]) && Quiet(names, ts[..i]) && Safe(ts[i..]) && Quiet(names, ts[i..])
    ensures ts == ts[..i] + ts[i..]
  {
    SafeParts(ts, i);
  }

  lemma {:induction false} OnlyMarksAreSafe(ts: seq<Token>)
    requires forall i :: 0 <= i < |ts| ==> ts[i].Mark? && MarkOk(ts[i])
    ensures Safe(ts)
  {
    if ts != [] {
      OnlyMarksAreSafe(ts[1..]);
    }
  }

  lemma MarksAreKept(arguments: set<string>, names: set<string>, ts: seq<Token>)
    requires Safe(ts) && Quiet(names, ts)
    ensures Keeps(arguments, names, ts, ArgumentMarks(arguments, ts))
  {
    var marks := ArgumentMarks(arguments, ts);
    ArgumentMarksAreMarks(arguments, ts);
    OnlyArguments(arguments, marks);
    SafeMarks(ts);
    assert forall i :: 0 <= i < |marks| ==> marks[i] in ts;
    OnlyMarksAreSafe(marks);
  }

  lemma CredentialKeepsMarks(arguments: set<string>, names: set<string>, ts: seq<Token>)
    requires Safe(ts) && Quiet(names, ts)
    ensures var c := Credential(arguments, ts);
            Keeps(arguments, names, ts, c) && c != [] && Solid(c[|c| - 1])
  {
    if ArgumentMarks(arguments, ts) == [] {
      assert REDACTED[|REDACTED| - 1] == ']' && NUL !in REDACTED && '%' !in REDACTED;
      NoNulIsSafe(REDACTED, false);
      SafeChars(REDACTED, []);
      assert Chars(REDACTED) + [] == Chars(REDACTED);
      CharsHoldNoMark(arguments, Chars(REDACTED));
    } else {
      MarksAreKept(arguments, names, ts);
      var marks := ArgumentMarks(arguments, ts);
      ArgumentMarksAreMarks(arguments, ts);
      assert marks[|marks| - 1] in marks;
    }
  }

  /** What the substitution leaves of the beginning: the first token, and nothing new that looks like
  the rest of a marker. */
  predicate SameBeginning(ts: seq<Token>, now: seq<Token>) {
    && (now != [] ==> ts != [] && now[0] == ts[0])
    && (Starts(now) ==> Starts(ts))
  }

  /** The substitution keeps the markers of arguments, in order, and makes no new ones. */
  lemma {:induction false} SubstitutionKeepsMarks(
    header: string -> nat, arguments: set<string>, names: set<string>, ts: seq<Token>)
    requires IsHeader(header) && Safe(ts) && Quiet(names, ts)
    ensures var r := SubstituteTokens(header, arguments, ts).result;
            Keeps(arguments, names, ts, r) && SameBeginning(ts, r)
    decreases |ts|, 1
  {
    if ts != [] {
      if header(Encode(ts)) > 0 {
        HeaderIsAligned(header, ts);
        KeepsMarksAtHeader(header, arguments, names, ts);
      } else {
        QuietSplit(names, ts, 1);
        SubstitutionKeepsMarks(header, arguments, names, ts[1..]);
        KeepsFirst(arguments, names, ts, SubstituteTokens(header, arguments, ts[1..]).result);
      }
    }
  }

  /** A token that stays, and what follows it. */
  lemma KeepsFirst(arguments: set<string>, names: set<string>, ts: seq<Token>, rest: seq<Token>)
    requires ts != [] && Safe(ts) && Quiet(names, ts)
    requires Keeps(arguments, names, ts[1..], rest) && SameBeginning(ts[1..], rest)
    ensures Keeps(arguments, names, ts, [ts[0]] + rest) && SameBeginning(ts, [ts[0]] + rest)
  {
    var now := [ts[0]] + rest;
    assert now[1..] == rest;
    assert Safe(now);
    HeadAndTail(ts);
    MarksOfFirst(arguments, ts[0], rest);
    MarksOfFirst(arguments, ts[0], ts[1..]);
  }

  lemma KeepsMarksAtHeader(header: string -> nat, arguments: set<string>, names: set<string>, ts: seq<Token>)
    requires IsHeader(header) && Safe(ts) && Quiet(names, ts) && 0 < header(Encode(ts)) <= |ts|
    ensures var r := SubstituteTokens(header, arguments, ts).result;
            Keeps(arguments, names, ts, r) && SameBeginning(ts, r)
    decreases |ts|, 0
  {
    var h := header(Encode(ts));
    HeaderIsAligned(header, ts);
    assert HeaderLies(Encode(ts), h);
    var head, tail := ts[..h], ts[h..];
    QuietSplit(names, ts, h);
    assert Solid(head[|head| - 1]);
    var now := TailOf(header, arguments, names, tail);
    SafeJoin(head, now);
    KeepsJoin(arguments, names, head, head, tail, now);
    assert SubstituteTokens(header, arguments, ts).result == head + now;
    assert (head + now)[0] == ts[0] == Ch(Encode(ts)[0]);
  }

  /** A credential and what follows it. */
  lemma TailOf(header: string -> nat, arguments: set<string>, names: set<string>, tail: seq<Token>)
    returns (now: seq<Token>)
    requires IsHeader(header) && Safe(tail) && Quiet(names, tail)
    ensures var e := Run(tail);
            now == Credential(arguments, tail[..e]) + SubstituteTokens(header, arguments, tail[e..]).result
    ensures Keeps(arguments, names, tail, now)
    decreases |tail|, 2
  {
    var e := Run(tail);
    var credential, after := tail[..e], tail[e..];
    QuietSplit(names, tail, e);
    CredentialKeepsMarks(arguments, names, credential);
    SubstitutionKeepsMarks(header, arguments, names, after);
    var c, rest := Credential(arguments, credential), SubstituteTokens(header, arguments, after).result;
    SafeJoin(c, rest);
    KeepsJoin(arguments, names, credential, c, after, rest);
    now := c + rest;
  }

  /** Only arguments are reported as credentials. */
  lemma {:induction false} BearersAreArguments(header: string -> nat, arguments: set<string>, ts: seq<Token>)
    ensures SubstituteTokens(header, arguments, ts).bearers <= arguments
    decreases |ts|
  {
    if ts != [] {
      var h := header(Encode(ts));
      if 0 < h <= |ts| {
        var tail := ts[h..];
        BearersAreArguments(header, arguments, tail[Run(tail)..]);
        ArgumentMarksAreMarks(arguments, tail[..Run(tail)]);
      } else {
        BearersAreArguments(header, arguments, ts[1..]);
      }
    }
  }

  lemma NamesOfParts(ts: seq<Token>, i: nat)
    requires i <= |ts|
    ensures Names(ts[..i]) <= Names(ts) && Names(ts[i..]) <= Names(ts)
  {
  }

  /** Only markers that are there are seen. */
  lemma {:induction false} SeenAreMarks(header: string -> nat, arguments: set<string>, ts: seq<Token>)
    ensures SubstituteTokens(header, arguments, ts).seen <= Names(ts)
    decreases |ts|
  {
    if ts != [] {
      var h := header(Encode(ts));
      if 0 < h <= |ts| {
        var tail := ts[h..];
        NamesOfParts(ts, h);
        NamesOfParts(tail, Run(tail));
        SeenAreMarks(header, arguments, tail[Run(tail)..]);
      } else {
        NamesOfParts(ts, 1);
        SeenAreMarks(header, arguments, ts[1..]);
      }
    }
  }

  // ------------------------------------------------------- configured secrets

  /** `s` with every occurrence of `part`, found from left to right, replaced. */
  function Replace(s: string, part: string): string
    requires part != ""
    decreases |s|
  {
    if s == "" then ""
    else if part <= s then REDACTED + Replace(s[|part|..], part)
    else [s[0]] + Replace(s[1..], part)
  }

  /** The secrets one after the other, in the order they were configured. */
  function RedactText(secrets: seq<string>, s: string): string
    requires "" !in secrets
  {
    if secrets == [] then s else RedactText(secrets[1..], Replace(s, secrets[0]))
  }

  /** `Starts` for the text between two markers; `marker` says whether a marker follows. */
  predicate StartsIn(s: string, marker: bool) {
    s != "" && IsDigit(s[0]) && if |s| > 1 then s[1] == NUL || StartsIn(s[1..], marker) else marker
  }

  /** `Safe` for the text between two markers. */
  predicate SafeText(s: string, marker: bool) {
    s == "" || ((s[0] == NUL ==> !StartsIn(s[1..], marker)) && SafeText(s[1..], marker))
  }

  lemma {:induction false} NoNulIsSafe(s: string, marker: bool)
    requires NUL !in s
    ensures SafeText(s, marker)
  {
    if s != "" {
      NoNulIsSafe(s[1..], marker);
    }
  }

  lemma {:induction false} StartsInChars(s: string, ts: seq<Token>)
    requires ts == [] || ts[0].Mark?
    ensures Starts(Chars(s) + ts) <==> StartsIn(s, ts != [])
  {
    if s == "" {
      assert Chars(s) + ts == ts;
    } else {
      assert (Chars(s) + ts)[1..] == Chars(s[1..]) + ts;
      StartsInChars(s[1..], ts);
    }
  }

  lemma {:induction false} SafeChars(s: string, ts: seq<Token>)
    requires ts == [] || ts[0].Mark?
    ensures Safe(Chars(s) + ts) <==> SafeText(s, ts != []) && Safe(ts)
  {
    if s == "" {
      assert Chars(s) + ts == ts;
    } else {
      assert (Chars(s) + ts)[1..] == Chars(s[1..]) + ts;
      StartsInChars(s[1..], ts);
      SafeChars(s[1..], ts);
    }
  }

  /** Replacing a secret makes nothing that looks like a marker, and no percent sign. */
  lemma {:induction false} ReplacedIsSafe(s: string, part: string, marker: bool)
    requires part != "" && SafeText(s, marker) && '%' !in s
    ensures var r := Replace(s, part);
            && SafeText(r, marker) && '%' !in r && (r == "" <==> s == "")
            && (r != "" ==> r[0] == s[0] || r[0] == '[') && (StartsIn(r, marker) ==> StartsIn(s, marker))
    decreases |s|
  {
    if s != "" {
      if part <= s {
        SafeSuffix(s, |part|, marker);
        ReplacedIsSafe(s[|part|..], part, marker);
        SafeAfterRedacted(Replace(s[|part|..], part), marker);
      } else {
        ReplacedIsSafe(s[1..], part, marker);
        var rest := Replace(s[1..], part);
        assert ([s[0]] + rest)[1..] == rest;
      }
    }
  }

  lemma {:induction false} SafeSuffix(s: string, n: nat, marker: bool)
    requires SafeText(s, marker) && n <= |s|
    ensures SafeText(s[n..], marker)
  {
    if n > 0 {
      SafeSuffix(s[1..], n - 1, marker);
      assert s[1..][n - 1..] == s[n..];
    } else {
      assert s[0..] == s;
    }
  }

  lemma {:induction false} SafeAfterText(p: string, s: string, marker: bool)
    requires NUL !in p && SafeText(s, marker)
    ensures SafeText(p + s, marker)
  {
    if p == "" {
      assert p + s == s;
    } else {
      assert (p + s)[1..] == p[1..] + s;
      SafeAfterText(p[1..], s, marker);
    }
  }

  lemma SafeAfterRedacted(s: string, marker: bool)
    requires SafeText(s, marker) && '%' !in s
    ensures SafeText(REDACTED + s, marker) && '%' !in REDACTED + s && !StartsIn(REDACTED + s, marker)
    ensures (REDACTED + s)[0] == '['
  {
    assert REDACTED[0] == '[' && NUL !in REDACTED && '%' !in REDACTED;
    SafeAfterText(REDACTED, s, marker);
  }

  lemma {:induction false} RedactedIsSafe(secrets: seq<string>, s: string, marker: bool)
    requires "" !in secrets && SafeText(s, marker) && '%' !in s
    ensures SafeText(RedactText(secrets, s), marker) && '%' !in RedactText(secrets, s)
  {
    if secrets != [] {
      ReplacedIsSafe(s, secrets[0], marker);
      RedactedIsSafe(secrets[1..], Replace(s, secrets[0]), marker);
    }
  }

  /** The characters before the first marker. */
  function Lead(ts: seq<Token>): (r: string)
    ensures |r| <= |ts|
  {
    if ts == [] || ts[0].Mark? then "" else [ts[0].c] + Lead(ts[1..])
  }

  /** The text between the markers redacted, part by part. */
  function RedactTokens(secrets: seq<string>, ts: seq<Token>): seq<Token>
    requires "" !in secrets
    decreases |ts|
  {
    var tail := ts[|Lead(ts)|..];
    Chars(RedactText(secrets, Lead(ts))) +
    if tail == [] then [] else [tail[0]] + RedactTokens(secrets, tail[1..])
  }

  /** The same on the string. */
  function RedactPreservingMarkers(secrets: seq<string>, s: string): string
    requires "" !in secrets
  {
    Encode(RedactTokens(secrets, Tokens(s)))
  }

  lemma {:induction false} LeadIsLead(ts: seq<Token>)
    ensures var n := |Lead(ts)|;
            && n <= |ts| && (n < |ts| ==> ts[n].Mark?)
            && forall i :: 0 <= i < n ==> ts[i] == Ch(Lead(ts)[i])
  {
    if ts != [] && ts[0].Ch? {
      LeadIsLead(ts[1..]);
    }
  }

  /** The text before the first marker is safe together with what follows. */
  lemma LeadIsSafe(names: set<string>, ts: seq<Token>)
    requires Safe(ts) && Quiet(names, ts)
    ensures var tail := ts[|Lead(ts)|..];
            && ts == Chars(Lead(ts)) + tail && (tail == [] || tail[0].Mark?) && Safe(tail) && Quiet(names, tail)
            && SafeText(Lead(ts), tail != []) && '%' !in Lead(ts)
  {
    var lead := Lead(ts);
    LeadIsLead(ts);
    QuietSplit(names, ts, |lead|);
    assert ts[..|lead|] == Chars(lead);
    SafeChars(lead, ts[|lead|..]);
    forall i | 0 <= i < |lead| ensures lead[i] != '%' {
      assert ts[i] == Ch(lead[i]);
    }
  }

  lemma CharsKeepNothing(arguments: set<string>, names: set<string>, s: string, t: string)
    requires '%' !in t
    ensures ArgumentMarks(arguments, Chars(s)) == ArgumentMarks(arguments, Chars(t)) && Quiet(names, Chars(t))
  {
    CharsHoldNoMark(arguments, Chars(s));
    CharsHoldNoMark(arguments, Chars(t));
  }

  /** The text before the first marker, redacted, and what is made of the rest. */
  lemma LeadKeepsMarks(
    secrets: seq<string>, arguments: set<string>, names: set<string>, ts: seq<Token>, later: seq<Token>)
    requires "" !in secrets && Safe(ts) && Quiet(names, ts)
    requires var tail := ts[|Lead(ts)|..];
             Keeps(arguments, names, tail, later) && (tail == [] <==> later == []) && (later != [] ==> later[0].Mark?)
    ensures Keeps(arguments, names, ts, Chars(RedactText(secrets, Lead(ts))) + later)
  {
    var lead := Lead(ts);
    var redacted, tail := RedactText(secrets, lead), ts[|lead|..];
    LeadIsSafe(names, ts);
    RedactedIsSafe(secrets, lead, tail != []);
    SafeChars(redacted, later);
    CharsKeepNothing(arguments, names, lead, redacted);
    ArgumentMarksJoin(arguments, Chars(lead), tail);
    ArgumentMarksJoin(arguments, Chars(redacted), later);
  }

  /** Redaction between the markers keeps every one of them. */
  lemma {:induction false} RedactionKeepsMarks(
    secrets: seq<string>, arguments: set<string>, names: set<string>, ts: seq<Token>)
    requires "" !in secrets && Safe(ts) && Quiet(names, ts)
    ensures Keeps(arguments, names, ts, RedactTokens(secrets, ts))
    decreases |ts|
  {
    LeadIsLead(ts);
    var tail := ts[|Lead(ts)|..];
    QuietSplit(names, ts, |Lead(ts)|);
    var later: seq<Token> := [];
    if tail != [] {
      QuietSplit(names, tail, 1);
      RedactionKeepsMarks(secrets, arguments, names, tail[1..]);
      later := [tail[0]] + RedactTokens(secrets, tail[1..]);
      KeepsMark(arguments, names, tail, RedactTokens(secrets, tail[1..]));
    }
    LeadKeepsMarks(secrets, arguments, names, ts, later);
  }

  lemma KeepsMark(arguments: set<string>, names: set<string>, ts: seq<Token>, rest: seq<Token>)
    requires ts != [] && ts[0].Mark? && Safe(ts) && Quiet(names, ts) && Keeps(arguments, names, ts[1..], rest)
    ensures Keeps(arguments, names, ts, [ts[0]] + rest)
  {
    assert ([ts[0]] + rest)[1..] == rest;
    HeadAndTail(ts);
    MarksOfFirst(arguments, ts[0], rest);
    MarksOfFirst(arguments, ts[0], ts[1..]);
  }
}
