/**
  The secret filter for log records with positional arguments
  (logging_setup.py): it redacts the template and the arguments but leaves the
  formatting to later, so what it leaves must still format.
 */
module LogFilter {
  import opened PythonText
  import opened Printf
  import opened LogMarkers
  import opened LogSecrecy
  import opened Occurrences
  import opened Wrappers

  /** A conversion that formatting will act on: which piece it is, and the argument it takes. */
  datatype Active = Active(piece: nat, conversion: char, argument: Option<nat>)

  /** `exhausted`: an argument was missing, so no later conversion is active. */
  datatype Selection = Selection(active: seq<Active>, consumed: nat, exhausted: bool)

  function Selecting(sel: Selection, i: nat, p: Piece, count: nat): Selection {
    if p.Lit? then sel
    else if p.spec.conversion == '%' then sel.(active := sel.active + [Active(i, '%', None)])
    else if sel.exhausted then sel
    else if p.spec.keyed || sel.consumed + p.spec.stars >= count then sel.(exhausted := true)
    else
      Selection(sel.active + [Active(i, p.spec.conversion, Some(sel.consumed + p.spec.stars))],
                sel.consumed + p.spec.stars + 1, false)
  }

  /** The active conversions among the first `n` pieces. */
  function Selected(ps: seq<Piece>, n: nat, count: nat): Selection
    requires n <= |ps|
  {
    if n == 0 then Selection([], 0, false) else Selecting(Selected(ps, n - 1, count), n - 1, ps[n - 1], count)
  }

  function Select(ps: seq<Piece>, count: nat): Selection {
    if count == 0 then Selection([], 0, false) else Selected(ps, |ps|, count)
  }

  method ActiveConversions(ps: seq<Piece>, count: nat) returns (active: seq<Active>, consumed: nat)
    ensures active == Select(ps, count).active && consumed == Select(ps, count).consumed
  {
    active, consumed := [], 0;
    if count == 0 {
      return;
    }
    var exhausted := false;
    for i := 0 to |ps|
      invariant Selection(active, consumed, exhausted) == Selected(ps, i, count)
    {
      if ps[i].Lit? {
        continue;
      }
      var spec := ps[i].spec;
      if spec.conversion == '%' {
        active := active + [Active(i, '%', None)];
        continue;
      }
      if exhausted {
        continue;
      }
      if spec.keyed {
        exhausted := true;
        continue;
      }
      if consumed + spec.stars >= count {
        exhausted := true;
        continue;
      }
      active := active + [Active(i, spec.conversion, Some(consumed + spec.stars))];
      consumed := consumed + spec.stars + 1;
    }
  }

  // ------------------------------------------------- what the selection covers

  /** A literal percent sign that takes its width or precision from an argument. */
  predicate IsStarredPercent(p: Piece) {
    p.Conv? && p.spec.conversion == '%' && p.spec.stars > 0
  }

  predicate NoStarredPercent(ps: seq<Piece>) {
    forall p :: p in ps ==> !IsStarredPercent(p)
  }

  lemma OneMoreUse(ps: seq<Piece>, n: nat)
    requires n < |ps|
    ensures Uses(ps[..n + 1]) == Uses(ps[..n]) + PieceUses(ps[n])
  {
    assert ps[..n + 1][..n] == ps[..n];
  }

  lemma {:induction false} UsesGrow(ps: seq<Piece>, n: nat)
    requires n <= |ps|
    ensures |Uses(ps[..n])| <= |Uses(ps)|
    decreases |ps| - n
  {
    if n < |ps| {
      OneMoreUse(ps, n);
      UsesGrow(ps, n + 1);
    } else {
      assert ps[..n] == ps;
    }
  }

  function ConversionsOf(active: seq<Active>, argument: nat): set<char> {
    set a | a in active && a.argument == Some(argument) :: a.conversion
  }

  function Formatting(use: Use): set<char> {
    if use.Star? then {} else {use.conversion}
  }

  /** The conversions recorded for each argument are those of its use. */
  ghost predicate Covers(active: seq<Active>, uses: seq<Use>) {
    && (forall j :: 0 <= j < |uses| ==> ConversionsOf(active, j) == Formatting(uses[j]))
    && (forall j :: j >= |uses| ==> ConversionsOf(active, j) == {})
  }

  lemma OneMoreActive(active: seq<Active>, a: Active, j: nat)
    ensures ConversionsOf(active + [a], j) ==
            ConversionsOf(active, j) + if a.argument == Some(j) then {a.conversion} else {}
  {}

  lemma CoversStars(active: seq<Active>, uses: seq<Use>, stars: nat)
    requires Covers(active, uses)
    ensures Covers(active, uses + seq(stars, _ => Star))
  {}

  lemma CoversValue(active: seq<Active>, uses: seq<Use>, a: Active)
    requires Covers(active, uses) && a.argument == Some(|uses|)
    ensures Covers(active + [a], uses + [As(a.conversion)])
  {
    forall j: nat ensures ConversionsOf(active + [a], j) ==
                          ConversionsOf(active, j) + if j == |uses| then {a.conversion} else {} {
      OneMoreActive(active, a, j);
    }
  }

  lemma CoversPercent(active: seq<Active>, uses: seq<Use>, a: Active)
    requires Covers(active, uses) && a.argument == None
    ensures Covers(active + [a], uses)
  {
    forall j: nat ensures ConversionsOf(active + [a], j) == ConversionsOf(active, j) {
      OneMoreActive(active, a, j);
    }
  }

  /** Every conversion so far is active, and its argument is the one that formatting gives it. */
  ghost predicate Complete(sel: Selection, uses: seq<Use>) {
    !sel.exhausted && sel.consumed == |uses| && Covers(sel.active, uses)
  }

  lemma CompleteOneMore(sel: Selection, uses: seq<Use>, i: nat, p: Piece, count: nat)
    requires Complete(sel, uses) && (p.Conv? ==> !p.spec.keyed) && !IsStarredPercent(p)
    requires |uses| + |PieceUses(p)| <= count
    ensures Complete(Selecting(sel, i, p, count), uses + PieceUses(p))
  {
    if p.Lit? {
      assert uses + PieceUses(p) == uses;
    } else if p.spec.conversion == '%' {
      assert uses + PieceUses(p) == uses;
      CoversPercent(sel.active, uses, Active(i, '%', None));
    } else {
      var stars := seq(p.spec.stars, _ => Star);
      assert PieceUses(p) == stars + [As(p.spec.conversion)];
      CoversStars(sel.active, uses, p.spec.stars);
      CoversValue(sel.active, uses + stars, Active(i, p.spec.conversion, Some(|uses| + p.spec.stars)));
      assert uses + PieceUses(p) == (uses + stars) + [As(p.spec.conversion)];
    }
  }

  lemma SelectionMore(ps: seq<Piece>, n: nat, count: nat)
    requires n < |ps| && NoKeys(ps) && NoStarredPercent(ps) && |Uses(ps)| == count
    requires Complete(Selected(ps, n, count), Uses(ps[..n]))
    ensures Complete(Selected(ps, n + 1, count), Uses(ps[..n + 1]))
  {
    UsesGrow(ps, n + 1);
    OneMoreUse(ps, n);
    assert ps[n] in ps;
    CompleteOneMore(Selected(ps, n, count), Uses(ps[..n]), n, ps[n], count);
  }

  lemma SelectionIsComplete(ps: seq<Piece>, n: nat, count: nat)
    requires n <= |ps| && NoKeys(ps) && NoStarredPercent(ps) && |Uses(ps)| == count
    ensures Complete(Selected(ps, n, count), Uses(ps[..n]))
  {
    for k := 0 to n
      invariant Complete(Selected(ps, k, count), Uses(ps[..k]))
    {
      SelectionMore(ps, k, count);
    }
  }

  function PercentStars(ps: seq<Piece>): nat {
    if ps == [] then 0
    else PercentStars(ps[..|ps| - 1]) + if IsStarredPercent(ps[|ps| - 1]) then ps[|ps| - 1].spec.stars else 0
  }

  /** What one more piece adds. */
  lemma StarsAreMissed(sel: Selection, i: nat, p: Piece, count: nat)
    ensures Selecting(sel, i, p, count).consumed + (if IsStarredPercent(p) then p.spec.stars else 0)
            <= sel.consumed + |PieceUses(p)|
  {
  }

  lemma OneMorePercent(ps: seq<Piece>, n: nat)
    requires n < |ps|
    ensures PercentStars(ps[..n + 1]) == PercentStars(ps[..n]) + if IsStarredPercent(ps[n]) then ps[n].spec.stars else 0
  {
    assert ps[..n + 1][..n] == ps[..n];
  }

  /** Arguments that a percent sign takes are not counted as consumed. */
  lemma PercentStarsAreMissed(ps: seq<Piece>, n: nat, count: nat)
    requires n <= |ps|
    ensures Selected(ps, n, count).consumed + PercentStars(ps[..n]) <= |Uses(ps[..n])|
  {
    for k := 0 to n
      invariant Selected(ps, k, count).consumed + PercentStars(ps[..k]) <= |Uses(ps[..k])|
    {
      OneMoreUse(ps, k);
      OneMorePercent(ps, k);
      StarsAreMissed(Selected(ps, k, count), k, ps[k], count);
    }
  }

  lemma {:induction false} SomePercentStars(ps: seq<Piece>)
    ensures PercentStars(ps) == 0 <==> NoStarredPercent(ps)
  {
    if ps != [] {
      var front := ps[..|ps| - 1];
      SomePercentStars(front);
      assert ps == front + [ps[|ps| - 1]];
    }
  }

  // --------------------------------------------------------------- the marking

  /** The marked tokens so far, and the number of the next active conversion. */
  datatype Marking = Marking(tokens: seq<Token>, next: nat)

  function MarkOne(m: Marking, i: nat, p: Piece, active: seq<Active>): Marking {
    if IsNext(active, m.next, i)
    then Marking(m.tokens + [Mark(Decimal(m.next))], m.next + 1)
    else m.(tokens := m.tokens + Chars(TextOf(p)))
  }

  function MarkedUpTo(ps: seq<Piece>, active: seq<Active>, n: nat): Marking
    requires n <= |ps|
  {
    if n == 0 then Marking([], 0) else MarkOne(MarkedUpTo(ps, active, n - 1), n - 1, ps[n - 1], active)
  }

  function Marked(ps: seq<Piece>, active: seq<Active>): seq<Token> {
    MarkedUpTo(ps, active, |ps|).tokens
  }

  predicate IsNext(active: seq<Active>, next: nat, i: nat) {
    next < |active| && active[next].piece == i
  }

  /** What the marked template gains for piece `i`. */
  function MarkText(next: nat, i: nat, p: Piece, active: seq<Active>): string {
    if IsNext(active, next, i) then [NUL] + Decimal(next) + [NUL] else TextOf(p)
  }

  lemma EncodeMarkOne(m: Marking, i: nat, p: Piece, active: seq<Active>)
    ensures Encode(MarkOne(m, i, p, active).tokens) == Encode(m.tokens) + MarkText(m.next, i, p, active)
  {
    if IsNext(active, m.next, i) {
      var marker := Mark(Decimal(m.next));
      EncodeJoin(m.tokens, [marker]);
      EncodeFirst(marker, []);
      assert Encoding(marker) + "" == Encoding(marker);
    } else {
      EncodeJoin(m.tokens, Chars(TextOf(p)));
      EncodeChars(TextOf(p));
    }
  }

  /** The marked template so far, as a string. */
  function MarkedString(ps: seq<Piece>, active: seq<Active>, n: nat): string
    requires n <= |ps|
  {
    if n == 0 then ""
    else MarkedString(ps, active, n - 1) + MarkText(NextMark(ps, active, n - 1), n - 1, ps[n - 1], active)
  }

  function NextMark(ps: seq<Piece>, active: seq<Active>, n: nat): nat
    requires n <= |ps|
  {
    if n == 0 then 0
    else
      var next := NextMark(ps, active, n - 1);
      if IsNext(active, next, n - 1) then next + 1 else next
  }

  lemma {:induction false} NextIsNext(ps: seq<Piece>, active: seq<Active>, n: nat)
    requires n <= |ps|
    ensures NextMark(ps, active, n) == MarkedUpTo(ps, active, n).next
  {
    if n > 0 {
      NextIsNext(ps, active, n - 1);
    }
  }

  predicate StringIsTokens(ps: seq<Piece>, active: seq<Active>, n: nat)
    requires n <= |ps|
  {
    MarkedString(ps, active, n) == Encode(MarkedUpTo(ps, active, n).tokens)
  }

  lemma MarkedStringMore(ps: seq<Piece>, active: seq<Active>, n: nat)
    requires n < |ps| && StringIsTokens(ps, active, n)
    ensures StringIsTokens(ps, active, n + 1)
  {
    NextIsNext(ps, active, n);
    EncodeMarkOne(MarkedUpTo(ps, active, n), n, ps[n], active);
  }

  lemma MarkedIsString(ps: seq<Piece>, active: seq<Active>)
    ensures Encode(Marked(ps, active)) == MarkedString(ps, active, |ps|)
  {
    for i := 0 to |ps|
      invariant StringIsTokens(ps, active, i)
    {
      MarkedStringMore(ps, active, i);
    }
  }

  predicate MarkedSoFar(ps: seq<Piece>, active: seq<Active>, i: nat, marked: string, index: nat) {
    i <= |ps| && marked == MarkedString(ps, active, i) && index == NextMark(ps, active, i)
  }

  lemma OnePieceMarked(ps: seq<Piece>, active: seq<Active>, i: nat, marked: string, index: nat)
    requires i < |ps| && MarkedSoFar(ps, active, i, marked, index)
    ensures MarkedSoFar(ps, active, i + 1, marked + MarkText(index, i, ps[i], active),
                        if IsNext(active, index, i) then index + 1 else index)
  {
  }

  method MarkTemplate(ps: seq<Piece>, active: seq<Active>) returns (marked: string)
    ensures marked == Encode(Marked(ps, active))
  {
    MarkedIsString(ps, active);
    marked := MarkPieces(ps, active);
  }

  method MarkPieces(ps: seq<Piece>, active: seq<Active>) returns (marked: string)
    ensures marked == MarkedString(ps, active, |ps|)
  {
    marked := "";
    var index := 0;
    for i := 0 to |ps|
      invariant MarkedSoFar(ps, active, i, marked, index)
    {
      OnePieceMarked(ps, active, i, marked, index);
      marked := marked + MarkText(index, i, ps[i], active);
      index := if IsNext(active, index, i) then index + 1 else index;
    }
  }

  /** The selection grows from left to right. */
  lemma {:induction false} LaterActive(ps: seq<Piece>, n: nat, m: nat, count: nat)
    requires n <= m <= |ps|
    ensures var early, late := Selected(ps, n, count).active, Selected(ps, m, count).active;
            early <= late && forall k :: |early| <= k < |late| ==> n <= late[k].piece < m
  {
    if n < m {
      LaterActive(ps, n, m - 1, count);
    }
  }

  /** The token a piece becomes when every conversion is active. */
  function TokenOf(ps: seq<Piece>, i: nat, count: nat): Token
    requires i < |ps|
  {
    if ps[i].Lit? then Ch(ps[i].c) else Mark(Decimal(|Selected(ps, i, count).active|))
  }

  predicate AllActive(ps: seq<Piece>, count: nat) {
    forall i :: 0 <= i < |ps| && ps[i].Conv? ==>
      |Selected(ps, i + 1, count).active| == |Selected(ps, i, count).active| + 1
  }

  /** The next active conversion is at piece `n` exactly when that piece is a conversion. */
  lemma NextIsHere(ps: seq<Piece>, n: nat, count: nat)
    requires n < |ps| && AllActive(ps, count)
    ensures var next := |Selected(ps, n, count).active|;
            && (IsNext(Selected(ps, |ps|, count).active, next, n) <==> ps[n].Conv?)
            && |Selected(ps, n + 1, count).active| == next + if ps[n].Conv? then 1 else 0
  {
    LaterActive(ps, n, n + 1, count);
    LaterActive(ps, n + 1, |ps|, count);
    var all, before, after :=
      Selected(ps, |ps|, count).active, Selected(ps, n, count).active, Selected(ps, n + 1, count).active;
    if ps[n].Conv? {
      assert all[|before|] == after[|before|];
    } else {
      assert before == after;
    }
  }

  /** The first `n` pieces became one token each. */
  predicate Piecewise(m: Marking, ps: seq<Piece>, n: nat, count: nat)
    requires n <= |ps|
  {
    && m.next == |Selected(ps, n, count).active| && |m.tokens| == n
    && forall i :: 0 <= i < n ==> m.tokens[i] == TokenOf(ps, i, count)
  }

  lemma PiecewiseMore(ps: seq<Piece>, n: nat, count: nat)
    requires n < |ps| && AllActive(ps, count)
    requires Piecewise(MarkedUpTo(ps, Selected(ps, |ps|, count).active, n), ps, n, count)
    ensures Piecewise(MarkedUpTo(ps, Selected(ps, |ps|, count).active, n + 1), ps, n + 1, count)
  {
    NextIsHere(ps, n, count);
  }

  lemma MarkingIsPiecewise(ps: seq<Piece>, count: nat)
    requires AllActive(ps, count)
    ensures Piecewise(MarkedUpTo(ps, Selected(ps, |ps|, count).active, |ps|), ps, |ps|, count)
  {
    for n := 0 to |ps|
      invariant Piecewise(MarkedUpTo(ps, Selected(ps, |ps|, count).active, n), ps, n, count)
    {
      PiecewiseMore(ps, n, count);
    }
  }

  // ------------------------------------------------------------- the restoring

  /** The piece a marker stands for. */
  function RestoredPiece(ps: seq<Piece>, active: seq<Active>, t: Token): Piece {
    if t.Ch? then Lit(t.c)
    else
      var index := if MarkOk(t) then DecimalValue(t.digits) else 0;
      if index < |active| && active[index].piece < |ps| then ps[active[index].piece] else Lit(NUL)
  }

  function Restored(ps: seq<Piece>, active: seq<Active>, ts: seq<Token>): seq<Piece> {
    seq(|ts|, i requires 0 <= i < |ts| => RestoredPiece(ps, active, ts[i]))
  }

  /** The markers of the active conversions that take an argument. */
  function ArgumentNames(active: seq<Active>): set<string> {
    set k | 0 <= k < |active| && active[k].argument.Some? :: Decimal(k)
  }

  function MarkNames(active: seq<Active>): set<string> {
    set k | 0 <= k < |active| :: Decimal(k)
  }

  /** The conversions that take arguments, in order. */
  function ArgumentSpecs(ps: seq<Piece>): seq<Spec> {
    if ps == [] then []
    else
      ArgumentSpecs(ps[..|ps| - 1]) + SpecOf(ps[|ps| - 1])
  }

  function SpecOf(p: Piece): seq<Spec> {
    if p.Conv? && p.spec.conversion != '%' then [p.spec] else []
  }

  /** Every active conversion is one of the template, and takes an argument unless it is a percent sign. */
  predicate ActiveOk(ps: seq<Piece>, active: seq<Active>) {
    forall k :: 0 <= k < |active| ==>
      && active[k].piece < |ps| && ps[active[k].piece].Conv?
      && (active[k].argument.Some? <==> ps[active[k].piece].spec.conversion != '%')
  }

  lemma {:induction false} SelectionIsOk(ps: seq<Piece>, n: nat, count: nat)
    requires n <= |ps|
    ensures ActiveOk(ps, Selected(ps, n, count).active)
  {
    if n > 0 {
      SelectionIsOk(ps, n - 1, count);
    }
  }

  lemma RestoredMark(ps: seq<Piece>, active: seq<Active>, digits: string)
    requires ActiveOk(ps, active) && digits in MarkNames(active)
    ensures var p := RestoredPiece(ps, active, Mark(digits));
            p in ps && p.Conv? && (p.spec.conversion != '%' <==> digits in ArgumentNames(active))
  {
    var k :| 0 <= k < |active| && Decimal(k) == digits;
    DecimalRoundTrip(k);
    if digits in ArgumentNames(active) {
      var j :| 0 <= j < |active| && active[j].argument.Some? && Decimal(j) == digits;
      DecimalRoundTrip(j);
    }
  }

  lemma OneMoreRestored(ps: seq<Piece>, active: seq<Active>, ts: seq<Token>, t: Token)
    ensures ArgumentSpecs(Restored(ps, active, ts + [t])) ==
            ArgumentSpecs(Restored(ps, active, ts)) + SpecOf(RestoredPiece(ps, active, t))
  {
    assert Restored(ps, active, ts + [t])[..|ts|] == Restored(ps, active, ts);
  }

  lemma MarksOfLast(names: set<string>, ts: seq<Token>, t: Token)
    ensures ArgumentMarks(names, ts + [t]) ==
            if IsArgument(names, t) then ArgumentMarks(names, ts) + [t] else ArgumentMarks(names, ts)
  {
    ArgumentMarksJoin(names, ts, [t]);
    assert [t][1..] == [];
    assert ArgumentMarks(names, ts) + [] == ArgumentMarks(names, ts);
  }

  lemma SpecsOfLast(ps: seq<Piece>, active: seq<Active>, t: Token)
    requires ActiveOk(ps, active) && Quiet(MarkNames(active), [t])
    ensures SpecOf(RestoredPiece(ps, active, t)) == [] || IsArgument(ArgumentNames(active), t)
  {
    if t.Mark? {
      assert [t][0] == t;
      RestoredMark(ps, active, t.digits);
    }
  }

  /** The argument conversions that tokens are restored to. */
  function SpecsIn(ps: seq<Piece>, active: seq<Active>, ts: seq<Token>): seq<Spec> {
    if ts == [] then []
    else SpecsIn(ps, active, ts[..|ts| - 1]) + SpecOf(RestoredPiece(ps, active, ts[|ts| - 1]))
  }

  lemma {:induction false} SpecsInRestored(ps: seq<Piece>, active: seq<Active>, ts: seq<Token>)
    ensures ArgumentSpecs(Restored(ps, active, ts)) == SpecsIn(ps, active, ts)
  {
    if ts != [] {
      var front, last := ts[..|ts| - 1], ts[|ts| - 1];
      SpecsInRestored(ps, active, front);
      assert ts == front + [last];
      OneMoreRestored(ps, active, front, last);
    }
  }

  lemma SpecsInMore(ps: seq<Piece>, active: seq<Active>, ts: seq<Token>, t: Token)
    ensures SpecsIn(ps, active, ts + [t]) == SpecsIn(ps, active, ts) + SpecOf(RestoredPiece(ps, active, t))
  {
    assert (ts + [t])[..|ts|] == ts;
  }

  lemma SpecsInLastMark(ps: seq<Piece>, active: seq<Active>, ts: seq<Token>, t: Token)
    requires ActiveOk(ps, active) && Quiet(MarkNames(active), [t])
    ensures SpecsIn(ps, active, ArgumentMarks(ArgumentNames(active), ts + [t])) ==
            SpecsIn(ps, active, ArgumentMarks(ArgumentNames(active), ts)) + SpecOf(RestoredPiece(ps, active, t))
  {
    MarksOfLast(ArgumentNames(active), ts, t);
    if IsArgument(ArgumentNames(active), t) {
      SpecsInMore(ps, active, ArgumentMarks(ArgumentNames(active), ts), t);
    } else {
      SpecsOfLast(ps, active, t);
    }
  }

  predicate SpecsAgree(ps: seq<Piece>, active: seq<Active>, ts: seq<Token>) {
    SpecsIn(ps, active, ts) == SpecsIn(ps, active, ArgumentMarks(ArgumentNames(active), ts))
  }

  lemma SpecsAgreeMore(ps: seq<Piece>, active: seq<Active>, ts: seq<Token>, t: Token)
    requires ActiveOk(ps, active) && Quiet(MarkNames(active), [t]) && SpecsAgree(ps, active, ts)
    ensures SpecsAgree(ps, active, ts + [t])
  {
    SpecsInMore(ps, active, ts, t);
    SpecsInLastMark(ps, active, ts, t);
  }

  lemma SpecsInMarks(ps: seq<Piece>, active: seq<Active>, ts: seq<Token>)
    requires ActiveOk(ps, active) && Quiet(MarkNames(active), ts)
    ensures SpecsAgree(ps, active, ts)
  {
    for i := 0 to |ts|
      invariant SpecsAgree(ps, active, ts[..i])
    {
      SpecsAgreeMore(ps, active, ts[..i], ts[i]);
      assert ts[..i + 1] == ts[..i] + [ts[i]];
    }
    assert ts[..|ts|] == ts;
  }

  /** The argument conversions of a restored template are those of its argument markers. */
  lemma SpecsOfRestored(ps: seq<Piece>, active: seq<Active>, ts: seq<Token>)
    requires ActiveOk(ps, active) && Quiet(MarkNames(active), ts)
    ensures ArgumentSpecs(Restored(ps, active, ts)) ==
            ArgumentSpecs(Restored(ps, active, ArgumentMarks(ArgumentNames(active), ts)))
  {
    SpecsInMarks(ps, active, ts);
    SpecsInRestored(ps, active, ts);
    SpecsInRestored(ps, active, ArgumentMarks(ArgumentNames(active), ts));
  }

  // ------------------------------------------------------------ the template

  function SelectedActive(template: string, count: nat): seq<Active> {
    Select(Scan(template), count).active
  }

  function MarkedText(template: string, count: nat): string {
    Encode(Marked(Scan(template), SelectedActive(template, count)))
  }

  function Substituted(header: string -> nat, template: string, count: nat): Rewritten<string> {
    Substitute(header, ArgumentNames(SelectedActive(template, count)), MarkedText(template, count))
  }

  /** What the restoring finds in the redacted text. */
  function FinalTokens(header: string -> nat, secrets: seq<string>, template: string, count: nat): seq<Token>
    requires "" !in secrets
  {
    Tokens(RedactPreservingMarkers(secrets, Substituted(header, template, count).result))
  }

  /** The literals and conversions that the filter leaves for `count` arguments. */
  function FilteredPieces(header: string -> nat, secrets: seq<string>, template: string, count: nat): seq<Piece>
    requires "" !in secrets
  {
    Restored(Scan(template), SelectedActive(template, count), FinalTokens(header, secrets, template, count))
  }

  /** The template that the filter leaves. */
  function FilteredTemplate(header: string -> nat, secrets: seq<string>, template: string, count: nat): string
    requires "" !in secrets
  {
    Text(FilteredPieces(header, secrets, template, count))
  }

  function NumberOf(digits: string): nat {
    if MarkOk(Mark(digits)) then DecimalValue(digits) else 0
  }

  /** The filter comes across a marker with a number that no active conversion has, and raises an
  IndexError, in a credential or when it restores the conversions. */
  predicate Raises(header: string -> nat, secrets: seq<string>, template: string, count: nat)
    requires "" !in secrets
  {
    exists digits ::
      && digits in Substituted(header, template, count).seen + Names(FinalTokens(header, secrets, template, count))
      && NumberOf(digits) >= |SelectedActive(template, count)|
  }

  /** The markers found in credentials. */
  function Bearers(header: string -> nat, template: string, count: nat): set<string> {
    Substituted(header, template, count).bearers
  }

  /** After a NUL of the template, these pieces would be taken for the rest of a marker: digits, and
  then another NUL or a conversion, whose own marker begins with one. */
  predicate StartsPieces(ps: seq<Piece>) {
    |ps| > 1 && ps[0].Lit? && IsDigit(ps[0].c) && (ps[1].Conv? || ps[1] == Lit(NUL) || StartsPieces(ps[1..]))
  }

  /** No NUL of the template begins what looks like a marker. */
  predicate MarkerFree(ps: seq<Piece>) {
    ps == [] || ((ps[0] == Lit(NUL) ==> !StartsPieces(ps[1..])) && MarkerFree(ps[1..]))
  }

  /** A character for each character and a marker for each conversion. */
  predicate Mirrors(ts: seq<Token>, ps: seq<Piece>) {
    && |ts| == |ps|
    && forall i :: 0 <= i < |ps| ==>
         if ps[i].Lit? then ts[i] == Ch(ps[i].c) else ts[i].Mark? && MarkOk(ts[i])
  }

  /** The marked template is safe exactly if the template is free of markers. */
  lemma {:induction false} MirrorIsSafe(ts: seq<Token>, ps: seq<Piece>)
    requires Mirrors(ts, ps)
    ensures Starts(ts) <==> StartsPieces(ps)
    ensures Safe(ts) <==> MarkerFree(ps)
  {
    if ps != [] {
      assert ps[0].Lit? ==> ts[0] == Ch(ps[0].c);
      assert |ps| > 1 ==> if ps[1].Lit? then ts[1] == Ch(ps[1].c) else ts[1].Mark?;
      MirrorIsSafe(ts[1..], ps[1..]);
    }
  }

  /** The program finds in the marked template exactly the markers it put there, if and only if the
  template is free of markers. */
  lemma MarkersReadBack(ps: seq<Piece>, count: nat)
    requires AllActive(ps, count)
    ensures var marked := Marked(ps, Selected(ps, |ps|, count).active);
            (Tokens(Encode(marked)) == marked <==> MarkerFree(ps)) && (Safe(marked) <==> MarkerFree(ps))
  {
    var marked := Marked(ps, Selected(ps, |ps|, count).active);
    MarkingIsPiecewise(ps, count);
    assert forall i :: 0 <= i < |ps| ==> marked[i] == TokenOf(ps, i, count);
    MirrorIsSafe(marked, ps);
    TokensOfEncoded(marked);
  }

  lemma MarkedIsQuiet(ps: seq<Piece>, count: nat)
    requires Clear(ps) && MarkerFree(ps) && AllActive(ps, count)
    ensures var active := Selected(ps, |ps|, count).active;
            Safe(Marked(ps, active)) && Quiet(MarkNames(active), Marked(ps, active))
            && Restored(ps, active, Marked(ps, active)) == ps
  {
    var active := Selected(ps, |ps|, count).active;
    var ts := Marked(ps, active);
    MarkingIsPiecewise(ps, count);
    forall i | 0 <= i < |ps| ensures RestoredPiece(ps, active, ts[i]) == ps[i]
                                     && (ts[i].Mark? ==> ts[i].digits in MarkNames(active)) {
      MarkIsItsPiece(ps, i, count);
    }
    forall i | 0 <= i < |ts| ensures if ts[i].Ch? then ts[i].c != '%' else ts[i].digits in MarkNames(active) {
      assert ps[i] in ps && IsClear(ps[i]) && RestoredPiece(ps, active, ts[i]) == ps[i];
    }
    MarkersReadBack(ps, count);
  }

  lemma MarkIsItsPiece(ps: seq<Piece>, i: nat, count: nat)
    requires i < |ps| && AllActive(ps, count)
    ensures var active, t := Selected(ps, |ps|, count).active, TokenOf(ps, i, count);
            RestoredPiece(ps, active, t) == ps[i] && (t.Mark? ==> t.digits in MarkNames(active))
  {
    LaterActive(ps, i, i + 1, count);
    LaterActive(ps, i + 1, |ps|, count);
    if ps[i].Conv? {
      var active, k := Selected(ps, |ps|, count).active, |Selected(ps, i, count).active|;
      DecimalRoundTrip(k);
      assert active[k] == Selected(ps, i + 1, count).active[k];
    }
  }

  /** The pieces of the filtered template, when the template is well behaved. */
  function FilteredTokens(header: string -> nat, secrets: seq<string>, ps: seq<Piece>, active: seq<Active>): seq<Token>
    requires "" !in secrets
  {
    RedactTokens(secrets, SubstituteTokens(header, ArgumentNames(active), Marked(ps, active)).result)
  }

  /** The program's work on the marked string comes down to work on the tokens. */
  lemma FilteredIsRestored(header: string -> nat, secrets: seq<string>, template: string, count: nat)
    requires "" !in secrets && IsHeader(header) && count > 0
    requires Clear(Scan(template)) && MarkerFree(Scan(template)) && AllActive(Scan(template), count)
    ensures var ps, active := Scan(template), SelectedActive(template, count);
            var ts := FilteredTokens(header, secrets, ps, active);
            && Quiet(MarkNames(active), ts)
            && FilteredTemplate(header, secrets, template, count) == Text(Restored(ps, active, ts))
            && ArgumentMarks(ArgumentNames(active), ts) == ArgumentMarks(ArgumentNames(active), Marked(ps, active))
    ensures !Raises(header, secrets, template, count)
  {
    var ps, active := Scan(template), SelectedActive(template, count);
    var arguments, names := ArgumentNames(active), MarkNames(active);
    MarkedIsQuiet(ps, count);
    var marked := Marked(ps, active);
    SubstitutionRefines(header, arguments, marked);
    SubstitutionKeepsMarks(header, arguments, names, marked);
    var substituted := SubstituteTokens(header, arguments, marked).result;
    SafeIsFound(substituted);
    RedactionKeepsMarks(secrets, arguments, names, substituted);
    SafeIsFound(RedactTokens(secrets, substituted));
    SeenAreMarks(header, arguments, marked);
    NamedMarks(names, marked);
    NamedMarks(names, RedactTokens(secrets, substituted));
    NamesAreActive(active);
  }

  lemma NamedMarks(names: set<string>, ts: seq<Token>)
    requires Quiet(names, ts)
    ensures Names(ts) <= names
  {
    forall digits | digits in Names(ts) ensures digits in names {
      var i :| 0 <= i < |ts| && ts[i] == Mark(digits);
    }
  }

  lemma NamesAreActive(active: seq<Active>)
    ensures forall digits :: digits in MarkNames(active) ==> NumberOf(digits) < |active|
  {
    forall digits | digits in MarkNames(active) ensures NumberOf(digits) < |active| {
      var k :| 0 <= k < |active| && Decimal(k) == digits;
      DecimalRoundTrip(k);
    }
  }

  lemma CompleteIsActiveAt(ps: seq<Piece>, i: nat, count: nat)
    requires i < |ps| && NoKeys(ps) && NoStarredPercent(ps) && |Uses(ps)| == count && ps[i].Conv?
    ensures |Selected(ps, i + 1, count).active| == |Selected(ps, i, count).active| + 1
  {
    SelectionIsComplete(ps, i, count);
    OneMoreUse(ps, i);
    UsesGrow(ps, i + 1);
    assert ps[i] in ps;
  }

  lemma CompleteIsActive(ps: seq<Piece>, count: nat)
    requires NoKeys(ps) && NoStarredPercent(ps) && |Uses(ps)| == count
    ensures AllActive(ps, count)
  {
    forall i | 0 <= i < |ps| && ps[i].Conv?
      ensures |Selected(ps, i + 1, count).active| == |Selected(ps, i, count).active| + 1
    {
      CompleteIsActiveAt(ps, i, count);
    }
  }

  /** The uses of arguments follow from the conversions that take them. */
  function UsesOfSpecs(specs: seq<Spec>): seq<Use> {
    if specs == [] then [] else UsesOfSpecs(specs[..|specs| - 1]) + UsesOf(specs[|specs| - 1])
  }

  lemma UsesOfMoreSpecs(specs: seq<Spec>, spec: Spec)
    ensures UsesOfSpecs(specs + [spec]) == UsesOfSpecs(specs) + UsesOf(spec)
  {
    assert (specs + [spec])[..|specs|] == specs;
  }

  predicate FromSpecs(ps: seq<Piece>) {
    Uses(ps) == UsesOfSpecs(ArgumentSpecs(ps))
  }

  lemma OneMoreSpec(ps: seq<Piece>, n: nat)
    requires n < |ps|
    ensures ArgumentSpecs(ps[..n + 1]) == ArgumentSpecs(ps[..n]) + SpecOf(ps[n])
  {
    assert ps[..n + 1][..n] == ps[..n];
  }

  lemma SpecStep(specs: seq<Spec>, p: Piece)
    requires !IsStarredPercent(p)
    ensures UsesOfSpecs(specs + SpecOf(p)) == UsesOfSpecs(specs) + PieceUses(p)
  {
    if SpecOf(p) == [] {
      assert specs + [] == specs && UsesOfSpecs(specs) + [] == UsesOfSpecs(specs);
    } else {
      UsesOfMoreSpecs(specs, p.spec);
    }
  }

  lemma FromSpecsMore(ps: seq<Piece>, n: nat)
    requires n < |ps| && !IsStarredPercent(ps[n]) && FromSpecs(ps[..n])
    ensures FromSpecs(ps[..n + 1])
  {
    OneMoreUse(ps, n);
    OneMoreSpec(ps, n);
    SpecStep(ArgumentSpecs(ps[..n]), ps[n]);
  }

  lemma UsesFromSpecs(ps: seq<Piece>)
    requires NoStarredPercent(ps)
    ensures FromSpecs(ps)
  {
    for n := 0 to |ps|
      invariant FromSpecs(ps[..n])
    {
      assert ps[n] in ps;
      FromSpecsMore(ps, n);
    }
    assert ps[..|ps|] == ps;
  }

  lemma RestoredIsClear(ps: seq<Piece>, active: seq<Active>, ts: seq<Token>)
    requires Clear(ps) && NoKeys(ps) && NoStarredPercent(ps)
    requires ActiveOk(ps, active) && Quiet(MarkNames(active), ts)
    ensures var now := Restored(ps, active, ts); Clear(now) && NoKeys(now) && NoStarredPercent(now)
  {
    var now := Restored(ps, active, ts);
    forall p | p in now ensures p in ps || (p.Lit? && p.c != '%') {
      var i :| 0 <= i < |ts| && p == RestoredPiece(ps, active, ts[i]);
      if ts[i].Mark? {
        RestoredMark(ps, active, ts[i].digits);
      }
    }
  }

  /** The filtered template has the argument conversions of the original, in the same order. */
  lemma TemplateKeepsConversions(header: string -> nat, secrets: seq<string>, template: string, args: seq<Value>)
    requires "" !in secrets && IsHeader(header)
    requires args != [] && Formats(template, args) && MarkerFree(Scan(template)) && NoStarredPercent(Scan(template))
    ensures var now := Scan(FilteredTemplate(header, secrets, template, |args|));
            && Clear(now) && NoKeys(now)
            && ArgumentSpecs(now) == ArgumentSpecs(Scan(template)) && Uses(now) == Uses(Scan(template))
    ensures !Raises(header, secrets, template, |args|)
  {
    var ps, active := Scan(template), SelectedActive(template, |args|);
    var ts, marked := FilteredTokens(header, secrets, ps, active), Marked(ps, active);
    CompleteIsActive(ps, |args|);
    SelectionIsOk(ps, |ps|, |args|);
    FilteredIsRestored(header, secrets, template, |args|);
    var now := Restored(ps, active, ts);
    RestoredIsClear(ps, active, ts);
    ScanOfText(now);
    MarkedIsQuiet(ps, |args|);
    SpecsOfRestored(ps, active, ts);
    SpecsOfRestored(ps, active, marked);
    UsesFromSpecs(now);
    UsesFromSpecs(ps);
  }

  // ----------------------------------------------------------- the arguments

  /** Formats as the redaction text under the conversions that take any object. */
  const SAFE_REPRESENTATION := Object({'s', 'r', 'a'})

  predicate Meets(conversions: set<char>, kind: string) {
    exists c :: c in conversions && c in kind
  }

  function SafeSentinel(conversions: set<char>): Value {
    if Meets(conversions, INTEGER_CONVERSIONS) then Int(0)
    else if Meets(conversions, FLOAT_CONVERSIONS) then Float
    else if 'c' in conversions then Str("*")
    else if Meets(conversions, "ra") then SAFE_REPRESENTATION
    else Str(REDACTED)
  }

  function RedactValue(header: string -> nat, secrets: seq<string>, s: string): string
    requires "" !in secrets
  {
    Substitute(header, {}, RedactText(secrets, s)).result
  }

  function RedactArgument(header: string -> nat, secrets: seq<string>, v: Value, conversions: set<char>): Value
    requires "" !in secrets
  {
    if !v.Str? then v
    else
      var redacted := RedactValue(header, secrets, v.s);
      if redacted == v.s then v
      else if 'c' in conversions then SafeSentinel(conversions) else Str(redacted)
  }

  predicate IsBearer(active: seq<Active>, bearers: set<string>, argument: nat) {
    exists k :: 0 <= k < |active| && active[k].argument == Some(argument) && Decimal(k) in bearers
  }

  function FilteredArgument(
    header: string -> nat, secrets: seq<string>, active: seq<Active>, bearers: set<string>, v: Value, j: nat): Value
    requires "" !in secrets
  {
    if IsBearer(active, bearers, j) then SafeSentinel(ConversionsOf(active, j))
    else RedactArgument(header, secrets, v, ConversionsOf(active, j))
  }

  function FilteredUpTo(
    header: string -> nat, secrets: seq<string>, active: seq<Active>, bearers: set<string>, args: seq<Value>, n: nat)
    : seq<Value>
    requires "" !in secrets && n <= |args|
  {
    seq(n, j requires 0 <= j < n => FilteredArgument(header, secrets, active, bearers, args[j], j))
  }

  function FilteredArgs(header: string -> nat, secrets: seq<string>, template: string, args: seq<Value>): seq<Value>
    requires "" !in secrets
  {
    var selection := Select(Scan(template), |args|);
    FilteredUpTo(header, secrets, selection.active, Bearers(header, template, |args|), args,
                 if selection.consumed <= |args| then selection.consumed else |args|)
  }

  /** A sentinel formats under the conversion it was made for. */
  lemma SentinelFormats(c: char)
    requires IsConversion(c) && c != '%'
    ensures Accepts(SafeSentinel({c}), As(c))
  {
    assert c in {c};
    assert Meets({c}, INTEGER_CONVERSIONS) <==> c in INTEGER_CONVERSIONS;
    assert Meets({c}, FLOAT_CONVERSIONS) <==> c in FLOAT_CONVERSIONS;
    assert Meets({c}, "ra") <==> c in "ra";
  }

  lemma BearersConvert(active: seq<Active>, bearers: set<string>, j: nat)
    ensures IsBearer(active, bearers, j) ==> ConversionsOf(active, j) != {}
  {
    if IsBearer(active, bearers, j) {
      var k :| 0 <= k < |active| && active[k].argument == Some(j);
      assert active[k].conversion in ConversionsOf(active, j);
    }
  }

  /** Whatever the filter puts in the place of an argument formats where that argument did. */
  lemma ArgumentStaysCompatible(
    header: string -> nat, secrets: seq<string>, active: seq<Active>, bearers: set<string>, v: Value, j: nat, use: Use)
    requires "" !in secrets && Accepts(v, use) && ConversionsOf(active, j) == Formatting(use)
    requires use.As? ==> IsConversion(use.conversion) && use.conversion != '%'
    ensures Accepts(FilteredArgument(header, secrets, active, bearers, v, j), use)
  {
    if use.As? {
      SentinelFormats(use.conversion);
    } else {
      BearersConvert(active, bearers, j);
    }
  }

  lemma {:induction false} UsesAreConversions(ps: seq<Piece>)
    requires Clear(ps)
    ensures forall j :: 0 <= j < |Uses(ps)| && Uses(ps)[j].As? ==>
              IsConversion(Uses(ps)[j].conversion) && Uses(ps)[j].conversion != '%'
  {
    if ps != [] {
      assert ps[|ps| - 1] in ps && forall p :: p in ps[..|ps| - 1] ==> p in ps;
      UsesAreConversions(ps[..|ps| - 1]);
    }
  }

  /** The record after the filter formats like the record before it. */
  ghost predicate KeepsFormatting(
    header: string -> nat, secrets: seq<string>, template: string, args: seq<Value>)
    requires "" !in secrets
  {
    var now := FilteredTemplate(header, secrets, template, |args|);
    var values := FilteredArgs(header, secrets, template, args);
    && !Raises(header, secrets, template, |args|)
    && Formats(now, values) && |values| == |args|
    && ArgumentSpecs(Scan(now)) == ArgumentSpecs(Scan(template))
  }

  lemma ArgumentsStayCompatible(header: string -> nat, secrets: seq<string>, template: string, args: seq<Value>)
    requires "" !in secrets && args != [] && Formats(template, args) && NoStarredPercent(Scan(template))
    ensures var values, uses := FilteredArgs(header, secrets, template, args), Uses(Scan(template));
            |values| == |args| == |uses| && forall j :: 0 <= j < |args| ==> Accepts(values[j], uses[j])
  {
    var ps := Scan(template);
    var active, bearers := SelectedActive(template, |args|), Bearers(header, template, |args|);
    SelectionIsComplete(ps, |ps|, |args|);
    assert ps[..|ps|] == ps;
    UsesAreConversions(ps);
    forall j | 0 <= j < |args|
      ensures Accepts(FilteredArgument(header, secrets, active, bearers, args[j], j), Uses(ps)[j])
    {
      ArgumentStaysCompatible(header, secrets, active, bearers, args[j], j, Uses(ps)[j]);
    }
  }

  lemma FormattingIsKept(header: string -> nat, secrets: seq<string>, template: string, args: seq<Value>)
    requires "" !in secrets && IsHeader(header)
    requires args != [] && Formats(template, args) && MarkerFree(Scan(template)) && NoStarredPercent(Scan(template))
    ensures KeepsFormatting(header, secrets, template, args)
  {
    TemplateKeepsConversions(header, secrets, template, args);
    ArgumentsStayCompatible(header, secrets, template, args);
  }

  lemma ArgumentIsMissed(header: string -> nat, secrets: seq<string>, template: string, args: seq<Value>)
    requires "" !in secrets && args != [] && Formats(template, args) && !NoStarredPercent(Scan(template))
    ensures |FilteredArgs(header, secrets, template, args)| < |args|
  {
    var ps := Scan(template);
    assert ps[..|ps|] == ps;
    SomePercentStars(ps);
    PercentStarsAreMissed(ps, |ps|, |args|);
  }

  /**
    For a record that formats and whose template holds no marker of its own:
    the filtered record still formats, with the same argument conversions and
    as many arguments, exactly when no percent sign takes an argument.
   */
  lemma FilterKeepsFormatting(fold: char -> char, secrets: seq<string>, template: string, args: seq<Value>)
    requires "" !in secrets && Standard(fold)
    requires args != [] && Formats(template, args) && MarkerFree(Scan(template))
    ensures KeepsFormatting((s: string) => HeaderEnd(fold, s), secrets, template, args)
            <==> NoStarredPercent(Scan(template))
  {
    BearerIsHeader(fold);
    KeptOrMissed((s: string) => HeaderEnd(fold, s), secrets, template, args);
  }

  lemma KeptOrMissed(header: string -> nat, secrets: seq<string>, template: string, args: seq<Value>)
    requires "" !in secrets && IsHeader(header)
    requires args != [] && Formats(template, args) && MarkerFree(Scan(template))
    ensures KeepsFormatting(header, secrets, template, args) <==> NoStarredPercent(Scan(template))
  {
    if NoStarredPercent(Scan(template)) {
      FormattingIsKept(header, secrets, template, args);
    } else {
      ArgumentIsMissed(header, secrets, template, args);
    }
  }

  lemma {:induction false} RedactNothing(secrets: seq<string>)
    requires "" !in secrets
    ensures RedactText(secrets, "") == ""
  {
    if secrets != [] {
      RedactNothing(secrets[1..]);
    }
  }

  /** A marker at the start of a text stays there when the text around the markers is redacted. */
  lemma FirstMarkStays(secrets: seq<string>, digits: string, rest: string)
    requires "" !in secrets && MarkOk(Mark(digits))
    ensures digits in Names(Tokens(RedactPreservingMarkers(secrets, Encoding(Mark(digits)) + rest)))
  {
    var s := Encoding(Mark(digits)) + rest;
    MarkerIsFound(Mark(digits), rest);
    var later := Tokens(rest);
    assert Tokens(s) == [Mark(digits)] + later;
    RedactNothing(secrets);
    assert Lead(Tokens(s)) == "" && Tokens(s)[1..] == later && Tokens(s)[0..] == Tokens(s);
    var redacted := RedactTokens(secrets, later);
    assert Chars("") + ([Mark(digits)] + redacted) == [Mark(digits)] + redacted;
    EncodeFirst(Mark(digits), redacted);
    MarkerIsFound(Mark(digits), Encode(redacted));
    assert Mark(digits) in Tokens(Encoding(Mark(digits)) + Encode(redacted));
  }

  /** A NUL and a digit directly before a conversion: the program takes them for a marker of its own
  and raises, although the record formats. */
  lemma MisreadMarker(header: string -> nat, secrets: seq<string>, template: string, number: Spec)
    requires "" !in secrets && IsHeader(header)
    requires Scan(template) == [Lit(NUL), Lit('5'), Conv(number)]
    requires !number.keyed && number.stars == 0 && number.conversion == 'd'
    ensures Raises(header, secrets, template, 1) && !MarkerFree(Scan(template))
  {
    var ps, active := Scan(template), SelectedActive(template, 1);
    MisreadActive(ps);
    MisreadText(ps, active);
    var text := [NUL] + "5" + [NUL] + "0" + [NUL];
    MarkerPassesThrough(header, ArgumentNames(active), text, "");
    assert text + "" == text;
    assert text + Substitute(header, ArgumentNames(active), "").result == text;
    assert text == Encoding(Mark("5")) + ("0" + [NUL]);
    FirstMarkStays(secrets, "5", "0" + [NUL]);
    FiveIsFive();
    assert "5" in Names(FinalTokens(header, secrets, template, 1));
  }

  lemma FiveIsFive()
    ensures NumberOf("5") == 5
  {
    assert "5"[..0] == "" && DigitValue('5') == 5;
    assert DecimalValue("5") == 10 * DecimalValue("5"[..0]) + DigitValue("5"[0]);
  }

  lemma MisreadActive(ps: seq<Piece>)
    requires |ps| == 3 && ps[0] == Lit(NUL) && ps[1] == Lit('5') && ps[2].Conv?
    requires !ps[2].spec.keyed && ps[2].spec.stars == 0 && ps[2].spec.conversion == 'd'
    ensures Select(ps, 1).active == [Active(2, 'd', Some(0))] && !MarkerFree(ps)
  {
    assert Selected(ps, 1, 1) == Selection([], 0, false);
    assert Selected(ps, 2, 1) == Selection([], 0, false);
    assert ps[1..][1] == ps[2];
  }

  lemma MisreadText(ps: seq<Piece>, active: seq<Active>)
    requires |ps| == 3 && ps[0] == Lit(NUL) && ps[1] == Lit('5') && ps[2].Conv?
    requires active == [Active(2, 'd', Some(0))]
    ensures Encode(Marked(ps, active)) == [NUL] + "5" + [NUL] + "0" + [NUL]
  {
    MarkedIsString(ps, active);
    assert NextMark(ps, active, 1) == 0 && NextMark(ps, active, 2) == 0;
    assert MarkedString(ps, active, 1) == [NUL];
    assert MarkedString(ps, active, 2) == [NUL] + "5";
    assert Decimal(0) == "0";
  }

  /** Such a template. */
  lemma MisreadExample(template: string)
    requires template == [NUL] + "5%d"
    ensures Scan(template) == [Lit(NUL), Lit('5'), Conv(Spec("%d", false, 0, 'd'))]
  {
    var rest := template[1..];
    assert rest == "5%d" && rest[1..] == "%d";
    MatchNumber("%d");
    assert "%d"[2..] == "";
    assert Scan("%d") == [FirstPiece("%d")];
    assert Scan(rest) == [Lit('5')] + Scan("%d");
  }

  lemma UsesOfPair(ps: seq<Piece>)
    requires |ps| == 2
    ensures Uses(ps) == PieceUses(ps[0]) + PieceUses(ps[1])
  {
    OneMoreUse(ps, 0);
    OneMoreUse(ps, 1);
    assert ps[..2] == ps && Uses(ps[..0]) == [];
  }

  /** A template that formats with two numbers, and that the filter leaves with an argument short. */
  lemma PercentThatTakesAnArgument(
    header: string -> nat, secrets: seq<string>, template: string, percent: Spec, number: Spec, args: seq<Value>)
    requires "" !in secrets && Scan(template) == [Conv(percent), Conv(number)] && Clear(Scan(template))
    requires !percent.keyed && percent.stars == 1 && percent.conversion == '%'
    requires !number.keyed && number.stars == 0 && number.conversion == 'd'
    requires |args| == 2 && args[0].Int? && args[1].Int?
    ensures Formats(template, args) && |FilteredArgs(header, secrets, template, args)| < |args|
  {
    PairFormats(Scan(template), percent, number, args);
    assert Scan(template)[0] in Scan(template);
    ArgumentIsMissed(header, secrets, template, args);
  }

  lemma PairFormats(ps: seq<Piece>, percent: Spec, number: Spec, args: seq<Value>)
    requires ps == [Conv(percent), Conv(number)] && Clear(ps)
    requires !percent.keyed && percent.stars == 1 && percent.conversion == '%'
    requires !number.keyed && number.stars == 0 && number.conversion == 'd'
    requires |args| == 2 && args[0].Int? && args[1].Int?
    ensures FormatsPieces(ps, args)
  {
    PairUses(ps, percent, number);
    assert Uses(ps)[0] == Star && Uses(ps)[1] == As('d');
    assert Accepts(args[0], Star) && Accepts(args[1], As('d'));
  }

  lemma PairUses(ps: seq<Piece>, percent: Spec, number: Spec)
    requires ps == [Conv(percent), Conv(number)]
    requires percent.stars == 1 && percent.conversion == '%'
    requires number.stars == 0 && number.conversion == 'd'
    ensures Uses(ps) == [Star, As('d')]
  {
    UsesOfPair(ps);
    assert UsesOf(percent) == [Star] && UsesOf(number) == [As('d')];
  }

  lemma MatchStarredPercent(s: string)
    requires |s| >= 3 && s[0] == '%' && s[1] == '*' && s[2] == '%'
    ensures Match(s) == Some(Spec("%*%", false, 1, '%'))
  {
    assert s[..3] == "%*%";
    SkipEndsAt(IsFlag, s, 1, 1);
  }

  lemma MatchNumber(s: string)
    requires |s| >= 2 && s[0] == '%' && s[1] == 'd'
    ensures Match(s) == Some(Spec("%d", false, 0, 'd'))
  {
    assert s[..2] == "%d";
    SkipEndsAt(IsFlag, s, 1, 1);
    SkipEndsAt(IsDigit, s, 1, 1);
  }

  /** Such a template. */
  lemma StarredPercentExample(template: string)
    requires template == "%*%%d"
    ensures Scan(template) == [Conv(Spec("%*%", false, 1, '%')), Conv(Spec("%d", false, 0, 'd'))]
    ensures Clear(Scan(template))
  {
    var rest := template[3..];
    MatchStarredPercent(template);
    MatchNumber(rest);
    assert rest[2..] == "";
    assert Scan(rest) == [FirstPiece(rest)];
    ScanIsClear(template);
  }

  // -------------------------------------------------- what the filter hides

  /** The credential after every header is the redaction text. */
  ghost predicate CredentialsRedacted(header: string -> nat, s: string) {
    forall i :: 0 <= i <= |s| ==> CredentialRedacted(header, s[i..])
  }

  predicate CredentialRedacted(header: string -> nat, s: string) {
    0 < header(s) <= |s| ==> s[header(s)..][..Skip(NotSpace, s[header(s)..], 0)] == REDACTED
  }

  /** No argument shows secret `p`; an asterisk stands for a whole argument that is one character. */
  predicate ArgumentsHide(args: seq<Value>, p: string) {
    forall j :: 0 <= j < |args| && args[j].Str? ==> args[j].s == "*" || !Occurs(args[j].s, p)
  }

  ghost predicate ArgumentsRedacted(header: string -> nat, args: seq<Value>) {
    forall j :: 0 <= j < |args| && args[j].Str? ==> CredentialsRedacted(header, args[j].s)
  }

  lemma CoveredIsRedacted(header: string -> nat, s: string)
    requires Covered(header, {}, s)
    ensures CredentialsRedacted(header, s)
  {
    forall i | 0 <= i <= |s| ensures CredentialRedacted(header, s[i..]) {
      assert CoveredHere(header, {}, s[i..]);
    }
  }

  /** What stands for an argument hides it, and begins no header. */
  lemma SentinelHides(header: string -> nat, conversions: set<char>)
    requires IsBearerHeader(header)
    ensures var v := SafeSentinel(conversions); v.Str? ==> v.s == "*" || v.s == REDACTED
    ensures CredentialsRedacted(header, "*") && CredentialsRedacted(header, REDACTED)
  {
    assert forall s: string :: |s| <= 1 && header(s) > 0 ==> HeaderLies(s, header(s));
    forall i | 0 <= i <= |REDACTED| ensures header(REDACTED[i..]) == 0 {
      assert REDACTED[i..] + "" == REDACTED[i..];
    }
  }

  lemma ValueHides(header: string -> nat, secrets: seq<string>, s: string, p: string)
    requires IsBearerHeader(header) && "" !in secrets && p in secrets && Distinct(p, REDACTED)
    ensures !Occurs(RedactValue(header, secrets, s), p)
  {
    RedactedSecretIsGone(secrets, s, p);
    if Occurs(RedactValue(header, secrets, s), p) {
      SubstitutionAddsNothing(header, RedactText(secrets, s), p);
    }
  }

  /** A filtered argument shows no configured secret and no credential. */
  lemma ArgumentIsHidden(
    header: string -> nat, secrets: seq<string>, active: seq<Active>, bearers: set<string>, v: Value, j: nat)
    requires IsBearerHeader(header) && "" !in secrets
    ensures var now := FilteredArgument(header, secrets, active, bearers, v, j);
      now.Str? ==>
        && CredentialsRedacted(header, now.s)
        && forall p :: p in secrets && Distinct(p, REDACTED) ==> now.s == "*" || !Occurs(now.s, p)
  {
    SentinelHides(header, ConversionsOf(active, j));
    if v.Str? {
      SubstitutionCovers(header, {}, RedactText(secrets, v.s));
      CoveredIsRedacted(header, RedactValue(header, secrets, v.s));
      forall p | p in secrets && Distinct(p, REDACTED) ensures !Occurs(RedactValue(header, secrets, v.s), p) {
        ValueHides(header, secrets, v.s, p);
      }
    }
  }

  lemma ArgumentsAreHidden(header: string -> nat, secrets: seq<string>, template: string, args: seq<Value>)
    requires IsBearerHeader(header) && "" !in secrets
    ensures var now := FilteredArgs(header, secrets, template, args);
      ArgumentsRedacted(header, now) && forall p :: p in secrets && Distinct(p, REDACTED) ==> ArgumentsHide(now, p)
  {
    var active, bearers := SelectedActive(template, |args|), Bearers(header, template, |args|);
    var now := FilteredArgs(header, secrets, template, args);
    forall j | 0 <= j < |now| && now[j].Str?
      ensures CredentialsRedacted(header, now[j].s)
      ensures forall p :: p in secrets && Distinct(p, REDACTED) ==> now[j].s == "*" || !Occurs(now[j].s, p)
    {
      ArgumentIsHidden(header, secrets, active, bearers, args[j], j);
    }
  }

  /** The literals of a template spell `p`. */
  predicate SpellsAt(ps: seq<Piece>, p: string, i: nat) {
    i + |p| <= |ps| && forall k :: 0 <= k < |p| ==> ps[i + k] == Lit(p[k])
  }

  function Literals(ps: seq<Piece>): (s: string)
    ensures |s| <= |ps| && forall k :: 0 <= k < |s| ==> ps[k] == Lit(s[k])
    ensures |s| < |ps| ==> ps[|s|].Conv?
  {
    if ps == [] || ps[0].Conv? then "" else [ps[0].c] + Literals(ps[1..])
  }

  /** The end of a header at the beginning of a template, the next conversion being seen by its percent
  sign only. */
  function TemplateHeader(header: string -> nat, ps: seq<Piece>): nat {
    header(Literals(ps) + NextSign(ps))
  }

  function NextSign(ps: seq<Piece>): string {
    if |Literals(ps)| < |ps| then "%" else ""
  }

  predicate IsBlank(p: Piece) {
    p.Lit? && IsSpace(p.c)
  }

  /** The number of pieces before the first white space. */
  function PieceRun(ps: seq<Piece>): (n: nat)
    ensures n <= |ps|
    ensures forall i :: 0 <= i < n ==> !IsBlank(ps[i])
    ensures n < |ps| ==> IsBlank(ps[n])
  {
    if ps == [] || IsBlank(ps[0]) then 0 else 1 + PieceRun(ps[1..])
  }

  /** The redaction text, or nothing but conversions that take an argument. */
  predicate HidesPieces(run: seq<Piece>) {
    || (|run| == |REDACTED| && SpellsAt(run, REDACTED, 0))
    || (run != [] && forall k :: 0 <= k < |run| ==> run[k].Conv? && run[k].spec.conversion != '%')
  }

  predicate TemplateCoveredHere(header: string -> nat, ps: seq<Piece>) {
    var h := TemplateHeader(header, ps);
    0 < h <= |ps| ==> HidesPieces(ps[h..][..PieceRun(ps[h..])])
  }

  /** The pieces show no secret, every conversion in them is one of the template's, and if secrets are
  plain, only the redaction text or conversions of arguments follow a header. */
  ghost predicate TemplateHides(header: string -> nat, secrets: seq<string>, ps: seq<Piece>, now: seq<Piece>) {
    && (forall p: Piece :: p in now && p.Conv? ==> p in ps)
    && (forall p, i: nat :: p in secrets && Distinct(p, REDACTED) ==> !SpellsAt(now, p, i))
    && ((forall p :: p in secrets ==> Plain(p)) ==>
          forall i :: 0 <= i <= |now| ==> TemplateCoveredHere(header, now[i..]))
  }

  /** Tokens and the pieces they are restored to. */
  ghost predicate Restores(arguments: set<string>, ps: seq<Piece>, ts: seq<Token>, now: seq<Piece>) {
    && |now| == |ts|
    && forall i :: 0 <= i < |ts| ==>
         if ts[i].Ch? then now[i] == Lit(ts[i].c)
         else now[i].Conv? && now[i] in ps && (ts[i].digits in arguments ==> now[i].spec.conversion != '%')
  }

  lemma RestoredRestores(ps: seq<Piece>, active: seq<Active>, ts: seq<Token>)
    requires ActiveOk(ps, active) && forall digits :: digits in Names(ts) ==> NumberOf(digits) < |active|
    ensures Restores(ArgumentNames(active), ps, ts, Restored(ps, active, ts))
  {
    var now := Restored(ps, active, ts);
    forall i | 0 <= i < |ts| && ts[i].Mark?
      ensures now[i].Conv? && now[i] in ps
      ensures ts[i].digits in ArgumentNames(active) ==> now[i].spec.conversion != '%'
    {
      assert ts[i].digits in Names(ts);
      var k := NumberOf(ts[i].digits);
      assert now[i] == RestoredPiece(ps, active, ts[i]);
      assert now[i] == ps[active[k].piece];
      if ts[i].digits in ArgumentNames(active) {
        RestoredMark(ps, active, ts[i].digits);
      }
    }
  }

  lemma SpelledOccurs(arguments: set<string>, ps: seq<Piece>, ts: seq<Token>, now: seq<Piece>, p: string, i: nat)
    requires Restores(arguments, ps, ts, now) && SpellsAt(now, p, i)
    ensures Occurs(ts, Chars(p))
  {
    assert forall k :: 0 <= k < |p| ==> now[i + k] == Lit(p[k]) && ts[i + k] == Ch(p[k]);
    assert ts[i..i + |Chars(p)|] == Chars(p);
    assert OccursAt(ts, Chars(p), i);
    OccursSomewhere(ts, Chars(p));
  }

  lemma {:induction false} SameRun(arguments: set<string>, ps: seq<Piece>, ts: seq<Token>, now: seq<Piece>)
    requires Restores(arguments, ps, ts, now)
    ensures PieceRun(now) == Run(ts)
  {
    if ts != [] {
      SameRun(arguments, ps, ts[1..], now[1..]);
    }
  }

  lemma HiddenTokensHide(arguments: set<string>, ps: seq<Piece>, run: seq<Token>, now: seq<Piece>)
    requires Restores(arguments, ps, run, now) && HidesRun(arguments, run)
    ensures HidesPieces(now)
  {
    if run == Chars(REDACTED) {
      assert SpellsAt(now, REDACTED, 0);
    }
  }

  lemma {:induction false} SameLead(arguments: set<string>, ps: seq<Piece>, ts: seq<Token>, now: seq<Piece>)
    requires Restores(arguments, ps, ts, now)
    ensures Literals(now) == Lead(ts)
  {
    if ts != [] && ts[0].Ch? {
      SameLead(arguments, ps, ts[1..], now[1..]);
    }
  }

  /** A header seen among the pieces is one among the tokens. */
  lemma SameTemplateHeader(
    header: string -> nat, arguments: set<string>, ps: seq<Piece>, ts: seq<Token>, now: seq<Piece>)
    requires IsBearerHeader(header) && Restores(arguments, ps, ts, now) && TemplateHeader(header, now) > 0
    ensures header(Encode(ts)) == TemplateHeader(header, now)
  {
    var tail := LeadOfTokens(arguments, ps, ts, now);
    HeaderBefore(header, Literals(now), NextSign(now), tail);
  }

  /** The text of the tokens is the literals, and then a marker for the next conversion. */
  lemma LeadOfTokens(arguments: set<string>, ps: seq<Piece>, ts: seq<Token>, now: seq<Piece>)
    returns (tail: string)
    requires Restores(arguments, ps, ts, now)
    ensures Encode(ts) == Literals(now) + tail
    ensures if NextSign(now) != "" then tail != "" && tail[0] == NUL else tail == ""
  {
    var lead := Lead(ts);
    SameLead(arguments, ps, ts, now);
    LeadIsLead(ts);
    var rest := ts[|lead|..];
    assert ts == Chars(lead) + rest;
    EncodeSplit(ts, Chars(lead), rest);
    EncodeChars(lead);
    if rest != [] { MarkBegins(rest); }
    tail := Encode(rest);
  }

  lemma MarkBegins(ts: seq<Token>)
    requires ts != [] && ts[0].Mark?
    ensures Encode(ts) != "" && Encode(ts)[0] == NUL
  {
  }

  /** What follows a header's text does not matter, if it follows directly and is no white space. */
  lemma HeaderBefore(header: string -> nat, lead: string, a: string, b: string)
    requires IsBearerHeader(header) && header(lead + a) > 0
    requires a == "" || (b != "" && NotSpace(a[0]) && NotSpace(b[0]) && (|a| == 1 || a[0] == NUL))
    requires a == "" ==> b == ""
    ensures header(lead + b) == header(lead + a)
  {
    var s, t := lead + a, lead + b;
    var h := header(s);
    assert HeaderLies(s, h) && Anchored(header, s);
    if a != "" { assert s[|lead|] == a[0] && t[|lead|] == b[0]; }
    assert t[..h] == lead[..h] == s[..h];
    assert SameHeader(s, t, h);
  }

  lemma PiecesAreCovered(
    header: string -> nat, arguments: set<string>, ps: seq<Piece>, ts: seq<Token>, now: seq<Piece>, i: nat)
    requires IsBearerHeader(header) && Restores(arguments, ps, ts, now) && i <= |now|
    requires RunsCovered(header, arguments, ts)
    ensures TemplateCoveredHere(header, now[i..])
  {
    var us, later := ts[i..], now[i..];
    assert Restores(arguments, ps, us, later);
    assert RunCoveredHere(header, arguments, us);
    var h := TemplateHeader(header, later);
    if 0 < h <= |later| {
      SameTemplateHeader(header, arguments, ps, us, later);
      SameRun(arguments, ps, us[h..], later[h..]);
      var n := Run(us[h..]);
      assert Restores(arguments, ps, us[h..][..n], later[h..][..n]);
      HiddenTokensHide(arguments, ps, us[h..][..n], later[h..][..n]);
    }
  }

  /** If the filter does not raise, its template shows no secret and no credential. */
  lemma TemplateIsHidden(header: string -> nat, secrets: seq<string>, template: string, count: nat)
    requires IsBearerHeader(header) && "" !in secrets && !Raises(header, secrets, template, count)
    ensures TemplateHides(header, secrets, Scan(template), FilteredPieces(header, secrets, template, count))
  {
    var ps, active := Scan(template), SelectedActive(template, count);
    var arguments := ArgumentNames(active);
    var substituted := Substituted(header, template, count).result;
    var ts := FinalTokens(header, secrets, template, count);
    var now := FilteredPieces(header, secrets, template, count);
    RedactedIsFound(secrets, substituted);
    SelectedIsOk(ps, count);
    RestoredRestores(ps, active, ts);
    forall p, i: nat | p in secrets && Distinct(p, REDACTED) ensures !SpellsAt(now, p, i) {
      EachSecretIsGone(secrets, Tokens(substituted), p);
      if SpellsAt(now, p, i) { SpelledOccurs(arguments, ps, ts, now, p, i); }
    }
    if forall p :: p in secrets ==> Plain(p) {
      SubstitutionCovers(header, arguments, MarkedText(template, count));
      TokensAreCovered(header, arguments, substituted);
      EachCovers(header, arguments, secrets, Tokens(substituted));
      forall i | 0 <= i <= |now| ensures TemplateCoveredHere(header, now[i..]) {
        PiecesAreCovered(header, arguments, ps, ts, now, i);
      }
    }
  }

  // ------------------------------------------------ what the filter leaves alone

  lemma {:induction false} SubstituteNothing(header: string -> nat, s: string)
    requires CredentialsRedacted(header, s)
    ensures Substitute(header, {}, s).result == s
    decreases |s|
  {
    if s != "" {
      var h := header(s);
      assert s[0..] == s && CredentialRedacted(header, s[0..]);
      if 0 < h <= |s| {
        var e := Skip(NotSpace, s[h..], 0);
        RedactedSuffix(header, s, h + e);
        assert s[h..][e..] == s[h + e..];
        SubstituteNothing(header, s[h..][e..]);
        NothingAtHeader(header, s);
      } else {
        RedactedSuffix(header, s, 1);
        SubstituteNothing(header, s[1..]);
      }
    }
  }

  lemma NothingAtHeader(header: string -> nat, s: string)
    requires 0 < header(s) <= |s| && CredentialRedacted(header, s)
    requires var tail := s[header(s)..]; var after := tail[Skip(NotSpace, tail, 0)..];
             Substitute(header, {}, after).result == after
    ensures Substitute(header, {}, s).result == s
  {
    var h := header(s);
    var tail := s[h..];
    var e := Skip(NotSpace, tail, 0);
    NoArguments(Tokens(tail[..e]));
    EncodeChars(REDACTED);
    CutAt(tail, e);
    CutAt(s, h);
  }

  lemma RedactedSuffix(header: string -> nat, s: string, n: nat)
    requires CredentialsRedacted(header, s) && n <= |s|
    ensures CredentialsRedacted(header, s[n..])
  {
    forall i | 0 <= i <= |s[n..]| ensures CredentialRedacted(header, s[n..][i..]) {
      assert s[n..][i..] == s[n + i..];
      assert CredentialRedacted(header, s[n + i..]);
    }
  }

  /** A text argument is left as it is exactly if it shows no secret and no credential. */
  lemma OnlySecretsChange(header: string -> nat, secrets: seq<string>, s: string)
    requires IsBearerHeader(header) && "" !in secrets && forall p :: p in secrets ==> Distinct(p, REDACTED)
    ensures RedactValue(header, secrets, s) == s <==>
            CredentialsRedacted(header, s) && forall p :: p in secrets ==> !Occurs(s, p)
  {
    if CredentialsRedacted(header, s) && forall p :: p in secrets ==> !Occurs(s, p) {
      NothingRedacted(secrets, s);
      SubstituteNothing(header, s);
    }
    SubstitutionCovers(header, {}, RedactText(secrets, s));
    CoveredIsRedacted(header, RedactValue(header, secrets, s));
    forall p | p in secrets ensures !Occurs(RedactValue(header, secrets, s), p) {
      ValueHides(header, secrets, s, p);
    }
  }

  lemma {:induction false} SubstituteNoTokens(header: string -> nat, arguments: set<string>, ts: seq<Token>)
    requires forall i :: 0 <= i <= |ts| ==> header(Encode(ts[i..])) == 0
    ensures SubstituteTokens(header, arguments, ts).result == ts
  {
    if ts != [] {
      assert ts[0..] == ts;
      forall i | 0 <= i <= |ts[1..]| ensures header(Encode(ts[1..][i..])) == 0 {
        assert ts[1..][i..] == ts[i + 1..];
      }
      SubstituteNoTokens(header, arguments, ts[1..]);
    }
  }

  /** Where no header is among the pieces, none is among the tokens. */
  lemma NoHeaderAmongTokens(
    header: string -> nat, arguments: set<string>, ps: seq<Piece>, ts: seq<Token>, now: seq<Piece>)
    requires IsBearerHeader(header) && Restores(arguments, ps, ts, now) && TemplateHeader(header, now) == 0
    ensures header(Encode(ts)) == 0
  {
    var tail := LeadOfTokens(arguments, ps, ts, now);
    if header(Encode(ts)) > 0 {
      HeaderBefore(header, Literals(now), tail, NextSign(now));
    }
  }

  /** A template that formats, spells no secret and holds no header is left as it is. */
  lemma TemplateIsUnchanged(header: string -> nat, secrets: seq<string>, template: string, args: seq<Value>)
    requires IsBearerHeader(header) && "" !in secrets && args != []
    ensures var ps := Scan(template);
      Formats(template, args) && MarkerFree(ps) && NoStarredPercent(ps) && NothingToHide(header, secrets, ps) ==>
        FilteredTemplate(header, secrets, template, |args|) == template
  {
    var ps := Scan(template);
    if Formats(template, args) && MarkerFree(ps) && NoStarredPercent(ps) && NothingToHide(header, secrets, ps) {
      CompleteIsActive(ps, |args|);
      TokensAreUnchanged(header, secrets, template, |args|);
      MarkedIsQuiet(ps, |args|);
      TextOfScan(template);
    }
  }

  /** The literals spell no secret and hold no header. */
  ghost predicate NothingToHide(header: string -> nat, secrets: seq<string>, ps: seq<Piece>) {
    && (forall p, i: nat :: p in secrets ==> !SpellsAt(ps, p, i))
    && (forall i :: 0 <= i <= |ps| ==> TemplateHeader(header, ps[i..]) == 0)
  }

  lemma TokensAreUnchanged(header: string -> nat, secrets: seq<string>, template: string, count: nat)
    requires IsBearerHeader(header) && "" !in secrets && count > 0
    requires var ps := Scan(template);
             Clear(ps) && MarkerFree(ps) && AllActive(ps, count) && NothingToHide(header, secrets, ps)
    ensures FinalTokens(header, secrets, template, count) == Marked(Scan(template), SelectedActive(template, count))
  {
    var ps, active := Scan(template), SelectedActive(template, count);
    var arguments, marked := ArgumentNames(active), Marked(ps, active);
    MarkedIsQuiet(ps, count);
    MarkedRestores(ps, count);
    NothingSubstituted(header, arguments, ps, marked);
    SafeIsFound(marked);
    NothingSpelled(arguments, secrets, ps, marked);
    RedactedIsFound(secrets, Encode(marked));
    NothingRedactedEach(secrets, marked);
  }

  lemma NothingSubstituted(header: string -> nat, arguments: set<string>, ps: seq<Piece>, ts: seq<Token>)
    requires IsBearerHeader(header) && Restores(arguments, ps, ts, ps) && Safe(ts)
    requires forall i :: 0 <= i <= |ps| ==> TemplateHeader(header, ps[i..]) == 0
    ensures Substitute(header, arguments, Encode(ts)).result == Encode(ts)
  {
    forall i | 0 <= i <= |ts| ensures header(Encode(ts[i..])) == 0 {
      assert Restores(arguments, ps, ts[i..], ps[i..]);
      NoHeaderAmongTokens(header, arguments, ps, ts[i..], ps[i..]);
    }
    SubstituteNoTokens(header, arguments, ts);
    SubstitutionRefines(header, arguments, ts);
  }

  lemma NothingSpelled(arguments: set<string>, secrets: seq<string>, ps: seq<Piece>, ts: seq<Token>)
    requires Restores(arguments, ps, ts, ps) && forall p, i: nat :: p in secrets ==> !SpellsAt(ps, p, i)
    ensures forall p :: p in secrets ==> !Occurs(ts, Chars(p))
  {
    forall p | p in secrets ensures !Occurs(ts, Chars(p)) {
      OccursSomewhere(ts, Chars(p));
      forall i: nat ensures !OccursAt(ts, Chars(p), i) {
        if OccursAt(ts, Chars(p), i) { TokensSpell(arguments, ps, ts, ps, p, i); }
      }
    }
  }

  lemma TokensSpell(arguments: set<string>, ps: seq<Piece>, ts: seq<Token>, now: seq<Piece>, p: string, i: nat)
    requires Restores(arguments, ps, ts, now) && OccursAt(ts, Chars(p), i)
    ensures SpellsAt(now, p, i)
  {
    forall k | 0 <= k < |p| ensures now[i + k] == Lit(p[k]) {
      assert ts[i + k] == ts[i..i + |Chars(p)|][k] == Ch(p[k]);
    }
  }

  /** The marked template has a character for a literal and a marker for a conversion. */
  lemma MarkedRestores(ps: seq<Piece>, count: nat)
    requires Clear(ps) && MarkerFree(ps) && AllActive(ps, count)
    ensures var active := Selected(ps, |ps|, count).active; Restores(ArgumentNames(active), ps, Marked(ps, active), ps)
  {
    var active := Selected(ps, |ps|, count).active;
    var ts := Marked(ps, active);
    MarkedIsQuiet(ps, count);
    NamedMarks(MarkNames(active), ts);
    NamesAreActive(active);
    SelectionIsOk(ps, |ps|, count);
    RestoredRestores(ps, active, ts);
  }

  lemma SelectedIsOk(ps: seq<Piece>, count: nat)
    ensures ActiveOk(ps, Select(ps, count).active)
  {
    SelectionIsOk(ps, |ps|, count);
  }

  // --------------------------------------------------------------- the filter

  /** A log record with a text message and a tuple of arguments. */
  class LogRecord {
    var msg: string
    var args: seq<Value>

    constructor (msg: string, args: seq<Value>)
      ensures this.msg == msg && this.args == args
    {
      this.msg, this.args := msg, args;
    }
  }

  lemma {:induction false} LeadOfPart(part: string, ts: seq<Token>)
    requires ts == [] || ts[0].Mark?
    ensures Lead(Chars(part) + ts) == part
  {
    if part != "" {
      assert (Chars(part) + ts)[1..] == Chars(part[1..]) + ts;
      LeadOfPart(part[1..], ts);
    } else {
      assert Chars(part) + ts == ts;
    }
  }

  lemma RedactedPart(secrets: seq<string>, part: string, ts: seq<Token>)
    requires "" !in secrets && (ts == [] || ts[0].Mark?)
    ensures Encode(RedactTokens(secrets, Chars(part) + ts)) ==
            RedactText(secrets, part) +
            if ts == [] then "" else Encoding(ts[0]) + Encode(RedactTokens(secrets, ts[1..]))
  {
    LeadOfPart(part, ts);
    assert (Chars(part) + ts)[|part|..] == ts;
    var redacted := Chars(RedactText(secrets, part));
    EncodeChars(RedactText(secrets, part));
    if ts == [] {
      assert redacted + [] == redacted;
    } else {
      var rest := RedactTokens(secrets, ts[1..]);
      EncodeJoin(redacted, [ts[0]] + rest);
      EncodeFirst(ts[0], rest);
    }
  }

  /** What is still to be written: `part` is pending, `ts` not yet looked at. */
  function Rest(secrets: seq<string>, part: string, ts: seq<Token>): string
    requires "" !in secrets
  {
    Encode(RedactTokens(secrets, Chars(part) + ts))
  }

  lemma RestOfChar(secrets: seq<string>, part: string, ts: seq<Token>)
    requires "" !in secrets && ts != [] && ts[0].Ch?
    ensures Rest(secrets, part, ts) == Rest(secrets, part + [ts[0].c], ts[1..])
  {
    assert Chars(part) + ts == Chars(part + [ts[0].c]) + ts[1..];
  }

  lemma RestOfMark(secrets: seq<string>, done: string, part: string, ts: seq<Token>)
    requires "" !in secrets && ts != [] && ts[0].Mark?
    ensures done + Rest(secrets, part, ts) ==
            done + RedactText(secrets, part) + Encoding(ts[0]) + Rest(secrets, "", ts[1..])
  {
    RedactedPart(secrets, part, ts);
    assert Chars("") + ts[1..] == ts[1..];
    var redacted, rest := RedactText(secrets, part), Rest(secrets, "", ts[1..]);
    Associative(done, redacted, Encoding(ts[0]) + rest);
    Associative(done + redacted, Encoding(ts[0]), rest);
  }

  lemma RestOfNothing(secrets: seq<string>, part: string, ts: seq<Token>)
    requires "" !in secrets
    ensures Rest(secrets, part, []) == RedactText(secrets, part)
    ensures Rest(secrets, "", ts) == Encode(RedactTokens(secrets, ts))
  {
    RedactedPart(secrets, part, []);
    assert Chars("") + ts == ts;
  }

  class SecretFilter {
    const secrets: seq<string>
    const header: string -> nat

    ghost predicate Valid() {
      "" !in secrets && IsBearerHeader(header)
    }

    /** Empty secrets are dropped. */
    constructor (given: seq<string>, fold: char -> char)
      requires Standard(fold)
      ensures Valid()
      ensures forall secret :: secret in secrets <==> secret in given && secret != ""
      ensures forall s: string :: header(s) == HeaderEnd(fold, s)
    {
      var kept: seq<string> := [];
      for i := 0 to |given|
        invariant forall secret :: secret in kept <==> secret in given[..i] && secret != ""
      {
        if given[i] != "" {
          kept := kept + [given[i]];
        }
      }
      secrets := kept;
      header := (s: string) => HeaderEnd(fold, s);
      BearerIsAnchored(fold);
    }

    method RedactPart(part: string) returns (r: string)
      requires Valid()
      ensures r == RedactText(secrets, part)
    {
      r := part;
      for i := 0 to |secrets|
        invariant RedactText(secrets[i..], r) == RedactText(secrets, part)
      {
        assert secrets[i..][1..] == secrets[i + 1..];
        r := Replace(r, secrets[i]);
      }
    }

    method RedactSecretsPreservingMarkers(value: string) returns (r: string)
      requires Valid()
      ensures r == RedactPreservingMarkers(secrets, value)
    {
      r := RedactBetween(Tokens(value));
    }

    method RedactBetween(tokens: seq<Token>) returns (r: string)
      requires Valid()
      ensures r == Encode(RedactTokens(secrets, tokens))
    {
      var part := "";
      r := "";
      RestOfNothing(secrets, part, tokens);
      for i := 0 to |tokens|
        invariant r + Rest(secrets, part, tokens[i..]) == Encode(RedactTokens(secrets, tokens))
      {
        assert tokens[i..][1..] == tokens[i + 1..];
        if tokens[i].Ch? {
          RestOfChar(secrets, part, tokens[i..]);
          part := part + [tokens[i].c];
        } else {
          var redacted := RedactPart(part);
          RestOfMark(secrets, r, part, tokens[i..]);
          r := r + redacted + Encoding(tokens[i]);
          part := "";
        }
      }
      RestOfNothing(secrets, part, tokens);
      var last := RedactPart(part);
      r := r + last;
    }

    method RedactTemplate(ps: seq<Piece>, active: seq<Active>) returns (template: string, bearers: set<string>)
      requires Valid()
      ensures var substituted := Substitute(header, ArgumentNames(active), Encode(Marked(ps, active)));
              && template == Text(Restored(ps, active, Tokens(RedactPreservingMarkers(secrets, substituted.result))))
              && bearers == substituted.bearers
    {
      var marked := MarkTemplate(ps, active);
      var substituted := Substitute(header, ArgumentNames(active), marked);
      var redacted := RedactSecretsPreservingMarkers(substituted.result);
      template, bearers := Text(Restored(ps, active, Tokens(redacted))), substituted.bearers;
    }

    /** Without success an IndexError was raised, and the record is as it was. */
    method Filter(record: LogRecord) returns (ok: bool)
      requires Valid()
      modifies record
      ensures ok <==> !Raises(header, secrets, old(record.msg), |old(record.args)|)
      ensures ok ==> record.msg == FilteredTemplate(header, secrets, old(record.msg), |old(record.args)|)
      ensures ok ==> record.args == FilteredArgs(header, secrets, old(record.msg), old(record.args))
      ensures !ok ==> record.msg == old(record.msg) && record.args == old(record.args)
      ensures ok ==> ArgumentsRedacted(header, record.args)
      ensures ok ==> forall p :: p in secrets && Distinct(p, REDACTED) ==> ArgumentsHide(record.args, p)
      ensures ok ==> exists pieces ::
        record.msg == Text(pieces) && TemplateHides(header, secrets, Scan(old(record.msg)), pieces)
    {
      var args := record.args;
      var ps := Scan(record.msg);
      var active, consumed := ActiveConversions(ps, |args|);
      if Raises(header, secrets, record.msg, |args|) {
        return false;
      }
      var text, bearers := RedactTemplate(ps, active);
      record.msg := text;
      var redacted := FilterArguments(active, bearers, args, if consumed <= |args| then consumed else |args|);
      record.args := redacted;
      ok := true;
      ArgumentsAreHidden(header, secrets, old(record.msg), args);
      TemplateIsHidden(header, secrets, old(record.msg), |args|);
    }

    method FilterArguments(active: seq<Active>, bearers: set<string>, args: seq<Value>, n: nat)
      returns (redacted: seq<Value>)
      requires Valid() && n <= |args|
      ensures redacted == FilteredUpTo(header, secrets, active, bearers, args, n)
    {
      redacted := [];
      for j := 0 to n
        invariant redacted == FilteredUpTo(header, secrets, active, bearers, args, j)
      {
        redacted := redacted + [FilteredArgument(header, secrets, active, bearers, args[j], j)];
      }
    }
  }
}
