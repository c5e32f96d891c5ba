/**
  Percent formatting: the pattern that finds conversions in a log template
  (logging_setup.py), and what formatting demands of the arguments.
 */
module Printf {
  import opened PythonText
  import opened Wrappers

  /** One conversion specifier; `stars` counts the widths and precisions taken from arguments. */
  datatype Spec = Spec(text: string, keyed: bool, stars: nat, conversion: char)

  const INTEGER_CONVERSIONS := "diouxX"
  const FLOAT_CONVERSIONS := "eEfFgG"

  predicate IsFlag(c: char) {
    c in "-#0 +"
  }

  predicate IsConversion(c: char) {
    c in INTEGER_CONVERSIONS || c in FLOAT_CONVERSIONS || c in "crsa%"
  }

  // ------------------------------------------------------------ the pattern

  /** The end of an optional parenthesised key. */
  function KeyEnd(s: string, i: nat): (j: nat)
    requires i <= |s|
    ensures i <= j <= |s|
  {
    if i < |s| && s[i] == '(' then
      var close := Skip(c => c != ')', s, i + 1);
      if i + 1 < close < |s| then close + 1 else i
    else i
  }

  predicate IsStar(s: string, i: nat) {
    i < |s| && s[i] == '*'
  }

  function WidthEnd(s: string, i: nat): (j: nat)
    requires i <= |s|
    ensures i <= j <= |s|
  {
    if IsStar(s, i) then i + 1 else Skip(IsDigit, s, i)
  }

  predicate HasPoint(s: string, i: nat) {
    i < |s| && s[i] == '.'
  }

  function PrecisionEnd(s: string, i: nat): (j: nat)
    requires i <= |s|
    ensures i <= j <= |s|
  {
    if HasPoint(s, i) then WidthEnd(s, i + 1) else i
  }

  function LengthEnd(s: string, i: nat): (j: nat)
    requires i <= |s|
    ensures i <= j <= |s|
  {
    if i < |s| && s[i] in "hlL" then i + 1 else i
  }

  /** Where the parts of a specifier that starts at 0 end. */
  datatype Layout = Layout(key: nat, width: nat, precision: nat, length: nat, end: nat)

  function LayoutOf(s: string): (l: Layout)
    requires s != ""
    ensures 1 <= l.key <= l.width <= l.precision <= l.length <= l.end <= |s|
  {
    var key := KeyEnd(s, 1);
    var width := Skip(IsFlag, s, key);
    var precision := WidthEnd(s, width);
    var length := PrecisionEnd(s, precision);
    Layout(key, width, precision, length, LengthEnd(s, length))
  }

  function Stars(s: string, l: Layout): nat {
    (if IsStar(s, l.width) then 1 else 0)
    + (if HasPoint(s, l.precision) && IsStar(s, l.precision + 1) then 1 else 0)
  }

  /** The specifier at the start of `s`. */
  function Match(s: string): (r: Option<Spec>)
    ensures r.Some? ==> 2 <= |r.value.text| <= |s| && s[..|r.value.text|] == r.value.text && s[0] == '%'
    ensures r.Some? ==> r.value.text[|r.value.text| - 1] == r.value.conversion && IsConversion(r.value.conversion)
  {
    if s == "" || s[0] != '%' then None
    else
      var l := LayoutOf(s);
      if l.end < |s| && IsConversion(s[l.end]) then
        Some(Spec(s[..l.end + 1], l.key > 1, Stars(s, l), s[l.end]))
      else None
  }

  predicate Agree(s: string, t: string, e: nat) {
    e <= |s| && e <= |t| && s[..e] == t[..e]
  }

  lemma SkipIsLocal(p: char -> bool, s: string, t: string, i: nat, e: nat)
    requires Agree(s, t, e) && i <= |s| && Skip(p, s, i) < e
    ensures Skip(p, t, i) == Skip(p, s, i)
  {
    var j := Skip(p, s, i);
    assert forall k :: 0 <= k < e ==> s[k] == s[..e][k] && t[k] == t[..e][k];
    SkipEndsAt(p, t, i, j);
  }

  lemma WidthIsLocal(s: string, t: string, i: nat, e: nat)
    requires Agree(s, t, e) && i < e && WidthEnd(s, i) < e
    ensures WidthEnd(t, i) == WidthEnd(s, i) && IsStar(s, i) == IsStar(t, i)
  {
    assert s[i] == s[..e][i] && t[i] == t[..e][i];
    if !IsStar(s, i) {
      SkipIsLocal(IsDigit, s, t, i, e);
    }
  }

  lemma PrecisionIsLocal(s: string, t: string, i: nat, e: nat)
    requires Agree(s, t, e) && i < e && PrecisionEnd(s, i) < e
    ensures PrecisionEnd(t, i) == PrecisionEnd(s, i)
    ensures (HasPoint(s, i) && IsStar(s, i + 1)) == (HasPoint(t, i) && IsStar(t, i + 1))
  {
    assert s[i] == s[..e][i] && t[i] == t[..e][i];
    if HasPoint(s, i) {
      WidthIsLocal(s, t, i + 1, e);
    }
  }

  lemma KeyIsLocal(s: string, t: string, i: nat, e: nat)
    requires Agree(s, t, e) && i < e && KeyEnd(s, i) < e
    requires KeyEnd(s, i) == i ==> s[i] != '('
    ensures KeyEnd(t, i) == KeyEnd(s, i)
  {
    assert s[i] == s[..e][i] && t[i] == t[..e][i];
    if s[i] == '(' {
      SkipIsLocal(c => c != ')', s, t, i + 1, e);
    }
  }

  /** A parenthesis that starts no key fits nothing else either. */
  lemma UnreadKey(s: string)
    requires |s| > 1 && s[1] == '(' && KeyEnd(s, 1) == 1
    ensures LayoutOf(s).end == 1
  {
    assert !IsFlag('(') && !IsDigit('(');
    SkipEndsAt(IsFlag, s, 1, 1);
    SkipEndsAt(IsDigit, s, 1, 1);
  }

  lemma LayoutIsLocal(s: string, t: string, e: nat)
    requires s != "" && t != "" && Agree(s, t, e) && LayoutOf(s).end < e
    requires KeyEnd(s, 1) == 1 ==> s[1] != '('
    ensures LayoutOf(t) == LayoutOf(s)
  {
    var l := LayoutOf(s);
    KeyIsLocal(s, t, 1, e);
    SkipIsLocal(IsFlag, s, t, l.key, e);
    WidthIsLocal(s, t, l.width, e);
    PrecisionIsLocal(s, t, l.precision, e);
    LengthIsLocal(s, t, l.length, e);
  }

  lemma LengthIsLocal(s: string, t: string, i: nat, e: nat)
    requires Agree(s, t, e) && i < e
    ensures LengthEnd(t, i) == LengthEnd(s, i)
  {
    assert s[i] == s[..e][i] && t[i] == t[..e][i];
  }

  lemma StarsAreLocal(s: string, t: string, l: Layout, e: nat)
    requires s != "" && t != "" && Agree(s, t, e) && l.end < e && LayoutOf(s) == l == LayoutOf(t)
    ensures Stars(t, l) == Stars(s, l)
  {
    WidthIsLocal(s, t, l.width, e);
    PrecisionIsLocal(s, t, l.precision, e);
  }

  /** A specifier is recognised by itself, whatever follows it. */
  lemma MatchIsLocal(s: string, rest: string)
    requires Match(s).Some?
    ensures Match(Match(s).value.text + rest) == Match(s)
  {
    var text := Match(s).value.text;
    var e, t := |text|, text + rest;
    assert t[..e] == text;
    assert t[0] == text[0] && t[e - 1] == text[e - 1];
    if s[1] == '(' && KeyEnd(s, 1) == 1 {
      UnreadKey(s);
    }
    LayoutIsLocal(s, t, e);
    StarsAreLocal(s, t, LayoutOf(s), e);
  }

  // --------------------------------------------------------------- templates

  datatype Piece = Lit(c: char) | Conv(spec: Spec)

  function FirstPiece(s: string): (p: Piece)
    requires s != ""
    ensures TextOf(p) != "" && TextOf(p) <= s
  {
    if Match(s).Some? then Conv(Match(s).value) else Lit(s[0])
  }

  /** The conversions the pattern finds from left to right, and the characters between them. */
  function Scan(s: string): seq<Piece> {
    if s == "" then [] else [FirstPiece(s)] + Scan(s[|TextOf(FirstPiece(s))|..])
  }

  function TextOf(p: Piece): string {
    if p.Lit? then [p.c] else p.spec.text
  }

  function Text(ps: seq<Piece>): string {
    if ps == [] then "" else TextOf(ps[0]) + Text(ps[1..])
  }

  /** Not a stray percent sign, and a specifier by itself. */
  predicate IsClear(p: Piece) {
    if p.Lit? then p.c != '%' else Match(p.spec.text) == Some(p.spec)
  }

  predicate Clear(ps: seq<Piece>) {
    forall p :: p in ps ==> IsClear(p)
  }

  lemma TextOfFirst(p: Piece, ps: seq<Piece>)
    ensures Text([p] + ps) == TextOf(p) + Text(ps)
  {
    TailOfFirst(p, ps);
  }

  lemma {:induction false} TextOfScan(s: string)
    ensures Text(Scan(s)) == s
    decreases |s|
  {
    if s != "" {
      var p := FirstPiece(s);
      var rest := s[|TextOf(p)|..];
      TextOfFirst(p, Scan(rest));
      TextOfScan(rest);
      assert s == TextOf(p) + rest;
    }
  }

  lemma FirstOfText(p: Piece, rest: string)
    requires IsClear(p)
    ensures FirstPiece(TextOf(p) + rest) == p && (TextOf(p) + rest)[|TextOf(p)|..] == rest
  {
    if p.Conv? {
      MatchIsLocal(p.spec.text, rest);
    }
  }

  lemma ScanOfFirst(p: Piece, rest: string)
    requires IsClear(p)
    ensures Scan(TextOf(p) + rest) == [p] + Scan(rest)
  {
    FirstOfText(p, rest);
  }

  /** Clear pieces are found again in their text. */
  lemma {:induction false} ScanOfText(ps: seq<Piece>)
    requires Clear(ps)
    ensures Scan(Text(ps)) == ps
  {
    if ps != [] {
      assert ps[0] in ps;
      ScanOfText(ps[1..]);
      ScanOfFirst(ps[0], Text(ps[1..]));
      HeadAndTail(ps);
    }
  }

  lemma FirstIsClear(s: string)
    requires s != "" && FirstPiece(s) != Lit('%')
    ensures IsClear(FirstPiece(s))
  {
    if Match(s).Some? {
      MatchIsLocal(s, "");
      assert Match(s).value.text + "" == Match(s).value.text;
    }
  }

  /** Without a stray percent sign a scan is clear. */
  lemma {:induction false} ScanIsClear(s: string)
    requires Lit('%') !in Scan(s)
    ensures Clear(Scan(s))
    decreases |s|
  {
    if s != "" {
      var p := FirstPiece(s);
      ScanIsClear(s[|TextOf(p)|..]);
      FirstIsClear(s);
    }
  }

  // --------------------------------------------------------------- arguments

  /** What an argument is used for. */
  datatype Use = Star | As(conversion: char)

  /** `Object` stands for any other value; it formats under the conversions it names. */
  datatype Value = Str(s: string) | Int(n: int) | Float | Object(formats: set<char>)

  function UsesOf(spec: Spec): seq<Use> {
    seq(spec.stars, _ => Star) + if spec.conversion == '%' then [] else [As(spec.conversion)]
  }

  function PieceUses(p: Piece): seq<Use> {
    if p.Lit? then [] else UsesOf(p.spec)
  }

  /** The uses that formatting makes of a tuple of arguments, in order. */
  function Uses(ps: seq<Piece>): seq<Use> {
    if ps == [] then [] else Uses(ps[..|ps| - 1]) + PieceUses(ps[|ps| - 1])
  }

  predicate Accepts(v: Value, use: Use) {
    match use
    case Star => v.Int?
    case As(c) =>
      if c in "sra" then true
      else match v
        case Str(s) => c == 'c' && |s| == 1
        case Int(n) => c in INTEGER_CONVERSIONS || c in FLOAT_CONVERSIONS || (c == 'c' && 0 <= n < 0x11_0000)
        case Float => c in "diu" || c in FLOAT_CONVERSIONS
        case Object(formats) => c in formats
  }

  predicate NoKeys(ps: seq<Piece>) {
    forall p :: p in ps && p.Conv? ==> !p.spec.keyed
  }

  /** A template of these pieces formats with these arguments. */
  predicate FormatsPieces(ps: seq<Piece>, args: seq<Value>) {
    && Clear(ps) && NoKeys(ps)
    && |Uses(ps)| == |args|
    && forall i :: 0 <= i < |args| ==> Accepts(args[i], Uses(ps)[i])
  }

  /** Formatting with a tuple of arguments succeeds; without arguments nothing is formatted. */
  predicate Formats(template: string, args: seq<Value>) {
    args != [] ==> FormatsPieces(Scan(template), args)
  }
}
