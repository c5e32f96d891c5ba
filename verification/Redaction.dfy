/**
  Redaction of a process command line (collectors/processes.py).

  The loop keeps one flag, `maskNext`, that says whether the previous argument
  announced a secret.  The specification has no flag: an argument is hidden
  because of the argument before it.  What an observer may learn is stated
  separately, by `DifferOnlyInSecrets` and `Clean`.
 */
module Redaction {

  const MASK := "***"

  const SECRET_FLAGS: set<string> := {
    "--api-key", "--apikey", "--access-token", "--authorization",
    "--password", "--secret", "--token"
  }

  const SECRET_ASSIGNMENT_PARTS: seq<string> := ["API_KEY", "AUTH", "PASSWORD", "SECRET", "TOKEN"]

  /** How the runtime folds and raises one character.  A character may become several. */
  datatype Casing = Casing(fold: char -> string, upper: char -> string)

  function Each(f: char -> string, s: string): string {
    if s == "" then "" else f(s[0]) + Each(f, s[1..])
  }

  /** No case mapping touches an asterisk. */
  predicate Standard(c: Casing) {
    c.fold('*') == "*" && c.upper('*') == "*"
  }

  /** The part before the first `=`, or everything. */
  function Name(arg: string): (r: string)
    ensures r <= arg && '=' !in r
    ensures r == arg || arg[|r|] == '='
  {
    if arg == "" || arg[0] == '=' then "" else [arg[0]] + Name(arg[1..])
  }

  predicate HasSeparator(arg: string) {
    '=' in arg
  }

  predicate Contains(s: string, part: string) {
    exists i :: 0 <= i <= |s| && part <= s[i..]
  }

  predicate IsSecretFlag(c: Casing, arg: string) {
    Each(c.fold, Name(arg)) in SECRET_FLAGS
  }

  /** A secret flag that leaves its value to the next argument. */
  predicate IsBareFlag(c: Casing, arg: string) {
    IsSecretFlag(c, arg) && !HasSeparator(arg)
  }

  predicate IsSecretAssignment(c: Casing, arg: string) {
    HasSeparator(arg) &&
    (IsSecretFlag(c, arg)
     || exists part :: part in SECRET_ASSIGNMENT_PARTS && Contains(Each(c.upper, Name(arg)), part))
  }

  /** Argument `i` follows a bare secret flag. */
  predicate Announced(c: Casing, args: seq<string>, i: nat)
    requires i < |args|
  {
    i > 0 && IsBareFlag(c, args[i - 1])
  }

  function Shown(c: Casing, arg: string): string {
    if IsSecretAssignment(c, arg) then Name(arg) + "=" + MASK else arg
  }

  /** What argument `i` contributes to the redacted line. */
  function Piece(c: Casing, args: seq<string>, i: nat): seq<string>
    requires i < |args|
  {
    if !Announced(c, args, i) then [Shown(c, args[i])]
    else if IsSecretFlag(c, args[i]) then [MASK, Shown(c, args[i])]
    else [MASK]
  }

  /** The contributions of the first `n` arguments. */
  function Pieces(c: Casing, args: seq<string>, n: nat): seq<string>
    requires n <= |args|
  {
    if n == 0 then [] else Pieces(c, args, n - 1) + Piece(c, args, n - 1)
  }

  function Redacted(c: Casing, args: seq<string>): seq<string> {
    Pieces(c, args, |args|)
  }

  method RedactedArguments(c: Casing, args: seq<string>) returns (redacted: seq<string>)
    ensures redacted == Redacted(c, args)
  {
    redacted := [];
    var maskNext := false;
    for i := 0 to |args|
      invariant redacted == Pieces(c, args, i)
      invariant maskNext == (i > 0 && IsBareFlag(c, args[i - 1]))
    {
      var argument := args[i];
      var name := Name(argument);
      var separator := HasSeparator(argument);
      var isSecretFlag := Each(c.fold, name) in SECRET_FLAGS;
      ghost var before := redacted;
      if maskNext {
        redacted := redacted + [MASK];
        maskNext := false;
        if !isSecretFlag {
          continue;
        }
      }
      if isSecretFlag {
        if separator {
          redacted := redacted + [name + "=" + MASK];
        } else {
          redacted := redacted + [argument];
          maskNext := true;
        }
        assert redacted == before + Piece(c, args, i);
        continue;
      }
      if separator && exists part :: part in SECRET_ASSIGNMENT_PARTS && Contains(Each(c.upper, name), part) {
        redacted := redacted + [name + "=" + MASK];
        continue;
      }
      redacted := redacted + [argument];
    }
  }

  // ---------------------------------------------------------------- secrecy

  /** The two arguments at `i` may be told apart only by a secret value. */
  predicate SameButSecret(c: Casing, a: seq<string>, b: seq<string>, i: nat)
    requires i < |a| == |b|
  {
    || a[i] == b[i]
    || (IsSecretAssignment(c, a[i]) && HasSeparator(b[i]) && Name(a[i]) == Name(b[i]))
    || (Announced(c, a, i) && !IsSecretFlag(c, a[i]) && !IsSecretFlag(c, b[i]))
  }

  predicate DifferOnlyInSecrets(c: Casing, a: seq<string>, b: seq<string>) {
    |a| == |b| && forall i :: 0 <= i < |a| ==> SameButSecret(c, a, b, i)
  }

  lemma SecretsDoNotFlow(c: Casing, a: seq<string>, b: seq<string>)
    requires DifferOnlyInSecrets(c, a, b)
    ensures Redacted(c, a) == Redacted(c, b)
  {
    PrefixesAgree(c, a, b, |a|);
  }

  lemma {:induction false} PrefixesAgree(c: Casing, a: seq<string>, b: seq<string>, n: nat)
    requires DifferOnlyInSecrets(c, a, b) && n <= |a|
    ensures Pieces(c, a, n) == Pieces(c, b, n)
  {
    if n > 0 {
      PrefixesAgree(c, a, b, n - 1);
      assert SameButSecret(c, a, b, n - 1);
      if n > 1 {
        assert SameButSecret(c, a, b, n - 2);
      }
    }
  }

  // ------------------------------------------------------------ the output

  /** Nothing in the line is left to redact. */
  predicate Clean(c: Casing, args: seq<string>) {
    forall i :: 0 <= i < |args| ==> CleanAt(c, args, i)
  }

  predicate CleanAt(c: Casing, args: seq<string>, i: nat)
    requires i < |args|
  {
    && (Announced(c, args, i) ==> args[i] == MASK)
    && (IsSecretAssignment(c, args[i]) ==> args[i] == Name(args[i]) + "=" + MASK)
  }

  lemma MaskIsPublic(c: Casing)
    requires Standard(c)
    ensures !IsSecretFlag(c, MASK) && Name(MASK) == MASK && !HasSeparator(MASK)
  {
    assert MASK == ['*', '*', '*'];
    assert Name("*") == "*" by { assert "*"[1..] == ""; }
    assert Name("**") == "**" by { assert "**"[1..] == "*"; }
    assert Name(MASK) == MASK by { assert MASK[1..] == "**"; }
    assert Each(c.fold, MASK)[0] == '*';
    forall flag | flag in SECRET_FLAGS ensures flag[0] == '-' {}
  }

  lemma ShownKeepsTheName(c: Casing, arg: string)
    ensures Name(Shown(c, arg)) == Name(arg)
    ensures HasSeparator(Shown(c, arg)) <==> HasSeparator(arg)
    ensures IsSecretAssignment(c, arg) ==> Shown(c, arg) == Name(Shown(c, arg)) + "=" + MASK
  {
    if IsSecretAssignment(c, arg) {
      NameOfAssignment(Name(arg), MASK);
      assert Shown(c, arg)[|Name(arg)|] == '=';
    }
  }

  lemma {:induction false} NameOfAssignment(name: string, value: string)
    requires '=' !in name
    ensures Name(name + "=" + value) == name
  {
    var s := name + "=" + value;
    if name != "" {
      assert s[1..] == name[1..] + "=" + value;
      NameOfAssignment(name[1..], value);
    } else {
      assert s[0] == '=';
    }
  }

  lemma {:induction false} PiecesAreClean(c: Casing, args: seq<string>, n: nat)
    requires Standard(c) && n <= |args|
    ensures Clean(c, Pieces(c, args, n))
    ensures n == 0 <==> Pieces(c, args, n) == []
    ensures n > 0 ==>
      var r := Pieces(c, args, n); IsBareFlag(c, r[|r| - 1]) <==> IsBareFlag(c, args[n - 1])
  {
    if n > 0 {
      PiecesAreClean(c, args, n - 1);
      MaskIsPublic(c);
      ShownKeepsTheName(c, args[n - 1]);
      var before, r := Pieces(c, args, n - 1), Pieces(c, args, n);
      forall i | 0 <= i < |r| ensures CleanAt(c, r, i) {
        if i < |before| {
          assert CleanAt(c, before, i);
        }
      }
    }
  }

  lemma RedactionLeavesNothingToRedact(c: Casing, args: seq<string>)
    requires Standard(c)
    ensures Clean(c, Redacted(c, args))
  {
    PiecesAreClean(c, args, |args|);
  }

  // ------------------------------------------------------- what is a secret

  function LowerCase(c: char): char {
    if 'A' <= c <= 'Z' then c + ' ' else c
  }

  function UpperCase(c: char): char {
    if 'a' <= c <= 'z' then c - ' ' else c
  }

  predicate IsAscii(s: string) {
    forall k :: 0 <= k < |s| ==> s[k] <= '\U{7F}'
  }

  /** On ASCII the mappings are the usual ones. */
  ghost predicate Usual(c: Casing) {
    forall x: char :: x <= '\U{7F}' ==> c.fold(x) == [LowerCase(x)] && c.upper(x) == [UpperCase(x)]
  }

  predicate SameText(f: char -> char, s: string, t: string) {
    |s| == |t| && forall k :: 0 <= k < |s| ==> f(s[k]) == t[k]
  }

  lemma {:induction false} EachOfAscii(f: char -> string, g: char -> char, s: string, t: string)
    requires (forall x: char :: x <= '\U{7F}' ==> f(x) == [g(x)]) && IsAscii(s) && SameText(g, s, t)
    ensures Each(f, s) == t
  {
    if s != "" {
      assert SameText(g, s[1..], t[1..]);
      EachOfAscii(f, g, s[1..], t[1..]);
      assert t == [t[0]] + t[1..];
    }
  }

  /** The seven flags in any case hide what follows them, behind `=` or as the next argument. */
  lemma FlagHidesItsValue(c: Casing, flag: string, name: string, value: string)
    requires Usual(c) && IsAscii(flag) && SameText(LowerCase, flag, name)
    requires name in ["--api-key", "--apikey", "--access-token", "--authorization", "--password", "--secret", "--token"]
    ensures Redacted(c, [flag + "=" + value]) == [flag + "=***"]
    ensures !IsSecretFlag(c, value) ==> Redacted(c, [flag, value]) == [flag, "***"]
  {
    FlagHasNoSign(flag, name);
    NameOfWhole(flag);
    NameOfAssignment(flag, value);
    EachOfAscii(c.fold, LowerCase, flag, name);
    var arg := flag + "=" + value;
    assert IsBareFlag(c, flag) && IsSecretFlag(c, arg);
    assert arg[|flag|] == '=';
    OneArgument(c, arg);
    MaskedText(flag);
    if !IsSecretFlag(c, value) { TwoArguments(c, flag, value); }
  }

  lemma MaskedText(name: string)
    ensures name + "=" + MASK == name + "=***"
  {
    assert "=" + MASK == "=***";
  }

  lemma TwoArguments(c: Casing, flag: string, value: string)
    requires IsBareFlag(c, flag) && !IsSecretFlag(c, value)
    ensures Redacted(c, [flag, value]) == [flag, MASK]
  {
    var line := [flag, value];
    assert Pieces(c, line, 0) == [];
    assert Pieces(c, line, 1) == Pieces(c, line, 0) + Piece(c, line, 0) == [flag];
    assert Pieces(c, line, 2) == Pieces(c, line, 1) + Piece(c, line, 1);
  }

  lemma FlagHasNoSign(flag: string, name: string)
    requires SameText(LowerCase, flag, name)
    requires name in ["--api-key", "--apikey", "--access-token", "--authorization", "--password", "--secret", "--token"]
    ensures '=' !in flag
  {
    assert '=' !in name;
    forall k | 0 <= k < |flag| ensures flag[k] != '=' {
      assert LowerCase(flag[k]) == name[k] && name[k] in name;
    }
  }

  lemma {:induction false} NameOfWhole(arg: string)
    requires '=' !in arg
    ensures Name(arg) == arg
  {
    if arg != "" {
      NameOfWhole(arg[1..]);
    }
  }

  lemma OneArgument(c: Casing, arg: string)
    ensures Redacted(c, [arg]) == [Shown(c, arg)]
  {
    assert Pieces(c, [arg], 0) == [];
  }

  /** An assignment to a name that holds one of the five words in any case hides its value. */
  lemma WordHidesTheValue(c: Casing, name: string, raised: string, word: string, value: string)
    requires Usual(c) && IsAscii(name) && '=' !in name && SameText(UpperCase, name, raised)
    requires word in ["API_KEY", "AUTH", "PASSWORD", "SECRET", "TOKEN"] && Contains(raised, word)
    ensures Redacted(c, [name + "=" + value]) == [name + "=***"]
  {
    var arg := name + "=" + value;
    NameOfAssignment(name, value);
    EachOfAscii(c.upper, UpperCase, name, raised);
    assert arg[|name|] == '=' && word in SECRET_ASSIGNMENT_PARTS;
    NamedIsShown(c, arg, name, word);
  }

  lemma NamedIsShown(c: Casing, arg: string, name: string, word: string)
    requires Name(arg) == name && HasSeparator(arg) && word in SECRET_ASSIGNMENT_PARTS
    requires Contains(Each(c.upper, name), word)
    ensures Redacted(c, [arg]) == [name + "=***"]
  {
    OneArgument(c, arg);
    MaskedText(name);
  }

  /** Nothing else is hidden. */
  lemma OnlyTheseAreSecret(c: Casing, arg: string)
    ensures IsSecretFlag(c, arg) ==>
      Each(c.fold, Name(arg)) in
      ["--api-key", "--apikey", "--access-token", "--authorization", "--password", "--secret", "--token"]
    ensures IsSecretAssignment(c, arg) && !IsSecretFlag(c, arg) ==>
      var raised := Each(c.upper, Name(arg));
      || Contains(raised, "API_KEY") || Contains(raised, "AUTH") || Contains(raised, "PASSWORD")
      || Contains(raised, "SECRET") || Contains(raised, "TOKEN")
  {
  }

  /** Redaction changes a line exactly when something in it is to be hidden. */
  lemma OnlySecretsChange(c: Casing, args: seq<string>)
    requires Standard(c)
    ensures Redacted(c, args) == args <==> Clean(c, args)
  {
    if Clean(c, args) {
      CleanIsFixed(c, args, |args|);
      assert args[..|args|] == args;
    } else if Redacted(c, args) == args {
      RedactionLeavesNothingToRedact(c, args);
      assert false;
    }
  }

  lemma {:induction false} CleanIsFixed(c: Casing, args: seq<string>, n: nat)
    requires Standard(c) && Clean(c, args) && n <= |args|
    ensures Pieces(c, args, n) == args[..n]
  {
    if n > 0 {
      CleanIsFixed(c, args, n - 1);
      MaskIsPublic(c);
      assert CleanAt(c, args, n - 1);
    }
  }

  lemma RedactionIsIdempotent(c: Casing, args: seq<string>)
    requires Standard(c)
    ensures Redacted(c, Redacted(c, args)) == Redacted(c, args)
  {
    RedactionLeavesNothingToRedact(c, args);
    OnlySecretsChange(c, Redacted(c, args));
  }

  /** Argument `i` is a secret flag right after a bare one: it becomes two. */
  predicate IsDoubled(c: Casing, args: seq<string>, i: nat) {
    i < |args| && Announced(c, args, i) && IsSecretFlag(c, args[i])
  }

  function Doubled(c: Casing, args: seq<string>, n: nat): set<nat> {
    set i: nat | i < n && IsDoubled(c, args, i)
  }

  lemma RedactedLength(c: Casing, args: seq<string>)
    ensures |Redacted(c, args)| == |args| + |Doubled(c, args, |args|)|
  {
    PiecesLength(c, args, |args|);
  }

  lemma OneMoreDoubled(c: Casing, args: seq<string>, n: nat)
    ensures |Doubled(c, args, n + 1)| == |Doubled(c, args, n)| + if IsDoubled(c, args, n) then 1 else 0
  {
    if IsDoubled(c, args, n) {
      assert Doubled(c, args, n + 1) == Doubled(c, args, n) + {n};
    } else {
      assert Doubled(c, args, n + 1) == Doubled(c, args, n);
    }
  }

  lemma PieceLength(c: Casing, args: seq<string>, i: nat)
    requires i < |args|
    ensures |Piece(c, args, i)| == 1 + if IsDoubled(c, args, i) then 1 else 0
  {
  }

  lemma JoinedLength(a: seq<string>, b: seq<string>)
    ensures |a + b| == |a| + |b|
  {
  }

  lemma {:induction false} PiecesLength(c: Casing, args: seq<string>, n: nat)
    requires n <= |args|
    ensures |Pieces(c, args, n)| == n + |Doubled(c, args, n)|
  {
    if n > 0 {
      PiecesLength(c, args, n - 1);
      OneMoreDoubled(c, args, n - 1);
      PieceLength(c, args, n - 1);
      JoinedLength(Pieces(c, args, n - 1), Piece(c, args, n - 1));
    }
  }
}
