/** The text of the machine identity (identity.py:81-86): what is written and what a reader accepts. */
module UuidText {
  import opened PythonText
  import opened Wrappers

  function Pow16(k: nat): (r: nat)
    ensures r > 0
  {
    if k == 0 then 1 else 16 * Pow16(k - 1)
  }

  function Digit(d: nat): char
    requires d < 16
  {
    "0123456789abcdef"[d]
  }

  function DigitValue(c: char): (r: Option<nat>)
    ensures r.Some? ==> r.value < 16
  {
    if '0' <= c <= '9' then Some((c - '0') as nat)
    else if 'a' <= c <= 'f' then Some((c - 'a') as nat + 10)
    else if 'A' <= c <= 'F' then Some((c - 'A') as nat + 10)
    else None
  }

  function Hex(n: nat, k: nat): (r: string)
    ensures |r| == k
    ensures forall i :: 0 <= i < k ==> DigitValue(r[i]).Some?
  {
    if k == 0 then "" else Hex(n / 16, k - 1) + [Digit(n % 16)]
  }

  function HexValue(s: string): Option<nat> {
    if s == "" then Some(0)
    else
      var high, low := HexValue(s[..|s| - 1]), DigitValue(s[|s| - 1]);
      if high.Some? && low.Some? then Some(16 * high.value + low.value) else None
  }

  lemma DigitRoundTrip(d: nat)
    requires d < 16
    ensures DigitValue(Digit(d)) == Some(d)
  {
  }

  lemma HexValueOfMore(s: string, n: nat, d: nat)
    requires HexValue(s) == Some(n) && d < 16
    ensures HexValue(s + [Digit(d)]) == Some(16 * n + d)
  {
    assert (s + [Digit(d)])[..|s|] == s;
    DigitRoundTrip(d);
  }

  lemma {:induction false} HexRoundTrip(n: nat, k: nat)
    requires n < Pow16(k)
    ensures HexValue(Hex(n, k)) == Some(n)
  {
    if k > 0 {
      HexRoundTrip(n / 16, k - 1);
      HexValueOfMore(Hex(n / 16, k - 1), n / 16, n % 16);
    }
  }

  predicate IsBrace(c: char) {
    c == '{' || c == '}'
  }

  function Strip(drop: char -> bool, s: string): string {
    if s == "" then ""
    else if drop(s[0]) then Strip(drop, s[1..])
    else if drop(s[|s| - 1]) then Strip(drop, s[..|s| - 1])
    else s
  }

  /** `s` without the occurrences of `part`, found from left to right. */
  function Without(s: string, part: string): string
    requires part != ""
    decreases |s|
  {
    if s == "" then ""
    else if part <= s then Without(s[|part|..], part)
    else [s[0]] + Without(s[1..], part)
  }

  function Canonical(n: nat): string {
    var h := Hex(n, 32);
    h[..8] + "-" + (h[8..12] + "-" + (h[12..16] + "-" + (h[16..20] + "-" + h[20..])))
  }

  predicate IsVersion4(n: nat) {
    && n < Pow16(32)
    && n / Pow16(19) % 16 == 4           // version
    && n / Pow16(15) % 16 / 4 == 2       // variant of RFC 9562
  }

  /**
    The number behind a UUID spelling.  Besides plain hexadecimal digits the
    conversion takes a sign, a prefix, underscores and foreign digits; what it
    makes of those is `other`, an arbitrary function.
   */
  function ParseUuid(other: string -> Option<nat>, s: string): Option<nat> {
    var bare := Without(Strip(IsBrace, Without(Without(s, "urn:"), "uuid:")), "-");
    if |bare| != 32 then None
    else if HexValue(bare).Some? then HexValue(bare)
    else other(bare)
  }

  /** What a reader of the file's text returns; `None` is a ValueError. */
  function ReadFallback(other: string -> Option<nat>, text: string): Option<string> {
    var parsed := ParseUuid(other, Strip(IsSpace, text));
    if parsed.Some? && IsVersion4(parsed.value) then Some(Canonical(parsed.value)) else None
  }

  // ------------------------------------------------------------ the format

  predicate Plain(s: string) {
    forall i :: 0 <= i < |s| ==> s[i] == '-' || DigitValue(s[i]).Some?
  }

  lemma PlainIsLeftAlone(s: string)
    requires Plain(s)
    ensures Strip(IsSpace, s) == s
    ensures Strip(IsBrace, Without(Without(s, "urn:"), "uuid:")) == s
  {
    PrefixesAreForeign(s);
    NothingToRemove(s, "urn:");
    NothingToRemove(s, "uuid:");
    if s != "" {
      assert !IsSpace(s[0]) && !IsSpace(s[|s| - 1]);
      assert !IsBrace(s[0]) && !IsBrace(s[|s| - 1]);
    }
    NothingToStrip(IsSpace, s);
    NothingToStrip(IsBrace, s);
  }

  lemma NothingToStrip(drop: char -> bool, s: string)
    requires s == "" || (!drop(s[0]) && !drop(s[|s| - 1]))
    ensures Strip(drop, s) == s
  {
  }

  lemma PrefixesAreForeign(s: string)
    requires Plain(s)
    ensures "urn:"[0] !in s && "uuid:"[0] !in s
  {
    assert "urn:"[0] == 'u' && "uuid:"[0] == 'u';
  }

  lemma {:induction false} NothingToRemove(s: string, part: string)
    requires part != "" && part[0] !in s
    ensures Without(s, part) == s
  {
    if s != "" {
      NothingToRemove(s[1..], part);
    }
  }

  lemma {:induction false} DashesInParts(a: string, b: string)
    ensures Without(a + b, "-") == Without(a, "-") + Without(b, "-")
  {
    if a == "" {
      assert a + b == b;
    } else {
      assert (a + b)[1..] == a[1..] + b;
      DashesInParts(a[1..], b);
    }
  }

  lemma DigitsHoldNoDash(s: string)
    requires forall i :: 0 <= i < |s| ==> DigitValue(s[i]).Some?
    ensures Without(s, "-") == s
  {
    NothingToRemove(s, "-");
  }

  lemma CanonicalIsPlain(n: nat)
    ensures |Canonical(n)| == 36 && Plain(Canonical(n))
    ensures DigitValue(Canonical(n)[35]).Some?
  {}

  /** One group of digits and the dash after it. */
  lemma GroupWithoutDash(group: string, rest: string)
    requires forall i :: 0 <= i < |group| ==> DigitValue(group[i]).Some?
    ensures Without(group + "-" + rest, "-") == group + Without(rest, "-")
  {
    DashesInParts(group + "-", rest);
    DigitsAndDash(group);
  }

  lemma DigitsAndDash(group: string)
    requires forall i :: 0 <= i < |group| ==> DigitValue(group[i]).Some?
    ensures Without(group + "-", "-") == group
  {
    DashesInParts(group, "-");
    DigitsHoldNoDash(group);
    assert Without("-", "-") == "";
    assert group + "" == group;
  }

  lemma CanonicalWithoutDashes(n: nat)
    ensures Without(Canonical(n), "-") == Hex(n, 32)
  {
    var h := Hex(n, 32);
    GroupsWithoutDashes(h[..8], h[8..12], h[12..16], h[16..20], h[20..]);
    assert h == h[..8] + (h[8..12] + (h[12..16] + (h[16..20] + h[20..])));
  }

  predicate Digits(s: string) {
    forall i :: 0 <= i < |s| ==> DigitValue(s[i]).Some?
  }

  lemma GroupsWithoutDashes(a: string, b: string, c: string, d: string, e: string)
    requires Digits(a) && Digits(b) && Digits(c) && Digits(d) && Digits(e)
    ensures Without(a + "-" + (b + "-" + (c + "-" + (d + "-" + e))), "-") == a + (b + (c + (d + e)))
  {
    GroupWithoutDash(d, e);
    GroupWithoutDash(c, d + "-" + e);
    GroupWithoutDash(b, c + "-" + (d + "-" + e));
    GroupWithoutDash(a, b + "-" + (c + "-" + (d + "-" + e)));
    DigitsHoldNoDash(e);
  }

  lemma CanonicalParses(other: string -> Option<nat>, n: nat)
    requires n < Pow16(32)
    ensures ParseUuid(other, Canonical(n)) == Some(n)
  {
    CanonicalIsPlain(n);
    PlainIsLeftAlone(Canonical(n));
    CanonicalWithoutDashes(n);
    HexRoundTrip(n, 32);
  }

  lemma CanonicalReadsBack(other: string -> Option<nat>, n: nat)
    ensures IsVersion4(n) ==> ReadFallback(other, Canonical(n)) == Some(Canonical(n))
  {
    if IsVersion4(n) {
      CanonicalIsPlain(n);
      PlainIsLeftAlone(Canonical(n));
      CanonicalParses(other, n);
    }
  }

  lemma DivideTwice(n: nat, a: nat, b: nat)
    requires a > 0 && b > 0 && a * b > 0
    ensures n / a / b == n / (a * b)
  {
    var q, r := n / a, n % a;
    var u, v := q / b, q % b;
    Recombine(n, a, b, q, r, u, v);
    QuotientIs(n, a * b, u, a * v + r);
  }

  lemma Recombine(n: nat, a: nat, b: nat, q: nat, r: nat, u: nat, v: nat)
    requires n == a * q + r && q == b * u + v && r < a && v < b
    ensures 0 <= a * v && n == (a * b) * u + (a * v + r) && a * v + r < a * b
  {
    Regroup(a, b, u, v);
    TimesIsMonotone(a, v + 1, b);
    TimesIsMonotone(a, v, b);
  }

  lemma Regroup(a: nat, b: nat, u: nat, v: nat)
    ensures a * (b * u + v) == (a * b) * u + a * v && a * v >= 0
  {
  }

  lemma QuotientIs(n: nat, d: nat, q: nat, r: nat)
    requires d > 0 && n == d * q + r && r < d
    ensures n / d == q
  {
    var m := n / d;
    assert n == d * m + n % d;
    if m < q {
      TimesIsMonotone(d, m + 1, q);
    } else if m > q {
      TimesIsMonotone(d, q + 1, m);
    }
  }

  lemma TimesIsMonotone(d: nat, a: nat, b: nat)
    requires a <= b
    ensures d * a <= d * b && d * (a + 1) == d * a + d
  {
    assert d * b == d * a + d * (b - a);
  }

  /** Where a digit of a number stands in its text. */
  lemma {:induction false} HexDigitAt(n: nat, k: nat, i: nat)
    requires i < k
    ensures Hex(n, k)[i] == Digit(n / Pow16(k - 1 - i) % 16)
  {
    if i < k - 1 {
      HexDigitAt(n / 16, k - 1, i);
      DivideTwice(n, 16, Pow16(k - 2 - i));
    }
  }

  /** The text of a number is accepted exactly if it shows the version and the variant: "4" as the first
  digit of the third group, and "8", "9", "a" or "b" as that of the fourth. */
  lemma TextShowsTheVersion(other: string -> Option<nat>, n: nat)
    requires n < Pow16(32)
    ensures var text := Canonical(n);
      && |text| == 36
      && ReadFallback(other, text) ==
         if text[14] == '4' && text[19] in ['8', '9', 'a', 'b'] then Some(text) else None
  {
    DigitsOfText(n);
    VersionDigits(n);
    CanonicalIsPlain(n);
    PlainIsLeftAlone(Canonical(n));
    CanonicalParses(other, n);
  }

  lemma VersionDigits(n: nat)
    requires n < Pow16(32)
    ensures IsVersion4(n) <==> Hex(n, 32)[12] == '4' && Hex(n, 32)[16] in ['8', '9', 'a', 'b']
  {
    HexDigitAt(n, 32, 12);
    HexDigitAt(n, 32, 16);
    VersionDigit(n / Pow16(19) % 16);
    VersionDigit(n / Pow16(15) % 16);
  }

  lemma VersionDigit(d: nat)
    requires d < 16
    ensures Digit(d) == '4' <==> d == 4
    ensures Digit(d) in ['8', '9', 'a', 'b'] <==> d / 4 == 2
  {
  }

  lemma DigitsOfText(n: nat)
    ensures var text, h := Canonical(n), Hex(n, 32); |text| == 36 && text[14] == h[12] && text[19] == h[16]
  {
    var h := Hex(n, 32);
    assert h[12..16][0] == h[12] && h[16..20][0] == h[16];
  }

  /** Cutting digits and dashes before a last digit leaves fewer digits. */
  lemma PrefixHoldsFewerDigits(text: string, w: nat)
    requires 0 < |text| && w < |text| && text[|text| - 1] != '-'
    ensures |Without(text[..w], "-")| < |Without(text, "-")|
  {
    var last := |text| - 1;
    DashesInParts(text[..w], text[w..]);
    assert text[..w] + text[w..] == text;
    DashesInParts(text[w..last], [text[last]]);
    assert text[w..] == text[w..last] + [text[last]];
  }

  /** No proper prefix of the text is accepted, whatever odd spellings are. */
  lemma ProperPrefixIsRefused(other: string -> Option<nat>, n: nat, w: nat)
    requires w < 36
    ensures |Canonical(n)| == 36 && ReadFallback(other, Canonical(n)[..w]) == None
  {
    var text := Canonical(n);
    CanonicalIsPlain(n);
    CanonicalWithoutDashes(n);
    PrefixHoldsFewerDigits(text, w);
    TooShort(other, text[..w]);
  }

  lemma TooShort(other: string -> Option<nat>, s: string)
    requires Plain(s) && |Without(s, "-")| < 32
    ensures ReadFallback(other, s) == None
  {
    PlainIsLeftAlone(s);
  }

  /** What a reader returns is itself text that reads as itself. */
  lemma ReadIsCanonical(other: string -> Option<nat>, text: string)
    ensures var read := ReadFallback(other, text); read.Some? ==> ReadFallback(other, read.value) == read
  {
    if ReadFallback(other, text).Some? {
      CanonicalReadsBack(other, ParseUuid(other, Strip(IsSpace, text)).value);
    }
  }
}
