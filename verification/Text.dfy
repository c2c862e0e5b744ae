/** Character-level helpers: trimming, ASCII case folding, decimal numerals, file-name parts. */
module Text {
  import opened Common

  /** Unicode White_Space. */
  predicate IsWhitespace(c: char) {
    var n := c as int;
    || 0x9 <= n <= 0xD || n == 0x20 || n == 0x85 || n == 0xA0 || n == 0x1680
    || 0x2000 <= n <= 0x200A || n == 0x2028 || n == 0x2029 || n == 0x202F || n == 0x205F || n == 0x3000
  }

  function TrimStart(s: string): (r: string)
    ensures |r| <= |s| && s[|s| - |r|..] == r
    ensures r != [] ==> !IsWhitespace(r[0])
    ensures forall i :: 0 <= i < |s| - |r| ==> IsWhitespace(s[i])
  {
    if s != [] && IsWhitespace(s[0]) then TrimStart(s[1..]) else s
  }

  function TrimEnd(s: string): (r: string)
    ensures r <= s
    ensures r != [] ==> !IsWhitespace(r[|r| - 1])
    ensures forall i :: |r| <= i < |s| ==> IsWhitespace(s[i])
  {
    if s != [] && IsWhitespace(s[|s| - 1]) then TrimEnd(s[..|s| - 1]) else s
  }

  function Trim(s: string): (r: string)
    ensures |r| <= |s|
    ensures r != [] ==> !IsWhitespace(r[0]) && !IsWhitespace(r[|r| - 1])
  {
    TrimEnd(TrimStart(s))
  }

  /** Neither end is whitespace. */
  predicate Trimmed(s: string) {
    s != [] ==> !IsWhitespace(s[0]) && !IsWhitespace(s[|s| - 1])
  }

  lemma TrimFixes(s: string)
    requires Trimmed(s)
    ensures Trim(s) == s
  {
  }

  lemma {:induction false} TrimEndAll(s: string, ws: string)
    requires forall i :: 0 <= i < |ws| ==> IsWhitespace(ws[i])
    requires Trimmed(s)
    ensures TrimEnd(s + ws) == s
  {
    if ws == [] { assert s + ws == s; } else {
      assert (s + ws)[..|s + ws| - 1] == s + ws[..|ws| - 1];
      TrimEndAll(s, ws[..|ws| - 1]);
    }
  }

  lemma TrimAround(before: string, value: string, after: string)
    requires forall i :: 0 <= i < |before| ==> IsWhitespace(before[i])
    requires forall i :: 0 <= i < |after| ==> IsWhitespace(after[i])
    requires value != [] && Trimmed(value)
    ensures Trim(before + (value + after)) == value
  {
    TrimStartSkips(before, value + after);
    TrimEndAll(value, after);
  }

  lemma {:induction false} TrimStartSkips(ws: string, s: string)
    requires forall i :: 0 <= i < |ws| ==> IsWhitespace(ws[i])
    requires s != [] && !IsWhitespace(s[0])
    ensures TrimStart(ws + s) == s
  {
    if ws == [] { assert ws + s == s; } else {
      assert (ws + s)[1..] == ws[1..] + s;
      TrimStartSkips(ws[1..], s);
    }
  }

  function LowerChar(c: char): char {
    if 'A' <= c <= 'Z' then ((c as int) + 32) as char else c
  }

  function AsciiLower(s: string): (r: string)
    ensures |r| == |s|
    ensures forall i :: 0 <= i < |s| ==> r[i] == LowerChar(s[i])
  {
    seq(|s|, i requires 0 <= i < |s| => LowerChar(s[i]))
  }

  lemma AsciiLowerIdempotent(s: string)
    ensures AsciiLower(AsciiLower(s)) == AsciiLower(s)
  {
  }

  /** Only the letters A to Z change, each to its small letter. */
  lemma LoweredLetters(k: nat, c: char)
    requires k < 26
    ensures LowerChar((('A' as int) + k) as char) == (('a' as int) + k) as char
    ensures !('A' <= c <= 'Z') ==> LowerChar(c) == c
  {
  }

  // ----- Decimal numerals -----

  function Digit(d: nat): char
    requires d < 10
  {
    "0123456789"[d]
  }

  predicate IsDigit(c: char) { '0' <= c <= '9' }

  function DigitValue(c: char): (d: nat)
    requires IsDigit(c)
    ensures d < 10
  {
    (c as int) - ('0' as int)
  }

  predicate AllDigits(s: string) {
    forall i :: 0 <= i < |s| ==> IsDigit(s[i])
  }

  function Decimal(n: nat): (s: string)
    ensures s != [] && AllDigits(s)
  {
    if n < 10 then [Digit(n)] else Decimal(n / 10) + [Digit(n % 10)]
  }

  function DecimalValue(s: string): nat
    requires AllDigits(s)
  {
    if s == [] then 0 else 10 * DecimalValue(s[..|s| - 1]) + DigitValue(s[|s| - 1])
  }

  lemma {:induction false} ValueOfDecimal(n: nat)
    ensures DecimalValue(Decimal(n)) == n
  {
    if n >= 10 {
      ValueOfDecimal(n / 10);
      assert Decimal(n)[..|Decimal(n)| - 1] == Decimal(n / 10);
    } else {
      assert [Digit(n)][..0] == [];
    }
  }

  lemma DecimalInjective(m: nat, n: nat)
    requires Decimal(m) == Decimal(n)
    ensures m == n
  {
    ValueOfDecimal(m);
    ValueOfDecimal(n);
  }

  // ----- Order -----

  /** Byte order on names and identifiers. */
  predicate LexLeq(a: string, b: string) {
    a == [] || (b != [] && (a[0] < b[0] || (a[0] == b[0] && LexLeq(a[1..], b[1..]))))
  }

  lemma {:induction false} LexTotal(a: string, b: string)
    ensures LexLeq(a, b) || LexLeq(b, a)
  {
    if a != [] && b != [] { LexTotal(a[1..], b[1..]); }
  }

  lemma {:induction false} LexTransitive(a: string, b: string, c: string)
    requires LexLeq(a, b) && LexLeq(b, c)
    ensures LexLeq(a, c)
  {
    if a != [] && b[0] == a[0] && c[0] == a[0] { LexTransitive(a[1..], b[1..], c[1..]); }
  }

  lemma {:induction false} LexAntisymmetric(a: string, b: string)
    requires LexLeq(a, b) && LexLeq(b, a)
    ensures a == b
  {
    if a != [] {
      LexAntisymmetric(a[1..], b[1..]);
      assert a == [a[0]] + a[1..] && b == [b[0]] + b[1..];
    }
  }

  /** One text comes before another when it is a prefix, or smaller where they first differ. */
  lemma {:induction false} LexLeqMeaning(a: string, b: string)
    ensures LexLeq(a, b) <==>
              a <= b || exists k :: 0 <= k < |a| && k < |b| && a[..k] == b[..k] && a[k] < b[k]
  {
    if a != [] && b != [] && a[0] == b[0] {
      LexLeqMeaning(a[1..], b[1..]);
      assert a == [a[0]] + a[1..] && b == [b[0]] + b[1..];
      if LexLeq(a, b) && !(a <= b) {
        assert !(a[1..] <= b[1..]);
        var k :| 0 <= k < |a[1..]| && k < |b[1..]| && a[1..][..k] == b[1..][..k] && a[1..][k] < b[1..][k];
        assert a[..k + 1] == [a[0]] + a[1..][..k] && b[..k + 1] == [b[0]] + b[1..][..k];
        assert a[k + 1] < b[k + 1];
      }
      if k :| 0 <= k < |a| && k < |b| && a[..k] == b[..k] && a[k] < b[k] {
        assert k > 0;
        assert a[1..][..k - 1] == a[..k][1..] && b[1..][..k - 1] == b[..k][1..];
        assert a[1..][k - 1] < b[1..][k - 1];
      }
    } else if a != [] && b != [] {
      assert a[..0] == b[..0];
    }
  }

  // ----- File names -----

  /** Index of the last `c`, or -1. */
  function LastIndexOf(s: string, c: char): (i: int)
    ensures -1 <= i < |s|
    ensures i >= 0 ==> s[i] == c
    ensures forall j :: i < j < |s| ==> s[j] != c
  {
    if s == [] then -1 else if s[|s| - 1] == c then |s| - 1 else LastIndexOf(s[..|s| - 1], c)
  }

  /** Stem and extension: a name without a dot, or whose only dot comes first, has no extension. */
  function NameParts(name: string): (string, Option<string>) {
    var i := LastIndexOf(name, '.');
    if name == ".." || i <= 0 then (name, None) else (name[..i], Some(name[i + 1..]))
  }

  /** The n-th alternative for a name already taken. */
  function Numbered(name: string, n: nat): string {
    var (stem, extension) := NameParts(name);
    stem + "-" + Decimal(n) + if extension.Some? then "." + extension.value else ""
  }

  /** A name with an extension splits at its last dot, and is numbered before it. */
  lemma NameWithExtension(stem: string, extension: string, n: nat)
    requires stem != "" && '.' !in extension && stem + "." + extension != ".."
    ensures NameParts(stem + "." + extension) == (stem, Some(extension))
    ensures Numbered(stem + "." + extension, n) == stem + "-" + Decimal(n) + "." + extension
  {
    var name := stem + "." + extension;
    var i := LastIndexOf(name, '.');
    assert name[|stem|] == '.';
    assert forall j :: |stem| < j < |name| ==> name[j] == extension[j - |stem| - 1];
    assert i == |stem|;
    assert name[..i] == stem && name[i + 1..] == extension;
    assert stem + "-" + Decimal(n) + ("." + extension) == stem + "-" + Decimal(n) + "." + extension;
  }

  /** A name whose only dot, if any, comes first is numbered at its end. */
  lemma NameWithoutExtension(name: string, n: nat)
    requires forall i :: 0 < i < |name| ==> name[i] != '.'
    ensures NameParts(name) == (name, None) && Numbered(name, n) == name + "-" + Decimal(n)
  {
    assert name + "-" + Decimal(n) + "" == name + "-" + Decimal(n);
  }

  lemma NumberedInjective(name: string, m: nat, n: nat)
    requires Numbered(name, m) == Numbered(name, n)
    ensures m == n
  {
    var (stem, extension) := NameParts(name);
    var tail := if extension.Some? then "." + extension.value else "";
    Middle(stem + "-", Decimal(m), Decimal(n), tail);
    DecimalInjective(m, n);
  }

  lemma Middle(before: string, x: string, y: string, after: string)
    requires before + x + after == before + y + after
    ensures x == y
  {
    assert |x| == |y|;
    assert x == (before + x + after)[|before|..|before| + |x|];
    assert y == (before + y + after)[|before|..|before| + |y|];
  }

  /** A numbered name is longer than the original, so never equal to it. */
  lemma NumberedIsLonger(name: string, n: nat)
    ensures |Numbered(name, n)| > |name|
  {
  }

  /** The n-th candidate: the name itself, then its numbered alternatives. */
  function Candidate(name: string, n: nat): string {
    if n == 0 then name else Numbered(name, n)
  }

  lemma CandidatesAreDistinct(name: string, m: nat, n: nat)
    requires Candidate(name, m) == Candidate(name, n)
    ensures m == n
  {
    if m == 0 && n > 0 { NumberedIsLonger(name, n); }
    if n == 0 && m > 0 { NumberedIsLonger(name, m); }
    if m > 0 && n > 0 { NumberedInjective(name, m, n); }
  }

  /** Pigeonhole: a set holding `n` candidates has at least `n` elements. */
  lemma {:induction false} CandidatesFill(name: string, from: nat, n: nat, taken: set<string>)
    requires forall k :: from <= k < from + n ==> Candidate(name, k) in taken
    ensures |taken| >= n
    decreases n
  {
    if n > 0 {
      var last := from + n - 1;
      forall k | from <= k < last ensures Candidate(name, k) in taken - {Candidate(name, last)} {
        if Candidate(name, k) == Candidate(name, last) { CandidatesAreDistinct(name, k, last); }
      }
      CandidatesFill(name, from, n - 1, taken - {Candidate(name, last)});
    }
  }
}
