/** The `--timeout` / `--interval` / `--poll-interval` parser; durations are milliseconds. */
module Durations {
  import opened Common
  import opened Text

  datatype DurationError = MissingSuffix | InvalidNumber | NotPositive | TooLarge

  const MAX_BARRIER_INTERVAL: nat := 5_000
  const DEFAULT_BARRIER_INTERVAL: nat := 1_000

  /** Decimal digits with an optional plus sign, in 64 bits. */
  function ParseU64(s: string): Option<nat> {
    var digits := if s != [] && s[0] == '+' then s[1..] else s;
    if digits == [] || !AllDigits(digits) || DecimalValue(digits) > U64_MAX then None
    else Some(DecimalValue(digits))
  }

  /** The number text and its unit, with "ms" tried before "s" and "m". */
  function SplitUnit(value: string): (r: Option<(string, nat)>)
    ensures r.Some? ==> r.value.1 > 0 && r.value.0 < value
  {
    var n := |value|;
    if n >= 2 && value[n - 2] == 'm' && value[n - 1] == 's' then Some((value[..n - 2], 1))
    else if n >= 1 && value[n - 1] == 's' then Some((value[..n - 1], 1_000))
    else if n >= 1 && value[n - 1] == 'm' then Some((value[..n - 1], 60_000))
    else if n >= 1 && value[n - 1] == 'h' then Some((value[..n - 1], 3_600_000))
    else None
  }

  function ParseDuration(text: string): (r: Result<nat, DurationError>)
    ensures r.Ok? ==> 0 < r.value <= U64_MAX
  {
    var split := SplitUnit(Trim(text));
    if split.None? then Err(MissingSuffix)
    else
      var (number, multiplier) := split.value;
      var parsed := ParseU64(number);
      if parsed.None? then Err(InvalidNumber)
      else if parsed.value == 0 then Err(NotPositive)
      else if parsed.value * multiplier > U64_MAX then Err(TooLarge)
      else
        assert parsed.value * multiplier > 0 by { PositiveProduct(parsed.value, multiplier); }
        Ok(parsed.value * multiplier)
  }

  lemma PositiveProduct(a: nat, b: nat)
    requires a > 0 && b > 0
    ensures a * b > 0
  {
  }

  datatype TimeUnit = Millis | Seconds | Minutes | Hours {
    function Suffix(): string {
      match this case Millis => "ms" case Seconds => "s" case Minutes => "m" case Hours => "h"
    }
    function Factor(): nat {
      match this case Millis => 1 case Seconds => 1_000 case Minutes => 60_000 case Hours => 3_600_000
    }
  }

  lemma SplitUnitOf(number: string, unit: TimeUnit)
    requires number != [] && IsDigit(number[|number| - 1])
    ensures SplitUnit(number + unit.Suffix()) == Some((number, unit.Factor()))
  {
    var value := number + unit.Suffix();
    assert value[..|number|] == number;
    assert IsDigit(value[|number| - 1]);
  }

  /** A printed duration, with any whitespace around it, is read back exactly when it is positive and fits 64 bits. */
  lemma ParsePrinted(before: string, n: nat, unit: TimeUnit, after: string)
    requires forall i :: 0 <= i < |before| ==> IsWhitespace(before[i])
    requires forall i :: 0 <= i < |after| ==> IsWhitespace(after[i])
    ensures ParseDuration(before + (Decimal(n) + unit.Suffix() + after)) ==
            if n > U64_MAX then Err(InvalidNumber)
            else if n == 0 then Err(NotPositive)
            else if n * unit.Factor() > U64_MAX then Err(TooLarge)
            else Ok(n * unit.Factor())
  {
    var digits := Decimal(n);
    var value := digits + unit.Suffix();
    assert IsDigit(digits[0]) && Trimmed(value);
    TrimAround(before, value, after);
    SplitUnitOf(digits, unit);
    ParseSplit(before + (value + after), n, unit);
  }

  lemma ParseSplit(text: string, n: nat, unit: TimeUnit)
    requires SplitUnit(Trim(text)) == Some((Decimal(n), unit.Factor()))
    ensures ParseDuration(text) ==
            if n > U64_MAX then Err(InvalidNumber)
            else if n == 0 then Err(NotPositive)
            else if n * unit.Factor() > U64_MAX then Err(TooLarge)
            else Ok(n * unit.Factor())
  {
    assert IsDigit(Decimal(n)[0]);
    ValueOfDecimal(n);
  }

  /** Digits with an optional plus sign. */
  predicate IsNumeral(number: string, n: nat) {
    var digits := if number != [] && number[0] == '+' then number[1..] else number;
    digits != [] && AllDigits(digits) && DecimalValue(digits) == n
  }

  ghost predicate Denotes(text: string, n: nat, unit: TimeUnit) {
    exists number :: Trim(text) == number + unit.Suffix() && IsNumeral(number, n)
  }

  predicate InRange(n: nat, unit: TimeUnit) {
    0 < n <= U64_MAX && n * unit.Factor() <= U64_MAX
  }

  /** The accepted texts are exactly a numeral and a unit, between any whitespace, of a positive duration that fits 64 bits. */
  lemma ParsedExactly(text: string, ms: nat)
    ensures ParseDuration(text) == Ok(ms) <==>
            exists n: nat, unit: TimeUnit :: Denotes(text, n, unit) && InRange(n, unit) && ms == n * unit.Factor()
  {
    if ParseDuration(text) == Ok(ms) {
      var n, unit := ParsedDenotes(text);
    }
    forall n: nat, unit: TimeUnit | Denotes(text, n, unit) && InRange(n, unit)
      ensures ParseDuration(text) == Ok(n * unit.Factor())
    {
      DenotedParses(text, n, unit);
    }
  }

  lemma ParsedDenotes(text: string) returns (n: nat, unit: TimeUnit)
    requires ParseDuration(text).Ok?
    ensures Denotes(text, n, unit) && InRange(n, unit) && ParseDuration(text) == Ok(n * unit.Factor())
  {
    unit := UnitOf(Trim(text));
    var number := SplitUnit(Trim(text)).value.0;
    n := ParseU64(number).value;
    assert Trim(text) == number + unit.Suffix() && IsNumeral(number, n);
  }

  lemma DenotedParses(text: string, n: nat, unit: TimeUnit)
    requires Denotes(text, n, unit) && InRange(n, unit)
    ensures ParseDuration(text) == Ok(n * unit.Factor())
  {
    var number :| Trim(text) == number + unit.Suffix() && IsNumeral(number, n);
    NumeralParses(number, n);
    SplitUnitOf(number, unit);
    assert SplitUnit(Trim(text)) == Some((number, unit.Factor()));
  }

  lemma NumeralParses(number: string, n: nat)
    requires IsNumeral(number, n) && n <= U64_MAX
    ensures ParseU64(number) == Some(n) && number != [] && IsDigit(number[|number| - 1])
  {
  }

  /** A unit is found exactly when the text ends in one of the suffixes. */
  lemma SuffixExactly(value: string)
    ensures SplitUnit(value).Some? <==> exists number, unit: TimeUnit :: value == number + unit.Suffix()
  {
    if SplitUnit(value).Some? {
      var unit := UnitOf(value);
      assert value == SplitUnit(value).value.0 + unit.Suffix();
    }
    if number, unit: TimeUnit :| value == number + unit.Suffix() { SuffixIsFound(number, unit); }
  }

  lemma MissingSuffixExactly(text: string)
    ensures ParseDuration(text) == Err(MissingSuffix) <==> SplitUnit(Trim(text)).None?
  {
  }

  /** Before a unit: no 64-bit numeral, zero, or a product that does not fit. */
  lemma NumberErrorsExactly(text: string, number: string, factor: nat)
    requires SplitUnit(Trim(text)) == Some((number, factor))
    ensures var r := ParseDuration(text);
            && (r == Err(InvalidNumber) <==> forall n: nat :: n <= U64_MAX ==> !IsNumeral(number, n))
            && (r == Err(NotPositive) <==> IsNumeral(number, 0))
            && (r == Err(TooLarge) <==> exists n: nat :: 0 < n <= U64_MAX && IsNumeral(number, n) && n * factor > U64_MAX)
  {
    NumeralIsUnique(number);
    var parsed := ParseU64(number);
    if parsed.Some? {
      assert IsNumeral(number, parsed.value);
      assert forall n: nat :: IsNumeral(number, n) ==> n == parsed.value;
    }
  }

  lemma SuffixIsFound(number: string, unit: TimeUnit)
    ensures SplitUnit(number + unit.Suffix()).Some?
  {
  }

  lemma NumeralIsUnique(number: string)
    ensures forall n: nat :: IsNumeral(number, n) && n <= U64_MAX <==> ParseU64(number) == Some(n)
  {
  }

  lemma UnitOf(value: string) returns (unit: TimeUnit)
    requires SplitUnit(value).Some?
    ensures unit.Factor() == SplitUnit(value).value.1 && value == SplitUnit(value).value.0 + unit.Suffix()
  {
    var n := |value|;
    unit := if n >= 2 && value[n - 2..] == "ms" then Millis else if value[n - 1] == 's' then Seconds
            else if value[n - 1] == 'm' then Minutes else Hours;
    assert value == value[..n - |unit.Suffix()|] + value[n - |unit.Suffix()|..];
    assert value[n - |unit.Suffix()|..] == unit.Suffix();
  }

  /** The interval a barrier polls with, from its optional argument. */
  function BarrierInterval(argument: Option<string>): (r: Result<nat, DurationError>)
    ensures r.Ok? ==> 0 < r.value <= MAX_BARRIER_INTERVAL
    ensures argument.None? ==> r == Ok(DEFAULT_BARRIER_INTERVAL)
    ensures argument.Some? ==>
              var parsed := ParseDuration(argument.value);
              && (r.Err? <==> parsed.Err?) && (r.Err? ==> r.error == parsed.error)
              && (r.Ok? ==> r.value <= parsed.value && (r.value == parsed.value || r.value == MAX_BARRIER_INTERVAL))
  {
    if argument.None? then Ok(DEFAULT_BARRIER_INTERVAL)
    else
      var parsed := ParseDuration(argument.value);
      if parsed.Err? then parsed
      else Ok(if parsed.value <= MAX_BARRIER_INTERVAL then parsed.value else MAX_BARRIER_INTERVAL)
  }
}
