/**
 * Size strings and size display of the command-line tool: `GetValue`,
 * `ParseBytes` and the integer and unit part of `FormatSize` (Program.cs).
 */
module Sizes {
  import opened Ints
  import opened Wrappers

  // ---------------------------------------------------------------------
  // Decimal integers (`long.TryParse` / `int.TryParse`)
  // ---------------------------------------------------------------------

  predicate IsDigit(c: char) {
    '0' <= c <= '9'
  }

  predicate AllDigits(s: string) {
    forall i :: 0 <= i < |s| ==> IsDigit(s[i])
  }

  /** The value of a string of decimal digits, most significant first. */
  function DigitsValue(s: string): nat
    requires AllDigits(s)
    decreases |s|
  {
    if s == [] then 0
    else DigitsValue(s[..|s| - 1]) * 10 + (s[|s| - 1] as int - '0' as int)
  }

  /** The shortest decimal rendering of `n` (what `n.ToString()` gives). */
  function Decimal(n: nat): (s: string)
    ensures |s| > 0 && AllDigits(s)
  {
    if n < 10 then ['0' + n as char]
    else Decimal(n / 10) + ['0' + (n % 10) as char]
  }

  lemma {:induction false} DecimalValue(n: nat)
    ensures DigitsValue(Decimal(n)) == n
  {
    if n >= 10 {
      var s := Decimal(n);
      assert s[..|s| - 1] == Decimal(n / 10);
      DecimalValue(n / 10);
    }
  }

  /**
   * An optional sign followed by at least one decimal digit, accepted when
   * its value lies in `lo..hi` (the range of the target integer type).
   */
  function ParseInteger(s: string, lo: int, hi: int): (r: Option<int>)
    ensures r.Some? ==> lo <= r.value <= hi
    ensures r.Some? ==> |s| > 0 && (IsDigit(s[0]) || s[0] == '-' || s[0] == '+')
  {
    var negative := |s| > 0 && s[0] == '-';
    var digits := if |s| > 0 && (s[0] == '-' || s[0] == '+') then s[1..] else s;
    if digits == [] || !AllDigits(digits) then None
    else
      var v := if negative then -(DigitsValue(digits) as int) else DigitsValue(digits);
      if lo <= v <= hi then Some(v) else None
  }

  /** Every in-range decimal rendering is read back as the number it renders. */
  lemma {:induction false} DecimalParses(n: nat, lo: int, hi: int)
    ensures lo <= n <= hi ==> ParseInteger(Decimal(n), lo, hi) == Some(n)
    ensures lo <= -(n as int) <= hi ==> ParseInteger("-" + Decimal(n), lo, hi) == Some(-(n as int))
  {
    DecimalValue(n);
    assert ("-" + Decimal(n))[1..] == Decimal(n);
  }

  /** `GetValue`: the `long` the text denotes, or 0 when `long.TryParse` rejects it. */
  function GetValue(s: string): (r: Int64)
    ensures ParseInteger(s, INT64_MIN, INT64_MAX).None? ==> r == 0
    ensures ParseInteger(s, INT64_MIN, INT64_MAX).Some? ==> ParseInteger(s, INT64_MIN, INT64_MAX) == Some(r)
  {
    match ParseInteger(s, INT64_MIN, INT64_MAX)
    case Some(v) => v
    case None => 0
  }

  /** Text that is not a signed run of digits is worth 0. */
  lemma {:induction false} GetValueMalformed(s: string)
    requires |s| > 0 && !IsDigit(s[0]) && s[0] != '-' && s[0] != '+'
    ensures GetValue(s) == 0
  {
  }

  /**
   * The rendering of a `long` is worth that `long`: a magnitude up to
   * `INT64_MAX` with or without a minus sign, and `INT64_MIN` with one.
   */
  lemma {:induction false} GetValueDecimal(n: nat)
    requires n <= -INT64_MIN
    ensures n <= INT64_MAX ==> GetValue(Decimal(n)) == n
    ensures GetValue("-" + Decimal(n)) == -(n as int)
  {
    DecimalParses(n, INT64_MIN, INT64_MAX);
  }

  // ---------------------------------------------------------------------
  // Lower-casing (`string.ToLower`, ASCII letters only)
  // ---------------------------------------------------------------------

  function Lower(c: char): char {
    if 'A' <= c <= 'Z' then c - 'A' + 'a' else c
  }

  function LowerText(s: string): (r: string)
    ensures |r| == |s| && forall i :: 0 <= i < |s| ==> r[i] == Lower(s[i])
  {
    seq(|s|, i requires 0 <= i < |s| => Lower(s[i]))
  }

  /** Lower-casing never changes whether or how a text parses as a number. */
  lemma {:induction false} ParseIgnoresCase(s: string, lo: int, hi: int)
    ensures ParseInteger(LowerText(s), lo, hi) == ParseInteger(s, lo, hi)
  {
    var t := LowerText(s);
    if |s| > 0 && (s[0] == '-' || s[0] == '+') {
      assert t[1..] == LowerText(s[1..]);
    }
    var d := if |s| > 0 && (s[0] == '-' || s[0] == '+') then s[1..] else s;
    var e := if |t| > 0 && (t[0] == '-' || t[0] == '+') then t[1..] else t;
    assert |e| == |d| && forall i :: 0 <= i < |d| ==> e[i] == Lower(d[i]);
    if AllDigits(d) {
      assert e == d;
    } else {
      var j :| 0 <= j < |d| && !IsDigit(d[j]);
      assert !IsDigit(e[j]);
    }
  }

  // ---------------------------------------------------------------------
  // ParseBytes
  // ---------------------------------------------------------------------

  /** The unit letters `ParseBytes` knows, lower case. */
  predicate IsUnit(c: char) {
    c in "sbkmg"
  }

  /** Bytes per unit: a sector is 512 bytes; k, m and g are powers of 1024. */
  function Multiplier(unit: char): (r: nat)
    requires IsUnit(unit)
    ensures r > 0
  {
    match unit
    case 's' => 512
    case 'b' => 1
    case 'k' => 1024
    case 'm' => 1024 * 1024
    case 'g' => 1024 * 1024 * 1024
  }

  /**
   * The unit's `switch` case: unchecked 64-bit products, evaluated left to
   * right as `val * 1024 * 1024 * 1024` is. A product that fits in a `long`,
   * of either sign, is exact.
   */
  function Scaled(val: Int64, unit: char): (r: Int64)
    requires IsUnit(unit)
    ensures INT64_MIN <= val * Multiplier(unit) <= INT64_MAX ==> r == val * Multiplier(unit)
  {
    match unit
    case 's' => Wrap64(val * 512)
    case 'b' => val
    case 'k' => Wrap64(val * 1024)
    case 'm' =>
      var kilo := val * 1024;
      FactorFits(kilo, 1024);
      assert kilo * 1024 == val * Multiplier(unit);
      Wrap64(Wrap64(kilo) * 1024)
    case 'g' =>
      var kilo := val * 1024;
      var mega := kilo * 1024;
      FactorFits(kilo, 1024);
      FactorFits(mega, 1024);
      assert mega * 1024 == val * Multiplier(unit);
      Wrap64(Wrap64(Wrap64(kilo) * 1024) * 1024)
  }

  /** A factor of a product that fits in a `long` fits too. */
  lemma FactorFits(v: int, k: int)
    requires k >= 1
    ensures INT64_MIN <= v * k <= INT64_MAX ==> INT64_MIN <= v <= INT64_MAX
  {
    if v > 0 {
      assert v * k >= v;
    } else {
      assert v * k <= v;
    }
  }

  /** The step-by-step wrapped product is the wrapped full product. */
  lemma {:induction false} ScaledIsProduct(val: Int64, unit: char)
    requires IsUnit(unit)
    ensures Scaled(val, unit) == Wrap64(val * Multiplier(unit))
  {
    var v: int := val;
    if unit == 'm' || unit == 'g' {
      var kilo := v * 1024;
      var mega := kilo * 1024;
      WrapMul(kilo, 1024);
      if unit == 'm' {
        assert mega == v * Multiplier(unit);
      } else {
        var giga := mega * 1024;
        assert giga == v * Multiplier(unit);
        WrapMul(mega, 1024);
      }
    }
  }

  /**
   * `ParseBytes`: a number with an optional unit letter, as a byte count.
   * `None` stands for the exception `Substring(0, Length - 1)` raises on the
   * empty string.
   */
  function ParseBytes(s: string): (r: Option<Int64>)
    ensures r.None? <==> s == []
    ensures s == "0" ==> r == Some(0)
  {
    if s == "0" then Some(0)
    else if s == [] then None
    else
      var val := GetValue(s[..|s| - 1]);
      var lower := LowerText(s);
      var unit := lower[|lower| - 1];
      if IsUnit(unit) then Some(Scaled(val, unit))
      else Some(GetValue(lower))
  }

  /**
   * A text ending in a unit letter of either case is its numeric prefix
   * (worth 0 when malformed) times the unit, wrapped to 64 bits.
   */
  lemma {:induction false} ParseBytesWithUnit(prefix: string, unit: char)
    requires IsUnit(Lower(unit))
    ensures ParseBytes(prefix + [unit]) == Some(Wrap64(GetValue(prefix) * Multiplier(Lower(unit))))
  {
    var s := prefix + [unit];
    assert s[..|s| - 1] == prefix;
    assert s != "0";
    assert LowerText(s)[|s| - 1] == Lower(unit);
    ScaledIsProduct(GetValue(prefix), Lower(unit));
  }

  /** The decimal rendering of `n` with a unit letter parses to `n` bytes times the unit. */
  lemma {:induction false} ParseBytesDecimal(n: nat, unit: char)
    requires IsUnit(Lower(unit))
    requires n * Multiplier(Lower(unit)) <= INT64_MAX
    ensures ParseBytes(Decimal(n) + [unit]) == Some(n * Multiplier(Lower(unit)))
  {
    assert n <= n * Multiplier(Lower(unit));
    GetValueDecimal(n);
    ParseBytesWithUnit(Decimal(n), unit);
  }

  /** Without a unit letter at the end the whole text is read as a `long`. */
  lemma {:induction false} ParseBytesNoUnit(s: string)
    requires s != [] && !IsUnit(Lower(s[|s| - 1]))
    ensures ParseBytes(s) == Some(GetValue(s))
  {
    if s == "0" {
      assert s == Decimal(0);
      GetValueDecimal(0);
    }
    ParseIgnoresCase(s, INT64_MIN, INT64_MAX);
  }

  // ---------------------------------------------------------------------
  // FormatSize (integer and unit part)
  // ---------------------------------------------------------------------

  datatype Unit = Bytes | KB | MB | GB | TB

  /** What `FormatSize` prints: an integer, a unit, and whether a fraction follows. */
  datatype SizeLabel = SizeLabel(whole: int, unit: Unit, fraction: bool)

  /** Number of divisions by 1024 behind a unit. */
  function Exponent(u: Unit): nat {
    match u
    case Bytes => 0
    case KB => 1
    case MB => 2
    case GB => 3
    case TB => 4
  }

  /** 1024 to the given power, for the powers `FormatSize` uses. */
  function Scale(k: nat): (r: nat)
    requires k <= 4
    ensures r > 0
  {
    if k == 0 then 1
    else if k == 1 then 1024
    else if k == 2 then 1024 * 1024
    else if k == 3 then 1024 * 1024 * 1024
    else 1024 * 1024 * 1024 * 1024
  }

  /**
   * `FormatSize`. Each step keeps the remainder of the last division
   * (`size & 1023`) and divides by 1024; only the last remainder decides
   * whether a fraction is shown. Exactly the sizes below 1024 are shown in
   * bytes, as they are; any other size is shown as at least 1 of its unit,
   * and below 1024 of it unless the unit is TB.
   */
  function FormatSize(size: Int64): (r: SizeLabel)
    ensures r.unit == Bytes <==> size < 1024
    ensures r.unit == Bytes ==> r.whole == size && !r.fraction
    ensures r.unit != Bytes ==> 1 <= r.whole && (r.unit != TB ==> r.whole < 1024)
  {
    if size < 1024 then SizeLabel(size, Bytes, false)
    else
      var rem1, s1 := size % 1024, size / 1024;
      if s1 < 1024 then SizeLabel(s1, KB, rem1 != 0)
      else
        var rem2, s2 := s1 % 1024, s1 / 1024;
        if s2 < 1024 then SizeLabel(s2, MB, rem2 != 0)
        else
          var rem3, s3 := s2 % 1024, s2 / 1024;
          if s3 < 1024 then SizeLabel(s3, GB, rem3 != 0)
          else
            var rem4, s4 := s3 % 1024, s3 / 1024;
            SizeLabel(s4, TB, rem4 != 0)
  }

  lemma {:induction false} DivDiv(x: nat, k: nat)
    requires k < 4
    ensures x / Scale(k) / 1024 == x / Scale(k + 1)
  {
  }

  /**
   * Sizes below 1024, negative ones included, are shown in bytes. Any other
   * size is shown as size / 1024^k for the smallest k in 1..3 that brings it
   * below 1024, and k = 4 (TB) otherwise; a fraction follows exactly when the
   * last division left a remainder.
   */
  lemma {:induction false} FormatSizeScale(size: Int64)
    ensures size < 1024 ==> FormatSize(size) == SizeLabel(size, Bytes, false)
    ensures size >= 1024 ==>
      var r := FormatSize(size);
      var k := Exponent(r.unit);
      1 <= k <= 4 &&
      r.whole == size / Scale(k) &&
      (k < 4 ==> r.whole < 1024) &&
      size / Scale(k - 1) >= 1024 &&
      r.fraction == (size / Scale(k - 1) % 1024 != 0)
  {
    if size >= 1024 {
      DivDiv(size, 1);
      DivDiv(size, 2);
      DivDiv(size, 3);
    }
  }

  lemma {:induction false} FormatSizeExamples()
    ensures FormatSize(1023) == SizeLabel(1023, Bytes, false)
    ensures FormatSize(1024) == SizeLabel(1, KB, false)
    ensures FormatSize(1536) == SizeLabel(1, KB, true)
    ensures FormatSize(1048576) == SizeLabel(1, MB, false)
    ensures FormatSize(-5) == SizeLabel(-5, Bytes, false)
  {
  }
}
