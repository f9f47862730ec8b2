/**
 Decimal text and ordered numbers: the digits of a table value (vm/vm.go), the
 number parser of the grammar (lex.go), how numbers are printed, and the search
 for a rule by its number.
 */
module Numbers {
  import opened Ipfw

  predicate IsDigit(c: char) { '0' <= c <= '9' }

  predicate AllDigits(s: string) { forall k :: 0 <= k < |s| ==> IsDigit(s[k]) }

  function Digit(c: char): nat
    requires IsDigit(c)
  {
    c as int - '0' as int
  }

  /** The number decimal digits spell. */
  function Decimal(s: string): nat
    requires AllDigits(s)
  {
    if s == "" then 0 else 10 * Decimal(s[..|s| - 1]) + Digit(s[|s| - 1])
  }

  /** How a number is printed: without leading zeros, and at least one digit. */
  function Print(n: nat): (s: string)
    ensures s != "" && AllDigits(s) && Decimal(s) == n
  {
    var last := ['0' + (n % 10) as char];
    if n < 10 then
      assert last[..0] == "";
      last
    else
      var s := Print(n / 10) + last;
      assert s[..|s| - 1] == Print(n / 10);
      s
  }

  lemma {:induction false} DecimalBound(s: string)
    requires AllDigits(s)
    ensures Decimal(s) < Pow10(|s|)
  {
    if s != "" {
      DecimalBound(s[..|s| - 1]);
    }
  }

  function Pow10(n: nat): nat { if n == 0 then 1 else 10 * Pow10(n - 1) }

  /** More digits never spell less. */
  lemma {:induction false} DecimalGrows(s: string, k: nat)
    requires AllDigits(s) && k <= |s|
    ensures Decimal(s[..k]) <= Decimal(s)
    decreases |s|
  {
    if k == |s| {
      assert s[..k] == s;
    } else {
      var t := s[..|s| - 1];
      DecimalGrows(t, k);
      assert t[..k] == s[..k];
    }
  }

  // ------------------------------------------------------------- table values

  /** Up to ten decimal digits that spell less than 2^32. */
  function TableNumber(value: string): Option<nat> {
    if value != "" && |value| <= 10 && AllDigits(value) && Decimal(value) < TWO32
    then Some(Decimal(value)) else None
  }

  /** Reads a table value digit by digit in 64 bits, which ten digits do not overflow. */
  method ReadTableNumber(value: string) returns (r: Option<nat>)
    ensures r == TableNumber(value)
  {
    if value == "" || |value| > 10 {
      return None;
    }
    var number := 0;
    for idx := 0 to |value|
      invariant AllDigits(value[..idx])
      invariant number == Decimal(value[..idx]) < Pow10(idx)
    {
      if !IsDigit(value[idx]) {
        return None;
      }
      ghost var more := value[..idx + 1];
      assert more[..idx] == value[..idx];
      DecimalBound(more);
      number := number * 10 + Digit(value[idx]);
    }
    assert value[..|value|] == value;
    return if number < TWO32 then Some(number) else None;
  }

  // ------------------------------------------------------ numbers of the grammar

  /** The digits a text starts with. */
  function DigitRun(s: string): (n: nat)
    ensures n <= |s| && AllDigits(s[..n]) && (n < |s| ==> !IsDigit(s[n]))
  {
    if s == "" || !IsDigit(s[0]) then 0
    else
      var n := 1 + DigitRun(s[1..]);
      assert forall k :: 0 < k < n ==> s[k] == s[1..][k - 1];
      n
  }

  /** The number at the front of a text and what follows it, none when there is no
      digit or the number is more than `max`. */
  function ParseUint(s: string, max: nat): (r: Option<(nat, string)>)
    ensures r.Some? ==> r.value.0 <= max && |r.value.1| < |s|
  {
    var n := DigitRun(s);
    if n > 0 && Decimal(s[..n]) <= max then Some((Decimal(s[..n]), s[n..])) else None
  }

  /** Computes `ParseUint` with a value that stays below 2^64 all along: the bound is
      looked at while the next digit is still outside. */
  method ReadUint(s: string, max: nat) returns (value: nat, rest: string, ok: bool)
    requires max in {0xff, 0xffff, 0xffff_ffff}
    ensures ok <==> ParseUint(s, max).Some?
    ensures ok ==> (value, rest) == ParseUint(s, max).value
    ensures !ok ==> value == 0 && rest == s
  {
    value := 0;
    var idx := 0;
    while idx < |s| && IsDigit(s[idx])
      invariant 0 <= idx <= |s| && AllDigits(s[..idx])
      invariant value == Decimal(s[..idx]) <= max
    {
      var digit := Digit(s[idx]);
      ghost var more := s[..idx + 1];
      assert more[..idx] == s[..idx];
      if value > (max - digit) / 10 {
        RunIs(s, idx + 1);
        DecimalGrows(s[..DigitRun(s)], idx + 1);
        assert s[..DigitRun(s)][..idx + 1] == more;
        return 0, s, false;
      }
      assert value * 10 + digit < 0x1_0000_0000_0000_0000;
      value := value * 10 + digit;
      idx := idx + 1;
    }
    RunIs(s, idx);
    if idx == 0 {
      return 0, s, false;
    }
    return value, s[idx..], true;
  }

  /** The digit run is at least any run of digits, and that run when it ends there. */
  lemma {:induction false} RunIs(s: string, n: nat)
    requires n <= |s| && AllDigits(s[..n])
    ensures n <= DigitRun(s)
    ensures n < |s| && !IsDigit(s[n]) ==> n == DigitRun(s)
    ensures n == |s| ==> n == DigitRun(s)
  {
    var run := DigitRun(s);
    assert forall k :: 0 <= k < n ==> s[..n][k] == s[k];
    assert forall k :: 0 <= k < run ==> s[..run][k] == s[k];
  }

  // ------------------------------------------------------------ ordered numbers

  ghost predicate Increasing(numbers: seq<nat>) {
    forall i, j :: 0 <= i < j < |numbers| ==> numbers[i] < numbers[j]
  }

  /** How many numbers are too small, when they go up. */
  function FirstFrom(numbers: seq<nat>, want: nat): (r: nat)
    ensures r <= |numbers|
    ensures forall k :: 0 <= k < r ==> numbers[k] < want
    ensures r < |numbers| ==> numbers[r] >= want
  {
    if numbers == [] || numbers[0] >= want then 0
    else
      var r := FirstFrom(numbers[1..], want);
      assert forall k :: 0 < k < 1 + r ==> numbers[k] == numbers[1..][k - 1];
      1 + r
  }

  /** The binary search of a rule by its number. */
  method SearchFrom(numbers: seq<nat>, want: nat) returns (r: nat)
    requires Increasing(numbers)
    ensures r == FirstFrom(numbers, want)
  {
    var lo, hi := 0, |numbers|;
    while lo < hi
      invariant 0 <= lo <= hi <= |numbers|
      invariant forall k :: 0 <= k < lo ==> numbers[k] < want
      invariant forall k :: hi <= k < |numbers| ==> numbers[k] >= want
    {
      var mid := (lo + hi) / 2;
      if numbers[mid] < want {
        lo := mid + 1;
      } else {
        hi := mid;
      }
    }
    r := lo;
    ghost var first := FirstFrom(numbers, want);
    assert r < |numbers| ==> numbers[r] >= want;
    assert first < |numbers| ==> numbers[first] >= want;
  }
}
