/** Reading a stored counter: a decimal numeral within 32 bits, and zero for anything else. */
module Counters {
  import opened Prelude

  const MAX: nat := 0xFFFF_FFFF

  function DigitsValue(s: string): (r: Option<nat>) {
    if s == "" then Some(0)
    else
      var n := |s| - 1;
      var r := DigitsValue(s[..n]);
      if r.Some? && '0' <= s[n] <= '9' then Some(r.value * 10 + (s[n] as int - '0' as int)) else None
  }

  /** `parse::<u32>().unwrap_or(0)`: an optional plus sign and digits, within range. */
  function Count(raw: string): (n: nat)
    ensures n <= MAX
  {
    var digits := if raw != "" && raw[0] == '+' then raw[1..] else raw;
    var value := DigitsValue(digits);
    if digits != "" && value.Some? && value.value <= MAX then value.value else 0
  }

  // --- What a numeral is -----------------------------------------------------

  const DIGITS := "0123456789"

  function Digit(d: nat): (c: char)
    requires d < 10
    ensures '0' <= c <= '9' && c as int - '0' as int == d
  {
    DIGITS[d]
  }

  function Decimal(n: nat): (s: string)
    ensures s != ""
  {
    if n < 10 then [Digit(n)] else Decimal(n / 10) + [Digit(n % 10)]
  }

  function Zeros(k: nat): (s: string)
    ensures |s| == k
  {
    seq(k, _ => '0')
  }

  /** The number in decimal, after any number of zeros and at most one plus sign. */
  ghost predicate Numeral(raw: string, n: nat) {
    exists k: nat :: raw == Zeros(k) + Decimal(n) || raw == "+" + (Zeros(k) + Decimal(n))
  }

  lemma SnocValue(s: string, d: nat)
    requires d < 10 && DigitsValue(s).Some?
    ensures DigitsValue(s + [Digit(d)]) == Some(DigitsValue(s).value * 10 + d)
  {
    assert (s + [Digit(d)])[..|s|] == s;
  }

  lemma {:induction false} ZerosValue(k: nat)
    ensures DigitsValue(Zeros(k)) == Some(0)
  {
    if k > 0 {
      ZerosValue(k - 1);
      assert Zeros(k) == Zeros(k - 1) + [Digit(0)];
      SnocValue(Zeros(k - 1), 0);
    }
  }

  lemma {:induction false} DecimalValue(k: nat, n: nat)
    ensures DigitsValue(Zeros(k) + Decimal(n)) == Some(n)
  {
    if n < 10 {
      ZerosValue(k);
      SnocValue(Zeros(k), n);
    } else {
      DecimalValue(k, n / 10);
      SnocValue(Zeros(k) + Decimal(n / 10), n % 10);
      assert Zeros(k) + Decimal(n) == (Zeros(k) + Decimal(n / 10)) + [Digit(n % 10)];
    }
  }

  ghost predicate Padded(s: string, k: nat, n: nat) {
    s == Zeros(k) + Decimal(n)
  }

  /** One more digit: of a number, or of the first number after zeros. */
  lemma PaddedSnoc(s: string, k: nat, n: nat, d: nat)
    requires d < 10 && Padded(s, k, n)
    ensures Padded(s + [Digit(d)], if n == 0 then k + 1 else k, n * 10 + d)
  {
    if n == 0 {
      assert s == Zeros(k + 1);
    } else {
      assert (n * 10 + d) / 10 == n && (n * 10 + d) % 10 == d;
      assert s + [Digit(d)] == Zeros(k) + (Decimal(n) + [Digit(d)]);
    }
  }

  lemma LastDigit(s: string) returns (front: string, d: nat)
    requires s != "" && DigitsValue(s).Some?
    ensures d < 10 && s == front + [Digit(d)]
    ensures DigitsValue(front).Some? && DigitsValue(s).value == DigitsValue(front).value * 10 + d
  {
    front, d := s[..|s| - 1], s[|s| - 1] as int - '0' as int;
  }

  lemma {:induction false} ValueIsDecimal(s: string) returns (k: nat)
    requires s != "" && DigitsValue(s).Some?
    ensures Padded(s, k, DigitsValue(s).value)
    decreases |s|
  {
    var front, d := LastDigit(s);
    if front == "" {
      k := 0;
      assert Padded([Digit(d)], 0, d);
    } else {
      var zeros := ValueIsDecimal(front);
      PaddedSnoc(front, zeros, DigitsValue(front).value, d);
      k := if DigitsValue(front).value == 0 then zeros + 1 else zeros;
    }
  }

  lemma {:induction false} DigitsStart(s: string)
    requires s != "" && DigitsValue(s).Some?
    ensures s[0] != '+'
  {
    if |s| > 1 {
      DigitsStart(s[..|s| - 1]);
    }
  }

  /** The digits behind an optional plus sign. */
  function Unsigned(raw: string): (s: string) {
    if raw != "" && raw[0] == '+' then raw[1..] else raw
  }

  lemma NumeralIff(raw: string, n: nat)
    ensures Numeral(raw, n) <==> Unsigned(raw) != "" && DigitsValue(Unsigned(raw)) == Some(n)
  {
    var s := Unsigned(raw);
    if s != "" && DigitsValue(s) == Some(n) {
      var k := ValueIsDecimal(s);
      assert raw == s || raw == "+" + s;
    }
    if k: nat :| raw == Zeros(k) + Decimal(n) || raw == "+" + (Zeros(k) + Decimal(n)) {
      DecimalValue(k, n);
      DigitsStart(Zeros(k) + Decimal(n));
    }
  }

  /** A counter reads as `n` exactly when it is a numeral of `n` that fits; all others read as zero. */
  lemma CountIff(raw: string, n: nat)
    ensures Count(raw) == n <==>
            if n > 0 then n <= 4294967295 && Numeral(raw, n) else forall m: nat :: 0 < m <= 4294967295 ==> !Numeral(raw, m)
  {
    forall m: nat ensures Numeral(raw, m) <==> Unsigned(raw) != "" && DigitsValue(Unsigned(raw)) == Some(m) {
      NumeralIff(raw, m);
    }
  }

  lemma DecimalCounts(n: nat)
    requires n <= 4294967295
    ensures Count(Decimal(n)) == n
  {
    DecimalValue(0, n);
    assert Zeros(0) + Decimal(n) == Decimal(n);
    DigitsStart(Decimal(n));
  }
}
