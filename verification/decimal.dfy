/**
 * Decimal text of integers, as JavaScript's template literals print them
 * (`${n}`), and the reading back of such text. The reading is the partner
 * that shows the printing loses nothing.
 */
module Decimal {

  predicate IsDigit(c: char)
  {
    '0' <= c <= '9'
  }

  predicate AllDigits(s: string)
  {
    forall i | 0 <= i < |s| :: IsDigit(s[i])
  }

  function DigitChar(d: nat): (c: char)
    requires d < 10
    ensures IsDigit(c)
    ensures c as int - '0' as int == d
  {
    ('0' as int + d) as char
  }

  /** The value of a decimal digit; any other character counts as 0. */
  function DigitValue(c: char): (d: nat)
    ensures d < 10
  {
    if IsDigit(c) then c as int - '0' as int else 0
  }

  /** `${n}` for a non-negative integer: decimal digits without leading zeros. */
  function NatToString(n: nat): (s: string)
    ensures |s| > 0
    decreases n
  {
    if n < 10 then [DigitChar(n)] else NatToString(n / 10) + [DigitChar(n % 10)]
  }

  /** The printed form holds only digits and starts with a zero only for zero itself. */
  lemma {:induction false} NatToStringDigits(n: nat)
    ensures AllDigits(NatToString(n))
    ensures NatToString(n)[0] == '0' <==> n == 0
    decreases n
  {
    if n >= 10 {
      NatToStringDigits(n / 10);
      var s := NatToString(n);
      assert s[0] == NatToString(n / 10)[0];
    }
  }

  /** `${i}` for any integer: a minus sign before the digits of a negative number. */
  function IntToString(i: int): (s: string)
    ensures |s| > 0
  {
    if i < 0 then "-" + NatToString(-i) else NatToString(i)
  }

  /** The value of the digits `s[lo..hi]`, read most significant digit first. */
  function DigitsIn(s: string, lo: nat, hi: nat): nat
    requires lo <= hi <= |s|
    decreases hi - lo
  {
    if lo == hi then 0 else DigitsIn(s, lo, hi - 1) * 10 + DigitValue(s[hi - 1])
  }

  /** The value of a whole string of decimal digits. */
  function DigitsValue(s: string): nat
  {
    DigitsIn(s, 0, |s|)
  }

  /** Digits read inside a prefix are not affected by what follows the prefix. */
  lemma {:induction false} DigitsInPrefix(a: string, b: string, lo: nat, hi: nat)
    requires lo <= hi <= |a|
    ensures DigitsIn(a + b, lo, hi) == DigitsIn(a, lo, hi)
    decreases hi - lo
  {
    if lo < hi {
      DigitsInPrefix(a, b, lo, hi - 1);
      assert (a + b)[hi - 1] == a[hi - 1];
    }
  }

  /** Digits read after a prefix are read as in the text without it. */
  lemma {:induction false} DigitsInShift(a: string, b: string, lo: nat, hi: nat)
    requires lo <= hi <= |b|
    ensures DigitsIn(a + b, |a| + lo, |a| + hi) == DigitsIn(b, lo, hi)
    decreases hi - lo
  {
    if lo < hi {
      DigitsInShift(a, b, lo, hi - 1);
      assert (a + b)[|a| + hi - 1] == b[hi - 1];
    }
  }

  /** Reading back the printed digits yields the number printed. */
  lemma {:induction false} DigitsValueOfNatToString(n: nat)
    ensures DigitsValue(NatToString(n)) == n
    decreases n
  {
    if n >= 10 {
      var p := NatToString(n / 10);
      var c := DigitChar(n % 10);
      assert NatToString(n) == p + [c];
      DigitsInPrefix(p, [c], 0, |p|);
      DigitsValueOfNatToString(n / 10);
      assert (p + [c])[|p|] == c;
      assert DigitValue(c) == n % 10;
      assert DigitsIn(p + [c], 0, |p| + 1) == DigitsIn(p + [c], 0, |p|) * 10 + DigitValue(c);
    } else {
      assert DigitsIn(NatToString(n), 0, 1) == DigitsIn(NatToString(n), 0, 0) * 10 + n;
    }
  }

  /** The index at which the run of decimal digits starting at `i` ends. */
  function DigitsEnd(s: string, i: nat): (k: nat)
    requires i <= |s|
    ensures i <= k <= |s|
    decreases |s| - i
  {
    if i < |s| && IsDigit(s[i]) then DigitsEnd(s, i + 1) else i
  }

  /** The run of digits ends where the digits stop. */
  lemma {:induction false} DigitsEndOfRun(s: string, i: nat, j: nat)
    requires i <= j <= |s|
    requires forall x | i <= x < j :: IsDigit(s[x])
    requires j == |s| || !IsDigit(s[j])
    ensures DigitsEnd(s, i) == j
    decreases j - i
  {
    if i < j {
      DigitsEndOfRun(s, i + 1, j);
    }
  }

  /** A run of digits after a prefix ends where it ends in the text without the prefix. */
  lemma {:induction false} DigitsEndShift(a: string, b: string, i: nat)
    requires i <= |b|
    ensures DigitsEnd(a + b, |a| + i) == |a| + DigitsEnd(b, i)
    decreases |b| - i
  {
    if i < |b| {
      assert (a + b)[|a| + i] == b[i];
      if IsDigit(b[i]) {
        DigitsEndShift(a, b, i + 1);
      }
    }
  }
}
