/** Fixed-width decimals and the order of strings by code unit. */
module Digits {
  import opened Characters

  predicate AllDigits(s: string) { forall i :: 0 <= i < |s| ==> IsDigit(s[i]) }

  function Value(c: char): int { c as int - '0' as int }

  function Digit(d: int): (c: char)
    requires 0 <= d <= 9
    ensures IsDigit(c) && Value(c) == d
  {
    ('0' as int + d) as char
  }

  function Pow10(k: nat): (p: nat)
    ensures p > 0
  {
    if k == 0 then 1 else 10 * Pow10(k - 1)
  }

  /** padStart(k, '0') of a number of at most k digits. */
  function Pad(n: nat, k: nat): (s: string)
    ensures |s| == k && AllDigits(s)
  {
    if k == 0 then "" else Pad(n / 10, k - 1) + [Digit(n % 10)]
  }

  /** Number() of a string of digits. */
  function Num(s: string): int {
    if s == "" then 0 else 10 * Num(s[..|s| - 1]) + Value(s[|s| - 1])
  }

  lemma NumSnoc(front: string, d: int)
    requires 0 <= d <= 9
    ensures Num(front + [Digit(d)]) == 10 * Num(front) + d
  {
    assert (front + [Digit(d)])[..|front|] == front;
  }

  lemma LastDigit(n: nat, p: nat)
    requires n < 10 * p
    ensures n / 10 < p && n == 10 * (n / 10) + n % 10
  {
  }

  lemma {:induction false} NumOfPad(n: nat, k: nat)
    requires n < Pow10(k)
    ensures Num(Pad(n, k)) == n
  {
    if k > 0 {
      LastDigit(n, Pow10(k - 1));
      NumOfPad(n / 10, k - 1);
      NumSnoc(Pad(n / 10, k - 1), n % 10);
    }
  }

  lemma Recombined(q: nat, r: nat, p: nat)
    requires r <= 9 && q < p
    ensures (10 * q + r) / 10 == q && (10 * q + r) % 10 == r && 10 * q + r < 10 * p
  {
  }

  lemma DigitOfValue(c: char)
    requires IsDigit(c)
    ensures 0 <= Value(c) <= 9 && Digit(Value(c)) == c
  {
  }

  lemma {:induction false} PadOfNum(s: string)
    requires AllDigits(s)
    ensures 0 <= Num(s) < Pow10(|s|) && Pad(Num(s), |s|) == s
  {
    if s != "" {
      var front, last := s[..|s| - 1], s[|s| - 1];
      PadOfNum(front);
      DigitOfValue(last);
      Recombined(Num(front), Value(last), Pow10(|front|));
      assert s == front + [last];
    }
  }

  /** a < b as JavaScript compares strings. */
  predicate Before(a: string, b: string) {
    if b == "" then false
    else if a == "" then true
    else if a[0] != b[0] then a[0] < b[0]
    else Before(a[1..], b[1..])
  }

  /** Over strings of one length, fields compare from the left. */
  lemma {:induction false} FieldsCompare(a: string, b: string, c: string, d: string)
    requires |a| == |c|
    ensures Before(a + b, c + d) <==> Before(a, c) || (a == c && Before(b, d))
  {
    if a == "" {
      assert a + b == b && c + d == d;
    } else {
      assert (a + b)[1..] == a[1..] + b && (c + d)[1..] == c[1..] + d;
      FieldsCompare(a[1..], b, c[1..], d);
      assert a == [a[0]] + a[1..] && c == [c[0]] + c[1..];
    }
  }

  /** Padded numbers order as their strings do. */
  lemma {:induction false} PadOrder(m: nat, n: nat, k: nat)
    requires m < Pow10(k) && n < Pow10(k)
    ensures Before(Pad(m, k), Pad(n, k)) <==> m < n
    ensures Pad(m, k) == Pad(n, k) <==> m == n
  {
    NumOfPad(m, k);
    NumOfPad(n, k);
    if k > 0 {
      PadOrder(m / 10, n / 10, k - 1);
      FieldsCompare(Pad(m / 10, k - 1), [Digit(m % 10)], Pad(n / 10, k - 1), [Digit(n % 10)]);
      var x, y := [Digit(m % 10)], [Digit(n % 10)];
      assert x[1..] == "" && y[1..] == "";
      assert Before(x, y) <==> m % 10 < n % 10;
    }
  }
}
