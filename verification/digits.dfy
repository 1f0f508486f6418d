// The digits that writeNum prints (src/signal-safe.hpp): from the most significant on, stopping as
// soon as nothing is left.
module Digits {
  const BASE := 10
  const SIZE_MAX := 0xFFFF_FFFF_FFFF_FFFF

  function Pow10(k: nat): (p: nat)
    ensures p > 0
  {
    if k == 0 then 1 else BASE * Pow10(k - 1)
  }

  // v followed by k zeros: v * 10^k (see ShiftIsTimes)
  function Shift(v: nat, k: nat): (r: nat)
    ensures r >= v
  {
    if k == 0 then v else BASE * Shift(v, k - 1)
  }

  lemma {:induction false} ShiftIsTimes(v: nat, k: nat)
    ensures Shift(v, k) == v * Pow10(k)
  {
    if k > 0 {
      ShiftIsTimes(v, k - 1);
      assert v * (BASE * Pow10(k - 1)) == BASE * (v * Pow10(k - 1));
    }
  }

  lemma {:induction false} ShiftSum(a: nat, b: nat, k: nat)
    ensures Shift(a + b, k) == Shift(a, k) + Shift(b, k)
  {
    if k > 0 {
      ShiftSum(a, b, k - 1);
    }
  }

  lemma {:induction false} ShiftTwice(v: nat, a: nat, b: nat)
    ensures Shift(Shift(v, a), b) == Shift(v, a + b)
  {
    if b > 0 {
      ShiftTwice(v, a, b - 1);
    }
  }

  function Digit(n: nat): char
    requires n < BASE
  {
    ('0' as int + n) as char
  }

  // What the printing loop emits, with the divisor 10^(k-1) to begin with.
  function Emitted(n: nat, k: nat): (s: string)
    requires n < Pow10(k)
    ensures |s| <= k
  {
    if n == 0 then ""
    else
      var d := Pow10(k - 1);
      DivBound(n, d);
      [Digit(n / d)] + Emitted(n % d, k - 1)
  }

  lemma DivBound(n: nat, d: nat)
    requires 0 < d && n < BASE * d
    ensures n / d < BASE && n % d < d && n == n / d * d + n % d
  {
  }

  lemma Unfold(n: nat, k: nat) returns (q: nat, r: nat)
    requires 0 < n < Pow10(k)
    ensures k > 0 && q < BASE && r < Pow10(k - 1) && n == Shift(q, k - 1) + r
    ensures Emitted(n, k) == [Digit(q)] + Emitted(r, k - 1)
  {
    var d := Pow10(k - 1);
    DivBound(n, d);
    q, r := n / d, n % d;
    ShiftIsTimes(q, k - 1);
  }

  // ---- the number that a string of digits stands for ----

  predicate IsDecimal(s: string) {
    forall i :: 0 <= i < |s| ==> '0' <= s[i] <= '9'
  }

  function Value(s: string): nat
    requires IsDecimal(s)
  {
    if s == "" then 0
    else Value(s[..|s| - 1]) * BASE + (s[|s| - 1] as int - '0' as int)
  }

  lemma {:induction false} ValueFront(q: nat, s: string)
    requires q < BASE && IsDecimal(s)
    ensures IsDecimal([Digit(q)] + s) && Value([Digit(q)] + s) == Shift(q, |s|) + Value(s)
  {
    var all := [Digit(q)] + s;
    if s == "" {
      assert all[..0] == "";
    } else {
      var init := s[..|s| - 1];
      assert all[..|all| - 1] == [Digit(q)] + init;
      ValueFront(q, init);
    }
  }

  // Only decimal digits, the last one not 0, and with the digits that were dropped put back as
  // zeros they give the number.
  ghost predicate Stands(s: string, n: nat, k: nat) {
    && |s| <= k && IsDecimal(s) && Shift(Value(s), k - |s|) == n
    && (n == 0 <==> s == "") && (s != "" ==> s[|s| - 1] != '0')
  }

  lemma {:induction false} EmittedValue(n: nat, k: nat)
    requires n < Pow10(k)
    ensures Stands(Emitted(n, k), n, k)
  {
    if n == 0 {
      ShiftIsTimes(0, k);
    } else {
      var q, r := Unfold(n, k);
      EmittedValue(r, k - 1);
      StandsStep(q, Emitted(r, k - 1), r, k - 1, n);
    }
  }

  lemma StandsStep(q: nat, rest: string, r: nat, k: nat, n: nat)
    requires q < BASE && Stands(rest, r, k) && n == Shift(q, k) + r && n > 0
    ensures Stands([Digit(q)] + rest, n, k + 1)
  {
    var j := k - |rest|;
    ValueFront(q, rest);
    ShiftTwice(q, |rest|, j);
    ShiftSum(Shift(q, |rest|), Value(rest), j);
    if q == 0 {
      ShiftIsTimes(0, k);
    }
  }

  // ---- a whole number ----

  // One more than the exponent of the largest power of ten that is no larger than the number.
  function Width(n: nat): (k: nat)
    ensures n < Pow10(k) && k > 0 && (k > 1 ==> Pow10(k - 1) <= n)
  {
    if n < BASE then 1 else Width(n / BASE) + 1
  }

  function Printed(n: nat): string {
    Emitted(n, Width(n))
  }

  // What stands for a number is the number without its trailing zeros.
  lemma StandsExactly(s: string, n: nat, k: nat)
    requires Stands(s, n, k) && n > 0
    ensures Value(s) % BASE != 0 && (Value(s) == n <==> n % BASE != 0)
  {
  }

  // What is printed is the number without its trailing zeros.
  lemma PrintedValue(n: nat)
    ensures Stands(Printed(n), n, Width(n))
  {
    EmittedValue(n, Width(n));
  }

  // The number is printed as it is exactly when it does not end in a zero; nothing is printed for 0.
  lemma PrintedExactly(n: nat)
    ensures var s := Printed(n);
      && IsDecimal(s) && (s == "" <==> n == 0)
      && (n > 0 ==> Value(s) % BASE != 0 && (Value(s) == n <==> n % BASE != 0))
  {
    PrintedValue(n);
    if n > 0 {
      StandsExactly(Printed(n), n, Width(n));
    }
  }
}
