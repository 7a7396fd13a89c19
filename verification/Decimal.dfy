/** Decimal text and the numbers it denotes: canonical form, zero padding, and
    the arithmetic of appending digits. */
module Decimal {

  predicate IsDigit(c: char) {
    '0' <= c <= '9'
  }

  predicate AllDigits(s: string) {
    forall i | 0 <= i < |s| :: IsDigit(s[i])
  }

  function DigitOf(c: char): nat
    requires IsDigit(c)
  {
    c as int - '0' as int
  }

  function DigitChar(d: nat): (c: char)
    requires d < 10
    ensures IsDigit(c) && DigitOf(c) == d
  {
    ('0' as int + d) as char
  }

  function Pow10(k: nat): (p: nat)
    ensures p >= 1
  {
    if k == 0 then 1 else 10 * Pow10(k - 1)
  }

  function Value(s: string): nat
    requires AllDigits(s)
  {
    if s == [] then 0 else 10 * Value(s[..|s| - 1]) + DigitOf(s[|s| - 1])
  }

  /** No leading zero except in "0" itself: the form std::to_string and Python's
      str produce. */
  predicate Canonical(s: string) {
    s != "" && AllDigits(s) && (s[0] == '0' ==> |s| == 1)
  }

  function ToText(n: nat): (s: string)
    ensures Canonical(s)
    ensures Value(s) == n
    ensures s[0] == '0' <==> n == 0
  {
    if n < 10 then
      [DigitChar(n)]
    else
      var front := ToText(n / 10);
      var s := front + [DigitChar(n % 10)];
      assert s[..|s| - 1] == front;
      s
  }

  /** Canonical text is the only canonical text of its value, so parsing and
      printing are inverse in both directions. */
  lemma {:induction false} CanonicalUnique(s: string)
    requires Canonical(s)
    ensures ToText(Value(s)) == s
  {
    if |s| > 1 {
      var front := s[..|s| - 1];
      assert Canonical(front);
      CanonicalUnique(front);
      CanonicalPositive(front);
      assert s == front + [s[|s| - 1]];
      assert DigitChar(DigitOf(s[|s| - 1])) == s[|s| - 1];
    }
  }

  lemma {:induction false} CanonicalPositive(s: string)
    requires Canonical(s) && s[0] != '0'
    ensures Value(s) > 0
  {
    if |s| > 1 {
      CanonicalPositive(s[..|s| - 1]);
    }
  }

  function Zeros(k: nat): (s: string)
    ensures |s| == k
    ensures forall i | 0 <= i < k :: s[i] == '0'
  {
    if k == 0 then "" else "0" + Zeros(k - 1)
  }

  /** Python's str.zfill on unsigned text, and printf's %0<width>d. */
  function ZeroPad(n: nat, width: nat): (s: string)
    ensures AllDigits(s)
  {
    var text := ToText(n);
    if |text| >= width then text else Zeros(width - |text|) + text
  }

  lemma {:induction false} ZerosValue(k: nat)
    ensures Value(Zeros(k)) == 0
  {
    if k > 0 {
      ZerosValue(k - 1);
      assert Zeros(k)[..k - 1] == Zeros(k - 1);
    }
  }

  lemma {:induction false} ValueOfConcat(a: string, b: string)
    requires AllDigits(a) && AllDigits(b)
    ensures Value(a + b) == Value(a) * Pow10(|b|) + Value(b)
  {
    if b == "" {
      assert a + b == a;
    } else {
      var front := b[..|b| - 1];
      ValueOfConcat(a, front);
      assert (a + b)[..|a + b| - 1] == a + front;
      assert Value(a) * Pow10(|b|) == 10 * (Value(a) * Pow10(|front|));
    }
  }

  lemma ZeroPadValue(n: nat, width: nat)
    ensures Value(ZeroPad(n, width)) == n
  {
    var text := ToText(n);
    if |text| < width {
      ZerosValue(width - |text|);
      ValueOfConcat(Zeros(width - |text|), text);
    }
  }

  lemma {:induction false} ValueBound(s: string)
    requires AllDigits(s)
    ensures Value(s) < Pow10(|s|)
  {
    if s != "" {
      ValueBound(s[..|s| - 1]);
    }
  }

  /** Reading further digits never makes the number smaller. */
  lemma {:induction false} ValueMonotone(s: string, k: nat)
    requires AllDigits(s) && k <= |s|
    ensures Value(s[..k]) <= Value(s)
  {
    if k < |s| {
      var front := s[..|s| - 1];
      ValueMonotone(front, k);
      assert front[..k] == s[..k];
    } else {
      assert s[..k] == s;
    }
  }
}
