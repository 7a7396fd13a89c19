/** Decimal seconds to nanoseconds: which texts are accepted, and that the result is
    the exact value rounded up, without overflow. */
module ClockTarget {
  import opened Basics
  import opened Decimal

  const MAX_SECONDS: nat := 0xFFFF_FFFF
  const MAX_LENGTH: nat := 128
  const NANOS: nat := 1_000_000_000
  const UINT64: nat := 0x1_0000_0000_0000_0000

  /** Index of the first point, or the length. */
  function Point(text: string): (k: nat)
    ensures k <= |text| && (k < |text| ==> text[k] == '.')
    ensures forall i | 0 <= i < k :: text[i] != '.'
  {
    if text == "" || text[0] == '.' then 0 else 1 + Point(text[1..])
  }

  function Whole(text: string): string {
    text[..Point(text)]
  }

  function Fraction(text: string): string {
    if Point(text) < |text| then text[Point(text) + 1..] else ""
  }

  predicate WellFormed(text: string) {
    && |text| <= MAX_LENGTH && Whole(text) != "" && AllDigits(Whole(text)) && AllDigits(Fraction(text))
    && (Point(text) < |text| ==> Fraction(text) != "")
  }

  /** The denoted value, counted in units of the last decimal place. */
  function Units(whole: string, fraction: string): nat
    requires AllDigits(whole) && AllDigits(fraction)
  {
    Value(whole) * Pow10(|fraction|) + Value(fraction)
  }

  predicate InRange(whole: string, fraction: string)
    requires AllDigits(whole) && AllDigits(fraction)
  {
    Units(whole, fraction) <= MAX_SECONDS * Pow10(|fraction|)
  }

  /** t is the least whole number at or above v units of size NANOS / scale. */
  predicate IsCeiling(t: nat, v: nat, scale: nat) {
    t * scale >= v * NANOS && (t > 0 ==> (t - 1) * scale < v * NANOS)
  }

  // ---- Arithmetic --------------------------------------------------------

  lemma {:induction false} PowAdd(a: nat, b: nat)
    ensures Pow10(a + b) == Pow10(a) * Pow10(b)
  {
    if a > 0 {
      PowAdd(a - 1, b);
      assert Pow10(a) * Pow10(b) == 10 * (Pow10(a - 1) * Pow10(b));
    }
  }

  lemma PowNine()
    ensures Pow10(9) == NANOS
  {
    assert Pow10(3) == 1000;
    PowAdd(3, 3);
    PowAdd(6, 3);
  }

  lemma Monotone(a: nat, b: nat, c: nat)
    requires a <= b
    ensures a * c <= b * c
  {
  }

  lemma Regroup(v: nat, p: nat, q: nat)
    ensures (v * q) * p == v * (p * q)
  {
  }

  lemma Below(v: nat, p: nat, q: nat)
    requires v < p && q >= 1
    ensures v * q < p * q
  {
    Monotone(v + 1, p, q);
  }

  /** Fewer than nine places: nothing is rounded. */
  lemma ShortFraction(f: string, n: nat)
    requires AllDigits(f) && |f| <= 9 && n == Value(f) * Pow10(9 - |f|)
    ensures n * Pow10(|f|) == Value(f) * NANOS && n < NANOS
  {
    PowNine();
    PowAdd(|f|, 9 - |f|);
    ValueBound(f);
    Regroup(Value(f), Pow10(|f|), Pow10(9 - |f|));
    Below(Value(f), Pow10(|f|), Pow10(9 - |f|));
  }

  lemma CeilingStep(a: nat, r: nat, q: nat, n: nat)
    requires r < q && n == a + (if r > 0 then 1 else 0)
    ensures n * q >= a * q + r && (n > 0 ==> (n - 1) * q < a * q + r)
  {
    if r > 0 {
      assert n * q == a * q + q;
      assert (n - 1) * q == a * q;
    } else if n > 0 {
      assert (n - 1) * q == a * q - q;
    }
  }

  /** More than nine places: the tail only decides whether to round up. */
  lemma LongFraction(f: string, n: nat)
    requires AllDigits(f) && |f| > 9
    requires n == Value(f[..9]) + (if Value(f[9..]) > 0 then 1 else 0)
    ensures IsCeiling(n, Value(f), Pow10(|f|)) && n <= NANOS
  {
    PowNine();
    var a, r, q := Value(f[..9]), Value(f[9..]), Pow10(|f| - 9);
    assert f == f[..9] + f[9..];
    ValueOfConcat(f[..9], f[9..]);
    ValueBound(f[9..]);
    ValueBound(f[..9]);
    PowAdd(9, |f| - 9);
    CeilingStep(a, r, q, n);
    Scaled(n, Value(f), q);
  }

  lemma Scaled(n: nat, v: nat, q: nat)
    requires n * q >= v && (n > 0 ==> (n - 1) * q < v)
    ensures IsCeiling(n, v, NANOS * q)
  {
    assert n * (NANOS * q) == (n * q) * NANOS;
    if n > 0 {
      assert (n - 1) * (NANOS * q) == ((n - 1) * q) * NANOS;
    }
  }

  /** Whole seconds shift a ceiling without changing what it rounds. */
  lemma CeilingShift(s: nat, n: nat, v: nat, scale: nat)
    requires scale >= 1 && IsCeiling(n, v, scale)
    ensures IsCeiling(s * NANOS + n, s * scale + v, scale)
  {
    var t := s * NANOS + n;
    assert t * scale == (s * scale) * NANOS + n * scale;
    assert (s * scale + v) * NANOS == (s * scale) * NANOS + v * NANOS;
    if t > 0 {
      assert (t - 1) * scale == t * scale - scale;
      assert (n - 1) * scale == n * scale - scale;
    }
  }

  lemma LexicographicBound(s: nat, f: nat, p: nat, max: nat)
    requires f < p
    ensures s * p + f <= max * p <==> s < max || (s == max && f == 0)
  {
    if s < max {
      Monotone(s + 1, max, p);
    } else if s > max {
      Monotone(max + 1, s, p);
    }
  }

  /** In range means: below the largest second, or exactly on it. */
  lemma RangeSplit(whole: string, fraction: string)
    requires AllDigits(whole) && AllDigits(fraction)
    ensures InRange(whole, fraction) <==>
            Value(whole) < MAX_SECONDS || (Value(whole) == MAX_SECONDS && Value(fraction) == 0)
  {
    ValueBound(fraction);
    LexicographicBound(Value(whole), Value(fraction), Pow10(|fraction|), MAX_SECONDS);
  }

  /** A ceiling is zero exactly when what it rounds is. */
  lemma CeilingZero(n: nat, v: nat, scale: nat)
    requires scale >= 1 && IsCeiling(n, v, scale)
    ensures n == 0 <==> v == 0
  {
    if n > 0 {
      Monotone(0, n - 1, scale);
    }
  }

  // ---- The parser --------------------------------------------------------

  method ReadSeconds(whole: string) returns (r: Result<nat, string>)
    ensures r.Ok? <==> AllDigits(whole) && Value(whole) <= MAX_SECONDS
    ensures r.Ok? ==> r.value == Value(whole)
  {
    var seconds: nat := 0;
    for i := 0 to |whole|
      invariant AllDigits(whole[..i]) && seconds == Value(whole[..i]) <= MAX_SECONDS
    {
      var digit := whole[i];
      if !IsDigit(digit) {
        return Err("target is outside ROS time");
      }
      assert whole[..i + 1][..i] == whole[..i];
      if AllDigits(whole) {
        ValueMonotone(whole, i + 1);
      }
      if seconds > MAX_SECONDS / 10 {
        return Err("target is outside ROS time");
      }
      assert seconds * 10 + 9 < UINT64;
      seconds := seconds * 10 + DigitOf(digit);
      if seconds > MAX_SECONDS {
        return Err("target is outside ROS time");
      }
    }
    assert whole[..|whole|] == whole;
    r := Ok(seconds);
  }

  lemma OneMore(s: string, from: nat, i: nat)
    requires from <= i < |s| && AllDigits(s[from..i]) && IsDigit(s[i])
    ensures AllDigits(s[from..i + 1]) && Value(s[from..i + 1]) == 10 * Value(s[from..i]) + DigitOf(s[i])
  {
    assert s[from..i + 1] == s[from..i] + [s[i]];
    assert s[from..i + 1][..i - from] == s[from..i];
  }

  /** The first nine places as a number, and whether a later one is not zero. */
  method ReadPlaces(fraction: string) returns (r: Result<nat, string>, roundUp: bool)
    ensures r.Ok? <==> AllDigits(fraction)
    ensures r.Ok? ==> if |fraction| <= 9 then r.value == Value(fraction) && !roundUp
                      else r.value == Value(fraction[..9]) && (roundUp <==> Value(fraction[9..]) > 0)
  {
    var nanos: nat := 0;
    roundUp := false;
    for i := 0 to |fraction|
      invariant AllDigits(fraction[0..i])
      invariant i <= 9 ==> nanos == Value(fraction[..i]) && !roundUp
      invariant i > 9 ==> nanos == Value(fraction[..9]) && AllDigits(fraction[9..i])
                          && (roundUp <==> Value(fraction[9..i]) > 0)
    {
      var digit := fraction[i];
      if !IsDigit(digit) {
        return Err("invalid decimal target"), false;
      }
      OneMore(fraction, 0, i);
      if i < 9 {
        nanos := nanos * 10 + DigitOf(digit);
      } else {
        OneMore(fraction, 9, i);
        roundUp := roundUp || digit != '0';
      }
    }
    assert fraction[..|fraction|] == fraction;
    if |fraction| > 9 {
      assert fraction[9..|fraction|] == fraction[9..];
    }
    r := Ok(nanos);
  }

  lemma TenTimes(v: nat, k: nat)
    ensures v * Pow10(k) * 10 == v * Pow10(k + 1)
  {
    Regroup(v, 10, Pow10(k));
  }

  /** Missing places are zeros. */
  method FillPlaces(places: nat, missing: nat) returns (nanos: nat)
    ensures nanos == places * Pow10(missing)
  {
    nanos := places;
    for i := 0 to missing
      invariant nanos == places * Pow10(i)
    {
      TenTimes(places, i);
      nanos := nanos * 10;
    }
  }

  method ReadNanos(fraction: string) returns (r: Result<nat, string>)
    ensures r.Ok? <==> AllDigits(fraction)
    ensures r.Ok? ==> IsCeiling(r.value, Value(fraction), Pow10(|fraction|)) && r.value <= NANOS
  {
    var places, roundUp := ReadPlaces(fraction);
    if places.Err? {
      return places;
    }
    var nanos := places.value;
    if |fraction| <= 9 {
      nanos := FillPlaces(nanos, 9 - |fraction|);
      ShortFraction(fraction, nanos);
      Exact(nanos, Value(fraction), Pow10(|fraction|));
    }
    nanos := nanos + (if roundUp then 1 else 0);
    if |fraction| > 9 {
      LongFraction(fraction, nanos);
    }
    r := Ok(nanos);
  }

  lemma Exact(n: nat, v: nat, scale: nat)
    requires scale >= 1 && n * scale == v * NANOS
    ensures IsCeiling(n, v, scale)
  {
    if n > 0 {
      assert (n - 1) * scale == n * scale - scale;
    }
  }

  /** Accepts exactly the well-formed texts whose value fits, and returns the least
      nanosecond count not below that value. */
  method Target(text: string) returns (r: Result<nat, string>)
    ensures r.Ok? <==> WellFormed(text) && InRange(Whole(text), Fraction(text))
    ensures r.Ok? ==> r.value < UINT64
                      && IsCeiling(r.value, Units(Whole(text), Fraction(text)), Pow10(|Fraction(text)|))
  {
    var point := Point(text);
    var whole := text[..point];
    if whole == "" || |text| > MAX_LENGTH {
      return Err("target must be bounded nonnegative decimal seconds");
    }
    var seconds := ReadSeconds(whole);
    if AllDigits(Whole(text)) && AllDigits(Fraction(text)) {
      RangeSplit(Whole(text), Fraction(text));
    }
    if seconds.Err? {
      return seconds;
    }
    var nanos: Result<nat, string> := Ok(0);
    if point < |text| {
      if text[point + 1..] == "" {
        return Err("target has an empty fraction");
      }
      nanos := ReadNanos(text[point + 1..]);
      if nanos.Err? {
        return nanos;
      }
    }
    var fraction := Fraction(text);
    CeilingZero(nanos.value, Value(fraction), Pow10(|fraction|));
    if seconds.value == MAX_SECONDS && nanos.value != 0 {
      return Err("target is outside ROS time");
    }
    CeilingShift(seconds.value, nanos.value, Value(fraction), Pow10(|fraction|));
    r := Ok(seconds.value * NANOS + nanos.value);
  }

  /** The result is determined by the text: two ceilings of one value agree. */
  lemma CeilingUnique(t: nat, u: nat, v: nat, scale: nat)
    requires scale >= 1 && IsCeiling(t, v, scale) && IsCeiling(u, v, scale)
    ensures t == u
  {
    if t != u {
      Monotone(if t < u then t else u, (if t < u then u else t) - 1, scale);
    }
  }
}
