/** ROS scalar values and the JSON values that stand for them. Integers of 64 bits
    travel as canonical decimal text, the narrower ones as JSON numbers. */
module JsonScalars {
  import opened Basics
  import opened Decimal

  /** A float as far as the codec looks at it. */
  datatype Float = Finite(x: real) | NonFinite

  const INT64: int := 0x8000_0000_0000_0000
  const UINT64: int := 0x1_0000_0000_0000_0000
  const NANOS: int := 1_000_000_000

  /** What a JSON integer node can hold. */
  type JsonInt = n: int | -INT64 <= n < UINT64

  datatype Json =
    | JNull
    | JBool(b: bool)
    | JInt(n: JsonInt)
    | JReal(f: Float)
    | JText(s: string)
    | JArr(items: seq<Json>)
    | JObj(members: map<string, Json>)

  datatype Width = W8 | W16 | W32 | W64

  datatype Scalar = TBool | TUnsigned(w: Width) | TSigned(w: Width) | TFloat32 | TFloat64 | TString | TTime | TDuration

  datatype Datum = Truth(b: bool) | Number(n: int) | Floating(f: Float) | Text(s: string) | Instant(sec: int, nsec: int)

  function Modulus(w: Width): (m: nat)
    ensures 0x100 <= m <= UINT64 && m % 2 == 0
  {
    match w
    case W8 => 0x100
    case W16 => 0x1_0000
    case W32 => 0x1_0000_0000
    case W64 => UINT64
  }

  predicate UnsignedFits(w: Width, n: int) {
    0 <= n < Modulus(w)
  }

  predicate SignedFits(w: Width, n: int) {
    0 - Modulus(w) / 2 <= n < Modulus(w) / 2
  }

  /** (2 - 2^-23) * 2^127 */
  function MaxFloat32(): real {
    340282346638528859811704183484516925440.0
  }

  predicate IsFloat32(f: Float) {
    f.Finite? ==> -MaxFloat32() <= f.x <= MaxFloat32()
  }

  /** Values a field of the type can hold. */
  predicate Holds(p: Scalar, v: Datum) {
    match p
    case TBool => v.Truth?
    case TUnsigned(w) => v.Number? && UnsignedFits(w, v.n)
    case TSigned(w) => v.Number? && SignedFits(w, v.n)
    case TFloat32 => v.Floating? && IsFloat32(v.f)
    case TFloat64 => v.Floating?
    case TString => v.Text?
    case TTime => v.Instant? && UnsignedFits(W32, v.sec) && UnsignedFits(W32, v.nsec)
    case TDuration => v.Instant? && SignedFits(W32, v.sec) && SignedFits(W32, v.nsec)
  }

  /** Finite floats and normalized times: the values JSON can carry. */
  predicate Portable(p: Scalar, v: Datum) {
    && Holds(p, v)
    && (v.Floating? ==> v.f.Finite?)
    && (v.Instant? ==> 0 <= v.nsec < NANOS)
  }

  // ---- Integers ----------------------------------------------------------

  function IntText(n: int): string {
    if n < 0 then "-" + ToText(-n) else ToText(n)
  }

  /** Canonical decimal text, with an optional sign and no negative zero. */
  predicate CanonicalInt(s: string) {
    if s != "" && s[0] == '-' then Canonical(s[1..]) && s != "-0" else Canonical(s)
  }

  function IntOf(s: string): int
    requires CanonicalInt(s)
  {
    if s[0] == '-' then 0 - Value(s[1..]) else Value(s)
  }

  lemma IntTextCanonical(n: int)
    ensures CanonicalInt(IntText(n)) && IntOf(IntText(n)) == n
  {
    var s := IntText(n);
    if n < 0 {
      assert s[1..] == ToText(-n);
      assert ToText(-n)[0] != '0';
      assert "-0"[1..] == "0";
    } else {
      assert IsDigit(s[0]);
    }
  }

  /** Accepted text and integers correspond one to one. */
  lemma IntTextUnique(s: string)
    requires CanonicalInt(s)
    ensures IntText(IntOf(s)) == s
  {
    if s[0] == '-' {
      var digits := s[1..];
      CanonicalUnique(digits);
      assert s == "-" + digits;
      assert "-0" == "-" + "0";
      assert digits[0] == '0' ==> digits == "0";
      CanonicalPositive(digits);
    } else {
      CanonicalUnique(s);
    }
  }

  /** The syntax check on integer text. */
  method CheckIntegerText(text: string) returns (ok: bool)
    ensures ok <==> CanonicalInt(text)
  {
    if text == "" {
      return false;
    }
    var first := if text[0] == '-' then 1 else 0;
    if first == |text| || !IsDigit(text[first]) || (text[first] == '0' && |text| != first + 1) {
      return false;
    }
    var digits := text[first..];
    for i := first + 1 to |text|
      invariant forall k | first <= k < i :: IsDigit(text[k])
    {
      if !IsDigit(text[i]) {
        assert !IsDigit(digits[i - first]);
        return false;
      }
    }
    assert forall k | 0 <= k < |digits| :: digits[k] == text[first + k];
    assert text == "-0" <==> first == 1 && digits == "0";
    return text != "-0";
  }

  predicate IsWhole(x: real) {
    x.Floor as real == x && -INT64 as real <= x < UINT64 as real
  }

  /** The integer a JSON value denotes: text, an integer node, or a real node that
      holds a whole number. */
  function IntegerOf(j: Json): Result<int, string> {
    match j
    case JText(s) => if CanonicalInt(s) then Ok(IntOf(s)) else Err("integer string must use canonical decimal syntax")
    case JInt(n) => Ok(n)
    case JReal(Finite(x)) => if IsWhole(x) then Ok(x.Floor) else Err("expected an integer or decimal integer string")
    case _ => Err("expected an integer or decimal integer string")
  }

  function SignedOf(j: Json, w: Width): Result<int, string> {
    var r := IntegerOf(j);
    if r.Ok? && !SignedFits(w, r.value) then Err("signed integer is outside the ROS field range") else r
  }

  function UnsignedOf(j: Json, w: Width): Result<int, string> {
    var r := IntegerOf(j);
    if r.Ok? && r.value < 0 then Err("unsigned integer must not be negative")
    else if r.Ok? && !UnsignedFits(w, r.value) then Err("unsigned integer is outside the ROS field range")
    else r
  }

  // ---- Other scalars -----------------------------------------------------

  function FloatOf(j: Json): Result<Datum, string> {
    match j
    case JInt(n) => Ok(Floating(Finite(n as real)))
    case JReal(Finite(x)) => Ok(Floating(Finite(x)))
    case JReal(NonFinite) => Err("non-finite floating point values are not supported")
    case _ => Err("expected a finite JSON number")
  }

  /** The two parts of a time or duration object. */
  function PartsOf(j: Json): Result<(Json, Json), string> {
    if !j.JObj? then Err("expected {secs, nsecs}")
    else if !(j.members.Keys <= {"secs", "nsecs"}) then Err("unknown field")
    else if "secs" !in j.members || "nsecs" !in j.members then Err("secs and nsecs are required")
    else Ok((j.members["secs"], j.members["nsecs"]))
  }

  function TimeOf(j: Json): Result<Datum, string> {
    var parts := PartsOf(j);
    if parts.Err? then Err(parts.reason)
    else
      var secs, nsecs := UnsignedOf(parts.value.0, W32), UnsignedOf(parts.value.1, W32);
      if secs.Err? then Err(secs.reason)
      else if nsecs.Err? then Err(nsecs.reason)
      else if nsecs.value >= NANOS then Err("ROS time nanoseconds must be below 1e9")
      else Ok(Instant(secs.value, nsecs.value))
  }

  /** The duration constructor carries a negative part into the seconds. */
  function Normalized(sec: int, nsec: int): Result<Datum, string> {
    if nsec >= 0 then Ok(Instant(sec, nsec))
    else if SignedFits(W32, sec - 1) then Ok(Instant(sec - 1, nsec + NANOS))
    else Err("Duration is out of dual 32-bit range")
  }

  function DurationOf(j: Json): Result<Datum, string> {
    var parts := PartsOf(j);
    if parts.Err? then Err(parts.reason)
    else
      var secs, nsecs := SignedOf(parts.value.0, W32), SignedOf(parts.value.1, W32);
      if secs.Err? then Err(secs.reason)
      else if nsecs.Err? then Err(nsecs.reason)
      else if nsecs.value <= -NANOS || nsecs.value >= NANOS then
        Err("ROS duration nanoseconds must be between -1e9 and 1e9")
      else Normalized(secs.value, nsecs.value)
  }

  function Numeric(r: Result<int, string>): Result<Datum, string> {
    if r.Ok? then Ok(Number(r.value)) else Err(r.reason)
  }

  function DecodeScalar(p: Scalar, j: Json): Result<Datum, string> {
    match p
    case TBool => if j.JBool? then Ok(Truth(j.b)) else Err("expected a boolean")
    case TUnsigned(w) => Numeric(UnsignedOf(j, w))
    case TSigned(w) => Numeric(SignedOf(j, w))
    case TFloat32 =>
      var r := FloatOf(j);
      if r.Ok? && r.value.Floating? && !IsFloat32(r.value.f) then Err("number is outside the ROS float32 range") else r
    case TFloat64 => FloatOf(j)
    case TString => if j.JText? then Ok(Text(j.s)) else Err("expected a string")
    case TTime => TimeOf(j)
    case TDuration => DurationOf(j)
  }

  function IntegerJson(w: Width, n: int): Json
    requires -INT64 <= n < UINT64
  {
    if w == W64 then JText(IntText(n)) else JInt(n)
  }

  function InstantJson(sec: int, nsec: int): Json
    requires -INT64 <= sec < UINT64 && -INT64 <= nsec < UINT64
  {
    JObj(map["secs" := JInt(sec), "nsecs" := JInt(nsec)])
  }

  function EncodeScalar(p: Scalar, v: Datum): Result<Json, string>
    requires Holds(p, v)
  {
    match p
    case TBool => Ok(JBool(v.b))
    case TUnsigned(w) => Ok(IntegerJson(w, v.n))
    case TSigned(w) => Ok(IntegerJson(w, v.n))
    case TFloat32 => if v.f.Finite? then Ok(JReal(v.f)) else Err("non-finite float32 cannot be represented as JSON")
    case TFloat64 => if v.f.Finite? then Ok(JReal(v.f)) else Err("non-finite float64 cannot be represented as JSON")
    case TString => Ok(JText(v.s))
    case TTime => Ok(InstantJson(v.sec, v.nsec))
    case TDuration => Ok(InstantJson(v.sec, v.nsec))
  }

  lemma IntegerRoundTrip(w: Width, n: int)
    requires -INT64 <= n < UINT64
    ensures IntegerOf(IntegerJson(w, n)) == Ok(n)
  {
    IntTextCanonical(n);
  }

  lemma PartsRoundTrip(sec: int, nsec: int)
    requires -INT64 <= sec < UINT64 && -INT64 <= nsec < UINT64
    ensures PartsOf(InstantJson(sec, nsec)) == Ok((JInt(sec), JInt(nsec)))
  {
    assert InstantJson(sec, nsec).members.Keys == {"secs", "nsecs"};
  }

  lemma TimeRoundTrip(sec: int, nsec: int)
    requires UnsignedFits(W32, sec) && UnsignedFits(W32, nsec)
    ensures TimeOf(InstantJson(sec, nsec)) == Ok(Instant(sec, nsec)) <==> nsec < NANOS
  {
    PartsRoundTrip(sec, nsec);
  }

  lemma DurationRoundTrip(sec: int, nsec: int)
    requires SignedFits(W32, sec) && SignedFits(W32, nsec)
    ensures DurationOf(InstantJson(sec, nsec)) == Ok(Instant(sec, nsec)) <==> 0 <= nsec < NANOS
  {
    PartsRoundTrip(sec, nsec);
  }

  /** A scalar survives the trip exactly when it is portable. */
  lemma ScalarRoundTrip(p: Scalar, v: Datum)
    requires Holds(p, v)
    ensures Portable(p, v) <==> EncodeScalar(p, v).Ok? && DecodeScalar(p, EncodeScalar(p, v).value) == Ok(v)
  {
    match p
    case TUnsigned(w) => IntegerRoundTrip(w, v.n);
    case TSigned(w) => IntegerRoundTrip(w, v.n);
    case TTime => TimeRoundTrip(v.sec, v.nsec);
    case TDuration => DurationRoundTrip(v.sec, v.nsec);
    case _ =>
  }

  lemma TimeIsPortable(j: Json)
    ensures TimeOf(j).Ok? ==> Portable(TTime, TimeOf(j).value)
  {
  }

  lemma DurationIsPortable(j: Json)
    ensures DurationOf(j).Ok? ==> Portable(TDuration, DurationOf(j).value)
  {
  }

  /** Whatever the JSON, a decoded scalar is a portable value of its type. */
  lemma DecodedIsPortable(p: Scalar, j: Json)
    ensures DecodeScalar(p, j).Ok? ==> Portable(p, DecodeScalar(p, j).value)
  {
    match p
    case TTime => TimeIsPortable(j);
    case TDuration => DurationIsPortable(j);
    case _ =>
  }
}
