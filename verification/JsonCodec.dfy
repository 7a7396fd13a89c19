/** Dynamic ROS messages and JSON documents: decoding into a target message and
    encoding back, under limits on nesting and array length. */
module JsonCodec {
  import opened Basics
  import opened JsonScalars

  datatype Limits = Limits(depth: nat, elements: nat)

  datatype Size = Dynamic | Fixed(n: nat)

  datatype Type =
    | Single(p: Scalar)
    | Compound(fields: FieldTypes)
    | ScalarArray(p: Scalar, size: Size)
    | CompoundArray(fields: FieldTypes, size: Size)

  datatype FieldTypes = NoFields | Field(key: string, t: Type, more: FieldTypes)

  datatype Message = Leaf(v: Datum) | Record(fields: Fields) | Leaves(vs: seq<Datum>) | Records(rows: Rows)

  datatype Fields = End | Entry(m: Message, more: Fields)

  datatype Rows = NoRows | Row(fields: Fields, more: Rows)

  function Keys(ft: FieldTypes): set<string> {
    if ft.NoFields? then {} else {ft.key} + Keys(ft.more)
  }

  /** No compound names a field twice. */
  predicate Distinct(t: Type) {
    match t
    case Compound(fields) => DistinctFields(fields)
    case CompoundArray(fields, _) => DistinctFields(fields)
    case _ => true
  }

  predicate DistinctFields(ft: FieldTypes) {
    ft.Field? ==> ft.key !in Keys(ft.more) && Distinct(ft.t) && DistinctFields(ft.more)
  }

  function Length(rows: Rows): nat {
    if rows.NoRows? then 0 else 1 + Length(rows.more)
  }

  predicate Sized(size: Size, n: nat) {
    size.Fixed? ==> n == size.n
  }

  predicate AllHold(p: Scalar, vs: seq<Datum>) {
    forall i | 0 <= i < |vs| :: Holds(p, vs[i])
  }

  /** The message has the shape and the value ranges of the type. */
  predicate Typed(m: Message, t: Type)
    decreases t, 0
  {
    match t
    case Single(p) => m.Leaf? && Holds(p, m.v)
    case Compound(fields) => m.Record? && TypedFields(m.fields, fields)
    case ScalarArray(p, size) => m.Leaves? && AllHold(p, m.vs) && Sized(size, |m.vs|)
    case CompoundArray(fields, size) => m.Records? && TypedRows(m.rows, fields) && Sized(size, Length(m.rows))
  }

  predicate TypedFields(fs: Fields, ft: FieldTypes)
    decreases ft, 0
  {
    if ft.NoFields? then fs.End? else fs.Entry? && Typed(fs.m, ft.t) && TypedFields(fs.more, ft.more)
  }

  predicate TypedRows(rows: Rows, ft: FieldTypes)
    decreases ft, 1, rows
  {
    rows.Row? ==> TypedFields(rows.fields, ft) && TypedRows(rows.more, ft)
  }

  // ---- A fresh message ---------------------------------------------------

  function Zero(p: Scalar): (v: Datum)
    ensures Portable(p, v)
  {
    match p
    case TBool => Truth(false)
    case TUnsigned(_) => Number(0)
    case TSigned(_) => Number(0)
    case TFloat32 => Floating(Finite(0.0))
    case TFloat64 => Floating(Finite(0.0))
    case TString => Text("")
    case TTime => Instant(0, 0)
    case TDuration => Instant(0, 0)
  }

  function Count(size: Size): nat {
    if size.Fixed? then size.n else 0
  }

  function Fresh(t: Type): (m: Message)
    ensures Typed(m, t)
    decreases t, 0
  {
    match t
    case Single(p) => Leaf(Zero(p))
    case Compound(fields) => Record(FreshFields(fields))
    case ScalarArray(p, size) => Leaves(seq(Count(size), _ => Zero(p)))
    case CompoundArray(fields, size) => Records(FreshRows(fields, Count(size)))
  }

  function FreshFields(ft: FieldTypes): (fs: Fields)
    ensures TypedFields(fs, ft)
    decreases ft, 0
  {
    if ft.NoFields? then End else Entry(Fresh(ft.t), FreshFields(ft.more))
  }

  function FreshRows(ft: FieldTypes, n: nat): (rows: Rows)
    ensures TypedRows(rows, ft) && Length(rows) == n
    decreases ft, 1, n
  {
    if n == 0 then NoRows else Row(FreshFields(ft), FreshRows(ft, n - 1))
  }

  // ---- Decoding ----------------------------------------------------------

  /** The checks before an array is filled. `held` is the target's length. */
  function CheckArray(l: Limits, j: Json, size: Size, held: nat): Result<seq<Json>, string> {
    if !j.JArr? then Err("expected an array")
    else if |j.items| > l.elements then Err("maximum array element count exceeded")
    else if size.Fixed? && |j.items| != held then Err("fixed ROS array requires exactly its own number of elements")
    else if size.Dynamic? && held != 0 then Err("dynamic ROS array target must be empty before decoding")
    else Ok(j.items)
  }

  function DecodeLeaves(p: Scalar, items: seq<Json>): Result<seq<Datum>, string> {
    if items == [] then Ok([])
    else
      var front := DecodeLeaves(p, items[..|items| - 1]);
      if front.Err? then front
      else
        var v := DecodeScalar(p, items[|items| - 1]);
        if v.Err? then Err(v.reason) else Ok(front.value + [v.value])
  }

  function Decode(l: Limits, j: Json, t: Type, target: Message, depth: nat): Result<Message, string>
    requires Typed(target, t)
    decreases t, 0
  {
    if depth > l.depth then Err("maximum message nesting depth exceeded")
    else
      match t
      case Single(p) =>
        var v := DecodeScalar(p, j);
        if v.Err? then Err(v.reason) else Ok(Leaf(v.value))
      case Compound(fields) =>
        var r := DecodeRecord(l, j, fields, target.fields, depth);
        if r.Err? then Err(r.reason) else Ok(Record(r.value))
      case ScalarArray(p, size) =>
        var items := CheckArray(l, j, size, |target.vs|);
        if items.Err? then Err(items.reason)
        else
          var vs := DecodeLeaves(p, items.value);
          if vs.Err? then Err(vs.reason) else Ok(Leaves(vs.value))
      case CompoundArray(fields, size) =>
        var items := CheckArray(l, j, size, Length(target.rows));
        if items.Err? then Err(items.reason)
        else
          var rows := DecodeRows(l, items.value, fields, if size.Fixed? then target.rows else NoRows, depth + 1);
          if rows.Err? then Err(rows.reason) else Ok(Records(rows.value))
  }

  /** A compound at the given depth: only members that are present are decoded. */
  function DecodeRecord(l: Limits, j: Json, ft: FieldTypes, target: Fields, depth: nat): Result<Fields, string>
    requires TypedFields(target, ft)
    decreases ft, 1
  {
    if depth > l.depth then Err("maximum message nesting depth exceeded")
    else if !j.JObj? then Err("expected an object")
    else if !(j.members.Keys <= Keys(ft)) then Err("unknown field")
    else DecodeFields(l, j.members, ft, target, depth + 1)
  }

  function DecodeFields(l: Limits, members: map<string, Json>, ft: FieldTypes, target: Fields, depth: nat)
    : Result<Fields, string>
    requires TypedFields(target, ft)
    decreases ft, 0
  {
    if ft.NoFields? then Ok(End)
    else
      var m := if ft.key in members then Decode(l, members[ft.key], ft.t, target.m, depth) else Ok(target.m);
      if m.Err? then Err(m.reason)
      else
        var more := DecodeFields(l, members, ft.more, target.more, depth);
        if more.Err? then more else Ok(Entry(m.value, more.value))
  }

  /** Elements of a fixed array are decoded in place, those of a dynamic one into
      fresh messages. */
  function DecodeRows(l: Limits, items: seq<Json>, ft: FieldTypes, targets: Rows, depth: nat): Result<Rows, string>
    requires TypedRows(targets, ft)
    decreases ft, 2, |items|
  {
    if items == [] then Ok(NoRows)
    else
      var first := if targets.Row? then DecodeRecord(l, items[0], ft, targets.fields, depth)
                   else DecodeRecord(l, items[0], ft, FreshFields(ft), depth);
      if first.Err? then Err(first.reason)
      else
        var more := DecodeRows(l, items[1..], ft, if targets.Row? then targets.more else NoRows, depth);
        if more.Err? then more else Ok(Row(first.value, more.value))
  }

  // ---- Encoding ----------------------------------------------------------

  function EncodeLeaves(p: Scalar, vs: seq<Datum>): Result<seq<Json>, string>
    requires AllHold(p, vs)
  {
    if vs == [] then Ok([])
    else
      var front := EncodeLeaves(p, vs[..|vs| - 1]);
      if front.Err? then front
      else
        var j := EncodeScalar(p, vs[|vs| - 1]);
        if j.Err? then Err(j.reason) else Ok(front.value + [j.value])
  }

  function Encode(l: Limits, m: Message, t: Type, depth: nat): Result<Json, string>
    requires Typed(m, t)
    decreases t, 0
  {
    if depth > l.depth then Err("maximum message nesting depth exceeded")
    else
      match t
      case Single(p) => EncodeScalar(p, m.v)
      case Compound(fields) => EncodeRecord(l, m.fields, fields, depth)
      case ScalarArray(p, _) =>
        if |m.vs| > l.elements then Err("maximum array element count exceeded")
        else
          var items := EncodeLeaves(p, m.vs);
          if items.Err? then Err(items.reason) else Ok(JArr(items.value))
      case CompoundArray(fields, _) =>
        if Length(m.rows) > l.elements then Err("maximum array element count exceeded")
        else
          var items := EncodeRows(l, m.rows, fields, depth + 1);
          if items.Err? then Err(items.reason) else Ok(JArr(items.value))
  }

  function EncodeRecord(l: Limits, fs: Fields, ft: FieldTypes, depth: nat): Result<Json, string>
    requires TypedFields(fs, ft)
    decreases ft, 1
  {
    if depth > l.depth then Err("maximum message nesting depth exceeded")
    else
      var members := EncodeFields(l, fs, ft, depth + 1);
      if members.Err? then Err(members.reason) else Ok(JObj(members.value))
  }

  function EncodeFields(l: Limits, fs: Fields, ft: FieldTypes, depth: nat): Result<map<string, Json>, string>
    requires TypedFields(fs, ft)
    decreases ft, 0
  {
    if ft.NoFields? then Ok(map[])
    else
      var j := Encode(l, fs.m, ft.t, depth);
      if j.Err? then Err(j.reason)
      else
        var more := EncodeFields(l, fs.more, ft.more, depth);
        if more.Err? then more else Ok(map[ft.key := j.value] + more.value)
  }

  function EncodeRows(l: Limits, rows: Rows, ft: FieldTypes, depth: nat): Result<seq<Json>, string>
    requires TypedRows(rows, ft)
    decreases ft, 2, rows
  {
    if rows.NoRows? then Ok([])
    else
      var first := EncodeRecord(l, rows.fields, ft, depth);
      if first.Err? then Err(first.reason)
      else
        var more := EncodeRows(l, rows.more, ft, depth);
        if more.Err? then more else Ok([first.value] + more.value)
  }

  // ---- When encoding succeeds --------------------------------------------

  function Max(a: nat, b: nat): nat {
    if a < b then b else a
  }

  /** Levels of compounds below the message. */
  function Height(m: Message): nat {
    match m
    case Record(fields) => HeightOfFields(fields)
    case Records(rows) => HeightOfRows(rows)
    case _ => 0
  }

  function HeightOfFields(fs: Fields): nat {
    if fs.End? then 0 else Max(1 + Height(fs.m), HeightOfFields(fs.more))
  }

  function HeightOfRows(rows: Rows): nat {
    if rows.NoRows? then 0 else Max(1 + HeightOfFields(rows.fields), HeightOfRows(rows.more))
  }

  /** The longest array anywhere in the message. */
  function Longest(m: Message): nat {
    match m
    case Leaf(_) => 0
    case Record(fields) => LongestInFields(fields)
    case Leaves(vs) => |vs|
    case Records(rows) => Max(Length(rows), LongestInRows(rows))
  }

  function LongestInFields(fs: Fields): nat {
    if fs.End? then 0 else Max(Longest(fs.m), LongestInFields(fs.more))
  }

  function LongestInRows(rows: Rows): nat {
    if rows.NoRows? then 0 else Max(LongestInFields(rows.fields), LongestInRows(rows.more))
  }

  predicate FiniteDatum(v: Datum) {
    v.Floating? ==> v.f.Finite?
  }

  /** No float in the message is infinite or not a number. */
  predicate AllFinite(m: Message) {
    match m
    case Leaf(v) => FiniteDatum(v)
    case Record(fields) => FiniteFields(fields)
    case Leaves(vs) => forall i | 0 <= i < |vs| :: FiniteDatum(vs[i])
    case Records(rows) => FiniteRows(rows)
  }

  predicate FiniteFields(fs: Fields) {
    fs.Entry? ==> AllFinite(fs.m) && FiniteFields(fs.more)
  }

  predicate FiniteRows(rows: Rows) {
    rows.Row? ==> FiniteFields(rows.fields) && FiniteRows(rows.more)
  }

  lemma {:induction false} LeavesEncode(p: Scalar, vs: seq<Datum>)
    requires AllHold(p, vs)
    ensures EncodeLeaves(p, vs).Ok? <==> forall i | 0 <= i < |vs| :: FiniteDatum(vs[i])
  {
    if vs != [] {
      LeavesEncode(p, vs[..|vs| - 1]);
    }
  }

  /** A message encodes exactly when it fits the limits and holds finite floats. */
  lemma {:induction false} EncodesExactly(l: Limits, m: Message, t: Type, depth: nat)
    requires Typed(m, t)
    ensures Encode(l, m, t, depth).Ok? <==> depth + Height(m) <= l.depth && Longest(m) <= l.elements && AllFinite(m)
    decreases t, 0
  {
    match t
    case Single(p) =>
    case Compound(fields) => RecordEncodes(l, m.fields, fields, depth);
    case ScalarArray(p, _) => LeavesEncode(p, m.vs);
    case CompoundArray(fields, _) => RowsEncode(l, m.rows, fields, depth + 1);
  }

  lemma {:induction false} FieldsEncode(l: Limits, fs: Fields, ft: FieldTypes, depth: nat)
    requires TypedFields(fs, ft) && depth > 0
    ensures EncodeFields(l, fs, ft, depth).Ok?
            <==> (fs.End? || depth - 1 + HeightOfFields(fs) <= l.depth)
                 && LongestInFields(fs) <= l.elements && FiniteFields(fs)
    decreases ft, 0
  {
    if ft.Field? {
      EncodesExactly(l, fs.m, ft.t, depth);
      FieldsEncode(l, fs.more, ft.more, depth);
    }
  }

  lemma {:induction false} RecordEncodes(l: Limits, fs: Fields, ft: FieldTypes, depth: nat)
    requires TypedFields(fs, ft)
    ensures EncodeRecord(l, fs, ft, depth).Ok?
            <==> depth + HeightOfFields(fs) <= l.depth && LongestInFields(fs) <= l.elements && FiniteFields(fs)
    decreases ft, 1
  {
    FieldsEncode(l, fs, ft, depth + 1);
  }

  lemma {:induction false} RowsEncode(l: Limits, rows: Rows, ft: FieldTypes, depth: nat)
    requires TypedRows(rows, ft) && depth > 0
    ensures EncodeRows(l, rows, ft, depth).Ok?
            <==> (rows.NoRows? || depth - 1 + HeightOfRows(rows) <= l.depth)
                 && LongestInRows(rows) <= l.elements && FiniteRows(rows)
    decreases ft, 2, rows
  {
    if rows.Row? {
      RecordEncodes(l, rows.fields, ft, depth);
      RowsEncode(l, rows.more, ft, depth);
    }
  }

  // ---- The round trip ----------------------------------------------------

  predicate AllPortable(p: Scalar, vs: seq<Datum>) {
    forall i | 0 <= i < |vs| :: Portable(p, vs[i])
  }

  /** Finite floats and normalized times throughout. */
  predicate Carried(m: Message, t: Type)
    requires Typed(m, t)
    decreases t, 0
  {
    match t
    case Single(p) => Portable(p, m.v)
    case Compound(fields) => CarriedFields(m.fields, fields)
    case ScalarArray(p, _) => AllPortable(p, m.vs)
    case CompoundArray(fields, _) => CarriedRows(m.rows, fields)
  }

  predicate CarriedFields(fs: Fields, ft: FieldTypes)
    requires TypedFields(fs, ft)
    decreases ft, 0
  {
    ft.Field? ==> Carried(fs.m, ft.t) && CarriedFields(fs.more, ft.more)
  }

  predicate CarriedRows(rows: Rows, ft: FieldTypes)
    requires TypedRows(rows, ft)
    decreases ft, 1, rows
  {
    rows.Row? ==> CarriedFields(rows.fields, ft) && CarriedRows(rows.more, ft)
  }

  /** Every dynamic array the decoder would append to is empty. */
  predicate Receptive(m: Message, t: Type)
    requires Typed(m, t)
    decreases t, 0
  {
    match t
    case Single(p) => true
    case Compound(fields) => ReceptiveFields(m.fields, fields)
    case ScalarArray(p, size) => size.Fixed? || m.vs == []
    case CompoundArray(fields, size) => if size.Fixed? then ReceptiveRows(m.rows, fields) else m.rows.NoRows?
  }

  predicate ReceptiveFields(fs: Fields, ft: FieldTypes)
    requires TypedFields(fs, ft)
    decreases ft, 0
  {
    ft.Field? ==> Receptive(fs.m, ft.t) && ReceptiveFields(fs.more, ft.more)
  }

  predicate ReceptiveRows(rows: Rows, ft: FieldTypes)
    requires TypedRows(rows, ft)
    decreases ft, 1, rows
  {
    rows.Row? ==> ReceptiveFields(rows.fields, ft) && ReceptiveRows(rows.more, ft)
  }

  lemma {:induction false} FreshReceptive(t: Type)
    ensures Receptive(Fresh(t), t)
    decreases t, 0
  {
    match t
    case Compound(fields) => FreshFieldsReceptive(fields);
    case CompoundArray(fields, size) => FreshRowsReceptive(fields, Count(size));
    case _ =>
  }

  lemma {:induction false} FreshFieldsReceptive(ft: FieldTypes)
    ensures ReceptiveFields(FreshFields(ft), ft)
    decreases ft, 0
  {
    if ft.Field? {
      FreshReceptive(ft.t);
      FreshFieldsReceptive(ft.more);
    }
  }

  lemma {:induction false} FreshRowsReceptive(ft: FieldTypes, n: nat)
    ensures ReceptiveRows(FreshRows(ft, n), ft)
    decreases ft, 1, n
  {
    if n > 0 {
      FreshFieldsReceptive(ft);
      FreshRowsReceptive(ft, n - 1);
    }
  }

  lemma PortableSplit(p: Scalar, front: seq<Datum>, v: Datum)
    ensures AllPortable(p, front + [v]) <==> AllPortable(p, front) && Portable(p, v)
  {
    var vs := front + [v];
    if AllPortable(p, vs) {
      assert vs[|front|] == v;
      forall i | 0 <= i < |front| ensures Portable(p, front[i]) {
        assert vs[i] == front[i];
      }
    }
  }

  lemma DecodeSplit(p: Scalar, items: seq<Json>, j: Json, front: seq<Datum>, v: Datum)
    ensures DecodeLeaves(p, items + [j]) == Ok(front + [v])
            <==> DecodeLeaves(p, items) == Ok(front) && DecodeScalar(p, j) == Ok(v)
  {
    assert (items + [j])[..|items + [j]| - 1] == items;
    var f, w := DecodeLeaves(p, items), DecodeScalar(p, j);
    if f.Ok? && w.Ok? && f.value + [w.value] == front + [v] {
      assert (f.value + [w.value])[..|front|] == front;
    }
  }

  lemma {:induction false} LeavesCount(p: Scalar, vs: seq<Datum>)
    requires AllHold(p, vs) && EncodeLeaves(p, vs).Ok?
    ensures |EncodeLeaves(p, vs).value| == |vs|
  {
    if vs != [] {
      LeavesCount(p, vs[..|vs| - 1]);
    }
  }

  lemma {:induction false} LeavesRoundTrip(p: Scalar, vs: seq<Datum>)
    requires AllHold(p, vs) && EncodeLeaves(p, vs).Ok?
    ensures DecodeLeaves(p, EncodeLeaves(p, vs).value) == Ok(vs) <==> AllPortable(p, vs)
  {
    if vs != [] {
      var front, v := vs[..|vs| - 1], vs[|vs| - 1];
      LeavesRoundTrip(p, front);
      var j := EncodeLast(p, vs);
      LeafStep(p, EncodeLeaves(p, front).value, j, front, v);
      assert vs == front + [v];
    }
  }

  lemma EncodeLast(p: Scalar, vs: seq<Datum>) returns (j: Json)
    requires vs != [] && AllHold(p, vs) && EncodeLeaves(p, vs).Ok?
    ensures EncodeScalar(p, vs[|vs| - 1]) == Ok(j) && EncodeLeaves(p, vs[..|vs| - 1]).Ok?
    ensures EncodeLeaves(p, vs).value == EncodeLeaves(p, vs[..|vs| - 1]).value + [j]
  {
    j := EncodeScalar(p, vs[|vs| - 1]).value;
  }

  lemma LeafStep(p: Scalar, items: seq<Json>, j: Json, front: seq<Datum>, v: Datum)
    requires Holds(p, v) && EncodeScalar(p, v) == Ok(j)
    requires DecodeLeaves(p, items) == Ok(front) <==> AllPortable(p, front)
    ensures DecodeLeaves(p, items + [j]) == Ok(front + [v]) <==> AllPortable(p, front + [v])
  {
    ScalarRoundTrip(p, v);
    DecodeSplit(p, items, j, front, v);
    PortableSplit(p, front, v);
  }

  /** The members a compound encodes to are all present under their own names. */
  predicate Agree(members: map<string, Json>, part: map<string, Json>, ft: FieldTypes) {
    forall k | k in Keys(ft) :: k in members && k in part && members[k] == part[k]
  }

  lemma {:induction false} FieldsEncodeKeys(l: Limits, fs: Fields, ft: FieldTypes, depth: nat)
    requires TypedFields(fs, ft) && EncodeFields(l, fs, ft, depth).Ok?
    ensures EncodeFields(l, fs, ft, depth).value.Keys == Keys(ft)
  {
    if ft.Field? {
      FieldsEncodeKeys(l, fs.more, ft.more, depth);
    }
  }

  /** Decoding what was encoded gives the message back, into any receptive target,
      exactly when its floats are finite and its times normalized. */
  lemma {:induction false} RoundTrip(l: Limits, m: Message, t: Type, target: Message, depth: nat)
    requires Typed(m, t) && Typed(target, t) && Receptive(target, t) && Distinct(t) && Encode(l, m, t, depth).Ok?
    ensures Decode(l, Encode(l, m, t, depth).value, t, target, depth) == Ok(m) <==> Carried(m, t)
    decreases t, 0
  {
    match t
    case Single(p) => ScalarRoundTrip(p, m.v);
    case Compound(fields) => RecordRoundTrip(l, m.fields, fields, target.fields, depth);
    case ScalarArray(p, size) => LeavesCount(p, m.vs); LeavesRoundTrip(p, m.vs);
    case CompoundArray(fields, size) =>
      RowsRoundTrip(l, m.rows, fields, if size.Fixed? then target.rows else NoRows, depth + 1);
  }

  lemma {:induction false} RecordRoundTrip(l: Limits, fs: Fields, ft: FieldTypes, target: Fields, depth: nat)
    requires TypedFields(fs, ft) && TypedFields(target, ft) && ReceptiveFields(target, ft) && DistinctFields(ft)
    requires EncodeRecord(l, fs, ft, depth).Ok?
    ensures DecodeRecord(l, EncodeRecord(l, fs, ft, depth).value, ft, target, depth) == Ok(fs)
            <==> CarriedFields(fs, ft)
    decreases ft, 1
  {
    FieldsEncodeKeys(l, fs, ft, depth + 1);
    FieldsRoundTrip(l, fs, ft, target, EncodeFields(l, fs, ft, depth + 1).value, depth + 1);
  }

  lemma {:induction false} FieldsRoundTrip(l: Limits, fs: Fields, ft: FieldTypes, target: Fields,
                                           members: map<string, Json>, depth: nat)
    requires TypedFields(fs, ft) && TypedFields(target, ft) && ReceptiveFields(target, ft) && DistinctFields(ft)
    requires EncodeFields(l, fs, ft, depth).Ok? && Agree(members, EncodeFields(l, fs, ft, depth).value, ft)
    ensures DecodeFields(l, members, ft, target, depth) == Ok(fs) <==> CarriedFields(fs, ft)
    decreases ft, 0
  {
    if ft.Field? {
      var part, more := EncodeFields(l, fs, ft, depth).value, EncodeFields(l, fs.more, ft.more, depth).value;
      FieldsEncodeKeys(l, fs.more, ft.more, depth);
      assert ft.key in Keys(ft) && members[ft.key] == part[ft.key] == Encode(l, fs.m, ft.t, depth).value;
      assert Agree(members, more, ft.more) by {
        forall k | k in Keys(ft.more) ensures k in members && k in more && members[k] == more[k] {
          assert k in Keys(ft) && part[k] == more[k];
        }
      }
      RoundTrip(l, fs.m, ft.t, target.m, depth);
      FieldsRoundTrip(l, fs.more, ft.more, target.more, members, depth);
    }
  }

  lemma {:induction false} RowsRoundTrip(l: Limits, rows: Rows, ft: FieldTypes, targets: Rows, depth: nat)
    requires TypedRows(rows, ft) && TypedRows(targets, ft) && ReceptiveRows(targets, ft) && DistinctFields(ft)
    requires EncodeRows(l, rows, ft, depth).Ok?
    ensures |EncodeRows(l, rows, ft, depth).value| == Length(rows)
    ensures DecodeRows(l, EncodeRows(l, rows, ft, depth).value, ft, targets, depth) == Ok(rows)
            <==> CarriedRows(rows, ft)
    decreases ft, 2, rows
  {
    if rows.Row? {
      FreshFieldsReceptive(ft);
      RecordRoundTrip(l, rows.fields, ft, if targets.Row? then targets.fields else FreshFields(ft), depth);
      RowsRoundTrip(l, rows.more, ft, if targets.Row? then targets.more else NoRows, depth);
      var items := EncodeRows(l, rows, ft, depth).value;
      assert items[1..] == EncodeRows(l, rows.more, ft, depth).value;
    }
  }

  // ---- Decoding any JSON -------------------------------------------------

  lemma {:induction false} LeavesDecoded(p: Scalar, items: seq<Json>)
    requires DecodeLeaves(p, items).Ok?
    ensures |DecodeLeaves(p, items).value| == |items| && AllPortable(p, DecodeLeaves(p, items).value)
  {
    if items != [] {
      LeavesDecoded(p, items[..|items| - 1]);
      DecodedIsPortable(p, items[|items| - 1]);
    }
  }

  lemma PortableHolds(p: Scalar, vs: seq<Datum>)
    requires AllPortable(p, vs)
    ensures AllHold(p, vs)
  {
  }

  /** No JSON, however malformed, leaves a message outside its type; and what is
      decoded into a carried target is again carried. */
  lemma {:induction false} DecodedIsTyped(l: Limits, j: Json, t: Type, target: Message, depth: nat)
    requires Typed(target, t) && Decode(l, j, t, target, depth).Ok?
    ensures Typed(Decode(l, j, t, target, depth).value, t)
    ensures Carried(target, t) ==> Carried(Decode(l, j, t, target, depth).value, t)
    decreases t, 0
  {
    match t
    case Single(p) => DecodedIsPortable(p, j);
    case Compound(fields) => RecordDecoded(l, j, fields, target.fields, depth);
    case ScalarArray(p, size) =>
      LeavesDecoded(p, j.items);
      PortableHolds(p, DecodeLeaves(p, j.items).value);
    case CompoundArray(fields, size) =>
      RowsDecoded(l, j.items, fields, if size.Fixed? then target.rows else NoRows, depth + 1);
  }

  lemma {:induction false} RecordDecoded(l: Limits, j: Json, ft: FieldTypes, target: Fields, depth: nat)
    requires TypedFields(target, ft) && DecodeRecord(l, j, ft, target, depth).Ok?
    ensures TypedFields(DecodeRecord(l, j, ft, target, depth).value, ft)
    ensures CarriedFields(target, ft) ==> CarriedFields(DecodeRecord(l, j, ft, target, depth).value, ft)
    decreases ft, 1
  {
    FieldsDecoded(l, j.members, ft, target, depth + 1);
  }

  lemma {:induction false} FieldsDecoded(l: Limits, members: map<string, Json>, ft: FieldTypes, target: Fields,
                                         depth: nat)
    requires TypedFields(target, ft) && DecodeFields(l, members, ft, target, depth).Ok?
    ensures TypedFields(DecodeFields(l, members, ft, target, depth).value, ft)
    ensures CarriedFields(target, ft) ==> CarriedFields(DecodeFields(l, members, ft, target, depth).value, ft)
    decreases ft, 0
  {
    if ft.Field? {
      if ft.key in members {
        DecodedIsTyped(l, members[ft.key], ft.t, target.m, depth);
      }
      FieldsDecoded(l, members, ft.more, target.more, depth);
    }
  }

  lemma {:induction false} RowsDecoded(l: Limits, items: seq<Json>, ft: FieldTypes, targets: Rows, depth: nat)
    requires TypedRows(targets, ft) && DecodeRows(l, items, ft, targets, depth).Ok?
    ensures TypedRows(DecodeRows(l, items, ft, targets, depth).value, ft)
    ensures Length(DecodeRows(l, items, ft, targets, depth).value) == |items|
    ensures CarriedRows(targets, ft) ==> CarriedRows(DecodeRows(l, items, ft, targets, depth).value, ft)
    decreases ft, 2, |items|
  {
    if items != [] {
      FreshFieldsCarried(ft);
      RecordDecoded(l, items[0], ft, if targets.Row? then targets.fields else FreshFields(ft), depth);
      RowsDecoded(l, items[1..], ft, if targets.Row? then targets.more else NoRows, depth);
    }
  }

  lemma {:induction false} FreshCarried(t: Type)
    ensures Carried(Fresh(t), t)
    decreases t, 0
  {
    match t
    case Compound(fields) => FreshFieldsCarried(fields);
    case CompoundArray(fields, size) => FreshRowsCarried(fields, Count(size));
    case _ =>
  }

  lemma {:induction false} FreshFieldsCarried(ft: FieldTypes)
    ensures CarriedFields(FreshFields(ft), ft)
    decreases ft, 0
  {
    if ft.Field? {
      FreshCarried(ft.t);
      FreshFieldsCarried(ft.more);
    }
  }

  lemma {:induction false} FreshRowsCarried(ft: FieldTypes, n: nat)
    ensures CarriedRows(FreshRows(ft, n), ft)
    decreases ft, 1, n
  {
    if n > 0 {
      FreshFieldsCarried(ft);
      FreshRowsCarried(ft, n - 1);
    }
  }

  lemma {:induction false} CarriedIsFinite(m: Message, t: Type)
    requires Typed(m, t) && Carried(m, t)
    ensures AllFinite(m)
    decreases t, 0
  {
    match t
    case Compound(fields) => CarriedFieldsAreFinite(m.fields, fields);
    case CompoundArray(fields, _) => CarriedRowsAreFinite(m.rows, fields);
    case _ =>
  }

  lemma {:induction false} CarriedFieldsAreFinite(fs: Fields, ft: FieldTypes)
    requires TypedFields(fs, ft) && CarriedFields(fs, ft)
    ensures FiniteFields(fs)
    decreases ft, 0
  {
    if ft.Field? {
      CarriedIsFinite(fs.m, ft.t);
      CarriedFieldsAreFinite(fs.more, ft.more);
    }
  }

  lemma {:induction false} CarriedRowsAreFinite(rows: Rows, ft: FieldTypes)
    requires TypedRows(rows, ft) && CarriedRows(rows, ft)
    ensures FiniteRows(rows)
    decreases ft, 1, rows
  {
    if rows.Row? {
      CarriedFieldsAreFinite(rows.fields, ft);
      CarriedRowsAreFinite(rows.more, ft);
    }
  }

  /** Every message accepted from JSON can be given back as JSON and read again,
      unchanged, unless fields the JSON left out exceed the limits. */
  lemma AcceptedIsStable(l: Limits, j: Json, t: Type)
    requires Distinct(t) && Decode(l, j, t, Fresh(t), 0).Ok?
    ensures var m := Decode(l, j, t, Fresh(t), 0).value;
            Typed(m, t) && (Height(m) <= l.depth && Longest(m) <= l.elements
                            <==> Encode(l, m, t, 0).Ok? && Decode(l, Encode(l, m, t, 0).value, t, Fresh(t), 0) == Ok(m))
  {
    var m := Decode(l, j, t, Fresh(t), 0).value;
    FreshCarried(t);
    DecodedIsTyped(l, j, t, Fresh(t), 0);
    CarriedIsFinite(m, t);
    EncodesExactly(l, m, t, 0);
    if Encode(l, m, t, 0).Ok? {
      FreshReceptive(t);
      RoundTrip(l, m, t, Fresh(t), 0);
    }
  }

  // ---- The array loop ----------------------------------------------------

  lemma {:induction false} LeavesStopAtError(p: Scalar, items: seq<Json>, k: nat)
    requires k <= |items| && DecodeLeaves(p, items[..k]).Err?
    ensures DecodeLeaves(p, items) == Err(DecodeLeaves(p, items[..k]).reason)
  {
    if k < |items| {
      var front := items[..|items| - 1];
      assert front[..k] == items[..k];
      LeavesStopAtError(p, front, k);
    } else {
      assert items[..k] == items;
    }
  }

  lemma LeafDecoded(p: Scalar, items: seq<Json>, index: nat)
    requires index < |items| && DecodeLeaves(p, items[..index]).Ok?
    ensures DecodeLeaves(p, items[..index + 1]) ==
            match DecodeScalar(p, items[index])
            case Err(reason) => Err(reason)
            case Ok(v) => Ok(DecodeLeaves(p, items[..index]).value + [v])
  {
    assert items[..index + 1][..index] == items[..index];
  }

  /** Fills a scalar array element by element: a fixed one in place, a dynamic one
      by appending. */
  method DecodeScalarArray(l: Limits, p: Scalar, size: Size, j: Json, target: seq<Datum>)
    returns (r: Result<seq<Datum>, string>)
    requires Sized(size, |target|)
    ensures var items := CheckArray(l, j, size, |target|);
            r == if items.Err? then Err(items.reason) else DecodeLeaves(p, items.value)
  {
    var checked := CheckArray(l, j, size, |target|);
    if checked.Err? {
      return Err(checked.reason);
    }
    var items, filled := checked.value, target;
    for index := 0 to |items|
      invariant |filled| == if size.Fixed? then |items| else index
      invariant DecodeLeaves(p, items[..index]) == Ok(filled[..index])
    {
      var item := DecodeScalar(p, items[index]);
      LeafDecoded(p, items, index);
      if item.Err? {
        LeavesStopAtError(p, items, index + 1);
        return Err(item.reason);
      }
      ghost var done := filled[..index];
      if size.Fixed? {
        filled := filled[index := item.value];
      } else {
        filled := filled + [item.value];
      }
      assert filled[..index + 1] == done + [item.value];
    }
    assert items[..|items|] == items && filled[..|items|] == filled;
    return Ok(filled);
  }
}
