/** When everything the decoder accepts can be encoded again. Fields that the JSON
    leaves out keep their fresh values, which the decoder does not measure, so a
    type can be accepted and yet be too deep or too long to encode. */
module JsonStability {
  import opened Basics
  import opened JsonScalars
  import opened JsonCodec

  predicate Fits(l: Limits, m: Message, depth: nat) {
    depth + Height(m) <= l.depth && Longest(m) <= l.elements
  }

  /** An array that can be given at least one element. */
  predicate Fillable(l: Limits, size: Size) {
    if size.Fixed? then 1 <= size.n <= l.elements else 1 <= l.elements
  }

  /** A condition on limits and type alone: wherever the decoder can get to, what
      can be left out is small enough. */
  predicate AlwaysFits(l: Limits, t: Type, depth: nat)
    decreases t, 0
  {
    match t
    case Single(_) => true
    case ScalarArray(_, _) => true
    case Compound(fields) => depth > l.depth || FieldsAlwaysFit(l, fields, depth + 1)
    case CompoundArray(fields, size) =>
      depth + 1 > l.depth || !Fillable(l, size) || FieldsAlwaysFit(l, fields, depth + 2)
  }

  predicate FieldsAlwaysFit(l: Limits, ft: FieldTypes, depth: nat)
    decreases ft, 0
  {
    ft.Field? ==> Fits(l, Fresh(ft.t), depth) && AlwaysFits(l, ft.t, depth) && FieldsAlwaysFit(l, ft.more, depth)
  }

  // ---- It suffices -------------------------------------------------------

  predicate FieldsFit(l: Limits, fs: Fields, depth: nat) {
    (fs.Entry? ==> depth + HeightOfFields(fs) <= l.depth + 1) && LongestInFields(fs) <= l.elements
  }

  lemma {:induction false} AcceptedFits(l: Limits, j: Json, t: Type, depth: nat)
    requires AlwaysFits(l, t, depth) && Decode(l, j, t, Fresh(t), depth).Ok?
    ensures Fits(l, Decode(l, j, t, Fresh(t), depth).value, depth)
    decreases t, 0
  {
    match t
    case Single(_) =>
    case ScalarArray(p, size) => LeavesDecoded(p, j.items);
    case Compound(fields) => FieldsAccepted(l, j.members, fields, depth + 1);
    case CompoundArray(fields, size) => ArrayAccepted(l, j, fields, size, depth);
  }

  lemma ArrayDecodes(l: Limits, j: Json, ft: FieldTypes, size: Size, depth: nat)
    requires Decode(l, j, CompoundArray(ft, size), Fresh(CompoundArray(ft, size)), depth).Ok?
    ensures depth <= l.depth && j.JArr? && |j.items| <= l.elements && (size.Fixed? ==> |j.items| == size.n)
    ensures DecodeRows(l, j.items, ft, FreshRows(ft, Count(size)), depth + 1).Ok?
    ensures Decode(l, j, CompoundArray(ft, size), Fresh(CompoundArray(ft, size)), depth).value
            == Records(DecodeRows(l, j.items, ft, FreshRows(ft, Count(size)), depth + 1).value)
  {
  }

  lemma RowsFit(l: Limits, rows: Rows, depth: nat)
    requires Length(rows) <= l.elements && LongestInRows(rows) <= l.elements && depth + HeightOfRows(rows) <= l.depth
    ensures Fits(l, Records(rows), depth)
  {
  }

  lemma {:induction false} ArrayAccepted(l: Limits, j: Json, ft: FieldTypes, size: Size, depth: nat)
    requires AlwaysFits(l, CompoundArray(ft, size), depth)
    requires Decode(l, j, CompoundArray(ft, size), Fresh(CompoundArray(ft, size)), depth).Ok?
    ensures Fits(l, Decode(l, j, CompoundArray(ft, size), Fresh(CompoundArray(ft, size)), depth).value, depth)
    decreases ft, 3
  {
    ArrayDecodes(l, j, ft, size, depth);
    var rows := DecodeRows(l, j.items, ft, FreshRows(ft, Count(size)), depth + 1).value;
    if j.items == [] {
      assert rows == NoRows;
    } else {
      RowsAccepted(l, j.items, ft, Count(size), depth + 1);
    }
    RowsFit(l, rows, depth);
  }

  lemma {:induction false} FieldsAccepted(l: Limits, members: map<string, Json>, ft: FieldTypes, depth: nat)
    requires FieldsAlwaysFit(l, ft, depth) && DecodeFields(l, members, ft, FreshFields(ft), depth).Ok?
    ensures FieldsFit(l, DecodeFields(l, members, ft, FreshFields(ft), depth).value, depth)
    decreases ft, 0
  {
    if ft.Field? {
      if ft.key in members {
        AcceptedFits(l, members[ft.key], ft.t, depth);
      }
      FieldsAccepted(l, members, ft.more, depth);
    }
  }

  lemma {:induction false} RowsAccepted(l: Limits, items: seq<Json>, ft: FieldTypes, n: nat, depth: nat)
    requires DecodeRows(l, items, ft, FreshRows(ft, n), depth).Ok?
    requires depth > l.depth || FieldsAlwaysFit(l, ft, depth + 1)
    ensures var rows := DecodeRows(l, items, ft, FreshRows(ft, n), depth).value;
            && Length(rows) == |items| && LongestInRows(rows) <= l.elements
            && (items != [] ==> depth <= l.depth && depth + HeightOfRows(rows) <= l.depth + 1)
    decreases ft, 2, |items|
  {
    if items != [] {
      FieldsAccepted(l, items[0].members, ft, depth + 1);
      RowsAccepted(l, items[1..], ft, if n > 0 then n - 1 else 0, depth);
    }
  }

  // ---- It is needed ------------------------------------------------------

  lemma {:induction false} NothingGiven(l: Limits, members: map<string, Json>, ft: FieldTypes, target: Fields,
                                        depth: nat)
    requires TypedFields(target, ft) && members.Keys !! Keys(ft)
    ensures DecodeFields(l, members, ft, target, depth) == Ok(target)
  {
    if ft.Field? {
      NothingGiven(l, members, ft.more, target.more, depth);
    }
  }

  function EmptyObjects(n: nat): (items: seq<Json>)
    ensures |items| == n
  {
    if n == 0 then [] else [JObj(map[])] + EmptyObjects(n - 1)
  }

  lemma {:induction false} EmptyObjectsDecode(l: Limits, ft: FieldTypes, n: nat, depth: nat)
    requires depth <= l.depth
    ensures DecodeRows(l, EmptyObjects(n), ft, FreshRows(ft, n), depth) == Ok(FreshRows(ft, n))
  {
    if n > 0 {
      NothingGiven(l, map[], ft, FreshFields(ft), depth + 1);
      assert EmptyObjects(n)[1..] == EmptyObjects(n - 1);
      EmptyObjectsDecode(l, ft, n - 1, depth);
    }
  }

  /** JSON that the decoder accepts and that leaves too much out. */
  lemma {:induction false} TooMuch(l: Limits, t: Type, depth: nat) returns (j: Json)
    requires !AlwaysFits(l, t, depth) && Distinct(t)
    ensures Decode(l, j, t, Fresh(t), depth).Ok? && !Fits(l, Decode(l, j, t, Fresh(t), depth).value, depth)
    decreases t, 0
  {
    match t
    case Compound(fields) =>
      var members := TooMuchInside(l, fields, depth + 1);
      j := JObj(members);
    case CompoundArray(fields, size) => j := TooMuchInArray(l, fields, size, depth);
  }

  lemma {:induction false} TooMuchInArray(l: Limits, ft: FieldTypes, size: Size, depth: nat) returns (j: Json)
    requires !AlwaysFits(l, CompoundArray(ft, size), depth) && DistinctFields(ft)
    ensures var t := CompoundArray(ft, size);
            Decode(l, j, t, Fresh(t), depth).Ok? && !Fits(l, Decode(l, j, t, Fresh(t), depth).value, depth)
    decreases ft, 3
  {
    var members := TooMuchInside(l, ft, depth + 2);
    j := JArr([JObj(members)] + EmptyObjects((if size.Fixed? then size.n else 1) - 1));
    FirstTooMuch(l, members, ft, size, depth + 1);
  }

  lemma FirstTooMuch(l: Limits, members: map<string, Json>, ft: FieldTypes, size: Size, depth: nat)
    requires depth <= l.depth && Fillable(l, size) && members.Keys <= Keys(ft)
    requires var r := DecodeFields(l, members, ft, FreshFields(ft), depth + 1);
             r.Ok? && !FieldsFit(l, r.value, depth + 1)
    ensures var n := if size.Fixed? then size.n else 1;
            var r := DecodeRows(l, [JObj(members)] + EmptyObjects(n - 1), ft, FreshRows(ft, Count(size)), depth);
            r.Ok? && Length(r.value) == n
            && (depth + HeightOfRows(r.value) > l.depth + 1 || LongestInRows(r.value) > l.elements)
  {
    var n := if size.Fixed? then size.n else 1;
    var items := [JObj(members)] + EmptyObjects(n - 1);
    assert items[1..] == EmptyObjects(n - 1);
    EmptyObjectsDecode(l, ft, n - 1, depth);
  }

  lemma {:induction false} TooMuchInside(l: Limits, ft: FieldTypes, depth: nat) returns (members: map<string, Json>)
    requires !FieldsAlwaysFit(l, ft, depth) && DistinctFields(ft)
    ensures members.Keys <= Keys(ft)
    ensures var r := DecodeFields(l, members, ft, FreshFields(ft), depth); r.Ok? && !FieldsFit(l, r.value, depth)
    decreases ft, 0
  {
    if !Fits(l, Fresh(ft.t), depth) {
      members := map[];
      NothingGiven(l, members, ft, FreshFields(ft), depth);
    } else if !AlwaysFits(l, ft.t, depth) {
      var j := TooMuch(l, ft.t, depth);
      members := map[ft.key := j];
      NothingGiven(l, members, ft.more, FreshFields(ft.more), depth);
    } else {
      members := TooMuchInside(l, ft.more, depth);
    }
  }

  // ---- Main results ------------------------------------------------------

  /** The message decoded from this JSON can be encoded, and decodes to itself. */
  predicate Stable(l: Limits, j: Json, t: Type)
    requires Decode(l, j, t, Fresh(t), 0).Ok?
  {
    var m := Decode(l, j, t, Fresh(t), 0).value;
    Typed(m, t) && Encode(l, m, t, 0).Ok? && Decode(l, Encode(l, m, t, 0).value, t, Fresh(t), 0) == Ok(m)
  }

  /** Everything accepted for a type is stable if and only if the type passes the
      check on types. */
  lemma StableExactly(l: Limits, t: Type)
    requires Distinct(t)
    ensures AlwaysFits(l, t, 0) <==> forall j: Json | Decode(l, j, t, Fresh(t), 0).Ok? :: Stable(l, j, t)
  {
    if AlwaysFits(l, t, 0) {
      forall j: Json | Decode(l, j, t, Fresh(t), 0).Ok?
        ensures Stable(l, j, t)
      {
        AcceptedFits(l, j, t, 0);
        AcceptedIsStable(l, j, t);
      }
    } else {
      var j := TooMuch(l, t, 0);
      AcceptedIsStable(l, j, t);
      assert !Stable(l, j, t);
    }
  }

  /** The failing input, for every choice of limits: a compound with one fixed array
      longer than the limit, and the empty object. */
  lemma AcceptedButNotEncodable(l: Limits) returns (t: Type, m: Message)
    ensures Distinct(t) && Decode(l, JObj(map[]), t, Fresh(t), 0) == Ok(m)
    ensures Typed(m, t) && Encode(l, m, t, 0).Err?
  {
    var ft := Field("a", ScalarArray(TBool, Fixed(l.elements + 1)), NoFields);
    t, m := Compound(ft), Fresh(Compound(ft));
    NothingGiven(l, map[], ft, FreshFields(ft), 1);
    EncodesExactly(l, m, t, 0);
    assert LongestInFields(FreshFields(ft)) >= Longest(Fresh(ft.t)) == l.elements + 1;
  }
}
