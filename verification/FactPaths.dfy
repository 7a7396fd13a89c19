/** File names of stored fact blobs: a readable label, a revision number and the
    suffix of the source. The number can be read back from any name. */
module FactPaths {
  import opened Decimal

  predicate IsWord(c: char) {
    'a' <= c <= 'z' || 'A' <= c <= 'Z' || '0' <= c <= '9' || c == '_'
  }

  /** Every run of other characters becomes one hyphen. */
  function Collapse(s: string): (r: string)
    ensures forall i | 0 <= i < |r| :: IsWord(r[i]) || r[i] == '-'
  {
    if s == "" then ""
    else
      var front := Collapse(s[..|s| - 1]);
      if IsWord(s[|s| - 1]) then front + [s[|s| - 1]]
      else if front != "" && front[|front| - 1] == '-' then front
      else front + "-"
  }

  function TrimLeft(s: string): (r: string)
    ensures |r| <= |s| && r == s[|s| - |r|..]
  {
    if s != "" && s[0] == '-' then TrimLeft(s[1..]) else s
  }

  function TrimRight(s: string): (r: string)
    ensures r <= s
  {
    if s != "" && s[|s| - 1] == '-' then TrimRight(s[..|s| - 1]) else s
  }

  predicate IsLabel(s: string) {
    0 < |s| <= 64 && forall i | 0 <= i < |s| :: IsWord(s[i]) || s[i] == '-'
  }

  function Label(s: string): (r: string)
    ensures IsLabel(r)
  {
    var trimmed := TrimRight(TrimLeft(Collapse(s)));
    var cut := if |trimmed| > 64 then trimmed[..64] else trimmed;
    if cut == "" then "fact" else cut
  }

  predicate IsSuffix(s: string) {
    2 <= |s| <= 9 && s[0] == '.'
    && forall i | 1 <= i < |s| :: 'a' <= s[i] <= 'z' || 'A' <= s[i] <= 'Z' || '0' <= s[i] <= '9'
  }

  function Suffix(s: string): (r: string)
    ensures IsSuffix(r)
  {
    if IsSuffix(s) then s else ".data"
  }

  datatype RawName = RawName(tag: string, revision: nat, suffix: string)

  /** The name of a stored blob, in its parts. */
  type FileName = f: RawName | IsLabel(f.tag) && IsSuffix(f.suffix) witness RawName("fact", 1, ".data")

  function Name(tag: string, revision: nat, suffix: string): (f: FileName)
    ensures f.revision == revision
  {
    RawName(Label(tag), revision, Suffix(suffix))
  }

  function Stem(f: FileName): string {
    "record-facts/" + f.tag + "-revision-" + ZeroPad(f.revision, 6)
  }

  function Text(f: FileName): string {
    Stem(f) + f.suffix
  }

  /** The part in front of the first dot. */
  function BeforeDot(s: string): string {
    if s == "" || s[0] == '.' then "" else [s[0]] + BeforeDot(s[1..])
  }

  /** The digits at the end. */
  function TrailingDigits(s: string): (r: string)
    ensures AllDigits(r)
  {
    if s == "" || !IsDigit(s[|s| - 1]) then "" else TrailingDigits(s[..|s| - 1]) + [s[|s| - 1]]
  }

  function RevisionOf(path: string): nat {
    Value(TrailingDigits(BeforeDot(path)))
  }

  predicate NoDot(s: string) {
    forall i | 0 <= i < |s| :: s[i] != '.'
  }

  lemma {:induction false} BeforeDotStops(a: string, b: string)
    requires NoDot(a) && b != "" && b[0] == '.'
    ensures BeforeDot(a + b) == a
  {
    if a == "" {
      assert a + b == b;
    } else {
      BeforeDotStops(a[1..], b);
      assert (a + b)[1..] == a[1..] + b;
      assert a == [a[0]] + a[1..];
    }
  }

  lemma {:induction false} TrailingDigitsStop(a: string, digits: string)
    requires a != "" && !IsDigit(a[|a| - 1]) && AllDigits(digits)
    ensures TrailingDigits(a + digits) == digits
  {
    if digits == "" {
      assert a + digits == a;
    } else {
      var front := digits[..|digits| - 1];
      TrailingDigitsStop(a, front);
      assert (a + digits)[..|a + digits| - 1] == a + front;
    }
  }

  lemma NoDotInside(a: string, b: string)
    requires NoDot(a) && NoDot(b)
    ensures NoDot(a + b)
  {
  }

  lemma DigitsHaveNoDot(digits: string)
    requires AllDigits(digits)
    ensures NoDot(digits)
  {
  }

  lemma StemHasNoDot(f: FileName)
    ensures NoDot(Stem(f))
  {
    var a, b, digits := "record-facts/" + f.tag, "-revision-", ZeroPad(f.revision, 6);
    NoDotInside("record-facts/", f.tag);
    DigitsHaveNoDot(digits);
    NoDotInside(a, b);
    NoDotInside(a + b, digits);
  }

  /** Whatever the label and suffix, the revision can be read back. */
  lemma RevisionRecovered(f: FileName)
    ensures RevisionOf(Text(f)) == f.revision
  {
    var front := "record-facts/" + f.tag + "-revision-";
    StemHasNoDot(f);
    BeforeDotStops(Stem(f), f.suffix);
    assert front[|front| - 1] == '-';
    TrailingDigitsStop(front, ZeroPad(f.revision, 6));
    ZeroPadValue(f.revision, 6);
  }

  lemma CancelLeft(front: string, a: string, b: string)
    requires front + a == front + b
    ensures a == b
  {
    assert (front + a)[|front|..] == a;
    assert (front + b)[|front|..] == b;
  }

  lemma CancelRight(a: string, b: string, back: string)
    requires a + back == b + back
    ensures a == b
  {
    assert |a + back| == |a| + |back| && |b + back| == |b| + |back|;
    assert (a + back)[..|a|] == a;
    assert (b + back)[..|b|] == b;
  }

  /** Different names are different files. */
  lemma TextInjective(f: FileName, g: FileName)
    requires Text(f) == Text(g)
    ensures f == g
  {
    RevisionRecovered(f);
    RevisionRecovered(g);
    SameStem(f, g);
    CancelLeft(Stem(f), f.suffix, g.suffix);
    CancelRight("record-facts/" + f.tag + "-revision-", "record-facts/" + g.tag + "-revision-", ZeroPad(f.revision, 6));
    CancelRight("record-facts/" + f.tag, "record-facts/" + g.tag, "-revision-");
    CancelLeft("record-facts/", f.tag, g.tag);
  }

  lemma SameStem(f: FileName, g: FileName)
    requires Text(f) == Text(g)
    ensures Stem(f) == Stem(g)
  {
    StemHasNoDot(f);
    StemHasNoDot(g);
    BeforeDotStops(Stem(f), f.suffix);
    BeforeDotStops(Stem(g), g.suffix);
  }
}
