/** File names of one recording: the native segment names the recorder writes,
    the readable names issued at finalization, and the scan that finds both. */
module ArchiveNames {
  import opened Basics
  import opened Decimal

  function Native(prefix: string, index: nat): string {
    prefix + "_" + ToText(index) + ".bag"
  }

  /** A single closed volume gets the plain record name, several get numbered
      parts. */
  function Issued(prefix: string, index: nat, count: nat): string {
    if count == 1 && index == 0 then prefix + ".bag"
    else prefix + "-part" + ZeroPad(index + 1, 2) + ".bag"
  }

  predicate EndsWith(s: string, end: string) {
    |end| <= |s| && s[|s| - |end|..] == end
  }

  predicate IsActive(name: string) {
    EndsWith(name, ".bag.active")
  }

  /** Names the directory scan reports for this prefix. */
  predicate Recorded(prefix: string, name: string) {
    && prefix <= name && |name| > |prefix|
    && name[|prefix|] in ['_', '-', '.']
    && (EndsWith(name[|prefix|..], ".bag") || EndsWith(name[|prefix|..], ".bag.active"))
  }

  /** The closed bags among them. */
  predicate Closed(prefix: string, name: string) {
    Recorded(prefix, name) && !IsActive(name)
  }

  /** The native pattern: prefix, underscore, canonical decimal, ".bag". */
  function ParseNative(prefix: string, name: string): Option<nat> {
    if prefix + "_" <= name && |name| > |prefix| + 5 && EndsWith(name, ".bag")
       && Canonical(name[|prefix| + 1..|name| - 4])
    then Some(Value(name[|prefix| + 1..|name| - 4]))
    else None
  }

  /** The pattern matches exactly the native names, and reads their index. */
  lemma ParseNativeExact(prefix: string, name: string, index: nat)
    ensures ParseNative(prefix, name) == Some(index) <==> name == Native(prefix, index)
  {
    if name == Native(prefix, index) {
      assert name[|prefix| + 1..|name| - 4] == ToText(index);
      assert name[|name| - 4..] == ".bag";
      assert name[..|prefix| + 1] == prefix + "_";
    }
    if ParseNative(prefix, name).Some? {
      var digits := name[|prefix| + 1..|name| - 4];
      CanonicalUnique(digits);
      assert name == name[..|prefix| + 1] + digits + name[|name| - 4..];
    }
  }

  lemma NativeInjective(prefix: string, i: nat, j: nat)
    requires Native(prefix, i) == Native(prefix, j)
    ensures i == j
  {
    ParseNativeExact(prefix, Native(prefix, i), i);
    ParseNativeExact(prefix, Native(prefix, i), j);
  }

  lemma NotActive(name: string)
    requires EndsWith(name, ".bag")
    ensures !IsActive(name)
  {
    assert name[|name| - 4..][3] == 'g';
  }

  lemma Middle(a: string, b: string, c: string)
    ensures (a + b + c)[|a|..|a + b + c| - |c|] == b
  {
  }

  lemma NativeClosed(prefix: string, i: nat)
    ensures Closed(prefix, Native(prefix, i))
  {
    var name := Native(prefix, i);
    assert name[|name| - 4..] == ".bag";
    assert name[|prefix|..][|name[|prefix|..]| - 4..] == ".bag";
    NotActive(name);
  }

  lemma IssuedClosed(prefix: string, i: nat, count: nat)
    ensures Closed(prefix, Issued(prefix, i, count))
  {
    var name := Issued(prefix, i, count);
    assert name[|name| - 4..] == ".bag";
    assert name[|prefix|..][|name[|prefix|..]| - 4..] == ".bag";
    NotActive(name);
  }

  /** No issued name is a native name, of any segment. */
  lemma IssuedNotNative(prefix: string, i: nat, count: nat, j: nat)
    ensures Issued(prefix, i, count) != Native(prefix, j)
  {
    assert Native(prefix, j)[|prefix|] == '_';
    assert Issued(prefix, i, count)[|prefix|] in ['.', '-'];
  }

  /** Issued names of one record are distinct. */
  lemma IssuedInjective(prefix: string, i: nat, j: nat, count: nat)
    requires Issued(prefix, i, count) == Issued(prefix, j, count)
    ensures i == j
  {
    var a, b := Issued(prefix, i, count), Issued(prefix, j, count);
    if count == 1 && (i == 0 || j == 0) {
      assert a[|prefix|] == b[|prefix|];
    } else {
      Middle(prefix + "-part", ZeroPad(i + 1, 2), ".bag");
      Middle(prefix + "-part", ZeroPad(j + 1, 2), ".bag");
      ZeroPadValue(i + 1, 2);
      ZeroPadValue(j + 1, 2);
    }
  }

  // ---- Names by what they mean -------------------------------------------

  /** A directory entry as finalization sees it: the native bag of an index, the
      plain record name, a numbered part, another closed bag of this prefix, a bag
      still being written, or a file of no concern. */
  datatype Name =
    | NativeBag(index: nat)
    | WholeBag
    | PartBag(number: nat)
    | OtherBag(text: string)
    | ActiveBag(text: string)
    | Elsewhere(text: string)

  /** The scan reports it, and it is not still being written. */
  predicate IsClosed(n: Name) {
    !n.ActiveBag? && !n.Elsewhere?
  }

  function IssuedName(index: nat, count: nat): Name {
    if count == 1 && index == 0 then WholeBag else PartBag(index + 1)
  }

  function PartText(number: nat): string {
    "-part" + ZeroPad(number, 2) + ".bag"
  }

  /** The number of a part name, if the suffix is one. */
  function ParsePart(suffix: string): Option<nat> {
    if "-part" <= suffix && |suffix| > 9 && EndsWith(suffix, ".bag") && AllDigits(suffix[5..|suffix| - 4])
       && suffix == PartText(Value(suffix[5..|suffix| - 4]))
    then Some(Value(suffix[5..|suffix| - 4]))
    else None
  }

  function Classify(prefix: string, text: string): Name {
    if !Recorded(prefix, text) then Elsewhere(text)
    else if IsActive(text) then ActiveBag(text)
    else if ParseNative(prefix, text).Some? then NativeBag(ParseNative(prefix, text).value)
    else if text == prefix + ".bag" then WholeBag
    else if ParsePart(text[|prefix|..]).Some? then PartBag(ParsePart(text[|prefix|..]).value)
    else OtherBag(text)
  }

  function Text(prefix: string, n: Name): string {
    match n
    case NativeBag(i) => Native(prefix, i)
    case WholeBag => prefix + ".bag"
    case PartBag(k) => prefix + PartText(k)
    case OtherBag(t) => t
    case ActiveBag(t) => t
    case Elsewhere(t) => t
  }

  /** Reading a name by its meaning loses nothing: different files have different
      meanings. */
  lemma ClassifyFaithful(prefix: string, text: string)
    ensures Text(prefix, Classify(prefix, text)) == text
    ensures IsClosed(Classify(prefix, text)) <==> Closed(prefix, text)
  {
    var n := Classify(prefix, text);
    match n
    case NativeBag(i) => ParseNativeExact(prefix, text, i);
    case PartBag(k) => assert text == prefix + text[|prefix|..];
    case _ =>
  }

  lemma ClassifyNative(prefix: string, index: nat)
    ensures Classify(prefix, Native(prefix, index)) == NativeBag(index)
  {
    NativeClosed(prefix, index);
    ParseNativeExact(prefix, Native(prefix, index), index);
  }

  lemma IssuedNeverParses(prefix: string, index: nat, count: nat)
    ensures ParseNative(prefix, Issued(prefix, index, count)) == None
  {
    var found := ParseNative(prefix, Issued(prefix, index, count));
    var j := if found.Some? then found.value else 0;
    ParseNativeExact(prefix, Issued(prefix, index, count), j);
    IssuedNotNative(prefix, index, count, j);
  }

  lemma PartSuffix(prefix: string, index: nat, count: nat)
    requires !(count == 1 && index == 0)
    ensures Issued(prefix, index, count)[|prefix|..] == PartText(index + 1)
    ensures Issued(prefix, index, count) != prefix + ".bag"
  {
    var text := Issued(prefix, index, count);
    assert text == prefix + PartText(index + 1);
    assert text[|prefix|] == '-';
    assert (prefix + ".bag")[|prefix|] == '.';
  }

  /** The two issued forms are read as what they are, never as native. */
  lemma ClassifyIssued(prefix: string, index: nat, count: nat)
    ensures Classify(prefix, Issued(prefix, index, count)) == IssuedName(index, count)
  {
    IssuedClosed(prefix, index, count);
    IssuedNeverParses(prefix, index, count);
    if !(count == 1 && index == 0) {
      PartSuffix(prefix, index, count);
      PartRead(index + 1);
    }
  }

  lemma PartRead(number: nat)
    ensures ParsePart(PartText(number)) == Some(number)
  {
    var text := PartText(number);
    Middle("-part", ZeroPad(number, 2), ".bag");
    ZeroPadValue(number, 2);
    assert text[|text| - 4..] == ".bag";
    assert |ZeroPad(number, 2)| >= 2;
  }
}
