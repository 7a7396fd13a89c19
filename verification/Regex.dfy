/** The part of Perl regular expression syntax that the recorder generates: text,
    syntax tree and meaning, with a parser that inverts printing. */
module Regex {

  datatype Atom = Lit(c: char) | Dot | Caret | Dollar | Group(inner: Alts) | NotAhead(inner: Alts)
  datatype Quant = One | Many | Maybe
  datatype Item = Item(atom: Atom, quant: Quant)
  datatype Branch = Nil | Cons(item: Item, tail: Branch)
  datatype Alts = Only(branch: Branch) | Or(branch: Branch, others: Alts)

  // ---- Text --------------------------------------------------------------

  predicate Alphanumeric(c: char) {
    'a' <= c <= 'z' || 'A' <= c <= 'Z' || '0' <= c <= '9'
  }

  /** Characters with a meaning of their own outside brackets. */
  predicate Meta(c: char) {
    c in "()[]{}?*+|^$\\."
  }

  predicate Quantifier(c: char) {
    c in "*?+{"
  }

  /** The characters Python's re.escape puts a backslash in front of. */
  predicate Escaped(c: char) {
    c in "()[]{}?*+-|^$\\.&~# \t\n\r\U{000B}\U{000C}"
  }

  function EscapeChar(c: char): (s: string)
    ensures s != ""
  {
    if Escaped(c) then ['\\', c] else [c]
  }

  function Escape(s: string): string {
    if s == "" then "" else EscapeChar(s[0]) + Escape(s[1..])
  }

  function PrintAtom(a: Atom): (s: string)
    ensures s != "" && !Quantifier(s[0]) && s[0] != '|' && s[0] != ')'
  {
    match a
    case Lit(c) => EscapeChar(c)
    case Dot => "."
    case Caret => "^"
    case Dollar => "$"
    case Group(inner) => "(?:" + (PrintAlts(inner) + ")")
    case NotAhead(inner) => "(?!" + (PrintAlts(inner) + ")")
  }

  function PrintQuant(q: Quant): string {
    match q case One => "" case Many => "*" case Maybe => "?"
  }

  function PrintItem(it: Item): (s: string)
    ensures s != "" && !Quantifier(s[0]) && s[0] != '|' && s[0] != ')'
  {
    PrintAtom(it.atom) + PrintQuant(it.quant)
  }

  function PrintBranch(b: Branch): string {
    if b.Nil? then "" else PrintItem(b.item) + PrintBranch(b.tail)
  }

  function PrintAlts(a: Alts): string {
    match a
    case Only(b) => PrintBranch(b)
    case Or(b, others) => PrintBranch(b) + ("|" + PrintAlts(others))
  }

  // ---- Parsing -----------------------------------------------------------

  datatype Parsed<T> = Fail | Done(value: T, rest: string)

  function ParseAtom(s: string): (r: Parsed<Atom>)
    ensures r.Done? ==> |r.rest| < |s|
    decreases |s|, 1
  {
    if s == "" then Fail
    else if s[0] == '\\' then if |s| >= 2 && !Alphanumeric(s[1]) then Done(Lit(s[1]), s[2..]) else Fail
    else if s[0] == '.' then Done(Dot, s[1..])
    else if s[0] == '^' then Done(Caret, s[1..])
    else if s[0] == '$' then Done(Dollar, s[1..])
    else if s[0] == '(' then ParseGroup(s)
    else if Meta(s[0]) then Fail
    else Done(Lit(s[0]), s[1..])
  }

  function ParseGroup(s: string): (r: Parsed<Atom>)
    requires s != ""
    ensures r.Done? ==> |r.rest| < |s|
    decreases |s|, 0
  {
    if |s| < 3 || s[1] != '?' || (s[2] != ':' && s[2] != '!') then Fail
    else
      var inner := ParseAlts(s[3..]);
      if inner.Fail? || inner.rest == "" || inner.rest[0] != ')' then Fail
      else Done(if s[2] == ':' then Group(inner.value) else NotAhead(inner.value), inner.rest[1..])
  }

  /** The quantifier after an atom. Lazy and possessive forms are not used here. */
  function ParseQuant(a: Atom, s: string): (r: Parsed<Item>)
    ensures r.Done? ==> |r.rest| <= |s|
  {
    if s == "" || !Quantifier(s[0]) then Done(Item(a, One), s)
    else if |s| >= 2 && Quantifier(s[1]) then Fail
    else if s[0] == '*' then Done(Item(a, Many), s[1..])
    else if s[0] == '?' then Done(Item(a, Maybe), s[1..])
    else Fail
  }

  function ParseItem(s: string): (r: Parsed<Item>)
    ensures r.Done? ==> |r.rest| < |s|
    decreases |s|, 2
  {
    var a := ParseAtom(s);
    if a.Fail? then Fail else ParseQuant(a.value, a.rest)
  }

  function ParseBranch(s: string): (r: Parsed<Branch>)
    ensures r.Done? ==> |r.rest| <= |s|
    decreases |s|, 3
  {
    if s == "" || s[0] == '|' || s[0] == ')' then Done(Nil, s)
    else
      var it := ParseItem(s);
      if it.Fail? then Fail
      else
        var tail := ParseBranch(it.rest);
        if tail.Fail? then Fail else Done(Cons(it.value, tail.value), tail.rest)
  }

  function ParseAlts(s: string): (r: Parsed<Alts>)
    ensures r.Done? ==> |r.rest| <= |s|
    decreases |s|, 4
  {
    var b := ParseBranch(s);
    if b.Fail? then Fail
    else if b.rest == "" || b.rest[0] != '|' then Done(Only(b.value), b.rest)
    else
      var others := ParseAlts(b.rest[1..]);
      if others.Fail? then Fail else Done(Or(b.value, others.value), others.rest)
  }

  lemma {:induction false} AtomRoundTrip(a: Atom, rest: string)
    ensures ParseAtom(PrintAtom(a) + rest) == Done(a, rest)
    decreases a
  {
    var s := PrintAtom(a) + rest;
    match a
    case Lit(c) =>
      if Escaped(c) {
        assert s[2..] == rest;
      } else {
        assert s[1..] == rest;
      }
    case Dot => assert s[1..] == rest;
    case Caret => assert s[1..] == rest;
    case Dollar => assert s[1..] == rest;
    case Group(inner) => GroupRoundTrip(a, rest);
    case NotAhead(inner) => GroupRoundTrip(a, rest);
  }

  lemma {:induction false} GroupRoundTrip(a: Atom, rest: string)
    requires a.Group? || a.NotAhead?
    ensures ParseAtom(PrintAtom(a) + rest) == Done(a, rest)
    decreases a, 0
  {
    var s := PrintAtom(a) + rest;
    var tail := ")" + rest;
    assert s[3..] == PrintAlts(a.inner) + tail;
    AltsRoundTrip(a.inner, tail);
    assert tail[1..] == rest;
  }

  lemma QuantRoundTrip(a: Atom, q: Quant, rest: string)
    requires rest == "" || !Quantifier(rest[0])
    ensures ParseQuant(a, PrintQuant(q) + rest) == Done(Item(a, q), rest)
  {
    var s := PrintQuant(q) + rest;
    if q.One? {
      assert s == rest;
    } else {
      assert s[1..] == rest;
    }
  }

  lemma {:induction false} ItemRoundTrip(it: Item, rest: string)
    requires rest == "" || !Quantifier(rest[0])
    ensures ParseItem(PrintItem(it) + rest) == Done(it, rest)
    decreases it
  {
    var q := PrintQuant(it.quant) + rest;
    assert PrintItem(it) + rest == PrintAtom(it.atom) + q;
    AtomRoundTrip(it.atom, q);
    QuantRoundTrip(it.atom, it.quant, rest);
  }

  lemma {:induction false} BranchRoundTrip(b: Branch, rest: string)
    requires rest == "" || rest[0] == '|' || rest[0] == ')'
    ensures ParseBranch(PrintBranch(b) + rest) == Done(b, rest)
    decreases b
  {
    if b.Nil? {
      assert PrintBranch(b) + rest == rest;
    } else {
      var tail := PrintBranch(b.tail) + rest;
      assert PrintBranch(b) + rest == PrintItem(b.item) + tail;
      ItemRoundTrip(b.item, tail);
      BranchRoundTrip(b.tail, rest);
    }
  }

  /** Printing and parsing are inverse: the text denotes the tree and nothing else. */
  lemma {:induction false} AltsRoundTrip(a: Alts, rest: string)
    requires rest == "" || rest[0] == ')'
    ensures ParseAlts(PrintAlts(a) + rest) == Done(a, rest)
    decreases a
  {
    match a
    case Only(b) => BranchRoundTrip(b, rest);
    case Or(b, others) =>
      var tail := "|" + (PrintAlts(others) + rest);
      assert PrintAlts(a) + rest == PrintBranch(b) + tail;
      BranchRoundTrip(b, tail);
      assert tail[1..] == PrintAlts(others) + rest;
      AltsRoundTrip(others, rest);
  }

  // ---- Meaning -----------------------------------------------------------
  // Each relation holds when the expression can take s from position i to j.

  ghost predicate AtomTakes(a: Atom, s: string, i: nat, j: nat)
    requires i <= j <= |s|
    decreases a, 0, 0
  {
    match a
    case Lit(c) => j == i + 1 && s[i] == c
    case Dot => j == i + 1 && s[i] != '\n'
    case Caret => i == j == 0
    case Dollar => i == j == |s|
    case Group(inner) => AltsTake(inner, s, i, j)
    case NotAhead(inner) => i == j && forall k | i <= k <= |s| :: !AltsTake(inner, s, i, k)
  }

  ghost predicate ManyTake(a: Atom, s: string, i: nat, j: nat)
    requires i <= j <= |s|
    decreases a, 1, j - i
  {
    i == j || exists k | i < k <= j :: AtomTakes(a, s, i, k) && ManyTake(a, s, k, j)
  }

  ghost predicate ItemTakes(it: Item, s: string, i: nat, j: nat)
    requires i <= j <= |s|
    decreases it
  {
    match it.quant
    case One => AtomTakes(it.atom, s, i, j)
    case Many => ManyTake(it.atom, s, i, j)
    case Maybe => i == j || AtomTakes(it.atom, s, i, j)
  }

  ghost predicate BranchTakes(b: Branch, s: string, i: nat, j: nat)
    requires i <= j <= |s|
    decreases b, 1
  {
    if b.Nil? then i == j else exists k | i <= k <= j :: BranchSplits(b, s, i, k, j)
  }

  ghost predicate BranchSplits(b: Branch, s: string, i: nat, k: nat, j: nat)
    requires i <= k <= j <= |s| && b.Cons?
    decreases b, 0
  {
    ItemTakes(b.item, s, i, k) && BranchTakes(b.tail, s, k, j)
  }

  lemma SplitPoint(it: Item, tail: Branch, s: string, i: nat, j: nat) returns (k: nat)
    requires i <= j <= |s| && BranchTakes(Cons(it, tail), s, i, j)
    ensures i <= k <= j && ItemTakes(it, s, i, k) && BranchTakes(tail, s, k, j)
  {
    k :| i <= k <= j && BranchSplits(Cons(it, tail), s, i, k, j);
  }

  lemma SplitAt(it: Item, tail: Branch, s: string, i: nat, k: nat, j: nat)
    requires i <= k <= j <= |s| && ItemTakes(it, s, i, k) && BranchTakes(tail, s, k, j)
    ensures BranchTakes(Cons(it, tail), s, i, j)
  {
    assert BranchSplits(Cons(it, tail), s, i, k, j);
  }

  ghost predicate AltsTake(a: Alts, s: string, i: nat, j: nat)
    requires i <= j <= |s|
    decreases a
  {
    BranchTakes(a.branch, s, i, j) || (a.Or? && AltsTake(a.others, s, i, j))
  }

  /** The pattern text is found somewhere in s. */
  ghost predicate Finds(pattern: string, s: string) {
    var p := ParseAlts(pattern);
    p.Done? && p.rest == "" && exists i, j | 0 <= i <= j <= |s| :: AltsTake(p.value, s, i, j)
  }
}
