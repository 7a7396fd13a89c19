/** The topic exclusion expression handed to the native recorder, and the set of
    topics it excludes. */
module ExclusionPattern {
  import opened Regex

  /** The namespace of derived display streams. */
  function Root(): string {
    "/xgc/display"
  }

  function BelowRoot(): string {
    Root() + "/"
  }

  // ---- The generated text ------------------------------------------------

  function EscapeAll(names: seq<string>): (r: seq<string>)
    ensures |r| == |names|
  {
    if names == [] then [] else [Escape(names[0])] + EscapeAll(names[1..])
  }

  function Join(parts: seq<string>): string
    requires parts != []
  {
    if |parts| == 1 then parts[0] else parts[0] + ("|" + Join(parts[1..]))
  }

  /** Selected topics below the prefix, in the order they were selected. */
  function Copies(topics: seq<string>, below: string): (r: seq<string>)
    ensures forall t :: t in r <==> t in topics && below <= t
  {
    if topics == [] then []
    else if below <= topics[0] then [topics[0]] + Copies(topics[1..], below)
    else Copies(topics[1..], below)
  }

  function Derived(copies: seq<string>): string {
    var display := Root() + "(?:/.*)?";
    if copies == [] then display else "(?!(?:" + Join(EscapeAll(copies)) + ")$)" + display
  }

  function PatternText(excluded: seq<string>, topics: seq<string>): string {
    "^(?:" + Join(EscapeAll(excluded) + [Derived(Copies(topics, BelowRoot()))]) + ")$"
  }

  // ---- Its syntax tree ---------------------------------------------------

  function Literal(s: string, tail: Branch): Branch {
    if s == "" then tail else Cons(Item(Lit(s[0]), One), Literal(s[1..], tail))
  }

  function AnyOf(names: seq<string>, last: Alts): Alts {
    if names == [] then last else Or(Literal(names[0], Nil), AnyOf(names[1..], last))
  }

  /** The names as alternatives, with nothing else. */
  function OneOf(names: seq<string>): Alts
    requires names != []
  {
    if |names| == 1 then Only(Literal(names[0], Nil)) else Or(Literal(names[0], Nil), OneOf(names[1..]))
  }

  function SlashAnything(): Alts {
    Only(Cons(Item(Lit('/'), One), Cons(Item(Dot, Many), Nil)))
  }

  function AtOrBelow(root: string): Branch {
    Literal(root, Cons(Item(Group(SlashAnything()), Maybe), Nil))
  }

  function NotAny(copies: seq<string>): Item
    requires copies != []
  {
    Item(NotAhead(Only(Cons(Item(Group(OneOf(copies)), One), Cons(Item(Dollar, One), Nil)))), One)
  }

  function DerivedTree(root: string, copies: seq<string>): Branch {
    if copies == [] then AtOrBelow(root) else Cons(NotAny(copies), AtOrBelow(root))
  }

  function Anchored(a: Alts): Alts {
    Only(Cons(Item(Caret, One), Cons(Item(Group(a), One), Cons(Item(Dollar, One), Nil))))
  }

  function PatternTree(root: string, excluded: seq<string>, copies: seq<string>): Alts {
    Anchored(AnyOf(excluded, Only(DerivedTree(root, copies))))
  }

  // ---- Text and tree agree -----------------------------------------------

  lemma CharText(c: char, tail: Branch)
    ensures PrintBranch(Cons(Item(Lit(c), One), tail)) == EscapeChar(c) + PrintBranch(tail)
  {
    assert PrintAtom(Lit(c)) + "" == EscapeChar(c);
  }

  lemma Associate(a: string, b: string, c: string)
    ensures (a + b) + c == a + (b + c)
  {
  }

  lemma {:induction false} LiteralText(s: string, tail: Branch)
    ensures PrintBranch(Literal(s, tail)) == Escape(s) + PrintBranch(tail)
  {
    if s == "" {
      assert Escape(s) + PrintBranch(tail) == PrintBranch(tail);
    } else {
      LiteralText(s[1..], tail);
      CharText(s[0], Literal(s[1..], tail));
      Associate(EscapeChar(s[0]), Escape(s[1..]), PrintBranch(tail));
    }
  }

  lemma {:induction false} OneOfText(names: seq<string>)
    requires names != []
    ensures PrintAlts(OneOf(names)) == Join(EscapeAll(names))
  {
    LiteralText(names[0], Nil);
    assert Escape(names[0]) + "" == Escape(names[0]);
    if |names| > 1 {
      OneOfText(names[1..]);
      assert EscapeAll(names)[1..] == EscapeAll(names[1..]);
    }
  }

  lemma {:induction false} AnyOfText(names: seq<string>, last: Branch)
    ensures PrintAlts(AnyOf(names, Only(last))) == Join(EscapeAll(names) + [PrintBranch(last)])
  {
    if names == [] {
      assert EscapeAll(names) + [PrintBranch(last)] == [PrintBranch(last)];
    } else {
      AnyOfText(names[1..], last);
      LiteralText(names[0], Nil);
      assert Escape(names[0]) + "" == Escape(names[0]);
      var parts := EscapeAll(names) + [PrintBranch(last)];
      assert parts[1..] == EscapeAll(names[1..]) + [PrintBranch(last)];
    }
  }

  lemma {:induction false} PlainText(s: string)
    requires forall i | 0 <= i < |s| :: !Escaped(s[i])
    ensures Escape(s) == s
  {
    if s != "" {
      PlainText(s[1..]);
    }
  }

  lemma LoneText(it: Item)
    ensures PrintBranch(Cons(it, Nil)) == PrintItem(it)
  {
  }

  lemma SlashText()
    ensures PrintBranch(Cons(Item(Lit('/'), One), Cons(Item(Dot, Many), Nil))) == "/.*"
  {
    LoneText(Item(Dot, Many));
    CharText('/', Cons(Item(Dot, Many), Nil));
  }

  lemma OptionalSlashText()
    ensures PrintBranch(Cons(Item(Group(SlashAnything()), Maybe), Nil)) == "(?:/.*)?"
  {
    var it := Item(Group(SlashAnything()), Maybe);
    SlashText();
    LoneText(it);
    assert PrintAtom(it.atom) == "(?:" + (PrintAlts(SlashAnything()) + ")");
  }

  lemma AtOrBelowText(root: string)
    requires forall i | 0 <= i < |root| :: !Escaped(root[i])
    ensures PrintBranch(AtOrBelow(root)) == root + "(?:/.*)?"
  {
    OptionalSlashText();
    LiteralText(root, Cons(Item(Group(SlashAnything()), Maybe), Nil));
    PlainText(root);
  }

  lemma RootIsPlain()
    ensures forall i | 0 <= i < |Root()| :: !Escaped(Root()[i])
  {
  }

  lemma NotAnyText(copies: seq<string>)
    requires copies != []
    ensures PrintItem(NotAny(copies)) == "(?!(?:" + Join(EscapeAll(copies)) + ")$)"
  {
    var names := OneOf(copies);
    OneOfText(copies);
    var g, dollar := Item(Group(names), One), Cons(Item(Dollar, One), Nil);
    assert PrintBranch(dollar) == "$";
    assert PrintItem(g) == "(?:" + (PrintAlts(names) + ")");
    assert PrintBranch(Cons(g, dollar)) == "(?:" + (PrintAlts(names) + ")") + "$";
    assert PrintItem(NotAny(copies)) == "(?!" + (PrintAlts(Only(Cons(g, dollar))) + ")");
  }

  lemma DerivedText(copies: seq<string>)
    ensures PrintBranch(DerivedTree(Root(), copies)) == Derived(copies)
  {
    RootIsPlain();
    AtOrBelowText(Root());
    if copies != [] {
      NotAnyText(copies);
    }
  }

  lemma AnchoredText(a: Alts)
    ensures PrintAlts(Anchored(a)) == "^(?:" + PrintAlts(a) + ")$"
  {
    var g, dollar := Item(Group(a), One), Cons(Item(Dollar, One), Nil);
    assert PrintBranch(dollar) == "$";
    assert PrintItem(g) == "(?:" + (PrintAlts(a) + ")");
    assert PrintBranch(Cons(g, dollar)) == "(?:" + (PrintAlts(a) + ")") + "$";
    assert PrintItem(Item(Caret, One)) == "^";
  }

  /** The text built by joining escaped names parses to the intended tree: no topic
      name, whatever characters it holds, changes the structure. */
  lemma PatternParses(excluded: seq<string>, topics: seq<string>)
    ensures ParseAlts(PatternText(excluded, topics))
            == Done(PatternTree(Root(), excluded, Copies(topics, BelowRoot())), "")
  {
    var copies := Copies(topics, BelowRoot());
    var last := DerivedTree(Root(), copies);
    DerivedText(copies);
    AnyOfText(excluded, last);
    AnchoredText(AnyOf(excluded, Only(last)));
    var tree := PatternTree(Root(), excluded, copies);
    AltsRoundTrip(tree, "");
    assert PrintAlts(tree) + "" == PrintAlts(tree);
  }

  // ---- What the tree matches ---------------------------------------------

  lemma CharTakes(c: char, tail: Branch, s: string, i: nat, j: nat)
    requires i <= j <= |s|
    ensures BranchTakes(Cons(Item(Lit(c), One), tail), s, i, j)
            <==> i < j && s[i] == c && BranchTakes(tail, s, i + 1, j)
  {
    var it := Item(Lit(c), One);
    if BranchTakes(Cons(it, tail), s, i, j) {
      var k := SplitPoint(it, tail, s, i, j);
      assert AtomTakes(it.atom, s, i, k);
    }
    if i < j && s[i] == c && BranchTakes(tail, s, i + 1, j) {
      assert AtomTakes(it.atom, s, i, i + 1);
      SplitAt(it, tail, s, i, i + 1, j);
    }
  }

  lemma {:induction false} LiteralTakes(t: string, tail: Branch, s: string, i: nat, j: nat)
    requires i <= j <= |s|
    ensures BranchTakes(Literal(t, tail), s, i, j)
            <==> i + |t| <= j && s[i..i + |t|] == t && BranchTakes(tail, s, i + |t|, j)
  {
    if t == "" {
      assert s[i..i] == t;
    } else {
      CharTakes(t[0], Literal(t[1..], tail), s, i, j);
      if i < j {
        LiteralTakes(t[1..], tail, s, i + 1, j);
        if i + |t| <= j {
          assert s[i..i + |t|] == [s[i]] + s[i + 1..i + 1 + |t[1..]|];
          assert t == [t[0]] + t[1..];
        }
      }
    }
  }

  lemma WordTakes(t: string, s: string, i: nat, j: nat)
    requires i <= j <= |s|
    ensures BranchTakes(Literal(t, Nil), s, i, j) <==> s[i..j] == t
  {
    LiteralTakes(t, Nil, s, i, j);
  }

  lemma {:induction false} OneOfTakes(names: seq<string>, s: string, i: nat, j: nat)
    requires i <= j <= |s| && names != []
    ensures AltsTake(OneOf(names), s, i, j) <==> s[i..j] in names
  {
    WordTakes(names[0], s, i, j);
    if |names| > 1 {
      OneOfTakes(names[1..], s, i, j);
      assert names == [names[0]] + names[1..];
    }
  }

  lemma {:induction false} AnyOfTakes(names: seq<string>, last: Alts, s: string, i: nat, j: nat)
    requires i <= j <= |s|
    ensures AltsTake(AnyOf(names, last), s, i, j) <==> s[i..j] in names || AltsTake(last, s, i, j)
  {
    if names != [] {
      WordTakes(names[0], s, i, j);
      AnyOfTakes(names[1..], last, s, i, j);
      assert names == [names[0]] + names[1..];
    }
  }

  predicate OneLine(s: string) {
    forall i | 0 <= i < |s| :: s[i] != '\n'
  }

  lemma {:induction false} DotsTake(s: string, i: nat, j: nat)
    requires i <= j <= |s| && OneLine(s)
    ensures ManyTake(Dot, s, i, j)
    decreases j - i
  {
    if i < j {
      DotsTake(s, i + 1, j);
      assert AtomTakes(Dot, s, i, i + 1);
    }
  }

  /** One optional item at the end of a branch. */
  lemma LastMaybe(a: Atom, s: string, i: nat, j: nat)
    requires i <= j <= |s|
    ensures BranchTakes(Cons(Item(a, Maybe), Nil), s, i, j) <==> i == j || AtomTakes(a, s, i, j)
  {
    var it := Item(a, Maybe);
    if BranchTakes(Cons(it, Nil), s, i, j) {
      var k := SplitPoint(it, Nil, s, i, j);
    }
    if i == j || AtomTakes(a, s, i, j) {
      SplitAt(it, Nil, s, i, j, j);
    }
  }

  /** A slash and then anything. */
  lemma SlashTakes(s: string, i: nat, j: nat)
    requires i <= j <= |s| && OneLine(s)
    ensures BranchTakes(Cons(Item(Lit('/'), One), Cons(Item(Dot, Many), Nil)), s, i, j) <==> i < j && s[i] == '/'
  {
    var dots := Cons(Item(Dot, Many), Nil);
    CharTakes('/', dots, s, i, j);
    if i < j {
      DotsTake(s, i + 1, j);
      SplitAt(Item(Dot, Many), Nil, s, i + 1, j, j);
    }
  }

  lemma AtOrBelowTakes(root: string, s: string, j: nat)
    requires j <= |s| && OneLine(s)
    ensures BranchTakes(AtOrBelow(root), s, 0, j) <==> s[..j] == root || root + "/" <= s[..j]
  {
    var slash, n := Group(SlashAnything()), |root|;
    LiteralTakes(root, Cons(Item(slash, Maybe), Nil), s, 0, j);
    if n <= j {
      LastMaybe(slash, s, n, j);
      SlashTakes(s, n, j);
      assert AltsTake(SlashAnything(), s, n, j) <==> BranchTakes(SlashAnything().branch, s, n, j);
      assert s[..n] == root && n < j && s[n] == '/' <==> root + "/" <= s[..j] && n < j;
    }
  }

  /** An end anchor as the last item. */
  lemma LastDollar(s: string, i: nat, j: nat)
    requires i <= j <= |s|
    ensures BranchTakes(Cons(Item(Dollar, One), Nil), s, i, j) <==> i == j == |s|
  {
    var it := Item(Dollar, One);
    if BranchTakes(Cons(it, Nil), s, i, j) {
      var k := SplitPoint(it, Nil, s, i, j);
      assert AtomTakes(Dollar, s, i, k);
    }
    if i == j == |s| {
      assert AtomTakes(Dollar, s, i, j);
      SplitAt(it, Nil, s, i, j, j);
    }
  }

  /** The look-ahead blocks exactly the names given. */
  lemma NotAnyTakes(copies: seq<string>, s: string, j: nat)
    requires j <= |s| && copies != []
    ensures ItemTakes(NotAny(copies), s, 0, j) <==> j == 0 && s !in copies
  {
    var g, dollar := Item(Group(OneOf(copies)), One), Cons(Item(Dollar, One), Nil);
    var inner := Only(Cons(g, dollar));
    forall k | 0 <= k <= |s|
      ensures AltsTake(inner, s, 0, k) <==> k == |s| && s in copies
    {
      assert AltsTake(inner, s, 0, k) <==> BranchTakes(inner.branch, s, 0, k);
      if BranchTakes(inner.branch, s, 0, k) {
        var m := SplitPoint(g, dollar, s, 0, k);
        LastDollar(s, m, k);
        assert AtomTakes(g.atom, s, 0, m);
        OneOfTakes(copies, s, 0, m);
        assert s[0..m] == s;
      }
      if k == |s| && s in copies {
        assert s[0..k] == s;
        OneOfTakes(copies, s, 0, k);
        assert AtomTakes(g.atom, s, 0, k);
        LastDollar(s, k, k);
        SplitAt(g, dollar, s, 0, k, k);
      }
    }
    assert ItemTakes(NotAny(copies), s, 0, j) <==> AtomTakes(NotAhead(inner), s, 0, j);
    assert s in copies ==> AltsTake(inner, s, 0, |s|);
  }

  lemma DerivedTakes(root: string, copies: seq<string>, s: string, j: nat)
    requires j <= |s| && OneLine(s)
    ensures BranchTakes(DerivedTree(root, copies), s, 0, j)
            <==> (s[..j] == root || root + "/" <= s[..j]) && s !in copies
  {
    AtOrBelowTakes(root, s, j);
    if copies != [] {
      var it, tail := NotAny(copies), AtOrBelow(root);
      if BranchTakes(Cons(it, tail), s, 0, j) {
        var k := SplitPoint(it, tail, s, 0, j);
        NotAnyTakes(copies, s, k);
      }
      NotAnyTakes(copies, s, 0);
      if s !in copies && BranchTakes(tail, s, 0, j) {
        SplitAt(it, tail, s, 0, 0, j);
      }
    }
  }

  /** Between the anchors the whole name must match. */
  lemma AnchoredTakes(a: Alts, s: string, i: nat, j: nat)
    requires i <= j <= |s|
    ensures AltsTake(Anchored(a), s, i, j) <==> i == 0 && j == |s| && AltsTake(a, s, 0, |s|)
  {
    var caret, g, dollar := Item(Caret, One), Item(Group(a), One), Cons(Item(Dollar, One), Nil);
    assert AltsTake(Anchored(a), s, i, j) <==> BranchTakes(Cons(caret, Cons(g, dollar)), s, i, j);
    if BranchTakes(Cons(caret, Cons(g, dollar)), s, i, j) {
      var k := SplitPoint(caret, Cons(g, dollar), s, i, j);
      assert AtomTakes(Caret, s, i, k);
      var m := SplitPoint(g, dollar, s, k, j);
      LastDollar(s, m, j);
      assert AtomTakes(Group(a), s, 0, m);
    }
    if i == 0 && j == |s| && AltsTake(a, s, 0, |s|) {
      LastDollar(s, j, j);
      assert AtomTakes(Group(a), s, 0, j);
      SplitAt(g, dollar, s, 0, j, j);
      assert AtomTakes(Caret, s, 0, 0);
      SplitAt(caret, Cons(g, dollar), s, 0, 0, j);
    }
  }

  predicate Intended(excluded: seq<string>, topics: seq<string>, name: string) {
    || name in excluded
    || name == Root()
    || (BelowRoot() <= name && name !in topics)
  }

  lemma TreeTakes(root: string, excluded: seq<string>, copies: seq<string>, s: string, i: nat, j: nat)
    requires i <= j <= |s| && OneLine(s)
    ensures AltsTake(PatternTree(root, excluded, copies), s, i, j)
            <==> i == 0 && j == |s| && (s in excluded || ((s == root || root + "/" <= s) && s !in copies))
  {
    var last := Only(DerivedTree(root, copies));
    AnchoredTakes(AnyOf(excluded, last), s, i, j);
    AnyOfTakes(excluded, last, s, 0, |s|);
    DerivedTakes(root, copies, s, |s|);
    assert s[0..|s|] == s && s[..|s|] == s;
    assert AltsTake(last, s, 0, |s|) <==> BranchTakes(last.branch, s, 0, |s|);
  }

  /** The generated expression excludes exactly the intended topics. */
  lemma ExcludesExactly(excluded: seq<string>, topics: seq<string>, name: string)
    requires OneLine(name)
    ensures Finds(PatternText(excluded, topics), name) <==> Intended(excluded, topics, name)
  {
    var copies := Copies(topics, BelowRoot());
    PatternParses(excluded, topics);
    forall i, j | 0 <= i <= j <= |name|
      ensures AltsTake(PatternTree(Root(), excluded, copies), name, i, j)
              <==> i == 0 && j == |name| && Intended(excluded, topics, name)
    {
      TreeTakes(Root(), excluded, copies, name, i, j);
    }
    assert AltsTake(PatternTree(Root(), excluded, copies), name, 0, |name|) <==> Intended(excluded, topics, name);
  }

  /** A selected topic is excluded exactly when it is the bare display root: the one
      selection the expression does not honour. */
  lemma SelectedKept(excluded: seq<string>, topics: seq<string>, topic: string)
    requires OneLine(topic) && topic in topics && topic !in excluded
    ensures Finds(PatternText(excluded, topics), topic) <==> topic == Root()
  {
    ExcludesExactly(excluded, topics, topic);
  }

  lemma SelectedRootIsExcluded()
    ensures Finds(PatternText([], ["/xgc/display"]), "/xgc/display")
  {
    ExcludesExactly([], [Root()], Root());
  }
}
