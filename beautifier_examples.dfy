/**
 * The worked examples of the beautifier's module documentation, proved on
 * the model, with the general facts about the rewriting steps they rest on.
 * Literal texts are taken apart into short pieces: every step works on
 * pieces, not on the whole literal.
 */
module BeautifierExamples {
  import opened Wrappers
  import opened Text
  import opened GccParser
  import opened GccBeautifier
  import opened BeautifierProperties

  // ---------------------------------------------------------------------------
  // Small facts about matching and filling, used to take literal texts apart.

  lemma NotStartsWithAt(m: string, p: string, k: nat)
    requires k < |p| && (k >= |m| || m[k] != p[k])
    ensures !StartsWith(m, p)
  {
    StartsWithIsPrefix(m, p);
  }

  lemma NotContainsCons(x: char, s: string, p: string)
    requires !StartsWith([x] + s, p) && !Contains(s, p)
    ensures !Contains([x] + s, p)
  {
    assert ([x] + s)[1..] == s;
  }

  /** A mismatch at index `k` before a text without the pattern's first letter. */
  lemma MissOnce(x: char, c: string, p: string, k: nat)
    requires 0 < k < |p| && x == p[0] && p[0] !in c && (k > |c| || c[k - 1] != p[k])
    ensures !Contains([x] + c, p)
  {
    AbsentChar(c, p, 0);
    NotStartsWithAt([x] + c, p, k);
    NotContainsCons(x, c, p);
  }

  /** Two mismatches at index 1 before a text without the pattern's first letter. */
  lemma MissTwice(x: char, y: char, c: string, p: string)
    requires |p| >= 2 && x == p[0] && y == p[0] && p[1] != y && p[0] !in c
    requires c == [] || c[0] != p[1]
    ensures !Contains([x] + ([y] + c), p)
  {
    AbsentChar(c, p, 0);
    NotStartsWithAt([y] + c, p, 1);
    NotContainsCons(y, c, p);
    NotStartsWithAt([x] + ([y] + c), p, 1);
    NotContainsCons(x, [y] + c, p);
  }

  /** Text longer than `m` does not occur in it. */
  lemma TooLong(m: string, p: string)
    requires |p| > |m|
    ensures !Contains(m, p)
  {
    if Contains(m, p) {
      ContainsLength(m, p);
    }
  }

  lemma ReplaceTooLong(s: string, p: string, r: string)
    requires |p| > |s|
    ensures !Contains(s, p) && ReplaceAll(s, p, r) == s
  {
    if Contains(s, p) {
      ContainsLength(s, p);
    }
    ReplaceAbsent(s, p, r);
  }

  lemma ReplaceWhole(p: string, r: string)
    requires p != []
    ensures ReplaceAll(p, p, r) == r
  {
    assert p + [] == p;
    ReplaceAtStart(p, [], r);
  }

  lemma {:induction false} ContainsAt(s: string, i: nat, p: string)
    requires i + |p| <= |s| && s[i..i + |p|] == p
    ensures Contains(s, p)
  {
    if i == 0 {
      StartsWithIsPrefix(s, p);
    } else {
      assert s[1..][i - 1..i - 1 + |p|] == s[i..i + |p|];
      ContainsAt(s[1..], i - 1, p);
    }
  }

  lemma FindStart(s: string, p: string)
    requires StartsWith(s, p)
    ensures Contains(s, p) && Find(s, p) == 0
  {
    ContainsPrefix(s, p);
  }

  lemma {:induction false} FindSkip(a: string, b: string, p: string)
    requires p != [] && p[0] !in a && Contains(b, p)
    ensures Contains(a + b, p) && Find(a + b, p) == |a| + Find(b, p)
  {
    ContainsLonger(a, b, p);
    if a != [] {
      StartsWithIsPrefix(a + b, p);
      assert (a + b)[0] == a[0];
      assert (a + b)[1..] == a[1..] + b;
      FindSkip(a[1..], b, p);
    } else {
      assert a + b == b;
    }
  }

  lemma DropPrefix(a: string, b: string)
    ensures (a + b)[|a|..] == b
  {
  }

  lemma SliceSlice(t: string, a: nat, b: nat)
    requires a + b <= |t|
    ensures t[a..][b..] == t[a + b..]
  {
  }

  lemma Nest(a: string, b: string, c: string, d: string, e: string, f: string)
    ensures a + b + c + d + e + f == a + (b + (c + (d + (e + f))))
  {
  }

  lemma FillHole(a: string, b: string, x: string)
    requires '%' !in a
    ensures Fill(a + "%s" + b, x) == a + x + Fill(b, x)
  {
    assert a + "%s" + b == a + ("%s" + b);
    ReplaceSkip(a, "%s" + b, "%s", x);
    ReplaceAtStart("%s", b, x);
  }

  lemma FillNone(b: string, x: string)
    requires '%' !in b
    ensures Fill(b, x) == b
  {
    if b != [] {
      AbsentChar(b, "%s", 0);
    }
    ReplaceAbsent(b, "%s", x);
  }

  /** Filling a template with one hole. */
  lemma FillSingle(t: string, a: string, c: string, x: string)
    requires t == a + "%s" + c && '%' !in a && '%' !in c
    ensures Fill(t, x) == a + x + c
  {
    FillHole(a, c, x);
    FillNone(c, x);
  }

  /** Filling a template with two holes. */
  lemma FillPair(t: string, a: string, b: string, c: string, x: string)
    requires t == a + "%s" + (b + "%s" + c) && '%' !in a && '%' !in b && '%' !in c
    ensures Fill(t, x) == a + x + b + x + c
  {
    FillHole(a, b + "%s" + c, x);
    FillSingle(b + "%s" + c, b, c, x);
  }

  /** Filling three holes. */
  lemma FillThree(a: string, b: string, c: string, d: string, x: string)
    requires '%' !in a && '%' !in b && '%' !in c && '%' !in d
    ensures Fill(a + "%s" + (b + "%s" + (c + "%s" + d)), x) == a + x + (b + x + (c + x + d))
  {
    FillHole(a, b + "%s" + (c + "%s" + d), x);
    FillHole(b, c + "%s" + d, x);
    FillHole(c, d, x);
    FillNone(d, x);
  }

  /** Filling a template keeps the text before its first '%'. */
  lemma FillPrefix(t: string, h: nat, x: string)
    requires h <= |t| && '%' !in t[..h]
    ensures |Fill(t, x)| >= h && Fill(t, x)[..h] == t[..h]
  {
    assert t == t[..h] + t[h..];
    ReplaceSkip(t[..h], t[h..], "%s", x);
  }

  lemma FillLonger(t: string, x: string)
    requires |x| >= 2
    ensures |Fill(t, x)| >= |t|
  {
    ReplaceLength(t, "%s", x);
  }

  /** A template with a hole grows when filled with more than two characters. */
  lemma FillGrows(t: string, x: string)
    requires Contains(t, "%s") && |x| > 2
    ensures |Fill(t, x)| > |t|
  {
    ReplaceLength(t, "%s", x);
  }

  /** Plain text: no bracket and no delimiter. */
  predicate Bare(s: string)
  {
    forall k | 0 <= k < |s| :: !IsOpener(s[k]) && !IsCloser(s[k]) && !IsDelimiter(s[k])
  }

  lemma {:induction false} ScanBare(a: string, b: string)
    requires Bare(a) && b != [] && IsDelimiter(b[0])
    ensures Scan(a + b, Zero) == Some(|a|)
  {
    if a == [] {
      assert a + b == b;
    } else {
      assert (a + b)[0] == a[0];
      assert (a + b)[1..] == a[1..] + b;
      ScanStep(a + b, Zero);
      StepOther(Zero, a[0]);
      ScanBare(a[1..], b);
    }
  }

  /** `_next_token` reads a bare word up to the delimiter after it. */
  lemma TokenBare(pre: string, tok: string, post: string)
    requires Bare(tok) && tok != [] && !IsSpace(tok[0]) && !IsSpace(tok[|tok| - 1])
    requires post != [] && IsDelimiter(post[0])
    ensures TokenAt(pre + tok + post, |pre|) == Some(tok)
  {
    var line := pre + tok + post;
    assert line == pre + (tok + post);
    assert line[|pre|..] == tok + post;
    ScanBare(tok, post);
    assert (tok + post)[..|tok|] == tok;
    StripUnchanged(tok);
  }

  // ---------------------------------------------------------------------------
  // The with-clause example: "Type<T> [with T = int]".

  lemma {:induction false} RemoveWithSkip(a: string, s: string)
    requires '[' !in a
    ensures RemoveWith(a + s) == a + RemoveWith(s)
  {
    if a == [] {
      assert a + s == s;
    } else {
      NotStartsWithAt(a + s, "[with", 0);
      assert (a + s)[1..] == a[1..] + s;
      RemoveWithSkip(a[1..], s);
    }
  }

  /** A clause at the end of the text is deleted whole. */
  lemma RemoveClause(a: string, b: string)
    requires '[' !in a && b != [] && !IsSpace(b[0]) && ']' !in b
    ensures RemoveWith(a + "[with " + b + "]") == a
  {
    ClauseShape(a, b, "");
    WithAtClause(b, "");
    var c := "[with" + (" " + b + "]" + "");
    assert a + "[with " + b + "]" + "" == a + "[with " + b + "]";
    RemoveWithSkip(a, c);
    assert c[6 + |b| + 1..] == [];
    assert RemoveWith(c) == [];
    assert a + [] == a;
  }

  lemma ReplaceChar3(x: char, a: string, b: string, c: string, r: string)
    requires x !in a && x !in b && x !in c
    ensures ReplaceAll([x] + a + [x] + b + [x] + c, [x], r) == r + a + r + b + r + c
  {
    AbsentChar(c, [x], 0);
    ReplaceAbsent(c, [x], r);
    ReplaceAtStart([x], c, r);
    ReplaceSkip(b, [x] + c, [x], r);
    ReplaceAtStart([x], b + ([x] + c), r);
    ReplaceSkip(a, [x] + (b + ([x] + c)), [x], r);
    ReplaceAtStart([x], a + ([x] + (b + ([x] + c))), r);
    Nest([x], a, [x], b, [x], c);
    Nest(r, a, r, b, r, c);
  }

  lemma InputPieces()
    ensures "Type<T> [with T = int]" == "T" + "ype<" + "T" + "> [with " + "T" + " = int]"
  {}

  lemma OutputPieces()
    ensures "intype<int> [with int = int]" == "int" + "ype<" + "int" + "> [with " + "int" + " = int]"
    ensures "intype<int> [with int = int]" == "intype<int> " + "[with " + "int = int" + "]"
  {}

  /** Substituting "T" by "int" in "Type<T> [with T = int]" also rewrites the "T" of "Type". */
  lemma SubstituteClobbers()
    ensures Substitute("Type<T> [with T = int]", [WithPair("T", "int")]) == "intype<int> [with int = int]"
  {
    InputPieces();
    OutputPieces();
    assert 'T' !in "ype<" && 'T' !in "> [with " && 'T' !in " = int]";
    ReplaceChar3('T', "ype<", "> [with ", " = int]", "int");
    assert [WithPair("T", "int")][1..] == [];
  }

  lemma RemoveStep()
    ensures RemoveWith("intype<int> [with int = int]") == "intype<int> "
  {
    OutputPieces();
    RemoveClause("intype<int> ", "int = int");
  }

  lemma StripStep()
    ensures Strip("intype<int> ") == "intype<int>"
  {
    assert "intype<int> " == "" + "intype<int>" + " ";
    StripAround("", "intype<int>", " ");
  }

  /** The with-clause step of the documentation's first example. */
  lemma WithStep()
    ensures Strip(RemoveWith(Substitute("Type<T> [with T = int]", [WithPair("T", "int")]))) == "intype<int>"
  {
    SubstituteClobbers();
    RemoveStep();
    StripStep();
  }

  lemma {:induction false} TemplatesAbsent(m: string, n: nat)
    requires n <= |Replacements|
    requires forall k | 0 <= k < n :: !Contains(m, Replacements[k].name)
    ensures TemplatesUpTo(m, n) == m
  {
    if n > 0 {
      TemplatesAbsent(m, n - 1);
    }
  }

  /** No container name occurs in a text without the letters 'v', 'l', 'q' and 's'. */
  lemma NoContainer(m: string)
    requires 'v' !in m && 'l' !in m && 'q' !in m && 's' !in m
    ensures forall k | 0 <= k < |Replacements| :: !Contains(m, Replacements[k].name)
  {
    forall k | 0 <= k < |Replacements|
      ensures !Contains(m, Replacements[k].name)
    {
      var name := Replacements[k].name;
      if k == 0 {
        assert name == "vector";
        AbsentChar(m, name, 0);
      } else if k == 1 {
        assert name == "list";
        AbsentChar(m, name, 0);
      } else if k == 2 {
        assert name == "queue";
        AbsentChar(m, name, 0);
      } else if k == 3 {
        assert name == "deque";
        AbsentChar(m, name, 2);
      } else {
        assert name == "stack" || name == "set";
        AbsentChar(m, name, 0);
      }
    }
  }

  lemma SpellingLong(i: nat, j: nat)
    requires i < |StrTypes| && j < |CharTypes|
    ensures |TypedefSpelling(i, j)| >= 30
  {
    assert |StrTypes[i].0| >= 30;
    FillLonger(StrTypes[i].0, CharTypes[j]);
  }

  lemma {:induction false} CompactCharsShort(m: string, i: nat, j: nat)
    requires i < |StrTypes| && j <= |CharTypes| && |m| < 30
    ensures CompactChars(m, i, j) == m
  {
    if j > 0 {
      CompactCharsShort(m, i, j - 1);
      SpellingLong(i, j - 1);
      ReplaceTooLong(m, TypedefSpelling(i, j - 1), ShortName(i, j - 1));
    }
  }

  lemma {:induction false} CompactShort(m: string, n: nat)
    requires n <= |StrTypes| && |m| < 30
    ensures CompactTypes(m, n) == m
  {
    if n > 0 {
      CompactShort(m, n - 1);
      CompactCharsShort(m, n - 1, |CharTypes|);
    }
  }

  lemma NormalPlain(f: string)
    requires |f| < 30 && ' ' !in f && ':' !in f
    requires 'v' !in f && 'l' !in f && 'q' !in f && 's' !in f
    ensures NormalForm(f, None) == f
  {
    AbsentChar(f, "> >", 1);
    AbsentChar(f, "std::", 3);
    ReplaceAbsent(f, "std::", "");
    AbsentChar(f, "__gnu_cxx::", 9);
    ReplaceAbsent(f, "__gnu_cxx::", "");
    CompactShort(f, |StrTypes|);
    NoContainer(f);
    TemplatesAbsent(f, |Replacements|);
  }

  lemma IntypeIsFinal()
    ensures NormalForm("intype<int>", None) == "intype<int>"
  {
    NormalPlain("intype<int>");
  }

  lemma OnePair()
    ensures WithPairs([WithPair("T", "int")]) && Body([WithPair("T", "int")]) == "T = int"
  {
    var ps := [WithPair("T", "int")];
    assert WithText("T") && WithText("int");
    assert PairsText(ps[1..]);
  }

  lemma InputClause()
    ensures "Type<T> [with T = int]" == "Type<T> " + "[with " + "T = int" + "]" + ""
  {
  }

  /** The with-clause of the first example reads back as the one pair T = int. */
  lemma WithTokensExample()
    ensures WithTokens("Type<T> [with T = int]") == Ok([WithPair("T", "int")])
  {
    OnePair();
    InputClause();
    WithClauseRoundTrip("Type<T> ", [WithPair("T", "int")], "");
  }

  /** Text without brackets, commas, '=' or ']'. */
  predicate Flat(s: string)
  {
    forall k | 0 <= k < |s| :: !IsOpener(s[k]) && !IsCloser(s[k]) && s[k] != ',' && s[k] != '='
  }

  /** A template name with a bracket-free argument list, whose commas all sit inside its angle brackets. */
  lemma TemplateNested(name: string, args: string)
    requires Flat(name) && forall k | 0 <= k < |args| :: !IsOpener(args[k]) && !IsCloser(args[k]) && args[k] != '='
    ensures Nested(name + "<" + args + ">")
  {
    var open := Zero.Step('<');
    assert open == Depths(1, 0, 0, 0);
    assert name + "<" + args + ">" == name + ("<" + (args + ">"));
    PlainWalk(Zero, name);
    PlainWalk(open, args);
    assert Walk(Zero, "<") == open && Inside(Zero, "<");
    assert Walk(open, ">") == Zero && Inside(open, ">");
    WalkAppend(open, args, ">");
    WalkAppend(Zero, "<", args + ">");
    WalkAppend(Zero, name, "<" + (args + ">"));
  }

  /** A flat word is a key or value. */
  lemma FlatText(s: string)
    requires s != [] && !IsSpace(s[0]) && !IsSpace(s[|s| - 1]) && Flat(s)
    ensures WithText(s)
  {
    PlainWalk(Zero, s);
  }

  const MapArg := "map" + "<" + "int, char" + ">"

  /** `map<int, char>` is one key or value: its comma sits inside the angle brackets. */
  lemma MapIsNested()
    ensures WithText(MapArg)
  {
    TemplateNested("map", "int, char");
  }

  lemma TwoPairs(p: WithPair, q: WithPair)
    requires WithText(p.key) && WithText(p.value) && WithText(q.key) && WithText(q.value)
    ensures WithPairs([p, q]) && Body([p, q]) == Entry(p) + ", " + Entry(q)
  {
    var ps := [p, q];
    assert ps[1..] == [q] && ps[1..][1..] == [];
  }

  /** "f(T, U) [with T = map<int, char>, U = X]" */
  const NestedCode := "f(T, U) " + "[with " + ("T = " + MapArg + ", " + "U = X") + "]"

  /** A comma inside a template argument does not end the entry: two pairs come back, not three. */
  lemma NestedClauseExample()
    ensures WithTokens(NestedCode) == Ok([WithPair("T", MapArg), WithPair("U", "X")])
  {
    var p, q := WithPair("T", MapArg), WithPair("U", "X");
    MapIsNested();
    FlatText("T");
    FlatText("U");
    FlatText("X");
    TwoPairs(p, q);
    assert Entry(p) == "T = " + MapArg && Entry(q) == "U = X";
    assert NestedCode == "f(T, U) " + "[with " + (Entry(p) + ", " + Entry(q)) + "]" + "";
    WithClauseRoundTrip("f(T, U) ", [p, q], "");
  }

  lemma TwoEquals(a: string, b: string, c: string)
    requires '=' !in a && '=' !in b && '=' !in c
    ensures multiset(a + "=" + b + "=" + c)['='] == 2
  {
    assert multiset(a + "=" + b + "=" + c) == multiset(a) + multiset("=") + multiset(b) + multiset("=") + multiset(c);
  }

  /** "T = a = b" */
  const TwoEqualsEntry := "T " + "=" + " a " + "=" + " b"

  /** An entry with two '=' does not unpack: "f [with T = a = b]" fails. */
  lemma TwoEqualsExample()
    ensures WithTokens("f " + "[with " + TwoEqualsEntry + "]") == Err(ValueError)
  {
    assert Flat("T ") && Flat(" a ") && Flat(" b");
    ChainFails("f ", "T ", " a ", " b");
  }

  /** An entry `a = b = c` of flat pieces is the only entry of a clause that fails. */
  lemma ChainFails(prefix: string, a: string, b: string, c: string)
    requires '[' !in prefix && Flat(a) && Flat(b) && Flat(c) && a != [] && !IsSpace(a[0])
    ensures WithTokens(prefix + "[with " + (a + "=" + b + "=" + c) + "]") == Err(ValueError)
  {
    var e := a + "=" + b + "=" + c;
    TwoEquals(a, b, c);
    forall k | 0 <= k < |e| ensures !IsOpener(e[k]) && !IsCloser(e[k]) && e[k] != ',' {
      if k < |a| {
        assert e[k] == a[k];
      } else if k == |a| || k == |a| + 1 + |b| {
        assert e[k] == '=';
      } else if k < |a| + 1 + |b| {
        assert e[k] == b[k - |a| - 1];
      } else {
        assert e[k] == c[k - |a| - |b| - 2];
      }
    }
    PlainWalk(Zero, e);
    OnlyEntryFails(prefix, e);
  }

  /** A clause whose only entry does not unpack fails. */
  lemma OnlyEntryFails(prefix: string, e: string)
    requires '[' !in prefix && e != [] && !IsSpace(e[0])
    requires Inside(Zero, e) && Walk(Zero, e) == Zero && ']' !in e && multiset(e)['='] != 1
    ensures WithTokens(prefix + "[with " + e + "]") == Err(ValueError)
  {
    assert prefix + "[with " + e + "]" == prefix + "[with " + Lead([]) + e + [] + "]" + "";
    MalformedEntryFails(prefix, [], e, [], "");
  }

  /** A bad entry after a good one: the good pair is lost with the rest. */
  lemma LaterEntryExample()
    ensures WithTokens("f [with T = int, U]") == Err(ValueError)
  {
    var ps := [WithPair("T", "int")];
    OnePair();
    assert Lead(ps) == "T = int, ";
    PlainWalk(Zero, "U");
    assert multiset("U")['='] == 0;
    assert "f [with T = int, U]" == "f " + "[with " + Lead(ps) + "U" + [] + "]" + "";
    MalformedEntryFails("f ", ps, "U", [], "");
  }

  /** An array bound in square brackets is not a clause. */
  lemma ArrayBoundExample()
    ensures WithTokens("int a[3]") == Ok([])
  {
    var code := "int a[3]";
    forall i | 0 <= i < |code| ensures WithAt(code[i..]).None? {
      if i == 5 {
        NotStartsWithAt(code[i..], "[with", 1);
      } else {
        NotStartsWithAt(code[i..], "[with", 0);
      }
    }
    NoClauseNoPairs(code);
  }

  /** The normal level, after its with-clause step, is the normal level without one. */
  lemma NormalAfterWith(f: string, pairs: seq<WithPair>)
    ensures NormalForm(f, Some(pairs)) == NormalForm(Strip(RemoveWith(Substitute(f, pairs))), None)
  {
  }

  /**
   * The normal level on the documentation's first example. Keys are
   * replaced as plain substrings, so the "T" of "Type" is rewritten too:
   * the result is "intype<int>", where the documentation shows "Type<int>".
   */
  lemma WithExample()
    ensures NormalForm("Type<T> [with T = int]", Some([WithPair("T", "int")])) == "intype<int>"
  {
    NormalAfterWith("Type<T> [with T = int]", [WithPair("T", "int")]);
    WithStep();
    IntypeIsFinal();
  }

  // ---------------------------------------------------------------------------
  // The "> >" example.

  lemma ClosersExample()
    ensures CollapseClosers("Type<T, U<V> >") == "Type<T, U<V>>"
  {
    var a := "Type<T, U<V";
    assert "Type<T, U<V> >" == a + "> >";
    assert "Type<T, U<V>>" == a + ">>";
    assert '>' !in a;
    StartsWithAppend("> >", []);
    assert "> >" + [] == "> >";
    ContainsPrefix("> >", "> >");
    ContainsLonger(a, "> >", "> >");
    ReplaceSkip(a, "> >", "> >", ">>");
    ReplaceAtStart("> >", [], ">>");
    assert ReplaceAll(a + "> >", "> >", ">>") == a + ">>";
    if Contains(">>", "> >") { ContainsLength(">>", "> >"); }
    NotContainsSplit(a, ">>", "> >");
  }

  // ---------------------------------------------------------------------------
  // The typedef table.

  lemma NotFilled(m: string, t: string, x: string, k: nat)
    requires m != [] && m[0] == 'b' && 'b' !in m[1..]
    requires 0 < k < |t| && '%' !in t[..k + 1] && t[0] == 'b'
    requires k >= |m| || m[k] != t[k]
    ensures !Contains(m, Fill(t, x))
  {
    var sp := Fill(t, x);
    FillPrefix(t, k + 1, x);
    assert sp[0] == t[..k + 1][0] && sp[k] == t[..k + 1][k];
    OnlyAtStart(m, sp, k);
  }

  /** Text with its only 'b' in front holds no 'b'-led pattern it does not start with. */
  lemma OnlyAtStart(m: string, p: string, k: nat)
    requires m != [] && m[0] == 'b' && 'b' !in m[1..]
    requires 0 < k < |p| && p[0] == 'b' && (k >= |m| || m[k] != p[k])
    ensures !Contains(m, p)
  {
    NotStartsWithAt(m, p, k);
    AbsentChar(m[1..], p, 0);
    assert [m[0]] + m[1..] == m;
    NotContainsCons(m[0], m[1..], p);
  }

  /** Entries whose spellings do not occur leave the text alone. */
  lemma {:induction false} CompactSkipped(m: string, t: nat)
    requires t <= |StrTypes|
    requires forall i, j | 0 <= i < t && 0 <= j < |CharTypes| :: !Contains(m, TypedefSpelling(i, j))
    ensures CompactTypes(m, t) == m
  {
    if t > 0 {
      CompactSkipped(m, t - 1);
      assert CompactChars(m, t - 1, 1) == m;
    }
  }

  /** Entries after the one that applied leave its short name alone. */
  lemma {:induction false} CompactAfter(m: string, s: string, t: nat, n: nat)
    requires t < n <= |StrTypes| && |s| < 30 && CompactTypes(m, t + 1) == s
    ensures CompactTypes(m, n) == s
  {
    if n > t + 1 {
      CompactAfter(m, s, t, n - 1);
      CompactCharsShort(s, n - 1, |CharTypes|);
    }
  }

  /**
   * Entry `t`'s own rules turn its spelling with character type `j` into the
   * short name for that type, `w`-prefixed for `wchar_t`, provided the
   * entry's spellings tried before it do not occur.
   */
  lemma EntryApplies(m: string, t: nat, j: nat)
    requires t < |StrTypes| && j < |CharTypes| && m == TypedefSpelling(t, j) && |ShortName(t, j)| < 30
    requires forall k | 0 <= k < j :: !Contains(m, TypedefSpelling(t, k))
    ensures CompactChars(m, t, |CharTypes|) == ShortName(t, j)
  {
    SpellingLong(t, j);
    var s := ShortName(t, j);
    if j == 1 {
      assert CompactChars(m, t, 1) == m;
    }
    ReplaceWhole(m, s);
    StartsWithIsPrefix(m, m);
    ContainsPrefix(m, m);
    assert CompactChars(m, t, j + 1) == s;
    if j == 0 {
      SpellingLong(t, 1);
      ReplaceTooLong(s, TypedefSpelling(t, 1), ShortName(t, 1));
    }
  }

  /** The spelling of entry `t` with character type `j`, alone, becomes the matching short name. */
  lemma CompactEntry(m: string, t: nat, j: nat)
    requires t < |StrTypes| && j < |CharTypes| && m == TypedefSpelling(t, j) && |ShortName(t, j)| < 30
    requires forall i, k | 0 <= i < t && 0 <= k < |CharTypes| :: !Contains(m, TypedefSpelling(i, k))
    requires forall k | 0 <= k < j :: !Contains(m, TypedefSpelling(t, k))
    ensures CompactTypes(m, |StrTypes|) == ShortName(t, j)
  {
    CompactSkipped(m, t);
    EntryApplies(m, t, j);
    CompactAfter(m, ShortName(t, j), t, |StrTypes|);
  }

  const BasicIostream := "basic_iostream<" + "char" + ", char_traits<" + "char" + ">>"

  lemma IostreamRule()
    ensures StrTypes[4].0 == "basic_iostream<" + "%s" + (", char_traits<" + "%s" + ">>")
    ensures CharTypes[0] == "char"
    ensures '%' !in "basic_iostream<" && '%' !in ", char_traits<" && '%' !in ">>"
  {
  }

  lemma IostreamSpelling()
    ensures TypedefSpelling(4, 0) == BasicIostream
  {
    IostreamRule();
    FillPair(StrTypes[4].0, "basic_iostream<", ", char_traits<", ">>", "char");
  }

  lemma IostreamLetters()
    ensures BasicIostream[0] == 'b' && 'b' !in BasicIostream[1..]
    ensures BasicIostream[6] == 'i' && BasicIostream[7] == 'o' && BasicIostream[9] == 't'
  {
  }

  /** How the first four spellings of the typedef table begin. */
  lemma StreamHeads()
    ensures StrTypes[0].0[..10] == "basic_ios<" && StrTypes[1].0[..7] == "basic_s"
    ensures StrTypes[2].0[..8] == "basic_is" && StrTypes[3].0[..7] == "basic_o"
  {
  }

  /** A `basic_iostream<...>` spelling holds neither `basic_ios<...>` nor `basic_streambuf<...>`. */
  lemma IostreamMissesLow(m: string, i: nat, j: nat)
    requires m == BasicIostream || m == BasicWIostream
    requires i < 2 && j < |CharTypes|
    ensures !Contains(m, TypedefSpelling(i, j))
  {
    if m == BasicIostream {
      IostreamLetters();
    } else {
      WIostreamLetters();
    }
    StreamHeads();
    if i == 0 {
      NotFilled(m, StrTypes[i].0, CharTypes[j], 9);
    } else {
      NotFilled(m, StrTypes[i].0, CharTypes[j], 6);
    }
  }

  /** A `basic_iostream<...>` spelling holds neither `basic_istream<...>` nor `basic_ostream<...>`. */
  lemma IostreamMissesHigh(m: string, i: nat, j: nat)
    requires m == BasicIostream || m == BasicWIostream
    requires 2 <= i < 4 && j < |CharTypes|
    ensures !Contains(m, TypedefSpelling(i, j))
  {
    if m == BasicIostream {
      IostreamLetters();
    } else {
      WIostreamLetters();
    }
    StreamHeads();
    if i == 2 {
      NotFilled(m, StrTypes[i].0, CharTypes[j], 7);
    } else {
      NotFilled(m, StrTypes[i].0, CharTypes[j], 6);
    }
  }

  lemma IostreamExample()
    ensures CompactTypes(BasicIostream, |StrTypes|) == "iostream"
  {
    IostreamSpelling();
    forall i, j | 0 <= i < 4 && 0 <= j < |CharTypes|
      ensures !Contains(BasicIostream, TypedefSpelling(i, j))
    {
      if i < 2 {
        IostreamMissesLow(BasicIostream, i, j);
      } else {
        IostreamMissesHigh(BasicIostream, i, j);
      }
    }
    CompactEntry(BasicIostream, 4, 0);
  }

  const BasicWIostream := "basic_iostream<" + "wchar_t" + ", char_traits<" + "wchar_t" + ">>"

  lemma WIostreamSpelling()
    ensures TypedefSpelling(4, 1) == BasicWIostream
  {
    IostreamRule();
    FillPair(StrTypes[4].0, "basic_iostream<", ", char_traits<", ">>", "wchar_t");
  }

  lemma WIostreamLetters()
    ensures |BasicWIostream| > 15 && BasicWIostream[0] == 'b' && 'b' !in BasicWIostream[1..]
    ensures BasicWIostream[6] == 'i' && BasicWIostream[7] == 'o' && BasicWIostream[9] == 't'
    ensures BasicWIostream[15] == 'w' && |BasicIostream| > 15 && BasicIostream[0] == 'b' && BasicIostream[15] == 'c'
  {
  }

  lemma WideShortName()
    ensures ShortName(4, 1) == "wiostream"
  {
    assert CharTypes[1][0] == 'w' && StrTypes[4].1 == "iostream";
  }

  /** The `wchar_t` variation: `basic_iostream<wchar_t, char_traits<wchar_t>>` becomes `wiostream`. */
  lemma WideIostreamExample()
    ensures CompactTypes(BasicWIostream, |StrTypes|) == "wiostream"
  {
    WIostreamSpelling();
    WIostreamLetters();
    forall i, j | 0 <= i < 4 && 0 <= j < |CharTypes|
      ensures !Contains(BasicWIostream, TypedefSpelling(i, j))
    {
      if i < 2 {
        IostreamMissesLow(BasicWIostream, i, j);
      } else {
        IostreamMissesHigh(BasicWIostream, i, j);
      }
    }
    IostreamSpelling();
    OnlyAtStart(BasicWIostream, BasicIostream, 15);
    WideShortName();
    CompactEntry(BasicWIostream, 4, 1);
  }

  const BasicString := "basic_string<" + "char" + (", char_traits<" + "char" + (">, allocator<" + "char" + ">>"))

  lemma StringPieces()
    ensures "basic_string<%s, char_traits<%s>, allocator<%s>>"
         == "basic_string<" + "%s" + (", char_traits<" + "%s" + (">, allocator<" + "%s" + ">>"))
  {
  }

  lemma StringTemplate()
    ensures StrTypes[11].0 == "basic_string<" + "%s" + (", char_traits<" + "%s" + (">, allocator<" + "%s" + ">>"))
  {
    StringPieces();
  }

  lemma StringSpelling()
    ensures TypedefSpelling(11, 0) == BasicString
  {
    StringTemplate();
    FillThree("basic_string<", ", char_traits<", ">, allocator<", ">>", "char");
  }

  lemma StringLetters()
    ensures |BasicString| == 54
    ensures BasicString[0] == 'b' && 'b' !in BasicString[1..]
    ensures BasicString[6] == 's' && BasicString[9] == 'i'
  {
  }

  lemma StringMissesLow(i: nat, j: nat)
    requires i < 4 && j < |CharTypes|
    ensures !Contains(BasicString, TypedefSpelling(i, j))
  {
    StringLetters();
    if i == 0 {
      assert StrTypes[0].0[..7] == "basic_i";
      NotFilled(BasicString, StrTypes[i].0, CharTypes[j], 6);
    } else if i == 1 {
      assert StrTypes[1].0[..10] == "basic_stre";
      NotFilled(BasicString, StrTypes[i].0, CharTypes[j], 9);
    } else if i == 2 {
      assert StrTypes[2].0[..7] == "basic_i";
      NotFilled(BasicString, StrTypes[i].0, CharTypes[j], 6);
    } else {
      assert StrTypes[3].0[..7] == "basic_o";
      NotFilled(BasicString, StrTypes[i].0, CharTypes[j], 6);
    }
  }

  lemma StringMissesMid(i: nat, j: nat)
    requires 4 <= i < 8 && j < |CharTypes|
    ensures !Contains(BasicString, TypedefSpelling(i, j))
  {
    StringLetters();
    if i == 4 {
      assert StrTypes[4].0[..7] == "basic_i";
      NotFilled(BasicString, StrTypes[i].0, CharTypes[j], 6);
    } else if i == 5 {
      assert StrTypes[5].0[..7] == "basic_i";
      NotFilled(BasicString, StrTypes[i].0, CharTypes[j], 6);
    } else if i == 6 {
      assert StrTypes[6].0[..7] == "basic_o";
      NotFilled(BasicString, StrTypes[i].0, CharTypes[j], 6);
    } else {
      assert StrTypes[7].0[..7] == "basic_f";
      NotFilled(BasicString, StrTypes[i].0, CharTypes[j], 6);
    }
  }

  lemma StreamLengths()
    ensures |StrTypes[8].0| == 55 && |StrTypes[9].0| == 55 && |StrTypes[10].0| == 54
    ensures StrTypes[10].0[50] == '%' && StrTypes[10].0[51] == 's'
  {
  }

  /** The string-stream spellings are longer than `basic_string<char, ...>`. */
  lemma StringMissesHigh(i: nat, j: nat)
    requires 8 <= i < 11 && j < |CharTypes|
    ensures !Contains(BasicString, TypedefSpelling(i, j))
  {
    StringLetters();
    StreamLengths();
    var t := StrTypes[i].0;
    if i < 10 {
      FillLonger(t, CharTypes[j]);
    } else {
      assert t[50..52] == "%s";
      ContainsAt(t, 50, "%s");
      FillGrows(t, CharTypes[j]);
    }
    TooLong(BasicString, TypedefSpelling(i, j));
  }

  /** `basic_string<char, char_traits<char>, allocator<char>>` becomes `string`. */
  lemma StringExample()
    ensures CompactTypes(BasicString, |StrTypes|) == "string"
  {
    StringSpelling();
    forall i, j | 0 <= i < 11 && 0 <= j < |CharTypes|
      ensures !Contains(BasicString, TypedefSpelling(i, j))
    {
      if i < 4 {
        StringMissesLow(i, j);
      } else if i < 8 {
        StringMissesMid(i, j);
      } else {
        StringMissesHigh(i, j);
      }
    }
    CompactEntry(BasicString, 11, 0);
  }

  // ---------------------------------------------------------------------------
  // The container table.

  lemma {:induction false} TemplatesAbsentFrom(m: string, s: string, i: nat, n: nat)
    requires i <= n <= |Replacements| && TemplatesUpTo(m, i) == s
    requires forall k | i <= k < n :: !Contains(s, Replacements[k].name)
    ensures TemplatesUpTo(m, n) == s
  {
    if n > i {
      TemplatesAbsentFrom(m, s, i, n - 1);
    }
  }

  lemma ContainerStep(m: string, c: Container, arg: string, r: string)
    requires |c.rules| == 2 && |arg| >= 2 && |c.rules[1].0| > |r|
    requires Contains(m, c.name) && ArgumentAfter(m, c.name) == Some(arg)
    requires ReplaceAll(m, Fill(c.rules[0].0, arg), Fill(c.rules[0].1, arg)) == r
    ensures ApplyContainer(m, c) == r
  {
    FillLonger(c.rules[1].0, arg);
    ReplaceTooLong(r, Fill(c.rules[1].0, arg), Fill(c.rules[1].1, arg));
    var rest := c.rules[1..];
    assert rest[0] == c.rules[1] && rest[1..] == [];
    assert ApplyRules(r, rest, arg) == ApplyRules(r, [], arg) == r;
    assert ApplyRules(m, c.rules, arg) == ApplyRules(r, rest, arg);
  }

  const VectorInt := "vector<" + "int" + ", allocator<" + "int" + ">>"

  lemma VectorRule()
    ensures Replacements[0].rules[0].0 == "vector<" + "%s" + (", allocator<" + "%s" + ">>")
    ensures Replacements[0].rules[0].1 == "vector<" + "%s" + ">"
    ensures '%' !in "vector<" && '%' !in ", allocator<" && '%' !in ">>" && '%' !in ">"
  {
  }

  lemma VectorLong()
    ensures Fill(Replacements[0].rules[0].0, "int") == VectorInt
  {
    VectorRule();
    FillPair(Replacements[0].rules[0].0, "vector<", ", allocator<", ">>", "int");
  }

  lemma VectorShort()
    ensures Fill(Replacements[0].rules[0].1, "int") == "vector<int>"
  {
    VectorRule();
    FillSingle(Replacements[0].rules[0].1, "vector<", ">", "int");
  }

  lemma VectorToken()
    ensures TokenAt(VectorInt, 7) == Some("int")
  {
    assert VectorInt == "vector<" + "int" + ", allocator<int>>";
    assert Bare("int");
    TokenBare("vector<", "int", ", allocator<int>>");
  }

  /** The argument of a container named at the very start of the text. */
  lemma {:induction false} ArgumentAtStart(name: string, rest: string, arg: string)
    requires name != [] && TokenAt(name + rest, |name| + 1) == Some(arg)
    ensures Contains(name + rest, name) && ArgumentAfter(name + rest, name) == Some(arg)
  {
    StartsWithAppend(name, rest);
    FindStart(name + rest, name);
    ArgumentToken(name + rest, name);
  }

  /** Where `ArgumentAfter` reads: one character past the end of the first occurrence of the name. */
  lemma {:induction false} ArgumentToken(m: string, name: string)
    requires Contains(m, name)
    ensures ArgumentAfter(m, name) == TokenAt(m, Find(m, name) + |name| + 1)
  {
  }

  lemma VectorArgument()
    ensures Contains(VectorInt, "vector") && ArgumentAfter(VectorInt, "vector") == Some("int")
  {
    var rest := "<int, allocator<int>>";
    assert VectorInt == "vector" + rest;
    VectorToken();
    ArgumentAtStart("vector", rest, "int");
  }

  /** The first letter of every container name after "vector". */
  lemma NameHeads()
    ensures forall k | 1 <= k < |Replacements| :: Replacements[k].name != [] && Replacements[k].name[0] in "lqds"
  {
  }

  lemma VectorOthers(k: nat)
    requires 1 <= k < |Replacements|
    ensures !Contains("vector<int>", Replacements[k].name)
  {
    NameHeads();
    assert 'l' !in "vector<int>" && 'q' !in "vector<int>" && 'd' !in "vector<int>" && 's' !in "vector<int>";
    AbsentChar("vector<int>", Replacements[k].name, 0);
  }

  lemma VectorFirst()
    ensures TemplatesUpTo(VectorInt, 1) == "vector<int>"
  {
    VectorLong();
    VectorShort();
    VectorArgument();
    ReplaceWhole(VectorInt, "vector<int>");
    assert |Replacements[0].rules[1].0| > 11;
    ContainerStep(VectorInt, Replacements[0], "int", "vector<int>");
  }

  /** `vector<int, allocator<int>>` becomes `vector<int>`. */
  lemma VectorExample()
    ensures TemplatesUpTo(VectorInt, |Replacements|) == "vector<int>"
  {
    VectorFirst();
    forall k | 1 <= k < |Replacements|
      ensures !Contains("vector<int>", Replacements[k].name)
    {
      VectorOthers(k);
    }
    TemplatesAbsentFrom(VectorInt, "vector<int>", 1, |Replacements|);
  }

  const DequeInt := "deque<" + "int" + ", allocator<" + "int" + ">>"

  const StackInt := "stack<int, " + DequeInt + ">"

  const StackDeque := "stack<" + "int" + ", deque<" + "int" + ">>"

  lemma StackAtL()
    ensures StackInt == "stack<int, deque<int, a" + ("l" + ("l" + "ocator<int>>>"))
  {
  }

  lemma StackAtQ()
    ensures StackInt == "stack<int, de" + ("q" + "ue<int, allocator<int>>>")
  {
  }

  lemma StackText()
    ensures StackInt == "stack<int, " + (DequeInt + ">")
    ensures StackInt == "stack<int, deque<" + "int" + ", allocator<int>>>"
  {
  }

  lemma StackDequeText()
    ensures StackDeque == "stack<int, " + "deque<int>" + ">"
    ensures StackDeque == "stack<" + "int" + ", deque<int>>"
    ensures StackDeque == "stack" + "<int, deque<int>>"
  {
  }

  lemma StackNoVector()
    ensures !Contains(StackInt, "vector")
  {
    assert 'v' !in "stack<int, " && 'v' !in DequeInt && 'v' !in ">";
    AbsentChar(StackInt, "vector", 0);
  }

  lemma StackNoList()
    ensures !Contains(StackInt, "list")
  {
    MissTwice('l', 'l', "ocator<int>>>", "list");
    NotContainsSplit("stack<int, deque<int, a", "l" + ("l" + "ocator<int>>>"), "list");
    StackAtL();
  }

  lemma QueueTail()
    ensures !Contains("q" + "ue<int, allocator<int>>>", "queue")
  {
    MissOnce('q', "ue<int, allocator<int>>>", "queue", 3);
  }

  lemma StackNoQueue()
    ensures !Contains(StackInt, "queue")
  {
    QueueTail();
    NotContainsSplit("stack<int, de", "q" + "ue<int, allocator<int>>>", "queue");
    StackAtQ();
  }

  lemma StackEarly()
    ensures TemplatesUpTo(StackInt, 3) == StackInt
  {
    StackNoVector();
    StackNoList();
    StackNoQueue();
    assert Replacements[0].name == "vector" && Replacements[1].name == "list" && Replacements[2].name == "queue";
    TemplatesAbsentFrom(StackInt, StackInt, 0, 3);
  }

  lemma DequeRule()
    ensures Replacements[3].rules[0].0 == "deque<" + "%s" + (", allocator<" + "%s" + ">>")
    ensures Replacements[3].rules[0].1 == "deque<" + "%s" + ">"
    ensures '%' !in "deque<" && '%' !in ", allocator<" && '%' !in ">>" && '%' !in ">"
  {
  }

  lemma DequeLong()
    ensures Fill(Replacements[3].rules[0].0, "int") == DequeInt
  {
    DequeRule();
    FillPair(Replacements[3].rules[0].0, "deque<", ", allocator<", ">>", "int");
  }

  lemma DequeShort()
    ensures Fill(Replacements[3].rules[0].1, "int") == "deque<int>"
  {
    DequeRule();
    FillSingle(Replacements[3].rules[0].1, "deque<", ">", "int");
  }

  lemma DequeFind()
    ensures Contains(StackInt, "deque") && Find(StackInt, "deque") == 11
  {
    assert DequeInt + ">" == "deque" + "<int, allocator<int>>>";
    StartsWithAppend("deque", "<int, allocator<int>>>");
    FindStart(DequeInt + ">", "deque");
    StackText();
    assert 'd' !in "stack<int, ";
    FindSkip("stack<int, ", DequeInt + ">", "deque");
  }

  lemma DequeToken()
    ensures TokenAt(StackInt, 17) == Some("int")
  {
    StackText();
    assert Bare("int");
    TokenBare("stack<int, deque<", "int", ", allocator<int>>>");
  }

  lemma DequeReplaced()
    ensures ReplaceAll(StackInt, DequeInt, "deque<int>") == StackDeque
  {
    assert 'd' !in "stack<int, ";
    ReplaceSkip("stack<int, ", DequeInt + ">", DequeInt, "deque<int>");
    ReplaceAtStart(DequeInt, ">", "deque<int>");
    ReplaceTooLong(">", DequeInt, "deque<int>");
    StackText();
    StackDequeText();
  }

  lemma DequeStep()
    ensures TemplatesUpTo(StackInt, 4) == StackDeque
  {
    StackEarly();
    DequeLong();
    DequeShort();
    DequeFind();
    DequeToken();
    ArgumentToken(StackInt, "deque");
    DequeReplaced();
    assert Replacements[3].name == "deque" && |Replacements[3].rules[1].0| > |StackDeque|;
    ContainerStep(StackInt, Replacements[3], "int", StackDeque);
  }

  lemma StackRule()
    ensures Replacements[4].rules[0].0 == "stack<" + "%s" + (", deque<" + "%s" + ">>")
    ensures Replacements[4].rules[0].1 == "stack<" + "%s" + ">"
    ensures '%' !in "stack<" && '%' !in ", deque<" && '%' !in ">>" && '%' !in ">"
  {
  }

  lemma StackLong()
    ensures Fill(Replacements[4].rules[0].0, "int") == StackDeque
  {
    StackRule();
    FillPair(Replacements[4].rules[0].0, "stack<", ", deque<", ">>", "int");
  }

  lemma StackShort()
    ensures Fill(Replacements[4].rules[0].1, "int") == "stack<int>"
  {
    StackRule();
    FillSingle(Replacements[4].rules[0].1, "stack<", ">", "int");
  }

  lemma StackFind()
    ensures Contains(StackDeque, "stack") && Find(StackDeque, "stack") == 0
  {
    StackDequeText();
    StartsWithAppend("stack", "<int, deque<int>>");
    FindStart(StackDeque, "stack");
  }

  lemma StackToken()
    ensures TokenAt(StackDeque, 6) == Some("int")
  {
    StackDequeText();
    assert Bare("int");
    TokenBare("stack<", "int", ", deque<int>>");
  }

  lemma StackStep()
    ensures TemplatesUpTo(StackInt, 5) == "stack<int>"
  {
    DequeStep();
    StackLong();
    StackShort();
    StackFind();
    StackToken();
    ArgumentToken(StackDeque, "stack");
    ReplaceWhole(StackDeque, "stack<int>");
    assert Replacements[4].name == "stack" && |Replacements[4].rules[1].0| > 10;
    ContainerStep(StackDeque, Replacements[4], "int", "stack<int>");
  }

  lemma StackNoSet()
    ensures !Contains("stack<int>", "set")
  {
    assert ['s'] + "tack<int>" == "stack<int>";
    MissOnce('s', "tack<int>", "set", 1);
  }

  lemma StackExample()
    ensures TemplatesUpTo(StackInt, |Replacements|) == "stack<int>"
  {
    StackStep();
    StackNoSet();
    assert Replacements[5].name == "set";
  }

  // ---------------------------------------------------------------------------
  // The moderate-level example.

  lemma NonColonUpTo(path: string, w: string)
    requires ':' !in path && w != [] && w[0] == ':'
    ensures NonColonRun(path + w) == |path|
  {
    var s := path + w;
    var k := NonColonRun(s);
    assert s[|path|] == ':';
    assert forall i | 0 <= i < |path| :: s[i] == path[i];
  }

  lemma DigitsUpTo(n: string, w: string)
    requires AllDigits(n) && w != [] && !IsDigit(w[0])
    ensures DigitRun(n + w) == |n|
  {
    var s := n + w;
    var k := DigitRun(s);
    assert s[|n|] == w[0];
    assert forall i | 0 <= i < |n| :: s[i] == n[i];
  }

  /** Text without a '/' holds no system-header location. */
  lemma {:induction false} NoSysFile(s: string)
    requires '/' !in s
    ensures RemoveSysFiles(s) == s
  {
    if s != [] {
      StartsWithIsPrefix(s, SysPrefix);
      NoSysFile(s[1..]);
    }
  }

  lemma SysMatchUnfold(path: string, w: string, d: nat)
    requires path != [] && ':' !in path
    requires DigitRun(w) == d && 0 < d && StartsWith(w[d..], ": ")
    ensures SysPathMatch(path + (":" + w)) == Some(|path| + 1 + d + 2)
  {
    var u := path + (":" + w);
    NonColonUpTo(path, ":" + w);
    assert u[|path| + 1..] == w;
  }

  lemma SysAfterPrefix(path: string, w1: string)
    ensures StartsWith(SysPrefix + (path + w1), SysPrefix)
    ensures (SysPrefix + (path + w1))[|SysPrefix|..] == path + w1
  {
    StartsWithAppend(SysPrefix, path + w1);
    DropPrefix(SysPrefix, path + w1);
  }

  /** The match on a location in nested form. */
  lemma SysMatchNested(path: string, n: string, rest: string)
    requires path != [] && ':' !in path && n != [] && AllDigits(n)
    ensures SysFileMatch(SysPrefix + (path + (":" + (n + (": " + rest))))) == Some(|SysPrefix| + |path| + |n| + 3)
  {
    SysPathNested(path, n, rest);
    SysFileOf(path + (":" + (n + (": " + rest))), |path| + |n| + 3);
  }

  lemma SysPathNested(path: string, n: string, rest: string)
    requires path != [] && ':' !in path && n != [] && AllDigits(n)
    ensures SysPathMatch(path + (":" + (n + (": " + rest)))) == Some(|path| + |n| + 3)
  {
    var v := n + (": " + rest);
    DigitsUpTo(n, ": " + rest);
    DropPrefix(n, ": " + rest);
    StartsWithAppend(": ", rest);
    SysMatchUnfold(path, v, |n|);
  }

  /** The system-header match is the prefix followed by the path match. */
  lemma SysFileOf(x: string, k: nat)
    requires SysPathMatch(x) == Some(k)
    ensures SysFileMatch(SysPrefix + x) == Some(|SysPrefix| + k)
  {
    StartsWithAppend(SysPrefix, x);
    DropPrefix(SysPrefix, x);
  }

  lemma SysLocationRemoved(path: string, n: string, rest: string)
    requires path != [] && ':' !in path && n != [] && AllDigits(n) && '/' !in rest
    ensures RemoveSysFiles(SysPrefix + path + ":" + n + ": " + rest) == rest
  {
    Nest(SysPrefix, path, ":", n, ": ", rest);
    var t := SysPrefix + (path + (":" + (n + (": " + rest))));
    SysMatchNested(path, n, rest);
    var k := |SysPrefix| + |path| + |n| + 3;
    assert t[..k] + rest == t;
    NoSysFile(rest);
  }

  const Location := "c++/4.4/bits/stl_vector.h"

  const Candidates := "note: candidates are: " + "void vector<int>::push_back(const int&)"

  lemma CandidatesPlain()
    ensures '/' !in Candidates
  {
    assert '/' !in "note: candidates are: ";
    assert '/' !in "void vector<int>::push_back(const int&)";
  }

  lemma SysFileExample()
    ensures RemoveSysFiles(SysPrefix + Location + ":" + "733" + ": " + Candidates) == Candidates
  {
    CandidatesPlain();
    assert ':' !in Location;
    assert AllDigits("733");
    SysLocationRemoved(Location, "733", Candidates);
  }

}
