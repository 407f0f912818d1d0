/**
 * `_parse_templates` on the two shapes its table is written for, proved for
 * every element type rather than for one worked example: a vector with its
 * default allocator, and a stack over a deque with its default allocator.
 */
module TemplateProperties {
  import opened Wrappers
  import opened Text
  import opened GccParser
  import opened GccBeautifier
  import opened BeautifierExamples

  // ---------------------------------------------------------------------------
  // Where a pattern can and cannot occur in a concatenation.

  /** No occurrence starts in `a` when `a` has none and ends with a character outside the pattern. */
  lemma NoStartIn(a: string, b: string, p: string)
    requires a != [] && a[|a| - 1] !in p && !StartsWith(a, p)
    ensures !StartsWith(a + b, p)
  {
    StartsWithIsPrefix(a + b, p);
    StartsWithIsPrefix(a, p);
    if |p| <= |a| {
      assert (a + b)[..|p|] == a[..|p|];
    } else {
      assert (a + b)[|a| - 1] == a[|a| - 1];
    }
  }

  lemma SplitHead(a: string, b: string)
    requires a != []
    ensures (a + b)[1..] == a[1..] + b
    ensures a[1..] != [] ==> a[1..][|a[1..]| - 1] == a[|a| - 1]
  {
  }

  /** Two texts without the pattern, the second starting outside it, make a text without it. */
  lemma {:induction false} NotContainsCat(a: string, b: string, p: string)
    requires p != [] && !Contains(a, p) && !Contains(b, p) && (b == [] || b[0] !in p)
    ensures !Contains(a + b, p)
    decreases |a|
  {
    if a == [] {
      assert a + b == b;
    } else {
      NoStraddle(a, b, p);
      SplitHead(a, b);
      NotContainsCat(a[1..], b, p);
    }
  }

  /** Two texts without the pattern, the first ending outside it, make a text without it. */
  lemma {:induction false} NotContainsJoin(a: string, b: string, p: string)
    requires p != [] && !Contains(a, p) && !Contains(b, p) && (a == [] || a[|a| - 1] !in p)
    ensures !Contains(a + b, p)
    decreases |a|
  {
    if a == [] {
      assert a + b == b;
    } else {
      NoStartIn(a, b, p);
      SplitHead(a, b);
      NotContainsJoin(a[1..], b, p);
    }
  }

  /** The first occurrence in `a + b`, when none starts in `a`, is the first one in `b`. */
  lemma {:induction false} FindAfter(a: string, b: string, p: string)
    requires p != [] && !Contains(a, p) && (a == [] || a[|a| - 1] !in p) && Contains(b, p)
    ensures Contains(a + b, p) && Find(a + b, p) == |a| + Find(b, p)
    decreases |a|
  {
    ContainsLonger(a, b, p);
    if a == [] {
      assert a + b == b;
    } else {
      NoStartIn(a, b, p);
      SplitHead(a, b);
      FindAfter(a[1..], b, p);
    }
  }

  /** A text that does not start with `q` does not start with any extension of it. */
  lemma LongerMiss(s: string, p: string, q: string)
    requires q <= p && !StartsWith(s, q)
    ensures !StartsWith(s, p)
  {
    StartsWithIsPrefix(s, q);
    StartsWithIsPrefix(s, p);
  }

  /**
   * Replacing a pattern that starts with `q` copies `a` unchanged when no
   * occurrence of `q` starts in `a`.
   */
  lemma {:induction false} ReplaceAfter(a: string, t: string, p: string, q: string, r: string)
    requires q != [] && q <= p && !Contains(a, q) && (a == [] || a[|a| - 1] !in q)
    ensures ReplaceAll(a + t, p, r) == a + ReplaceAll(t, p, r)
    decreases |a|
  {
    if a == [] {
      assert a + t == t;
    } else {
      ReplaceAfterHead(a, t, p, q, r);
      ReplaceAfter(a[1..], t, p, q, r);
      ConsSplit(a, ReplaceAll(t, p, r));
    }
  }

  lemma ConsSplit(a: string, x: string)
    requires a != []
    ensures [a[0]] + (a[1..] + x) == a + x
  {
    assert a == [a[0]] + a[1..];
  }

  /** One step of `ReplaceAfter`: the first character of `a` is copied. */
  lemma ReplaceAfterHead(a: string, t: string, p: string, q: string, r: string)
    requires q != [] && q <= p && !Contains(a, q) && a != [] && a[|a| - 1] !in q
    ensures ReplaceAll(a + t, p, r) == [a[0]] + ReplaceAll(a[1..] + t, p, r)
    ensures !Contains(a[1..], q) && (a[1..] == [] || a[1..][|a[1..]| - 1] !in q)
  {
    NoStartIn(a, t, q);
    LongerMiss(a + t, p, q);
    SplitHead(a, t);
    ReplaceMiss(a + t, p, r);
  }

  /** The one occurrence of `p`, placed after a text without its head `q`, is replaced. */
  lemma ReplaceMiddle(a: string, p: string, b: string, q: string, r: string)
    requires q != [] && q <= p && !Contains(a, q) && (a == [] || a[|a| - 1] !in q) && |b| < |p|
    ensures ReplaceAll(a + (p + b), p, r) == a + (r + b)
  {
    ReplaceAfter(a, p + b, p, q, r);
    ReplaceAtStart(p, b, r);
    ReplaceTooLong(b, p, r);
  }

  /** The first occurrence of a name that starts the text after one without it. */
  lemma {:induction false} FindInside(a: string, name: string, b: string)
    requires name != [] && name <= b && !Contains(a, name) && (a == [] || a[|a| - 1] !in name)
    ensures Contains(a + b, name) && Find(a + b, name) == |a|
  {
    StartsWithIsPrefix(b, name);
    FindStart(b, name);
    FindAfter(a, b, name);
  }

  /** An occurrence has a position. */
  lemma {:induction false} ContainsIndex(s: string, p: string) returns (i: nat)
    requires Contains(s, p)
    ensures i + |p| <= |s| && s[i..i + |p|] == p
    decreases |s|
  {
    StartsWithIsPrefix(s, p);
    if StartsWith(s, p) {
      i := 0;
    } else {
      var j := ContainsIndex(s[1..], p);
      i := j + 1;
      assert s[1..][j..j + |p|] == s[i..i + |p|];
    }
  }

  /** No '>' followed by ':'. */
  predicate NoScope(s: string)
  {
    forall i | 0 <= i < |s| - 1 :: !(s[i] == '>' && s[i + 1] == ':')
  }

  /** A pattern holding ">:" does not occur in a text without it. */
  lemma ScopeAbsent(s: string, p: string, j: nat)
    requires NoScope(s) && j + 1 < |p| && p[j] == '>' && p[j + 1] == ':'
    ensures !Contains(s, p)
  {
    if Contains(s, p) {
      var i := ContainsIndex(s, p);
    }
  }

  /** Text whose only '>' are at its end has no ">:". */
  lemma ClosedAtEnd(x: string, n: nat)
    requires '>' !in x
    ensures NoScope(x + seq(n, _ => '>'))
  {
    var s := x + seq(n, _ => '>');
    forall i | 0 <= i < |s| - 1 ensures !(s[i] == '>' && s[i + 1] == ':') {
      if i < |x| {
        assert s[i] == x[i];
      } else {
        assert s[i + 1] == '>';
      }
    }
  }

  // ---------------------------------------------------------------------------
  // One container of the table.

  /**
   * A container whose name occurs, whose argument is `arg`, whose first rule
   * rewrites `m` to `r` and whose second rule finds nothing in `r`.
   */
  lemma ContainerRules(m: string, c: Container, arg: string, r: string)
    requires |c.rules| == 2 && arg != []
    requires Contains(m, c.name) && ArgumentAfter(m, c.name) == Some(arg)
    requires ReplaceAll(m, Fill(c.rules[0].0, arg), Fill(c.rules[0].1, arg)) == r
    requires !Contains(r, Fill(c.rules[1].0, arg))
    ensures ApplyContainer(m, c) == r
  {
    ReplaceAbsent(r, Fill(c.rules[1].0, arg), Fill(c.rules[1].1, arg));
    var rest := c.rules[1..];
    assert rest[0] == c.rules[1] && rest[1..] == [];
    assert ApplyRules(r, rest, arg) == ApplyRules(r, [], arg) == r;
    assert ApplyRules(m, c.rules, arg) == ApplyRules(r, rest, arg);
  }

  /** A second rule, "typename NAME<%s>::value_type", filled. */
  lemma SecondFill(name: string, arg: string)
    requires '%' !in name
    ensures Fill("typename " + name + "<" + "%s" + ">::value_type", arg) == "typename " + name + "<" + arg + ">::value_type"
  {
    FillSingle("typename " + name + "<" + "%s" + ">::value_type", "typename " + name + "<", ">::value_type", arg);
  }

  /** An element type the rules read back: a bare word, unpadded, naming no container. */
  predicate ElementType(t: string)
  {
    t != [] && !IsSpace(t[0]) && !IsSpace(t[|t| - 1]) && Bare(t) &&
    forall k | 0 <= k < |Replacements| :: !Contains(t, Replacements[k].name)
  }

  lemma ElementNoClose(t: string)
    requires ElementType(t)
    ensures '>' !in t && ',' !in t
  {
    forall k | 0 <= k < |t| ensures t[k] != '>' && t[k] != ',' {
      assert !IsCloser(t[k]) && !IsDelimiter(t[k]);
    }
  }

  lemma ElementNames(t: string)
    requires ElementType(t)
    ensures !Contains(t, "vector") && !Contains(t, "list") && !Contains(t, "queue")
    ensures !Contains(t, "deque") && !Contains(t, "stack") && !Contains(t, "set")
  {
    assert Replacements[0].name == "vector" && Replacements[1].name == "list" && Replacements[2].name == "queue";
    assert Replacements[3].name == "deque" && Replacements[4].name == "stack" && Replacements[5].name == "set";
    assert !Contains(t, Replacements[0].name) && !Contains(t, Replacements[1].name) && !Contains(t, Replacements[2].name);
    assert !Contains(t, Replacements[3].name) && !Contains(t, Replacements[4].name) && !Contains(t, Replacements[5].name);
  }

  /** `NAME<t>` holds no other container name when the name's `k`-th letter is not in `NAME<`. */
  lemma ShortAbsent(head: string, t: string, p: string, k: nat)
    requires head != [] && head[|head| - 1] == '<' && k < |p| && p[k] !in head && !Contains(t, p)
    requires '<' !in p && '>' !in p
    ensures !Contains(head + t + ">", p)
  {
    AbsentChar(head, p, k);
    AbsentChar(">", p, 0);
    NotContainsCat(t, ">", p);
    NotContainsJoin(head, t + ">", p);
    assert head + t + ">" == head + (t + ">");
  }

  /** One more container of the table. */
  lemma TemplatesStep(m: string, i: nat, s: string, r: string)
    requires i < |Replacements| && TemplatesUpTo(m, i) == s && ApplyContainer(s, Replacements[i]) == r
    ensures TemplatesUpTo(m, i + 1) == r
  {
  }

  // ---------------------------------------------------------------------------
  // vector<T, allocator<T>>

  function VectorOf(t: string): string
  {
    "vector<" + t + ", allocator<" + t + ">>"
  }

  function ShortVector(t: string): string
  {
    "vector<" + t + ">"
  }

  lemma VectorTokenOf(t: string)
    requires ElementType(t)
    ensures TokenAt(VectorOf(t), 7) == Some(t)
  {
    var post := ", allocator<" + t + ">>";
    assert VectorOf(t) == "vector<" + t + post;
    TokenBare("vector<", t, post);
  }

  lemma VectorShape(t: string)
    ensures VectorOf(t) == "vector" + ("<" + t + ", allocator<" + t + ">>")
  {
  }

  lemma VectorArgumentOf(t: string)
    requires ElementType(t)
    ensures Contains(VectorOf(t), "vector") && ArgumentAfter(VectorOf(t), "vector") == Some(t)
  {
    VectorShape(t);
    VectorTokenOf(t);
    ArgumentAtStart("vector", "<" + t + ", allocator<" + t + ">>", t);
  }

  lemma VectorLongOf(t: string)
    ensures Fill(Replacements[0].rules[0].0, t) == VectorOf(t)
  {
    VectorRule();
    FillPair(Replacements[0].rules[0].0, "vector<", ", allocator<", ">>", t);
  }

  lemma VectorShortOf(t: string)
    ensures Fill(Replacements[0].rules[0].1, t) == ShortVector(t)
  {
    VectorRule();
    FillSingle(Replacements[0].rules[0].1, "vector<", ">", t);
  }

  lemma VectorSecondOf(t: string)
    ensures !Contains(ShortVector(t), Fill(Replacements[0].rules[1].0, t))
  {
    assert Replacements[0].rules[1].0 == "typename " + "vector" + "<" + "%s" + ">::value_type";
    SecondFill("vector", t);
    TooLong(ShortVector(t), Fill(Replacements[0].rules[1].0, t));
  }

  lemma VectorRulesOf(t: string)
    requires ElementType(t)
    ensures ApplyContainer(VectorOf(t), Replacements[0]) == ShortVector(t)
  {
    VectorLongOf(t);
    VectorShortOf(t);
    ReplaceWhole(VectorOf(t), ShortVector(t));
    VectorArgumentOf(t);
    VectorSecondOf(t);
    ContainerRules(VectorOf(t), Replacements[0], t, ShortVector(t));
  }

  /** Once the vector rule has run, containers that do not occur leave the text alone. */
  lemma AfterVector(m: string, s: string)
    requires TemplatesUpTo(m, 1) == s
    requires !Contains(s, "list") && !Contains(s, "queue") && !Contains(s, "deque")
    requires !Contains(s, "stack") && !Contains(s, "set")
    ensures TemplatesUpTo(m, |Replacements|) == s
  {
    assert Replacements[1].name == "list" && Replacements[2].name == "queue" && Replacements[3].name == "deque";
    assert Replacements[4].name == "stack" && Replacements[5].name == "set";
    TemplatesAbsentFrom(m, s, 1, |Replacements|);
  }

  /** No container after vector occurs in `vector<T>`. */
  lemma ShortVectorClean(t: string)
    requires ElementType(t)
    ensures !Contains(ShortVector(t), "list") && !Contains(ShortVector(t), "queue")
    ensures !Contains(ShortVector(t), "deque") && !Contains(ShortVector(t), "stack") && !Contains(ShortVector(t), "set")
  {
    ElementNames(t);
    ShortAbsent("vector<", t, "list", 0);
    ShortAbsent("vector<", t, "queue", 0);
    ShortAbsent("vector<", t, "deque", 0);
    ShortAbsent("vector<", t, "stack", 0);
    ShortAbsent("vector<", t, "set", 0);
  }

  /**
   * `vector<T, allocator<T>>` becomes `vector<T>` for every element type:
   * the vector rule rewrites it and no later container matches.
   */
  lemma VectorTemplate(t: string)
    requires ElementType(t)
    ensures TemplatesUpTo(VectorOf(t), |Replacements|) == ShortVector(t)
  {
    VectorRulesOf(t);
    TemplatesStep(VectorOf(t), 0, VectorOf(t), ShortVector(t));
    ShortVectorClean(t);
    AfterVector(VectorOf(t), ShortVector(t));
  }

  // ---------------------------------------------------------------------------
  // stack<T, deque<T, allocator<T>>>

  function DequeOf(t: string): string
  {
    "deque<" + t + ", allocator<" + t + ">>"
  }

  function StackOf(t: string): string
  {
    "stack<" + t + ", " + DequeOf(t) + ">"
  }

  /** The stack after the deque rule: `stack<T, deque<T>>`. */
  function StackOverDeque(t: string): string
  {
    "stack<" + t + ", deque<" + t + ">>"
  }

  function ShortStack(t: string): string
  {
    "stack<" + t + ">"
  }

  /**
   * A name that cannot run across the literal pieces of the stack text is
   * absent from it when it is absent from the pieces and from `t`.
   */
  lemma StackPiecesAbsent(t: string, p: string)
    requires p != [] && ',' !in p && '<' !in p && '>' !in p && !Contains(t, p)
    requires !Contains("stack<", p) && !Contains(", deque<", p) && !Contains(", allocator<", p) && !Contains(">>>", p)
    ensures !Contains(StackOf(t), p)
  {
    assert StackOf(t) == "stack<" + t + ", deque<" + t + ", allocator<" + t + ">>>";
    PiecesAbsent("stack<", t, ", deque<", ", allocator<", ">>>", p);
  }

  /** Pieces around three copies of `t`, none holding the pattern nor able to join one across a seam. */
  lemma PiecesAbsent(a: string, t: string, b: string, c: string, d: string, p: string)
    requires p != [] && !Contains(t, p) && !Contains(a, p) && !Contains(b, p) && !Contains(c, p) && !Contains(d, p)
    requires a != [] && b != [] && c != [] && d != []
    requires a[|a| - 1] !in p && b[0] !in p && b[|b| - 1] !in p && c[0] !in p && c[|c| - 1] !in p && d[0] !in p
    ensures !Contains(a + t + b + t + c + t + d, p)
  {
    NotContainsJoin(a, t, p);
    NotContainsCat(a + t, b, p);
    NotContainsJoin(a + t + b, t, p);
    NotContainsCat(a + t + b + t, c, p);
    NotContainsJoin(a + t + b + t + c, t, p);
    NotContainsCat(a + t + b + t + c + t, d, p);
  }

  /** A name with a letter outside each literal piece of the stack text. */
  lemma StackLettersAbsent(t: string, p: string, i: nat, j: nat, k: nat)
    requires p != [] && ',' !in p && '<' !in p && '>' !in p && !Contains(t, p)
    requires p[0] !in "stack<" && i < |p| && p[i] !in ", deque<" && j < |p| && p[j] !in ", allocator<"
    requires k < |p| && p[k] !in ">>>"
    ensures !Contains(StackOf(t), p)
  {
    AbsentChar("stack<", p, 0);
    AbsentChar(", deque<", p, i);
    AbsentChar(", allocator<", p, j);
    AbsentChar(">>>", p, k);
    StackPiecesAbsent(t, p);
  }

  /** "queue" against ", deque<": its 'q' is followed by "ue<", not "ueue". */
  lemma StackQueueAbsent(t: string, p: string)
    requires p == "queue" && !Contains(t, p)
    ensures !Contains(StackOf(t), p)
  {
    MissOnce('q', "ue<", p, 3);
    assert ", deque<" == ", de" + (['q'] + "ue<");
    NotContainsSplit(", de", ['q'] + "ue<", p);
    AbsentChar("stack<", p, 0);
    AbsentChar(", allocator<", p, 0);
    AbsentChar(">>>", p, 0);
    StackPiecesAbsent(t, p);
  }

  lemma StackNoVectorOf(t: string)
    requires !Contains(t, "vector")
    ensures !Contains(StackOf(t), "vector")
  {
    StackLettersAbsent(t, "vector", 0, 0, 0);
  }

  lemma StackNoListOf(t: string)
    requires !Contains(t, "list")
    ensures !Contains(StackOf(t), "list")
  {
    StackLettersAbsent(t, "list", 0, 1, 0);
  }

  lemma StackNoQueueOf(t: string)
    requires !Contains(t, "queue")
    ensures !Contains(StackOf(t), "queue")
  {
    StackQueueAbsent(t, "queue");
  }

  /** vector, list and queue do not occur in the stack text. */
  lemma StackEarlyOf(t: string)
    requires ElementType(t)
    ensures TemplatesUpTo(StackOf(t), 3) == StackOf(t)
  {
    ElementNames(t);
    StackNoVectorOf(t);
    StackNoListOf(t);
    StackNoQueueOf(t);
    assert Replacements[0].name == "vector" && Replacements[1].name == "list" && Replacements[2].name == "queue";
    TemplatesAbsent(StackOf(t), 3);
  }

  lemma HeadAbsent(t: string, p: string)
    requires p != [] && p[0] !in "stack<" && p[0] !in ", " && '<' !in p && ',' !in p && !Contains(t, p)
    ensures !Contains("stack<" + t + ", ", p)
  {
    AbsentChar("stack<", p, 0);
    NotContainsJoin("stack<", t, p);
    AbsentChar(", ", p, 0);
    NotContainsCat("stack<" + t, ", ", p);
  }

  /** The text before the deque: "stack<T, ". */
  lemma StackHead(t: string)
    requires ElementType(t)
    ensures StackOf(t) == ("stack<" + t + ", ") + (DequeOf(t) + ">")
    ensures !Contains("stack<" + t + ", ", "deque")
  {
    ElementNames(t);
    HeadAbsent(t, "deque");
  }

  lemma DequeTokenOf(t: string)
    requires ElementType(t)
    ensures TokenAt(StackOf(t), |t| + 14) == Some(t)
  {
    var pre := "stack<" + t + ", deque<";
    var post := ", allocator<" + t + ">>>";
    assert StackOf(t) == pre + t + post;
    TokenBare(pre, t, post);
  }

  lemma DequeReplaceOf(t: string)
    requires ElementType(t)
    ensures ReplaceAll(StackOf(t), DequeOf(t), "deque<" + t + ">") == StackOverDeque(t)
  {
    StackHead(t);
    DequeShape(t);
    ReplaceMiddle("stack<" + t + ", ", DequeOf(t), ">", "deque", "deque<" + t + ">");
  }

  /** The deque text starts with its name; the stack over the short deque splits the same way as the long one. */
  lemma DequeShape(t: string)
    ensures "deque" <= DequeOf(t) && "deque" <= DequeOf(t) + ">" && |">"| < |DequeOf(t)|
    ensures ("stack<" + t + ", ")[|"stack<" + t + ", "| - 1] !in "deque"
    ensures StackOverDeque(t) == ("stack<" + t + ", ") + (("deque<" + t + ">") + ">")
  {
    assert DequeOf(t) == "deque" + ("<" + t + ", allocator<" + t + ">>");
  }

  /** The deque's second rule needs a '>' followed by ':', which `stack<T, deque<T>>` lacks. */
  lemma DequeSecondAbsent(t: string)
    requires ElementType(t)
    ensures !Contains(StackOverDeque(t), "typename " + "deque" + "<" + t + ">::value_type")
  {
    ElementNoClose(t);
    var x := "stack<" + t + ", deque<" + t;
    assert StackOverDeque(t) == x + seq(2, _ => '>');
    ClosedAtEnd(x, 2);
    var p := "typename " + "deque" + "<" + t + ">::value_type";
    var j := |"typename " + "deque" + "<" + t|;
    assert p[j] == '>' && p[j + 1] == ':';
    ScopeAbsent(StackOverDeque(t), p, j);
  }

  lemma DequeLongOf(t: string)
    ensures Fill(Replacements[3].rules[0].0, t) == DequeOf(t)
  {
    DequeRule();
    FillPair(Replacements[3].rules[0].0, "deque<", ", allocator<", ">>", t);
  }

  lemma DequeShortOf(t: string)
    ensures Fill(Replacements[3].rules[0].1, t) == "deque<" + t + ">"
  {
    DequeRule();
    FillSingle(Replacements[3].rules[0].1, "deque<", ">", t);
  }

  lemma DequeSecondFill(t: string)
    ensures Fill(Replacements[3].rules[1].0, t) == "typename " + "deque" + "<" + t + ">::value_type"
  {
    assert Replacements[3].rules[1].0 == "typename " + "deque" + "<" + "%s" + ">::value_type";
    SecondFill("deque", t);
  }

  lemma DequeSecondOf(t: string)
    requires ElementType(t)
    ensures !Contains(StackOverDeque(t), Fill(Replacements[3].rules[1].0, t))
  {
    DequeSecondFill(t);
    DequeSecondAbsent(t);
  }

  lemma DequeArgumentOf(t: string)
    requires ElementType(t)
    ensures Contains(StackOf(t), "deque") && ArgumentAfter(StackOf(t), "deque") == Some(t)
  {
    StackHead(t);
    DequeShape(t);
    DequeTokenOf(t);
    FindInside("stack<" + t + ", ", "deque", DequeOf(t) + ">");
    ArgumentToken(StackOf(t), "deque");
  }

  lemma DequeRulesOf(t: string)
    requires ElementType(t)
    ensures ApplyContainer(StackOf(t), Replacements[3]) == StackOverDeque(t)
  {
    DequeLongOf(t);
    DequeShortOf(t);
    DequeArgumentOf(t);
    DequeReplaceOf(t);
    DequeSecondOf(t);
    ContainerRules(StackOf(t), Replacements[3], t, StackOverDeque(t));
  }

  lemma StackTokenOf(t: string)
    requires ElementType(t)
    ensures TokenAt(StackOverDeque(t), 6) == Some(t)
  {
    var post := ", deque<" + t + ">>";
    assert StackOverDeque(t) == "stack<" + t + post;
    TokenBare("stack<", t, post);
  }

  lemma StackLongOf(t: string)
    ensures Fill(Replacements[4].rules[0].0, t) == StackOverDeque(t)
  {
    StackRule();
    FillPair(Replacements[4].rules[0].0, "stack<", ", deque<", ">>", t);
  }

  lemma StackShortOf(t: string)
    ensures Fill(Replacements[4].rules[0].1, t) == ShortStack(t)
  {
    StackRule();
    FillSingle(Replacements[4].rules[0].1, "stack<", ">", t);
  }

  lemma StackSecondOf(t: string)
    ensures !Contains(ShortStack(t), Fill(Replacements[4].rules[1].0, t))
  {
    assert Replacements[4].rules[1].0 == "typename " + "stack" + "<" + "%s" + ">::value_type";
    SecondFill("stack", t);
    TooLong(ShortStack(t), Fill(Replacements[4].rules[1].0, t));
  }

  lemma StackShape(t: string)
    ensures StackOverDeque(t) == "stack" + ("<" + t + ", deque<" + t + ">>")
  {
  }

  lemma StackArgumentOf(t: string)
    requires ElementType(t)
    ensures Contains(StackOverDeque(t), "stack") && ArgumentAfter(StackOverDeque(t), "stack") == Some(t)
  {
    StackShape(t);
    StackTokenOf(t);
    ArgumentAtStart("stack", "<" + t + ", deque<" + t + ">>", t);
  }

  lemma StackRulesOf(t: string)
    requires ElementType(t)
    ensures ApplyContainer(StackOverDeque(t), Replacements[4]) == ShortStack(t)
  {
    StackLongOf(t);
    StackShortOf(t);
    ReplaceWhole(StackOverDeque(t), ShortStack(t));
    StackArgumentOf(t);
    StackSecondOf(t);
    ContainerRules(StackOverDeque(t), Replacements[4], t, ShortStack(t));
  }

  lemma ShortStackClean(t: string)
    requires ElementType(t)
    ensures !Contains(ShortStack(t), "set")
  {
    ElementNames(t);
    ShortAbsent("stack<", t, "set", 1);
  }

  /** The last container, set, leaves a text without "set" alone. */
  lemma LastStep(m: string, s: string)
    requires TemplatesUpTo(m, 5) == s && !Contains(s, "set")
    ensures TemplatesUpTo(m, |Replacements|) == s
  {
    assert Replacements[5].name == "set";
    TemplatesStep(m, 5, s, s);
  }

  /**
   * `stack<T, deque<T, allocator<T>>>` becomes `stack<T>` for every element
   * type: the deque rule runs first (the table lists deque before stack) and
   * turns it into `stack<T, deque<T>>`, which the stack rule then shortens.
   */
  lemma StackTemplate(t: string)
    requires ElementType(t)
    ensures TemplatesUpTo(StackOf(t), |Replacements|) == ShortStack(t)
  {
    StackEarlyOf(t);
    DequeRulesOf(t);
    TemplatesStep(StackOf(t), 3, StackOf(t), StackOverDeque(t));
    StackRulesOf(t);
    TemplatesStep(StackOf(t), 4, StackOverDeque(t), ShortStack(t));
    ShortStackClean(t);
    LastStep(StackOf(t), ShortStack(t));
  }
}
