/**
 * The handful of Python string operations the classifier and the beautifier
 * rely on, written out over `seq<char>`: `strip`, `startswith`, `in`, `find`,
 * `replace`, `join` and the argument-less `split`.
 *
 * Whitespace is the ASCII set Python's `str.strip()` and `str.split()` use
 * (space, tab, line feed, carriage return, vertical tab, form feed).
 * Functions recurse on the tail of the string so that short literals can be
 * evaluated by the verifier; the lemmas below give the splitting rules that
 * longer examples are proved with.
 */
module Text {

  predicate IsSpace(c: char)
  {
    c == ' ' || c == '\t' || c == '\n' || c == '\r' || c == '\U{000B}' || c == '\U{000C}'
  }

  predicate IsDigit(c: char)
  {
    '0' <= c <= '9'
  }

  /** Number of leading whitespace characters. */
  function LeadingSpaces(s: string): (k: nat)
    ensures k <= |s|
    ensures forall i :: 0 <= i < k ==> IsSpace(s[i])
    ensures k == |s| || !IsSpace(s[k])
  {
    if s != [] && IsSpace(s[0]) then 1 + LeadingSpaces(s[1..]) else 0
  }

  /** Index at which the trailing whitespace begins. */
  function TrailingStart(s: string): (k: nat)
    ensures k <= |s|
    ensures forall i :: k <= i < |s| ==> IsSpace(s[i])
    ensures k == 0 || !IsSpace(s[k - 1])
  {
    if s != [] && IsSpace(s[|s| - 1]) then TrailingStart(s[..|s| - 1]) else |s|
  }

  /** Python's `s.strip()`. */
  function Strip(s: string): (r: string)
    ensures r == [] || (!IsSpace(r[0]) && !IsSpace(r[|r| - 1]))
    ensures LeadingSpaces(s) + |r| <= |s| && r == s[LeadingSpaces(s)..LeadingSpaces(s) + |r|]
    ensures forall i :: LeadingSpaces(s) + |r| <= i < |s| ==> IsSpace(s[i])
  {
    var t := s[LeadingSpaces(s)..];
    t[..TrailingStart(t)]
  }

  /** Text that neither starts nor ends with whitespace is its own strip. */
  lemma StripUnchanged(s: string)
    requires s == [] || (!IsSpace(s[0]) && !IsSpace(s[|s| - 1]))
    ensures Strip(s) == s
  {
    var k := LeadingSpaces(s);
    assert k == 0;
    var e := TrailingStart(s);
    assert e == |s|;
  }

  lemma StripIdempotent(s: string)
    ensures Strip(Strip(s)) == Strip(s)
  {
    StripUnchanged(Strip(s));
  }

  /** Stripping removes exactly the white space around an unpadded, non-empty text. */
  lemma StripAround(lead: string, s: string, trail: string)
    requires s != [] && !IsSpace(s[0]) && !IsSpace(s[|s| - 1])
    requires forall k | 0 <= k < |lead| :: IsSpace(lead[k])
    requires forall k | 0 <= k < |trail| :: IsSpace(trail[k])
    ensures Strip(lead + s + trail) == s
  {
    var t := lead + s + trail;
    assert t[|lead|] == s[0];
    assert forall i | 0 <= i < |lead| :: t[i] == lead[i];
    assert LeadingSpaces(t) == |lead|;
    var r := Strip(t);
    assert t[|lead| + |s| - 1] == s[|s| - 1];
    assert forall i | |lead| + |s| <= i < |t| :: t[i] == trail[i - |lead| - |s|];
    assert |r| == |s|;
    assert r == t[|lead|..|lead| + |s|] == s;
  }

  /** Python's `s.startswith(p)`. */
  predicate StartsWith(s: string, p: string)
    ensures StartsWith(s, p) ==> |p| <= |s|
  {
    p == [] || (s != [] && s[0] == p[0] && StartsWith(s[1..], p[1..]))
  }

  lemma StartsWithIsPrefix(s: string, p: string)
    ensures StartsWith(s, p) <==> p <= s
  {
    if p != [] && s != [] {
      StartsWithIsPrefix(s[1..], p[1..]);
      if p <= s {
        assert p[1..] <= s[1..];
      }
    }
  }

  lemma StartsWithAppend(p: string, t: string)
    ensures StartsWith(p + t, p)
  {
    StartsWithIsPrefix(p + t, p);
  }

  /** Python's `p in s`; the empty string is in every string. */
  predicate Contains(s: string, p: string)
  {
    StartsWith(s, p) || (s != [] && Contains(s[1..], p))
  }

  /** A pattern whose k-th character does not occur in `s` is not in `s`. */
  lemma {:induction false} AbsentChar(s: string, p: string, k: nat)
    requires k < |p| && p[k] !in s
    ensures !Contains(s, p)
  {
    StartsWithIsPrefix(s, p);
    if s != [] {
      AbsentChar(s[1..], p, k);
    }
  }

  lemma {:induction false} ContainsPrefix(s: string, p: string)
    requires StartsWith(s, p)
    ensures Contains(s, p)
  {
  }

  lemma {:induction false} ContainsLonger(a: string, s: string, p: string)
    requires Contains(s, p)
    ensures Contains(a + s, p)
  {
    if a != [] {
      assert (a + s)[1..] == a[1..] + s;
      ContainsLonger(a[1..], s, p);
    } else {
      assert a + s == s;
    }
  }

  /** Python's `s.find(p)` when `p in s`: the first index at which `p` starts. */
  function Find(s: string, p: string): (k: nat)
    requires Contains(s, p)
    ensures k <= |s| && StartsWith(s[k..], p)
    ensures forall j {:trigger StartsWith(s[j..], p)} :: 0 <= j < k ==> !StartsWith(s[j..], p)
  {
    if StartsWith(s, p) then 0
    else
      var k := 1 + Find(s[1..], p);
      assert s[k..] == s[1..][k - 1..];
      assert forall j :: 1 <= j <= |s| ==> s[j..] == s[1..][j - 1..];
      k
  }

  /** `r` inserted before every character and at the end: Python's `s.replace("", r)`. */
  function Interleave(s: string, r: string): (t: string)
    ensures |t| == |s| + (|s| + 1) * |r|
  {
    if s == [] then r else r + [s[0]] + Interleave(s[1..], r)
  }

  /**
   * Python's `s.replace(p, r)`: every occurrence of `p`, found left to right
   * without overlap, is replaced by `r`.
   */
  function ReplaceAll(s: string, p: string, r: string): string
    decreases |s|
  {
    if p == [] then Interleave(s, r)
    else if s == [] then []
    else if StartsWith(s, p) then r + ReplaceAll(s[|p|..], p, r)
    else [s[0]] + ReplaceAll(s[1..], p, r)
  }

  /** An occurrence at the very start is replaced and scanning resumes after it. */
  lemma ReplaceAtStart(p: string, t: string, r: string)
    requires p != []
    ensures ReplaceAll(p + t, p, r) == r + ReplaceAll(t, p, r)
  {
    StartsWithAppend(p, t);
    assert (p + t)[|p|..] == t;
  }

  /** A pattern whose first character is not in `a` occurs in `a + b` only inside `b`. */
  lemma {:induction false} ContainsAfter(a: string, b: string, p: string)
    requires p != [] && p[0] !in a && Contains(a + b, p)
    ensures Contains(b, p)
  {
    if a == [] {
      assert a + b == b;
    } else {
      assert (a + b)[0] == a[0];
      assert (a + b)[1..] == a[1..] + b;
      ContainsAfter(a[1..], b, p);
    }
  }

  /** A pattern longer than the text does not occur in it. */
  lemma {:induction false} ContainsLength(s: string, p: string)
    requires Contains(s, p)
    ensures |p| <= |s|
  {
    StartsWithIsPrefix(s, p);
    if !StartsWith(s, p) {
      ContainsLength(s[1..], p);
    }
  }

  /** A text free of the pattern's first character, put in front of one without the pattern, adds no occurrence. */
  lemma {:induction false} NotContainsSplit(a: string, b: string, p: string)
    requires p != [] && p[0] !in a && !Contains(b, p)
    ensures !Contains(a + b, p)
  {
    if Contains(a + b, p) {
      ContainsAfter(a, b, p);
    }
  }

  /** Text before the first possible start of the pattern is copied unchanged. */
  lemma {:induction false} ReplaceSkip(a: string, t: string, p: string, r: string)
    requires p != [] && p[0] !in a
    ensures ReplaceAll(a + t, p, r) == a + ReplaceAll(t, p, r)
  {
    if a != [] {
      StartsWithIsPrefix(a + t, p);
      assert (a + t)[0] == a[0];
      assert (a + t)[1..] == a[1..] + t;
      ReplaceSkip(a[1..], t, p, r);
    } else {
      assert a + t == t;
    }
  }

  /** Replacing a pattern that does not occur changes nothing. */
  lemma {:induction false} ReplaceAbsent(s: string, p: string, r: string)
    requires !Contains(s, p)
    ensures ReplaceAll(s, p, r) == s
  {
    if s != [] {
      ReplaceAbsent(s[1..], p, r);
    }
  }

  /**
   * `replace` leaves the text unchanged exactly when the pattern does not
   * occur or is replaced by itself.
   */
  lemma {:induction false} ReplaceUnchangedIff(s: string, p: string, r: string)
    requires p != []
    ensures ReplaceAll(s, p, r) == s <==> (!Contains(s, p) || p == r)
  {
    if !Contains(s, p) {
      ReplaceAbsent(s, p, r);
    } else if p == r {
      ReplaceSelf(s, p);
    } else {
      ReplaceChanges(s, p, r);
    }
  }

  lemma {:induction false} ReplaceSelf(s: string, p: string)
    requires p != []
    ensures ReplaceAll(s, p, p) == s
  {
    if s != [] {
      if StartsWith(s, p) {
        StartsWithIsPrefix(s, p);
        ReplaceSelf(s[|p|..], p);
        assert s == p + s[|p|..];
      } else {
        ReplaceSelf(s[1..], p);
      }
    }
  }

  lemma {:induction false} ReplaceChanges(s: string, p: string, r: string)
    requires p != [] && p != r && Contains(s, p)
    ensures ReplaceAll(s, p, r) != s
    decreases |s|
  {
    var t := ReplaceAll(s, p, r);
    if StartsWith(s, p) {
      StartsWithIsPrefix(s, p);
      var rest := ReplaceAll(s[|p|..], p, r);
      assert t == r + rest;
      if |r| == |p| {
        assert t[..|p|] == r;
        assert s[..|p|] == p;
      } else {
        ContainsPrefix(s, p);
        ReplaceLength(s, p, r);
      }
    } else {
      assert s != [];
      ReplaceChanges(s[1..], p, r);
      assert t == [s[0]] + ReplaceAll(s[1..], p, r);
      assert t[1..] == ReplaceAll(s[1..], p, r);
    }
  }

  /**
   * A longer replacement never shortens the text and a shorter one never
   * lengthens it; when the pattern occurs, the change is strict.
   */
  lemma {:induction false} ReplaceLength(s: string, p: string, r: string)
    requires p != []
    ensures |r| >= |p| ==> |ReplaceAll(s, p, r)| >= |s|
    ensures |r| <= |p| ==> |ReplaceAll(s, p, r)| <= |s|
    ensures Contains(s, p) && |r| > |p| ==> |ReplaceAll(s, p, r)| > |s|
    ensures Contains(s, p) && |r| < |p| ==> |ReplaceAll(s, p, r)| < |s|
    decreases |s|
  {
    if s != [] {
      if StartsWith(s, p) {
        StartsWithIsPrefix(s, p);
        ReplaceLength(s[|p|..], p, r);
      } else {
        ReplaceLength(s[1..], p, r);
      }
    }
  }

  /**
   * Replacement distributes over a concatenation whose right part starts
   * with a character the pattern does not contain: no occurrence can straddle
   * the boundary.
   */
  lemma {:induction false} ReplaceAppend(a: string, b: string, p: string, r: string)
    requires p != []
    requires b == [] || b[0] !in p
    ensures ReplaceAll(a + b, p, r) == ReplaceAll(a, p, r) + ReplaceAll(b, p, r)
    decreases |a|
  {
    if a == [] {
      assert a + b == b;
    } else if StartsWith(a, p) {
      var t := a[|p|..];
      StartsWithIsPrefix(a, p);
      ReplaceAppend(t, b, p, r);
      AppendAfterMatch(a, b, p, r, t);
    } else {
      NoStraddle(a, b, p);
      ReplaceAppend(a[1..], b, p, r);
      AppendAfterMiss(a, b, p, r);
    }
  }

  /** The step of `ReplaceAppend` where `a` starts with the pattern. */
  lemma AppendAfterMatch(a: string, b: string, p: string, r: string, t: string)
    requires p != [] && |p| <= |a| && a[..|p|] == p && t == a[|p|..]
    requires ReplaceAll(t + b, p, r) == ReplaceAll(t, p, r) + ReplaceAll(b, p, r)
    ensures ReplaceAll(a + b, p, r) == ReplaceAll(a, p, r) + ReplaceAll(b, p, r)
  {
    SplitAfterPrefix(a, b, p, t);
    ReplaceAtStart(p, t + b, r);
    ReplaceAtStart(p, t, r);
    AppendAssoc(r, ReplaceAll(t, p, r), ReplaceAll(b, p, r));
  }

  lemma SplitAfterPrefix(a: string, b: string, p: string, t: string)
    requires |p| <= |a| && a[..|p|] == p && t == a[|p|..]
    ensures a == p + t && a + b == p + (t + b)
  {
    assert a == a[..|p|] + a[|p|..];
  }

  lemma AppendAssoc(x: string, y: string, z: string)
    ensures x + (y + z) == x + y + z
  {
  }

  /** The step of `ReplaceAppend` where `a` does not start with the pattern. */
  lemma AppendAfterMiss(a: string, b: string, p: string, r: string)
    requires p != [] && a != [] && !StartsWith(a, p) && !StartsWith(a + b, p)
    requires ReplaceAll(a[1..] + b, p, r) == ReplaceAll(a[1..], p, r) + ReplaceAll(b, p, r)
    ensures ReplaceAll(a + b, p, r) == ReplaceAll(a, p, r) + ReplaceAll(b, p, r)
  {
    ReplaceMiss(a, p, r);
    ReplaceMiss(a + b, p, r);
    ConsAppend(a, b);
    AppendAssoc([a[0]], ReplaceAll(a[1..], p, r), ReplaceAll(b, p, r));
  }

  lemma ConsAppend(a: string, b: string)
    requires a != []
    ensures (a + b)[0] == a[0] && (a + b)[1..] == a[1..] + b
  {
  }

  /** Where the pattern does not start, the first character is kept and scanning moves one on. */
  lemma ReplaceMiss(s: string, p: string, r: string)
    requires p != [] && s != [] && !StartsWith(s, p)
    ensures ReplaceAll(s, p, r) == [s[0]] + ReplaceAll(s[1..], p, r)
  {
  }

  lemma NoStraddle(a: string, b: string, p: string)
    requires b == [] || b[0] !in p
    requires !StartsWith(a, p)
    ensures !StartsWith(a + b, p)
  {
    StartsWithIsPrefix(a + b, p);
    StartsWithIsPrefix(a, p);
    if |p| <= |a| {
      assert (a + b)[..|p|] == a[..|p|];
    } else if |p| <= |a + b| {
      assert (a + b)[..|p|][|a|] == b[0];
      assert p[|a|] != b[0];
    }
  }

  /** Python's `sep.join(parts)`. */
  function Join(parts: seq<string>, sep: string): (r: string)
    ensures |parts| == 1 ==> r == parts[0]
  {
    if |parts| == 0 then []
    else if |parts| == 1 then parts[0]
    else parts[0] + sep + Join(parts[1..], sep)
  }

  /** Python's `"".join(parts)`. */
  function Concat(parts: seq<string>): (r: string)
    ensures |parts| == 1 ==> r == parts[0]
  {
    if parts == [] then [] else parts[0] + Concat(parts[1..])
  }

  lemma {:induction false} ConcatAppend(a: seq<string>, b: seq<string>)
    ensures Concat(a + b) == Concat(a) + Concat(b)
  {
    if a != [] {
      assert (a + b)[1..] == a[1..] + b;
      ConcatAppend(a[1..], b);
    } else {
      assert a + b == b;
    }
  }

  /** Length of the leading run of non-whitespace characters. */
  function WordLength(s: string): (k: nat)
    ensures k <= |s|
    ensures forall i :: 0 <= i < k ==> !IsSpace(s[i])
    ensures k == |s| || IsSpace(s[k])
  {
    if s != [] && !IsSpace(s[0]) then 1 + WordLength(s[1..]) else 0
  }

  /** A word: non-empty and free of whitespace. */
  predicate IsWord(w: string)
  {
    w != [] && forall j :: 0 <= j < |w| ==> !IsSpace(w[j])
  }

  /** Python's argument-less `s.split()`: the maximal runs of non-whitespace. */
  function Words(s: string): (ws: seq<string>)
    decreases |s|
  {
    if s == [] then []
    else if IsSpace(s[0]) then Words(s[1..])
    else
      var w := WordLength(s);
      [s[..w]] + Words(s[w..])
  }

  /** A non-empty run without whitespace is one word. */
  lemma OneWord(w: string)
    requires IsWord(w)
    ensures Words(w) == [w]
  {
    var k := WordLength(w);
    assert k == |w|;
    assert w[k..] == [];
    assert w[..k] == w;
  }

  /** Leading whitespace does not change the words. */
  lemma WordsSkipSpace(c: char, s: string)
    requires IsSpace(c)
    ensures Words([c] + s) == Words(s)
  {
    assert ([c] + s)[1..] == s;
  }

  /** Splitting at a whitespace character splits the word list. */
  lemma {:induction false} WordsAppend(a: string, c: char, b: string)
    requires IsSpace(c)
    ensures Words(a + [c] + b) == Words(a) + Words(b)
    decreases |a|
  {
    if a == [] {
      assert a + [c] + b == [c] + b;
      WordsSkipSpace(c, b);
    } else if IsSpace(a[0]) {
      WordsAppend(a[1..], c, b);
      WordsAppendSpaceHead(a, c, b);
    } else {
      var w := WordLength(a);
      WordsAppend(a[w..], c, b);
      WordsAppendWordHead(a, c, b);
    }
  }

  lemma WordsAppendSpaceHead(a: string, c: char, b: string)
    requires IsSpace(c) && a != [] && IsSpace(a[0])
    requires Words(a[1..] + [c] + b) == Words(a[1..]) + Words(b)
    ensures Words(a + [c] + b) == Words(a) + Words(b)
  {
    assert a + [c] + b == [a[0]] + (a[1..] + [c] + b);
    WordsSkipSpace(a[0], a[1..] + [c] + b);
    assert a == [a[0]] + a[1..];
    WordsSkipSpace(a[0], a[1..]);
  }

  lemma WordsAppendWordHead(a: string, c: char, b: string)
    requires IsSpace(c) && a != [] && !IsSpace(a[0])
    requires Words(a[WordLength(a)..] + [c] + b) == Words(a[WordLength(a)..]) + Words(b)
    ensures Words(a + [c] + b) == Words(a) + Words(b)
  {
    var s := a + [c] + b;
    var w := WordLength(a);
    SplitAtWord(a, c, b);
    WordsStep(s);
    WordsStep(a);
  }

  lemma SplitAtWord(a: string, c: char, b: string)
    requires IsSpace(c) && a != [] && !IsSpace(a[0])
    ensures (a + [c] + b)[0] == a[0]
    ensures WordLength(a + [c] + b) == WordLength(a)
    ensures (a + [c] + b)[..WordLength(a)] == a[..WordLength(a)]
    ensures (a + [c] + b)[WordLength(a)..] == a[WordLength(a)..] + [c] + b
  {
    WordLengthAppend(a, c, b);
  }

  /** A string that starts with a word splits into that word and the words after it. */
  lemma WordsStep(s: string)
    requires s != [] && !IsSpace(s[0])
    ensures Words(s) == [s[..WordLength(s)]] + Words(s[WordLength(s)..])
  {
  }

  lemma {:induction false} WordLengthAppend(a: string, c: char, b: string)
    requires IsSpace(c)
    ensures WordLength(a + [c] + b) == WordLength(a)
  {
    var s := a + [c] + b;
    if a != [] && !IsSpace(a[0]) {
      assert s[1..] == a[1..] + [c] + b;
      WordLengthAppend(a[1..], c, b);
    }
  }
}
