/**
 * Properties of the beautifier model: what `build` can return, how the
 * levels relate, and the round trip of a rendered with-clause through
 * `_parse_with_stmts`.
 */
module BeautifierProperties {
  import opened Wrappers
  import opened Text
  import opened GccParser
  import opened GccBeautifier

  // ---------------------------------------------------------------------------
  // `build` as a whole.

  /** Above LV_NONE the output is either suppressed or a stripped line that starts with none of the redundant prefixes. */
  lemma BuildOutputShape(level: int, result: string, codes: seq<Code>)
    requires level != None_
    ensures var out := BuildSpec(level, result, codes).output;
      out == [] || (Strip(out) == out && !Redundant(out))
  {
    var p := Run(TierOf(level), result, codes, |codes|);
    if !p.stopped {
      StripIdempotent(p.result);
    }
  }

  /** LV_NONE hands back the constructor's line untouched and leaves the codes alone. */
  lemma NoneIsIdentity(result: string, codes: seq<Code>)
    ensures BuildSpec(None_, result, codes) == Built(result, result, codes)
  {
  }

  /** LV_HIGH and LV_ALL do nothing LV_MODERATE does not. */
  lemma LevelsAboveModerateAgree(l1: int, l2: int, result: string, codes: seq<Code>)
    requires l1 >= Moderate && l2 >= Moderate
    ensures BuildSpec(l1, result, codes) == BuildSpec(l2, result, codes)
  {
    assert TierOf(l1) == TierOf(l2);
  }

  /**
   * From LV_MODERATE up, a line that starts with "error: " once its
   * system-header locations are gone is suppressed, provided the message
   * has at least one code; the line keeps that text.
   */
  lemma {:induction false} ModerateSuppressesErrors(level: int, result: string, codes: seq<Code>)
    requires level >= Moderate && codes != []
    requires StartsWith(RemoveSysFiles(result), "error: ")
    ensures BuildSpec(level, result, codes).output == []
    ensures BuildSpec(level, result, codes).result == RemoveSysFiles(result)
  {
    assert Run(TierOf(level), result, codes, 1).stopped;
    RunStopped(TierOf(level), result, codes, 1);
  }

  /** Without codes, a line that starts with "error: " survives from LV_MODERATE up: the check sits inside the per-code loop. */
  lemma ErrorsWithoutCodesSurvive(level: int, result: string)
    requires level >= Moderate && result == Strip(result) && StartsWith(result, "error: ")
    ensures BuildSpec(level, result, []).output == result
  {
    assert !StartsWith(result, "from") && !StartsWith(result, "note: previous definition");
    assert !StartsWith(result, "In file included from");
  }

  // ---------------------------------------------------------------------------
  // The with-clause round trip.

  /** The bracket counters after reading `s` from `d`, one character at a time. */
  function Walk(d: Depths, s: string): Depths
    decreases |s|
  {
    if s == [] then d else Walk(d.Step(s[0]), s[1..])
  }

  /** Reading `s` from `d` meets no comma while every counter is zero: all of `s` stays in one entry. */
  predicate Inside(d: Depths, s: string)
    decreases |s|
  {
    s == [] || (!(s[0] == ',' && d.IsZero()) && Inside(d.Step(s[0]), s[1..]))
  }

  /** Text read without a top-level comma joins the current entry, and the counters move by its brackets. */
  lemma {:induction false} EntriesInside(s: string, b: string, d: Depths, cur: string)
    requires Inside(d, s)
    ensures Entries(s + b, d, cur) == Entries(b, Walk(d, s), cur + s)
    decreases |s|
  {
    if s == [] {
      assert s + b == b && cur + s == cur;
    } else {
      HeadTail(s, b);
      EntriesInside(s[1..], b, d.Step(s[0]), cur + [s[0]]);
      assert cur + [s[0]] + s[1..] == cur + s;
    }
  }

  /** Text without brackets leaves the counters alone, and its commas stay in the entry when some counter is open. */
  lemma {:induction false} PlainWalk(d: Depths, s: string)
    requires forall k | 0 <= k < |s| :: !IsOpener(s[k]) && !IsCloser(s[k])
    requires d.IsZero() ==> ',' !in s
    ensures Inside(d, s) && Walk(d, s) == d
    decreases |s|
  {
    if s != [] {
      StepOther(d, s[0]);
      PlainWalk(d, s[1..]);
    }
  }

  /** Reading `a + b` is reading `a`, then `b` from where `a` left the counters. */
  lemma {:induction false} WalkAppend(d: Depths, a: string, b: string)
    ensures Walk(d, a + b) == Walk(Walk(d, a), b)
    ensures Inside(d, a + b) <==> Inside(d, a) && Inside(Walk(d, a), b)
    decreases |a|
  {
    if a == [] {
      assert a + b == b;
    } else {
      HeadTail(a, b);
      WalkAppend(d.Step(a[0]), a[1..], b);
    }
  }

  /**
   * A key or value the scanner keeps in one piece: its brackets bring the
   * counters back to zero, each of its commas sits inside brackets, and it
   * has no '=' and no ']' (so no '[' either). `map<int, char>` is one.
   */
  predicate Nested(s: string)
  {
    Inside(Zero, s) && Walk(Zero, s) == Zero && '=' !in s && ']' !in s
  }

  /** A with-clause key or value: non-empty, unpadded and `Nested`. */
  predicate WithText(s: string)
  {
    s != [] && !IsSpace(s[0]) && !IsSpace(s[|s| - 1]) && Nested(s)
  }

  /** Pairs, each of whose key and value is `WithText`. */
  predicate PairsText(ps: seq<WithPair>)
  {
    ps == [] || (WithText(ps[0].key) && WithText(ps[0].value) && PairsText(ps[1..]))
  }

  /** The pairs of a clause: at least one, each `WithText`. */
  predicate WithPairs(ps: seq<WithPair>)
  {
    ps != [] && PairsText(ps)
  }

  /** One pair written as "K = V". */
  function Entry(p: WithPair): string
  {
    p.key + " = " + p.value
  }

  /** The pairs of a clause written as "K1 = V1, K2 = V2, ...". */
  function Body(ps: seq<WithPair>): string
    requires ps != []
  {
    if |ps| == 1 then Entry(ps[0]) else Entry(ps[0]) + ", " + Body(ps[1..])
  }

  /** Text without commas or brackets is gathered into the current entry. */
  lemma {:induction false} EntriesPlainText(a: string, b: string, cur: string)
    requires forall k | 0 <= k < |a| :: a[k] != ',' && !IsOpener(a[k]) && !IsCloser(a[k])
    ensures Entries(a + b, Zero, cur) == Entries(b, Zero, cur + a)
  {
    PlainWalk(Zero, a);
    EntriesInside(a, b, Zero, cur);
  }

  /** A written pair is gathered whole into the current entry and leaves the counters at zero. */
  lemma EntryScan(p: WithPair, rest: string, cur: string)
    requires WithText(p.key) && WithText(p.value)
    ensures Entries(Entry(p) + rest, Zero, cur) == Entries(rest, Zero, cur + Entry(p))
  {
    var k, v := p.key, p.value;
    assert Entry(p) + rest == k + (" = " + (v + rest));
    EntriesInside(k, " = " + (v + rest), Zero, cur);
    EntriesPlainText(" = ", v + rest, cur + k);
    EntriesInside(v, rest, Zero, cur + k + " = ");
    assert cur + k + " = " + v == cur + Entry(p);
  }

  /** A comma read at depth zero closes the current entry. */
  lemma EntriesComma(r: string, cur: string)
    ensures Entries("," + r, Zero, cur) == [cur] + Entries(r, Zero, [])
  {
    assert ("," + r)[0] == ',' && ("," + r)[1..] == r;
  }

  /** The later entries of a written body, each with the space that follows its comma. */
  function Spaced(ps: seq<WithPair>): seq<string>
  {
    if ps == [] then [] else [" " + Entry(ps[0])] + Spaced(ps[1..])
  }

  lemma BodyShape(e: string, b: string, r: string)
    ensures e + ", " + b + ("," + r) == e + ("," + (" " + (b + ("," + r))))
  {
    assert ", " == "," + " ";
  }

  /**
   * The entries of a written body followed by a comma and more text: the
   * first pair as written after `cur`, every later one with the space after
   * its comma, then the entries of the text after the comma.
   */
  lemma {:induction false} EntriesOfBody(ps: seq<WithPair>, cur: string, r: string)
    requires WithPairs(ps)
    ensures Entries(Body(ps) + ("," + r), Zero, cur) == [cur + Entry(ps[0])] + Spaced(ps[1..]) + Entries(r, Zero, [])
    decreases |ps|
  {
    var e := Entry(ps[0]);
    if |ps| == 1 {
      EntryScan(ps[0], "," + r, cur);
      EntriesComma(r, cur + e);
      assert Spaced(ps[1..]) == [];
    } else {
      var rest := ps[1..];
      BodyShape(e, Body(rest), r);
      EntryScan(ps[0], "," + (" " + (Body(rest) + ("," + r))), cur);
      EntriesComma(" " + (Body(rest) + ("," + r)), cur + e);
      EntriesPlainText(" ", Body(rest) + ("," + r), []);
      assert [] + " " == " ";
      EntriesOfBody(rest, " ", r);
      assert Spaced(rest) == [" " + Entry(rest[0])] + Spaced(rest[1..]);
    }
  }

  /** An entry with exactly one '=' unpacks into its stripped sides. */
  lemma PairOfSplit(x: string, y: string)
    requires '=' !in x && '=' !in y
    ensures PairOf(x + "=" + y) == Ok(WithPair(Strip(x), Strip(y)))
  {
    var e := x + "=" + y;
    assert e[|x|] == '=';
    assert e[..|x|] == x;
    assert e[|x| + 1..] == y;
    assert forall i | 0 <= i < |x| :: e[i] == x[i];
    assert IndexOf(e, '=') == Some(|x|);
  }

  /**
   * `key, value = entry.split("=")` unpacks exactly when the entry holds one
   * '='; otherwise it raises `ValueError`.
   */
  lemma PairOfCount(e: string)
    ensures PairOf(e).Ok? <==> multiset(e)['='] == 1
    ensures PairOf(e).Err? ==> PairOf(e) == Err(ValueError)
  {
    match IndexOf(e, '=')
    case None =>
    case Some(k) =>
      assert e == e[..k] + [e[k]] + e[k + 1..];
      assert multiset(e) == multiset(e[..k]) + multiset([e[k]]) + multiset(e[k + 1..]);
  }

  /** The text before the '=' of a written pair. */
  lemma KeySide(lead: string, key: string)
    requires lead == [] || lead == " "
    requires WithText(key)
    ensures '=' !in lead + key + " " && Strip(lead + key + " ") == key
  {
    StripAround(lead, key, " ");
  }

  /** The text after the '=' of a written pair. */
  lemma ValueSide(value: string)
    requires WithText(value)
    ensures '=' !in " " + value && Strip(" " + value) == value
  {
    StripAround(" ", value, []);
    assert " " + value + [] == " " + value;
  }

  lemma EntryShape(lead: string, k: string, v: string)
    ensures lead + (k + " = " + v) == (lead + k + " ") + "=" + (" " + v)
  {
    assert " = " == " " + "=" + " ";
  }

  /** A written pair, with or without the space after its comma, unpacks into the pair. */
  lemma PairOfEntry(lead: string, p: WithPair)
    requires lead == [] || lead == " "
    requires WithText(p.key) && WithText(p.value)
    ensures PairOf(lead + Entry(p)) == Ok(p)
  {
    KeySide(lead, p.key);
    ValueSide(p.value);
    EntryShape(lead, p.key, p.value);
    PairOfSplit(lead + p.key + " ", " " + p.value);
  }

  lemma {:induction false} PairsOfSpaced(ps: seq<WithPair>)
    requires PairsText(ps)
    ensures PairsOf(Spaced(ps)) == Ok(ps)
    decreases |ps|
  {
    if ps != [] {
      var rest := ps[1..];
      PairsOfSpaced(rest);
      PairOfEntry(" ", ps[0]);
      PairsCons(" " + Entry(ps[0]), Spaced(rest));
      ConsSplit(ps);
    }
  }

  lemma EntriesOfBodyStart(ps: seq<WithPair>)
    requires WithPairs(ps)
    ensures Entries(Body(ps) + ",", Zero, []) == [Entry(ps[0])] + Spaced(ps[1..])
  {
    EntriesOfBody(ps, [], []);
    assert "," + [] == ",";
    assert [] + Entry(ps[0]) == Entry(ps[0]);
    assert Entries([], Zero, []) == [];
    assert [Entry(ps[0])] + Spaced(ps[1..]) + [] == [Entry(ps[0])] + Spaced(ps[1..]);
  }

  lemma PairOfBare(p: WithPair)
    requires WithText(p.key) && WithText(p.value)
    ensures PairOf(Entry(p)) == Ok(p)
  {
    PairOfEntry([], p);
    assert [] + Entry(p) == Entry(p);
  }

  lemma ConsSplit(ps: seq<WithPair>)
    requires ps != []
    ensures [ps[0]] + ps[1..] == ps
  {
  }

  lemma PairsOfRendered(ps: seq<WithPair>)
    requires WithPairs(ps)
    ensures PairsOf([Entry(ps[0])] + Spaced(ps[1..])) == Ok(ps)
  {
    var rest := ps[1..];
    PairsOfSpaced(rest);
    PairOfBare(ps[0]);
    PairsCons(Entry(ps[0]), Spaced(rest));
    ConsSplit(ps);
  }

  /** Entries that all unpack, followed by more: their pairs come first, or the first failure after them. */
  lemma {:induction false} PairsAppend(a: seq<string>, b: seq<string>)
    requires PairsOf(a).Ok?
    ensures PairsOf(a + b) == Prepend(PairsOf(a).value, PairsOf(b))
    decreases |a|
  {
    if a == [] {
      assert a + b == b;
      PrependEmpty(PairsOf(b));
    } else {
      assert (a + b)[0] == a[0] && (a + b)[1..] == a[1..] + b;
      PairsCons(a[0], a[1..]);
      PairsCons(a[0], a[1..] + b);
      PairsAppend(a[1..], b);
      PrependTwice([PairOf(a[0]).value], PairsOf(a[1..]).value, PairsOf(b));
    }
  }

  /** The pairs of a written body come back, in order. */
  lemma BodyRoundTrip(ps: seq<WithPair>)
    requires WithPairs(ps)
    ensures PairsOf(Entries(Body(ps) + ",", Zero, [])) == Ok(ps)
  {
    EntriesOfBodyStart(ps);
    PairsOfRendered(ps);
  }

  /** The search skips text without a '['. */
  lemma {:induction false} SearchSkips(a: string, s: string)
    requires '[' !in a
    ensures SearchWith(a + s) == Shift2(SearchWith(s), |a|)
    decreases |a|
  {
    if a == [] {
      assert a + s == s;
      ShiftZero(SearchWith(s));
    } else {
      HeadTail(a, s);
      SearchStep(a + s);
      SearchSkips(a[1..], s);
      ShiftShift(SearchWith(s), |a| - 1, 1);
    }
  }

  /** `re.search` finds nothing exactly when the pattern matches at no position. */
  lemma {:induction false} SearchNone(code: string)
    ensures SearchWith(code).None? <==> forall i | 0 <= i < |code| :: WithAt(code[i..]).None?
    decreases |code|
  {
    if code != [] {
      SearchNone(code[1..]);
      assert code[0..] == code;
      assert forall i | 1 <= i < |code| :: code[i..] == code[1..][i - 1..];
      if SearchWith(code).None? {
        forall i | 0 <= i < |code| ensures WithAt(code[i..]).None? {
          if i > 0 {
            assert code[i..] == code[1..][i - 1..];
          }
        }
      } else {
        if WithAt(code).None? {
          var i :| 0 <= i < |code[1..]| && WithAt(code[1..][i..]).Some?;
          assert code[i + 1..] == code[1..][i..];
        }
      }
    }
  }

  lemma HeadTail(a: string, s: string)
    requires a != []
    ensures a + s != [] && (a + s)[0] == a[0] && (a + s)[1..] == a[1..] + s
  {
  }

  /** No clause starts at a character other than '['. */
  lemma SearchStep(t: string)
    requires t != [] && t[0] != '['
    ensures SearchWith(t) == Shift2(SearchWith(t[1..]), 1)
  {
    assert !StartsWith(t, "[with");
  }

  lemma ShiftSome(x: nat, y: nat, n: nat)
    ensures Shift2(Some((x, y)), n) == Some((n + x, n + y))
  {
  }

  lemma ShiftZero(m: Option<(nat, nat)>)
    ensures Shift2(m, 0) == m
  {
  }

  lemma ShiftShift(m: Option<(nat, nat)>, x: nat, y: nat)
    ensures Shift2(Shift2(m, x), y) == Shift2(m, x + y)
  {
  }

  lemma ClauseShape(prefix: string, b: string, suffix: string)
    ensures prefix + "[with " + b + "]" + suffix == prefix + ("[with" + (" " + b + "]" + suffix))
  {
    assert "[with " == "[with" + " ";
  }

  /** A slice of `t` is found shifted in `p + t`. */
  lemma SliceAfter(p: string, t: string, x: nat, y: nat)
    requires x <= y <= |t|
    ensures (p + t)[|p| + x..|p| + y] == t[x..y]
  {
  }

  lemma WithAtClause(b: string, suffix: string)
    requires b != [] && !IsSpace(b[0]) && ']' !in b
    ensures WithAt("[with" + (" " + b + "]" + suffix)) == Some((6, 6 + |b|))
    ensures ("[with" + (" " + b + "]" + suffix))[6..6 + |b|] == b
  {
    var clause := "[with" + (" " + b + "]" + suffix);
    StartsWithAppend("[with", " " + b + "]" + suffix);
    var tail := " " + b + "]" + suffix;
    assert clause[5..] == tail;
    assert tail[|b| + 1] == ']';
    assert tail[..|b| + 1] == " " + b;
    assert clause[5..5 + (|b| + 1)] == " " + b;
    assert IndexOf(tail, ']') == Some(|b| + 1);
    assert (" " + b)[1..] == b;
    assert LeadingSpaces(" " + b) == 1;
  }

  /** A clause after text without a '[' is the first match; its with-tokens are the pairs of its body's entries. */
  lemma ClauseBody(prefix: string, b: string, suffix: string)
    requires '[' !in prefix && b != [] && !IsSpace(b[0]) && ']' !in b
    ensures WithTokens(prefix + "[with " + b + "]" + suffix) == PairsOf(Entries(b + ",", Zero, []))
  {
    var t := "[with" + (" " + b + "]" + suffix);
    ClauseShape(prefix, b, suffix);
    WithAtClause(b, suffix);
    TokensAfter(prefix, t, 6, 6 + |b|, b);
  }

  /** A match at the start of `t` gives the with-tokens of `p + t` when `p` has no '['. */
  lemma TokensAfter(p: string, t: string, x: nat, y: nat, b: string)
    requires '[' !in p && WithAt(t) == Some((x, y)) && t[x..y] == b
    ensures WithTokens(p + t) == PairsOf(Entries(b + ",", Zero, []))
  {
    SearchSkips(p, t);
    SearchAtStart(t);
    ShiftSome(x, y, |p|);
    SliceAfter(p, t, x, y);
    TokensOfMatch(p + t, |p| + x, |p| + y, b);
  }

  lemma SearchAtStart(t: string)
    requires WithAt(t).Some?
    ensures SearchWith(t) == WithAt(t)
  {
  }

  lemma TokensOfMatch(code: string, x: nat, y: nat, b: string)
    requires SearchWith(code) == Some((x, y)) && code[x..y] == b
    ensures WithTokens(code) == PairsOf(Entries(b + ",", Zero, []))
  {
  }

  lemma {:induction false} BodyNoClose(ps: seq<WithPair>)
    requires WithPairs(ps)
    ensures ']' !in Body(ps)
    decreases |ps|
  {
    if |ps| > 1 {
      BodyNoClose(ps[1..]);
    }
  }

  lemma BodyStartsPlain(ps: seq<WithPair>)
    requires WithPairs(ps)
    ensures Body(ps) != [] && !IsSpace(Body(ps)[0])
  {
    assert Body(ps)[0] == Entry(ps[0])[0] == ps[0].key[0];
  }

  /**
   * `_parse_with_stmts` reads back the pairs of a clause written as
   * "[with K1 = V1, K2 = V2, ...]", in order, whatever precedes it (without
   * a '[') or follows it, even when a value such as `map<int, char>` holds
   * commas inside its brackets.
   */
  lemma WithClauseRoundTrip(prefix: string, ps: seq<WithPair>, suffix: string)
    requires '[' !in prefix && WithPairs(ps)
    ensures WithTokens(prefix + "[with " + Body(ps) + "]" + suffix) == Ok(ps)
  {
    BodyNoClose(ps);
    BodyStartsPlain(ps);
    ClauseBody(prefix, Body(ps), suffix);
    BodyRoundTrip(ps);
  }

  /** Where the pattern matches at no position there are no pairs. */
  lemma NoClauseNoPairs(code: string)
    requires forall i | 0 <= i < |code| :: WithAt(code[i..]).None?
    ensures WithTokens(code) == Ok([])
  {
    SearchNone(code);
  }

  /** Written pairs followed by the comma and space before a later entry; nothing when there are none. */
  function Lead(ps: seq<WithPair>): string
  {
    if ps == [] then [] else Body(ps) + ", "
  }

  /** An entry that runs to a top-level comma: it closes there, with whatever was gathered before it. */
  lemma EntryClosed(e: string, tail: string, cur: string)
    requires Inside(Zero, e) && Walk(Zero, e) == Zero && (tail == [] || tail[0] == ',')
    ensures Entries(e + (tail + ","), Zero, cur) == [cur + e] + Entries((tail + ",")[1..], Zero, [])
  {
    EntriesInside(e, tail + ",", Zero, cur);
    assert tail + "," == "," + (tail + ",")[1..];
    EntriesComma((tail + ",")[1..], cur + e);
  }

  lemma LeadShape(ps: seq<WithPair>, e: string, tail: string)
    requires ps != []
    ensures Lead(ps) + e + tail + "," == Body(ps) + ("," + (" " + (e + (tail + ","))))
  {
    assert ", " == "," + " ";
  }

  /** The entries of a clause body whose entry `e` comes after the written pairs. */
  lemma EntriesBefore(ps: seq<WithPair>, e: string, tail: string)
    requires PairsText(ps) && Inside(Zero, e) && Walk(Zero, e) == Zero && (tail == [] || tail[0] == ',')
    ensures var first := if ps == [] then e else " " + e;
      var good := if ps == [] then [] else [Entry(ps[0])] + Spaced(ps[1..]);
      Entries(Lead(ps) + e + tail + ",", Zero, []) == good + ([first] + Entries((tail + ",")[1..], Zero, []))
  {
    if ps == [] {
      assert Lead(ps) + e + tail + "," == e + (tail + ",");
      EntryClosed(e, tail, []);
      assert [] + e == e;
    } else {
      LeadShape(ps, e, tail);
      EntriesOfBody(ps, [], " " + (e + (tail + ",")));
      assert [] + Entry(ps[0]) == Entry(ps[0]);
      EntriesPlainText(" ", e + (tail + ","), []);
      assert [] + " " == " ";
      EntryClosed(e, tail, " ");
    }
  }

  /** The written pairs unpack, so the first failure is that of the entry after them. */
  lemma PairsBefore(ps: seq<WithPair>, first: string, rest: seq<string>)
    requires PairsText(ps) && PairOf(first).Err?
    ensures var good := if ps == [] then [] else [Entry(ps[0])] + Spaced(ps[1..]);
      PairsOf(good + ([first] + rest)) == Err(PairOf(first).error)
  {
    PairsCons(first, rest);
    if ps == [] {
      assert [] + ([first] + rest) == [first] + rest;
    } else {
      PairsOfRendered(ps);
      PairsAppend([Entry(ps[0])] + Spaced(ps[1..]), [first] + rest);
    }
  }

  /** The clause body holding `e` starts where the match's capture may start, and has no ']'. */
  lemma LeadBody(ps: seq<WithPair>, e: string, tail: string)
    requires PairsText(ps) && ']' !in e && ']' !in tail
    requires ps == [] ==> e != [] && !IsSpace(e[0])
    ensures var b := Lead(ps) + e + tail; b != [] && !IsSpace(b[0]) && ']' !in b
  {
    if ps != [] {
      BodyNoClose(ps);
      BodyStartsPlain(ps);
      assert (Lead(ps) + e + tail)[0] == Body(ps)[0];
    } else {
      assert (Lead(ps) + e + tail)[0] == e[0];
    }
  }

  lemma ClauseText(prefix: string, lead: string, e: string, tail: string, suffix: string)
    ensures prefix + "[with " + lead + e + tail + "]" + suffix == prefix + "[with " + (lead + e + tail) + "]" + suffix
  {
  }

  /**
   * An entry that does not hold exactly one '=', after any number of
   * well-formed pairs, makes the whole clause fail with `ValueError`,
   * whatever comes after it: the pairs before it are not kept.
   */
  lemma MalformedEntryFails(prefix: string, ps: seq<WithPair>, e: string, tail: string, suffix: string)
    requires '[' !in prefix && PairsText(ps)
    requires Inside(Zero, e) && Walk(Zero, e) == Zero && ']' !in e && multiset(e)['='] != 1
    requires ps == [] ==> e != [] && !IsSpace(e[0])
    requires ']' !in tail && (tail == [] || tail[0] == ',')
    ensures WithTokens(prefix + "[with " + Lead(ps) + e + tail + "]" + suffix) == Err(ValueError)
  {
    var b := Lead(ps) + e + tail;
    LeadBody(ps, e, tail);
    ClauseBody(prefix, b, suffix);
    ClauseText(prefix, Lead(ps), e, tail, suffix);
    EntriesBefore(ps, e, tail);
    var first := if ps == [] then e else " " + e;
    assert multiset(" " + e) == multiset(" ") + multiset(e);
    PairOfCount(first);
    PairsBefore(ps, first, Entries((tail + ",")[1..], Zero, []));
  }
}
