/**
 * The template beautifier of kaedenn/gcc/beautifier.py.
 *
 * A `Beautifier` is a parser whose message hook also reads the
 * `[with T = X, ...]` clause of every code fragment, plus a level and the
 * line being rewritten. `Build` rewrites each fragment (with-clause
 * substitution, "> >" collapsing, namespace and typedef compaction, default
 * template arguments), strips system-header locations at the higher levels
 * and splices the rewritten fragments back into the line.
 *
 * Word wrapping is off in this model: the beautifier is built as with
 * `wrap = False`.
 */
module GccBeautifier {
  import opened Wrappers
  import opened Text
  import opened GccParser

  /** The levels LV_NONE, LV_NORMAL and LV_MODERATE; LV_HIGH (3) and LV_ALL (4) act as LV_MODERATE. */
  const None_: int := 0
  const Normal: int := 1
  const Moderate: int := 2

  // ---------------------------------------------------------------------------
  // The tables, in the order they are written in the source.

  /** `_str_types`: typedef spellings with a `%s` hole for the character type, and their short names. */
  const StrTypes: seq<(string, string)> := [
    ("basic_ios<%s, char_traits<%s>>", "ios"),
    ("basic_streambuf<%s, char_traits<%s>>", "streambuf"),
    ("basic_istream<%s, char_traits<%s>>", "istream"),
    ("basic_ostream<%s, char_traits<%s>>", "ostream"),
    ("basic_iostream<%s, char_traits<%s>>", "iostream"),
    ("basic_ifstream<%s, char_traits<%s>>", "ifstream"),
    ("basic_ofstream<%s, char_traits<%s>>", "ofstream"),
    ("basic_fstream<%s, char_traits<%s>>", "fstream"),
    ("basic_istringstream<%s, char_traits<%s>, allocator<%s>>", "istringstream"),
    ("basic_ostringstream<%s, char_traits<%s>, allocator<%s>>", "ostringstream"),
    ("basic_stringstream<%s, char_traits<%s>, allocator<%s>>", "stringstream"),
    ("basic_string<%s, char_traits<%s>, allocator<%s>>", "string")
  ]

  /** `_char_types`. */
  const CharTypes: seq<string> := ["char", "wchar_t"]

  /** One entry of `_replacements`: a container name and its (long form, short form) templates. */
  datatype Container = Container(name: string, rules: seq<(string, string)>)

  /** `_replacements`. */
  const Replacements: seq<Container> := [
    Container("vector", [("vector<%s, allocator<%s>>", "vector<%s>"), ("typename vector<%s>::value_type", "%s")]),
    Container("list", [("list<%s, allocator<%s>>", "list<%s>"), ("typename list<%s>::value_type", "%s")]),
    Container("queue", [("queue<%s, deque<%s>>", "queue<%s>"), ("typename queue<%s>::value_type", "%s")]),
    Container("deque", [("deque<%s, allocator<%s>>", "deque<%s>"), ("typename deque<%s>::value_type", "%s")]),
    Container("stack", [("stack<%s, deque<%s>>", "stack<%s>"), ("typename stack<%s>::value_type", "%s")]),
    Container("set", [("set<%s, less<%s>, allocator<%s>>", "set<%s>"), ("typename set<%s>::value_type", "%s")])
  ]

  /** Python's `template.replace("%s", x)`. */
  function Fill(template: string, x: string): string
  {
    ReplaceAll(template, "%s", x)
  }

  // ---------------------------------------------------------------------------
  // The with-clause pattern `\[with\s*(?P<with>[^\]]+)\]`.

  /**
   * The match of the with-clause pattern at the start of `s`: the offset of
   * the captured body and the offset of the closing bracket. The body runs
   * to the first "]"; the leading whitespace is skipped, except that at
   * least one character must be captured.
   */
  function WithAt(s: string): (m: Option<(nat, nat)>)
    ensures m.Some? ==> 5 <= m.value.0 < m.value.1 < |s| && s[m.value.1] == ']'
    ensures m.Some? ==> StartsWith(s, "[with") && ']' !in s[5..m.value.1]
  {
    if !StartsWith(s, "[with") then None
    else match IndexOf(s[5..], ']')
      case None => None
      case Some(k) =>
        if k == 0 then None
        else
          var ws := LeadingSpaces(s[5..5 + k]);
          Some((5 + (if ws < k - 1 then ws else k - 1), 5 + k))
  }

  function Shift2(m: Option<(nat, nat)>, n: nat): Option<(nat, nat)>
  {
    match m
    case Some((b, c)) => Some((b + n, c + n))
    case None => None
  }

  /** `re.search`: the first match of the with-clause pattern, as offsets into `s`. */
  function SearchWith(s: string): (m: Option<(nat, nat)>)
    ensures m.Some? ==> m.value.0 < m.value.1 < |s| && s[m.value.1] == ']'
    decreases |s|
  {
    if s == [] then None
    else match WithAt(s)
      case Some(m) => Some(m)
      case None => Shift2(SearchWith(s[1..]), 1)
  }

  /** `re.sub(with_stmt, "", s)`: every with-clause, scanning left to right, removed. */
  function RemoveWith(s: string): (r: string)
    ensures |r| <= |s|
    decreases |s|
  {
    if s == [] then []
    else match WithAt(s)
      case Some((_, c)) => RemoveWith(s[c + 1..])
      case None => [s[0]] + RemoveWith(s[1..])
  }

  /** `re.sub(sys_file, "", s)`: every system-header location, scanning left to right, removed. */
  function RemoveSysFiles(s: string): (r: string)
    ensures |r| <= |s|
    decreases |s|
  {
    if s == [] then []
    else match SysFileMatch(s)
      case Some(n) => RemoveSysFiles(s[n..])
      case None => [s[0]] + RemoveSysFiles(s[1..])
  }

  // ---------------------------------------------------------------------------
  // `_parse_with_stmts`.

  /**
   * The entries of a with-clause body (followed by the extra ","): the text
   * between commas read with every bracket counter at zero. `cur` is the
   * entry read so far; text after the last such comma is dropped.
   */
  function Entries(t: string, d: Depths, cur: string): seq<string>
    decreases |t|
  {
    if t == [] then []
    else if t[0] == ',' && d.IsZero() then [cur] + Entries(t[1..], d, [])
    else Entries(t[1..], d.Step(t[0]), cur + [t[0]])
  }

  /** `key, value = entry.split("=")` with both sides stripped; anything but exactly one "=" cannot be unpacked. */
  function PairOf(e: string): Result<WithPair, Failure>
  {
    match IndexOf(e, '=')
    case None => Err(ValueError)
    case Some(k) =>
      if '=' in e[k + 1..] then Err(ValueError)
      else Ok(WithPair(Strip(e[..k]), Strip(e[k + 1..])))
  }

  /** The pairs of all entries, in order, or the failure of the first entry that has none. */
  function PairsOf(entries: seq<string>): (r: Result<seq<WithPair>, Failure>)
    ensures r.Ok? ==> |r.value| == |entries|
  {
    if entries == [] then Ok([])
    else match PairOf(entries[0])
      case Err(e) => Err(e)
      case Ok(p) =>
        match PairsOf(entries[1..])
        case Err(e) => Err(e)
        case Ok(ps) => Ok([p] + ps)
  }

  /** The with-tokens of a code fragment: none without a clause, else the pairs of the first clause's entries. */
  function WithTokens(code: string): Result<seq<WithPair>, Failure>
  {
    match SearchWith(code)
    case None => Ok([])
    case Some((b, c)) => PairsOf(Entries(code[b..c] + ",", Zero, []))
  }

  function Prepend(tokens: seq<WithPair>, r: Result<seq<WithPair>, Failure>): Result<seq<WithPair>, Failure>
  {
    match r
    case Ok(ps) => Ok(tokens + ps)
    case Err(e) => Err(e)
  }

  lemma PairsCons(e: string, rest: seq<string>)
    ensures PairOf(e).Err? ==> PairsOf([e] + rest) == Err(PairOf(e).error)
    ensures PairOf(e).Ok? ==> PairsOf([e] + rest) == Prepend([PairOf(e).value], PairsOf(rest))
  {
    assert ([e] + rest)[1..] == rest;
  }

  lemma PrependEmpty(r: Result<seq<WithPair>, Failure>)
    ensures Prepend([], r) == r
  {
    if r.Ok? {
      assert [] + r.value == r.value;
    }
  }

  lemma PrependTwice(a: seq<WithPair>, b: seq<WithPair>, r: Result<seq<WithPair>, Failure>)
    ensures Prepend(a, Prepend(b, r)) == Prepend(a + b, r)
  {
    if r.Ok? {
      assert a + (b + r.value) == (a + b) + r.value;
    }
  }

  /** One character of the entry scan, seen from the middle of the text. */
  lemma EntriesStep(t: string, i: nat, begin: nat, d: Depths)
    requires begin <= i < |t|
    ensures t[i] == ',' && d.IsZero() ==>
      Entries(t[i..], d, t[begin..i]) == [t[begin..i]] + Entries(t[i + 1..], d, [])
    ensures !(t[i] == ',' && d.IsZero()) ==>
      Entries(t[i..], d, t[begin..i]) == Entries(t[i + 1..], d.Step(t[i]), t[begin..i + 1])
  {
    assert t[i..][0] == t[i] && t[i..][1..] == t[i + 1..];
    assert t[begin..i] + [t[i]] == t[begin..i + 1];
  }

  /** A separator whose entry has no pair: the whole scan fails with that entry's failure. */
  lemma EntriesFail(t: string, i: nat, begin: nat, d: Depths, tokens: seq<WithPair>)
    requires begin <= i < |t| && t[i] == ',' && d.IsZero() && PairOf(t[begin..i]).Err?
    requires PairsOf(Entries(t, Zero, [])) == Prepend(tokens, PairsOf(Entries(t[i..], d, t[begin..i])))
    ensures PairsOf(Entries(t, Zero, [])) == Err(PairOf(t[begin..i]).error)
  {
    EntriesStep(t, i, begin, d);
    PairsCons(t[begin..i], Entries(t[i + 1..], d, []));
  }

  /** A separator whose entry has a pair: the pair joins the tokens and a new entry begins. */
  lemma EntriesCut(t: string, i: nat, begin: nat, d: Depths, tokens: seq<WithPair>)
    requires begin <= i < |t| && t[i] == ',' && d.IsZero() && PairOf(t[begin..i]).Ok?
    requires PairsOf(Entries(t, Zero, [])) == Prepend(tokens, PairsOf(Entries(t[i..], d, t[begin..i])))
    ensures PairsOf(Entries(t, Zero, [])) ==
      Prepend(tokens + [PairOf(t[begin..i]).value], PairsOf(Entries(t[i + 1..], d, t[i + 1..i + 1])))
  {
    EntriesStep(t, i, begin, d);
    PairsCons(t[begin..i], Entries(t[i + 1..], d, []));
    PrependTwice(tokens, [PairOf(t[begin..i]).value], PairsOf(Entries(t[i + 1..], d, [])));
    assert t[i + 1..i + 1] == [];
  }

  /** Any other character: it joins the current entry and moves the depths. */
  lemma EntriesGrow(t: string, i: nat, begin: nat, d: Depths, tokens: seq<WithPair>)
    requires begin <= i < |t| && !(t[i] == ',' && d.IsZero())
    requires PairsOf(Entries(t, Zero, [])) == Prepend(tokens, PairsOf(Entries(t[i..], d, t[begin..i])))
    ensures PairsOf(Entries(t, Zero, [])) == Prepend(tokens, PairsOf(Entries(t[i + 1..], d.Step(t[i]), t[begin..i + 1])))
  {
    EntriesStep(t, i, begin, d);
  }

  /** The loop of `_parse_with_stmts` over the body and the extra ",". */
  method ParseEntries(t: string) returns (r: Result<seq<WithPair>, Failure>)
    ensures r == PairsOf(Entries(t, Zero, []))
  {
    var tokens: seq<WithPair> := [];
    var depth := Zero;
    var begin := 0;
    var i := 0;
    assert t[0..] == t && t[0..0] == [];
    PrependEmpty(PairsOf(Entries(t, Zero, [])));
    while i < |t|
      invariant 0 <= begin <= i <= |t|
      invariant PairsOf(Entries(t, Zero, [])) == Prepend(tokens, PairsOf(Entries(t[i..], depth, t[begin..i])))
    {
      var c := t[i];
      if c == ',' && depth.IsZero() {
        var pair := PairOf(t[begin..i]);
        if pair.Err? {
          EntriesFail(t, i, begin, depth, tokens);
          return Err(pair.error);
        }
        EntriesCut(t, i, begin, depth, tokens);
        tokens := tokens + [pair.value];
        begin := i + 1;
      } else {
        EntriesGrow(t, i, begin, depth, tokens);
        if IsOpener(c) {
          depth := depth.Step(c);
        } else if IsCloser(c) {
          depth := depth.Step(c);
        } else {
          StepOther(depth, c);
        }
      }
      i := i + 1;
    }
    assert t[i..] == [];
    assert tokens + [] == tokens;
    return Ok(tokens);
  }

  /** `_parse_with_stmts`, proved to compute `WithTokens`. */
  method ParseWithStmts(code: string) returns (r: Result<seq<WithPair>, Failure>)
    ensures r == WithTokens(code)
  {
    var m := SearchWith(code);
    if m.None? {
      return Ok([]);
    }
    var stmt := code[m.value.0..m.value.1];
    r := ParseEntries(stmt + ",");
  }

  /** Attach the with-tokens of every code, failing on the first code whose clause has a malformed entry. */
  function AttachTokens(codes: seq<Code>): (r: Result<seq<Code>, Failure>)
    ensures r.Ok? ==> |r.value| == |codes|
  {
    if codes == [] then Ok([])
    else match WithTokens(codes[0].raw)
      case Err(e) => Err(e)
      case Ok(ts) =>
        match AttachTokens(codes[1..])
        case Err(e) => Err(e)
        case Ok(rest) => Ok([codes[0].(withTokens := Some(ts))] + rest)
  }

  /** On success every code keeps its text and carries the with-tokens of its own clause. */
  lemma {:induction false} AttachEach(codes: seq<Code>)
    ensures AttachTokens(codes).Ok? ==> forall i | 0 <= i < |codes| ::
      WithTokens(codes[i].raw).Ok? && AttachTokens(codes).value[i] == codes[i].(withTokens := Some(WithTokens(codes[i].raw).value))
  {
    if codes != [] && AttachTokens(codes).Ok? {
      AttachEach(codes[1..]);
      var rest := AttachTokens(codes[1..]).value;
      forall i | 0 <= i < |codes|
        ensures WithTokens(codes[i].raw).Ok? && AttachTokens(codes).value[i] == codes[i].(withTokens := Some(WithTokens(codes[i].raw).value))
      {
        if i > 0 {
          assert codes[1..][i - 1] == codes[i];
        }
      }
    }
  }

  /** The `_parse_message` override: the base message, with every code's with-tokens attached. */
  function ParseMessageWithTokens(segments: seq<string>): (r: Result<Message, Failure>)
    ensures r.Ok? ==> r.value.raw == ParseMessage(segments).raw
    ensures r.Ok? ==> |r.value.codelist| == |ParseMessage(segments).codelist|
    ensures r.Ok? ==> forall i | 0 <= i < |r.value.codelist| ::
      r.value.codelist[i].raw == ParseMessage(segments).codelist[i].raw && r.value.codelist[i].withTokens.Some?
  {
    var m := ParseMessage(segments);
    AttachEach(m.codelist);
    match AttachTokens(m.codelist)
    case Err(e) => Err(e)
    case Ok(codes) => Ok(m.(codelist := codes))
  }

  // ---------------------------------------------------------------------------
  // Rewriting one code fragment.

  /** Every with-pair key replaced by its value, pair by pair in order. */
  function Substitute(f: string, pairs: seq<WithPair>): string
    decreases |pairs|
  {
    if pairs == [] then f
    else Substitute(ReplaceAll(f, pairs[0].key, pairs[0].value), pairs[1..])
  }

  /** The `while "> >" in ...` loop: collapse until no "> >" is left. */
  function CollapseClosers(f: string): (r: string)
    ensures !Contains(r, "> >")
    ensures |r| <= |f|
    decreases |f|
  {
    if Contains(f, "> >") then
      ReplaceLength(f, "> >", ">>");
      CollapseClosers(ReplaceAll(f, "> >", ">>"))
    else f
  }

  /** The spelling of typedef `i` with character type `j`, and the short name that replaces it. */
  function TypedefSpelling(i: nat, j: nat): string
    requires i < |StrTypes| && j < |CharTypes|
  {
    Fill(StrTypes[i].0, CharTypes[j])
  }

  function ShortName(i: nat, j: nat): string
    requires i < |StrTypes| && j < |CharTypes|
  {
    if CharTypes[j][0] == 'w' then "w" + StrTypes[i].1 else StrTypes[i].1
  }

  function ApplyTypedef(m: string, i: nat, j: nat): string
    requires i < |StrTypes| && j < |CharTypes|
  {
    if Contains(m, TypedefSpelling(i, j)) then ReplaceAll(m, TypedefSpelling(i, j), ShortName(i, j)) else m
  }

  /** The typedef rules of entry `i` for the first `j` character types applied to `m`. */
  function CompactChars(m: string, i: nat, j: nat): string
    requires i < |StrTypes| && j <= |CharTypes|
  {
    if j == 0 then m else ApplyTypedef(CompactChars(m, i, j - 1), i, j - 1)
  }

  /** The typedef rules of the first `i` entries applied to `m`. */
  function CompactTypes(m: string, i: nat): string
    requires i <= |StrTypes|
  {
    if i == 0 then m else CompactChars(CompactTypes(m, i - 1), i - 1, |CharTypes|)
  }

  /** `_compact_typedefs`, proved to apply every rule of the table in order. */
  method CompactTypedefs(message: string) returns (m: string)
    ensures m == CompactTypes(message, |StrTypes|)
  {
    m := message;
    var i := 0;
    while i < |StrTypes|
      invariant 0 <= i <= |StrTypes|
      invariant m == CompactTypes(message, i)
    {
      var j := 0;
      while j < |CharTypes|
        invariant 0 <= j <= |CharTypes|
        invariant m == CompactChars(CompactTypes(message, i), i, j)
      {
        var tp := TypedefSpelling(i, j);
        if Contains(m, tp) {
          m := ReplaceAll(m, tp, ShortName(i, j));
        }
        j := j + 1;
      }
      i := i + 1;
    }
  }

  /** The token after the first occurrence of a container name and one more character. */
  function ArgumentAfter(m: string, name: string): Option<string>
    requires Contains(m, name)
  {
    TokenAt(m, Find(m, name) + |name| + 1)
  }

  /** The container's rules applied with the token as argument, unless it is missing or empty (`if tp:`). */
  function ApplyArgument(m: string, c: Container, tp: Option<string>): string
  {
    if tp.Some? && tp.value != [] then ApplyRules(m, c.rules, tp.value) else m
  }

  /** The container's rules with the argument filled in, applied in order. */
  function ApplyRules(m: string, rules: seq<(string, string)>, arg: string): string
    decreases |rules|
  {
    if rules == [] then m
    else ApplyRules(ReplaceAll(m, Fill(rules[0].0, arg), Fill(rules[0].1, arg)), rules[1..], arg)
  }

  /** One container of the table applied to `m`. */
  function ApplyContainer(m: string, c: Container): string
  {
    if !Contains(m, c.name) then m else ApplyArgument(m, c, ArgumentAfter(m, c.name))
  }

  /** The first `i` containers applied to `m`. */
  function TemplatesUpTo(m: string, i: nat): string
    requires i <= |Replacements|
  {
    if i == 0 then m else ApplyContainer(TemplatesUpTo(m, i - 1), Replacements[i - 1])
  }

  /** The inner loop of `_parse_templates`: each rule of a container, filled with the argument, in order. */
  method RewriteRules(message: string, rules: seq<(string, string)>, arg: string) returns (m: string)
    ensures m == ApplyRules(message, rules, arg)
  {
    m := message;
    var j := 0;
    while j < |rules|
      invariant 0 <= j <= |rules|
      invariant ApplyRules(message, rules, arg) == ApplyRules(m, rules[j..], arg)
    {
      assert rules[j..][1..] == rules[j + 1..];
      var full := Fill(rules[j].0, arg);
      var small := Fill(rules[j].1, arg);
      m := ReplaceAll(m, full, small);
      j := j + 1;
    }
  }

  /** The body of `_parse_templates`' loop for one container. */
  method RewriteContainer(message: string, container: Container) returns (m: string)
    ensures m == ApplyContainer(message, container)
  {
    m := message;
    if Contains(m, container.name) {
      var begin := Find(m, container.name) + |container.name| + 1;
      var tp := NextToken(m, begin);
      assert tp == ArgumentAfter(m, container.name);
      if tp.Some? && tp.value != [] {
        m := RewriteRules(m, container.rules, tp.value);
      }
    }
  }

  /** `_parse_templates`, proved to apply every container of the table in order. */
  method ParseTemplates(message: string) returns (m: string)
    ensures m == TemplatesUpTo(message, |Replacements|)
  {
    m := message;
    var i := 0;
    while i < |Replacements|
      invariant 0 <= i <= |Replacements|
      invariant m == TemplatesUpTo(message, i)
    {
      m := RewriteContainer(m, Replacements[i]);
      i := i + 1;
    }
  }

  /** What the normal level does to a fragment. */
  function NormalForm(f: string, withTokens: Option<seq<WithPair>>): string
  {
    var f := if withTokens.Some? then Strip(RemoveWith(Substitute(f, withTokens.value))) else f;
    var f := CollapseClosers(f);
    var f := ReplaceAll(ReplaceAll(f, "std::", ""), "__gnu_cxx::", "");
    TemplatesUpTo(CompactTypes(f, |StrTypes|), |Replacements|)
  }

  /** What the moderate level does to a fragment. */
  function WithoutBoost(f: string): string
  {
    ReplaceAll(ReplaceAll(f, "boost::detail::", ""), "boost::", "")
  }

  // ---------------------------------------------------------------------------
  // `build`.

  /** The work on one code: the line so far, the code with its formatted text, and whether `build` returned early. */
  datatype Step = Step(result: string, code: Code, stop: bool)

  /** The two level tests the loop makes: `level >= LV_NORMAL` and `level >= LV_MODERATE`. */
  datatype Tier = Tier(normal: bool, moderate: bool)

  function TierOf(level: int): (t: Tier)
    ensures t.normal <==> level >= Normal
    ensures t.moderate <==> level >= Moderate
  {
    Tier(level >= Normal, level >= Moderate)
  }

  function CodeStep(tier: Tier, result: string, code: Code): Step
  {
    var f := if code.formatted.Some? then code.formatted.value else code.raw;
    var f := if tier.normal then NormalForm(f, code.withTokens) else f;
    if tier.moderate then
      var res := RemoveSysFiles(result);
      if StartsWith(res, "error: ") then Step(res, code.(formatted := Some(f)), true)
      else
        var f := WithoutBoost(f);
        Step(ReplaceAll(res, code.raw, f), code.(formatted := Some(f)), false)
    else Step(ReplaceAll(result, code.raw, f), code.(formatted := Some(f)), false)
  }

  /** The state after the loop has handled the first `n` codes (or returned early). */
  datatype Progress = Progress(result: string, codes: seq<Code>, stopped: bool)

  function Run(tier: Tier, result: string, codes: seq<Code>, n: nat): (p: Progress)
    requires n <= |codes|
    ensures |p.codes| == |codes|
  {
    if n == 0 then Progress(result, codes, false)
    else
      var p := Run(tier, result, codes, n - 1);
      if p.stopped then p
      else
        var s := CodeStep(tier, p.result, p.codes[n - 1]);
        Progress(s.result, p.codes[n - 1 := s.code], s.stop)
  }

  /** The prefixes of lines `build` suppresses. */
  predicate Redundant(r: string)
  {
    StartsWith(r, "from") || StartsWith(r, "note: previous definition") || StartsWith(r, "In file included from")
  }

  /** What `build` returns, and the line and codes it leaves behind. */
  datatype Built = Built(output: string, result: string, codes: seq<Code>)

  function BuildSpec(level: int, result: string, codes: seq<Code>): Built
  {
    if level == None_ then Built(result, result, codes)
    else
      var p := Run(TierOf(level), result, codes, |codes|);
      if p.stopped then Built("", p.result, p.codes)
      else
        var r := Strip(p.result);
        if Redundant(r) then Built("", r, p.codes) else Built(r, r, p.codes)
  }

  /** The beautifier: the parser it extends, the level, and the line being rewritten. */
  class Beautifier {
    const parser: Parser
    const level: int
    var result: string

    /** `Beautifier(line, level, wrap = False)`. */
    constructor (line: string, level: int)
      ensures fresh(parser)
      ensures parser.line == line && parser.attributes == Defaults(line)
      ensures parser.parseMessage == ParseMessageWithTokens
      ensures this.level == level && result == line
    {
      parser := new Parser(line, ParseMessageWithTokens);
      this.level := level;
      result := line;
    }

    /** The per-fragment rewriting of the normal level. */
    static method NormalizeCode(f: string, withTokens: Option<seq<WithPair>>) returns (g: string)
      ensures g == NormalForm(f, withTokens)
    {
      g := f;
      if withTokens.Some? {
        var pairs := withTokens.value;
        var k := 0;
        while k < |pairs|
          invariant 0 <= k <= |pairs|
          invariant Substitute(f, pairs) == Substitute(g, pairs[k..])
        {
          assert pairs[k..][1..] == pairs[k + 1..];
          g := ReplaceAll(g, pairs[k].key, pairs[k].value);
          k := k + 1;
        }
        g := RemoveWith(g);
        g := Strip(g);
      }
      ghost var h := g;
      while Contains(g, "> >")
        invariant CollapseClosers(h) == CollapseClosers(g)
        decreases |g|
      {
        ReplaceLength(g, "> >", ">>");
        g := ReplaceAll(g, "> >", ">>");
      }
      g := ReplaceAll(g, "std::", "");
      g := ReplaceAll(g, "__gnu_cxx::", "");
      g := CompactTypedefs(g);
      g := ParseTemplates(g);
    }

    /** The body of `build`'s loop for one code. */
    static method RewriteCode(level: int, result: string, code: Code) returns (step: Step)
      ensures step == CodeStep(TierOf(level), result, code)
    {
      var formatted := if code.formatted.Some? then code.formatted.value else code.raw;
      if level >= Normal {
        formatted := NormalizeCode(formatted, code.withTokens);
      }
      var res := result;
      if level >= Moderate {
        res := RemoveSysFiles(res);
        if StartsWith(res, "error: ") {
          return Step(res, code.(formatted := Some(formatted)), true);
        }
        formatted := WithoutBoost(formatted);
      }
      res := ReplaceAll(res, code.raw, formatted);
      return Step(res, code.(formatted := Some(formatted)), false);
    }

    /** One pass of `build`'s loop: rewrite code `i` of the line as it stands after `i` codes. */
    static method Advance(level: int, ghost result: string, ghost codes: seq<Code>, i: nat, p: Progress) returns (q: Progress)
      requires i < |codes| && p == Run(TierOf(level), result, codes, i) && !p.stopped
      ensures q == Run(TierOf(level), result, codes, i + 1)
    {
      var step := RewriteCode(level, p.result, p.codes[i]);
      RunNext(TierOf(level), result, codes, i, step);
      q := Progress(step.result, p.codes[i := step.code], step.stop);
    }

    /** `build`'s loop over the codes, until it returns early. */
    static method RewriteCodes(level: int, result: string, codes: seq<Code>) returns (p: Progress)
      ensures p == Run(TierOf(level), result, codes, |codes|)
    {
      p := Progress(result, codes, false);
      var i := 0;
      while i < |codes|
        invariant 0 <= i <= |codes|
        invariant p == Run(TierOf(level), result, codes, i)
        invariant !p.stopped
      {
        p := Advance(level, result, codes, i, p);
        if p.stopped {
          RunStopped(TierOf(level), result, codes, i + 1);
          return;
        }
        i := i + 1;
      }
    }

    /** `build`: rewrite every code of the parsed message, then finish the line. */
    method Build() returns (out: string)
      modifies this, parser
      ensures parser.line == old(parser.line)
      ensures var b := BuildSpec(level, old(result), old(parser.attributes.message.codelist));
        out == b.output && result == b.result &&
        parser.attributes == old(parser.attributes).(message := old(parser.attributes.message).(codelist := b.codes))
    {
      if level == None_ {
        return result;
      }
      var p := RewriteCodes(level, result, parser.attributes.message.codelist);
      parser.attributes := parser.attributes.(message := parser.attributes.message.(codelist := p.codes));
      result := p.result;
      if p.stopped {
        return "";
      }
      result := Strip(result);
      if Redundant(result) {
        return "";
      }
      return result;
    }
  }

  lemma RunNext(tier: Tier, result: string, codes: seq<Code>, n: nat, s: Step)
    requires n < |codes| && !Run(tier, result, codes, n).stopped
    requires s == CodeStep(tier, Run(tier, result, codes, n).result, Run(tier, result, codes, n).codes[n])
    ensures Run(tier, result, codes, n + 1) == Progress(s.result, Run(tier, result, codes, n).codes[n := s.code], s.stop)
  {
  }

  /** Once the loop has returned early, later codes change nothing. */
  lemma {:induction false} RunStopped(tier: Tier, result: string, codes: seq<Code>, n: nat)
    requires 1 <= n <= |codes| && Run(tier, result, codes, n).stopped
    ensures Run(tier, result, codes, |codes|) == Run(tier, result, codes, n)
    decreases |codes| - n
  {
    if n < |codes| {
      RunStopped(tier, result, codes, n + 1);
    }
  }
}
