/**
 * The g++ diagnostic-line classifier of kaedenn/gcc/parser.py.
 *
 * A line is cut at lone colons (and at a comma that ends the line), each
 * piece is stripped, and the pieces are read as file, line number, optional
 * column, kind ("error", "warning", "note") and message. The message text is
 * searched for quoted code fragments. `NextToken` is the balanced-bracket
 * scanner the beautifier uses to read template arguments.
 *
 * The regular expressions of the source are written out as scanners:
 * `SeparatorAt`/`SplitFrom` for the separator split, `MatchesFile`,
 * `SysFileMatch`, `IsLinkerRef`, `StartsWithDigit`, `MatchesMessage` for the
 * field patterns and `QuotedSpans` for the quoted-code pattern.
 */
module GccParser {
  import opened Wrappers
  import opened Text

  /** The line types LT_ERROR, LT_WARNING, LT_MESSAGE and LT_NOTE. */
  datatype LineType = ErrorLine | WarningLine | MessageLine | NoteLine

  /**
   * The exceptions that escape `parse_line`: `ValueError` from `int()` of a
   * digit-led piece that is not all digits, or (in the beautifier) from
   * unpacking a `[with ...]` entry that is not one `key = value`; and
   * `IndexError` from indexing past the end of the piece list.
   */
  datatype Failure = ValueError | IndexError

  /** One `key = value` binding of a `[with ...]` clause. */
  datatype WithPair = WithPair(key: string, value: string)

  /** One quoted code fragment: its raw text and what the beautifier attaches to it. */
  datatype Code = Code(raw: string, withTokens: Option<seq<WithPair>>, formatted: Option<string>)

  /** The message part of a line: the re-joined text and the code fragments found in it. */
  datatype Message = Message(raw: string, codelist: seq<Code>)

  /**
   * The attribute dictionary. `sysFile` is `None` while the key is absent,
   * as it is until a line with a file name has been seen.
   */
  datatype Attributes = Attributes(
    raw: string,
    lineType: Option<LineType>,
    file: string,
    line: int,
    column: int,
    sysFile: Option<bool>,
    message: Message)

  /** The dictionary the constructor starts with. */
  function Defaults(line: string): Attributes
  {
    Attributes(line, None, "", -1, -1, None, Message("", []))
  }

  /** The message-parsing hook: the base parser's, or the beautifier's override. */
  type MessageParser = seq<string> -> Result<Message, Failure>

  // ---------------------------------------------------------------------------
  // The separator split.

  /**
   * Whether the head of `s` is a separator, given whether the character
   * before it is a colon: a colon with no colon on either side, or a comma
   * at the end of the text (`$` also matches just before a final newline).
   */
  predicate SeparatorAt(s: string, prevColon: bool)
    requires s != []
  {
    (s[0] == ':' && !prevColon && (|s| == 1 || s[1] != ':'))
    || (s[0] == ',' && (|s| == 1 || s[1..] == "\n"))
  }

  /** `re.split` of the separator pattern over `s`, given whether the character before `s` is a colon. */
  function SplitFrom(s: string, prevColon: bool): (parts: seq<string>)
    ensures |parts| >= 1
    decreases |s|
  {
    if s == [] then [""]
    else if SeparatorAt(s, prevColon) then [""] + SplitFrom(s[1..], s[0] == ':')
    else
      var rest := SplitFrom(s[1..], s[0] == ':');
      [[s[0]] + rest[0]] + rest[1..]
  }

  /** The stripped pieces of a line. */
  function Segments(line: string): (segs: seq<string>)
    ensures |segs| == |SplitFrom(line, false)|
    ensures forall i | 0 <= i < |segs| :: segs[i] == Strip(SplitFrom(line, false)[i])
  {
    StripEach(SplitFrom(line, false))
  }

  function StripEach(parts: seq<string>): (r: seq<string>)
    ensures |r| == |parts|
    ensures forall i | 0 <= i < |parts| :: r[i] == Strip(parts[i])
  {
    if parts == [] then [] else [Strip(parts[0])] + StripEach(parts[1..])
  }

  /** Whether `s` ends in a comma that the split treats as a separator. */
  predicate EndsWithCommaSeparator(s: string)
  {
    (|s| >= 1 && s[|s| - 1] == ',') || (|s| >= 2 && s[|s| - 2..] == ",\n")
  }

  /** Every separator of a text without a final comma is a colon, so joining the pieces with ":" restores it. */
  lemma {:induction false} SplitRejoin(s: string, prevColon: bool)
    requires !EndsWithCommaSeparator(s)
    ensures Join(SplitFrom(s, prevColon), ":") == s
    decreases |s|
  {
    if s != [] {
      var rest := SplitFrom(s[1..], s[0] == ':');
      assert !EndsWithCommaSeparator(s[1..]) by {
        if |s[1..]| >= 2 {
          assert s[1..][|s[1..]| - 2..] == s[|s| - 2..];
        }
      }
      SplitRejoin(s[1..], s[0] == ':');
      if SeparatorAt(s, prevColon) {
        assert s[0] == ':';
        JoinAfterEmpty(rest);
        assert s == [':'] + s[1..];
      } else {
        assert SplitFrom(s, prevColon) == [[s[0]] + rest[0]] + rest[1..];
        JoinHeadCons(s[0], rest);
        assert s == [s[0]] + s[1..];
      }
    }
  }

  lemma JoinHeadCons(c: char, parts: seq<string>)
    requires |parts| >= 1
    ensures Join([[c] + parts[0]] + parts[1..], ":") == [c] + Join(parts, ":")
  {
    var q := [[c] + parts[0]] + parts[1..];
    if |parts| == 1 {
      assert q == [[c] + parts[0]];
    } else {
      JoinUnfold(q);
      JoinUnfold(parts);
      assert q[0] == [c] + parts[0] && q[1..] == parts[1..];
      HeadSeparator(c, parts[0], Join(parts[1..], ":"));
    }
  }

  lemma JoinUnfold(parts: seq<string>)
    requires |parts| >= 2
    ensures Join(parts, ":") == parts[0] + ":" + Join(parts[1..], ":")
  {
  }

  lemma HeadSeparator(c: char, x: string, j: string)
    ensures [c] + x + ":" + j == [c] + (x + ":" + j)
  {
  }

  /** An empty first piece contributes only its separator. */
  lemma JoinAfterEmpty(parts: seq<string>)
    requires |parts| >= 1
    ensures Join([""] + parts, ":") == ":" + Join(parts, ":")
  {
    assert ([""] + parts)[1..] == parts;
  }

  /** A text with no colon and no comma is one piece. */
  lemma {:induction false} SplitNone(s: string, prevColon: bool)
    requires ':' !in s && ',' !in s
    ensures SplitFrom(s, prevColon) == [s]
    decreases |s|
  {
    if s != [] {
      assert s[0] in s;
      assert forall c | c in s[1..] :: c in s;
      SplitNone(s[1..], false);
      assert !SeparatorAt(s, prevColon);
      assert [s[0]] + s[1..] == s;
    }
  }

  /**
   * A lone colon between `a` and `b` splits the pieces of `a + ":" + b` into
   * those of `a` followed by those of `b`.
   */
  lemma {:induction false} SplitAtColon(a: string, b: string, prevColon: bool)
    requires a == [] ==> !prevColon
    requires a != [] ==> a[|a| - 1] !in ":,\n"
    requires b == [] || b[0] != ':'
    ensures SplitFrom(a + [':'] + b, prevColon) == SplitFrom(a, prevColon) + SplitFrom(b, true)
    decreases |a|
  {
    var s := a + [':'] + b;
    if a == [] {
      assert s == [':'] + b;
      assert s[1..] == b;
    } else {
      assert s[1..] == a[1..] + [':'] + b;
      SameSeparator(a, b, prevColon);
      SplitAtColon(a[1..], b, a[0] == ':');
      if !SeparatorAt(s, prevColon) {
        ExtendFirst([a[0]], SplitFrom(a[1..], a[0] == ':'), SplitFrom(b, true));
      }
    }
  }

  /** Prepending to the first piece commutes with appending more pieces. */
  lemma ExtendFirst(c: string, head: seq<string>, tail: seq<string>)
    requires |head| >= 1
    ensures [c + (head + tail)[0]] + (head + tail)[1..] == [c + head[0]] + head[1..] + tail
  {
    assert (head + tail)[1..] == head[1..] + tail;
  }

  /** The separator test at the head of `a` is not affected by appending ":" + `b`. */
  lemma SameSeparator(a: string, b: string, prevColon: bool)
    requires a != [] && a[|a| - 1] !in ":,\n"
    requires b == [] || b[0] != ':'
    ensures (a + [':'] + b)[0] == a[0]
    ensures SeparatorAt(a + [':'] + b, prevColon) == SeparatorAt(a, prevColon)
  {
    var s := a + [':'] + b;
    if |a| == 1 {
      assert a[0] !in ":,\n";
    } else {
      assert s[1] == a[1];
      assert a[1..][|a[1..]| - 1] == a[|a| - 1];
      assert |s[1..]| > 1;
    }
  }

  // ---------------------------------------------------------------------------
  // The field patterns, each matched at the start of a piece.

  /** `[^: ]+`: a file name starts with neither a colon nor a space. */
  predicate MatchesFile(s: string)
  {
    s != [] && s[0] != ':' && s[0] != ' '
  }

  /** `[0-9]+`, the line and column patterns. */
  predicate StartsWithDigit(s: string)
  {
    s != [] && IsDigit(s[0])
  }

  /** `.+`: at least one character that is not a newline. */
  predicate MatchesMessage(s: string)
  {
    s != [] && s[0] != '\n'
  }

  predicate AllDigits(s: string)
  {
    forall i | 0 <= i < |s| :: IsDigit(s[i])
  }

  /** The decimal value of a digit string. */
  function DecimalValue(s: string): (n: nat)
    requires AllDigits(s)
  {
    if s == [] then 0 else 10 * DecimalValue(s[..|s| - 1]) + (s[|s| - 1] as int - '0' as int)
  }

  /** Python's `int()` on a stripped piece: the value of a non-empty digit string, and `ValueError` otherwise. */
  function ParseInt(s: string): (r: Result<int, Failure>)
    ensures r.Ok? <==> s != [] && AllDigits(s)
    ensures r.Ok? ==> r.value >= 0
  {
    if s != [] && AllDigits(s) then Ok(DecimalValue(s)) else Err(ValueError)
  }

  function NonColonRun(s: string): (k: nat)
    ensures k <= |s| && ':' !in s[..k]
    ensures k < |s| ==> s[k] == ':'
  {
    if s != [] && s[0] != ':' then 1 + NonColonRun(s[1..]) else 0
  }

  function DigitRun(s: string): (k: nat)
    ensures k <= |s| && AllDigits(s[..k])
    ensures k < |s| ==> !IsDigit(s[k])
  {
    if s != [] && IsDigit(s[0]) then 1 + DigitRun(s[1..]) else 0
  }

  /** Whether `s` is empty or one final newline: where `$` matches. */
  predicate AtEnd(s: string)
  {
    s == [] || s == "\n"
  }

  const SysPrefix: string := "/usr/include/"

  /**
   * The length of the match of `\/usr\/include\/[^:]+:(?:[0-9]+(?:: |\,$)?)?`
   * at the start of `t`, if there is one: the prefix, a non-empty run
   * without colons, a colon, then optionally digits followed optionally by
   * ": " or by a comma at the end.
   */
  function SysFileMatch(t: string): (m: Option<nat>)
    ensures m.Some? ==> |SysPrefix| + 2 <= m.value <= |t| && StartsWith(t, SysPrefix)
  {
    if !StartsWith(t, SysPrefix) then None
    else
      match SysPathMatch(t[|SysPrefix|..])
      case Some(k) => Some(|SysPrefix| + k)
      case None => None
  }

  /** The same pattern after its `/usr/include/` prefix: the path, the colon and the optional line number. */
  function SysPathMatch(u: string): (m: Option<nat>)
    ensures m.Some? ==> 2 <= m.value <= |u|
  {
    var n := NonColonRun(u);
    if n == 0 || n == |u| then None
    else
      var v := u[n + 1..];
      var d := DigitRun(v);
      if d == 0 then Some(n + 1)
      else if StartsWith(v[d..], ": ") then Some(n + 1 + d + 2)
      else if d < |v| && v[d] == ',' && AtEnd(v[d + 1..]) then Some(n + 1 + d + 1)
      else Some(n + 1 + d)
  }

  predicate IsWordChar(c: char)
  {
    'A' <= c <= 'Z' || 'a' <= c <= 'z' || '0' <= c <= '9' || c == '_'
  }

  predicate IsHexChar(c: char)
  {
    'A' <= c <= 'F' || 'a' <= c <= 'f' || '0' <= c <= '9' || c == '_'
  }

  function WordCharRun(s: string): (k: nat)
    ensures k <= |s|
    ensures k < |s| ==> !IsWordChar(s[k])
  {
    if s != [] && IsWordChar(s[0]) then 1 + WordCharRun(s[1..]) else 0
  }

  function HexCharRun(s: string): (k: nat)
    ensures k <= |s|
    ensures k < |s| ==> !IsHexChar(s[k])
  {
    if s != [] && IsHexChar(s[0]) then 1 + HexCharRun(s[1..]) else 0
  }

  /** `\(\.[A-Za-z0-9_]+\+0x[A-Fa-f0-9_]+\)` at the start of `s`: a linker section reference such as "(.text+0x1f)". */
  predicate IsLinkerRef(s: string)
  {
    StartsWith(s, "(.") &&
    var t := s[2..];
    var w := WordCharRun(t);
    w >= 1 && StartsWith(t[w..], "+0x") &&
    var u := t[w + 3..];
    var h := HexCharRun(u);
    h >= 1 && h < |u| && u[h] == ')'
  }

  // ---------------------------------------------------------------------------
  // The message and its quoted code fragments.

  const LeftQuote: char := '\U{2018}'
  const RightQuote: char := '\U{2019}'

  /** The first index of `c` in `s`. */
  function IndexOf(s: string, c: char): (k: Option<nat>)
    ensures k.Some? ==> k.value < |s| && s[k.value] == c && c !in s[..k.value]
    ensures k.None? ==> c !in s
  {
    if s == [] then None
    else if s[0] == c then Some(0)
    else match IndexOf(s[1..], c)
      case Some(j) =>
        assert s[..j + 1] == [s[0]] + s[1..][..j];
        Some(j + 1)
      case None => None
  }

  /**
   * `re.findall` of `‘[^’]+’`: scanning left to right, each left quote that
   * is followed, after at least one character, by a right quote yields the
   * text up to the first such right quote, and scanning resumes after it.
   */
  function QuotedSpans(s: string): (spans: seq<string>)
    decreases |s|
  {
    if s == [] then []
    else if s[0] != LeftQuote then QuotedSpans(s[1..])
    else match IndexOf(s[1..], RightQuote)
      case Some(j) => if j == 0 then QuotedSpans(s[1..]) else [s[1..j + 1]] + QuotedSpans(s[j + 2..])
      case None => QuotedSpans(s[1..])
  }

  /** Every quoted span is non-empty and holds no right quote. */
  lemma {:induction false} QuotedSpansWellFormed(s: string)
    ensures forall i | 0 <= i < |QuotedSpans(s)| :: QuotedSpans(s)[i] != [] && RightQuote !in QuotedSpans(s)[i]
    decreases |s|
  {
    if s != [] {
      QuotedSpansWellFormed(s[1..]);
      if s[0] == LeftQuote {
        match IndexOf(s[1..], RightQuote)
        case Some(j) =>
          QuotedSpansWellFormed(s[j + 2..]);
          if j != 0 {
            assert s[1..j + 1] == s[1..][..j];
          }
        case None =>
      }
    }
  }

  /** A text without a left quote has no quoted spans. */
  lemma {:induction false} NoQuotedSpans(s: string)
    requires LeftQuote !in s
    ensures QuotedSpans(s) == []
    decreases |s|
  {
    if s != [] {
      assert s[0] in s;
      assert forall c | c in s[1..] :: c in s;
      NoQuotedSpans(s[1..]);
    }
  }

  /** Text before the first left quote is skipped, and a quoted fragment `c` is found whole. */
  lemma {:induction false} QuotedSpansStep(a: string, c: string, b: string)
    requires LeftQuote !in a
    requires c != [] && RightQuote !in c
    ensures QuotedSpans(a + [LeftQuote] + c + [RightQuote] + b) == [c] + QuotedSpans(b)
    decreases |a|
  {
    var s := a + [LeftQuote] + c + [RightQuote] + b;
    if a == [] {
      assert s[0] == LeftQuote;
      var t := c + [RightQuote] + b;
      assert s[1..] == t;
      assert t[|c|] == RightQuote;
      var k := IndexOf(t, RightQuote);
      assert k.Some?;
      assert k.value == |c|;
      assert s[1..|c| + 1] == c;
      assert s[|c| + 2..] == b;
    } else {
      assert a[0] in a;
      assert s[0] == a[0];
      assert s[1..] == a[1..] + [LeftQuote] + c + [RightQuote] + b;
      assert forall x | x in a[1..] :: x in a;
      QuotedSpansStep(a[1..], c, b);
    }
  }

  /** The code entries for a list of raw fragments, with nothing attached yet. */
  function RawCodes(spans: seq<string>): (codes: seq<Code>)
    ensures |codes| == |spans|
    ensures forall i | 0 <= i < |spans| :: codes[i] == Code(spans[i], None, None)
  {
    seq(|spans|, i requires 0 <= i < |spans| => Code(spans[i], None, None))
  }

  /**
   * `_parse_message` of the base parser: the pieces re-joined with ": ",
   * and as codes the quoted fragments of that text, or, when there are
   * none, the pieces re-joined with ":" (without a leading "candidates are").
   */
  function ParseMessage(segments: seq<string>): (m: Message)
    ensures m.raw == Join(segments, ": ")
    ensures m.codelist == [] <==> segments == []
    ensures forall i | 0 <= i < |m.codelist| :: m.codelist[i].withTokens.None? && m.codelist[i].formatted.None?
  {
    var text := Join(segments, ": ");
    var spans := QuotedSpans(text);
    var codes :=
      if spans != [] then RawCodes(spans)
      else if segments == [] then []
      else if segments[0] == "candidates are" then [Code(Join(segments[1..], ":"), None, None)]
      else [Code(Join(segments, ":"), None, None)];
    Message(text, codes)
  }

  /** The base parser's hook never fails. */
  function BaseMessageParser(segments: seq<string>): (r: Result<Message, Failure>)
    ensures r.Ok?
  {
    Ok(ParseMessage(segments))
  }

  /** A message made of one quoted fragment `c` between unquoted text yields exactly that fragment. */
  lemma OneQuotedCode(a: string, c: string, b: string)
    requires LeftQuote !in a && LeftQuote !in b
    requires c != [] && RightQuote !in c
    ensures ParseMessage([a + [LeftQuote] + c + [RightQuote] + b]).codelist == [Code(c, None, None)]
  {
    QuotedSpansStep(a, c, b);
    NoQuotedSpans(b);
  }

  /** Without quoted fragments the whole text, re-joined with ":", is the one code; "candidates are" in front is dropped. */
  lemma UnquotedMessage(segments: seq<string>)
    requires segments != []
    requires forall i | 0 <= i < |segments| :: LeftQuote !in segments[i]
    ensures ParseMessage(segments).codelist ==
      if segments[0] == "candidates are" then [Code(Join(segments[1..], ":"), None, None)]
      else [Code(Join(segments, ":"), None, None)]
  {
    NoLeftQuoteInJoin(segments);
    NoQuotedSpans(Join(segments, ": "));
  }

  lemma {:induction false} NoLeftQuoteInJoin(parts: seq<string>)
    requires forall i | 0 <= i < |parts| :: LeftQuote !in parts[i]
    ensures LeftQuote !in Join(parts, ": ")
  {
    if |parts| > 1 {
      NoLeftQuoteInJoin(parts[1..]);
    }
  }

  // ---------------------------------------------------------------------------
  // Classification of one line.

  /** What a parse leaves behind: the attribute dictionary and the exception, if one escaped. */
  datatype Parsed = Parsed(attributes: Attributes, failure: Option<Failure>)

  /** Store the hook's result as the message, or report its failure with the dictionary as it was. */
  function Record(a: Attributes, r: Result<Message, Failure>): (p: Parsed)
    ensures r.Ok? ==> p == Parsed(a.(message := r.value), None)
    ensures r.Err? ==> p == Parsed(a, Some(r.error))
  {
    match r
    case Ok(m) => Parsed(a.(message := m), None)
    case Err(e) => Parsed(a, Some(e))
  }

  /**
   * The first piece of a multi-piece line with an "In file included from"
   * or "from" prefix removed: the first takes all words after the fourth,
   * concatenated; the second drops five characters.
   */
  function NormalizeFirst(s: string): (r: string)
    ensures !Contains(s, "In file included from") && !StartsWith(s, "from") ==> r == s
  {
    if Contains(s, "In file included from") then
      var ws := Words(s);
      Concat(if |ws| <= 4 then [] else ws[4..])
    else if StartsWith(s, "from") then
      if |s| <= 5 then [] else s[5..]
    else s
  }

  /**
   * `parse_line` on an already stripped line, from the dictionary `a` the
   * parser holds: the new dictionary and the exception that escaped, if any.
   * Fields the line does not determine keep their values from `a`.
   */
  function Classify(a: Attributes, line: string, parseMessage: MessageParser): Parsed
  {
    ClassifySegments(a.(raw := line), Segments(line), parseMessage)
  }

  /**
   * The classification of the stripped pieces. (`re.split` never returns an
   * empty list, so the source's zero-piece branch cannot run and has no
   * counterpart here.)
   */
  function ClassifySegments(a: Attributes, segs: seq<string>, parseMessage: MessageParser): Parsed
    requires |segs| >= 1
  {
    if |segs| == 1 then
      Record(a.(file := "<unknown>", lineType := Some(NoteLine)), parseMessage(segs))
    else
      var first := NormalizeFirst(segs[0]);
      if first == "collect2" then Parsed(a.(lineType := Some(MessageLine)), None)
      else if MatchesFile(first) then
        Dispatch(a.(file := first, sysFile := Some(SysFileMatch(first).Some?)), segs[0 := first], parseMessage)
      else Parsed(a, None)
  }

  /** The classification after the file name: linker reference, line number and kind, or free text. */
  function Dispatch(a: Attributes, segs: seq<string>, parseMessage: MessageParser): Parsed
    requires |segs| >= 2
  {
    if IsLinkerRef(segs[1]) then
      Record(a.(lineType := Some(WarningLine)), parseMessage(segs[2..]))
    else if StartsWithDigit(segs[1]) then
      match ParseInt(segs[1])
      case Err(e) => Parsed(a, Some(e))
      case Ok(n) =>
        if "error" in segs && |segs| > 2 then ErrorFields(a.(line := n, lineType := Some(ErrorLine)), segs, parseMessage)
        else if |segs| == 2 then Parsed(a.(line := n), Some(IndexError))
        else if segs[2] == "warning" then Record(a.(line := n, lineType := Some(WarningLine)), parseMessage(segs[3..]))
        else if segs[2] == "note" then Record(a.(line := n, lineType := Some(NoteLine)), parseMessage(segs[3..]))
        else Record(a.(line := n, lineType := Some(NoteLine)), parseMessage(segs[2..]))
    else if MatchesMessage(segs[1]) then
      Record(a.(lineType := Some(NoteLine)), parseMessage(segs[1..]))
    else Parsed(a, None)
  }

  /** An error line: the kind at piece 2, or a column at piece 2 and the kind at piece 3. */
  function ErrorFields(a: Attributes, segs: seq<string>, parseMessage: MessageParser): Parsed
    requires |segs| >= 3
  {
    if segs[2] == "error" then Record(a, parseMessage(segs[3..]))
    else if |segs| == 3 then Parsed(a, Some(IndexError))
    else if segs[3] == "error" then
      if StartsWithDigit(segs[2]) then
        match ParseInt(segs[2])
        case Err(e) => Parsed(a, Some(e))
        case Ok(c) => Record(a.(column := c), parseMessage(segs[4..]))
      else Record(a, parseMessage(segs[4..]))
    else Parsed(a, None)
  }

  /** What `parse_line` hands back: the dictionary, or the exception. */
  function Outcome(p: Parsed): Result<Attributes, Failure>
  {
    match p.failure
    case None => Ok(p.attributes)
    case Some(e) => Err(e)
  }

  /** The `Parser` object: the current line and the attribute dictionary, which persists across calls. */
  class Parser {
    var line: string
    var attributes: Attributes
    /** `_parse_message`, which the beautifier overrides. */
    const parseMessage: MessageParser

    constructor (line: string, parseMessage: MessageParser)
      ensures this.line == line && attributes == Defaults(line)
      ensures this.parseMessage == parseMessage
    {
      this.line := line;
      this.attributes := Defaults(line);
      this.parseMessage := parseMessage;
    }

    /**
     * `parse_line`: a non-empty argument replaces the current line; the line
     * is stripped and classified, updating the dictionary in place.
     */
    method ParseLine(arg: string) returns (r: Result<Attributes, Failure>)
      modifies this
      ensures line == Strip(if arg != [] then arg else old(line))
      ensures attributes == Classify(old(attributes), line, parseMessage).attributes
      ensures r == Outcome(Classify(old(attributes), line, parseMessage))
    {
      if arg != [] && arg != line {
        line := arg;
      }
      line := Strip(line);
      attributes := attributes.(raw := line);
      var segments := Segments(line);
      r := ParseSegments(segments);
    }

    /** The body of `parse_line` after the split, on the stripped pieces. */
    method ParseSegments(segments: seq<string>) returns (r: Result<Attributes, Failure>)
      requires |segments| >= 1
      modifies this
      ensures line == old(line)
      ensures attributes == ClassifySegments(old(attributes), segments, parseMessage).attributes
      ensures r == Outcome(ClassifySegments(old(attributes), segments, parseMessage))
    {
      if |segments| == 1 {
        attributes := attributes.(file := "<unknown>");
        attributes := attributes.(lineType := Some(NoteLine));
        var m := parseMessage(segments);
        if m.Err? {
          return Err(m.error);
        }
        attributes := attributes.(message := m.value);
        return Ok(attributes);
      }
      var segments := segments[0 := NormalizeFirst(segments[0])];
      if segments[0] == "collect2" {
        attributes := attributes.(lineType := Some(MessageLine));
      } else if MatchesFile(segments[0]) {
        attributes := attributes.(file := segments[0]);
        if SysFileMatch(segments[0]).Some? {
          attributes := attributes.(sysFile := Some(true));
        } else {
          attributes := attributes.(sysFile := Some(false));
        }
        r := ParseFields(segments);
        return;
      }
      return Ok(attributes);
    }

    /** The pieces after a file name. */
    method ParseFields(segments: seq<string>) returns (r: Result<Attributes, Failure>)
      requires |segments| >= 2
      modifies this
      ensures line == old(line)
      ensures attributes == Dispatch(old(attributes), segments, parseMessage).attributes
      ensures r == Outcome(Dispatch(old(attributes), segments, parseMessage))
    {
      var m: Result<Message, Failure> := Ok(attributes.message);
      if IsLinkerRef(segments[1]) {
        attributes := attributes.(lineType := Some(WarningLine));
        m := parseMessage(segments[2..]);
      } else if StartsWithDigit(segments[1]) {
        var n := ParseInt(segments[1]);
        if n.Err? {
          return Err(n.error);
        }
        attributes := attributes.(line := n.value);
        if "error" in segments && |segments| > 2 {
          attributes := attributes.(lineType := Some(ErrorLine));
          r := ParseErrorFields(segments);
          return;
        } else if |segments| == 2 {
          return Err(IndexError);
        } else if segments[2] == "warning" {
          attributes := attributes.(lineType := Some(WarningLine));
          m := parseMessage(segments[3..]);
        } else if segments[2] == "note" {
          attributes := attributes.(lineType := Some(NoteLine));
          m := parseMessage(segments[3..]);
        } else {
          attributes := attributes.(lineType := Some(NoteLine));
          m := parseMessage(segments[2..]);
        }
      } else if MatchesMessage(segments[1]) {
        attributes := attributes.(lineType := Some(NoteLine));
        m := parseMessage(segments[1..]);
      }
      if m.Err? {
        return Err(m.error);
      }
      attributes := attributes.(message := m.value);
      return Ok(attributes);
    }

    /** The pieces of an error line after the line number. */
    method ParseErrorFields(segments: seq<string>) returns (r: Result<Attributes, Failure>)
      requires |segments| >= 3
      modifies this
      ensures line == old(line)
      ensures attributes == ErrorFields(old(attributes), segments, parseMessage).attributes
      ensures r == Outcome(ErrorFields(old(attributes), segments, parseMessage))
    {
      var m: Result<Message, Failure> := Ok(attributes.message);
      if segments[2] == "error" {
        m := parseMessage(segments[3..]);
      } else if |segments| == 3 {
        return Err(IndexError);
      } else if segments[3] == "error" {
        if StartsWithDigit(segments[2]) {
          var c := ParseInt(segments[2]);
          if c.Err? {
            return Err(c.error);
          }
          attributes := attributes.(column := c.value);
        }
        m := parseMessage(segments[4..]);
      }
      if m.Err? {
        return Err(m.error);
      }
      attributes := attributes.(message := m.value);
      return Ok(attributes);
    }
  }

  // ---------------------------------------------------------------------------
  // `_next_token`: the text up to the first top-level "," or "=".

  /** The four bracket counters of `_next_token`. */
  datatype Depths = Depths(angle: int, square: int, curly: int, paren: int)
  {
    predicate IsZero()
    {
      angle == 0 && square == 0 && curly == 0 && paren == 0
    }

    /** The counter of the bracket pair `c` belongs to. */
    function Counter(c: char): int
    {
      if c == '<' || c == '>' then angle
      else if c == '[' || c == ']' then square
      else if c == '{' || c == '}' then curly
      else paren
    }

    /** An opening bracket raises its counter, a closing one lowers it; other characters change nothing. */
    function Step(c: char): Depths
    {
      match c
      case '<' => this.(angle := angle + 1)
      case '[' => this.(square := square + 1)
      case '{' => this.(curly := curly + 1)
      case '(' => this.(paren := paren + 1)
      case '>' => this.(angle := angle - 1)
      case ']' => this.(square := square - 1)
      case '}' => this.(curly := curly - 1)
      case ')' => this.(paren := paren - 1)
      case _ => this
    }
  }

  const Zero := Depths(0, 0, 0, 0)

  predicate IsOpener(c: char) { c == '<' || c == '[' || c == '{' || c == '(' }
  predicate IsCloser(c: char) { c == '>' || c == ']' || c == '}' || c == ')' }
  predicate IsDelimiter(c: char) { c == ',' || c == '=' }

  /** A closing bracket `c` that takes its counter below zero. */
  predicate Underflows(d: Depths, c: char)
  {
    IsCloser(c) && d.Step(c).Counter(c) < 0
  }

  /** The offset in `t` where the scan, starting with counters `d`, stops at a top-level delimiter; `None` when it runs off the end or a bracket closes one that was never opened. */
  function Scan(t: string, d: Depths): (r: Option<nat>)
    ensures r.Some? ==> r.value < |t| && IsDelimiter(t[r.value])
    decreases |t|
  {
    if t == [] then None
    else if IsDelimiter(t[0]) && d.IsZero() then Some(0)
    else if Underflows(d, t[0]) then None
    else match Scan(t[1..], d.Step(t[0]))
      case Some(j) => Some(j + 1)
      case None => None
  }

  /** The counters after reading `t` from zero. */
  function DepthsOf(t: string): Depths
  {
    if t == [] then Zero else DepthsOf(t[..|t| - 1]).Step(t[|t| - 1])
  }

  /**
   * The scan from offset `i` stops at `j`: `t[j]` is a delimiter read with
   * every counter at zero, and between `i` and `j` there was no such
   * delimiter and no unmatched closing bracket.
   */
  predicate StopsBetween(t: string, i: nat, j: nat)
  {
    i <= j < |t| && IsDelimiter(t[j]) && DepthsOf(t[..j]).IsZero()
    && forall k | i <= k < j :: !(IsDelimiter(t[k]) && DepthsOf(t[..k]).IsZero()) && !Underflows(DepthsOf(t[..k]), t[k])
  }

  lemma {:induction false} ScanFrom(t: string, i: nat, j: nat)
    requires i <= |t| && i <= j
    ensures Scan(t[i..], DepthsOf(t[..i])) == Some(j - i) <==> StopsBetween(t, i, j)
    decreases |t| - i
  {
    if i < |t| {
      var d := DepthsOf(t[..i]);
      var c := t[i];
      assert t[i..][0] == c && t[i..][1..] == t[i + 1..];
      assert t[..i + 1][..i] == t[..i];
      assert DepthsOf(t[..i + 1]) == d.Step(c);
      if j > i && !(IsDelimiter(c) && d.IsZero()) && !Underflows(d, c) {
        ScanFrom(t, i + 1, j);
      }
    }
  }

  /** Where `_next_token` stops: exactly at the first top-level delimiter, provided no bracket closed one never opened before it. */
  lemma ScanStops(t: string, j: nat)
    ensures Scan(t, Zero) == Some(j) <==> StopsBetween(t, 0, j)
  {
    ScanFrom(t, 0, j);
    assert t[0..] == t && t[..0] == [];
  }

  /** `_next_token(line, begin)` as a value: the stripped text from `begin` to the stop, or `None`. */
  function TokenAt(line: string, begin: nat): (token: Option<string>)
  {
    var rest := if begin <= |line| then line[begin..] else [];
    match Scan(rest, Zero)
    case Some(j) => Some(Strip(rest[..j]))
    case None => None
  }

  function Shift(r: Option<nat>, n: nat): Option<nat>
  {
    match r
    case Some(j) => Some(j + n)
    case None => None
  }

  /** One step of the scan. */
  lemma ScanStep(t: string, d: Depths)
    requires t != []
    ensures Scan(t, d) ==
      if IsDelimiter(t[0]) && d.IsZero() then Some(0)
      else if Underflows(d, t[0]) then None
      else Shift(Scan(t[1..], d.Step(t[0])), 1)
  {
  }

  /** Characters other than brackets leave the counters alone. */
  lemma StepOther(d: Depths, c: char)
    requires !IsOpener(c) && !IsCloser(c)
    ensures d.Step(c) == d && !Underflows(d, c)
  {
  }

  /** `_next_token`, proved to return `TokenAt`. */
  method NextToken(line: string, begin: nat) returns (token: Option<string>)
    ensures token == TokenAt(line, begin)
  {
    var rest := if begin <= |line| then line[begin..] else [];
    var depth := Zero;
    var i := 0;
    while i < |rest|
      invariant 0 <= i <= |rest|
      invariant Scan(rest, Zero) == Shift(Scan(rest[i..], depth), i)
    {
      var c := rest[i];
      assert rest[i..][0] == c && rest[i..][1..] == rest[i + 1..];
      ScanStep(rest[i..], depth);
      if IsDelimiter(c) && depth.IsZero() {
        return Some(Strip(rest[..i]));
      } else if IsOpener(c) {
        depth := depth.Step(c);
      } else if IsCloser(c) {
        depth := depth.Step(c);
        if depth.Counter(c) < 0 {
          return None;
        }
      } else {
        StepOther(depth, c);
      }
      i := i + 1;
    }
    return None;
  }
}
