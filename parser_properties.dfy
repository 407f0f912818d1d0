/**
 * What `parse_line` makes of the line shapes g++ prints: each lemma takes a
 * line assembled from its fields and shows which fields the classifier reads
 * back, together with the shapes it gets wrong or fails on.
 */
module ParserProperties {
  import opened Wrappers
  import opened Text
  import opened GccParser

  /** A piece that the split leaves whole and the strip leaves alone: non-empty, no whitespace, no colon, no comma. */
  predicate Plain(s: string)
  {
    s != [] && forall i | 0 <= i < |s| :: !IsSpace(s[i]) && s[i] != ':' && s[i] != ','
  }

  /**
   * A file name the classifier reads as written. A first piece starting with
   * "from" loses five characters, "collect2" marks a linker message, and a
   * piece "error" anywhere makes the line an error line.
   */
  predicate PlainFile(f: string)
  {
    Plain(f) && !StartsWith(f, "from") && f != "collect2" && f != "error"
  }

  /** Message text: non-empty, not padded with whitespace, and free of colons and commas. */
  predicate PlainText(m: string)
  {
    m != [] && !IsSpace(m[0]) && !IsSpace(m[|m| - 1]) && ':' !in m && ',' !in m
  }

  /** A line number or column as printed: decimal digits. */
  predicate Number(n: string)
  {
    n != [] && AllDigits(n)
  }

  lemma NumberIsPlain(n: string)
    requires Number(n)
    ensures Plain(n)
  {
  }

  lemma PlainHasNoSeparator(s: string)
    requires Plain(s)
    ensures ':' !in s && ',' !in s && s[|s| - 1] !in ":,\n"
  {
  }

  lemma PlainStrip(s: string)
    requires Plain(s)
    ensures Strip(s) == s
  {
    StripUnchanged(s);
  }

  /** One space in front is what the strip removes. */
  lemma StripSpaceInFront(m: string)
    requires m != [] && !IsSpace(m[0]) && !IsSpace(m[|m| - 1])
    ensures Strip(" " + m) == m
  {
    var s := " " + m;
    assert s[1..] == m;
    assert LeadingSpaces(s) == 1 + LeadingSpaces(m);
    StripUnchanged(m);
    assert Strip(s)[|Strip(s)| - 1] == s[|s| - 1] || Strip(s) == [];
  }

  /** The first character of a join is that of its first piece. */
  lemma JoinHead(parts: seq<string>, sep: string)
    requires |parts| >= 1 && parts[0] != []
    ensures Join(parts, sep) != [] && Join(parts, sep)[0] == parts[0][0]
  {
  }

  /**
   * Pieces that hold no colon or comma, all but the last non-empty and
   * not ending in a newline, are split back exactly from their ":"-join.
   */
  lemma {:induction false} SplitJoined(parts: seq<string>, prevColon: bool)
    requires |parts| >= 1
    requires forall i | 0 <= i < |parts| :: ':' !in parts[i] && ',' !in parts[i]
    requires forall i | 0 <= i < |parts| - 1 :: parts[i] != [] && parts[i][|parts[i]| - 1] != '\n'
    ensures SplitFrom(Join(parts, ":"), prevColon) == parts
    decreases |parts|
  {
    if |parts| == 1 {
      SplitNone(parts[0], prevColon);
    } else {
      var a := parts[0];
      var b := Join(parts[1..], ":");
      assert Join(parts, ":") == a + [':'] + b;
      assert a[|a| - 1] in a;
      if |parts| > 2 {
        JoinHead(parts[1..], ":");
      } else {
        assert b == parts[1];
        if b != [] {
          assert b[0] in parts[1];
        }
      }
      SplitAtColon(a, b, prevColon);
      SplitNone(a, prevColon);
      SplitJoined(parts[1..], true);
      assert parts == [a] + parts[1..];
    }
  }

  /** A plain first piece not starting with "from" survives normalisation. */
  lemma PlainKept(f: string)
    requires Plain(f) && !StartsWith(f, "from")
    ensures NormalizeFirst(f) == f
  {
    // The pattern "In file included from" holds a space, which `f` does not.
    assert "In file included from"[2] == ' ';
    AbsentChar(f, "In file included from", 2);
  }

  /** A plain file name survives normalisation, matches the file pattern and not the system-header one. */
  lemma PlainFileKept(f: string)
    requires PlainFile(f)
    ensures NormalizeFirst(f) == f && MatchesFile(f) && SysFileMatch(f).None?
  {
    PlainKept(f);
    PlainHasNoSeparator(f);
    if StartsWith(f, SysPrefix) {
      var u := f[|SysPrefix|..];
      assert forall c | c in u :: c in f;
    }
  }

  lemma NumberFacts(n: string)
    requires Number(n)
    ensures !IsLinkerRef(n) && StartsWithDigit(n) && ParseInt(n) == Ok(DecimalValue(n))
    ensures n != "error" && n != "warning" && n != "note"
  {
    assert n[0] != '(';
    assert "error"[0] == 'e' && "warning"[0] == 'w' && "note"[0] == 'n';
  }

  /**
   * Piece `p` of a ":"-join is split off whole and stripped to `s`; every
   * piece but the last is non-empty and does not end in a newline.
   */
  predicate Whole(p: string, s: string, last: bool)
  {
    ':' !in p && ',' !in p && Strip(p) == s && (last || (p != [] && p[|p| - 1] != '\n'))
  }

  /** The stripped pieces of a ":"-join of pieces the split leaves whole. */
  lemma SegmentsOfJoin(parts: seq<string>, segs: seq<string>)
    requires |parts| >= 1 && |segs| == |parts|
    requires forall i | 0 <= i < |parts| :: Whole(parts[i], segs[i], i == |parts| - 1)
    ensures Segments(Join(parts, ":")) == segs
  {
    SplitJoined(parts, false);
  }

  /** The pieces of a join of five. */
  lemma SegmentsOfFive(p0: string, p1: string, p2: string, p3: string, p4: string,
                       s0: string, s1: string, s2: string, s3: string, s4: string)
    requires Whole(p0, s0, false) && Whole(p1, s1, false) && Whole(p2, s2, false) && Whole(p3, s3, false) && Whole(p4, s4, true)
    ensures Segments(Join([p0, p1, p2, p3, p4], ":")) == [s0, s1, s2, s3, s4]
  {
    var parts := [p0, p1, p2, p3, p4];
    var segs := [s0, s1, s2, s3, s4];
    forall i | 0 <= i < 5
      ensures Whole(parts[i], segs[i], i == 4)
    {
      if i == 0 {} else if i == 1 {} else if i == 2 {} else if i == 3 {} else {}
    }
    SegmentsOfJoin(parts, segs);
  }

  /** The pieces of a join of four. */
  lemma SegmentsOfFour(p0: string, p1: string, p2: string, p3: string, s0: string, s1: string, s2: string, s3: string)
    requires Whole(p0, s0, false) && Whole(p1, s1, false) && Whole(p2, s2, false) && Whole(p3, s3, true)
    ensures Segments(Join([p0, p1, p2, p3], ":")) == [s0, s1, s2, s3]
  {
    var parts := [p0, p1, p2, p3];
    var segs := [s0, s1, s2, s3];
    forall i | 0 <= i < 4
      ensures Whole(parts[i], segs[i], i == 3)
    {
      if i == 0 {} else if i == 1 {} else if i == 2 {} else {}
    }
    SegmentsOfJoin(parts, segs);
  }

  /** The pieces of a join of three. */
  lemma SegmentsOfThree(p0: string, p1: string, p2: string, s0: string, s1: string, s2: string)
    requires Whole(p0, s0, false) && Whole(p1, s1, false) && Whole(p2, s2, true)
    ensures Segments(Join([p0, p1, p2], ":")) == [s0, s1, s2]
  {
    var parts := [p0, p1, p2];
    var segs := [s0, s1, s2];
    forall i | 0 <= i < 3
      ensures Whole(parts[i], segs[i], i == 2)
    {
      if i == 0 {} else if i == 1 {} else {}
    }
    SegmentsOfJoin(parts, segs);
  }

  /** The pieces of a join of two. */
  lemma SegmentsOfTwo(p0: string, p1: string, s0: string, s1: string)
    requires Whole(p0, s0, false) && Whole(p1, s1, true)
    ensures Segments(Join([p0, p1], ":")) == [s0, s1]
  {
    var parts := [p0, p1];
    var segs := [s0, s1];
    forall i | 0 <= i < 2
      ensures Whole(parts[i], segs[i], i == 1)
    {
      if i == 0 {} else {}
    }
    SegmentsOfJoin(parts, segs);
  }

  lemma JoinFour(p0: string, p1: string, p2: string, p3: string)
    ensures Join([p0, p1, p2, p3], ":") == p0 + ":" + p1 + ":" + p2 + ":" + p3
  {
    assert [p2, p3][1..] == [p3];
    assert Join([p2, p3], ":") == p2 + ":" + p3;
    assert [p1, p2, p3][1..] == [p2, p3];
    assert Join([p1, p2, p3], ":") == p1 + ":" + (p2 + ":" + p3);
    assert [p0, p1, p2, p3][1..] == [p1, p2, p3];
    assert Join([p0, p1, p2, p3], ":") == p0 + ":" + (p1 + ":" + (p2 + ":" + p3));
  }

  lemma JoinFive(p0: string, p1: string, p2: string, p3: string, p4: string)
    ensures Join([p0, p1, p2, p3, p4], ":") == p0 + ":" + p1 + ":" + p2 + ":" + p3 + ":" + p4
  {
    assert [p0, p1, p2, p3, p4][1..] == [p1, p2, p3, p4];
    JoinFour(p1, p2, p3, p4);
  }

  /** A plain piece is split off whole and stripped to itself. */
  lemma PlainPiece(p: string)
    requires Plain(p)
    ensures Whole(p, p, false) && Whole(p, p, true)
  {
    PlainHasNoSeparator(p);
    PlainStrip(p);
  }

  /** Message text after ": " is split off whole and stripped back to itself. */
  lemma TextPiece(m: string)
    requires PlainText(m)
    ensures Whole(" " + m, m, false) && Whole(" " + m, m, true)
  {
    assert forall ch | ch in " " + m :: ch == ' ' || ch in m;
    StripSpaceInFront(m);
  }

  /** The pieces of "f:n:c: kind: m". */
  lemma FivePieces(f: string, n: string, c: string, kind: string, m: string)
    requires PlainFile(f) && Number(n) && Number(c) && PlainText(m) && PlainText(kind)
    ensures Segments(f + ":" + n + ":" + c + ": " + kind + ": " + m) == [f, n, c, kind, m]
  {
    JoinFive(f, n, c, " " + kind, " " + m);
    assert f + ":" + n + ":" + c + ": " + kind + ": " + m == f + ":" + n + ":" + c + ":" + (" " + kind) + ":" + (" " + m);
    NumberIsPlain(n);
    NumberIsPlain(c);
    PlainPiece(f);
    PlainPiece(n);
    PlainPiece(c);
    TextPiece(kind);
    TextPiece(m);
    SegmentsOfFive(f, n, c, " " + kind, " " + m, f, n, c, kind, m);
  }

  /** The pieces of "f:n: kind: m". */
  lemma FourPieces(f: string, n: string, kind: string, m: string)
    requires PlainFile(f) && Number(n) && PlainText(m) && PlainText(kind)
    ensures Segments(f + ":" + n + ": " + kind + ": " + m) == [f, n, kind, m]
  {
    JoinFour(f, n, " " + kind, " " + m);
    assert f + ":" + n + ": " + kind + ": " + m == f + ":" + n + ":" + (" " + kind) + ":" + (" " + m);
    NumberIsPlain(n);
    PlainPiece(f);
    PlainPiece(n);
    TextPiece(kind);
    TextPiece(m);
    SegmentsOfFour(f, n, " " + kind, " " + m, f, n, kind, m);
  }

  /** A line whose first piece is a plain file name is handed to the dispatch on its second piece. */
  lemma ClassifyFile(a: Attributes, line: string, segs: seq<string>, pm: MessageParser)
    requires Segments(line) == segs && |segs| >= 2 && PlainFile(segs[0])
    ensures Classify(a, line, pm) == Dispatch(a.(raw := line, file := segs[0], sysFile := Some(false)), segs, pm)
  {
    PlainFileKept(segs[0]);
    assert segs[0 := segs[0]] == segs;
  }

  /** A numbered line with no "error" piece and no kind at piece 2 is a note whose message starts at piece 2. */
  lemma DispatchFree(a: Attributes, segs: seq<string>, pm: MessageParser)
    requires |segs| >= 3 && Number(segs[1]) && "error" !in segs && segs[2] != "warning" && segs[2] != "note"
    ensures Dispatch(a, segs, pm) == Record(a.(line := DecimalValue(segs[1]), lineType := Some(NoteLine)), pm(segs[2..]))
  {
    NumberFacts(segs[1]);
  }

  /** The kind written out between its separators. */
  lemma Spelled(p: string, kind: string, m: string)
    ensures p + ": " + kind + ": " + m == p + (": " + kind + ": ") + m
  {
  }

  lemma KindsArePlain()
    ensures PlainText("error") && PlainText("warning") && PlainText("note")
  {
  }

  /**
   * "file:line:column: error: message": the error kind, the line, the column
   * and the message text (as the hook parses it) are all read back.
   */
  lemma ErrorWithColumn(a: Attributes, f: string, n: string, c: string, m: string, pm: MessageParser)
    requires PlainFile(f) && Number(n) && Number(c) && PlainText(m)
    ensures var line := f + ":" + n + ":" + c + ": error: " + m;
      Classify(a, line, pm) ==
        Record(a.(raw := line, file := f, sysFile := Some(false), line := DecimalValue(n),
                  column := DecimalValue(c), lineType := Some(ErrorLine)), pm([m]))
  {
    KindsArePlain();
    FivePieces(f, n, c, "error", m);
    assert f + ":" + n + ":" + c + ": error: " + m == f + ":" + n + ":" + c + ": " + "error" + ": " + m;
    var segs := [f, n, c, "error", m];
    ClassifyFile(a, f + ":" + n + ":" + c + ": error: " + m, segs, pm);
    NumberFacts(n);
    NumberFacts(c);
    assert segs[4..] == [m];
  }

  /** "file:line: error: message": the error kind, the line and the message; the column keeps its old value. */
  lemma ErrorWithoutColumn(a: Attributes, f: string, n: string, m: string, pm: MessageParser)
    requires PlainFile(f) && Number(n) && PlainText(m)
    ensures var line := f + ":" + n + ": error: " + m;
      Classify(a, line, pm) ==
        Record(a.(raw := line, file := f, sysFile := Some(false), line := DecimalValue(n),
                  lineType := Some(ErrorLine)), pm([m]))
  {
    KindsArePlain();
    FourPieces(f, n, "error", m);
    assert f + ":" + n + ": error: " + m == f + ":" + n + ": " + "error" + ": " + m;
    var segs := [f, n, "error", m];
    ClassifyFile(a, f + ":" + n + ": error: " + m, segs, pm);
    NumberFacts(n);
    assert segs[3..] == [m];
  }

  /**
   * "file:line: warning: message" and "file:line: note: message": the kind,
   * the line and the message are read back, unless the message text is
   * itself "error", which makes the line an error line.
   */
  lemma KindWithoutColumn(a: Attributes, f: string, n: string, kind: string, m: string, pm: MessageParser)
    requires PlainFile(f) && Number(n) && PlainText(m) && m != "error"
    requires kind == "warning" || kind == "note"
    ensures var line := f + ":" + n + ": " + kind + ": " + m;
      Classify(a, line, pm) ==
        Record(a.(raw := line, file := f, sysFile := Some(false), line := DecimalValue(n),
                  lineType := Some(if kind == "warning" then WarningLine else NoteLine)), pm([m]))
  {
    KindsArePlain();
    assert PlainText(kind);
    FourPieces(f, n, kind, m);
    var segs := [f, n, kind, m];
    var line := f + ":" + n + ": " + kind + ": " + m;
    ClassifyFile(a, line, segs, pm);
    NumberFacts(n);
    assert "error" !in segs;
    DispatchKind(a.(raw := line, file := f, sysFile := Some(false)), segs, pm);
    assert segs[3..] == [m];
  }

  /** A numbered line with no "error" piece and a kind at piece 2: the kind is read, the message starts at piece 3. */
  lemma DispatchKind(a: Attributes, segs: seq<string>, pm: MessageParser)
    requires |segs| >= 4 && Number(segs[1]) && "error" !in segs && (segs[2] == "warning" || segs[2] == "note")
    ensures Dispatch(a, segs, pm) ==
      Record(a.(line := DecimalValue(segs[1]), lineType := Some(if segs[2] == "warning" then WarningLine else NoteLine)), pm(segs[3..]))
  {
    NumberFacts(segs[1]);
  }

  /**
   * "file:line:column: warning: message" is not recognised as a warning:
   * only error lines are looked for a column, so the column, the kind and
   * the text all become the message of a note.
   */
  lemma WarningWithColumnIsNote(a: Attributes, f: string, n: string, c: string, m: string, pm: MessageParser)
    requires PlainFile(f) && Number(n) && Number(c) && PlainText(m) && m != "error"
    ensures var line := f + ":" + n + ":" + c + ": warning: " + m;
      Classify(a, line, pm) ==
        Record(a.(raw := line, file := f, sysFile := Some(false), line := DecimalValue(n),
                  lineType := Some(NoteLine)), pm([c, "warning", m]))
  {
    WarningColumnPieces(f, n, c, m);
    NoKindAhead(c, m);
    ClassifyNote(a, f + ":" + n + ":" + c + ": warning: " + m, f, n, [c, "warning", m], pm);
  }

  /** The pieces after the line number of "f:n:c: warning: m" hold no "error" and start with no kind. */
  lemma NoKindAhead(c: string, m: string)
    requires Number(c) && m != "error"
    ensures "error" !in [c, "warning", m] && c != "warning" && c != "note"
  {
    NumberFacts(c);
  }

  lemma WarningColumnPieces(f: string, n: string, c: string, m: string)
    requires PlainFile(f) && Number(n) && Number(c) && PlainText(m)
    ensures Segments(f + ":" + n + ":" + c + ": warning: " + m) == [f, n] + [c, "warning", m]
  {
    assert [f, n] + [c, "warning", m] == [f, n, c, "warning", m];
    KindsArePlain();
    FivePieces(f, n, c, "warning", m);
    Spelled(f + ":" + n + ":" + c, "warning", m);
    assert ": " + "warning" + ": " == ": warning: ";
  }

  /** A numbered line of a plain file with no "error" piece and no kind after the number is a note. */
  lemma ClassifyNote(a: Attributes, line: string, f: string, n: string, rest: seq<string>, pm: MessageParser)
    requires Segments(line) == [f, n] + rest && rest != [] && PlainFile(f) && Number(n)
    requires "error" !in rest && rest[0] != "warning" && rest[0] != "note"
    ensures Classify(a, line, pm) ==
      Record(a.(raw := line, file := f, sysFile := Some(false), line := DecimalValue(n),
                lineType := Some(NoteLine)), pm(rest))
  {
    var segs := [f, n] + rest;
    NumberFacts(n);
    assert segs[2..] == rest && segs[1] == n && segs[2] == rest[0];
    assert "error" !in segs by {
      assert forall x | x in segs :: x == f || x == n || x in rest;
    }
    ClassifyFile(a, line, segs, pm);
    DispatchFree(a.(raw := line, file := f, sysFile := Some(false)), segs, pm);
  }

  lemma JoinThree(p0: string, p1: string, p2: string)
    ensures Join([p0, p1, p2], ":") == p0 + ":" + p1 + ":" + p2
  {
    assert [p1, p2][1..] == [p2];
    assert Join([p1, p2], ":") == p1 + ":" + p2;
    assert [p0, p1, p2][1..] == [p1, p2];
    assert Join([p0, p1, p2], ":") == p0 + ":" + (p1 + ":" + p2);
  }

  lemma JoinTwo(p0: string, p1: string)
    ensures Join([p0, p1], ":") == p0 + ":" + p1
  {
    assert [p0, p1][1..] == [p1];
  }

  /** The pieces of "f:n: m". */
  lemma ThreePieces(f: string, n: string, m: string)
    requires Plain(f) && Plain(n) && PlainText(m)
    ensures Segments(f + ":" + n + ": " + m) == [f, n, m]
  {
    JoinThree(f, n, " " + m);
    assert f + ":" + n + ": " + m == f + ":" + n + ":" + (" " + m);
    PlainPiece(f);
    PlainPiece(n);
    TextPiece(m);
    SegmentsOfThree(f, n, " " + m, f, n, m);
  }

  /** The pieces of "f: m". */
  lemma TwoPieces(f: string, m: string)
    requires Plain(f) && PlainText(m)
    ensures Segments(f + ": " + m) == [f, m]
  {
    JoinTwo(f, " " + m);
    assert f + ": " + m == f + ":" + (" " + m);
    PlainPiece(f);
    TextPiece(m);
    SegmentsOfTwo(f, " " + m, f, m);
  }

  /**
   * "file:line: text" with any other text (such as "instantiated from
   * here") is a note whose message is that text.
   */
  lemma NoteWithoutKind(a: Attributes, f: string, n: string, m: string, pm: MessageParser)
    requires PlainFile(f) && Number(n) && PlainText(m)
    requires m != "error" && m != "warning" && m != "note"
    ensures var line := f + ":" + n + ": " + m;
      Classify(a, line, pm) ==
        Record(a.(raw := line, file := f, sysFile := Some(false), line := DecimalValue(n),
                  lineType := Some(NoteLine)), pm([m]))
  {
    NumberIsPlain(n);
    ThreePieces(f, n, m);
    var segs := [f, n, m];
    PlainFileKept(f);
    NumberFacts(n);
    assert "error" !in segs;
    assert segs[0 := f] == segs;
    assert segs[2..] == [m];
  }

  /**
   * "file: text" where the text is neither a line number nor a linker
   * reference (such as "In function ‘int main()’") is a note whose message
   * is the text; line and column keep their values.
   */
  lemma FreeTextNote(a: Attributes, f: string, m: string, pm: MessageParser)
    requires PlainFile(f) && PlainText(m) && !StartsWithDigit(m) && !IsLinkerRef(m)
    ensures var line := f + ": " + m;
      Classify(a, line, pm) ==
        Record(a.(raw := line, file := f, sysFile := Some(false), lineType := Some(NoteLine)), pm([m]))
  {
    TwoPieces(f, m);
    var segs := [f, m];
    PlainFileKept(f);
    assert segs[0 := f] == segs;
    assert segs[1..] == [m];
  }

  /**
   * "file:(.section+0xoffset): text", a linker diagnostic, is a warning whose
   * message is the text after the section reference.
   */
  lemma LinkerWarning(a: Attributes, f: string, r: string, m: string, pm: MessageParser)
    requires PlainFile(f) && Plain(r) && IsLinkerRef(r) && PlainText(m)
    ensures var line := f + ":" + r + ": " + m;
      Classify(a, line, pm) ==
        Record(a.(raw := line, file := f, sysFile := Some(false), lineType := Some(WarningLine)), pm([m]))
  {
    ThreePieces(f, r, m);
    var segs := [f, r, m];
    PlainFileKept(f);
    assert segs[0 := f] == segs;
    assert segs[2..] == [m];
  }

  /** "collect2: text" only sets the line type: every other field keeps its value from the previous line. */
  lemma Collect2Message(a: Attributes, m: string, pm: MessageParser)
    requires PlainText(m)
    ensures var line := "collect2: " + m;
      Classify(a, line, pm) == Parsed(a.(raw := line, lineType := Some(MessageLine)), None)
  {
    assert Plain("collect2");
    TwoPieces("collect2", m);
    assert "collect2: " + m == "collect2" + ": " + m;
    PlainKept("collect2");
  }

  /** A comma at the end of a text without separators splits off an empty last piece. */
  lemma {:induction false} TrailingComma(s: string, prevColon: bool)
    requires ':' !in s && ',' !in s
    ensures SplitFrom(s + ",", prevColon) == [s, ""]
    decreases |s|
  {
    if s == [] {
      assert s + "," == [','];
    } else {
      var t := s + ",";
      assert t[0] == s[0] && t[1..] == s[1..] + ",";
      assert s[0] in s;
      assert forall x | x in s[1..] :: x in s;
      TrailingComma(s[1..], false);
      assert [s[0]] + s[1..] == s;
    }
  }

  /** A word followed by a space heads the word list. */
  lemma WordThenRest(w: string, rest: string)
    requires IsWord(w)
    ensures Words(w + [' '] + rest) == [w] + Words(rest)
  {
    WordsAppend(w, ' ', rest);
    OneWord(w);
  }

  lemma FourWordsThen(w1: string, w2: string, w3: string, w4: string, rest: string)
    requires IsWord(w1) && IsWord(w2) && IsWord(w3) && IsWord(w4)
    ensures Words(w1 + [' '] + (w2 + [' '] + (w3 + [' '] + (w4 + [' '] + rest)))) == [w1, w2, w3, w4] + Words(rest)
  {
    TwoWordsThen(w3, w4, rest);
    TwoWordsThen(w1, w2, w3 + [' '] + (w4 + [' '] + rest));
    assert [w1, w2] + ([w3, w4] + Words(rest)) == [w1, w2, w3, w4] + Words(rest);
  }

  lemma TwoWordsThen(w1: string, w2: string, rest: string)
    requires IsWord(w1) && IsWord(w2)
    ensures Words(w1 + [' '] + (w2 + [' '] + rest)) == [w1, w2] + Words(rest)
  {
    WordThenRest(w2, rest);
    WordThenRest(w1, w2 + [' '] + rest);
    assert [w1] + ([w2] + Words(rest)) == [w1, w2] + Words(rest);
  }

  lemma IncludedFromShape(f: string)
    ensures "In file included from " + f == "In" + [' '] + ("file" + [' '] + ("included" + [' '] + ("from" + [' '] + f)))
  {
  }

  lemma IncludedFromWords(f: string)
    requires Plain(f)
    ensures Words("In file included from " + f) == ["In", "file", "included", "from", f]
  {
    IncludedFromShape(f);
    assert IsWord("In") && IsWord("file") && IsWord("included") && IsWord("from");
    FourWordsThen("In", "file", "included", "from", f);
    OneWord(f);
  }

  /** The four words in front of the file name of an "In file included from" line are dropped. */
  lemma IncludedFromKeepsFile(f: string)
    requires Plain(f)
    ensures NormalizeFirst("In file included from " + f) == f
  {
    var pat := "In file included from";
    var s := "In file included from " + f;
    assert s == pat + (" " + f);
    StartsWithAppend(pat, " " + f);
    IncludedFromWords(f);
    assert Words(s)[4..] == [f];
  }

  /** The pieces of "In file included from f:n,". */
  lemma IncludedFromPieces(f: string, n: string)
    requires Plain(f) && Number(n)
    ensures Segments("In file included from " + f + ":" + n + ",") == ["In file included from " + f, n, ""]
  {
    var head := "In file included from " + f;
    IncludedFromSplit(f, n);
    NumberIsPlain(n);
    StripUnchanged(head);
    PlainStrip(n);
  }

  /** Where "In file included from f:n," is split: at the colon and at the trailing comma. */
  lemma IncludedFromSplit(f: string, n: string)
    requires Plain(f) && Number(n)
    ensures SplitFrom("In file included from " + f + ":" + n + ",", false) == ["In file included from " + f, n, ""]
  {
    var head := "In file included from " + f;
    var line := head + ":" + n + ",";
    NumberIsPlain(n);
    PlainHasNoSeparator(f);
    PlainHasNoSeparator(n);
    assert ':' !in head && ',' !in head;
    assert head[|head| - 1] == f[|f| - 1];
    assert line == head + [':'] + (n + ",");
    SplitAtColon(head, n + ",", false);
    SplitNone(head, false);
    TrailingComma(n, true);
  }

  /** The pieces of "from f:n:". */
  lemma FromPieces(f: string, n: string)
    requires Plain(f) && Number(n)
    ensures Segments("from " + f + ":" + n + ":") == ["from " + f, n, ""]
  {
    var head := "from " + f;
    NumberIsPlain(n);
    PlainHasNoSeparator(f);
    PlainHasNoSeparator(n);
    assert ':' !in head && ',' !in head;
    assert head[|head| - 1] == f[|f| - 1];
    JoinThree(head, n, "");
    assert head + ":" + n + ":" == head + ":" + n + ":" + "";
    StripUnchanged(head);
    PlainStrip(n);
    SegmentsOfThree(head, n, "", head, n, "");
  }

  /** A note on a numbered line of `f` whose message is the empty text. */
  lemma NoteAtLine(a: Attributes, f: string, n: string, pm: MessageParser)
    requires PlainFile(f) && Number(n)
    ensures Dispatch(a.(file := f, sysFile := Some(false)), [f, n, ""], pm) ==
      Record(a.(file := f, sysFile := Some(false), line := DecimalValue(n), lineType := Some(NoteLine)), pm([""]))
  {
    NumberFacts(n);
    var segs := [f, n, ""];
    assert "error" !in segs;
    assert segs[2..] == [""];
  }

  /** The "from" in front of the file name of a continued include line is dropped. */
  lemma FromKeepsFile(f: string)
    requires Plain(f)
    ensures NormalizeFirst("from " + f) == f
  {
    var pat := "In file included from";
    var s := "from " + f;
    assert pat[2] == ' ' && pat[0] == 'I';
    AbsentChar(f, pat, 2);
    if Contains(s, pat) {
      ContainsAfter("from ", f, pat);
    }
    assert s == "from" + (" " + f);
    StartsWithAppend("from", " " + f);
    assert s[5..] == f;
  }

  /**
   * "In file included from file:line,", the head of an include chain, is a
   * note on that file and line with an empty message text.
   */
  lemma IncludedFrom(a: Attributes, f: string, n: string, pm: MessageParser)
    requires PlainFile(f) && Number(n)
    ensures var line := "In file included from " + f + ":" + n + ",";
      Classify(a, line, pm) ==
        Record(a.(raw := line, file := f, sysFile := Some(false), line := DecimalValue(n),
                  lineType := Some(NoteLine)), pm([""]))
  {
    var line := "In file included from " + f + ":" + n + ",";
    IncludedFromPieces(f, n);
    IncludedFromKeepsFile(f);
    PlainFileKept(f);
    assert Segments(line)[0 := f] == [f, n, ""];
    NoteAtLine(a.(raw := line), f, n, pm);
  }

  /**
   * "from file:line:", a continuation of an include chain, is a note on that
   * file and line with an empty message text.
   */
  lemma FromLine(a: Attributes, f: string, n: string, pm: MessageParser)
    requires PlainFile(f) && Number(n)
    ensures var line := "from " + f + ":" + n + ":";
      Classify(a, line, pm) ==
        Record(a.(raw := line, file := f, sysFile := Some(false), line := DecimalValue(n),
                  lineType := Some(NoteLine)), pm([""]))
  {
    var line := "from " + f + ":" + n + ":";
    FromPieces(f, n);
    FromKeepsFile(f);
    PlainFileKept(f);
    assert Segments(line)[0 := f] == [f, n, ""];
    NoteAtLine(a.(raw := line), f, n, pm);
  }

  /** "file:line" alone fails with an index error after the line number is stored. */
  lemma LineNumberOnly(a: Attributes, f: string, n: string, pm: MessageParser)
    requires PlainFile(f) && Number(n)
    ensures var line := f + ":" + n;
      Classify(a, line, pm) ==
        Parsed(a.(raw := line, file := f, sysFile := Some(false), line := DecimalValue(n)), Some(IndexError))
  {
    var line := f + ":" + n;
    NumberIsPlain(n);
    JoinTwo(f, n);
    PlainPiece(f);
    PlainPiece(n);
    SegmentsOfTwo(f, n, f, n);
    PlainFileKept(f);
    NumberFacts(n);
    assert [f, n][0 := f] == [f, n];
  }

  /** A piece after the file name that starts with a digit but is not a number fails with a value error. */
  lemma MalformedLineNumber(a: Attributes, f: string, n: string, pm: MessageParser)
    requires PlainFile(f) && Plain(n) && StartsWithDigit(n) && !AllDigits(n)
    ensures var line := f + ":" + n;
      Classify(a, line, pm) == Parsed(a.(raw := line, file := f, sysFile := Some(false)), Some(ValueError))
  {
    var line := f + ":" + n;
    JoinTwo(f, n);
    PlainPiece(f);
    PlainPiece(n);
    SegmentsOfTwo(f, n, f, n);
    ClassifyFile(a, line, [f, n], pm);
    DispatchMalformed(a.(raw := line, file := f, sysFile := Some(false)), [f, n], pm);
  }

  /** A second piece that starts with a digit and is not a number stops the dispatch with a value error. */
  lemma DispatchMalformed(a: Attributes, segs: seq<string>, pm: MessageParser)
    requires |segs| >= 2 && Plain(segs[1]) && StartsWithDigit(segs[1]) && !AllDigits(segs[1])
    ensures Dispatch(a, segs, pm) == Parsed(a, Some(ValueError))
  {
    assert segs[1][0] != '(';
  }

  /**
   * The two ways of using the class that its documentation calls equivalent
   * differ: a parser reused after an error line still reports that line's
   * file for a following "collect2" line, where a fresh parser reports none.
   */
  lemma ReuseIsNotFresh(f: string, n: string, c: string, m: string, m2: string)
    requires PlainFile(f) && Number(n) && Number(c) && PlainText(m) && PlainText(m2)
    ensures var first := Classify(Defaults(""), f + ":" + n + ":" + c + ": error: " + m, BaseMessageParser).attributes;
      var second := "collect2: " + m2;
      Classify(first, second, BaseMessageParser).attributes.file == f
      && Classify(Defaults(second), second, BaseMessageParser).attributes.file == ""
  {
    var first := Classify(Defaults(""), f + ":" + n + ":" + c + ": error: " + m, BaseMessageParser).attributes;
    ErrorWithColumn(Defaults(""), f, n, c, m, BaseMessageParser);
    Collect2Message(first, m2, BaseMessageParser);
    Collect2Message(Defaults("collect2: " + m2), m2, BaseMessageParser);
  }
}
