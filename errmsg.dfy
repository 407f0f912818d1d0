/**
 * The colourful message handler: a whole line in one colour with a reset
 * at its end, and the four message kinds built on it.
 */
module ErrMsg {
  import opened PosixBuilder
  import opened Colors

  /**
   * `highlight_line(s, color)`: the colour at offset 0 and a reset at
   * offset -1, which is the end of the string.
   */
  method HighlightLine(p: Palette, s: string, color: string) returns (out: string)
    ensures s != [] ==> out == Escape([color]) + s + Escape([p.reset])
    ensures s == [] ==> out == Escape(if color == p.reset then [color] else [color, p.reset])
    ensures out == ColoredOnly(s, [color], p.reset)
  {
    var b := new Builder(s);
    b.Insert(0, color);
    b.Insert(-1, p.reset);
    out := b.Result();
    HighlightLayout(s, color, p.reset);
  }

  lemma HighlightLayout(s: string, color: string, reset: string)
    ensures forall k | k in Added(map[0 := [color]], Normalize(-1, |s|), reset) :: k <= |s|
    ensures Layout(s, Added(map[0 := [color]], Normalize(-1, |s|), reset)) == ColoredOnly(s, [color], reset)
    ensures s != [] ==> ColoredOnly(s, [color], reset) == Escape([color]) + s + Escape([reset])
    ensures s == [] ==> ColoredOnly(s, [color], reset) == Escape(if color == reset then [color] else [color, reset])
  {
    assert Dedup([color]) == [color];
    assert map[0 := [color]] == ColorTable([color]);
    ColorOnlyLayout(s, [color], reset);
    ColorOnlyEmpty([color], reset);
  }

  /** Messages: brown. */
  method Message(p: Palette, msg: string) returns (out: string)
    ensures msg != [] ==> out == Escape([p.brown]) + msg + Escape([p.reset])
    ensures msg == [] ==> out == Escape(if p.brown == p.reset then [p.brown] else [p.brown, p.reset])
  {
    out := HighlightLine(p, msg, p.brown);
  }

  /** Notifications: blue. */
  method Notify(p: Palette, msg: string) returns (out: string)
    ensures msg != [] ==> out == Escape([p.blue]) + msg + Escape([p.reset])
    ensures msg == [] ==> out == Escape(if p.blue == p.reset then [p.blue] else [p.blue, p.reset])
  {
    out := HighlightLine(p, msg, p.blue);
  }

  /** Warnings: green. */
  method Warn(p: Palette, msg: string) returns (out: string)
    ensures msg != [] ==> out == Escape([p.green]) + msg + Escape([p.reset])
    ensures msg == [] ==> out == Escape(if p.green == p.reset then [p.green] else [p.green, p.reset])
  {
    out := HighlightLine(p, msg, p.green);
  }

  /** Errors: red. */
  method Error(p: Palette, msg: string) returns (out: string)
    ensures msg != [] ==> out == Escape([p.red]) + msg + Escape([p.reset])
    ensures msg == [] ==> out == Escape(if p.red == p.reset then [p.red] else [p.red, p.reset])
  {
    out := HighlightLine(p, msg, p.red);
  }
}
