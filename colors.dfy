/**
 * The colouring helpers of the colors package, over the POSIX builder: the
 * colours go to offset 0 of a fresh builder, optionally with a reset code at
 * the end of the string.
 */
module Colors {
  import opened PosixBuilder

  /**
   * The code values the helpers use. The platform's code table is not part
   * of this model, so its values are a parameter.
   */
  datatype Palette = Palette(reset: string, brown: string, blue: string, green: string, red: string)

  /** `l` with `c` appended unless it is already there (what `insert` does to one offset). */
  function AppendNew(l: seq<string>, c: string): (r: seq<string>)
    ensures forall x :: x in r <==> x in l || x == c
  {
    if c in l then l else l + [c]
  }

  /** The first occurrence of every code, in order. */
  function Dedup(cs: seq<string>): (r: seq<string>)
    ensures forall x :: x in r <==> x in cs
    ensures |r| <= |cs|
    ensures cs != [] ==> r != []
  {
    if cs == [] then [] else AppendNew(Dedup(cs[..|cs| - 1]), cs[|cs| - 1])
  }

  lemma {:induction false} DedupDistinct(cs: seq<string>)
    ensures Distinct(Dedup(cs))
  {
    if cs != [] {
      DedupDistinct(cs[..|cs| - 1]);
    }
  }

  /** A list without repeats is its own first occurrences. */
  lemma {:induction false} DedupOfDistinct(cs: seq<string>)
    requires Distinct(cs)
    ensures Dedup(cs) == cs
  {
    if cs != [] {
      var init := cs[..|cs| - 1];
      DedupOfDistinct(init);
      assert cs[|cs| - 1] !in init;
      assert init + [cs[|cs| - 1]] == cs;
    }
  }

  /** What `color(s, *colors)` returns: one escape of the colours, then s. */
  function Colored(s: string, colors: seq<string>): string
  {
    if colors == [] then s else Escape(Dedup(colors)) + s
  }

  /**
   * What `color_only(s, *colors)` returns: the colours and a reset around
   * s; for an empty s both land at offset 0 and share one escape.
   */
  function ColoredOnly(s: string, colors: seq<string>, reset: string): string
  {
    if s == [] then Escape(Dedup(colors + [reset])) else Colored(s, colors) + Escape([reset])
  }

  lemma DedupSnoc(cs: seq<string>, i: nat)
    requires i < |cs|
    ensures Dedup(cs[..i + 1]) == AppendNew(Dedup(cs[..i]), cs[i])
  {
    assert cs[..i + 1][..i] == cs[..i];
  }

  /** The builder's table after the colours went to offset 0. */
  function ColorTable(colors: seq<string>): (m: map<nat, seq<string>>)
    ensures m.Keys <= {0}
  {
    if colors == [] then map[] else map[0 := Dedup(colors)]
  }

  lemma ColorTableStep(colors: seq<string>, i: nat)
    requires i < |colors|
    ensures Added(ColorTable(colors[..i]), 0, colors[i]) == ColorTable(colors[..i + 1])
  {
    DedupSnoc(colors, i);
    if i == 0 {
      assert colors[..i] == [];
      assert colors[..i + 1] == [colors[0]];
      assert Dedup(colors[..i + 1]) == [colors[0]];
    } else {
      assert colors[..i] != [];
    }
  }

  /**
   * Inserts every colour at offset 0, in order; afterwards the builder
   * holds the colours' first occurrences at offset 0 and nothing else.
   */
  method InsertColors(b: Builder, colors: seq<string>)
    requires b.Valid() && b.codes == map[]
    modifies b
    ensures b.str == old(b.str) && b.Valid()
    ensures b.codes == ColorTable(colors)
  {
    for i := 0 to |colors|
      invariant b.str == old(b.str) && b.Valid()
      invariant b.codes == ColorTable(colors[..i])
    {
      b.Insert(0, colors[i]);
      ColorTableStep(colors, i);
    }
    assert colors[..|colors|] == colors;
  }

  lemma ColorLayout(s: string, colors: seq<string>)
    ensures Layout(s, ColorTable(colors)) == Colored(s, colors)
  {
    if colors == [] {
      NoCodes(s);
    } else {
      LayoutAtStart(s, Dedup(colors));
    }
  }

  /** `color(s, *colors)`. */
  method Color(s: string, colors: seq<string>) returns (out: string)
    ensures out == Colored(s, colors)
    ensures colors == [] ==> out == s
  {
    var b := new Builder(s);
    InsertColors(b, colors);
    out := b.Result();
    ColorLayout(s, colors);
  }

  lemma ColorOnlyLayout(s: string, colors: seq<string>, reset: string)
    ensures forall k | k in Added(ColorTable(colors), Normalize(-1, |s|), reset) :: k <= |s|
    ensures Layout(s, Added(ColorTable(colors), Normalize(-1, |s|), reset)) == ColoredOnly(s, colors, reset)
  {
    EndAndStart(|s|);
    if s == [] {
      ResetAtStart(colors, reset);
    } else {
      ResetAtEnd(s, colors, reset);
    }
  }

  lemma ResetAtEnd(s: string, colors: seq<string>, reset: string)
    requires s != []
    ensures Layout(s, Added(ColorTable(colors), |s|, reset)) == ColoredOnly(s, colors, reset)
  {
    if colors == [] {
      assert Added(ColorTable(colors), |s|, reset) == map[|s| := [reset]];
      LayoutAtEnd(s, [reset]);
    } else {
      assert Added(ColorTable(colors), |s|, reset) == map[0 := Dedup(colors), |s| := [reset]];
      LayoutEnds(s, Dedup(colors), [reset]);
    }
  }

  lemma ResetAtStart(colors: seq<string>, reset: string)
    ensures Added(ColorTable(colors), 0, reset) == map[0 := Dedup(colors + [reset])]
    ensures Layout("", map[0 := Dedup(colors + [reset])]) == ColoredOnly("", colors, reset)
  {
    ResetJoinsTable(colors, reset);
    var l := Dedup(colors + [reset]);
    LayoutAtStart("", l);
    assert Escape(l) + "" == Escape(l);
  }

  /** The reset added at offset 0 joins the colours' entry as the last code of the whole list would. */
  lemma ResetJoinsTable(colors: seq<string>, reset: string)
    ensures Added(ColorTable(colors), 0, reset) == map[0 := Dedup(colors + [reset])]
  {
    DedupLast(colors, reset);
    if colors == [] {
      assert Dedup(colors) == [];
      assert AppendNew([], reset) == [reset];
    } else {
      AddedAtZero(Dedup(colors), reset);
    }
  }

  lemma AddedAtZero(l: seq<string>, c: string)
    ensures Added(map[0 := l], 0, c) == map[0 := AppendNew(l, c)]
  {
  }

  lemma DedupLast(colors: seq<string>, reset: string)
    ensures Dedup(colors + [reset]) == AppendNew(Dedup(colors), reset)
  {
    assert (colors + [reset])[..|colors|] == colors;
  }

  /** `color_only(s, *colors)`: as `color`, then a reset at the end of s. */
  method ColorOnly(s: string, colors: seq<string>, reset: string) returns (out: string)
    ensures out == ColoredOnly(s, colors, reset)
  {
    var b := new Builder(s);
    InsertColors(b, colors);
    b.Insert(-1, reset);
    out := b.Result();
    ColorOnlyLayout(s, colors, reset);
  }

  /** For a non-empty string, `color_only` is `color` followed by one reset escape. */
  lemma ColorOnlyExtendsColor(s: string, colors: seq<string>, reset: string)
    requires s != []
    ensures ColoredOnly(s, colors, reset) == Colored(s, colors) + Escape([reset])
  {
  }

  /** For the empty string the reset joins the colours' escape, once, at its end unless already present. */
  lemma ColorOnlyEmpty(colors: seq<string>, reset: string)
    ensures ColoredOnly("", colors, reset)
         == Escape(if reset in colors then Dedup(colors) else Dedup(colors) + [reset])
  {
    assert (colors + [reset])[..|colors|] == colors;
  }
}
