/**
 * The POSIX escape-sequence builder: a string plus a table from offsets to
 * lists of SGR codes, rendered by splicing one escape sequence per stored
 * offset into the string.
 *
 * Codes are modelled as the strings the builder stores (`str(code)`).
 */
module PosixBuilder {
  import opened Text

  /** The escape sequence for a list of codes: ESC "[" codes ";"-joined "m". */
  function Escape(codelist: seq<string>): (r: string)
    ensures |r| >= 3 && r[0] == '\U{1B}' && r[1] == '[' && r[|r| - 1] == 'm'
    ensures r[2..|r| - 1] == Join(codelist, ";")
  {
    "\U{1B}[" + Join(codelist, ";") + "m"
  }

  /** Where a (possibly negative) insert index lands in a string of length `n`. */
  function Normalize(index: int, n: nat): (k: nat)
    ensures index >= 0 ==> k == index
    ensures index < 0 ==> k <= n
    decreases if index < 0 then -index else 0
  {
    if index >= 0 then index else Normalize(index + n + 1, n)
  }

  /** The code table after inserting `code` at (already normalised) offset `k`. */
  function Added(codes: map<nat, seq<string>>, k: nat, code: string): (r: map<nat, seq<string>>)
    ensures r.Keys == codes.Keys + {k}
    ensures forall j | j in codes && j != k :: r[j] == codes[j]
    ensures code in r[k]
    ensures k in codes ==> |codes[k]| <= |r[k]| && r[k][..|codes[k]|] == codes[k]
  {
    if k in codes then
      if code in codes[k] then codes else codes[k := codes[k] + [code]]
    else codes[k := [code]]
  }

  /** Every stored list is non-empty and holds each code at most once. */
  ghost predicate Distinct(l: seq<string>)
  {
    forall i, j | 0 <= i < j < |l| :: l[i] != l[j]
  }

  ghost predicate WellFormed(codes: map<nat, seq<string>>)
  {
    forall k | k in codes :: codes[k] != [] && Distinct(codes[k])
  }

  /** Inserting every code of every entry, entries and codes in order. */
  function AddedAll(codes: map<nat, seq<string>>, n: nat, entries: seq<(int, seq<string>)>): (r: map<nat, seq<string>>)
    ensures codes.Keys <= r.Keys
    decreases |entries|
  {
    if entries == [] then codes
    else AddedAll(AddedEach(codes, Normalize(entries[0].0, n), entries[0].1), n, entries[1..])
  }

  function AddedEach(codes: map<nat, seq<string>>, k: nat, cs: seq<string>): (r: map<nat, seq<string>>)
    ensures codes.Keys <= r.Keys
    ensures cs != [] ==> k in r
    decreases |cs|
  {
    if cs == [] then codes else AddedEach(Added(codes, k, cs[0]), k, cs[1..])
  }

  /** Python's `list.insert(i, x)` for a non-negative `i`. */
  function ListInsert(l: seq<string>, i: nat, x: string): (r: seq<string>)
    ensures |r| == |l| + 1
  {
    if i < |l| then l[..i] + [x] + l[i..] else l + [x]
  }

  /** `list(s)`: each character as a one-character string. */
  function Chars(s: string): (r: seq<string>)
    ensures |r| == |s|
    ensures forall i | 0 <= i < |s| :: r[i] == [s[i]]
  {
    if s == [] then [] else [[s[0]]] + Chars(s[1..])
  }

  ghost function Max(s: set<nat>): (m: nat)
    requires s != {}
    ensures m in s && forall k | k in s :: k <= m
  {
    var x :| x in s;
    if s == {x} then
      assert forall k | k in s :: k == x;
      x
    else
      var y := Max(s - {x});
      assert forall k | k in s :: k == x || k in s - {x};
      if x < y then y else x
  }

  /**
   * The splicing loop of `result`: the offsets of `keys` are taken in
   * descending order and each one's escape is inserted into the list.
   */
  ghost function Render(l: seq<string>, keys: set<nat>, codes: map<nat, seq<string>>): (r: seq<string>)
    requires keys <= codes.Keys
    ensures |r| == |l| + |keys|
    decreases keys
  {
    if keys == {} then l
    else
      var m := Max(keys);
      Render(ListInsert(l, m, Escape(codes[m])), keys - {m}, codes)
  }

  /** The escape stored at offset `k`, or nothing. */
  function EscapeAt(codes: map<nat, seq<string>>, k: nat): string
  {
    if k in codes then Escape(codes[k]) else ""
  }

  /**
   * Reference layout: the first `t` characters of `s`, each preceded by the
   * escape stored at its offset.
   */
  function Before(s: string, codes: map<nat, seq<string>>, t: nat): string
    requires t <= |s|
  {
    if t == 0 then "" else Before(s, codes, t - 1) + EscapeAt(codes, t - 1) + [s[t - 1]]
  }

  /** The whole rendered text: every character after its escape, then the escape at the end offset. */
  function Layout(s: string, codes: map<nat, seq<string>>): string
  {
    Before(s, codes, |s|) + EscapeAt(codes, |s|)
  }

  class Builder {
    var str: string
    var codes: map<nat, seq<string>>

    ghost predicate Valid()
      reads this
    {
      WellFormed(codes)
    }

    constructor (s: string)
      ensures str == s && codes == map[]
      ensures Valid()
    {
      str := s;
      codes := map[];
    }

    /** `insert`: a negative index counts from one past the end, so -1 is the end. */
    method Insert(index: int, code: string)
      requires Valid()
      modifies this
      ensures str == old(str)
      ensures codes == Added(old(codes), Normalize(index, |str|), code)
      ensures Valid()
    {
      var i := index;
      while i < 0
        invariant Normalize(i, |str|) == Normalize(index, |str|)
        decreases -i
      {
        i := |str| + 1 + i;
      }
      AddedWellFormed(codes, i, code);
      if i in codes {
        if code !in codes[i] {
          codes := codes[i := codes[i] + [code]];
        }
      } else {
        codes := codes[i := [code]];
      }
    }

    /** `update`: every code of every entry inserted in turn, in the table's iteration order. */
    method Update(entries: seq<(int, seq<string>)>)
      requires Valid()
      modifies this
      ensures str == old(str)
      ensures codes == AddedAll(old(codes), |str|, entries)
      ensures Valid()
    {
      var e := 0;
      while e < |entries|
        invariant e <= |entries| && str == old(str) && Valid()
        invariant AddedAll(old(codes), |str|, entries) == AddedAll(codes, |str|, entries[e..])
      {
        var i := entries[e].0;
        var cs := entries[e].1;
        ghost var before := codes;
        var c := 0;
        while c < |cs|
          invariant c <= |cs| && str == old(str) && Valid()
          invariant AddedEach(before, Normalize(i, |str|), cs) == AddedEach(codes, Normalize(i, |str|), cs[c..])
        {
          Insert(i, cs[c]);
          assert cs[c..][1..] == cs[c + 1..];
          c := c + 1;
        }
        assert entries[e..][1..] == entries[e + 1..];
        e := e + 1;
      }
    }

    /** `result`: the escapes spliced in, offsets taken from the highest down. */
    method Result() returns (out: string)
      ensures out == Concat(Render(Chars(str), codes.Keys, codes))
      ensures (forall k | k in codes :: k <= |str|) ==> out == Layout(str, codes)
    {
      var l := Chars(str);
      var remaining := codes.Keys;
      while remaining != {}
        invariant remaining <= codes.Keys
        invariant Render(Chars(str), codes.Keys, codes) == Render(l, remaining, codes)
        decreases remaining
      {
        ghost var m := Max(remaining);
        var i :| i in remaining && forall k | k in remaining :: k <= i;
        assert i == m;
        l := if i < |l| then l[..i] + [Escape(codes[i])] + l[i..] else l + [Escape(codes[i])];
        remaining := remaining - {i};
      }
      out := Concat(l);
      if forall k | k in codes :: k <= |str| {
        RenderLayout(str, codes);
      }
    }
  }

  lemma AddedWellFormed(codes: map<nat, seq<string>>, k: nat, code: string)
    requires WellFormed(codes)
    ensures WellFormed(Added(codes, k, code))
  {
    if k in codes && code !in codes[k] {
      var l := codes[k] + [code];
      forall i, j | 0 <= i < j < |l|
        ensures l[i] != l[j]
      {
        if j == |l| - 1 {
          assert l[i] in codes[k];
        }
      }
    }
  }

  /** A negative index lands where Python's modulo by `n + 1` puts it. */
  lemma {:induction false} NormalizeModulo(index: int, n: nat)
    requires index < 0
    ensures Normalize(index, n) == index % (n + 1)
    decreases -index
  {
    ModShift(index, n + 1);
    if index + n + 1 < 0 {
      NormalizeModulo(index + n + 1, n);
    } else {
      ModUnique(index + n + 1, n + 1, 0, index + n + 1);
    }
  }

  lemma ModUnique(x: int, d: int, q: int, r: int)
    requires d > 0 && 0 <= r < d && x == d * q + r
    ensures x % d == r
  {
    var q', r' := x / d, x % d;
    assert d * q' + r' == d * q + r;
    if q' > q {
      assert d * q' == d * q + d * (q' - q);
      MulAtLeast(d, q' - q);
    } else if q' < q {
      assert d * q == d * q' + d * (q - q');
      MulAtLeast(d, q - q');
    }
  }

  lemma {:induction false} MulAtLeast(d: nat, a: nat)
    requires a >= 1
    ensures d * a >= d
  {
    if a > 1 {
      MulAtLeast(d, a - 1);
      assert d * a == d * (a - 1) + d;
    }
  }

  lemma ModShift(a: int, d: int)
    requires d > 0
    ensures (a + d) % d == a % d
  {
    var q := a / d;
    assert a + d == d * (q + 1) + a % d;
    ModUnique(a + d, d, q + 1, a % d);
  }

  /** -1 is the end of the string, and -(n+1) is its start. */
  lemma EndAndStart(n: nat)
    ensures Normalize(-1, n) == n
    ensures Normalize(-(n + 1), n) == 0
  {
  }

  lemma {:induction false} ConcatChars(s: string)
    ensures Concat(Chars(s)) == s
  {
    if s != [] {
      ConcatChars(s[1..]);
    }
  }

  /** Without codes in (m, t), the characters of s[m..t] appear bare after the escape at m. */
  lemma {:induction false} BeforeGap(s: string, codes: map<nat, seq<string>>, m: nat, t: nat)
    requires m < t <= |s|
    requires forall k | k in codes :: k <= m || t <= k
    ensures Before(s, codes, t) == Before(s, codes, m) + EscapeAt(codes, m) + s[m..t]
  {
    if t - 1 > m {
      assert t - 1 !in codes;
      BeforeGap(s, codes, m, t - 1);
      SliceSnoc(s, m, t);
      SnocBare(Before(s, codes, t), Before(s, codes, t - 1), EscapeAt(codes, t - 1), s[t - 1],
               Before(s, codes, m) + EscapeAt(codes, m), s[m..t - 1], s[m..t]);
    } else {
      assert s[m..t] == [s[m]];
    }
  }

  lemma SliceSnoc(s: string, m: nat, t: nat)
    requires m < t <= |s|
    ensures s[m..t] == s[m..t - 1] + [s[t - 1]]
  {
  }

  /** A character appended with no escape in front of it extends the bare tail. */
  lemma SnocBare(whole: string, prev: string, e: string, c: char, head: string, tail: string, tail': string)
    requires whole == prev + e + [c] && e == [] && prev == head + tail && tail' == tail + [c]
    ensures whole == head + tail'
  {
  }

  /** Only offsets below t matter to Before(s, codes, t). */
  lemma {:induction false} BeforeAgrees(s: string, a: map<nat, seq<string>>, b: map<nat, seq<string>>, t: nat)
    requires t <= |s|
    requires forall k: nat | k < t :: EscapeAt(a, k) == EscapeAt(b, k)
    ensures Before(s, a, t) == Before(s, b, t)
  {
    if t > 0 {
      BeforeAgrees(s, a, b, t - 1);
    }
  }

  function Restrict(codes: map<nat, seq<string>>, keys: set<nat>): (r: map<nat, seq<string>>)
    requires keys <= codes.Keys
    ensures r.Keys == keys && forall k | k in keys :: r[k] == codes[k]
  {
    map k | k in keys :: codes[k]
  }

  lemma InsertShape(s: string, t: nat, rest: seq<string>, m: nat, e: string)
    requires m <= t <= |s|
    ensures ListInsert(Chars(s[..t]) + rest, m, e) == Chars(s[..m]) + ([e] + Chars(s[m..t]) + rest)
  {
    var l := Chars(s[..t]) + rest;
    var r := Chars(s[..m]) + ([e] + Chars(s[m..t]) + rest);
    assert |ListInsert(l, m, e)| == |r|;
    forall i | 0 <= i < |r|
      ensures ListInsert(l, m, e)[i] == r[i]
    {
    }
  }

  lemma RestConcat(s: string, m: nat, t: nat, e: string, rest: seq<string>)
    requires m <= t <= |s|
    ensures Concat([e] + Chars(s[m..t]) + rest) == e + s[m..t] + Concat(rest)
  {
    assert [e] + Chars(s[m..t]) + rest == [e] + (Chars(s[m..t]) + rest);
    ConcatAppend([e], Chars(s[m..t]) + rest);
    ConcatAppend(Chars(s[m..t]), rest);
    ConcatChars(s[m..t]);
  }

  /** Taking the highest offset m out of `keys` moves its escape and s[m..t] into the tail. */
  lemma BeforeStep(s: string, codes: map<nat, seq<string>>, keys: set<nat>, m: nat, t: nat)
    requires keys <= codes.Keys && m in keys && m <= t <= |s|
    requires forall k | k in keys :: k <= m
    ensures Before(s, Restrict(codes, keys - {m}), m) + EscapeAt(Restrict(codes, keys - {m}), m)
              + Escape(codes[m]) + s[m..t]
         == Before(s, Restrict(codes, keys), t) + EscapeAt(Restrict(codes, keys), t)
  {
    var sub := Restrict(codes, keys);
    var sub' := Restrict(codes, keys - {m});
    assert EscapeAt(sub', m) == "";
    assert EscapeAt(sub, m) == Escape(codes[m]);
    BeforeAgrees(s, sub', sub, m);
    if m < t {
      BeforeGap(s, sub, m, t);
      assert EscapeAt(sub, t) == "";
      StepAlgebra(Before(s, sub, m), EscapeAt(sub', m), Escape(codes[m]), s[m..t], Before(s, sub, t), EscapeAt(sub, t));
    } else {
      assert s[m..t] == "";
      LastAlgebra(Before(s, sub, m), EscapeAt(sub', m), Escape(codes[m]), s[m..t]);
    }
  }

  lemma StepAlgebra(x: string, e0: string, e: string, gap: string, body: string, e1: string)
    requires e0 == [] && e1 == [] && body == x + e + gap
    ensures x + e0 + e + gap == body + e1
  {
  }

  lemma LastAlgebra(x: string, e0: string, e: string, gap: string)
    requires e0 == [] && gap == []
    ensures x + e0 + e + gap == x + e
  {
  }

  /** One round of the loop: the highest offset's escape goes in front of s[m..]. */
  lemma RenderUnfold(s: string, codes: map<nat, seq<string>>, keys: set<nat>, t: nat, rest: seq<string>)
    requires keys <= codes.Keys && keys != {} && Max(keys) <= t <= |s|
    ensures Render(Chars(s[..t]) + rest, keys, codes)
         == Render(Chars(s[..Max(keys)]) + ([Escape(codes[Max(keys)])] + Chars(s[Max(keys)..t]) + rest), keys - {Max(keys)}, codes)
  {
    InsertShape(s, t, rest, Max(keys), Escape(codes[Max(keys)]));
  }

  lemma RenderNothing(s: string, codes: map<nat, seq<string>>, t: nat, rest: seq<string>)
    requires t <= |s|
    ensures Concat(Render(Chars(s[..t]) + rest, {}, codes))
         == Before(s, Restrict(codes, {}), t) + EscapeAt(Restrict(codes, {}), t) + Concat(rest)
  {
    ConcatAppend(Chars(s[..t]), rest);
    ConcatChars(s[..t]);
    BeforeEmpty(s, Restrict(codes, {}), t);
  }

  lemma RenderCombine(s: string, codes: map<nat, seq<string>>, keys: set<nat>, t: nat, rest: seq<string>,
                      m: nat, rest': seq<string>)
    requires keys <= codes.Keys && keys != {} && m == Max(keys) && m <= t <= |s|
    requires rest' == [Escape(codes[m])] + Chars(s[m..t]) + rest
    requires Concat(Render(Chars(s[..m]) + rest', keys - {m}, codes))
          == Before(s, Restrict(codes, keys - {m}), m) + EscapeAt(Restrict(codes, keys - {m}), m) + Concat(rest')
    ensures Concat(Render(Chars(s[..t]) + rest, keys, codes))
         == Before(s, Restrict(codes, keys), t) + EscapeAt(Restrict(codes, keys), t) + Concat(rest)
  {
    var e := Escape(codes[m]);
    var b' := Before(s, Restrict(codes, keys - {m}), m) + EscapeAt(Restrict(codes, keys - {m}), m);
    var b := Before(s, Restrict(codes, keys), t) + EscapeAt(Restrict(codes, keys), t);
    var c := Concat(rest);
    RenderUnfold(s, codes, keys, t, rest);
    RestConcat(s, m, t, e, rest);
    BeforeStep(s, codes, keys, m, t);
    Chain(Concat(Render(Chars(s[..t]) + rest, keys, codes)), b', e, s[m..t], c, b, Concat(rest'));
  }

  lemma Chain(l: string, b': string, e: string, mid: string, c: string, b: string, r: string)
    requires l == b' + r && r == e + mid + c && b' + e + mid == b
    ensures l == b + c
  {
  }

  /**
   * While the offsets still to splice are at most t and the first t list
   * items are the characters of s, the loop yields the reference layout.
   */
  lemma {:induction false} RenderPrefix(s: string, codes: map<nat, seq<string>>, keys: set<nat>, t: nat, rest: seq<string>)
    requires keys <= codes.Keys && t <= |s|
    requires forall k | k in keys :: k <= t
    ensures Concat(Render(Chars(s[..t]) + rest, keys, codes))
         == Before(s, Restrict(codes, keys), t) + EscapeAt(Restrict(codes, keys), t) + Concat(rest)
    decreases keys
  {
    if keys == {} {
      RenderNothing(s, codes, t, rest);
    } else {
      var m := Max(keys);
      var rest' := [Escape(codes[m])] + Chars(s[m..t]) + rest;
      RenderPrefix(s, codes, keys - {m}, m, rest');
      RenderCombine(s, codes, keys, t, rest, m, rest');
    }
  }

  lemma {:induction false} BeforeEmpty(s: string, codes: map<nat, seq<string>>, t: nat)
    requires t <= |s| && codes == map[]
    ensures Before(s, codes, t) == s[..t]
  {
    if t > 0 {
      BeforeEmpty(s, codes, t - 1);
      assert s[..t] == s[..t - 1] + [s[t - 1]];
    }
  }

  /** With every offset within the string, rendering gives the reference layout. */
  lemma RenderLayout(s: string, codes: map<nat, seq<string>>)
    requires forall k | k in codes :: k <= |s|
    ensures Concat(Render(Chars(s), codes.Keys, codes)) == Layout(s, codes)
  {
    assert s[..|s|] == s;
    assert Concat([]) == [];
    assert Chars(s) + [] == Chars(s);
    RenderPrefix(s, codes, codes.Keys, |s|, []);
    assert Restrict(codes, codes.Keys) == codes;
  }

  /** With no codes stored, the layout is the string itself. */
  lemma NoCodes(s: string)
    ensures Layout(s, map[]) == s
  {
    BeforeEmpty(s, map[], |s|);
    assert s[..|s|] == s;
  }

  /** A single stored offset 0 renders as one escape in front of the whole string. */
  lemma LayoutAtStart(s: string, l: seq<string>)
    ensures Layout(s, map[0 := l]) == Escape(l) + s
  {
    var codes := map[0 := l];
    if s != [] {
      LayoutFramed(s, codes);
      assert EscapeAt(codes, |s|) == "";
      assert EscapeAt(codes, 0) == Escape(l);
      NothingBehind(Escape(l), s, EscapeAt(codes, |s|));
    }
  }

  /** Offsets 0 and |s| of a non-empty string render as an escape on either side of it. */
  lemma LayoutEnds(s: string, a: seq<string>, b: seq<string>)
    requires s != []
    ensures Layout(s, map[0 := a, |s| := b]) == Escape(a) + s + Escape(b)
  {
    var codes := map[0 := a, |s| := b];
    LayoutFramed(s, codes);
    assert EscapeAt(codes, 0) == Escape(a);
  }

  /** A single stored offset |s| of a non-empty string renders as one escape after it. */
  lemma LayoutAtEnd(s: string, l: seq<string>)
    requires s != []
    ensures Layout(s, map[|s| := l]) == s + Escape(l)
  {
    var codes := map[|s| := l];
    LayoutFramed(s, codes);
    assert EscapeAt(codes, 0) == "";
    assert EscapeAt(codes, |s|) == Escape(l);
    NothingInFront(EscapeAt(codes, 0), s, Escape(l));
  }

  lemma NothingInFront(e: string, s: string, e1: string)
    requires e == []
    ensures e + s + e1 == s + e1
  {
  }

  lemma NothingBehind(e: string, s: string, e1: string)
    requires e1 == []
    ensures e + s + e1 == e + s
  {
  }

  /** With escapes only at the two ends, the text sits between them unchanged. */
  lemma LayoutFramed(s: string, codes: map<nat, seq<string>>)
    requires s != [] && forall k | k in codes :: k == 0 || k == |s|
    ensures Layout(s, codes) == EscapeAt(codes, 0) + s + EscapeAt(codes, |s|)
  {
    BeforeGap(s, codes, 0, |s|);
    assert s[0..|s|] == s;
    assert Before(s, codes, 0) == "";
    Framed(Layout(s, codes), Before(s, codes, |s|), Before(s, codes, 0), EscapeAt(codes, 0), s, EscapeAt(codes, |s|));
  }

  lemma Framed(whole: string, body: string, start: string, e0: string, mid: string, e1: string)
    requires whole == body + e1 && body == start + e0 + mid && start == []
    ensures whole == e0 + mid + e1
  {
  }

  lemma AddedKeeps(codes: map<nat, seq<string>>, k: nat, code: string, j: nat, c: string)
    requires j in codes && c in codes[j]
    ensures j in Added(codes, k, code) && c in Added(codes, k, code)[j]
  {
    if j == k {
      var r := Added(codes, k, code);
      assert r[k][..|codes[k]|] == codes[k];
      var i :| 0 <= i < |codes[k]| && codes[k][i] == c;
      assert r[k][i] == c;
    }
  }

  lemma {:induction false} AddedEachKeeps(codes: map<nat, seq<string>>, k: nat, cs: seq<string>, j: nat, c: string)
    requires j in codes && c in codes[j]
    ensures j in AddedEach(codes, k, cs) && c in AddedEach(codes, k, cs)[j]
    decreases |cs|
  {
    if cs != [] {
      AddedKeeps(codes, k, cs[0], j, c);
      AddedEachKeeps(Added(codes, k, cs[0]), k, cs[1..], j, c);
    }
  }

  lemma {:induction false} AddedEachHas(codes: map<nat, seq<string>>, k: nat, cs: seq<string>, c: string)
    requires c in cs
    ensures k in AddedEach(codes, k, cs) && c in AddedEach(codes, k, cs)[k]
    decreases |cs|
  {
    if cs[0] == c {
      AddedEachKeeps(Added(codes, k, c), k, cs[1..], k, c);
    } else {
      AddedEachHas(Added(codes, k, cs[0]), k, cs[1..], c);
    }
  }

  lemma {:induction false} AddedAllKeeps(codes: map<nat, seq<string>>, n: nat, entries: seq<(int, seq<string>)>, j: nat, c: string)
    requires j in codes && c in codes[j]
    ensures j in AddedAll(codes, n, entries) && c in AddedAll(codes, n, entries)[j]
    decreases |entries|
  {
    if entries != [] {
      var next := AddedEach(codes, Normalize(entries[0].0, n), entries[0].1);
      AddedEachKeeps(codes, Normalize(entries[0].0, n), entries[0].1, j, c);
      AddedAllKeeps(next, n, entries[1..], j, c);
    }
  }

  /** After `update`, every code of every entry is stored at its entry's offset. */
  lemma {:induction false} UpdateStoresEveryCode(codes: map<nat, seq<string>>, n: nat, entries: seq<(int, seq<string>)>, e: nat, c: string)
    requires e < |entries| && c in entries[e].1
    ensures Normalize(entries[e].0, n) in AddedAll(codes, n, entries)
    ensures c in AddedAll(codes, n, entries)[Normalize(entries[e].0, n)]
    decreases e
  {
    var next := AddedEach(codes, Normalize(entries[0].0, n), entries[0].1);
    if e == 0 {
      AddedEachHas(codes, Normalize(entries[0].0, n), entries[0].1, c);
      AddedAllKeeps(next, n, entries[1..], Normalize(entries[0].0, n), c);
    } else {
      assert entries[1..][e - 1] == entries[e];
      UpdateStoresEveryCode(next, n, entries[1..], e - 1, c);
    }
  }
}
