/** Writing a forest back out as item-list markers and reading it again.

    A list is written `<L[n]` followed by its children, each after a space, and `>`; a
    leaf `<A[n] 'text'>`, with `n` the number of children or characters. Reading such text with `Tokenize`
    and `Build` gives the forest back, so the tokenizer and the tree builder agree on
    what a well-nested body means. */
module RoundTrip {
  import opened Text
  import opened Tokenizer
  import opened Trees
  import opened TreeBuilder

  /** Every leaf of the tree can be written between quotes inside a value marker. */
  predicate RenderableTree(t: Tree)
  {
    match t
    case Leaf(p) => Renderable(p)
    case List(cs) => forall i :: 0 <= i < |cs| ==> RenderableTree(cs[i])
  }

  predicate RenderableForest(f: seq<Tree>)
  {
    forall i :: 0 <= i < |f| ==> RenderableTree(f[i])
  }

  /** An opening list marker with the declared count `d`. */
  function ListOpen(d: string): string
  {
    "<L[" + d + "]"
  }

  /** A string value marker with the declared length `d`. */
  function ValueTag(d: string, p: string): string
  {
    "<A[" + d + "] '" + p + "'>"
  }

  function ListMarker(n: nat): string
  {
    ListOpen(NatToDecimal(n))
  }

  function ValueMarker(p: string): string
  {
    ValueTag(NatToDecimal(|p|), p)
  }

  function RenderTree(t: Tree): string
  {
    match t
    case Leaf(p) => ValueMarker(p)
    case List(cs) => ListMarker(|cs|) + RenderForest(cs) + ">"
  }

  /** The children of a list, each preceded by one space. */
  function RenderForest(f: seq<Tree>): string
  {
    if f == [] then "" else (" " + RenderTree(f[0])) + RenderForest(f[1..])
  }

  /** An opening list marker is read as exactly one `ListStart`, whatever count it
      declares. */
  lemma ListOpenTokens(d: string, rest: string)
    requires IsDigitString(d)
    ensures Tokenize(ListOpen(d) + rest) == [ListStart] + Tokenize(rest)
  {
    var s := ListOpen(d) + rest;
    assert s[0] == '<' && s[1] == 'L' && s[2] == '[';
    assert forall k :: 3 <= k < 3 + |d| ==> s[k] == d[k - 3];
    assert s[3 + |d|] == ']';
    SkipWhileExact(s, 1, 1, IsSpace);
    SkipWhileExact(s, 2, 2, IsSpace);
    SkipWhileExact(s, 3, 3 + |d|, IsDigit);
    assert ListStartLen(s) == Some(|ListOpen(d)|);
    assert s[|ListOpen(d)|..] == rest;
    TokenizeListStart(s, |ListOpen(d)|);
  }

  /** The lazy `.*?>` stops at the first `>`. */
  lemma {:induction false} CloseOnLineExact(s: string, e: nat, k: nat)
    requires e <= k < |s| && s[k] == '>'
    requires forall m :: e <= m < k ==> s[m] != '>' && s[m] != '\n'
    ensures CloseOnLine(s, e) == Some(k)
    decreases k - e
  {
    if e < k {
      CloseOnLineExact(s, e + 1, k);
    }
  }

  /** A body starting `<A[digits] '` and running to a `>` with no newline before it opens
      with a value marker ending at that `>`. */
  lemma ValueMarkerLen(s: string, d: nat, q: nat)
    requires 6 + d <= q < |s| && d > 0
    requires s[0] == '<' && s[1] == 'A' && s[2] == '['
    requires forall k :: 3 <= k < 3 + d ==> IsDigit(s[k])
    requires s[3 + d] == ']' && s[4 + d] == ' ' && s[5 + d] == '\''
    requires forall k :: 5 + d <= k < q ==> s[k] != '>' && s[k] != '\n'
    requires s[q] == '>'
    ensures ListStartLen(s).None?
    ensures ValueTagLen(s) == Some(q + 1)
  {
    NotListOpen(s);
    ValueHeadAt(s, d);
    CloseOnLineExact(s, 5 + d, q);
  }

  /** A marker whose letter is not `L` opens no list. */
  lemma NotListOpen(s: string)
    requires |s| > 1 && s[0] == '<' && s[1] == 'A'
    ensures ListStartLen(s).None?
  {
    SkipWhileExact(s, 1, 1, IsSpace);
  }

  /** The head `<A[digits] ` of such a marker ends after its one space. */
  lemma ValueHeadAt(s: string, d: nat)
    requires 6 + d <= |s| && d > 0
    requires s[0] == '<' && s[1] == 'A' && s[2] == '['
    requires forall k :: 3 <= k < 3 + d ==> IsDigit(s[k])
    requires s[3 + d] == ']' && s[4 + d] == ' ' && s[5 + d] == '\''
    ensures ValueHeadEnd(s) == Some(5 + d)
  {
    SkipWhileExact(s, 1, 1, IsSpace);
    SkipWhileExact(s, 2, 2, IsDigit);
    CountEndAt(s, d);
  }

  lemma CountEndAt(s: string, d: nat)
    requires 6 + d <= |s| && d > 0
    requires s[2] == '[' && forall k :: 3 <= k < 3 + d ==> IsDigit(s[k])
    requires s[3 + d] == ']' && s[4 + d] == ' ' && s[5 + d] == '\''
    ensures CountEnd(s, 2) == Some(5 + d)
  {
    SkipWhileExact(s, 2, 2, IsSpace);
    SkipWhileExact(s, 3, 3 + d, IsDigit);
    SkipWhileExact(s, 4 + d, 5 + d, IsSpace);
  }

  /** A value marker is read as exactly one `Value` carrying the quoted text, whatever
      length it declares. */
  lemma ValueTagTokens(d: string, p: string, rest: string)
    requires IsDigitString(d) && Renderable(p)
    ensures Tokenize(ValueTag(d, p) + rest) == [Value(p)] + Tokenize(rest)
  {
    var h := "<A[" + d + "]";
    var w := ValueTag(d, p);
    var s := w + rest;
    var n := |w|;
    assert w == h + " " + "'" + p + "'" + "" + ">";
    forall k | 0 <= k < |h|
      ensures h[k] != '\'' && h[k] != '>'
    {
      assert k < 3 || k == |h| - 1 || h[k] == d[k - 3];
    }
    QuotedTagPayload(h, " ", p, "");
    ValueTagFacts(d, p, rest);
    ValueMarkerLen(s, |d|, n - 1);
    assert s[..n] == w;
    assert s[n..] == rest;
    TokenizeValue(s, n);
  }

  lemma ValueTagFacts(d: string, p: string, rest: string)
    requires IsDigitString(d) && Renderable(p)
    ensures var s := ValueTag(d, p) + rest;
            var n := |ValueTag(d, p)|;
            && n == 8 + |d| + |p| && n <= |s|
            && s[0] == '<' && s[1] == 'A' && s[2] == '['
            && (forall k :: 3 <= k < 3 + |d| ==> IsDigit(s[k]))
            && s[3 + |d|] == ']' && s[4 + |d|] == ' ' && s[5 + |d|] == '\''
            && (forall k :: 5 + |d| <= k < n - 1 ==> s[k] != '>' && s[k] != '\n')
            && s[n - 1] == '>'
  {
    var s := ValueTag(d, p) + rest;
    var n := |ValueTag(d, p)|;
    assert forall k :: 3 <= k < 3 + |d| ==> s[k] == d[k - 3];
    assert forall k :: 6 + |d| <= k < 6 + |d| + |p| ==> s[k] == p[k - 6 - |d|];
    assert s[6 + |d| + |p|] == '\'';
  }

  /** Reading the text of a tree followed by more text yields the tree's tokens first. */
  lemma {:induction false} RenderTreeTokens(t: Tree, rest: string)
    requires RenderableTree(t)
    ensures Tokenize(RenderTree(t) + rest) == TreeTokens(t) + Tokenize(rest)
    decreases t, 1
  {
    match t
    case Leaf(p) =>
      ValueTagTokens(NatToDecimal(|p|), p, rest);
    case List(cs) =>
      assert RenderableForest(cs);
      RenderForestTokens(cs, ">" + rest);
      ListRenderTokens(cs, rest);
  }

  lemma {:induction false} RenderForestTokens(f: seq<Tree>, rest: string)
    requires RenderableForest(f)
    ensures Tokenize(RenderForest(f) + rest) == ForestTokens(f) + Tokenize(rest)
    decreases f, 0
  {
    if f == [] {
      assert RenderForest(f) + rest == rest;
    } else {
      ForestTailRenderable(f);
      RenderTreeTokens(f[0], RenderForest(f[1..]) + rest);
      SpacedTreeTokens(f[0], RenderForest(f[1..]) + rest);
      RenderForestTokens(f[1..], rest);
      ForestConsTokens(f, rest);
    }
  }

  lemma ForestTailRenderable(f: seq<Tree>)
    requires f != [] && RenderableForest(f)
    ensures RenderableTree(f[0]) && RenderableForest(f[1..])
  {
    forall i | 0 <= i < |f[1..]| ensures RenderableTree(f[1..][i]) {
      assert f[1..][i] == f[i + 1];
    }
  }

  /** The step of `RenderTreeTokens` for a list, given what its children's text reads as. */
  lemma ListRenderTokens(cs: seq<Tree>, rest: string)
    requires Tokenize(RenderForest(cs) + (">" + rest)) == ForestTokens(cs) + Tokenize(">" + rest)
    ensures Tokenize(RenderTree(List(cs)) + rest) == TreeTokens(List(cs)) + Tokenize(rest)
  {
    var closing := ">" + rest;
    ListOpenTokens(NatToDecimal(|cs|), RenderForest(cs) + closing);
    assert closing[1..] == rest;
    TokenizeListEnd(closing);
    ReadsEnclosed(Tokenize, ListMarker(|cs|), RenderForest(cs), ">", rest,
                  [ListStart], ForestTokens(cs), [ListEnd]);
  }

  /** Three pieces read one after the other. */
  lemma ReadsEnclosed<T>(read: string -> seq<T>, a: string, b: string, c: string, rest: string,
                         ta: seq<T>, tb: seq<T>, tc: seq<T>)
    requires read(a + (b + (c + rest))) == ta + read(b + (c + rest))
    requires read(b + (c + rest)) == tb + read(c + rest)
    requires read(c + rest) == tc + read(rest)
    ensures read(((a + b) + c) + rest) == ((ta + tb) + tc) + read(rest)
  {
    assert ((a + b) + c) + rest == a + (b + (c + rest));
  }

  /** The space before a tree is skipped. */
  lemma SpacedTreeTokens(t: Tree, rest: string)
    requires Tokenize(RenderTree(t) + rest) == TreeTokens(t) + Tokenize(rest)
    ensures Tokenize((" " + RenderTree(t)) + rest) == TreeTokens(t) + Tokenize(rest)
  {
    AppendAssoc(" ", RenderTree(t), rest);
    TokenizeSkipsSpaces(" ", RenderTree(t) + rest);
  }

  /** The step of `RenderForestTokens` for a non-empty forest, given what its parts read as. */
  lemma ForestConsTokens(f: seq<Tree>, rest: string)
    requires f != []
    requires Tokenize((" " + RenderTree(f[0])) + (RenderForest(f[1..]) + rest))
             == TreeTokens(f[0]) + Tokenize(RenderForest(f[1..]) + rest)
    requires Tokenize(RenderForest(f[1..]) + rest) == ForestTokens(f[1..]) + Tokenize(rest)
    ensures Tokenize(RenderForest(f) + rest) == ForestTokens(f) + Tokenize(rest)
  {
    ReadsInSequence(Tokenize, " " + RenderTree(f[0]), RenderForest(f[1..]), rest,
                    TreeTokens(f[0]), ForestTokens(f[1..]));
  }

  /** If `a` reads as `ta` before anything and `b` as `tb`, then `a + b` reads as `ta + tb`. */
  lemma ReadsInSequence<T>(read: string -> seq<T>, a: string, b: string, rest: string,
                           ta: seq<T>, tb: seq<T>)
    requires read(a + (b + rest)) == ta + read(b + rest)
    requires read(b + rest) == tb + read(rest)
    ensures read((a + b) + rest) == (ta + tb) + read(rest)
  {
    assert (a + b) + rest == a + (b + rest);
  }

  /** Writing a forest out and reading it back gives the same forest. */
  lemma RenderParse(f: seq<Tree>)
    requires RenderableForest(f)
    ensures Tokenize(RenderForest(f)) == ForestTokens(f)
    ensures Build(Tokenize(RenderForest(f))) == f
  {
    RenderForestTokens(f, "");
    assert RenderForest(f) + "" == RenderForest(f);
    assert Tokenize("") == [];
    assert ForestTokens(f) + [] == ForestTokens(f);
    BuildForestTokens(f);
  }

  /** The text of one tree is read back as the forest holding just that tree. */
  lemma RenderTreeParse(t: Tree)
    requires RenderableTree(t)
    ensures Build(Tokenize(RenderTree(t))) == [t]
  {
    RenderTreeTokens(t, "");
    assert RenderTree(t) + "" == RenderTree(t);
    assert Tokenize("") == [];
    assert ForestTokens([t]) == TreeTokens(t) + ForestTokens([]);
    assert TreeTokens(t) + [] == TreeTokens(t);
    BuildForestTokens([t]);
  }

  /** The outer part `<L[a] <A[b] 'p'>` of a `PairBody`, before the nested list. */
  lemma PairBodyTokens(a: string, b: string, p: string, x6: string, s: string, ts: seq<Token>)
    requires IsDigitString(a) && IsDigitString(b) && Renderable(p)
    requires Tokenize(x6) == ts
    requires s == ListOpen(a) + (" " + (ValueTag(b, p) + x6))
    ensures Tokenize(s) == [ListStart, Value(p)] + ts
  {
    var x8 := " " + (ValueTag(b, p) + x6);
    SpacedValueTag(b, p, x6, ts);
    ListOpenTokens(a, x8);
    TwoTokens(p, ts, Tokenize(s));
  }

  lemma TwoTokens(p: string, ts: seq<Token>, r: seq<Token>)
    requires r == [ListStart] + ([Value(p)] + ts)
    ensures r == [ListStart, Value(p)] + ts
  {
  }

  /** The nested part ` <L[c] <A[e] 'q'>>>` of that shape. */
  lemma NestedValueTokens(c: string, e: string, q: string, x2: string, x6: string)
    requires IsDigitString(c) && IsDigitString(e) && Renderable(q)
    requires Tokenize(x2) == [ListEnd, ListEnd]
    requires x6 == " " + (ListOpen(c) + (" " + (ValueTag(e, q) + x2)))
    ensures Tokenize(x6) == [ListStart, Value(q), ListEnd, ListEnd]
  {
    var x4 := " " + (ValueTag(e, q) + x2);
    SpacedValueTag(e, q, x2, [ListEnd, ListEnd]);
    SpacedListOpen(c, x4, [Value(q), ListEnd, ListEnd]);
    FourTokens(q, Tokenize(x6));
  }

  lemma TwoCloses(x: string)
    requires x == ">>"
    ensures Tokenize(x) == [ListEnd, ListEnd]
  {
    TokenizeListEnd(x);
    TokenizeListEnd(x[1..]);
    assert x[1..][1..] == [];
  }

  lemma SpacedListOpen(d: string, x: string, ts: seq<Token>)
    requires IsDigitString(d) && Tokenize(x) == ts
    ensures Tokenize(" " + (ListOpen(d) + x)) == [ListStart] + ts
  {
    ListOpenTokens(d, x);
    TokenizeSkipsSpaces(" ", ListOpen(d) + x);
  }

  lemma SpacedValueTag(d: string, p: string, x: string, ts: seq<Token>)
    requires IsDigitString(d) && Renderable(p) && Tokenize(x) == ts
    ensures Tokenize(" " + (ValueTag(d, p) + x)) == [Value(p)] + ts
  {
    ValueTagTokens(d, p, x);
    TokenizeSkipsSpaces(" ", ValueTag(d, p) + x);
  }

  /** A body of the shape `<L[a] <A[b] 'p'> <L[c] <A[e] 'q'>>>`: a list holding a value
      and a nested list that holds one more value. */
  function PairBody(a: string, b: string, p: string, c: string, e: string, q: string): string
  {
    ListOpen(a) + (" " + (ValueTag(b, p) + (" " + (ListOpen(c) + (" " + (ValueTag(e, q) + ">>"))))))
  }

  /** The sample S6F11 body of the event-only scenario is such a body. */
  lemma SampleBodyShape()
    ensures PairBody("2", "1", "5", "1", "1", "OK") == "<L[2] <A[1] '5'> <L[1] <A[1] 'OK'>>>"
  {
  }

  /** Such a body reads as one list holding the leaf `p` and a list holding the leaf `q`.
      The declared counts are not checked against the contents, so in the sample
      `<A[1] 'OK'>` still carries `OK`. */
  lemma PairBodyParse(a: string, b: string, p: string, c: string, e: string, q: string)
    requires IsDigitString(a) && IsDigitString(b) && IsDigitString(c) && IsDigitString(e)
    requires Renderable(p) && Renderable(q)
    ensures Tokenize(PairBody(a, b, p, c, e, q))
            == [ListStart, Value(p), ListStart, Value(q), ListEnd, ListEnd]
    ensures Build(Tokenize(PairBody(a, b, p, c, e, q))) == [List([Leaf(p), List([Leaf(q)])])]
  {
    PairBodyReads(a, b, p, c, e, q);
    PairTreeBuild(p, q);
  }

  lemma PairBodyReads(a: string, b: string, p: string, c: string, e: string, q: string)
    requires IsDigitString(a) && IsDigitString(b) && IsDigitString(c) && IsDigitString(e)
    requires Renderable(p) && Renderable(q)
    ensures Tokenize(PairBody(a, b, p, c, e, q))
            == [ListStart, Value(p), ListStart, Value(q), ListEnd, ListEnd]
  {
    TwoCloses(">>");
    var x6 := " " + (ListOpen(c) + (" " + (ValueTag(e, q) + ">>")));
    NestedValueTokens(c, e, q, ">>", x6);
    PairBodyTokens(a, b, p, x6, PairBody(a, b, p, c, e, q), [ListStart, Value(q), ListEnd, ListEnd]);
    SixTokens(p, q, Tokenize(PairBody(a, b, p, c, e, q)));
  }

  /** The token list of `PairBody`, regrouped away from the text it was read from. */
  lemma SixTokens(p: string, q: string, r: seq<Token>)
    requires r == [ListStart, Value(p)] + [ListStart, Value(q), ListEnd, ListEnd]
    ensures r == [ListStart, Value(p), ListStart, Value(q), ListEnd, ListEnd]
  {
  }

  lemma FourTokens(q: string, r: seq<Token>)
    requires r == [ListStart] + ([Value(q)] + [ListEnd, ListEnd])
    ensures r == [ListStart, Value(q), ListEnd, ListEnd]
  {
  }

  lemma PairTreeBuild(p: string, q: string)
    ensures Build([ListStart, Value(p), ListStart, Value(q), ListEnd, ListEnd])
            == [List([Leaf(p), List([Leaf(q)])])]
  {
    var inner := List([Leaf(q)]);
    var t := List([Leaf(p), inner]);
    SingleForestTokens(Leaf(q));
    assert TreeTokens(inner) == [ListStart, Value(q), ListEnd];
    SingleForestTokens(inner);
    assert [Leaf(p), inner][1..] == [inner];
    assert ForestTokens([Leaf(p), inner]) == [Value(p), ListStart, Value(q), ListEnd];
    SingleForestTokens(t);
    assert TreeTokens(t) == [ListStart] + [Value(p), ListStart, Value(q), ListEnd] + [ListEnd];
    assert ForestTokens([t]) == [ListStart, Value(p), ListStart, Value(q), ListEnd, ListEnd];
    BuildForestTokens([t]);
  }

  lemma SingleForestTokens(t: Tree)
    ensures ForestTokens([t]) == TreeTokens(t)
  {
    assert [t][1..] == [];
    assert TreeTokens(t) + [] == TreeTokens(t);
  }

  // ----- every forest the parser builds can be written out -----

  predicate RenderableStack(st: Stack)
  {
    forall i :: 0 <= i < |st| ==> RenderableForest(st[i])
  }

  lemma AddToTopRenderable(st: Stack, t: Tree)
    requires |st| > 0 && RenderableStack(st) && RenderableTree(t)
    ensures RenderableStack(AddToTop(st, t))
  {
    var r := AddToTop(st, t);
    forall i | 0 <= i < |r| ensures RenderableForest(r[i]) {
      if i < |st| - 1 {
        assert r[i] == st[i];
      } else {
        assert r[i] == st[i] + [t];
      }
    }
  }

  lemma {:induction false} RunRenderable(st: Stack, toks: seq<Token>)
    requires |st| > 0 && RenderableStack(st)
    requires forall k :: 0 <= k < |toks| && toks[k].Value? ==> Renderable(toks[k].payload)
    ensures RenderableStack(Run(st, toks))
    decreases |toks|
  {
    if toks != [] {
      var r := Step(st, toks[0]);
      match toks[0] {
        case ListStart =>
          assert r == st + [[]];
        case ListEnd =>
          if |st| > 1 {
            var inner := st[..|st| - 1];
            assert RenderableTree(List(Top(st)));
            AddToTopRenderable(inner, List(Top(st)));
          }
        case Value(p) =>
          assert Renderable(toks[0].payload);
          AddToTopRenderable(st, Leaf(p));
      }
      RunRenderable(r, toks[1..]);
    }
  }

  lemma {:induction false} MaterializeRenderable(st: Stack)
    requires |st| > 0 && RenderableStack(st)
    ensures RenderableForest(Materialize(st))
    decreases |st|
  {
    if |st| > 1 {
      var inner := st[..|st| - 1];
      assert RenderableTree(List(Top(st)));
      AddToTopRenderable(inner, List(Top(st)));
      MaterializeRenderable(CloseTop(st));
    }
  }

  /** Any body, once parsed, written out and parsed again, gives the same forest. */
  lemma ParseRenderParse(s: string)
    ensures var f := Build(Tokenize(s));
            Build(Tokenize(RenderForest(f))) == f
  {
    var toks := Tokenize(s);
    var root: Stack := [[]];
    var st := Run(root, toks);
    RunRenderable(root, toks);
    MaterializeRenderable(st);
    assert Build(toks) == Materialize(st);
    RenderParse(Build(toks));
  }
}
