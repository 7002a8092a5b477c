/** The tree builder (`build_tree` in parser_utils.py) as a pure fold over the token
    stream.

    The source keeps a stack of Python lists seeded with one root list; a new list is
    appended to its parent when it opens and filled in place afterwards. Here each
    stack frame holds the children collected so far by one open list, and a list is
    attached to its parent when it is closed. While a list is open its parent is not
    on top, so nothing else reaches the parent in between and the two views give the
    same forest; `Materialize` is the forest the source's root holds at any point. */
module TreeBuilder {
  import opened Tokenizer
  import opened Trees

  /** The frames of the open lists: the implicit root first, the innermost last. */
  type Stack = seq<seq<Tree>>

  function Top(st: Stack): seq<Tree>
    requires |st| > 0
  {
    st[|st| - 1]
  }

  /** Appends a child to the innermost open list. */
  function AddToTop(st: Stack, t: Tree): (r: Stack)
    requires |st| > 0
    ensures |r| == |st| && r[..|r| - 1] == st[..|st| - 1] && Top(r) == Top(st) + [t]
  {
    st[..|st| - 1] + [Top(st) + [t]]
  }

  /** Closes the innermost open list: it becomes the last child of the list around it. */
  function CloseTop(st: Stack): (r: Stack)
    requires |st| > 1
    ensures |r| == |st| - 1
  {
    AddToTop(st[..|st| - 1], List(Top(st)))
  }

  /** The forest held by the root once every open list is closed. */
  function Materialize(st: Stack): seq<Tree>
    requires |st| > 0
    decreases |st|
  {
    if |st| == 1 then st[0] else Materialize(CloseTop(st))
  }

  /** One token's effect on the stack. The stack never becomes empty; a closing marker
      with only the root open changes nothing; an opening marker opens a new innermost
      list; a value adds a leaf to the innermost open list and leaves the depth as it
      was. */
  function Step(st: Stack, tok: Token): (r: Stack)
    requires |st| > 0
    ensures |r| > 0
    ensures tok.ListStart? ==> && |r| == |st| + 1 && Top(r) == [] && r[..|st|] == st
    ensures tok.ListEnd? && |st| == 1 ==> r == st
    ensures tok.ListEnd? && |st| > 1 ==> |r| == |st| - 1
    ensures tok.Value? ==> && |r| == |st| && Top(r) == Top(st) + [Leaf(tok.payload)]
                           && r[..|r| - 1] == st[..|st| - 1]
  {
    match tok
    case ListStart =>
      var r := st + [[]];
      assert r[..|r| - 1] == st;
      r
    case ListEnd =>
      if |st| > 1 then CloseTop(st) else st
    case Value(p) =>
      AddToTop(st, Leaf(p))
  }

  /** What a token does to the forest the root holds: closing a list never changes it,
      and an opening marker adds an empty list as the last child of the innermost open
      list. */
  lemma StepForest(st: Stack, tok: Token)
    requires |st| > 0
    ensures tok.ListStart? ==> Materialize(Step(st, tok)) == Materialize(AddToTop(st, List([])))
    ensures tok.ListEnd? ==> Materialize(Step(st, tok)) == Materialize(st)
  {
    if tok.ListStart? {
      var r := st + [[]];
      assert CloseTop(r) == AddToTop(st, List([])) by {
        assert r[..|r| - 1] == st;
      }
    }
  }

  /** The stack after a whole token stream. */
  function Run(st: Stack, toks: seq<Token>): (r: Stack)
    requires |st| > 0
    ensures |r| > 0
    decreases |toks|
  {
    if toks == [] then st else Run(Step(st, toks[0]), toks[1..])
  }

  /** `build_tree`: the root's children at the end of the stream, lists still open being
      closed implicitly. Every value token becomes a leaf and every opening marker a list. */
  function Build(toks: seq<Token>): (r: seq<Tree>)
    ensures |LeavesOf(r)| == CountValues(toks)
    ensures ListCountOf(r) == CountListStarts(toks)
  {
    var st := Run([[]], toks);
    RunCounts([[]], toks);
    MaterializeCounts(st);
    Materialize(st)
  }

  // ----- counting leaves and lists through the fold -----

  /** Leaves held by all frames. */
  function StackLeaves(st: Stack): nat
  {
    if st == [] then 0 else StackLeaves(st[..|st| - 1]) + |LeavesOf(Top(st))|
  }

  /** Lists held by all frames, counting each open list other than the root. */
  function StackLists(st: Stack): nat
  {
    if st == [] then 0
    else StackLists(st[..|st| - 1]) + ListCountOf(Top(st)) + (if |st| > 1 then 1 else 0)
  }

  lemma CloseTopCounts(st: Stack)
    requires |st| > 1
    ensures StackLeaves(CloseTop(st)) == StackLeaves(st)
    ensures StackLists(CloseTop(st)) == StackLists(st)
  {
    var inner := st[..|st| - 1];
    var r := CloseTop(st);
    LeavesOfConcat(Top(inner), [List(Top(st))]);
    assert LeavesOf([List(Top(st))]) == LeavesOf(Top(st));
    assert ListCountOf([List(Top(st))]) == 1 + ListCountOf(Top(st));
    assert r[..|r| - 1] == inner[..|inner| - 1];
    assert st[..|st| - 1] == inner;
  }

  lemma {:induction false} MaterializeCounts(st: Stack)
    requires |st| > 0
    ensures |LeavesOf(Materialize(st))| == StackLeaves(st)
    ensures ListCountOf(Materialize(st)) == StackLists(st)
    decreases |st|
  {
    if |st| == 1 {
      assert st[..0] == [];
    } else {
      CloseTopCounts(st);
      MaterializeCounts(CloseTop(st));
    }
  }

  lemma StepCounts(st: Stack, tok: Token)
    requires |st| > 0
    ensures StackLeaves(Step(st, tok)) == StackLeaves(st) + (if tok.Value? then 1 else 0)
    ensures StackLists(Step(st, tok)) == StackLists(st) + (if tok.ListStart? then 1 else 0)
  {
    var r := Step(st, tok);
    match tok
    case ListStart =>
      assert r[..|r| - 1] == st;
    case ListEnd =>
      if |st| > 1 {
        CloseTopCounts(st);
      }
    case Value(p) =>
      LeavesOfConcat(Top(st), [Leaf(p)]);
      assert LeavesOf([Leaf(p)]) == [p];
  }

  lemma {:induction false} RunCounts(st: Stack, toks: seq<Token>)
    requires |st| > 0
    ensures StackLeaves(Run(st, toks)) == StackLeaves(st) + CountValues(toks)
    ensures StackLists(Run(st, toks)) == StackLists(st) + CountListStarts(toks)
    decreases |toks|
  {
    if toks != [] {
      StepCounts(st, toks[0]);
      RunCounts(Step(st, toks[0]), toks[1..]);
    }
  }

  // ----- closing markers -----

  /** Closing markers past the root change nothing, and closing lists never changes the
      forest the root holds. */
  lemma {:induction false} RunClosesKeepsForest(st: Stack, n: nat)
    requires |st| > 0
    ensures Materialize(Run(st, Closes(n))) == Materialize(st)
    decreases n
  {
    if n > 0 {
      assert Closes(n)[0] == ListEnd;
      assert Closes(n)[1..] == Closes(n - 1);
      StepForest(st, ListEnd);
      RunClosesKeepsForest(Step(st, ListEnd), n - 1);
    }
  }

  /** Closing each still-open list explicitly leaves exactly the root, holding the forest. */
  lemma {:induction false} ExplicitCloses(st: Stack)
    requires |st| > 0
    ensures Run(st, Closes(|st| - 1)) == [Materialize(st)]
    decreases |st|
  {
    if |st| > 1 {
      var n := |st| - 1;
      assert Closes(n)[0] == ListEnd;
      assert Closes(n)[1..] == Closes(n - 1);
      ExplicitCloses(CloseTop(st));
    }
  }

  lemma {:induction false} RunConcat(st: Stack, a: seq<Token>, b: seq<Token>)
    requires |st| > 0
    ensures Run(st, a + b) == Run(Run(st, a), b)
    decreases |a|
  {
    if a == [] {
      assert a + b == b;
    } else {
      assert (a + b)[0] == a[0];
      assert (a + b)[1..] == a[1..] + b;
      RunConcat(Step(st, a[0]), a[1..], b);
    }
  }

  /** Appending any number of closing markers to a stream does not change what it builds:
      open lists are closed implicitly and surplus closes are ignored. */
  lemma TrailingClosesIgnored(toks: seq<Token>, n: nat)
    ensures Build(toks + Closes(n)) == Build(toks)
  {
    RunConcat([[]], toks, Closes(n));
    RunClosesKeepsForest(Run([[]], toks), n);
  }

  /** Building stops with the stream: whatever lists are still open at its end, the result
      is what closing each of them explicitly leaves in the root. */
  lemma ImplicitCloseIsExplicit(toks: seq<Token>)
    ensures var st := Run([[]], toks);
            Run([[]], toks + Closes(|st| - 1)) == [Build(toks)]
  {
    var st := Run([[]], toks);
    RunConcat([[]], toks, Closes(|st| - 1));
    ExplicitCloses(st);
  }

  // ----- well-nested streams -----

  /** The tokens of one tree add that tree as the last child of the innermost open list. */
  lemma {:induction false} RunTreeTokens(st: Stack, t: Tree)
    requires |st| > 0
    ensures Run(st, TreeTokens(t)) == AddToTop(st, t)
    decreases t, 1
  {
    match t
    case Leaf(p) =>
      assert Run(st, [Value(p)]) == Run(Step(st, Value(p)), []);
    case List(cs) =>
      var pushed := Step(st, ListStart);
      RunConcat(st, [ListStart] + ForestTokens(cs), [ListEnd]);
      RunConcat(st, [ListStart], ForestTokens(cs));
      assert Run(st, [ListStart]) == pushed by {
        assert Run(st, [ListStart]) == Run(pushed, []);
      }
      RunForestTokens(pushed, cs);
      var filled := Run(pushed, ForestTokens(cs));
      assert filled == st + [cs] by {
        assert pushed[..|pushed| - 1] == st;
        assert [] + cs == cs;
      }
      assert Run(filled, [ListEnd]) == Step(filled, ListEnd) by {
        assert Run(filled, [ListEnd]) == Run(Step(filled, ListEnd), []);
      }
      assert filled[..|filled| - 1] == st;
  }

  /** The tokens of a forest add its trees, in order, after the innermost list's children. */
  lemma {:induction false} RunForestTokens(st: Stack, f: seq<Tree>)
    requires |st| > 0
    ensures Run(st, ForestTokens(f)) == st[..|st| - 1] + [Top(st) + f]
    decreases f, 0
  {
    if f == [] {
      assert Top(st) + f == Top(st);
      assert st[..|st| - 1] + [Top(st)] == st;
    } else {
      var st' := AddToTop(st, f[0]);
      calc {
        Run(st, ForestTokens(f));
        { RunConcat(st, TreeTokens(f[0]), ForestTokens(f[1..])); }
        Run(Run(st, TreeTokens(f[0])), ForestTokens(f[1..]));
        { RunTreeTokens(st, f[0]); }
        Run(st', ForestTokens(f[1..]));
        { RunForestTokens(st', f[1..]); }
        st'[..|st'| - 1] + [Top(st') + f[1..]];
        { assert [f[0]] + f[1..] == f;
          assert Top(st') + f[1..] == Top(st) + ([f[0]] + f[1..]); }
        st[..|st| - 1] + [Top(st) + f];
      }
    }
  }

  /** Building the tokens of a forest gives that forest back. */
  lemma BuildForestTokens(f: seq<Tree>)
    ensures Build(ForestTokens(f)) == f
  {
    var root: Stack := [[]];
    RunForestTokens(root, f);
    assert root[..0] == [];
    assert Top(root) + f == f;
    assert Run(root, ForestTokens(f)) == [f];
  }
}
