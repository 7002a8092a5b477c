/** The nested item-list structure of a message body: what `build_tree` in
    parser_utils.py returns, a Python list whose elements are strings (leaves) or
    lists, modelled as a forest of `Tree`s. */
module Trees {
  import opened Tokenizer

  datatype Tree = Leaf(text: string) | List(children: seq<Tree>)

  /** The leaf texts of a tree, left to right. */
  function Leaves(t: Tree): seq<string>
  {
    match t
    case Leaf(p) => [p]
    case List(cs) => LeavesOf(cs)
  }

  function LeavesOf(f: seq<Tree>): seq<string>
  {
    if f == [] then [] else Leaves(f[0]) + LeavesOf(f[1..])
  }

  /** The number of list nodes in a tree, the tree itself included. */
  function ListCount(t: Tree): nat
  {
    match t
    case Leaf(_) => 0
    case List(cs) => 1 + ListCountOf(cs)
  }

  function ListCountOf(f: seq<Tree>): nat
  {
    if f == [] then 0 else ListCount(f[0]) + ListCountOf(f[1..])
  }

  lemma {:induction false} LeavesOfConcat(a: seq<Tree>, b: seq<Tree>)
    ensures LeavesOf(a + b) == LeavesOf(a) + LeavesOf(b)
    ensures ListCountOf(a + b) == ListCountOf(a) + ListCountOf(b)
  {
    if a == [] {
      assert a + b == b;
    } else {
      assert (a + b)[0] == a[0];
      assert (a + b)[1..] == a[1..] + b;
      LeavesOfConcat(a[1..], b);
    }
  }

  /** The marker tokens of a tree: a list is its opening marker, its children's tokens and
      a closing marker; a leaf is one value token. */
  function TreeTokens(t: Tree): seq<Token>
  {
    match t
    case Leaf(p) => [Value(p)]
    case List(cs) => [ListStart] + ForestTokens(cs) + [ListEnd]
  }

  function ForestTokens(f: seq<Tree>): seq<Token>
  {
    if f == [] then [] else TreeTokens(f[0]) + ForestTokens(f[1..])
  }

  function CountValues(toks: seq<Token>): nat
  {
    if toks == [] then 0 else (if toks[0].Value? then 1 else 0) + CountValues(toks[1..])
  }

  function CountListStarts(toks: seq<Token>): nat
  {
    if toks == [] then 0 else (if toks[0].ListStart? then 1 else 0) + CountListStarts(toks[1..])
  }

  /** `n` closing markers. */
  function Closes(n: nat): (r: seq<Token>)
    ensures |r| == n && forall k :: 0 <= k < n ==> r[k] == ListEnd
  {
    seq(n, _ => ListEnd)
  }
}
