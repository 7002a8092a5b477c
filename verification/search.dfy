/** The two tree searches of log_parser.py: `_find_ceid`, which looks for the first leaf
    naming a known collection event, and `_find_values`, which looks for the first list
    tagged with a report key and returns the element after the tag.

    Both are written the way the source recurses, and each is proved to equal a plain
    scan of the tree's nodes in pre-order (a node before its children, children left to
    right), which is what "first" means for them. */
module TreeSearch {
  import opened Text
  import opened Trees

  // ----- the pre-order reference -----

  /** Every node of the tree, pre-order: the tree itself, then its children's nodes. */
  function Nodes(t: Tree): (r: seq<Tree>)
    ensures |r| > 0 && r[0] == t
  {
    match t
    case Leaf(_) => [t]
    case List(cs) => [t] + NodesOf(cs)
  }

  function NodesOf(f: seq<Tree>): seq<Tree>
  {
    if f == [] then [] else Nodes(f[0]) + NodesOf(f[1..])
  }

  /** The first node of `nodes` on which `probe` gives an answer, and that answer. */
  function FirstHit<T>(nodes: seq<Tree>, probe: Tree -> Option<T>): (r: Option<T>)
    ensures r.Some? ==> exists i :: 0 <= i < |nodes| && probe(nodes[i]) == r
                                    && forall j :: 0 <= j < i ==> probe(nodes[j]).None?
    ensures r.None? ==> forall i :: 0 <= i < |nodes| ==> probe(nodes[i]).None?
  {
    if nodes == [] then None
    else match probe(nodes[0])
      case Some(v) => Some(v)
      case None =>
        var r := FirstHit(nodes[1..], probe);
        assert forall i :: 1 <= i < |nodes| ==> nodes[i] == nodes[1..][i - 1];
        r
  }

  /** A hit in the first part of a scan wins; otherwise the scan goes on into the rest. */
  lemma {:induction false} FirstHitConcat<T>(a: seq<Tree>, b: seq<Tree>, probe: Tree -> Option<T>)
    ensures FirstHit(a + b, probe)
            == match FirstHit(a, probe) case Some(v) => Some(v) case None => FirstHit(b, probe)
  {
    if a == [] {
      assert a + b == b;
    } else {
      assert (a + b)[0] == a[0];
      assert (a + b)[1..] == a[1..] + b;
      FirstHitConcat(a[1..], b, probe);
    }
  }

  // ----- _find_ceid -----

  /** What `_find_ceid` accepts at a single node: a leaf of ASCII digits whose value is
      a key of the event catalog. */
  function CeidAt(t: Tree, events: map<int, string>): (r: Option<int>)
    ensures r.Some? ==> t.Leaf? && IsDigitString(t.text) && r.value == DecimalValue(t.text)
    ensures r.Some? <==> t.Leaf? && IsDigitString(t.text) && DecimalValue(t.text) in events
  {
    if t.Leaf? && IsDigitString(t.text) && DecimalValue(t.text) in events
    then Some(DecimalValue(t.text) as int) else None
  }

  /** A leaf holding a code written in decimal is accepted exactly when the code is in
      the catalog, and so is the same text with leading zeros, which `int()` ignores;
      the answer is the code either way. */
  lemma {:induction false} CeidLeaf(c: nat, zeros: nat, events: map<int, string>)
    ensures CeidAt(Leaf(Zeros(zeros) + IntToDecimal(c)), events) == (if c in events then Some(c) else None)
  {
    LeadingZeros(zeros, IntToDecimal(c));
  }

  /** `zeros` copies of the digit zero. */
  function Zeros(zeros: nat): (r: string)
    ensures |r| == zeros && forall k :: 0 <= k < |r| ==> r[k] == '0'
  {
    if zeros == 0 then [] else "0" + Zeros(zeros - 1)
  }

  /** Zeros in front of digits keep them digits and leave their value unchanged. */
  lemma {:induction false} LeadingZeros(zeros: nat, ds: string)
    requires IsDigitString(ds)
    ensures IsDigitString(Zeros(zeros) + ds) && DecimalValue(Zeros(zeros) + ds) == DecimalValue(ds)
  {
    if zeros > 0 {
      LeadingZeros(zeros - 1, ds);
      assert Zeros(zeros) + ds == "0" + (Zeros(zeros - 1) + ds);
      LeadingZero(Zeros(zeros - 1) + ds);
    } else {
      assert Zeros(zeros) + ds == ds;
    }
  }

  /** One zero in front of a digit string leaves its value unchanged. */
  lemma {:induction false} LeadingZero(ds: string)
    requires IsDigitString(ds)
    ensures IsDigitString("0" + ds) && DecimalValue("0" + ds) == DecimalValue(ds)
    decreases |ds|
  {
    var t := "0" + ds;
    assert t[|t| - 1] == ds[|ds| - 1];
    if |ds| == 1 {
      assert t[..|t| - 1] == "0";
      assert ds[..0] == [];
    } else {
      assert t[..|t| - 1] == "0" + ds[..|ds| - 1];
      LeadingZero(ds[..|ds| - 1]);
    }
  }

  /** `_find_ceid`: the tree itself if it is an event leaf, else the first hit among a
      list's children. The answer, when there is one, is a key of the catalog. */
  function FindCeid(t: Tree, events: map<int, string>): (r: Option<int>)
    ensures r.Some? ==> r.value in events && r.value >= 0
  {
    match t
    case Leaf(_) => CeidAt(t, events)
    case List(cs) => FindCeidIn(cs, events)
  }

  /** The loop of `_find_ceid` over a list's items: the first item with a hit. */
  function FindCeidIn(f: seq<Tree>, events: map<int, string>): (r: Option<int>)
    ensures r.Some? ==> r.value in events && r.value >= 0
  {
    if f == [] then None
    else match FindCeid(f[0], events)
      case Some(c) => Some(c)
      case None => FindCeidIn(f[1..], events)
  }

  /** `_find_ceid` finds the first event leaf in pre-order. */
  lemma {:induction false} FindCeidPreorder(t: Tree, events: map<int, string>)
    ensures FindCeid(t, events) == FirstHit(Nodes(t), n => CeidAt(n, events))
    decreases t, 1
  {
    match t
    case Leaf(_) =>
    case List(cs) =>
      FindCeidInPreorder(cs, events);
      assert CeidAt(t, events).None?;
      assert Nodes(t)[1..] == NodesOf(cs);
  }

  lemma {:induction false} FindCeidInPreorder(f: seq<Tree>, events: map<int, string>)
    ensures FindCeidIn(f, events) == FirstHit(NodesOf(f), n => CeidAt(n, events))
    decreases f, 0
  {
    var probe := n => CeidAt(n, events);
    if f != [] {
      FindCeidPreorder(f[0], events);
      FindCeidInPreorder(f[1..], events);
      FirstHitConcat(Nodes(f[0]), NodesOf(f[1..]), probe);
    }
  }

  // ----- _find_values -----

  /** What `_find_values` accepts at a single node: a list of more than one element whose
      first element is the leaf `key`; the answer is the second element. */
  function ValuesAt(t: Tree, key: string): (r: Option<Tree>)
    ensures r.Some? <==> t.List? && |t.children| > 1 && t.children[0] == Leaf(key)
    ensures r.Some? ==> r.value == t.children[1]
  {
    if t.List? && |t.children| > 1 && t.children[0] == Leaf(key)
    then Some(t.children[1]) else None
  }

  /** `_find_values`: a list tagged with `key` answers for itself before its children are
      searched; a leaf never answers. */
  function FindValues(t: Tree, key: string): Option<Tree>
  {
    match t
    case Leaf(_) => None
    case List(cs) =>
      if |cs| > 1 && cs[0] == Leaf(key) then Some(cs[1]) else FindValuesIn(cs, key)
  }

  function FindValuesIn(f: seq<Tree>, key: string): Option<Tree>
  {
    if f == [] then None
    else match FindValues(f[0], key)
      case Some(v) => Some(v)
      case None => FindValuesIn(f[1..], key)
  }

  /** `_find_values` returns the element after the tag of the first tagged list in
      pre-order, and finds nothing exactly when no list of the tree is tagged. */
  lemma {:induction false} FindValuesPreorder(t: Tree, key: string)
    ensures FindValues(t, key) == FirstHit(Nodes(t), n => ValuesAt(n, key))
    decreases t, 1
  {
    match t
    case Leaf(_) =>
    case List(cs) =>
      if !(|cs| > 1 && cs[0] == Leaf(key)) {
        FindValuesInPreorder(cs, key);
        assert Nodes(t)[1..] == NodesOf(cs);
      }
  }

  lemma {:induction false} FindValuesInPreorder(f: seq<Tree>, key: string)
    ensures FindValuesIn(f, key) == FirstHit(NodesOf(f), n => ValuesAt(n, key))
    decreases f, 0
  {
    if f != [] {
      FindValuesPreorder(f[0], key);
      FindValuesInPreorder(f[1..], key);
      FirstHitConcat(Nodes(f[0]), NodesOf(f[1..]), n => ValuesAt(n, key));
    }
  }
}
