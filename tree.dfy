/** The n-ary tree `Node` both tree playgrounds declare: a struct holding an
    `Int` and an array of child nodes, with its three initialisers and the
    mutating `addNode(with:)`. As a struct it is a value; `addNode` gives the
    updated value. The pre-order listing of a tree is the reference the
    searches are proved against. */
module Trees {
  import opened Wrappers
  import opened Seqs

  datatype Node = Node(value: int, children: seq<Node>)

  /** `init(value:)`: a leaf. */
  function Leaf(value: int): Node {
    Node(value, [])
  }

  /** `init(value:childValues:)`: the children are leaves holding the given
      values, in order. (`init(value:childNodes:)` is the constructor.) */
  function WithChildValues(value: int, childValues: seq<int>): (r: Node)
    ensures r.value == value && |r.children| == |childValues|
    ensures forall i :: 0 <= i < |childValues| ==> r.children[i] == Leaf(childValues[i])
  {
    Node(value, seq(|childValues|, i requires 0 <= i < |childValues| => Leaf(childValues[i])))
  }

  /** `addNode(with:)`: append one leaf child. */
  function AddNode(n: Node, value: int): Node {
    n.(children := n.children + [Leaf(value)])
  }

  // ---------------------------------------------------------------------------
  // Pre-order, node count and the filter the searches are measured against.

  /** The nodes of the tree, each before its children, children in order. */
  function PreOrder(n: Node): seq<Node>
    decreases n
  {
    [n] + PreOrderAll(n.children)
  }

  /** The pre-order listings of a forest, one tree after the other. */
  function PreOrderAll(ns: seq<Node>): seq<Node>
    decreases ns
  {
    if ns == [] then [] else PreOrder(ns[0]) + PreOrderAll(ns[1..])
  }

  /** The number of nodes, counted on the tree's own shape. */
  function Size(n: Node): nat
    decreases n
  {
    1 + SizeAll(n.children)
  }

  function SizeAll(ns: seq<Node>): nat
    decreases ns
  {
    if ns == [] then 0 else Size(ns[0]) + SizeAll(ns[1..])
  }

  /** The closure `(Int) -> Bool` applied to a node's value. */
  function OnValue(p: int -> bool): Node -> bool {
    (m: Node) => p(m.value)
  }

  /** The nodes whose values satisfy `p`, in pre-order. */
  function Matching(n: Node, p: int -> bool): seq<Node> {
    Filter(PreOrder(n), OnValue(p))
  }

  /** What a loop over the children has collected after `i` steps: the node
      itself when it matches, then the matching nodes of each of the first `i`
      children's subtrees. */
  function MatchingUpTo(n: Node, p: int -> bool, i: nat): seq<Node>
    requires i <= |n.children|
  {
    if i == 0 then (if p(n.value) then [n] else [])
    else MatchingUpTo(n, p, i - 1) + Matching(n.children[i - 1], p)
  }

  // ---------------------------------------------------------------------------
  // Lemmas.

  /** The listing of a forest splits with the forest. */
  lemma {:induction false} PreOrderAllConcat(ns: seq<Node>, ms: seq<Node>)
    ensures PreOrderAll(ns + ms) == PreOrderAll(ns) + PreOrderAll(ms)
    decreases ns
  {
    if ns == [] {
      assert ns + ms == ms;
    } else {
      assert (ns + ms)[0] == ns[0];
      assert (ns + ms)[1..] == ns[1..] + ms;
      PreOrderAllConcat(ns[1..], ms);
    }
  }

  /** A forest of one tree lists as that tree. */
  lemma PreOrderAllSingle(n: Node)
    ensures PreOrderAll([n]) == PreOrder(n)
  {
    assert [n][1..] == [];
  }

  /** Every listed node is counted once: the listing is as long as the tree is
      large. */
  lemma {:induction false} PreOrderLength(n: Node)
    ensures |PreOrder(n)| == Size(n)
    decreases n
  {
    PreOrderAllLength(n.children);
  }

  lemma {:induction false} PreOrderAllLength(ns: seq<Node>)
    ensures |PreOrderAll(ns)| == SizeAll(ns)
    decreases ns
  {
    if ns != [] {
      PreOrderLength(ns[0]);
      PreOrderAllLength(ns[1..]);
    }
  }

  /** Appending a leaf child adds its value last in pre-order and one node to
      the count; the root's value and the existing children stay. */
  lemma AddNodeSpec(n: Node, value: int)
    ensures AddNode(n, value).value == n.value
    ensures AddNode(n, value).children[..|n.children|] == n.children
    ensures |AddNode(n, value).children| == |n.children| + 1
    ensures Values(PreOrder(AddNode(n, value))) == Values(PreOrder(n)) + [value]
    ensures Size(AddNode(n, value)) == Size(n) + 1
  {
    var m := AddNode(n, value);
    assert m.children[..|n.children|] == n.children;
    PreOrderAllConcat(n.children, [Leaf(value)]);
    PreOrderAllSingle(Leaf(value));
    assert PreOrder(Leaf(value)) == [Leaf(value)];
    assert PreOrder(m) == [m] + PreOrderAll(n.children) + [Leaf(value)];
    assert PreOrder(n) == [n] + PreOrderAll(n.children);
    PreOrderLength(n);
    PreOrderLength(m);
  }

  /** The values of a listing. */
  function Values(ns: seq<Node>): (r: seq<int>)
    ensures |r| == |ns| && forall i :: 0 <= i < |ns| ==> r[i] == ns[i].value
  {
    seq(|ns|, i requires 0 <= i < |ns| => ns[i].value)
  }

  /** The leaf children of `init(value:childValues:)` list, after the root,
      exactly the given values. */
  lemma {:induction false} WithChildValuesPreOrder(value: int, childValues: seq<int>)
    ensures Values(PreOrder(WithChildValues(value, childValues))) == [value] + childValues
  {
    var n := WithChildValues(value, childValues);
    LeavesPreOrder(n.children);
    assert PreOrder(n) == [n] + n.children;
  }

  /** A forest of leaves lists as itself. */
  lemma {:induction false} LeavesPreOrder(ns: seq<Node>)
    requires forall i :: 0 <= i < |ns| ==> ns[i].children == []
    ensures PreOrderAll(ns) == ns
    decreases ns
  {
    if ns != [] {
      LeavesPreOrder(ns[1..]);
      assert PreOrder(ns[0]) == [ns[0]] + PreOrderAll([]);
      assert ns == [ns[0]] + ns[1..];
    }
  }

  /** After `i` steps the loop has collected what filtering the node and the
      first `i` subtrees' listings gives; after all of them, the whole filter. */
  lemma {:induction false} MatchingUpToIsFilter(n: Node, p: int -> bool, i: nat)
    requires i <= |n.children|
    ensures MatchingUpTo(n, p, i) == Filter([n] + PreOrderAll(n.children[..i]), OnValue(p))
  {
    var cs := n.children;
    if i == 0 {
      assert cs[..0] == [];
      assert [n] + PreOrderAll([]) == [n];
      assert Filter([n], OnValue(p)) == Filter([], OnValue(p)) + (if p(n.value) then [n] else []);
    } else {
      MatchingUpToIsFilter(n, p, i - 1);
      assert cs[..i] == cs[..i - 1] + [cs[i - 1]];
      PreOrderAllConcat(cs[..i - 1], [cs[i - 1]]);
      PreOrderAllSingle(cs[i - 1]);
      assert [n] + PreOrderAll(cs[..i]) == ([n] + PreOrderAll(cs[..i - 1])) + PreOrder(cs[i - 1]);
      FilterConcat([n] + PreOrderAll(cs[..i - 1]), PreOrder(cs[i - 1]), OnValue(p));
    }
  }

  lemma MatchingUpToAll(n: Node, p: int -> bool)
    ensures MatchingUpTo(n, p, |n.children|) == Matching(n, p)
  {
    MatchingUpToIsFilter(n, p, |n.children|);
    assert n.children[..|n.children|] == n.children;
  }

  /** With an always-true predicate every node is collected. */
  lemma MatchingAllIsSize(n: Node)
    ensures Matching(n, (v: int) => true) == PreOrder(n)
    ensures |Matching(n, (v: int) => true)| == Size(n)
  {
    FilterAll(PreOrder(n), OnValue((v: int) => true));
    PreOrderLength(n);
  }
}
