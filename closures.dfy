/** The two tree searches of the `Closures` playground: `first(where:)`, a
    recursive search that tries the node and then each child in turn, and
    `nodes(where:)`, which collects the matching nodes through
    `nodesRecursive(where:to:)` into an `inout` array. */
module Closures {
  import opened Wrappers
  import opened Seqs
  import opened Trees

  /** `first(where:)`: the node itself when its value matches, otherwise the
      first result the children give, tried in order. */
  function First(n: Node, p: int -> bool): Option<Node>
    decreases n
  {
    if p(n.value) then Some(n) else FirstAmong(n.children, p)
  }

  /** The loop of `first(where:)` over the children: the first non-`nil`
      result. */
  function FirstAmong(ns: seq<Node>, p: int -> bool): Option<Node>
    decreases ns
  {
    if ns == [] then None
    else match First(ns[0], p)
      case Some(m) => Some(m)
      case None => FirstAmong(ns[1..], p)
  }

  /** `first(where:)` is the first match of the pre-order listing. */
  lemma {:induction false} FirstIsPreOrderFirst(n: Node, p: int -> bool)
    ensures First(n, p) == FirstMatch(PreOrder(n), OnValue(p))
    decreases n
  {
    FirstMatchConcat([n], PreOrderAll(n.children), OnValue(p));
    assert FirstMatch([n], OnValue(p)) == if p(n.value) then Some(n) else None;
    FirstAmongIsPreOrderFirst(n.children, p);
  }

  lemma {:induction false} FirstAmongIsPreOrderFirst(ns: seq<Node>, p: int -> bool)
    ensures FirstAmong(ns, p) == FirstMatch(PreOrderAll(ns), OnValue(p))
    decreases ns
  {
    if ns != [] {
      FirstIsPreOrderFirst(ns[0], p);
      FirstAmongIsPreOrderFirst(ns[1..], p);
      FirstMatchConcat(PreOrder(ns[0]), PreOrderAll(ns[1..]), OnValue(p));
    }
  }

  /** A found node satisfies the predicate and is a node of the tree, with no
      matching node before it in pre-order; `nil` exactly when no node
      matches. */
  lemma FirstSpec(n: Node, p: int -> bool)
    ensures First(n, p).Some? ==> p(First(n, p).value.value) && First(n, p).value in PreOrder(n)
    ensures First(n, p).Some? ==>
              exists i :: 0 <= i < |PreOrder(n)| && PreOrder(n)[i] == First(n, p).value &&
                          forall j :: 0 <= j < i ==> !p(PreOrder(n)[j].value)
    ensures First(n, p).None? <==> forall m :: m in PreOrder(n) ==> !p(m.value)
  {
    FirstIsPreOrderFirst(n, p);
    var s := PreOrder(n);
    if First(n, p).None? {
      forall m | m in s ensures !p(m.value) {
        var i :| 0 <= i < |s| && s[i] == m;
        assert !OnValue(p)(s[i]);
      }
    }
  }

  /** `nodes(where:)` is empty exactly when `first(where:)` finds nothing, and
      otherwise starts with what it finds. */
  lemma NodesStartWithFirst(n: Node, p: int -> bool)
    ensures Matching(n, p) == [] <==> First(n, p).None?
    ensures First(n, p).Some? ==> Matching(n, p)[0] == First(n, p).value
  {
    FirstIsPreOrderFirst(n, p);
    FirstMatchIsFilterHead(PreOrder(n), OnValue(p));
  }

  /** `nodesRecursive(where:to:)`: append the node when it matches, then for
      each child collect its matches into a fresh array and append those. The
      `inout` array is passed in as `result` and comes back as `out`. */
  method NodesRecursive(n: Node, p: int -> bool, result: seq<Node>) returns (out: seq<Node>)
    ensures out == result + Matching(n, p)
    decreases n
  {
    out := result;
    if p(n.value) {
      out := out + [n];
    }
    for i := 0 to |n.children|
      invariant out == result + MatchingUpTo(n, p, i)
    {
      var temp := NodesRecursive(n.children[i], p, []);
      out := out + temp;
    }
    MatchingUpToAll(n, p);
  }

  /** `nodes(where:)`: every matching node, in pre-order. */
  method Nodes(n: Node, p: int -> bool) returns (result: seq<Node>)
    ensures result == Matching(n, p)
    ensures forall i :: 0 <= i < |result| ==> p(result[i].value) && result[i] in PreOrder(n)
  {
    result := NodesRecursive(n, p, []);
  }

  /** The playground's tree: 1 with children 5 (children 13, 16) and 7
      (child 24). */
  function SampleTree(): Node {
    Node(1, [WithChildValues(5, [13, 16]), WithChildValues(7, [24])])
  }

  /** The playground's tree lists as 1, 5, 13, 16, 7, 24 in pre-order. */
  lemma SampleTreePreOrder()
    ensures Values(PreOrder(SampleTree())) == [1, 5, 13, 16, 7, 24]
  {
    var a, b := WithChildValues(5, [13, 16]), WithChildValues(7, [24]);
    WithChildValuesPreOrder(5, [13, 16]);
    WithChildValuesPreOrder(7, [24]);
    PreOrderAllConcat([a], [b]);
    PreOrderAllSingle(a);
    PreOrderAllSingle(b);
    assert [a, b] == [a] + [b];
    assert PreOrder(SampleTree()) == [SampleTree()] + PreOrder(a) + PreOrder(b);
  }

  /** Two of the playground's searches: `> 12` finds 13 first, and `> 50`
      finds nothing. */
  lemma SampleTreeSearches()
    ensures First(SampleTree(), (v: int) => v > 12).Some?
    ensures First(SampleTree(), (v: int) => v > 12).value.value == 13
    ensures First(SampleTree(), (v: int) => v > 50).None?
  {
    SampleTreePreOrder();
    FindsThirteen(SampleTree(), (v: int) => v > 12);
    FindsNothing(SampleTree(), (v: int) => v > 50);
  }

  /** On a tree listing as the sample does, a predicate true of 13 but of
      neither 1 nor 5 finds 13. */
  lemma FindsThirteen(t: Node, p: int -> bool)
    requires Values(PreOrder(t)) == [1, 5, 13, 16, 7, 24]
    requires !p(1) && !p(5) && p(13)
    ensures First(t, p).Some? && First(t, p).value.value == 13
  {
    var s := PreOrder(t);
    FirstIsPreOrderFirst(t, p);
    assert Values(s)[0] == 1 && Values(s)[1] == 5 && Values(s)[2] == 13;
    FirstIndexAt(s, OnValue(p), 2);
  }

  /** On a tree listing as the sample does, a predicate false of every value
      finds nothing. */
  lemma FindsNothing(t: Node, p: int -> bool)
    requires Values(PreOrder(t)) == [1, 5, 13, 16, 7, 24]
    requires forall v :: v in [1, 5, 13, 16, 7, 24] ==> !p(v)
    ensures First(t, p).None?
  {
    var s := PreOrder(t);
    FirstIsPreOrderFirst(t, p);
    forall k | 0 <= k < |s| ensures !OnValue(p)(s[k]) {
      assert Values(s)[k] == s[k].value;
    }
    var r := FirstIndex(s, OnValue(p));
    assert r.None?;
  }
}
