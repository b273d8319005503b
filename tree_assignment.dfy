/** The two tree searches of the `TreeAssignment` playground:
    `firstSatisfying(condition:)`, which returns the node itself when it
    matches and otherwise loops over the children returning the first hit,
    and `nodesSatisfying(condition:)`, which builds a local array from the
    node and each child's own result. Both are proved against the pre-order
    listing of the tree. */
module TreeAssignment {
  import opened Wrappers
  import opened Seqs
  import opened Trees

  /** A forest's first match is its first tree's, if that has one, and
      otherwise the rest's. */
  lemma SearchRest(ns: seq<Node>, i: nat, condition: int -> bool)
    requires i < |ns|
    ensures FirstMatch(PreOrderAll(ns[i..]), OnValue(condition)) ==
              if FirstMatch(PreOrder(ns[i]), OnValue(condition)).Some?
              then FirstMatch(PreOrder(ns[i]), OnValue(condition))
              else FirstMatch(PreOrderAll(ns[i + 1..]), OnValue(condition))
  {
    assert ns[i..][1..] == ns[i + 1..];
    FirstMatchConcat(PreOrder(ns[i]), PreOrderAll(ns[i + 1..]), OnValue(condition));
  }

  /** `firstSatisfying(condition:)`: the node itself when its value
      satisfies the condition, otherwise the first node the children's own
      searches return, children tried in order; `nil` when there is none.
      This is the first match of the pre-order listing. */
  method FirstSatisfying(n: Node, condition: int -> bool) returns (r: Option<Node>)
    ensures r == FirstMatch(PreOrder(n), OnValue(condition))
    ensures r.Some? ==> condition(r.value.value) && r.value in PreOrder(n)
    ensures r.None? <==> forall i :: 0 <= i < |PreOrder(n)| ==> !condition(PreOrder(n)[i].value)
    decreases n
  {
    ghost var target := FirstMatch(PreOrder(n), OnValue(condition));
    FirstMatchConcat([n], PreOrderAll(n.children), OnValue(condition));
    assert FirstMatch([n], OnValue(condition)) == if condition(n.value) then Some(n) else None;
    if condition(n.value) {
      return Some(n);
    }
    assert n.children[0..] == n.children;
    for i := 0 to |n.children|
      invariant target == FirstMatch(PreOrderAll(n.children[i..]), OnValue(condition))
    {
      var ans := FirstSatisfying(n.children[i], condition);
      SearchRest(n.children, i, condition);
      if ans.Some? {
        return ans;
      }
    }
    assert n.children[|n.children|..] == [];
    return None;
  }

  /** `nodesSatisfying(condition:)`: the node itself when it matches, then
      each child's own result appended, children in order. */
  method NodesSatisfying(n: Node, condition: int -> bool) returns (nodes: seq<Node>)
    ensures nodes == Matching(n, condition)
    ensures forall i :: 0 <= i < |nodes| ==> condition(nodes[i].value) && nodes[i] in PreOrder(n)
    decreases n
  {
    nodes := [];
    if condition(n.value) {
      nodes := nodes + [n];
    }
    for i := 0 to |n.children|
      invariant nodes == MatchingUpTo(n, condition, i)
    {
      var childNodes := NodesSatisfying(n.children[i], condition);
      nodes := nodes + childNodes;
    }
    MatchingUpToAll(n, condition);
  }

  /** The first element of `nodesSatisfying`, when there is one, is what
      `firstSatisfying` returns; there is none exactly when it returns `nil`. */
  lemma NodesStartWithFirstSatisfying(n: Node, condition: int -> bool)
    ensures Matching(n, condition) == [] <==> FirstMatch(PreOrder(n), OnValue(condition)).None?
    ensures Matching(n, condition) != [] ==>
              FirstMatch(PreOrder(n), OnValue(condition)) == Some(Matching(n, condition)[0])
  {
    FirstMatchIsFilterHead(PreOrder(n), OnValue(condition));
  }
}
