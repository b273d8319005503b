/** The Swift `Array` operations the stores are built from, as functions on
    sequences: `filter`, `firstIndex(where:)`, `first(where:)`,
    `firstIndex(of:)` followed by `remove(at:)`, and `removeAll(where:)`. */
module Seqs {
  import opened Wrappers

  /** The elements of `s` that satisfy `p`, in their original order.
      Defined from the back, the way a loop that appends matches builds it. */
  function Filter<T>(s: seq<T>, p: T -> bool): (r: seq<T>)
    ensures |r| <= |s|
    ensures forall i :: 0 <= i < |r| ==> p(r[i]) && r[i] in s
  {
    if s == [] then []
    else Filter(s[..|s| - 1], p) + (if p(s[|s| - 1]) then [s[|s| - 1]] else [])
  }

  /** Filtering distributes over concatenation: matches keep their relative order. */
  lemma {:induction false} FilterConcat<T>(s: seq<T>, t: seq<T>, p: T -> bool)
    ensures Filter(s + t, p) == Filter(s, p) + Filter(t, p)
  {
    if t == [] {
      assert s + t == s;
    } else {
      var t' := t[..|t| - 1];
      assert (s + t)[..|s + t| - 1] == s + t';
      FilterConcat(s, t', p);
    }
  }

  /** Filtering keeps every matching element as often as it occurs, and drops
      every other element. */
  lemma {:induction false} FilterCount<T>(s: seq<T>, p: T -> bool, x: T)
    ensures multiset(Filter(s, p))[x] == if p(x) then multiset(s)[x] else 0
  {
    if s != [] {
      var s' := s[..|s| - 1];
      assert s == s' + [s[|s| - 1]];
      FilterCount(s', p, x);
    }
  }

  /** An element is in the filtered sequence exactly when it is in `s` and matches. */
  lemma FilterMembership<T>(s: seq<T>, p: T -> bool, x: T)
    ensures x in Filter(s, p) <==> x in s && p(x)
  {
    FilterCount(s, p, x);
    assert x in Filter(s, p) <==> multiset(Filter(s, p))[x] > 0;
    assert x in s <==> multiset(s)[x] > 0;
  }

  /** The filter is empty exactly when nothing in `s` matches. */
  lemma {:induction false} FilterEmpty<T>(s: seq<T>, p: T -> bool)
    ensures Filter(s, p) == [] <==> forall i :: 0 <= i < |s| ==> !p(s[i])
  {
    if s != [] {
      var s', last := s[..|s| - 1], s[|s| - 1];
      FilterEmpty(s', p);
      assert Filter(s, p) == Filter(s', p) + (if p(last) then [last] else []);
      if p(last) {
        assert |Filter(s, p)| > 0;
      } else {
        assert (forall i :: 0 <= i < |s| ==> !p(s[i])) <==> (forall i :: 0 <= i < |s'| ==> !p(s'[i]));
      }
    }
  }

  /** Filtering with a predicate that holds of every element gives `s` back. */
  lemma {:induction false} FilterAll<T>(s: seq<T>, p: T -> bool)
    requires forall i :: 0 <= i < |s| ==> p(s[i])
    ensures Filter(s, p) == s
  {
    if s != [] {
      FilterAll(s[..|s| - 1], p);
    }
  }

  /** Swift's `firstIndex(where:)`: the least index whose element matches, or
      `None` when no element does. */
  function FirstIndex<T>(s: seq<T>, p: T -> bool): (r: Option<nat>)
    ensures r.Some? ==> r.value < |s| && p(s[r.value])
    ensures r.Some? ==> forall j :: 0 <= j < r.value ==> !p(s[j])
    ensures r.None? <==> forall j :: 0 <= j < |s| ==> !p(s[j])
  {
    if s == [] then None
    else if p(s[0]) then Some(0)
    else match FirstIndex(s[1..], p)
      case None => None
      case Some(i) => Some(i + 1)
  }

  /** Swift's `first(where:)`: the first matching element, or `None`. */
  function FirstMatch<T>(s: seq<T>, p: T -> bool): (r: Option<T>)
    ensures r.None? <==> forall j :: 0 <= j < |s| ==> !p(s[j])
    ensures r.Some? ==> exists i :: 0 <= i < |s| && s[i] == r.value && p(s[i]) &&
                                    forall j :: 0 <= j < i ==> !p(s[j])
  {
    match FirstIndex(s, p)
    case None => None
    case Some(i) => Some(s[i])
  }

  /** The first match is the head of the filtered sequence: the lookup and the
      filter agree. */
  lemma {:induction false} FirstMatchIsFilterHead<T>(s: seq<T>, p: T -> bool)
    ensures FirstMatch(s, p) == if Filter(s, p) == [] then None else Some(Filter(s, p)[0])
  {
    FilterEmpty(s, p);
    if s != [] {
      assert s == [s[0]] + s[1..];
      FilterConcat([s[0]], s[1..], p);
      assert Filter([s[0]], p) == Filter([], p) + (if p(s[0]) then [s[0]] else []);
      if !p(s[0]) {
        FirstMatchIsFilterHead(s[1..], p);
      }
    }
  }

  /** An index that matches, with no match before it, is the first index. */
  lemma FirstIndexAt<T>(s: seq<T>, p: T -> bool, i: nat)
    requires i < |s| && p(s[i])
    requires forall j :: 0 <= j < i ==> !p(s[j])
    ensures FirstIndex(s, p) == Some(i)
  {
    var r := FirstIndex(s, p);
    assert r.Some?;
  }

  /** Searching a concatenation: the first match of the first part if it has
      one, otherwise the first match of the second. */
  lemma FirstMatchConcat<T>(s: seq<T>, t: seq<T>, p: T -> bool)
    ensures FirstMatch(s + t, p) == if FirstMatch(s, p).Some? then FirstMatch(s, p) else FirstMatch(t, p)
  {
    var st := s + t;
    match FirstIndex(s, p)
    case Some(i) =>
      FirstIndexAt(st, p, i);
    case None =>
      match FirstIndex(t, p)
      case Some(k) =>
        assert forall j :: 0 <= j < |s| ==> st[j] == s[j];
        FirstIndexAt(st, p, |s| + k);
      case None =>
        assert forall j :: 0 <= j < |st| ==> !p(st[j]) by {
          forall j | 0 <= j < |st| ensures !p(st[j]) {
            if j < |s| { assert st[j] == s[j]; } else { assert st[j] == t[j - |s|]; }
          }
        }
  }

  /** The sequence without its element at index `i` (Swift's `remove(at:)`). */
  function RemoveAt<T>(s: seq<T>, i: nat): (r: seq<T>)
    requires i < |s|
    ensures |r| == |s| - 1
    ensures forall j :: 0 <= j < i ==> r[j] == s[j]
    ensures forall j :: i <= j < |r| ==> r[j] == s[j + 1]
    ensures multiset(r) == multiset(s) - multiset{s[i]}
  {
    assert s == s[..i] + [s[i]] + s[i + 1..];
    s[..i] + s[i + 1..]
  }

  /** `s` without the first element equal to `x`; `s` itself when there is none.
      This is `firstIndex(of:)` followed by `remove(at:)`. */
  function RemoveFirst<T(==)>(s: seq<T>, x: T): (r: seq<T>)
    ensures x !in s ==> r == s
    ensures x in s ==> |r| == |s| - 1 && multiset(r) == multiset(s) - multiset{x}
    ensures x in s ==> exists i :: 0 <= i < |s| && s[i] == x && (forall j :: 0 <= j < i ==> s[j] != x) &&
                                   r == s[..i] + s[i + 1..]
  {
    match FirstIndex(s, (y: T) => y == x)
    case None => s
    case Some(i) => RemoveAt(s, i)
  }

  /** `s` without any element equal to `x` (Swift's `removeAll(where: { $0 == x })`). */
  function RemoveAll<T(==)>(s: seq<T>, x: T): (r: seq<T>)
    ensures x !in r
    ensures forall i :: 0 <= i < |r| ==> r[i] in s
    ensures forall y :: y in s && y != x ==> multiset(r)[y] == multiset(s)[y]
  {
    var r := Filter(s, (y: T) => y != x);
    FilterMembership(s, (y: T) => y != x, x);
    forall y | y in s && y != x ensures multiset(r)[y] == multiset(s)[y] {
      FilterCount(s, (y: T) => y != x, y);
    }
    r
  }

  /** Removing every copy of `x` shortens `s` by the number of copies. */
  lemma {:induction false} RemoveAllSize<T>(s: seq<T>, x: T)
    ensures |RemoveAll(s, x)| == |s| - multiset(s)[x]
  {
    if s != [] {
      var s' := s[..|s| - 1];
      assert s == s' + [s[|s| - 1]];
      RemoveAllSize(s', x);
      assert RemoveAll(s, x) == Filter(s, (y: T) => y != x);
      assert RemoveAll(s', x) == Filter(s', (y: T) => y != x);
    }
  }

  /** No element occurs twice. */
  ghost predicate Distinct<T>(s: seq<T>) {
    forall i, j :: 0 <= i < j < |s| ==> s[i] != s[j]
  }

  /** A duplicate-free sequence has as many elements as the set of its elements. */
  lemma {:induction false} DistinctCard<T>(s: seq<T>)
    requires Distinct(s)
    ensures |set x | x in s| == |s|
  {
    if s != [] {
      var s' := s[..|s| - 1];
      DistinctCard(s');
      assert (set x | x in s) == (set x | x in s') + {s[|s| - 1]};
      assert s[|s| - 1] !in (set x | x in s');
    }
  }
}
