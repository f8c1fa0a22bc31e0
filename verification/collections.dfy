/** Sequence helpers shared by the query handlers: an optional value, order-keeping
    filtering (the ORM's `filter`/`exclude`), and sorting by a total preorder (the ORM's
    `order_by`, which leaves the relative order of equal keys unspecified). */
module Collections {

  datatype Option<+T> = None | Some(value: T)

  /** The elements of `s` that satisfy `p`, in their original order. */
  function Filter<T(!new)>(s: seq<T>, p: T -> bool): (r: seq<T>)
    ensures |r| <= |s|
    ensures forall x :: x in r <==> x in s && p(x)
    ensures forall i :: 0 <= i < |r| ==> p(r[i])
    ensures multiset(r) <= multiset(s)
  {
    if s == [] then []
    else
      assert s == [s[0]] + s[1..];
      if p(s[0]) then [s[0]] + Filter(s[1..], p) else Filter(s[1..], p)
  }

  /** Keeping everything keeps the sequence as it is. */
  lemma {:induction false} FilterAll<T(!new)>(s: seq<T>, p: T -> bool)
    requires forall x :: x in s ==> p(x)
    ensures Filter(s, p) == s
  {
    if s != [] {
      FilterAll(s[1..], p);
    }
  }

  /** `le` orders every pair of values and is transitive. */
  ghost predicate TotalPreorder<T(!new)>(le: (T, T) -> bool) {
    && (forall a, b :: le(a, b) || le(b, a))
    && (forall a, b, c :: le(a, b) && le(b, c) ==> le(a, c))
  }

  predicate SortedBy<T>(s: seq<T>, le: (T, T) -> bool) {
    forall i, j :: 0 <= i < j < |s| ==> le(s[i], s[j])
  }

  /** Places `x` into the sorted sequence `s`, before the first element it may precede. */
  function Insert<T(!new)>(x: T, s: seq<T>, le: (T, T) -> bool): (r: seq<T>)
    requires TotalPreorder(le)
    requires SortedBy(s, le)
    ensures SortedBy(r, le)
    ensures multiset(r) == multiset(s) + multiset{x}
  {
    if s == [] then
      [x]
    else if le(x, s[0]) then
      PrependSorted(x, s, le);
      [x] + s
    else
      var tail := Insert(x, s[1..], le);
      assert s == [s[0]] + s[1..];
      assert forall y :: y in tail ==> y == x || y in s[1..] by {
        forall y | y in tail ensures y == x || y in s[1..] {
          assert y in multiset(tail);
        }
      }
      PrependSorted(s[0], tail, le);
      [s[0]] + tail
  }

  /** A value that may precede the head of a sorted sequence may precede all of it. */
  lemma PrependSorted<T(!new)>(x: T, s: seq<T>, le: (T, T) -> bool)
    requires TotalPreorder(le)
    requires SortedBy(s, le)
    requires s == [] || le(x, s[0]) || forall y :: y in s ==> le(x, y)
    ensures SortedBy([x] + s, le)
  {
    var r := [x] + s;
    forall i, j | 0 <= i < j < |r| ensures le(r[i], r[j]) {
      if i == 0 {
        assert r[j] == s[j - 1];
        if !(forall y :: y in s ==> le(x, y)) {
          assert le(x, s[0]);
          if j > 1 {
            assert le(s[0], s[j - 1]);
          }
        }
      } else {
        assert r[i] == s[i - 1] && r[j] == s[j - 1];
      }
    }
  }

  /** Insertion sort: an ordered permutation of `s`. */
  function SortBy<T(!new)>(s: seq<T>, le: (T, T) -> bool): (r: seq<T>)
    requires TotalPreorder(le)
    ensures SortedBy(r, le)
    ensures multiset(r) == multiset(s)
  {
    if s == [] then []
    else
      assert s == [s[0]] + s[1..];
      Insert(s[0], SortBy(s[1..], le), le)
  }

  /** Taking the same element off two permutations of each other leaves permutations. */
  lemma RemoveMatching<T>(a: seq<T>, b: seq<T>, k: int)
    requires multiset(a) == multiset(b)
    requires a != [] && 0 <= k < |b| && b[k] == a[0]
    ensures multiset(a[1..]) == multiset(b[..k] + b[k + 1..])
  {
    assert a == [a[0]] + a[1..];
    assert b == b[..k] + [b[k]] + b[k + 1..];
    var rest := b[..k] + b[k + 1..];
    assert multiset(b) == multiset(rest) + multiset{b[k]};
    assert multiset(a) == multiset(a[1..]) + multiset{a[0]};
    forall x ensures multiset(a[1..])[x] == multiset(rest)[x] {
      assert multiset(a)[x] == multiset(b)[x];
    }
  }

  /** Filters with pointwise-equal predicates agree. */
  lemma {:induction false} FilterExtensional<T(!new)>(s: seq<T>, p: T -> bool, q: T -> bool)
    requires forall x :: x in s ==> p(x) == q(x)
    ensures Filter(s, p) == Filter(s, q)
  {
    if s != [] {
      FilterExtensional(s[1..], p, q);
    }
  }

  /** Filtering an extended sequence filters the extension too. */
  lemma {:induction false} FilterAppend<T(!new)>(s: seq<T>, x: T, p: T -> bool)
    ensures Filter(s + [x], p) == Filter(s, p) + (if p(x) then [x] else [])
  {
    if s == [] {
      assert s + [x] == [x];
    } else {
      assert (s + [x])[1..] == s[1..] + [x];
      FilterAppend(s[1..], x, p);
    }
  }

  /** Splitting the kept elements by a second condition splits their number. */
  lemma {:induction false} FilterSplit<T(!new)>(s: seq<T>, p: T -> bool, pq: T -> bool, pnq: T -> bool, q: T -> bool)
    requires forall x :: pq(x) == (p(x) && q(x)) && pnq(x) == (p(x) && !q(x))
    ensures |Filter(s, p)| == |Filter(s, pq)| + |Filter(s, pnq)|
  {
    if s != [] {
      FilterSplit(s[1..], p, pq, pnq, q);
    }
  }

  /** Two equally long sequences, where an element kept from `b` always faces one kept
      from `a`: `b` keeps no more elements than `a`. */
  lemma {:induction false} FilterCountMonotone<T(!new)>(a: seq<T>, b: seq<T>, p: T -> bool, q: T -> bool)
    requires |a| == |b|
    requires forall i :: 0 <= i < |b| ==> q(b[i]) ==> p(a[i])
    ensures |Filter(b, q)| <= |Filter(a, p)|
  {
    if a != [] {
      FilterCountMonotone(a[1..], b[1..], p, q);
    }
  }

  /** As above, with the two conditions in step everywhere: equally many are kept. */
  lemma {:induction false} FilterCountEqual<T(!new)>(a: seq<T>, b: seq<T>, p: T -> bool, q: T -> bool)
    requires |a| == |b|
    requires forall i :: 0 <= i < |b| ==> q(b[i]) == p(a[i])
    ensures |Filter(b, q)| == |Filter(a, p)|
  {
    if a != [] {
      FilterCountEqual(a[1..], b[1..], p, q);
    }
  }

  /** The positions of `s` whose element satisfies `p`. */
  ghost function Kept<T>(s: seq<T>, p: T -> bool): set<int> {
    set i | 0 <= i < |s| && p(s[i])
  }

  /** Extending a sequence adds its last position to the kept ones, if it is kept. */
  lemma KeptAppend<T>(s: seq<T>, x: T, p: T -> bool)
    ensures Kept(s + [x], p) == Kept(s, p) + (if p(x) then {|s|} else {})
  {
    var t := s + [x];
    forall i | i in Kept(t, p) ensures i in Kept(s, p) || (p(x) && i == |s|) {
      if i < |s| {
        assert t[i] == s[i];
      }
    }
    forall i | i in Kept(s, p) ensures i in Kept(t, p) {
      assert t[i] == s[i];
    }
    if p(x) {
      assert t[|s|] == x;
    }
  }

  /** The number of kept elements is the number of positions whose element satisfies `p`. */
  lemma {:induction false} FilterCount<T(!new)>(s: seq<T>, p: T -> bool)
    ensures |Filter(s, p)| == |set i | 0 <= i < |s| && p(s[i])|
    decreases |s|
  {
    if s == [] {
      assert Kept(s, p) == {};
    } else {
      var init := s[..|s| - 1];
      var x := s[|s| - 1];
      assert s == init + [x];
      FilterAppend(init, x, p);
      FilterCount(init, p);
      KeptAppend(init, x, p);
      assert |init| !in Kept(init, p);
    }
    assert Kept(s, p) == set i | 0 <= i < |s| && p(s[i]);
  }
}
