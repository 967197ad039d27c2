/** Generic sequence helpers shared by the pipeline: an Option type, an
    order-preserving filter (the pandas boolean mask), counting, a stable
    sort by a caller-given order (pandas `sort_values`) and a string join
    (Python `str.join`). */
module Seqs {

  datatype Option<T> = None | Some(value: T)

  /** Keeps, in order, the elements that satisfy `p` (a boolean mask). */
  function Filter<T(!new)>(s: seq<T>, p: T -> bool): (r: seq<T>)
    ensures |r| <= |s|
    ensures forall x :: x in r <==> x in s && p(x)
    ensures forall i :: 0 <= i < |r| ==> p(r[i])
    ensures multiset(r) <= multiset(s)
  {
    if s == [] then []
    else
      assert s == s[..|s| - 1] + [s[|s| - 1]];
      if p(s[|s| - 1]) then Filter(s[..|s| - 1], p) + [s[|s| - 1]]
    else Filter(s[..|s| - 1], p)
  }

  lemma FilterSnoc<T(!new)>(s: seq<T>, x: T, p: T -> bool)
    ensures Filter(s + [x], p) == if p(x) then Filter(s, p) + [x] else Filter(s, p)
  {
    assert (s + [x])[..|s|] == s;
  }

  /** Filtering by a predicate that every element meets changes nothing. */
  lemma {:induction false} FilterAll<T(!new)>(s: seq<T>, p: T -> bool)
    requires forall x :: x in s ==> p(x)
    ensures Filter(s, p) == s
  {
    if s != [] {
      var init := s[..|s| - 1];
      assert s == init + [s[|s| - 1]];
      FilterAll(init, p);
      FilterSnoc(init, s[|s| - 1], p);
    }
  }

  /** A filter keeps every element for which `p` holds, in full multiplicity. */
  lemma {:induction false} FilterMultiplicity<T(!new)>(s: seq<T>, p: T -> bool, x: T)
    ensures multiset(Filter(s, p))[x] == if p(x) then multiset(s)[x] else 0
  {
    if s != [] {
      var init := s[..|s| - 1];
      assert s == init + [s[|s| - 1]];
      FilterMultiplicity(init, p, x);
    }
  }

  /** The positions of `s` that `Filter` keeps, in increasing order: the
      result of a filter is a subsequence of its input. */
  function FilterIndices<T(!new)>(s: seq<T>, p: T -> bool): (idx: seq<nat>)
    ensures |idx| == |Filter(s, p)|
    ensures forall k :: 0 <= k < |idx| ==> idx[k] < |s| && Filter(s, p)[k] == s[idx[k]]
    ensures forall k, l :: 0 <= k < l < |idx| ==> idx[k] < idx[l]
  {
    if s == [] then []
    else
      var init := s[..|s| - 1];
      var rest := FilterIndices(init, p);
      if p(s[|s| - 1]) then rest + [|s| - 1] else rest
  }

  /** No element occurs twice. */
  predicate NoDuplicates<T(==)>(s: seq<T>)
  {
    forall i, j :: 0 <= i < j < |s| ==> s[i] != s[j]
  }

  /** The position of the first occurrence of `x` (Python `list.index`). */
  function IndexOf<T(==)>(s: seq<T>, x: T): (i: nat)
    requires x in s
    ensures i < |s| && s[i] == x
    ensures forall j :: 0 <= j < i ==> s[j] != x
  {
    if s[0] == x then 0 else 1 + IndexOf(s[1..], x)
  }

  /** A filter keeps the relative order of what it keeps: on a sequence
      without repeats, earlier results stand earlier in the input. */
  lemma FilterKeepsOrder<T(!new)>(s: seq<T>, p: T -> bool, k: int, l: int)
    requires NoDuplicates(s)
    requires 0 <= k < l < |Filter(s, p)|
    ensures Filter(s, p)[k] in s && Filter(s, p)[l] in s
    ensures IndexOf(s, Filter(s, p)[k]) < IndexOf(s, Filter(s, p)[l])
  {
    var idx := FilterIndices(s, p);
    assert IndexOf(s, s[idx[k]]) == idx[k];
    assert IndexOf(s, s[idx[l]]) == idx[l];
  }

  /** Number of elements satisfying `p`. */
  function Count<T(!new)>(s: seq<T>, p: T -> bool): nat
  {
    |Filter(s, p)|
  }

  lemma FilterSingleton<T(!new)>(x: T, p: T -> bool)
    requires p(x)
    ensures Filter([x], p) == [x]
  {
    assert [x][..0] == [];
  }

  lemma CountSnoc<T(!new)>(s: seq<T>, x: T, p: T -> bool)
    ensures Count(s + [x], p) == Count(s, p) + (if p(x) then 1 else 0)
  {
    FilterSnoc(s, x, p);
  }

  /** Applies `f` to every element, in order (a derived column). */
  function MapSeq<T, U>(s: seq<T>, f: T -> U): (r: seq<U>)
    ensures |r| == |s|
    ensures forall i :: 0 <= i < |s| ==> r[i] == f(s[i])
  {
    seq(|s|, i requires 0 <= i < |s| => f(s[i]))
  }

  lemma MapSeqMembers<T, U>(s: seq<T>, f: T -> U, y: U)
    ensures y in MapSeq(s, f) <==> exists x :: x in s && y == f(x)
  {
    if y in MapSeq(s, f) {
      var i :| 0 <= i < |s| && MapSeq(s, f)[i] == y;
      assert s[i] in s;
    }
    if x :| x in s && y == f(x) {
      var i :| 0 <= i < |s| && s[i] == x;
      assert MapSeq(s, f)[i] == y;
    }
  }

  // ---------------------------------------------------------------------
  // Sorting

  /** `le` is a total relation: any two elements can be placed in order. */
  ghost predicate Total<T(!new)>(le: (T, T) -> bool)
  {
    forall a, b :: le(a, b) || le(b, a)
  }

  /** Neighbouring elements are in `le` order. */
  ghost predicate SortedBy<T>(s: seq<T>, le: (T, T) -> bool)
  {
    forall i :: 0 <= i < |s| - 1 ==> le(s[i], s[i + 1])
  }

  /** Inserts `x` before the first element it may precede. */
  function InsertBy<T>(x: T, s: seq<T>, le: (T, T) -> bool): (r: seq<T>)
    ensures multiset(r) == multiset(s) + multiset{x}
    ensures |r| == |s| + 1
  {
    if s == [] then [x]
    else if le(x, s[0]) then [x] + s
    else
      assert s == [s[0]] + s[1..];
      [s[0]] + InsertBy(x, s[1..], le)
  }

  /** Stable insertion sort: elements that `le` ties keep their input order. */
  function SortBy<T>(s: seq<T>, le: (T, T) -> bool): (r: seq<T>)
    ensures multiset(r) == multiset(s)
    ensures |r| == |s|
  {
    if s == [] then []
    else
      assert s == [s[0]] + s[1..];
      InsertBy(s[0], SortBy(s[1..], le), le)
  }

  lemma {:induction false} InsertBySorted<T(!new)>(x: T, s: seq<T>, le: (T, T) -> bool)
    requires Total(le)
    requires SortedBy(s, le)
    ensures SortedBy(InsertBy(x, s, le), le)
    ensures s != [] ==> InsertBy(x, s, le)[0] == x || InsertBy(x, s, le)[0] == s[0]
  {
    if s != [] && !le(x, s[0]) {
      assert le(s[0], x);
      InsertBySorted(x, s[1..], le);
      var r := InsertBy(x, s, le);
      var t := InsertBy(x, s[1..], le);
      assert r == [s[0]] + t;
      forall i | 0 <= i < |r| - 1
        ensures le(r[i], r[i + 1])
      {
        if i > 0 {
          assert r[i] == t[i - 1] && r[i + 1] == t[i];
        }
      }
    }
  }

  /** The sort delivers a sorted permutation of its input. */
  lemma {:induction false} SortBySorted<T(!new)>(s: seq<T>, le: (T, T) -> bool)
    requires Total(le)
    ensures SortedBy(SortBy(s, le), le)
    ensures multiset(SortBy(s, le)) == multiset(s)
  {
    if s != [] {
      SortBySorted(s[1..], le);
      InsertBySorted(s[0], SortBy(s[1..], le), le);
    }
  }

  /** Sorting keeps exactly the elements it was given. */
  lemma SortByMembers<T>(s: seq<T>, le: (T, T) -> bool, x: T)
    ensures x in SortBy(s, le) <==> x in s
  {
    assert x in SortBy(s, le) <==> x in multiset(SortBy(s, le));
  }

  /** For a transitive order, neighbour-wise order gives order between any two positions. */
  lemma {:induction false} SortedByPairwise<T(!new)>(s: seq<T>, le: (T, T) -> bool, i: int, j: int)
    requires forall a, b, c :: le(a, b) && le(b, c) ==> le(a, c)
    requires forall a :: le(a, a)
    requires SortedBy(s, le)
    requires 0 <= i <= j < |s|
    ensures le(s[i], s[j])
    decreases j - i
  {
    if i < j {
      SortedByPairwise(s, le, i + 1, j);
      assert le(s[i], s[i + 1]);
    }
  }

  /** A prefix takes part of a sequence's elements and leaves the suffix's. */
  lemma PrefixRemainder<T>(s: seq<T>, k: int)
    requires 0 <= k <= |s|
    ensures multiset(s) - multiset(s[..k]) == multiset(s[k..])
    ensures multiset(s[..k]) <= multiset(s)
  {
    assert s == s[..k] + s[k..];
  }

  /** Concatenation regroups freely; stated on its own so that callers with
      long string terms in scope need not unfold both sides. */
  lemma ConcatAssoc<T>(a: seq<T>, b: seq<T>, c: seq<T>)
    ensures a + b + c == a + (b + c)
  {
  }

  // ---------------------------------------------------------------------
  // Joining strings

  /** Python's `sep.join(items)`. */
  function Join(sep: string, items: seq<string>): string
  {
    if items == [] then ""
    else if |items| == 1 then items[0]
    else items[0] + sep + Join(sep, items[1..])
  }

  /** Joining one more item at the end adds the separator and the item. */
  lemma {:induction false} JoinSnoc(sep: string, items: seq<string>, x: string)
    requires items != []
    ensures Join(sep, items + [x]) == Join(sep, items) + sep + x
  {
    if |items| == 1 {
      assert items + [x] == [items[0], x];
      assert Join(sep, [x]) == x;
    } else {
      assert (items + [x])[1..] == items[1..] + [x];
      JoinSnoc(sep, items[1..], x);
    }
  }

  /** `t` is a contiguous part of `s`. */
  ghost predicate Occurs(t: string, s: string)
  {
    t <= s || (s != [] && Occurs(t, s[1..]))
  }

  lemma {:induction false} OccursLeft(t: string, a: string, b: string)
    requires Occurs(t, a)
    ensures Occurs(t, a + b)
  {
    if !(t <= a) {
      OccursLeft(t, a[1..], b);
      assert (a + b)[1..] == a[1..] + b;
    }
  }

  lemma {:induction false} OccursRight(t: string, a: string, b: string)
    requires Occurs(t, b)
    ensures Occurs(t, a + b)
  {
    if a == [] {
      assert a + b == b;
    } else {
      OccursRight(t, a[1..], b);
      assert (a + b)[1..] == a[1..] + b;
    }
  }

  /** A text occurs in any text built around it. */
  lemma OccursAround(t: string, a: string, b: string)
    ensures Occurs(t, a + t + b)
  {
    assert t <= t;
    OccursRight(t, a, t);
    OccursLeft(t, a + t, b);
  }

  /** Every item of a joined list appears in the joined text. */
  lemma {:induction false} JoinMentions(sep: string, items: seq<string>, x: string)
    requires x in items
    ensures Occurs(x, Join(sep, items))
  {
    if |items| == 1 {
      assert x <= Join(sep, items);
    } else if items[0] == x {
      assert x <= x + sep + Join(sep, items[1..]);
    } else {
      JoinMentions(sep, items[1..], x);
      OccursRight(x, items[0] + sep, Join(sep, items[1..]));
    }
  }
}
