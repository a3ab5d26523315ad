/** The array builtins the ledger and its pages use, on sequences:
    `filter` (order-preserving selection) and `sort` with a comparator
    (an insertion sort: the result is ordered and a permutation of its
    input), with the facts about them that the rest of the model needs. */
module Seqs {

  /** `rel` holds of every pair of elements in the order they appear. */
  ghost predicate Pairwise<T(!new)>(s: seq<T>, rel: (T, T) -> bool) {
    forall i, j :: 0 <= i < j < |s| ==> rel(s[i], s[j])
  }

  /** No element occurs twice. */
  ghost predicate NoDup<T(!new)>(s: seq<T>) {
    forall i, j :: 0 <= i < j < |s| ==> s[i] != s[j]
  }

  /** `a` is `b` with some elements left out, the rest in their order. */
  ghost predicate SubsequenceOf<T(!new)>(a: seq<T>, b: seq<T>)
    decreases |b|
  {
    if a == [] then true
    else if b == [] then false
    else (a[0] == b[0] && SubsequenceOf(a[1..], b[1..])) || SubsequenceOf(a, b[1..])
  }

  /** `s.filter(keep)`: exactly the elements of `s` that satisfy `keep`. */
  function Filter<T(!new)>(s: seq<T>, keep: T -> bool): (r: seq<T>)
    ensures |r| <= |s|
    ensures forall x :: x in r <==> x in s && keep(x)
  {
    if s == [] then []
    else
      assert forall x :: x in s <==> x == s[0] || x in s[1..];
      (if keep(s[0]) then [s[0]] else []) + Filter(s[1..], keep)
  }

  /** `filter` keeps the order of what it keeps. */
  lemma {:induction false} FilterIsSubsequence<T(!new)>(s: seq<T>, keep: T -> bool)
    ensures SubsequenceOf(Filter(s, keep), s)
  {
    if s != [] {
      FilterIsSubsequence(s[1..], keep);
      var rest := Filter(s[1..], keep);
      if keep(s[0]) {
        assert Filter(s, keep) == [s[0]] + rest;
        assert ([s[0]] + rest)[1..] == rest;
      } else {
        assert Filter(s, keep) == rest;
        SubsequenceDrop(rest, s);
      }
    }
  }

  /** Filtering a concatenation filters each part. */
  lemma {:induction false} FilterConcat<T(!new)>(a: seq<T>, b: seq<T>, keep: T -> bool)
    ensures Filter(a + b, keep) == Filter(a, keep) + Filter(b, keep)
  {
    if a == [] {
      assert a + b == b;
    } else {
      assert (a + b)[0] == a[0] && (a + b)[1..] == a[1..] + b;
      FilterConcat(a[1..], b, keep);
    }
  }

  /** Dropping the head of the longer sequence is one of the two ways a
      subsequence is built. */
  lemma SubsequenceDrop<T(!new)>(a: seq<T>, b: seq<T>)
    requires b != [] && SubsequenceOf(a, b[1..])
    ensures SubsequenceOf(a, b)
  {
  }

  /** Every element of a subsequence is an element of the sequence. */
  lemma {:induction false} SubsequenceMembers<T(!new)>(a: seq<T>, b: seq<T>)
    requires SubsequenceOf(a, b)
    ensures forall x :: x in a ==> x in b
    decreases |b|
  {
    if a != [] {
      if a[0] == b[0] && SubsequenceOf(a[1..], b[1..]) {
        SubsequenceMembers(a[1..], b[1..]);
        assert forall x :: x in a ==> x == a[0] || x in a[1..];
      } else {
        SubsequenceMembers(a, b[1..]);
      }
    }
  }

  /** A relation that holds pairwise along a sequence holds pairwise along
      each of its subsequences (so a sorted list stays sorted and a list
      without duplicates stays so when filtered). */
  lemma {:induction false} SubsequencePairwise<T(!new)>(a: seq<T>, b: seq<T>, rel: (T, T) -> bool)
    requires SubsequenceOf(a, b) && Pairwise(b, rel)
    ensures Pairwise(a, rel)
    decreases |b|
  {
    if a != [] {
      if a[0] == b[0] && SubsequenceOf(a[1..], b[1..]) {
        SubsequencePairwise(a[1..], b[1..], rel);
        SubsequenceMembers(a[1..], b[1..]);
        forall i, j | 0 <= i < j < |a| ensures rel(a[i], a[j]) {
          if i == 0 {
            assert a[j] == a[1..][j - 1] && a[j] in a[1..];
            var k :| 0 <= k < |b[1..]| && b[1..][k] == a[j];
            assert rel(b[0], b[k + 1]);
          } else {
            assert a[i] == a[1..][i - 1] && a[j] == a[1..][j - 1];
          }
        }
      } else {
        SubsequencePairwise(a, b[1..], rel);
      }
    }
  }

  lemma SubsequenceNoDup<T(!new)>(a: seq<T>, b: seq<T>)
    requires SubsequenceOf(a, b) && NoDup(b)
    ensures NoDup(a)
  {
    SubsequencePairwise(a, b, (x: T, y: T) => x != y);
  }

  /** A sequence is what comes before `i`, the element at `i`, and what
      comes after. */
  lemma SplitAt<T>(b: seq<T>, i: int)
    requires 0 <= i < |b|
    ensures b == (b[..i] + [b[i]]) + b[i + 1..]
  {
  }

  /** A sequence ordered by a relation that no element has to itself has
      no duplicates (ascending ids, say). */
  lemma PairwiseIrreflexiveNoDup<T(!new)>(s: seq<T>, rel: (T, T) -> bool)
    requires Pairwise(s, rel)
    requires forall x :: !rel(x, x)
    ensures NoDup(s)
  {
  }

  /** A filter that keeps everything returns its input. */
  lemma {:induction false} FilterAll<T(!new)>(s: seq<T>, keep: T -> bool)
    requires forall i :: 0 <= i < |s| ==> keep(s[i])
    ensures Filter(s, keep) == s
  {
    if s != [] {
      FilterAll(s[1..], keep);
    }
  }

  /** Removing the element at `i` from a list without duplicates leaves a
      list without duplicates holding every other element. */
  lemma RemoveAtNoDup<T(!new)>(b: seq<T>, i: int)
    requires NoDup(b) && 0 <= i < |b|
    ensures NoDup(b[..i] + b[i + 1..])
    ensures forall y :: y in b[..i] + b[i + 1..] <==> y in b && y != b[i]
  {
    var rest := b[..i] + b[i + 1..];
    forall j, k | 0 <= j < k < |rest| ensures rest[j] != rest[k] {
      var j', k' := if j < i then j else j + 1, if k < i then k else k + 1;
      assert rest[j] == b[j'] && rest[k] == b[k'];
    }
    forall y ensures y in rest <==> y in b && y != b[i] {
      if y in rest {
        var k :| 0 <= k < |rest| && rest[k] == y;
        var k' := if k < i then k else k + 1;
        assert b[k'] == y && k' != i;
      }
      if y in b && y != b[i] {
        var k :| 0 <= k < |b| && b[k] == y;
        if k < i { assert rest[k] == y; } else { assert rest[k - 1] == y; }
      }
    }
  }

  /** Filters that agree on the elements of `s` return the same list. */
  lemma {:induction false} FilterAgreeing<T(!new)>(s: seq<T>, keep: T -> bool, keep': T -> bool)
    requires forall i :: 0 <= i < |s| ==> keep(s[i]) == keep'(s[i])
    ensures Filter(s, keep) == Filter(s, keep')
  {
    if s != [] {
      FilterAgreeing(s[1..], keep, keep');
    }
  }

  /** Removing the element at `i` removes one occurrence of it. */
  lemma RemoveAtMultiset<T(!new)>(b: seq<T>, i: int)
    requires 0 <= i < |b|
    ensures multiset(b) == multiset(b[..i] + b[i + 1..]) + multiset{b[i]}
  {
    assert b == b[..i] + [b[i]] + b[i + 1..];
  }

  /** Taking the same element out of two lists without duplicates that
      have the same elements leaves two such lists. */
  lemma RemoveBoth<T(!new)>(a: seq<T>, b: seq<T>, i: int)
    requires NoDup(a) && NoDup(b)
    requires forall x :: x in a <==> x in b
    requires a != [] && 0 <= i < |b| && b[i] == a[0]
    ensures NoDup(a[1..]) && NoDup(b[..i] + b[i + 1..])
    ensures forall y :: y in a[1..] <==> y in b[..i] + b[i + 1..]
  {
    assert a[..0] + a[1..] == a[1..];
    RemoveAtNoDup(b, i);
    RemoveAtNoDup(a, 0);
    forall y ensures y in a[1..] <==> y in b[..i] + b[i + 1..] {
      assert y in a[1..] <==> y in a && y != a[0];
    }
  }

  /** A list with no members is empty. */
  lemma NoMembers<T(!new)>(s: seq<T>)
    requires forall x :: x !in s
    ensures s == []
  {
    forall x ensures multiset(s)[x] == 0 {
      assert x !in s;
    }
    assert multiset(s) == multiset{};
    assert |s| == |multiset(s)|;
  }

  /** Two lists without duplicates that have the same elements are
      permutations of each other. */
  lemma {:induction false} SameMembersPermutation<T(!new)>(a: seq<T>, b: seq<T>)
    requires NoDup(a) && NoDup(b)
    requires forall x :: x in a <==> x in b
    ensures multiset(a) == multiset(b)
    decreases |a|
  {
    if a != [] {
      var x := a[0];
      assert x in a;
      var i :| 0 <= i < |b| && b[i] == x;
      RemoveBoth(a, b, i);
      SameMembersPermutation(a[1..], b[..i] + b[i + 1..]);
      RemoveAtMultiset(b, i);
      assert a == [a[0]] + a[1..];
    } else {
      NoMembers(b);
    }
  }

  /** `le` orders every two elements, transitively. */
  ghost predicate TotalPreorder<T(!new)>(le: (T, T) -> bool) {
    && (forall a, b :: le(a, b) || le(b, a))
    && (forall a, b, c :: le(a, b) && le(b, c) ==> le(a, c))
  }

  /** Insert `x` before the first element it may precede. */
  function Insert<T(!new)>(x: T, s: seq<T>, le: (T, T) -> bool): (r: seq<T>)
    ensures |r| == |s| + 1
    ensures multiset(r) == multiset(s) + multiset{x}
  {
    if s == [] then [x]
    else if le(x, s[0]) then [x] + s
    else
      assert s == [s[0]] + s[1..];
      [s[0]] + Insert(x, s[1..], le)
  }

  /** `s.sort(le)`: a permutation of `s`. */
  function Sort<T(!new)>(s: seq<T>, le: (T, T) -> bool): (r: seq<T>)
    ensures |r| == |s|
    ensures multiset(r) == multiset(s)
    ensures forall x :: x in r <==> x in s
  {
    if s == [] then []
    else
      assert s == [s[0]] + s[1..];
      var r := Insert(s[0], Sort(s[1..], le), le);
      assert forall x :: x in r <==> x in multiset(r);
      r
  }

  lemma {:induction false} InsertOrdered<T(!new)>(x: T, s: seq<T>, le: (T, T) -> bool)
    requires TotalPreorder(le) && Pairwise(s, le)
    ensures Pairwise(Insert(x, s, le), le)
    decreases |s|
  {
    if s != [] && !le(x, s[0]) {
      var rest := Insert(x, s[1..], le);
      InsertOrdered(x, s[1..], le);
      var r := [s[0]] + rest;
      forall i, j | 0 <= i < j < |r| ensures le(r[i], r[j]) {
        if i == 0 {
          var y := rest[j - 1];
          assert y in multiset(rest);
          if y != x {
            assert y in s[1..];
            var k :| 0 <= k < |s[1..]| && s[1..][k] == y;
            assert le(s[0], s[k + 1]);
          }
        } else {
          assert r[i] == rest[i - 1] && r[j] == rest[j - 1];
        }
      }
    }
  }

  /** The result of `Sort` is ordered by `le`. */
  lemma {:induction false} SortOrdered<T(!new)>(s: seq<T>, le: (T, T) -> bool)
    requires TotalPreorder(le)
    ensures Pairwise(Sort(s, le), le)
  {
    if s != [] {
      SortOrdered(s[1..], le);
      InsertOrdered(s[0], Sort(s[1..], le), le);
    }
  }

  lemma {:induction false} InsertNoDup<T(!new)>(x: T, s: seq<T>, le: (T, T) -> bool)
    requires NoDup(s) && x !in s
    ensures NoDup(Insert(x, s, le))
    decreases |s|
  {
    if s != [] && !le(x, s[0]) {
      assert x !in s[1..];
      InsertNoDup(x, s[1..], le);
      var rest := Insert(x, s[1..], le);
      forall k | 0 <= k < |s[1..]| ensures s[1..][k] != s[0] {
        assert s[1..][k] == s[k + 1];
      }
      assert s[0] !in multiset(s[1..]);
      assert s[0] !in multiset(rest);
      var r := [s[0]] + rest;
      forall i, j | 0 <= i < j < |r| ensures r[i] != r[j] {
        assert r[j] == rest[j - 1];
        if i > 0 { assert r[i] == rest[i - 1]; }
      }
    }
  }

  /** Sorting a list without duplicates gives a list without duplicates. */
  lemma {:induction false} SortNoDup<T(!new)>(s: seq<T>, le: (T, T) -> bool)
    requires NoDup(s)
    ensures NoDup(Sort(s, le))
  {
    if s != [] {
      forall k | 0 <= k < |s[1..]| ensures s[1..][k] != s[0] {
        assert s[1..][k] == s[k + 1];
      }
      SortNoDup(s[1..], le);
      InsertNoDup(s[0], Sort(s[1..], le), le);
    }
  }
}
