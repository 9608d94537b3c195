/** Sequence operations with the meaning the store's array updates and queries give them:
    `$addToSet`, `$pull`, `Array.prototype.filter`, and a stable sort for `.sort(...)`. */
module Seqs {

  /** No element occurs twice: the set semantics the id lists are meant to have. */
  predicate NoDup<T(==)>(s: seq<T>) {
    forall i, j | 0 <= i < j < |s| :: s[i] != s[j]
  }

  /** `$addToSet`, or `if (!s.includes(x)) s.push(x)`: append `x` unless already present. */
  function AddToSet<T(==,!new)>(s: seq<T>, x: T): (r: seq<T>)
    ensures forall y :: y in r <==> y in s || y == x
    ensures x in s ==> r == s
    ensures x !in s ==> r == s + [x]
    ensures NoDup(s) ==> NoDup(r)
  {
    if x in s then s else s + [x]
  }

  /** `$pull`, or `s.filter(y => y !== x)`: every occurrence of `x` removed, the rest kept in order. */
  function RemoveAll<T(==,!new)>(s: seq<T>, x: T): (r: seq<T>)
    ensures forall y :: y in r <==> y in s && y != x
    ensures |r| <= |s|
    ensures x !in s ==> r == s
    ensures x in s ==> |r| < |s|
  {
    if s == [] then [] else (if s[0] == x then [] else [s[0]]) + RemoveAll(s[1..], x)
  }

  /** Removing `x` keeps the remaining elements distinct. */
  lemma {:induction false} RemoveAllNoDup<T(!new)>(s: seq<T>, x: T)
    requires NoDup(s)
    ensures NoDup(RemoveAll(s, x))
  {
    if s != [] {
      assert NoDup(s[1..]) by {
        forall i, j | 0 <= i < j < |s| - 1 ensures s[1..][i] != s[1..][j] {
          assert s[i + 1] != s[j + 1];
        }
      }
      RemoveAllNoDup(s[1..], x);
      var rest := RemoveAll(s[1..], x);
      assert s[0] !in s[1..] by {
        forall k | 0 <= k < |s| - 1 ensures s[1..][k] != s[0] { assert s[0] != s[k + 1]; }
      }
      assert s[0] !in rest;
    }
  }

  /** Removing an element that was appended to a list not containing it restores the list. */
  lemma {:induction false} RemoveAllAppended<T(!new)>(s: seq<T>, x: T)
    requires x !in s
    ensures RemoveAll(s + [x], x) == s
  {
    if s == [] {
      assert [x][1..] == [];
    } else {
      assert (s + [x])[1..] == s[1..] + [x];
      RemoveAllAppended(s[1..], x);
    }
  }

  /** Adding then pulling an absent element is the identity. */
  lemma AddThenRemove<T(!new)>(s: seq<T>, x: T)
    requires x !in s
    ensures RemoveAll(AddToSet(s, x), x) == s
  {
    RemoveAllAppended(s, x);
  }

  /** `s.filter(p)`: the elements satisfying `p`, in their original order. */
  function Filter<T(!new)>(s: seq<T>, p: T -> bool): (r: seq<T>)
    ensures |r| <= |s|
    ensures forall y :: y in r <==> y in s && p(y)
    ensures forall k | 0 <= k < |r| :: p(r[k])
  {
    if s == [] then [] else (if p(s[0]) then [s[0]] else []) + Filter(s[1..], p)
  }

  /** Two tests that agree on the elements of `s` keep the same elements. */
  lemma {:induction false} FilterSameTest<T(!new)>(s: seq<T>, p: T -> bool, q: T -> bool)
    requires forall k | 0 <= k < |s| :: p(s[k]) == q(s[k])
    ensures Filter(s, p) == Filter(s, q)
  {
    if s != [] {
      FilterSameTest(s[1..], p, q);
    }
  }

  /** A prefix holds some of the elements of the whole. */
  lemma TakeSubMultiset<T>(s: seq<T>, m: nat)
    requires m <= |s|
    ensures multiset(s[..m]) <= multiset(s)
  {
    assert s == s[..m] + s[m..];
  }

  /** Filtering distributes over concatenation, so the original order is kept. */
  lemma {:induction false} FilterAppend<T(!new)>(a: seq<T>, b: seq<T>, p: T -> bool)
    ensures Filter(a + b, p) == Filter(a, p) + Filter(b, p)
  {
    if a != [] {
      assert (a + b)[1..] == a[1..] + b;
      FilterAppend(a[1..], b, p);
    } else {
      assert a + b == b;
    }
  }

  /** Filtering keeps an element exactly as often as it occurs, when it passes: the result
      is the sub-multiset of passing elements. */
  lemma {:induction false} FilterMultiset<T(!new)>(s: seq<T>, p: T -> bool, y: T)
    ensures multiset(Filter(s, p))[y] == if p(y) then multiset(s)[y] else 0
  {
    if s != [] {
      FilterMultiset(s[1..], p, y);
      assert s == [s[0]] + s[1..];
    }
  }

  /** `le` is a total preorder: every pair is comparable and the relation is transitive. */
  ghost predicate TotalPreorder<T(!new)>(le: (T, T) -> bool) {
    && (forall a, b :: le(a, b) || le(b, a))
    && (forall a, b, c :: le(a, b) && le(b, c) ==> le(a, c))
  }

  /** Every element is `le`-below every later element. */
  ghost predicate SortedBy<T>(s: seq<T>, le: (T, T) -> bool) {
    forall i, j | 0 <= i < j < |s| :: le(s[i], s[j])
  }

  /** The tail of a sorted sequence is sorted. */
  lemma SortedTail<T>(s: seq<T>, le: (T, T) -> bool)
    requires s != [] && SortedBy(s, le)
    ensures SortedBy(s[1..], le)
  {
    forall i, j | 0 <= i < j < |s| - 1 ensures le(s[1..][i], s[1..][j]) {
      assert le(s[i + 1], s[j + 1]);
    }
  }

  /** What is below the head of a sorted sequence is below all of it. */
  lemma BelowHead<T(!new)>(x: T, s: seq<T>, le: (T, T) -> bool)
    requires TotalPreorder(le) && s != [] && SortedBy(s, le) && le(x, s[0])
    ensures forall k | 0 <= k < |s| :: le(x, s[k])
  {
    forall k | 0 <= k < |s| ensures le(x, s[k]) {
      if k > 0 {
        assert le(s[0], s[k]);
      }
    }
  }

  /** Every element of a permutation of the tail is above the head. */
  lemma HeadBelow<T>(s: seq<T>, rest: seq<T>, x: T, le: (T, T) -> bool)
    requires s != [] && SortedBy(s, le) && le(s[0], x)
    requires multiset(rest) == multiset(s[1..]) + multiset{x}
    ensures forall k | 0 <= k < |rest| :: le(s[0], rest[k])
  {
    forall k | 0 <= k < |rest| ensures le(s[0], rest[k]) {
      assert rest[k] in multiset(rest);
      if rest[k] != x {
        assert rest[k] in multiset(s[1..]);
        var j :| 0 <= j < |s| - 1 && s[1..][j] == rest[k];
        assert le(s[0], s[j + 1]);
      }
    }
  }

  /** Insert `x` before the first element it is `le`-below (so after its equals). */
  function Insert<T(!new)>(x: T, s: seq<T>, le: (T, T) -> bool): (r: seq<T>)
    requires TotalPreorder(le)
    requires SortedBy(s, le)
    ensures multiset(r) == multiset(s) + multiset{x}
    ensures SortedBy(r, le)
  {
    if s == [] then [x]
    else if le(x, s[0]) then
      BelowHead(x, s, le);
      [x] + s
    else
      SortedTail(s, le);
      var rest := Insert(x, s[1..], le);
      assert s == [s[0]] + s[1..];
      HeadBelow(s, rest, x, le);
      [s[0]] + rest
  }

  /** Stable insertion sort by `le`: sorted, and a permutation of the input. */
  function Sort<T(!new)>(s: seq<T>, le: (T, T) -> bool): (r: seq<T>)
    requires TotalPreorder(le)
    ensures multiset(r) == multiset(s)
    ensures |r| == |s|
    ensures SortedBy(r, le)
  {
    if s == [] then []
    else
      assert s == [s[0]] + s[1..];
      var r := Insert(s[0], Sort(s[1..], le), le);
      assert |r| == |multiset(r)| == |multiset(s)| == |s|;
      r
  }

  /** Sorting keeps exactly the elements of the input. */
  lemma SortMembers<T(!new)>(s: seq<T>, le: (T, T) -> bool, y: T)
    requires TotalPreorder(le)
    ensures y in Sort(s, le) <==> y in s
  {
    assert y in Sort(s, le) <==> y in multiset(Sort(s, le));
  }
}
