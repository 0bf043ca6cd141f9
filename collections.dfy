/** Generic sequence vocabulary shared by the model: an optional value, an
    order-preserving filter, a first-match search, an insertion sort,
    flattening and key-ordered sequences. */
module Collections {

  /** An optional value; `None` stands for a missing row or an absent field. */
  datatype Option<T> = None | Some(value: T)

  /** The elements of `s` that satisfy `p`, in their original order. */
  function Filter<T(!new)>(s: seq<T>, p: T -> bool): (r: seq<T>)
    ensures |r| <= |s|
    ensures forall x :: x in r <==> x in s && p(x)
    decreases |s|
  {
    if s == [] then []
    else if p(s[0]) then [s[0]] + Filter(s[1..], p)
    else Filter(s[1..], p)
  }

  /** Filtering keeps every kept value as often as it occurred and drops every other value. */
  lemma {:induction false} FilterCount<T(!new)>(s: seq<T>, p: T -> bool, x: T)
    ensures multiset(Filter(s, p))[x] == if p(x) then multiset(s)[x] else 0
    decreases |s|
  {
    if s != [] {
      var rest := Filter(s[1..], p);
      FilterCount(s[1..], p, x);
      assert s == [s[0]] + s[1..];
      assert multiset(s) == multiset{s[0]} + multiset(s[1..]);
      if p(s[0]) {
        assert multiset(Filter(s, p)) == multiset{s[0]} + multiset(rest);
      } else {
        assert Filter(s, p) == rest;
      }
    }
  }

  /** Filtering distributes over concatenation. */
  lemma {:induction false} FilterAppend<T(!new)>(s: seq<T>, t: seq<T>, p: T -> bool)
    ensures Filter(s + t, p) == Filter(s, p) + Filter(t, p)
    decreases |s|
  {
    if s != [] {
      assert (s + t)[0] == s[0];
      assert (s + t)[1..] == s[1..] + t;
      FilterAppend(s[1..], t, p);
    } else {
      assert s + t == t;
    }
  }

  /** The index of the first element satisfying `p`, if there is one. */
  function FindFirst<T>(s: seq<T>, p: T -> bool): (r: Option<nat>)
    ensures r.Some? ==> r.value < |s| && p(s[r.value])
    ensures r.Some? ==> forall i :: 0 <= i < r.value ==> !p(s[i])
    ensures r.None? <==> forall i :: 0 <= i < |s| ==> !p(s[i])
    decreases |s|
  {
    if s == [] then None
    else if p(s[0]) then Some(0)
    else match FindFirst(s[1..], p)
      case None => None
      case Some(i) => Some(i + 1)
  }

  /** The keys of `s` strictly increase from left to right. */
  ghost predicate IncreasingBy<T>(s: seq<T>, key: T -> int) {
    forall i, j :: 0 <= i < j < |s| ==> key(s[i]) < key(s[j])
  }

  /** Appending a value whose key exceeds every key so far keeps the order. */
  lemma AppendIncreasing<T>(s: seq<T>, x: T, key: T -> int)
    requires IncreasingBy(s, key)
    requires forall y :: y in s ==> key(y) < key(x)
    ensures IncreasingBy(s + [x], key)
  {
    var t := s + [x];
    forall i, j | 0 <= i < j < |t| ensures key(t[i]) < key(t[j]) {
      if j == |s| {
        assert t[i] == s[i];
        assert s[i] in s;
      }
    }
  }

  /** Prepending a value whose key is below every key so far keeps the order. */
  lemma PrependIncreasing<T>(x: T, s: seq<T>, key: T -> int)
    requires IncreasingBy(s, key)
    requires forall y :: y in s ==> key(x) < key(y)
    ensures IncreasingBy([x] + s, key)
  {
    var t := [x] + s;
    forall i, j | 0 <= i < j < |t| ensures key(t[i]) < key(t[j]) {
      assert t[j] == s[j - 1];
      if i == 0 {
        assert s[j - 1] in s;
      } else {
        assert t[i] == s[i - 1];
      }
    }
  }

  /** The tail of a key-ordered sequence is key-ordered and above its head. */
  lemma TailIncreasing<T>(s: seq<T>, key: T -> int)
    requires s != [] && IncreasingBy(s, key)
    ensures IncreasingBy(s[1..], key)
    ensures forall y :: y in s[1..] ==> key(s[0]) < key(y)
  {
    var tail := s[1..];
    forall i, j | 0 <= i < j < |tail| ensures key(tail[i]) < key(tail[j]) {
      assert tail[i] == s[i + 1] && tail[j] == s[j + 1];
    }
    forall y | y in tail ensures key(s[0]) < key(y) {
      var k :| 0 <= k < |tail| && tail[k] == y;
      assert s[k + 1] == y;
    }
  }

  /** A filter is a subsequence, so it keeps a strict key order. */
  lemma {:induction false} FilterIncreasing<T(!new)>(s: seq<T>, p: T -> bool, key: T -> int)
    requires IncreasingBy(s, key)
    ensures IncreasingBy(Filter(s, p), key)
    decreases |s|
  {
    if s != [] {
      TailIncreasing(s, key);
      FilterIncreasing(s[1..], p, key);
      if p(s[0]) {
        PrependIncreasing(s[0], Filter(s[1..], p), key);
      }
    }
  }

  /** In a sequence with strictly increasing keys no element occurs twice. */
  lemma {:induction false} IncreasingOccursOnce<T>(s: seq<T>, key: T -> int, x: T)
    requires IncreasingBy(s, key)
    ensures multiset(s)[x] <= 1
    decreases |s|
  {
    if s != [] {
      TailIncreasing(s, key);
      IncreasingOccursOnce(s[1..], key, x);
      assert s == [s[0]] + s[1..];
      if s[0] == x {
        assert x !in s[1..];
      }
    }
  }

  /** The keys of `s` never decrease from left to right. */
  ghost predicate SortedBy<T>(s: seq<T>, key: T -> int) {
    forall i, j :: 0 <= i < j < |s| ==> key(s[i]) <= key(s[j])
  }

  /** Prepending a value whose key is at most every key so far keeps the order. */
  lemma PrependSorted<T>(x: T, s: seq<T>, key: T -> int)
    requires SortedBy(s, key)
    requires forall y :: y in s ==> key(x) <= key(y)
    ensures SortedBy([x] + s, key)
  {
    var t := [x] + s;
    forall i, j | 0 <= i < j < |t| ensures key(t[i]) <= key(t[j]) {
      assert t[j] == s[j - 1];
      if i == 0 {
        assert s[j - 1] in s;
      } else {
        assert t[i] == s[i - 1];
      }
    }
  }

  /** `x` placed before the first element whose key is not below its own. */
  function Insert<T>(x: T, s: seq<T>, key: T -> int): (r: seq<T>)
    ensures multiset(r) == multiset(s) + multiset{x}
    ensures |r| == |s| + 1
    ensures SortedBy(s, key) ==> SortedBy(r, key)
    decreases |s|
  {
    if s == [] then [x]
    else if key(x) <= key(s[0]) then
      var r := [x] + s;
      assert SortedBy(s, key) ==> SortedBy(r, key) by {
        if SortedBy(s, key) {
          forall y | y in s ensures key(x) <= key(y) {
            var k :| 0 <= k < |s| && s[k] == y;
            assert k == 0 || key(s[0]) <= key(s[k]);
          }
          PrependSorted(x, s, key);
        }
      }
      r
    else
      var rest := Insert(x, s[1..], key);
      var r := [s[0]] + rest;
      assert s == [s[0]] + s[1..];
      assert SortedBy(s, key) ==> SortedBy(r, key) by {
        if SortedBy(s, key) {
          assert SortedBy(s[1..], key) by {
            forall i, j | 0 <= i < j < |s[1..]| ensures key(s[1..][i]) <= key(s[1..][j]) {
              assert s[1..][i] == s[i + 1] && s[1..][j] == s[j + 1];
            }
          }
          forall y | y in rest ensures key(s[0]) <= key(y) {
            assert y in multiset(rest);
            if y != x {
              assert y in multiset(s[1..]);
              var k :| 0 <= k < |s[1..]| && s[1..][k] == y;
              assert s[k + 1] == y;
            }
          }
          PrependSorted(s[0], rest, key);
        }
      }
      r
  }

  /** Insertion sort by a key: a sorted permutation of `s`. */
  function SortBy<T>(s: seq<T>, key: T -> int): (r: seq<T>)
    ensures multiset(r) == multiset(s)
    ensures |r| == |s|
    ensures SortedBy(r, key)
    decreases |s|
  {
    if s == [] then []
    else
      assert s == [s[0]] + s[1..];
      Insert(s[0], SortBy(s[1..], key), key)
  }

  /** A sequence already in strict key order is its own sort. */
  lemma {:induction false} SortStrictlyOrderedIsIdentity<T>(s: seq<T>, key: T -> int)
    requires IncreasingBy(s, key)
    ensures SortBy(s, key) == s
    decreases |s|
  {
    if s != [] {
      TailIncreasing(s, key);
      SortStrictlyOrderedIsIdentity(s[1..], key);
      if |s| > 1 {
        assert key(s[0]) <= key(s[1..][0]);
      }
    }
  }

  /** Two sequences that are permutations of each other hold the same elements. */
  lemma SameElements<T>(r: seq<T>, s: seq<T>)
    requires multiset(r) == multiset(s)
    ensures forall x :: x in r <==> x in s
  {
    forall x ensures x in r <==> x in s {
      assert x in r <==> x in multiset(r);
      assert x in s <==> x in multiset(s);
    }
  }

  /** A contiguous slice holds only elements of the whole. */
  lemma SliceMembers<T>(s: seq<T>, lo: nat, hi: nat)
    requires lo <= hi <= |s|
    ensures forall x :: x in s[lo..hi] ==> x in s
  {
    forall x | x in s[lo..hi] ensures x in s {
      var i :| 0 <= i < hi - lo && s[lo..hi][i] == x;
      assert s[lo + i] == x;
    }
  }

  /** A contiguous slice of a key-sorted sequence is key-sorted. */
  lemma SliceSorted<T>(s: seq<T>, lo: nat, hi: nat, key: T -> int)
    requires lo <= hi <= |s| && SortedBy(s, key)
    ensures SortedBy(s[lo..hi], key)
  {
    var t := s[lo..hi];
    forall i, j | 0 <= i < j < |t| ensures key(t[i]) <= key(t[j]) {
      assert t[i] == s[lo + i] && t[j] == s[lo + j];
    }
  }

  /** The concatenation of a sequence of sequences. */
  function Flatten<T>(ss: seq<seq<T>>): (r: seq<T>)
    decreases |ss|
  {
    if ss == [] then [] else ss[0] + Flatten(ss[1..])
  }
}
