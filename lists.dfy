/**
 * The JavaScript array operations the state engine is built from:
 * `Array.prototype.filter` (which keeps, in order, the elements a callback
 * accepts) and `Array.prototype.find` (which picks the first one), together
 * with the facts about them that the engines' proofs share.
 */
module Lists {

  datatype Option<+T> = None | Some(value: T)

  /** `sub` is `s` with some elements left out and the rest kept in order. */
  ghost predicate IsSubsequence<T>(sub: seq<T>, s: seq<T>)
    decreases |s|
  {
    if s == [] then sub == []
    else (sub != [] && sub[0] == s[0] && IsSubsequence(sub[1..], s[1..]))
         || IsSubsequence(sub, s[1..])
  }

  /** Every list is a subsequence of itself. */
  lemma {:induction false} SubsequenceReflexive<T>(s: seq<T>)
    ensures IsSubsequence(s, s)
  {
    if s != [] {
      SubsequenceReflexive(s[1..]);
    }
  }

  /** `s.filter(p)`: the elements of `s` that `p` accepts, in their
      original order (FilterIsSubsequence, FilterComplement). */
  function Filter<T>(s: seq<T>, p: T -> bool): (r: seq<T>)
    ensures |r| <= |s|
    ensures forall x :: x in r ==> x in s && p(x)
  {
    if s == [] then []
    else
      var rest := Filter(s[1..], p);
      assert forall x :: x in s[1..] ==> x in s;
      if p(s[0]) then [s[0]] + rest else rest
  }

  /** What the filter keeps, it keeps in order. */
  lemma {:induction false} FilterIsSubsequence<T>(s: seq<T>, p: T -> bool)
    ensures IsSubsequence(Filter(s, p), s)
  {
    if s != [] {
      FilterIsSubsequence(s[1..], p);
      var rest := Filter(s[1..], p);
      if p(s[0]) {
        assert ([s[0]] + rest)[1..] == rest;
      } else if rest != [] {
        assert IsSubsequence(rest, s[1..]);
      }
    }
  }

  /** The filter keeps every occurrence of what it accepts and nothing else. */
  lemma {:induction false} FilterMultiset<T>(s: seq<T>, p: T -> bool)
    ensures forall x :: multiset(Filter(s, p))[x] == if p(x) then multiset(s)[x] else 0
  {
    if s != [] {
      FilterMultiset(s[1..], p);
      assert s == [s[0]] + s[1..];
    }
  }

  /** The callback `x => key(x) !== k`. */
  function KeyIsNot<T, K(==)>(key: T -> K, k: K): T -> bool {
    (x: T) => key(x) != k
  }

  /** `s.filter(x => key(x) !== k)`, the deletion both lists use: every
      element with key `k` is gone, every other element stays, as often as
      before and in order. */
  function Without<T, K(==)>(s: seq<T>, key: T -> K, k: K): (r: seq<T>)
    ensures forall x :: x in r ==> x in s && key(x) != k
    ensures forall x :: x in s && key(x) != k ==> multiset(r)[x] == multiset(s)[x]
    ensures IsSubsequence(r, s)
  {
    FilterIsSubsequence(s, KeyIsNot(key, k));
    FilterMultiset(s, KeyIsNot(key, k));
    Filter(s, KeyIsNot(key, k))
  }

  /** `s.find(p)`, as the position it finds: the first element `p` accepts,
      or None when `p` accepts none. */
  function FindFirst<T>(s: seq<T>, p: T -> bool): (r: Option<nat>)
    ensures r.Some? ==> r.value < |s| && p(s[r.value])
                        && forall j :: 0 <= j < r.value ==> !p(s[j])
    ensures r.None? ==> forall j :: 0 <= j < |s| ==> !p(s[j])
  {
    if s == [] then None
    else if p(s[0]) then Some(0)
    else match FindFirst(s[1..], p)
      case None => None
      case Some(k) => Some(k + 1)
  }

  /** Replacing an element by one that `p` judges the same way does not
      change what `find` finds. */
  lemma FindFirstAfterUpdate<T>(s: seq<T>, p: T -> bool, i: nat, x: T)
    requires i < |s| && p(x) == p(s[i])
    ensures FindFirst(s[i := x], p) == FindFirst(s, p)
  {
    var s' := s[i := x];
    assert forall j :: 0 <= j < |s| ==> p(s'[j]) == p(s[j]);
  }

  /** Filtering by a predicate and by its negation splits a list in two:
      the two results together hold every element exactly as often as the
      list does. */
  lemma {:induction false} FilterComplement<T>(s: seq<T>, p: T -> bool, q: T -> bool)
    requires forall x :: q(x) == !p(x)
    ensures |Filter(s, p)| + |Filter(s, q)| == |s|
    ensures multiset(Filter(s, p)) + multiset(Filter(s, q)) == multiset(s)
  {
    if s != [] {
      FilterComplement(s[1..], p, q);
      assert s == [s[0]] + s[1..];
    }
  }

  /** A filter that accepts every element returns the list unchanged. */
  lemma {:induction false} FilterAcceptingAll<T>(s: seq<T>, p: T -> bool)
    requires forall i :: 0 <= i < |s| ==> p(s[i])
    ensures Filter(s, p) == s
  {
    if s != [] {
      FilterAcceptingAll(s[1..], p);
      assert s == [s[0]] + s[1..];
    }
  }

  /** Filter distributes over concatenation. */
  lemma {:induction false} FilterConcat<T>(a: seq<T>, b: seq<T>, p: T -> bool)
    ensures Filter(a + b, p) == Filter(a, p) + Filter(b, p)
  {
    if a == [] {
      assert a + b == b;
    } else {
      var ab := a + b;
      assert ab[0] == a[0];
      assert ab[1..] == a[1..] + b;
      FilterConcat(a[1..], b, p);
    }
  }

  /** No two elements of `s` share a key. */
  ghost predicate DistinctKeys<T, K>(s: seq<T>, key: T -> K) {
    forall i, j :: 0 <= i < j < |s| ==> key(s[i]) != key(s[j])
  }

  /** Appending an element whose key is new keeps the keys distinct. */
  lemma AppendKeepsDistinct<T, K>(s: seq<T>, x: T, key: T -> K)
    requires DistinctKeys(s, key)
    requires forall i :: 0 <= i < |s| ==> key(s[i]) != key(x)
    ensures DistinctKeys(s + [x], key)
  {
    var r := s + [x];
    forall i, j | 0 <= i < j < |r| ensures key(r[i]) != key(r[j]) {
      assert r[i] == s[i];
    }
  }

  /** Putting an element whose key is new in front keeps the keys distinct. */
  lemma PrependKeepsDistinct<T, K>(x: T, s: seq<T>, key: T -> K)
    requires DistinctKeys(s, key)
    requires forall i :: 0 <= i < |s| ==> key(s[i]) != key(x)
    ensures DistinctKeys([x] + s, key)
  {
    var r := [x] + s;
    forall i, j | 0 <= i < j < |r| ensures key(r[i]) != key(r[j]) {
      assert r[j] == s[j - 1];
      if i > 0 {
        assert r[i] == s[i - 1];
      }
    }
  }

  /** Replacing an element by one with the same key keeps the keys distinct. */
  lemma UpdateKeepsDistinct<T, K>(s: seq<T>, i: nat, x: T, key: T -> K)
    requires DistinctKeys(s, key)
    requires i < |s| && key(x) == key(s[i])
    ensures DistinctKeys(s[i := x], key)
  {
    var r := s[i := x];
    assert forall j :: 0 <= j < |s| ==> key(r[j]) == key(s[j]);
  }

  /** Replacing one element changes how many elements the filter keeps by
      at most one: the old element's vote is taken back, the new one's added. */
  lemma {:induction false} FilterCountAfterUpdate<T>(s: seq<T>, p: T -> bool, i: nat, x: T)
    requires i < |s|
    ensures |Filter(s[i := x], p)| + (if p(s[i]) then 1 else 0)
            == |Filter(s, p)| + (if p(x) then 1 else 0)
  {
    var r := s[i := x];
    if i > 0 {
      assert r[1..] == s[1..][i - 1 := x];
      FilterCountAfterUpdate(s[1..], p, i - 1, x);
    } else {
      assert r[1..] == s[1..];
    }
  }

  /** The filter keeps the whole list exactly when it accepts every element. */
  lemma {:induction false} FilterKeepsAllIff<T>(s: seq<T>, p: T -> bool)
    ensures |Filter(s, p)| == |s| <==> forall i :: 0 <= i < |s| ==> p(s[i])
  {
    if s != [] {
      var rest := s[1..];
      FilterKeepsAllIff(rest, p);
      assert forall i :: 1 <= i < |s| ==> s[i] == rest[i - 1];
      if p(s[0]) {
        assert |Filter(s, p)| == 1 + |Filter(rest, p)|;
      } else {
        assert |Filter(s, p)| == |Filter(rest, p)| <= |rest| < |s|;
      }
    }
  }

  /** Filtering never introduces a repeated key. */
  lemma {:induction false} FilterKeepsDistinct<T, K>(s: seq<T>, p: T -> bool, key: T -> K)
    requires DistinctKeys(s, key)
    ensures DistinctKeys(Filter(s, p), key)
  {
    if s != [] {
      var rest := s[1..];
      assert DistinctKeys(rest, key) by {
        forall i, j | 0 <= i < j < |rest| ensures key(rest[i]) != key(rest[j]) {
          assert rest[i] == s[i + 1] && rest[j] == s[j + 1];
        }
      }
      FilterKeepsDistinct(rest, p, key);
      if p(s[0]) {
        var r := [s[0]] + Filter(rest, p);
        forall j | 0 < j < |r| ensures key(r[0]) != key(r[j]) {
          assert r[j] in rest;
          var m :| 0 <= m < |rest| && rest[m] == r[j];
          assert s[m + 1] == r[j];
        }
      }
    }
  }
}
