/** Order-preserving filtering, counting and limit/offset windows over sequences. */
module Seqs {
  import opened Wrappers

  /** `array.filter(f)`: the elements satisfying `f`, in their original order. */
  function Filter<T>(s: seq<T>, f: T -> bool): (r: seq<T>)
    ensures |r| <= |s|
    ensures forall i :: 0 <= i < |r| ==> r[i] in s && f(r[i])
    ensures forall i :: 0 <= i < |s| ==> (s[i] in r <==> f(s[i]))
    decreases |s|
  {
    if |s| == 0 then []
    else (if f(s[0]) then [s[0]] else []) + Filter(s[1..], f)
  }

  /** Filtering distributes over concatenation, so it keeps the original order. */
  lemma {:induction false} FilterAppend<T>(a: seq<T>, b: seq<T>, f: T -> bool)
    ensures Filter(a + b, f) == Filter(a, f) + Filter(b, f)
    decreases |a|
  {
    if |a| == 0 {
      assert a + b == b;
    } else {
      assert (a + b)[1..] == a[1..] + b;
      FilterAppend(a[1..], b, f);
    }
  }

  /** A filter keeps every copy of a kept value and no copy of a dropped one. */
  lemma {:induction false} FilterMultiset<T>(s: seq<T>, f: T -> bool)
    ensures forall x :: multiset(Filter(s, f))[x] == if f(x) then multiset(s)[x] else 0
    decreases |s|
  {
    if |s| > 0 {
      FilterMultiset(s[1..], f);
      assert s == [s[0]] + s[1..];
      assert multiset(s) == multiset([s[0]]) + multiset(s[1..]);
    }
  }

  /** A filter that keeps every element is the identity. */
  lemma {:induction false} FilterKeepsAll<T>(s: seq<T>, f: T -> bool)
    requires forall i :: 0 <= i < |s| ==> f(s[i])
    ensures Filter(s, f) == s
    decreases |s|
  {
    if |s| > 0 {
      FilterKeepsAll(s[1..], f);
      assert [s[0]] + s[1..] == s;
    }
  }

  /** Two filters that agree on every element give the same result. */
  lemma {:induction false} FilterExt<T>(s: seq<T>, f: T -> bool, g: T -> bool)
    requires forall i :: 0 <= i < |s| ==> f(s[i]) == g(s[i])
    ensures Filter(s, f) == Filter(s, g)
    decreases |s|
  {
    if |s| > 0 {
      FilterExt(s[1..], f, g);
    }
  }

  /** Filtering twice is filtering by the conjunction. */
  lemma {:induction false} FilterFilter<T>(s: seq<T>, f: T -> bool, g: T -> bool)
    ensures Filter(Filter(s, f), g) == Filter(s, x => f(x) && g(x))
    decreases |s|
  {
    if |s| > 0 {
      FilterFilter(s[1..], f, g);
      var rest := Filter(s[1..], f);
      if f(s[0]) {
        assert Filter(s, f) == [s[0]] + rest;
        assert ([s[0]] + rest)[1..] == rest;
      } else {
        assert Filter(s, f) == rest;
      }
    }
  }

  /** Filtering by `f` before `g` changes nothing when `g` already implies `f`. */
  lemma {:induction false} FilterSubsumed<T>(s: seq<T>, f: T -> bool, g: T -> bool)
    requires forall i :: 0 <= i < |s| ==> g(s[i]) ==> f(s[i])
    ensures Filter(Filter(s, f), g) == Filter(s, g)
    decreases |s|
  {
    if |s| > 0 {
      FilterSubsumed(s[1..], f, g);
      var rest := Filter(s[1..], f);
      assert Filter(s, g) == (if g(s[0]) then [s[0]] else []) + Filter(s[1..], g);
      if f(s[0]) {
        var a := [s[0]] + rest;
        assert Filter(s, f) == a;
        assert a[0] == s[0] && a[1..] == rest;
        assert Filter(a, g) == (if g(s[0]) then [s[0]] else []) + Filter(rest, g);
      } else {
        assert Filter(s, f) == rest;
      }
    }
  }

  /** Counting by a disjunction of two exclusive conditions adds the two counts. */
  lemma {:induction false} FilterDisjointCount<T>(s: seq<T>, f: T -> bool, g: T -> bool)
    requires forall i :: 0 <= i < |s| ==> !(f(s[i]) && g(s[i]))
    ensures |Filter(s, x => f(x) || g(x))| == |Filter(s, f)| + |Filter(s, g)|
    decreases |s|
  {
    if |s| > 0 {
      FilterDisjointCount(s[1..], f, g);
    }
  }

  /** A filter by a stronger condition keeps no more elements. */
  lemma {:induction false} FilterMonotone<T>(s: seq<T>, f: T -> bool, g: T -> bool)
    requires forall i :: 0 <= i < |s| ==> f(s[i]) ==> g(s[i])
    ensures |Filter(s, f)| <= |Filter(s, g)|
    decreases |s|
  {
    if |s| > 0 {
      FilterMonotone(s[1..], f, g);
    }
  }

  /** `array.map(f)`. */
  function Map<T, U>(s: seq<T>, f: T -> U): (r: seq<U>)
    ensures |r| == |s|
    ensures forall i :: 0 <= i < |s| ==> r[i] == f(s[i])
  {
    seq(|s|, i requires 0 <= i < |s| => f(s[i]))
  }

  /** The `LIMIT limit OFFSET offset` window of `s`. */
  function Window<T>(s: seq<T>, offset: nat, limit: nat): (r: seq<T>)
    ensures |r| <= limit
    ensures offset >= |s| ==> |r| == 0
    ensures offset < |s| ==> |r| == if |s| - offset < limit then |s| - offset else limit
    ensures forall i :: 0 <= i < |r| ==> r[i] == s[offset + i]
  {
    if offset >= |s| then []
    else if |s| - offset < limit then s[offset..]
    else s[offset..offset + limit]
  }

  /** Consecutive windows tile the sequence: the first page followed by the next is a longer window. */
  lemma WindowsTile<T>(s: seq<T>, offset: nat, limit: nat)
    ensures Window(s, offset, limit) + Window(s, offset + limit, limit) == Window(s, offset, 2 * limit)
  {
    var a := Window(s, offset, limit);
    var b := Window(s, offset + limit, limit);
    var c := Window(s, offset, 2 * limit);
    if offset + limit < |s| {
      assert |a| == limit;
    }
    assert |a + b| == |c|;
    forall i | 0 <= i < |c|
      ensures (a + b)[i] == c[i]
    {
      if i < |a| {
      } else {
        assert (a + b)[i] == b[i - |a|];
      }
    }
  }

  /** The keys of the elements of `s`. */
  function KeySet<T, K>(s: seq<T>, key: T -> K): set<K> {
    set i | 0 <= i < |s| :: key(s[i])
  }

  /** No two elements of `s` share a key (a primary-key or unique-index constraint). */
  predicate Distinct<T, K(==)>(s: seq<T>, key: T -> K) {
    forall i, j :: 0 <= i < j < |s| ==> key(s[i]) != key(s[j])
  }

  /** Index of the element with key `k` (`findByPk`), or `None` when no element has it. */
  function Find<T, K(==)>(s: seq<T>, key: T -> K, k: K): (r: Option<nat>)
    ensures r.Some? ==> r.value < |s| && key(s[r.value]) == k
    ensures r.None? <==> k !in KeySet(s, key)
    decreases |s|
  {
    if |s| == 0 then None
    else if key(s[0]) == k then Some(0)
    else
      match Find(s[1..], key, k)
      case Some(i) =>
        Some(i + 1)
      case None =>
        assert KeySet(s, key) == {key(s[0])} + KeySet(s[1..], key) by {
          forall x | x in KeySet(s, key) ensures x in {key(s[0])} + KeySet(s[1..], key) {
            var i :| 0 <= i < |s| && key(s[i]) == x;
            if i > 0 { assert key(s[1..][i - 1]) == x; }
          }
        }
        None
  }

  /** With distinct keys, the element found is the only one with that key. */
  lemma FindUnique<T, K>(s: seq<T>, key: T -> K, k: K, j: nat)
    requires Distinct(s, key)
    requires j < |s| && key(s[j]) == k
    ensures Find(s, key, k) == Some(j)
  {
    var r := Find(s, key, k);
    assert k in KeySet(s, key);
  }

  /** Removing elements keeps keys distinct. */
  lemma {:induction false} FilterDistinct<T, K>(s: seq<T>, f: T -> bool, key: T -> K)
    requires Distinct(s, key)
    ensures Distinct(Filter(s, f), key)
    decreases |s|
  {
    if |s| > 0 {
      FilterDistinct(s[1..], f, key);
      var rest := Filter(s[1..], f);
      forall j | 0 <= j < |rest| ensures key(s[0]) != key(rest[j]) {
        var i :| 0 <= i < |s[1..]| && s[1..][i] == rest[j];
        assert s[i + 1] == rest[j];
      }
    }
  }

  /** The keys left after filtering are the keys of the elements that pass. */
  lemma FilterKeySet<T, K>(s: seq<T>, f: T -> bool, key: T -> K)
    ensures KeySet(Filter(s, f), key) == set i | 0 <= i < |s| && f(s[i]) :: key(s[i])
  {
    var r := Filter(s, f);
    forall x | x in KeySet(r, key) ensures exists i :: 0 <= i < |s| && f(s[i]) && key(s[i]) == x {
      var j :| 0 <= j < |r| && key(r[j]) == x;
      var i :| 0 <= i < |s| && s[i] == r[j];
    }
  }

  /** Appending an element with a fresh key keeps keys distinct. */
  lemma AppendDistinct<T, K>(s: seq<T>, x: T, key: T -> K)
    requires Distinct(s, key)
    requires key(x) !in KeySet(s, key)
    ensures Distinct(s + [x], key)
  {
    forall i | 0 <= i < |s| ensures key(s[i]) != key(x) {
      assert key(s[i]) in KeySet(s, key);
    }
  }

  /** Dropping the elements with one present key of a key-distinct sequence drops exactly one element. */
  lemma {:induction false} FilterOutKey<T, K>(s: seq<T>, f: T -> bool, key: T -> K, k: K)
    requires Distinct(s, key) && k in KeySet(s, key)
    requires forall i :: 0 <= i < |s| ==> (f(s[i]) <==> key(s[i]) != k)
    ensures |Filter(s, f)| == |s| - 1
    decreases |s|
  {
    var t := s[1..];
    if key(s[0]) == k {
      forall i | 0 <= i < |t| ensures f(t[i]) {
        assert t[i] == s[i + 1];
      }
      FilterKeepsAll(t, f);
    } else {
      var j :| 0 <= j < |s| && key(s[j]) == k;
      assert key(t[j - 1]) == k;
      FilterOutKey(t, f, key, k);
    }
  }

  /** Appending an element adds exactly its key. */
  lemma KeySetAppend<T, K>(s: seq<T>, x: T, key: T -> K)
    ensures KeySet(s + [x], key) == KeySet(s, key) + {key(x)}
  {
    var t := s + [x];
    forall y | y in KeySet(t, key) ensures y in KeySet(s, key) + {key(x)} {
      var j :| 0 <= j < |t| && key(t[j]) == y;
      if j < |s| { assert t[j] == s[j]; }
    }
    forall y | y in KeySet(s, key) ensures y in KeySet(t, key) {
      var j :| 0 <= j < |s| && key(s[j]) == y;
      assert t[j] == s[j];
    }
    assert key(t[|s|]) == key(x);
  }

  /** Replacing an element by one with the same key keeps the key set and distinctness. */
  lemma ReplaceKeys<T, K>(s: seq<T>, i: nat, x: T, key: T -> K)
    requires i < |s| && key(x) == key(s[i])
    ensures KeySet(s[i := x], key) == KeySet(s, key)
    ensures Distinct(s, key) ==> Distinct(s[i := x], key)
  {
    var t := s[i := x];
    forall y | y in KeySet(s, key) ensures y in KeySet(t, key) {
      var j :| 0 <= j < |s| && key(s[j]) == y;
      assert key(t[j]) == y;
    }
    forall y | y in KeySet(t, key) ensures y in KeySet(s, key) {
      var j :| 0 <= j < |t| && key(t[j]) == y;
      assert key(s[j]) == y;
    }
  }
}
