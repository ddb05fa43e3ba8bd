/**
 * Sequence operations shared by the utilities and the data hooks:
 * `Array.prototype.filter`, `Array.from(new Set(xs))` (de-duplication keeping
 * first occurrences) and `flatMap`.
 */
module Seqs {

  predicate NoDuplicates<T(==,!new)>(s: seq<T>) {
    forall i, j :: 0 <= i < j < |s| ==> s[i] != s[j]
  }

  /** `s.filter(p)`. */
  function Filter<T(==,!new)>(s: seq<T>, p: T -> bool): (r: seq<T>)
    ensures |r| <= |s|
    ensures forall x :: x in r <==> x in s && p(x)
  {
    if s == [] then [] else (if p(s[0]) then [s[0]] else []) + Filter(s[1..], p)
  }

  /** Filtering distributes over concatenation, so it keeps the input order. */
  lemma {:induction false} FilterAppend<T(!new)>(a: seq<T>, b: seq<T>, p: T -> bool)
    ensures Filter(a + b, p) == Filter(a, p) + Filter(b, p)
    decreases |a|
  {
    if a != [] {
      assert (a + b)[0] == a[0] && (a + b)[1..] == a[1..] + b;
      FilterAppend(a[1..], b, p);
    } else {
      assert a + b == b;
    }
  }

  /** A filter keeps every element it keeps as often as the input holds it. */
  lemma {:induction false} FilterMultiplicity<T(!new)>(s: seq<T>, p: T -> bool, x: T)
    ensures multiset(Filter(s, p))[x] == if p(x) then multiset(s)[x] else 0
    decreases |s|
  {
    if s != [] {
      FilterMultiplicity(s[1..], p, x);
      assert s == [s[0]] + s[1..];
    }
  }

  /** A filter whose predicate holds of every element keeps the whole sequence. */
  lemma {:induction false} FilterAll<T(!new)>(s: seq<T>, p: T -> bool)
    requires forall i :: 0 <= i < |s| ==> p(s[i])
    ensures Filter(s, p) == s
    decreases |s|
  {
    if s != [] {
      FilterAll(s[1..], p);
    }
  }

  /** The position of the first occurrence of `x` in `s`. */
  function FirstIndex<T(==,!new)>(s: seq<T>, x: T): (k: nat)
    requires x in s
    ensures k < |s| && s[k] == x && x !in s[..k]
  {
    if s[0] == x then 0 else 1 + FirstIndex(s[1..], x)
  }

  /**
   * `Array.from(new Set(s))`: each distinct element once, in the order of its
   * first occurrence.
   */
  function Dedup<T(==,!new)>(s: seq<T>): (r: seq<T>)
    ensures NoDuplicates(r)
    ensures forall x :: x in r <==> x in s
    decreases |s|
  {
    if s == [] then []
    else
      var d := Dedup(s[..|s| - 1]);
      if s[|s| - 1] in s[..|s| - 1] then d else d + [s[|s| - 1]]
  }

  lemma FirstIndexInPrefix<T(!new)>(s: seq<T>, n: nat, x: T)
    requires n <= |s| && x in s[..n]
    ensures FirstIndex(s, x) == FirstIndex(s[..n], x)
  {
    var k, k' := FirstIndex(s, x), FirstIndex(s[..n], x);
    assert s[..n][..k'] == s[..k'];
    assert s[k'] == x;
    assert forall m :: 0 <= m < k ==> s[m] != x by {
      assert forall m :: 0 <= m < k ==> s[m] == s[..k][m];
    }
    assert forall m :: 0 <= m < k' ==> s[m] != x by {
      assert forall m :: 0 <= m < k' ==> s[m] == s[..k'][m];
    }
  }

  /** Dedup lists the distinct elements in order of their first occurrence. */
  lemma {:induction false} DedupFirstOccurrenceOrder<T(!new)>(s: seq<T>, i: nat, j: nat)
    requires i < j < |Dedup(s)|
    ensures FirstIndex(s, Dedup(s)[i]) < FirstIndex(s, Dedup(s)[j])
    decreases |s|
  {
    var n := |s| - 1;
    var p, last := s[..n], s[n];
    var d := Dedup(p);
    assert Dedup(s) == if last in p then d else d + [last];
    assert Dedup(s)[i] == d[i] && d[i] in p;
    FirstIndexInPrefix(s, n, d[i]);
    if j < |d| {
      assert Dedup(s)[j] == d[j] && d[j] in p;
      FirstIndexInPrefix(s, n, d[j]);
      DedupFirstOccurrenceOrder(p, i, j);
    } else {
      assert Dedup(s)[j] == last && last !in p;
      assert forall m :: 0 <= m < n ==> s[m] != last by {
        assert forall m :: 0 <= m < n ==> s[m] == p[m];
      }
    }
  }

  /** `ss.flat()`: the concatenation of all the sequences in `ss`. */
  function Flatten<T(==,!new)>(ss: seq<seq<T>>): (r: seq<T>)
    ensures forall x :: x in r <==> exists i :: 0 <= i < |ss| && x in ss[i]
  {
    if ss == [] then []
    else
      var r := ss[0] + Flatten(ss[1..]);
      assert forall x :: (exists i :: 0 <= i < |ss| && x in ss[i]) ==>
        x in ss[0] || exists i :: 0 <= i < |ss[1..]| && x in ss[1..][i] by {
        forall x | exists i :: 0 <= i < |ss| && x in ss[i]
          ensures x in ss[0] || exists i :: 0 <= i < |ss[1..]| && x in ss[1..][i]
        {
          var i :| 0 <= i < |ss| && x in ss[i];
          if i > 0 {
            assert x in ss[1..][i - 1];
          }
        }
      }
      r
  }

  lemma {:induction false} NoDuplicatesCount<T(!new)>(s: seq<T>, x: T)
    requires NoDuplicates(s)
    ensures multiset(s)[x] <= 1
    decreases |s|
  {
    if s != [] {
      assert s == [s[0]] + s[1..];
      NoDuplicatesCount(s[1..], x);
      assert s[0] == x ==> x !in s[1..];
    }
  }

  lemma DuplicateCount<T(!new)>(s: seq<T>, i: nat, j: nat)
    requires i < j < |s| && s[i] == s[j]
    ensures multiset(s)[s[i]] >= 2
  {
    assert s == s[..j] + s[j..];
    assert s[i] in s[..j] && s[j] in s[j..];
  }

  /** A permutation of a duplicate-free sequence is duplicate-free. */
  lemma NoDuplicatesPermutation<T(!new)>(a: seq<T>, b: seq<T>)
    requires NoDuplicates(a) && multiset(a) == multiset(b)
    ensures NoDuplicates(b)
  {
    forall i, j | 0 <= i < j < |b| ensures b[i] != b[j] {
      NoDuplicatesCount(a, b[i]);
      if b[i] == b[j] {
        DuplicateCount(b, i, j);
      }
    }
  }

  /**
   * `new Map(rows.map(x => [key(x), x]))`: one entry per key, holding the
   * last row with that key.
   */
  function IndexBy<T(!new), K(!new)>(rows: seq<T>, key: T -> K): (m: map<K, T>)
    ensures forall k :: k in m <==> exists x :: x in rows && key(x) == k
    ensures forall k :: k in m ==> m[k] in rows && key(m[k]) == k
  {
    if rows == [] then map[]
    else
      var last := rows[|rows| - 1];
      var init := rows[..|rows| - 1];
      var m := IndexBy(init, key);
      assert rows == init + [last];
      m[key(last) := last]
  }
}
