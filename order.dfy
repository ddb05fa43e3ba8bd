/**
 * The order JavaScript's default `Array.prototype.sort` uses on strings
 * (lexicographic on UTF-16 code units), and a stable insertion sort used both
 * for that `sort()` and for the backend's `order(column, { ascending })`.
 */
module Order {
  import opened Seqs

  /**
   * A key whose integer order is the order of the character's UTF-16 encoding:
   * its first code unit, then its second (absent for a character of the Basic
   * Multilingual Plane).
   */
  function CodeUnitKey(c: char): int {
    var n := c as int;
    if n < 0x10000 then n * 0x10000
    else
      var v := n - 0x10000;
      (0xD800 + v / 0x400) * 0x10000 + (0xDC00 + v % 0x400)
  }

  /** `a <= b` in code-unit order: a proper prefix comes first. */
  predicate StrLe(a: string, b: string)
    ensures |a| <= |b| && a == b[..|a|] ==> StrLe(a, b)
    decreases |a|
  {
    assert a != [] && |a| <= |b| && a == b[..|a|] ==> a[0] == b[0] && a[1..] == b[1..][..|a| - 1];
    a == [] ||
    (b != [] &&
     (CodeUnitKey(a[0]) < CodeUnitKey(b[0]) ||
      (CodeUnitKey(a[0]) == CodeUnitKey(b[0]) && StrLe(a[1..], b[1..]))))
  }

  lemma {:induction false} StrLeTotal(a: string, b: string)
    ensures StrLe(a, b) || StrLe(b, a)
    decreases |a|
  {
    if a != [] && b != [] && CodeUnitKey(a[0]) == CodeUnitKey(b[0]) {
      StrLeTotal(a[1..], b[1..]);
    }
  }

  lemma {:induction false} StrLeTrans(a: string, b: string, c: string)
    requires StrLe(a, b) && StrLe(b, c)
    ensures StrLe(a, c)
    decreases |a|
  {
    if a != [] && CodeUnitKey(a[0]) == CodeUnitKey(b[0]) && CodeUnitKey(b[0]) == CodeUnitKey(c[0]) {
      StrLeTrans(a[1..], b[1..], c[1..]);
    }
  }

  /** `x` may stand before `y` in an ascending (`desc` false) or descending order. */
  predicate InOrder(x: string, y: string, desc: bool) {
    if desc then StrLe(y, x) else StrLe(x, y)
  }

  lemma InOrderTotal(x: string, y: string, desc: bool)
    ensures InOrder(x, y, desc) || InOrder(y, x, desc)
  {
    StrLeTotal(x, y);
  }

  lemma InOrderTrans(x: string, y: string, z: string, desc: bool)
    requires InOrder(x, y, desc) && InOrder(y, z, desc)
    ensures InOrder(x, z, desc)
  {
    if desc { StrLeTrans(z, y, x); } else { StrLeTrans(x, y, z); }
  }

  predicate SortedBy<T>(s: seq<T>, key: T -> string, desc: bool) {
    forall i, j :: 0 <= i < j < |s| ==> InOrder(key(s[i]), key(s[j]), desc)
  }

  /** Inserts `x` before the first element it may precede. */
  function Insert<T>(x: T, s: seq<T>, key: T -> string, desc: bool): (r: seq<T>)
    requires SortedBy(s, key, desc)
    ensures multiset(r) == multiset(s) + multiset{x}
    ensures SortedBy(r, key, desc)
  {
    if s == [] then [x]
    else if InOrder(key(x), key(s[0]), desc) then
      BeforeHead(x, s, key, desc);
      PrependSorted(x, s, key, desc);
      [x] + s
    else
      SortedTail(s, key, desc);
      var t := Insert(x, s[1..], key, desc);
      assert s == [s[0]] + s[1..];
      InOrderTotal(key(x), key(s[0]), desc);
      HeadBeforeInserted(x, s, t, key, desc);
      PrependSorted(s[0], t, key, desc);
      [s[0]] + t
  }

  lemma SortedTail<T>(s: seq<T>, key: T -> string, desc: bool)
    requires s != [] && SortedBy(s, key, desc)
    ensures SortedBy(s[1..], key, desc)
  {
    forall i, j | 0 <= i < j < |s[1..]| ensures InOrder(key(s[1..][i]), key(s[1..][j]), desc) {
      assert s[1..][i] == s[i + 1] && s[1..][j] == s[j + 1];
    }
  }

  /** What may precede the head of a sorted sequence may precede all of it. */
  lemma BeforeHead<T>(x: T, s: seq<T>, key: T -> string, desc: bool)
    requires s != [] && SortedBy(s, key, desc) && InOrder(key(x), key(s[0]), desc)
    ensures forall j :: 0 <= j < |s| ==> InOrder(key(x), key(s[j]), desc)
  {
    forall j | 0 < j < |s| ensures InOrder(key(x), key(s[j]), desc) {
      InOrderTrans(key(x), key(s[0]), key(s[j]), desc);
    }
  }

  /** The head of a sorted sequence may precede everything its tail with `x` inserted holds. */
  lemma HeadBeforeInserted<T>(x: T, s: seq<T>, t: seq<T>, key: T -> string, desc: bool)
    requires s != [] && SortedBy(s, key, desc) && InOrder(key(s[0]), key(x), desc)
    requires multiset(t) == multiset(s[1..]) + multiset{x}
    ensures forall j :: 0 <= j < |t| ==> InOrder(key(s[0]), key(t[j]), desc)
  {
    forall j | 0 <= j < |t| ensures InOrder(key(s[0]), key(t[j]), desc) {
      assert t[j] in multiset(t);
      if t[j] != x {
        assert t[j] in multiset(s[1..]);
        var k :| 0 <= k < |s[1..]| && s[1..][k] == t[j];
        assert s[k + 1] == t[j];
      }
    }
  }

  /** An element that may precede everything of a sorted sequence keeps it sorted in front. */
  lemma PrependSorted<T>(y: T, t: seq<T>, key: T -> string, desc: bool)
    requires SortedBy(t, key, desc)
    requires forall j :: 0 <= j < |t| ==> InOrder(key(y), key(t[j]), desc)
    ensures SortedBy([y] + t, key, desc)
  {
    forall i, j | 0 <= i < j < |[y] + t| ensures InOrder(key(([y] + t)[i]), key(([y] + t)[j]), desc) {
      assert ([y] + t)[j] == t[j - 1];
      if i > 0 { assert ([y] + t)[i] == t[i - 1]; }
    }
  }

  /** A stable sort by `key`, ascending or descending. */
  function SortBy<T>(s: seq<T>, key: T -> string, desc: bool): (r: seq<T>)
    ensures multiset(r) == multiset(s)
    ensures SortedBy(r, key, desc)
  {
    if s == [] then []
    else
      assert s == [s[0]] + s[1..];
      Insert(s[0], SortBy(s[1..], key, desc), key, desc)
  }

  /** Filtering a sorted sequence leaves it sorted: `filter` keeps the relative order. */
  lemma {:induction false} FilterKeepsSorted<T(!new)>(s: seq<T>, p: T -> bool, key: T -> string, desc: bool)
    requires SortedBy(s, key, desc)
    ensures SortedBy(Filter(s, p), key, desc)
  {
    if s != [] {
      var rest := Filter(s[1..], p);
      assert SortedBy(s[1..], key, desc) by {
        forall i, j | 0 <= i < j < |s[1..]| ensures InOrder(key(s[1..][i]), key(s[1..][j]), desc) {
          assert s[1..][i] == s[i + 1] && s[1..][j] == s[j + 1];
        }
      }
      FilterKeepsSorted(s[1..], p, key, desc);
      if p(s[0]) {
        assert Filter(s, p) == [s[0]] + rest;
        forall j | 0 <= j < |rest| ensures InOrder(key(s[0]), key(rest[j]), desc) {
          assert rest[j] in rest;
          var k :| 0 <= k < |s[1..]| && s[1..][k] == rest[j];
          assert s[k + 1] == rest[j];
        }
        forall i, j | 0 <= i < j < |[s[0]] + rest|
          ensures InOrder(key(([s[0]] + rest)[i]), key(([s[0]] + rest)[j]), desc)
        {
          if i > 0 { assert ([s[0]] + rest)[i] == rest[i - 1]; }
          assert ([s[0]] + rest)[j] == rest[j - 1];
        }
      } else {
        assert Filter(s, p) == rest;
      }
    }
  }
}
