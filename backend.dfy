/**
 * The in-memory stand-in for the hosted backend that the data hooks query:
 * how a failed call is reported, exact counts, `.single()`, `.range()`, and the
 * shared toggle rule of the follow and like hooks.
 */
module Backend {
  import opened Wrappers

  /**
   * What a `catch` block receives when a backend call fails: an `Error`
   * object, whose `message` is shown, or any other value, for which the hook
   * shows its own fallback text.
   */
  datatype Fault = Thrown(message: string) | NonError

  /** `err instanceof Error ? err.message : fallback`. */
  function MessageOf(fault: Fault, fallback: string): (m: string)
    ensures fault.Thrown? ==> m == fault.message
    ensures fault.NonError? ==> m == fallback
  {
    match fault
    case Thrown(message) => message
    case NonError => fallback
  }

  /** Thrown by every mutating hook when there is no signed-in user. */
  const NotAuthenticated: string := "ユーザーが認証されていません"

  /** `select('*', { count: 'exact', head: true })` with the filters `p`: the number of matching rows. */
  function Count<T>(rows: seq<T>, p: T -> bool): (n: nat)
    ensures n <= |rows|
    ensures n == 0 <==> forall i :: 0 <= i < |rows| ==> !p(rows[i])
  {
    if rows == [] then 0
    else
      var rest := Count(rows[1..], p);
      assert forall i :: 1 <= i < |rows| ==> rows[i] == rows[1..][i - 1];
      (if p(rows[0]) then 1 else 0) + rest
  }

  /** Appending a row adds one to the count exactly when the row matches. */
  lemma {:induction false} CountAppend<T>(rows: seq<T>, x: T, p: T -> bool)
    ensures Count(rows + [x], p) == Count(rows, p) + (if p(x) then 1 else 0)
  {
    if rows != [] {
      assert (rows + [x])[1..] == rows[1..] + [x];
      CountAppend(rows[1..], x, p);
    }
  }

  /** Counts add up over a concatenation. */
  lemma {:induction false} CountConcat<T>(a: seq<T>, b: seq<T>, p: T -> bool)
    ensures Count(a + b, p) == Count(a, p) + Count(b, p)
  {
    if a != [] {
      assert (a + b)[0] == a[0] && (a + b)[1..] == a[1..] + b;
      CountConcat(a[1..], b, p);
    } else {
      assert a + b == b;
    }
  }

  /** Counting the matches of `p` in two disjoint parts `both` and `rest` that cover it. */
  lemma {:induction false} CountSplit<T>(rows: seq<T>, p: T -> bool, both: T -> bool, rest: T -> bool)
    requires forall x :: p(x) <==> both(x) || rest(x)
    requires forall x :: !(both(x) && rest(x))
    ensures Count(rows, p) == Count(rows, both) + Count(rows, rest)
  {
    if rows != [] {
      CountSplit(rows[1..], p, both, rest);
    }
  }

  /**
   * `.single()`: the row when exactly one row matches; otherwise the backend
   * answers with the "not exactly one row" error (code PGRST116), which the
   * hooks treat as "no row".
   */
  predicate Single<T>(rows: seq<T>, p: T -> bool)
    ensures Single(rows, p) ==> exists i :: 0 <= i < |rows| && p(rows[i])
  {
    Count(rows, p) == 1
  }

  /** Without duplicate matches, `.single()` finds a row exactly when some row matches. */
  lemma {:induction false} SingleIffExists<T>(rows: seq<T>, p: T -> bool)
    requires Count(rows, p) <= 1
    ensures Single(rows, p) <==> exists i :: 0 <= i < |rows| && p(rows[i])
  {
  }

  /**
   * `.range(offset, offset + limit - 1)`: the rows at positions
   * `offset .. offset + limit - 1` that exist.
   */
  function Range<T>(rows: seq<T>, offset: nat, limit: nat): (r: seq<T>)
    ensures |r| <= limit
    ensures offset >= |rows| ==> r == []
    ensures forall i :: 0 <= i < |r| ==> offset + i < |rows| && r[i] == rows[offset + i]
    ensures |r| == if offset >= |rows| then 0 else if offset + limit <= |rows| then limit else |rows| - offset
  {
    var lo := if offset < |rows| then offset else |rows|;
    var hi := if offset + limit < |rows| then offset + limit else |rows|;
    rows[lo..hi]
  }

  /**
   * `toggleFollow` / `toggleLike`: the new state reported for the hint
   * `currentlyOn` once the inverse mutation returned `success`.
   */
  function NewState(currentlyOn: bool, success: bool): (on: bool)
    ensures success ==> on == !currentlyOn
    ensures !success ==> on == currentlyOn
  {
    if currentlyOn then !success else success
  }
}
