/**
 * The semantics of the SQL the store and the dashboard issue: a `WHERE`
 * filter, `ORDER BY <primary> DESC, <secondary> DESC`, and `LIMIT`.
 * SQL leaves the order of rows with equal sort keys unspecified; this model
 * sorts stably, so such rows keep their table (insertion) order.
 */
module Query {
  import opened Common

  /** A two-column sort key. */
  datatype Key = Key(primary: real, secondary: real)

  /** `a` may come before `b` under `ORDER BY primary DESC, secondary DESC`. */
  predicate AtLeast(a: Key, b: Key) {
    a.primary > b.primary || (a.primary == b.primary && a.secondary >= b.secondary)
  }

  ghost predicate SortedDesc<T>(s: seq<T>, key: T -> Key) {
    forall i, j :: 0 <= i < j < |s| ==> AtLeast(key(s[i]), key(s[j]))
  }

  /** Inserts `x` into a descending sequence, before the first element it is at least. */
  function Insert<T>(x: T, s: seq<T>, key: T -> Key): (r: seq<T>)
    requires SortedDesc(s, key)
    ensures SortedDesc(r, key)
    ensures multiset(r) == multiset(s) + multiset{x}
    ensures |r| == |s| + 1
    ensures r[0] == x || (s != [] && r[0] == s[0])
  {
    if s == [] then
      [x]
    else if AtLeast(key(x), key(s[0])) then
      [x] + s
    else
      var rest := Insert(x, s[1..], key);
      assert s == [s[0]] + s[1..];
      [s[0]] + rest
  }

  /** `ORDER BY primary DESC, secondary DESC`: a sorted permutation of the rows. */
  function SortDesc<T>(s: seq<T>, key: T -> Key): (r: seq<T>)
    ensures SortedDesc(r, key)
    ensures multiset(r) == multiset(s)
    ensures |r| == |s|
  {
    if s == [] then
      []
    else
      assert s == [s[0]] + s[1..];
      Insert(s[0], SortDesc(s[1..], key), key)
  }

  /** A sorted permutation holds exactly the rows it was made from. */
  lemma SortDescMembers<T>(s: seq<T>, key: T -> Key)
    ensures forall k :: 0 <= k < |SortDesc(s, key)| ==> SortDesc(s, key)[k] in s
    ensures forall k :: 0 <= k < |s| ==> s[k] in SortDesc(s, key)
  {
    var r := SortDesc(s, key);
    forall k | 0 <= k < |r|
      ensures r[k] in s
    {
      assert r[k] in multiset(r);
    }
    forall k | 0 <= k < |s|
      ensures s[k] in r
    {
      assert s[k] in multiset(s);
    }
  }

  /** `WHERE p(row)`: the rows satisfying `p`, in table order. */
  function Filter<T>(s: seq<T>, p: T -> bool): (r: seq<T>)
    ensures |r| <= |s|
    ensures forall k :: 0 <= k < |r| ==> r[k] in s && p(r[k])
    ensures forall k :: 0 <= k < |s| && p(s[k]) ==> s[k] in r
  {
    if s == [] then
      []
    else
      assert s == [s[0]] + s[1..];
      if p(s[0]) then [s[0]] + Filter(s[1..], p) else Filter(s[1..], p)
  }

  /** SQLite `LIMIT n`: at most `n` leading rows; a negative `n` imposes no bound. */
  function LimitRows<T>(s: seq<T>, n: int): (r: seq<T>)
    ensures r <= s
    ensures n < 0 || |s| <= n ==> r == s
    ensures 0 <= n <= |s| ==> |r| == n
  {
    if n < 0 || |s| <= n then s else s[..n]
  }

  /**
   * `if limit: query += f' LIMIT {limit}'`: the clause is only added when the
   * Python value is truthy, so `None` and `0` both return every row.
   */
  function OptionalLimit<T>(s: seq<T>, limit: Option<int>): (r: seq<T>)
    ensures r <= s
    ensures limit.Some? && limit.value > 0 ==> |r| <= limit.value
    ensures limit.Some? && 0 < limit.value <= |s| ==> |r| == limit.value
    ensures limit.None? || limit.value <= 0 || |s| <= limit.value ==> r == s
  {
    if limit.None? || limit.value == 0 then s else LimitRows(s, limit.value)
  }
}
