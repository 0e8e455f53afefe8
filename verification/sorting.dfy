/** Stable insertion sort by a real-valued key: the order `Series.quantile` and
    `DataFrame.sort_values` put their input in before reading positions off it. */
module Sorting {

  predicate SortedBy<T>(s: seq<T>, key: T -> real)
  {
    forall i, j :: 0 <= i < j < |s| ==> key(s[i]) <= key(s[j])
  }

  /** Places `x` before the first element whose key is not smaller than its own. */
  function InsertBy<T>(x: T, s: seq<T>, key: T -> real): (r: seq<T>)
    requires SortedBy(s, key)
    ensures SortedBy(r, key)
    ensures forall k :: 0 <= k < |r| ==> r[k] == x || r[k] in s
    ensures multiset(r) == multiset(s) + multiset{x}
  {
    if |s| == 0 then [x]
    else if key(x) <= key(s[0]) then [x] + s
    else
      var rest := InsertBy(x, s[1..], key);
      InsertBehind(x, s, key, rest);
      [s[0]] + rest
  }

  /** Behind a head whose key is below `x`'s, the insertion into the tail keeps order. */
  lemma InsertBehind<T>(x: T, s: seq<T>, key: T -> real, rest: seq<T>)
    requires SortedBy(s, key) && |s| > 0 && key(s[0]) < key(x)
    requires SortedBy(rest, key) && multiset(rest) == multiset(s[1..]) + multiset{x}
    requires forall k :: 0 <= k < |rest| ==> rest[k] == x || rest[k] in s[1..]
    ensures SortedBy([s[0]] + rest, key)
    ensures forall k :: 0 <= k < |[s[0]] + rest| ==> ([s[0]] + rest)[k] == x || ([s[0]] + rest)[k] in s
    ensures multiset([s[0]] + rest) == multiset(s) + multiset{x}
  {
    assert forall k :: 0 <= k < |rest| ==> key(s[0]) <= key(rest[k]);
    assert s == [s[0]] + s[1..];
  }

  function SortBy<T>(s: seq<T>, key: T -> real): (r: seq<T>)
    ensures SortedBy(r, key)
    ensures multiset(r) == multiset(s)
  {
    if |s| == 0 then []
    else
      assert s == [s[0]] + s[1..];
      InsertBy(s[0], SortBy(s[1..], key), key)
  }
}
