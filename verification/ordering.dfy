/** Sorting by a list of string keys: the model of LINQ's
    `OrderBy(k0).ThenBy(k1)` as the source uses it for user listings and
    combo boxes. */
module Ordering {
  import Text

  /** `s` is ordered by `key`: every earlier element's key is at most every later one's. */
  ghost predicate SortedByKey<T>(s: seq<T>, key: T -> seq<string>)
  {
    forall i, j :: 0 <= i < j < |s| ==> Text.KeyLe(key(s[i]), key(s[j]))
  }

  /** Inserts `x` in front of the first element whose key is not smaller. */
  function InsertByKey<T>(x: T, s: seq<T>, key: T -> seq<string>): (r: seq<T>)
    requires SortedByKey(s, key)
    ensures multiset(r) == multiset(s) + multiset{x}
    ensures SortedByKey(r, key)
    decreases |s|
  {
    if |s| == 0 then [x]
    else if Text.KeyLe(key(x), key(s[0])) then
      assert forall j :: 0 <= j < |s| ==> Text.KeyLe(key(x), key(s[j])) by {
        forall j | 0 < j < |s| {
          Text.KeyLeTransitive(key(x), key(s[0]), key(s[j]));
        }
      }
      ConsSorted(x, s, key);
      assert s == [s[0]] + s[1..];
      [x] + s
    else
      var rest := InsertByKey(x, s[1..], key);
      assert s == [s[0]] + s[1..];
      Text.KeyLeTotal(key(x), key(s[0]));
      assert forall k :: 0 <= k < |s[1..]| ==> s[1..][k] == s[k + 1];
      InsertLowerBound(s[0], x, s[1..], rest, key);
      ConsSorted(s[0], rest, key);
      [s[0]] + rest
  }

  /** An element whose key bounds every key of a sorted sequence can head it. */
  lemma ConsSorted<T>(x: T, s: seq<T>, key: T -> seq<string>)
    requires SortedByKey(s, key)
    requires forall j :: 0 <= j < |s| ==> Text.KeyLe(key(x), key(s[j]))
    ensures SortedByKey([x] + s, key)
  {
    var r := [x] + s;
    forall i, j | 0 <= i < j < |r|
      ensures Text.KeyLe(key(r[i]), key(r[j]))
    {
      assert r[j] == s[j - 1];
      if i > 0 {
        assert r[i] == s[i - 1];
      }
    }
  }

  /** A key bounding `x` and every key of `t` bounds every key of any
      arrangement of `t` with `x` added. */
  lemma InsertLowerBound<T>(y: T, x: T, t: seq<T>, rest: seq<T>, key: T -> seq<string>)
    requires multiset(rest) == multiset(t) + multiset{x}
    requires Text.KeyLe(key(y), key(x))
    requires forall k :: 0 <= k < |t| ==> Text.KeyLe(key(y), key(t[k]))
    ensures forall j :: 0 <= j < |rest| ==> Text.KeyLe(key(y), key(rest[j]))
  {
    forall j | 0 <= j < |rest|
      ensures Text.KeyLe(key(y), key(rest[j]))
    {
      assert rest[j] in multiset(rest);
      if rest[j] != x {
        assert rest[j] in multiset(t);
        var k :| 0 <= k < |t| && t[k] == rest[j];
      }
    }
  }

  /** Insertion sort by `key`: a permutation of `s` that is sorted by `key`. */
  function SortByKey<T>(s: seq<T>, key: T -> seq<string>): (r: seq<T>)
    ensures multiset(r) == multiset(s)
    ensures SortedByKey(r, key)
    decreases |s|
  {
    if |s| == 0 then []
    else
      assert s == [s[0]] + s[1..];
      InsertByKey(s[0], SortByKey(s[1..], key), key)
  }
}
