// `ORDER BY <text column>` on a result set: the rows sorted by a string key
// in code-point order (collation is not modelled), equal keys keeping
// their table order.

module Ordering {

  /** Lexicographic order on strings by code point. */
  predicate StrLe(a: string, b: string)
  {
    |a| == 0 || (|b| > 0 && (a[0] < b[0] || (a[0] == b[0] && StrLe(a[1..], b[1..]))))
  }

  lemma {:induction false} StrLeTotal(a: string, b: string)
    ensures StrLe(a, b) || StrLe(b, a)
  {
    if |a| > 0 && |b| > 0 && a[0] == b[0] {
      StrLeTotal(a[1..], b[1..]);
    }
  }

  lemma {:induction false} StrLeTransitive(a: string, b: string, c: string)
    requires StrLe(a, b) && StrLe(b, c)
    ensures StrLe(a, c)
  {
    if |a| > 0 && a[0] == b[0] && b[0] == c[0] {
      StrLeTransitive(a[1..], b[1..], c[1..]);
    }
  }

  /** The keys of `s` never decrease. */
  predicate SortedBy<T>(s: seq<T>, key: T -> string)
  {
    forall i, j :: 0 <= i < j < |s| ==> StrLe(key(s[i]), key(s[j]))
  }

  /** `x` placed before the first element whose key is not below its own. */
  function InsertBy<T>(x: T, s: seq<T>, key: T -> string): (r: seq<T>)
    ensures |r| == |s| + 1
    ensures multiset(r) == multiset(s) + multiset{x}
  {
    if |s| == 0 then [x]
    else if StrLe(key(x), key(s[0])) then [x] + s
    else
      assert s == [s[0]] + s[1..];
      [s[0]] + InsertBy(x, s[1..], key)
  }

  /** The rows in key order; a stable insertion sort from the end. */
  function SortBy<T>(s: seq<T>, key: T -> string): (r: seq<T>)
    ensures |r| == |s|
    ensures multiset(r) == multiset(s)
  {
    if |s| == 0 then []
    else
      assert s == [s[0]] + s[1..];
      InsertBy(s[0], SortBy(s[1..], key), key)
  }

  lemma {:induction false} InsertBySorted<T>(x: T, s: seq<T>, key: T -> string)
    requires SortedBy(s, key)
    ensures SortedBy(InsertBy(x, s, key), key)
  {
    if |s| > 0 && !StrLe(key(x), key(s[0])) {
      InsertBySorted(x, s[1..], key);
      StrLeTotal(key(x), key(s[0]));
      InsertedAfterHead(x, s, key);
      ConsSorted(s[0], InsertBy(x, s[1..], key), key);
    } else if |s| > 0 {
      forall j | 0 <= j < |s|
        ensures StrLe(key(x), key(s[j]))
      {
        if j > 0 {
          StrLeTransitive(key(x), key(s[0]), key(s[j]));
        }
      }
      ConsSorted(x, s, key);
    }
  }

  /** Inserting past the head of a sorted list keeps every key of the
      result at or above the head's. */
  lemma InsertedAfterHead<T>(x: T, s: seq<T>, key: T -> string)
    requires |s| > 0 && SortedBy(s, key) && StrLe(key(s[0]), key(x))
    ensures forall j :: 0 <= j < |InsertBy(x, s[1..], key)| ==> StrLe(key(s[0]), key(InsertBy(x, s[1..], key)[j]))
  {
    var rest := InsertBy(x, s[1..], key);
    forall j | 0 <= j < |rest|
      ensures StrLe(key(s[0]), key(rest[j]))
    {
      assert rest[j] in multiset(rest);
      assert rest[j] == x || rest[j] in multiset(s[1..]);
      if rest[j] != x {
        var k :| 0 <= k < |s[1..]| && s[1..][k] == rest[j];
        assert s[k + 1] == rest[j];
      }
    }
  }

  /** A head whose key is at or below every key of a sorted list keeps it
      sorted. */
  lemma ConsSorted<T>(a: T, rest: seq<T>, key: T -> string)
    requires SortedBy(rest, key)
    requires forall j :: 0 <= j < |rest| ==> StrLe(key(a), key(rest[j]))
    ensures SortedBy([a] + rest, key)
  {
    var r := [a] + rest;
    forall i, j | 0 <= i < j < |r|
      ensures StrLe(key(r[i]), key(r[j]))
    {
      if i > 0 {
        assert r[i] == rest[i - 1] && r[j] == rest[j - 1];
      } else {
        assert r[j] == rest[j - 1];
      }
    }
  }

  /** SortBy returns its input rearranged in key order. */
  lemma {:induction false} SortBySorted<T>(s: seq<T>, key: T -> string)
    ensures SortedBy(SortBy(s, key), key)
    ensures multiset(SortBy(s, key)) == multiset(s)
  {
    if |s| > 0 {
      SortBySorted(s[1..], key);
      InsertBySorted(s[0], SortBy(s[1..], key), key);
    }
  }

  /** Rows already in key order come back unchanged, ties included. */
  lemma {:induction false} SortByKeepsSorted<T>(s: seq<T>, key: T -> string)
    requires SortedBy(s, key)
    ensures SortBy(s, key) == s
  {
    if |s| > 0 {
      assert SortedBy(s[1..], key) by {
        forall i, j | 0 <= i < j < |s[1..]|
          ensures StrLe(key(s[1..][i]), key(s[1..][j]))
        {
          assert s[1..][i] == s[i + 1] && s[1..][j] == s[j + 1];
        }
      }
      SortByKeepsSorted(s[1..], key);
      if |s| > 1 {
        assert StrLe(key(s[0]), key(s[1]));
      }
      assert s == [s[0]] + s[1..];
    }
  }

  /** The rows in the opposite order, for DESC. */
  function Reverse<T>(s: seq<T>): (r: seq<T>)
    ensures |r| == |s|
  {
    if |s| == 0 then [] else Reverse(s[1..]) + [s[0]]
  }

  lemma {:induction false} ReverseSameElements<T>(s: seq<T>)
    ensures multiset(Reverse(s)) == multiset(s)
  {
    if |s| > 0 {
      ReverseSameElements(s[1..]);
      assert s == [s[0]] + s[1..];
    }
  }
}
