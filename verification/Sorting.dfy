/** Insertion by a numeric key, for the lists the source sorts, and maps that only grow. */
module Sorting {

  /** `big` keeps every entry of `small`. */
  ghost predicate Extends<K, V>(small: map<K, V>, big: map<K, V>) {
    forall x :: x in small ==> x in big && big[x] == small[x]
  }

  ghost predicate AscendingBy<T>(key: T -> nat, s: seq<T>) {
    forall i, j :: 0 <= i < j < |s| ==> key(s[i]) < key(s[j])
  }

  ghost predicate DistinctBy<T>(key: T -> nat, s: seq<T>) {
    forall i, j :: 0 <= i < j < |s| ==> key(s[i]) != key(s[j])
  }

  function Itself(n: nat): nat {
    n
  }

  function Insert<T>(key: T -> nat, s: seq<T>, x: T): seq<T> {
    if s == [] || key(x) < key(s[0]) then [x] + s else [s[0]] + Insert(key, s[1..], x)
  }

  function Sort<T>(key: T -> nat, s: seq<T>): seq<T> {
    if s == [] then [] else Insert(key, Sort(key, s[..|s| - 1]), s[|s| - 1])
  }

  lemma {:induction false} InsertMembers<T>(key: T -> nat, s: seq<T>, x: T, y: T)
    ensures y in Insert(key, s, x) <==> y in s || y == x
    ensures |Insert(key, s, x)| == |s| + 1
  {
    if s != [] && key(x) >= key(s[0]) {
      InsertMembers(key, s[1..], x, y);
      assert s == [s[0]] + s[1..];
    }
  }

  lemma {:induction false} InsertAscends<T>(key: T -> nat, s: seq<T>, x: T)
    requires AscendingBy(key, s) && forall i :: 0 <= i < |s| ==> key(s[i]) != key(x)
    ensures AscendingBy(key, Insert(key, s, x))
  {
    if s != [] && key(x) >= key(s[0]) {
      InsertAscends(key, s[1..], x);
      var rest := Insert(key, s[1..], x);
      forall i | 0 <= i < |rest| ensures key(s[0]) < key(rest[i]) { InsertMembers(key, s[1..], x, rest[i]); }
    }
  }

  lemma {:induction false} SortMembers<T>(key: T -> nat, s: seq<T>, y: T)
    ensures y in Sort(key, s) <==> y in s
  {
    if s != [] {
      var n := |s| - 1;
      SortMembers(key, s[..n], y);
      InsertMembers(key, Sort(key, s[..n]), s[n], y);
      assert s == s[..n] + [s[n]];
    }
  }

  lemma {:induction false} SortAscends<T>(key: T -> nat, s: seq<T>)
    requires DistinctBy(key, s)
    ensures AscendingBy(key, Sort(key, s))
  {
    if s != [] {
      var n := |s| - 1;
      SortAscends(key, s[..n]);
      var front := Sort(key, s[..n]);
      forall i | 0 <= i < |front| ensures key(front[i]) != key(s[n]) {
        SortMembers(key, s[..n], front[i]);
        var j :| 0 <= j < n && s[..n][j] == front[i];
      }
      InsertAscends(key, front, s[n]);
    }
  }
}
