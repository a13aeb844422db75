/** `Array.prototype.sort` with a numeric comparator, which JavaScript
    performs as a stable sort: a stable insertion sort by an integer key,
    largest key first. An ascending sort is the same sort by the negated key. */
module Sorting {

  predicate SortedDesc<T>(s: seq<T>, key: T -> int) {
    forall i, j :: 0 <= i < j < |s| ==> key(s[i]) >= key(s[j])
  }

  /** Places `x` in front of the first element whose key is not larger, so
      among equal keys `x` comes first. */
  function Insert<T>(x: T, s: seq<T>, key: T -> int): (r: seq<T>)
    requires SortedDesc(s, key)
    ensures SortedDesc(r, key)
    ensures multiset(r) == multiset(s) + multiset{x}
    ensures |r| == |s| + 1
    ensures r[0] == x || (s != [] && r[0] == s[0])
  {
    if s == [] || key(s[0]) <= key(x) then
      [x] + s
    else
      var t := Insert(x, s[1..], key);
      assert s == [s[0]] + s[1..];
      assert key(t[0]) <= key(s[0]);
      [s[0]] + t
  }

  /** The elements of `s` reordered so that keys never increase; elements with
      equal keys keep their relative order. */
  function SortByKeyDesc<T>(s: seq<T>, key: T -> int): (r: seq<T>)
    ensures SortedDesc(r, key)
    ensures multiset(r) == multiset(s)
    ensures |r| == |s|
  {
    if s == [] then []
    else
      assert s == [s[0]] + s[1..];
      Insert(s[0], SortByKeyDesc(s[1..], key), key)
  }

  function Identity(x: int): int { x }

  function Negate(x: int): int { -x }

  /** Integers sorted newest first: `sort((a, b) => b - a)`. */
  function SortDescending(s: seq<int>): (r: seq<int>)
    ensures forall i, j :: 0 <= i < j < |r| ==> r[i] >= r[j]
    ensures multiset(r) == multiset(s)
  {
    var r := SortByKeyDesc(s, Identity);
    assert forall i, j :: 0 <= i < j < |r| ==> Identity(r[i]) >= Identity(r[j]);
    r
  }

  /** Integers sorted oldest first: `sort((a, b) => a - b)`. */
  function SortAscending(s: seq<int>): (r: seq<int>)
    ensures forall i, j :: 0 <= i < j < |r| ==> r[i] <= r[j]
    ensures multiset(r) == multiset(s)
  {
    var r := SortByKeyDesc(s, Negate);
    assert forall i, j :: 0 <= i < j < |r| ==> Negate(r[i]) >= Negate(r[j]);
    r
  }
}
