/** Descending order on a pair of integer keys, and the stable sort that the
    handlers get from `Array.prototype.sort` with a comparator of the shape
    `(a, b) => b.major - a.major || b.minor - a.minor`. */
module Ordering {

  datatype Key = Key(major: int, minor: int)

  /** The comparator puts `a` strictly before `b`. */
  predicate Above(a: Key, b: Key) {
    a.major > b.major || (a.major == b.major && a.minor > b.minor)
  }

  /** No element sorts strictly before one that precedes it. */
  ghost predicate SortedDesc<T>(s: seq<T>, key: T -> Key) {
    forall i, j :: 0 <= i < j < |s| ==> !Above(key(s[j]), key(s[i]))
  }

  /** Places `x` after every element it does not sort strictly before, so that
      elements with equal keys keep their input order. */
  function Insert<T>(s: seq<T>, x: T, key: T -> Key): (r: seq<T>)
    ensures multiset(r) == multiset(s) + multiset{x}
    ensures SortedDesc(s, key) ==> SortedDesc(r, key)
  {
    if |s| == 0 then [x]
    else if Above(key(x), key(s[0])) then [x] + s
    else
      var tail := Insert(s[1..], x, key);
      assert s == [s[0]] + s[1..];
      ConsSorted(s, x, tail, key);
      [s[0]] + tail
  }

  /** The step of `Insert` that keeps the head: the head sorts no lower than
      anything of the tail it is put in front of. */
  lemma {:induction false} ConsSorted<T>(s: seq<T>, x: T, tail: seq<T>, key: T -> Key)
    requires |s| > 0 && !Above(key(x), key(s[0]))
    requires multiset(tail) == multiset(s[1..]) + multiset{x}
    requires SortedDesc(s[1..], key) ==> SortedDesc(tail, key)
    ensures SortedDesc(s, key) ==> SortedDesc([s[0]] + tail, key)
  {
    if SortedDesc(s, key) {
      assert SortedDesc(s[1..], key);
      var r := [s[0]] + tail;
      forall i, j | 0 <= i < j < |r|
        ensures !Above(key(r[j]), key(r[i]))
      {
        if i == 0 {
          var y := r[j];
          assert y == tail[j - 1];
          assert y in multiset(tail);
          if y != x {
            assert y in multiset(s[1..]);
            var k :| 0 <= k < |s[1..]| && s[1..][k] == y;
            assert s[k + 1] == y;
          }
        } else {
          assert r[i] == tail[i - 1] && r[j] == tail[j - 1];
        }
      }
    }
  }

  /** Insertion sort of the input, front to back. */
  function Sort<T>(s: seq<T>, key: T -> Key): (r: seq<T>)
    ensures multiset(r) == multiset(s)
    ensures SortedDesc(r, key)
  {
    if |s| == 0 then []
    else
      assert s == s[..|s| - 1] + [s[|s| - 1]];
      Insert(Sort(s[..|s| - 1], key), s[|s| - 1], key)
  }

  /** Cutting a sorted sequence after `k` elements leaves nothing behind that
      sorts strictly before anything kept. */
  lemma {:induction false} CutKeepsTop<T>(s: seq<T>, key: T -> Key, k: nat)
    requires SortedDesc(s, key)
    requires k <= |s|
    ensures forall x, y :: x in s[k..] && y in s[..k] ==> !Above(key(x), key(y))
  {
    forall x, y | x in s[k..] && y in s[..k]
      ensures !Above(key(x), key(y))
    {
      var a :| 0 <= a < |s[k..]| && s[k..][a] == x;
      var b :| 0 <= b < |s[..k]| && s[..k][b] == y;
      assert s[b] == y && s[k + a] == x;
    }
  }
}
