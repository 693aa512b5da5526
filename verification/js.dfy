/** The few JavaScript built-ins the controllers lean on, with their ECMAScript
    semantics spelled out: `indexOf`, `splice(start, 1)`, `push`, `filter` with
    `!==`, and the truthiness test of an optional string field. */
module Js {
  import opened Wrappers

  /** `if (v)` on a request field that is a string or `undefined`:
      `undefined` and the empty string are falsy, every other string is truthy. */
  predicate Truthy(v: Option<string>) {
    v.Some? && v.value != ""
  }

  /** No value occurs twice in `s`. */
  predicate NoDup<T(==)>(s: seq<T>) {
    forall i, j :: 0 <= i < j < |s| ==> s[i] != s[j]
  }

  /** `Array.prototype.indexOf`: the first index holding `x`, or -1. */
  function IndexOf<T(==)>(s: seq<T>, x: T): (r: int)
    ensures -1 <= r < |s|
    ensures r == -1 <==> x !in s
    ensures 0 <= r ==> s[r] == x
    ensures 0 <= r ==> forall j :: 0 <= j < r ==> s[j] != x
  {
    if |s| == 0 then -1
    else if s[0] == x then 0
    else
      var k := IndexOf(s[1..], x);
      if k == -1 then -1 else k + 1
  }

  /** The actual start position `splice` uses for a given `start` argument on
      an array of length `len`: a negative start counts back from the end and
      is clamped at 0, a start past the end is clamped at `len`. */
  function SpliceStart(len: nat, start: int): (k: nat)
    ensures k <= len
    ensures 0 <= start <= len ==> k == start
    ensures start < 0 && len + start >= 0 ==> k == len + start
    ensures start < 0 && len + start < 0 ==> k == 0
    ensures start > len ==> k == len
  {
    if start < 0 then
      if len + start < 0 then 0 else len + start
    else if start > len then len
    else start
  }

  /** `a.splice(start, 1)` applied to the array `s`: the array afterwards.
      With `start == -1` (what `indexOf` returns for a missing element) the
      last element is the one removed. */
  function SpliceOne<T>(s: seq<T>, start: int): (r: seq<T>)
    ensures 0 <= start < |s| ==> |r| == |s| - 1
    ensures 0 <= start < |s| ==> r[..start] == s[..start] && r[start..] == s[start + 1..]
    ensures 0 <= start < |s| ==> multiset(r) == multiset(s) - multiset{s[start]}
    ensures start == -1 && |s| > 0 ==> r == s[..|s| - 1]
    ensures |s| == 0 || start >= |s| ==> r == s
  {
    var k := SpliceStart(|s|, start);
    if k < |s| then
      assert s == s[..k] + [s[k]] + s[k + 1..];
      s[..k] + s[k + 1..]
    else s
  }

  /** `s.filter(y => y !== x)`. */
  function Without<T(==,!new)>(s: seq<T>, x: T): (r: seq<T>)
    ensures x !in r
    ensures forall y :: y != x ==> (y in r <==> y in s)
    ensures |r| <= |s|
    ensures x !in s ==> r == s
  {
    if |s| == 0 then []
    else (if s[0] == x then [] else [s[0]]) + Without(s[1..], x)
  }

  /** After `push(x)` on an array without `x`, `indexOf(x)` finds the pushed
      element and `splice` at that index gives back the original array. */
  lemma PushThenSplice<T>(s: seq<T>, x: T)
    requires x !in s
    ensures IndexOf(s + [x], x) == |s|
    ensures SpliceOne(s + [x], IndexOf(s + [x], x)) == s
  {
    assert (s + [x])[|s|] == x;
    assert (s + [x])[..|s|] == s;
  }

  /** Element `i` of the array after `splice(k, 1)` at a valid index `k`. */
  lemma SpliceIndex<T>(s: seq<T>, k: int)
    requires 0 <= k < |s|
    ensures forall i :: 0 <= i < |SpliceOne(s, k)| ==>
      SpliceOne(s, k)[i] == if i < k then s[i] else s[i + 1]
  {
    var r := SpliceOne(s, k);
    forall i | 0 <= i < |r| ensures r[i] == if i < k then s[i] else s[i + 1] {
      if i < k {
        assert r[i] == r[..k][i];
      } else {
        assert r[i] == r[k..][i - k];
      }
    }
  }

  /** Removing the element at a valid index from a duplicate-free array keeps
      it duplicate-free. */
  lemma SpliceNoDup<T>(s: seq<T>, k: int)
    requires NoDup(s) && 0 <= k < |s|
    ensures NoDup(SpliceOne(s, k))
  {
    var r := SpliceOne(s, k);
    SpliceIndex(s, k);
    forall i, j | 0 <= i < j < |r| ensures r[i] != r[j] {
      var i' := if i < k then i else i + 1;
      var j' := if j < k then j else j + 1;
      assert r[i] == s[i'] && r[j] == s[j'];
    }
  }

  /** In a duplicate-free array, `splice(k, 1)` removes exactly the value at
      `k` and keeps every other value. */
  lemma SpliceMembers<T>(s: seq<T>, k: int)
    requires NoDup(s) && 0 <= k < |s|
    ensures forall y :: y in SpliceOne(s, k) <==> y in s && y != s[k]
  {
    var r := SpliceOne(s, k);
    SpliceIndex(s, k);
    forall y | y in r ensures y in s && y != s[k] {
      var i :| 0 <= i < |r| && r[i] == y;
      var i' := if i < k then i else i + 1;
      assert s[i'] == y;
    }
    forall y | y in s && y != s[k] ensures y in r {
      var i :| 0 <= i < |s| && s[i] == y;
      if i < k { assert r[i] == y; } else { assert r[i - 1] == y; }
    }
  }

  /** Pushing a value that is not yet present keeps an array duplicate-free. */
  lemma PushNoDup<T>(s: seq<T>, x: T)
    requires NoDup(s) && x !in s
    ensures NoDup(s + [x])
  {
    var r := s + [x];
    forall i, j | 0 <= i < j < |r| ensures r[i] != r[j] {
      if j == |s| { assert r[i] == s[i]; }
    }
  }
}
