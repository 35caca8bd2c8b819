/**
 * The list operations the script uses: `Array.prototype.filter`, and the first present
 * entry of a list of optional results (a `for...of` scan with early return).
 */
module Seqs {
  import opened Wrappers

  // ---------------------------------------------------------------------------
  // filter

  /** `s.filter(keep)`: the elements `keep` accepts, in their original order. */
  function Filter<T>(s: seq<T>, keep: T -> bool): (r: seq<T>)
    ensures |r| <= |s|
    ensures forall k :: 0 <= k < |r| ==> keep(r[k]) && r[k] in s
    ensures forall k :: 0 <= k < |s| && keep(s[k]) ==> s[k] in r
  {
    if s == [] then []
    else
      var rest := Filter(s[1..], keep);
      assert forall k :: 1 <= k < |s| ==> s[k] == s[1..][k - 1];
      if keep(s[0]) then [s[0]] + rest else rest
  }

  /** Filtering distributes over concatenation, so it keeps the relative order. */
  lemma {:induction false} FilterAppend<T>(a: seq<T>, b: seq<T>, keep: T -> bool)
    ensures Filter(a + b, keep) == Filter(a, keep) + Filter(b, keep)
  {
    if a != [] {
      assert (a + b)[1..] == a[1..] + b;
      FilterAppend(a[1..], b, keep);
    } else {
      assert a + b == b;
    }
  }

  lemma FilterSingleton<T>(x: T, keep: T -> bool)
    ensures Filter([x], keep) == if keep(x) then [x] else []
  {
    assert [x][1..] == [];
  }

  /** Nothing is dropped exactly when every element is kept, and then the list is unchanged. */
  lemma {:induction false} FilterKeepsAll<T>(s: seq<T>, keep: T -> bool)
    ensures |Filter(s, keep)| == |s| <==> forall k :: 0 <= k < |s| ==> keep(s[k])
    ensures (forall k :: 0 <= k < |s| ==> keep(s[k])) ==> Filter(s, keep) == s
  {
    if s != [] {
      FilterKeepsAll(s[1..], keep);
      assert forall k :: 1 <= k < |s| ==> s[k] == s[1..][k - 1];
      assert [s[0]] + s[1..] == s;
    }
  }

  /** The number of elements `keep` accepts. */
  function Count<T>(s: seq<T>, keep: T -> bool): (n: nat)
    ensures n <= |s|
  {
    if s == [] then 0 else (if keep(s[0]) then 1 else 0) + Count(s[1..], keep)
  }

  lemma {:induction false} FilterCount<T>(s: seq<T>, keep: T -> bool)
    ensures |Filter(s, keep)| == Count(s, keep)
  {
    if s != [] {
      FilterCount(s[1..], keep);
    }
  }

  // ---------------------------------------------------------------------------
  // First present entry

  /** `ms[k]` is present and no entry before it is. */
  predicate FirstSomeAt<T>(ms: seq<Option<T>>, k: int) {
    0 <= k < |ms| && ms[k].Some? && forall j :: 0 <= j < k ==> ms[j].None?
  }

  /** The first present entry: what a scan with early return finds. */
  function FirstSome<T(==)>(ms: seq<Option<T>>): (r: Option<T>)
    ensures r.None? <==> forall k :: 0 <= k < |ms| ==> ms[k].None?
    ensures r.Some? ==> exists k :: FirstSomeAt(ms, k) && r == ms[k]
  {
    if ms == [] then None
    else if ms[0].Some? then
      assert FirstSomeAt(ms, 0);
      ms[0]
    else
      var r := FirstSome(ms[1..]);
      assert forall k :: 1 <= k < |ms| ==> ms[k] == ms[1..][k - 1];
      if r.Some? then
        var k :| FirstSomeAt(ms[1..], k) && r == ms[1..][k];
        assert FirstSomeAt(ms, k + 1);
        r
      else r
  }

  /** The scan stops at the first present entry, whichever index that is. */
  lemma FirstSomeAtUnique<T>(ms: seq<Option<T>>, k: int)
    requires FirstSomeAt(ms, k)
    ensures FirstSome(ms) == ms[k]
  {
    var j :| FirstSomeAt(ms, j) && FirstSome(ms) == ms[j];
    assert FirstSomeAt(ms, j);
    assert 0 <= j < |ms|;
    assert j == k;
  }

  /** A prefix decides the scan when it holds a present entry or nothing after it does. */
  lemma FirstSomePrefix<T>(ms: seq<Option<T>>, n: nat)
    requires n <= |ms|
    requires FirstSome(ms[..n]).Some? || forall k :: n <= k < |ms| ==> ms[k].None?
    ensures FirstSome(ms) == FirstSome(ms[..n])
  {
    var prefix := ms[..n];
    if FirstSome(prefix).Some? {
      var k :| FirstSomeAt(prefix, k) && FirstSome(prefix) == prefix[k];
      PrefixFirst(ms, n, k);
      FirstSomeAtUnique(ms, k);
    } else {
      assert forall k :: 0 <= k < n ==> ms[k] == prefix[k];
      assert forall k :: 0 <= k < |ms| ==> ms[k].None?;
    }
  }

  lemma PrefixFirst<T>(ms: seq<Option<T>>, n: nat, k: int)
    requires n <= |ms| && FirstSomeAt(ms[..n], k)
    ensures FirstSomeAt(ms, k)
  {
    assert forall j :: 0 <= j < n ==> ms[..n][j] == ms[j];
  }
}
