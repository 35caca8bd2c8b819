/**
 * The JavaScript string primitives the script relies on, over `string` (a sequence of
 * UTF-16 code units in JavaScript, of characters here): `trim`, `includes`,
 * `startsWith`, `split` with a one-character separator, and an ASCII `toLowerCase`.
 */
module Strings {

  /** The WhiteSpace and LineTerminator code points of ECMAScript, which `trim` removes. */
  predicate IsJsSpace(c: char) {
    || c == '\t' || c == '\n' || c == '\U{000B}' || c == '\U{000C}' || c == '\r' || c == ' '
    || c == '\U{00A0}' || c == '\U{1680}' || ('\U{2000}' <= c <= '\U{200A}')
    || c == '\U{2028}' || c == '\U{2029}' || c == '\U{202F}' || c == '\U{205F}'
    || c == '\U{3000}' || c == '\U{FEFF}'
  }

  predicate IsDigit(c: char) {
    '0' <= c <= '9'
  }

  predicate AllDigits(s: string) {
    forall k :: 0 <= k < |s| ==> IsDigit(s[k])
  }

  /** `trimStart`: the white space at the front is dropped. */
  function TrimStart(s: string): string {
    if |s| > 0 && IsJsSpace(s[0]) then TrimStart(s[1..]) else s
  }

  lemma {:induction false} TrimStartFacts(s: string)
    ensures var r := TrimStart(s);
      && |r| <= |s| && r == s[|s| - |r|..]
      && (forall k :: 0 <= k < |s| - |r| ==> IsJsSpace(s[k]))
      && (r == [] || !IsJsSpace(r[0]))
  {
    if |s| > 0 && IsJsSpace(s[0]) {
      TrimStartFacts(s[1..]);
      assert forall k :: 1 <= k < |s| ==> s[k] == s[1..][k - 1];
    }
  }

  /** `trimEnd`: the white space at the back is dropped. */
  function TrimEnd(s: string): string {
    if |s| > 0 && IsJsSpace(s[|s| - 1]) then TrimEnd(s[..|s| - 1]) else s
  }

  lemma {:induction false} TrimEndFacts(s: string)
    ensures var r := TrimEnd(s);
      && |r| <= |s| && r == s[..|r|]
      && (forall k :: |r| <= k < |s| ==> IsJsSpace(s[k]))
      && (r == [] || !IsJsSpace(r[|r| - 1]))
  {
    if |s| > 0 && IsJsSpace(s[|s| - 1]) {
      TrimEndFacts(s[..|s| - 1]);
    }
  }

  /**
   * `String.prototype.trim`: the result is the slice of `s` left once white space is
   * dropped from both ends; it is empty exactly when every character is white space,
   * otherwise it starts and ends with a non-space, and a string that already does is
   * left alone.
   */
  function Trim(s: string): (r: string)
    ensures exists i, j ::
      && 0 <= i <= j <= |s| && r == s[i..j]
      && (forall k :: 0 <= k < i ==> IsJsSpace(s[k]))
      && (forall k :: j <= k < |s| ==> IsJsSpace(s[k]))
    ensures r == [] <==> forall k :: 0 <= k < |s| ==> IsJsSpace(s[k])
    ensures r != [] ==> !IsJsSpace(r[0]) && !IsJsSpace(r[|r| - 1])
    ensures |s| == 0 || (!IsJsSpace(s[0]) && !IsJsSpace(s[|s| - 1])) ==> r == s
  {
    var t := TrimStart(s);
    var r := TrimEnd(t);
    TrimStartFacts(s);
    TrimEndFacts(t);
    assert r == [] ==> t == [];
    var i := |s| - |t|;
    assert r == s[i..i + |r|];
    assert forall k :: i + |r| <= k < |s| ==> s[k] == t[k - i];
    r
  }

  /** A leading white-space character makes no difference to `trim`. */
  lemma TrimDropsSpace(c: char, s: string)
    requires IsJsSpace(c)
    ensures Trim([c] + s) == Trim(s)
  {
    assert ([c] + s)[1..] == s;
    assert TrimStart([c] + s) == TrimStart(s);
  }

  /** JavaScript's `toLowerCase`, restricted to the ASCII letters. */
  function LowerChar(c: char): char {
    if 'A' <= c <= 'Z' then (c as int + 32) as char else c
  }

  function Lower(s: string): string {
    seq(|s|, k requires 0 <= k < |s| => LowerChar(s[k]))
  }

  predicate StartsWith(s: string, prefix: string) {
    |prefix| <= |s| && s[..|prefix|] == prefix
  }

  /** `t` occurs in `s` at position `i`. */
  predicate ContainsAt(s: string, t: string, i: int) {
    0 <= i && i + |t| <= |s| && s[i..i + |t|] == t
  }

  /** `String.prototype.includes`: a case-sensitive substring test. */
  predicate Contains(s: string, t: string) {
    exists i :: 0 <= i <= |s| && ContainsAt(s, t, i)
  }

  /** A slice of an occurrence is a slice of the text it occurs in. */
  lemma SliceOfSlice(s: string, i: nat, t: string, a: nat, b: nat)
    requires ContainsAt(s, t, i) && a <= b <= |t|
    ensures s[i + a..i + b] == t[a..b]
  {
    forall k | 0 <= k < b - a ensures s[i + a..i + b][k] == t[a..b][k] {
      assert s[i + a + k] == s[i..i + |t|][a + k];
    }
  }

  /** A character of an occurrence is a character of the text it occurs in. */
  lemma CharOfSlice(s: string, i: nat, t: string, a: nat)
    requires ContainsAt(s, t, i) && a < |t|
    ensures s[i + a] == t[a]
  {
    assert s[i + a] == s[i..i + |t|][a];
  }

  /** The middle piece of a concatenation occurs in it where the first piece ends. */
  lemma PieceAt(s: string, a: string, b: string, c: string)
    requires s == a + b + c
    ensures ContainsAt(s, b, |a|)
  {
    assert s[|a|..|a| + |b|] == b;
  }

  /** Three texts that stand side by side in `s` make up the slice they cover. */
  lemma SideBySide(s: string, i: nat, e1: nat, e2: nat, x: string, y: string, z: string)
    requires i <= e1 && e1 + |y| <= e2 <= |s|
    requires s[i..e1] == x && ContainsAt(s, y, e1) && s[e1 + |y|..e2] == z
    ensures s[i..e2] == x + y + z
  {
    assert s[i..e2] == s[i..e1] + s[e1..e1 + |y|] + s[e1 + |y|..e2];
  }

  /** `t` occurs in `s` at `lo` or later. */
  predicate OccursFrom(s: string, t: string, lo: nat) {
    exists j :: lo <= j <= |s| && ContainsAt(s, t, j)
  }

  lemma OccursAt(s: string, t: string, lo: nat, j: nat)
    requires lo <= j && ContainsAt(s, t, j)
    ensures OccursFrom(s, t, lo)
  {
  }

  lemma OccursLater(s: string, t: string, lo: nat, hi: nat)
    requires lo <= hi && OccursFrom(s, t, hi)
    ensures OccursFrom(s, t, lo)
  {
  }

  /** The three pieces of a concatenation are slices of it. */
  lemma ConcatThree(a: string, b: string, c: string)
    ensures (a + b + c)[..|a|] == a
    ensures (a + b + c)[|a|..|a| + |b|] == b
    ensures (a + b + c)[|a| + |b|..] == c
  {
  }

  /** The tail of an occurrence occurs where the tail starts. */
  lemma ContainsAtTail(s: string, t: string, i: int, d: nat)
    requires ContainsAt(s, t, i) && d <= |t|
    ensures ContainsAt(s, t[d..], i + d)
  {
    var here := s[i + d..i + |t|];
    forall k | 0 <= k < |t| - d ensures here[k] == t[d..][k] {
      assert here[k] == s[i + d + k] == s[i..i + |t|][d + k];
    }
  }

  /** A substring of a substring is a substring. */
  lemma ContainsTransitive(s: string, m: string, t: string)
    requires Contains(s, m) && Contains(m, t)
    ensures Contains(s, t)
  {
    var i :| 0 <= i <= |s| && ContainsAt(s, m, i);
    var j :| 0 <= j <= |m| && ContainsAt(m, t, j);
    assert m == s[i..i + |m|];
    var here, there := s[i + j..i + j + |t|], m[j..j + |t|];
    forall k | 0 <= k < |t| ensures here[k] == there[k] {
      assert m[j + k] == s[i + j + k];
    }
    assert here == there;
    assert ContainsAt(s, t, i + j);
  }

  /** `String.prototype.split` with a one-character separator. */
  function Split(s: string, sep: char): (parts: seq<string>)
    ensures |parts| >= 1
    ensures forall k :: 0 <= k < |parts| ==> sep !in parts[k]
  {
    if s == [] then [[]]
    else
      var rest := Split(s[1..], sep);
      if s[0] == sep then [[]] + rest else [[s[0]] + rest[0]] + rest[1..]
  }

  /** Splitting `a, b` at commas, for comma-free `a` and `b`. */
  lemma SplitCommaSpace(a: string, b: string)
    requires ',' !in a && ',' !in b
    ensures Split(a + ", " + b, ',') == [a, " " + b]
  {
    assert a + ", " + b == a + [','] + (" " + b);
    SplitAppend(a, ',', " " + b);
    SplitWithoutSeparator(a, ',');
    SplitWithoutSeparator(" " + b, ',');
  }

  /** `Array.prototype.join` with a one-character separator; the inverse of `Split`. */
  function Join(parts: seq<string>, sep: char): string
    requires |parts| >= 1
  {
    if |parts| == 1 then parts[0] else parts[0] + [sep] + Join(parts[1..], sep)
  }

  lemma {:induction false} SplitWithoutSeparator(s: string, sep: char)
    requires sep !in s
    ensures Split(s, sep) == [s]
  {
    if s != [] {
      SplitWithoutSeparator(s[1..], sep);
      assert [s[0]] + s[1..] == s;
    }
  }

  lemma {:induction false} SplitAppend(a: string, sep: char, b: string)
    ensures Split(a + [sep] + b, sep) == Split(a, sep) + Split(b, sep)
  {
    if a == [] {
      assert a + [sep] + b == [sep] + b;
      assert ([sep] + b)[1..] == b;
    } else {
      assert (a + [sep] + b)[1..] == a[1..] + [sep] + b;
      assert (a + [sep] + b)[0] == a[0];
      SplitAppend(a[1..], sep, b);
      var x, y := Split(a[1..], sep), Split(b, sep);
      if a[0] == sep {
        AppendAssoc([[]], x, y);
      } else {
        HeadAppend(x, y);
        AppendAssoc([[a[0]] + x[0]], x[1..], y);
      }
    }
  }

  lemma AppendAssoc<T>(x: seq<T>, y: seq<T>, z: seq<T>)
    ensures x + (y + z) == (x + y) + z
  {
  }

  lemma HeadAppend<T>(x: seq<T>, y: seq<T>)
    requires |x| >= 1
    ensures (x + y)[0] == x[0] && (x + y)[1..] == x[1..] + y
  {
  }

  /** Joining the parts of a split with the separator gives the text back. */
  lemma {:induction false} JoinSplit(s: string, sep: char)
    ensures Join(Split(s, sep), sep) == s
  {
    if s != [] {
      var rest := Split(s[1..], sep);
      JoinSplit(s[1..], sep);
      if s[0] == sep {
        assert ([[]] + rest)[1..] == rest;
      } else {
        JoinCons(s[0], rest, sep);
      }
      assert [s[0]] + s[1..] == s;
    }
  }

  /** A character put in front of the first part ends up in front of the join. */
  lemma JoinCons(c: char, parts: seq<string>, sep: char)
    requires |parts| >= 1
    ensures Join([[c] + parts[0]] + parts[1..], sep) == [c] + Join(parts, sep)
  {
    var ps := [[c] + parts[0]] + parts[1..];
    assert ps[1..] == parts[1..];
  }

  /** Splitting a join of separator-free parts gives the parts back. */
  lemma {:induction false} SplitJoin(parts: seq<string>, sep: char)
    requires |parts| >= 1
    requires forall k :: 0 <= k < |parts| ==> sep !in parts[k]
    ensures Split(Join(parts, sep), sep) == parts
  {
    if |parts| == 1 {
      SplitWithoutSeparator(parts[0], sep);
    } else {
      SplitJoin(parts[1..], sep);
      SplitAppend(parts[0], sep, Join(parts[1..], sep));
      SplitWithoutSeparator(parts[0], sep);
      assert [parts[0]] + parts[1..] == parts;
    }
  }
}
