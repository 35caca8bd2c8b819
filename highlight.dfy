/**
 * `escapeRegex` (script.js:241-243) and `highlightText` (script.js:233-238). The
 * escaped term, compiled with the `gi` flags, matches the term literally and ignoring
 * case, so the replacement is modelled as a left-to-right scan for case-insensitive
 * occurrences, which wraps each one, in its original spelling, in a highlight span.
 */
module Highlight {
  import opened Strings

  /** The characters `escapeRegex` prefixes with a backslash. */
  predicate IsRegexSpecial(c: char) {
    || c == '.' || c == '*' || c == '+' || c == '?' || c == '^' || c == '$' || c == '{'
    || c == '}' || c == '(' || c == ')' || c == '|' || c == '[' || c == ']' || c == '\\'
  }

  /**
   * A pattern that a regular expression reads as a literal string: each special character
   * stands behind a backslash, and no other character is special.
   */
  predicate ReadsLiterally(r: string)
    decreases |r|
  {
    if r == [] then true
    else if r[0] == '\\' then |r| >= 2 && IsRegexSpecial(r[1]) && ReadsLiterally(r[2..])
    else !IsRegexSpecial(r[0]) && ReadsLiterally(r[1..])
  }

  /** `escapeRegex`: a backslash before every special character. */
  function EscapeRegex(s: string): (r: string)
    ensures |r| >= |s|
    ensures |r| == |s| <==> forall k :: 0 <= k < |s| ==> !IsRegexSpecial(s[k])
    ensures ReadsLiterally(r)
  {
    if s == [] then []
    else
      var rest := EscapeRegex(s[1..]);
      assert forall k :: 1 <= k < |s| ==> s[k] == s[1..][k - 1];
      if IsRegexSpecial(s[0]) then
        assert (['\\', s[0]] + rest)[2..] == rest;
        ['\\', s[0]] + rest
      else
        assert ([s[0]] + rest)[1..] == rest;
        [s[0]] + rest
  }

  /**
   * The string a literal pattern stands for: a backslash stands for the character after
   * it, and every other character for itself.
   */
  function Unescape(s: string): string {
    if |s| >= 2 && s[0] == '\\' then [s[1]] + Unescape(s[2..])
    else if s == [] then []
    else [s[0]] + Unescape(s[1..])
  }

  /** Two literal patterns that stand for the same string are the same pattern. */
  lemma {:induction false} LiteralUnique(r1: string, r2: string)
    requires ReadsLiterally(r1) && ReadsLiterally(r2) && Unescape(r1) == Unescape(r2)
    ensures r1 == r2
    decreases |r1|
  {
    if r1 == [] {
      assert Unescape(r2) == [];
    } else if r2 == [] {
      // A non-empty pattern stands for a non-empty string.
      assert false;
    } else if r1[0] == '\\' && r2[0] == '\\' {
      assert r1[1] == Unescape(r1)[0] == Unescape(r2)[0] == r2[1];
      assert Unescape(r1[2..]) == Unescape(r1)[1..] == Unescape(r2)[1..] == Unescape(r2[2..]);
      LiteralUnique(r1[2..], r2[2..]);
      assert r1 == r1[..2] + r1[2..] && r2 == r2[..2] + r2[2..];
    } else if r1[0] != '\\' && r2[0] != '\\' {
      assert r1[0] == Unescape(r1)[0] == Unescape(r2)[0] == r2[0];
      assert Unescape(r1[1..]) == Unescape(r1)[1..] == Unescape(r2)[1..] == Unescape(r2[1..]);
      LiteralUnique(r1[1..], r2[1..]);
      assert r1 == [r1[0]] + r1[1..] && r2 == [r2[0]] + r2[1..];
    } else {
      // One pattern starts with an escaped special character, the other with a plain one.
      assert false;
    }
  }

  /**
   * The escaped term is the only literal pattern for the term: any pattern a regular
   * expression reads as exactly `s` is `EscapeRegex(s)`.
   */
  lemma EscapeIsTheLiteral(s: string, r: string)
    requires ReadsLiterally(r) && Unescape(r) == s
    ensures r == EscapeRegex(s)
  {
    UnescapeEscape(s);
    LiteralUnique(r, EscapeRegex(s));
  }

  /** The escaped pattern denotes the term itself. */
  lemma {:induction false} UnescapeEscape(s: string)
    ensures Unescape(EscapeRegex(s)) == s
  {
    if s != [] {
      UnescapeEscape(s[1..]);
      var rest := EscapeRegex(s[1..]);
      if IsRegexSpecial(s[0]) {
        assert (['\\', s[0]] + rest)[2..] == rest;
      } else {
        assert ([s[0]] + rest)[1..] == rest;
      }
      assert [s[0]] + s[1..] == s;
    }
  }

  /** The markup that wraps each occurrence. */
  const Open: string := "<span class=\"search-highlight\">"
  const Close: string := "</span>"

  /** `term` occurs at the start of `s`, comparing ASCII letters without case. */
  predicate MatchesHere(s: string, term: string) {
    |term| <= |s| && Lower(s[..|term|]) == Lower(term)
  }

  /** `term` occurs somewhere in `s`, ignoring case. */
  predicate OccursIgnoringCase(s: string, term: string) {
    exists i :: 0 <= i <= |s| && MatchesHere(s[i..], term)
  }

  /** The global replacement: each leftmost occurrence is wrapped, and the scan resumes after it. */
  function Marked(s: string, term: string): (r: string)
    requires term != []
    ensures |r| >= |s|
    decreases |s|
  {
    if s == [] then []
    else if MatchesHere(s, term) then Open + s[..|term|] + Close + Marked(s[|term|..], term)
    else [s[0]] + Marked(s[1..], term)
  }

  /** A piece of the scanned text: a character kept as it is, or an occurrence of the term. */
  datatype Piece = Kept(c: char) | Hit(text: string)

  /** The scan behind the global replacement, as the pieces it cuts the text into. */
  function Scan(s: string, term: string): (ps: seq<Piece>)
    requires term != []
    ensures |ps| <= |s|
    decreases |s|
  {
    if s == [] then []
    else if MatchesHere(s, term) then [Hit(s[..|term|])] + Scan(s[|term|..], term)
    else [Kept(s[0])] + Scan(s[1..], term)
  }

  /** The text the pieces cover. */
  function Plain(ps: seq<Piece>): string {
    if ps == [] then [] else PlainPiece(ps[0]) + Plain(ps[1..])
  }

  function PlainPiece(p: Piece): string {
    match p
    case Kept(c) => [c]
    case Hit(t) => t
  }

  /** The markup the pieces print as: each occurrence inside a highlight span. */
  function Show(ps: seq<Piece>): string {
    if ps == [] then [] else ShowPiece(ps[0]) + Show(ps[1..])
  }

  function ShowPiece(p: Piece): string {
    match p
    case Kept(c) => [c]
    case Hit(t) => Open + t + Close
  }

  /** The pieces of the scan cover the text, in order and in its original spelling. */
  lemma {:induction false} PlainScan(s: string, term: string)
    requires term != []
    ensures Plain(Scan(s, term)) == s
    decreases |s|
  {
    if s != [] {
      var ps := Scan(s, term);
      if MatchesHere(s, term) {
        PlainScan(s[|term|..], term);
        assert ps[1..] == Scan(s[|term|..], term);
        assert s[..|term|] + s[|term|..] == s;
      } else {
        PlainScan(s[1..], term);
        assert ps[1..] == Scan(s[1..], term);
        assert [s[0]] + s[1..] == s;
      }
    }
  }

  /** The replacement prints the pieces of the scan. */
  lemma {:induction false} MarkedShowsScan(s: string, term: string)
    requires term != []
    ensures Marked(s, term) == Show(Scan(s, term))
    decreases |s|
  {
    if s != [] {
      var ps := Scan(s, term);
      if MatchesHere(s, term) {
        MarkedShowsScan(s[|term|..], term);
        assert ps[1..] == Scan(s[|term|..], term);
      } else {
        MarkedShowsScan(s[1..], term);
        assert ps[1..] == Scan(s[1..], term);
      }
    }
  }

  lemma {:induction false} PlainAppend(a: seq<Piece>, b: seq<Piece>)
    ensures Plain(a + b) == Plain(a) + Plain(b)
  {
    if a == [] {
      assert a + b == b;
    } else {
      var t := a[1..] + b;
      assert a + b == [a[0]] + t;
      PlainAppend(a[1..], b);
      PlainCons(a[0], t);
      PlainCons(a[0], a[1..]);
      assert [a[0]] + a[1..] == a;
    }
  }

  lemma PlainCons(p: Piece, t: seq<Piece>)
    ensures Plain([p] + t) == PlainPiece(p) + Plain(t)
  {
    assert ([p] + t)[1..] == t;
  }

  /** The first piece of a scan covers `d` characters, and the scan goes on from there. */
  lemma ScanStep(s: string, term: string) returns (d: nat)
    requires term != [] && s != []
    ensures 0 < d <= |s| && |PlainPiece(Scan(s, term)[0])| == d
    ensures Scan(s, term) == [Scan(s, term)[0]] + Scan(s[d..], term)
  {
    d := if MatchesHere(s, term) then |term| else 1;
  }

  /** The offset of piece `k + 1` behind a first piece `p`. */
  lemma OffsetCons(p: Piece, qs: seq<Piece>, k: nat)
    requires k <= |qs|
    ensures |Plain(([p] + qs)[..k + 1])| == |PlainPiece(p)| + |Plain(qs[..k])|
  {
    assert ([p] + qs)[..k + 1] == [p] + qs[..k];
    PlainAppend([p], qs[..k]);
    assert Plain([p]) == PlainPiece(p) + Plain([p][1..]);
  }

  /**
   * Piece `p` stands at offset `o` of `s`: an occurrence piece is an occurrence of the
   * term there, in the text's spelling, and a kept character is the text's character
   * there, where no occurrence starts.
   */
  predicate PieceAt(p: Piece, s: string, o: nat, term: string) {
    && o < |s|
    && (p.Hit? ==> MatchesHere(s[o..], term) && p.text == s[o..o + |term|])
    && (p.Kept? ==> p.c == s[o] && !MatchesHere(s[o..], term))
  }

  /** Each piece of the scan stands at its offset, the length of the text before it. */
  lemma {:induction false} ScanPiece(s: string, term: string, k: nat, o: nat)
    requires term != [] && k < |Scan(s, term)| && o == |Plain(Scan(s, term)[..k])|
    ensures PieceAt(Scan(s, term)[k], s, o, term)
    decreases |s|
  {
    var ps := Scan(s, term);
    if k == 0 {
      assert ps[..0] == [];
      ScanFirst(s, term);
    } else {
      var d := ScanOffset(s, term, k);
      ScanPiece(s[d..], term, k - 1, o - d);
      PieceShift(Scan(s[d..], term)[k - 1], s, d, o, term);
    }
  }

  /** Piece `k > 0` of the scan is piece `k - 1` of the scan after the first piece's `d` characters. */
  lemma ScanOffset(s: string, term: string, k: nat) returns (d: nat)
    requires term != [] && 0 < k < |Scan(s, term)|
    ensures 0 < d <= |s| && k - 1 < |Scan(s[d..], term)| && Scan(s, term)[k] == Scan(s[d..], term)[k - 1]
    ensures |Plain(Scan(s, term)[..k])| == d + |Plain(Scan(s[d..], term)[..k - 1])|
  {
    var ps := Scan(s, term);
    d := ScanStep(s, term);
    var qs := Scan(s[d..], term);
    OffsetCons(ps[0], qs, k - 1);
  }

  lemma ScanFirst(s: string, term: string)
    requires term != [] && s != []
    ensures PieceAt(Scan(s, term)[0], s, 0, term)
  {
    assert s[0..] == s;
    if MatchesHere(s, term) {
      assert s[0..0 + |term|] == s[..|term|];
    }
  }

  /** A piece that stands in a tail of `s` stands in `s`, shifted by where the tail starts. */
  lemma PieceShift(p: Piece, s: string, d: nat, o: nat, term: string)
    requires d <= |s| && d <= o && PieceAt(p, s[d..], o - d, term)
    ensures PieceAt(p, s, o, term)
  {
    assert s[d..][o - d..] == s[o..];
    if p.Hit? {
      assert s[d..][o - d..o - d + |term|] == s[o..o + |term|];
    }
  }

  /**
   * `highlightText`: an empty term leaves the text alone; otherwise the result prints the
   * pieces of a scan that covers the text (`PlainScan`, `ScanPiece`).
   */
  function HighlightText(text: string, term: string): (r: string)
    ensures term == [] ==> r == text
    ensures term != [] ==> r == Show(Scan(text, term)) && Plain(Scan(text, term)) == text
    ensures |r| >= |text|
  {
    if term == [] then text
    else
      MarkedShowsScan(text, term);
      PlainScan(text, term);
      Marked(text, term)
  }

  /** A text without an occurrence is returned as it is; one with an occurrence grows. */
  lemma {:induction false} MarkedUnchanged(s: string, term: string)
    requires term != []
    ensures Marked(s, term) == s <==> !OccursIgnoringCase(s, term)
  {
    if s == [] {
      assert !MatchesHere(s[0..], term);
    } else if MatchesHere(s, term) {
      assert MatchesHere(s[0..], term);
    } else {
      MarkedUnchanged(s[1..], term);
      ShiftOccurrence(s, term);
      assert [s[0]] + s[1..] == s;
    }
  }

  /** Without an occurrence at the start, `s` and its tail have the same occurrences. */
  lemma ShiftOccurrence(s: string, term: string)
    requires s != [] && !MatchesHere(s, term)
    ensures OccursIgnoringCase(s, term) <==> OccursIgnoringCase(s[1..], term)
  {
    if OccursIgnoringCase(s, term) {
      var i :| 0 <= i <= |s| && MatchesHere(s[i..], term);
      assert i != 0;
      assert s[1..][i - 1..] == s[i..];
    }
    if OccursIgnoringCase(s[1..], term) {
      var i :| 0 <= i <= |s[1..]| && MatchesHere(s[1..][i..], term);
      assert s[1..][i..] == s[i + 1..];
    }
  }

  /** `highlightText` changes the text exactly when the term is non-empty and occurs in it. */
  lemma HighlightChanges(text: string, term: string)
    ensures HighlightText(text, term) != text <==> term != [] && OccursIgnoringCase(text, term)
  {
    if term != [] {
      MarkedUnchanged(text, term);
    }
  }
}
