/**
 * `extractCoordsFromUrl` (script.js:895-920): nine fixed regular expressions for a
 * latitude/longitude pair in a map URL, each hand-coded here as a matcher at one start
 * position, with JavaScript's leftmost-match rule on top, tried in list order; the first
 * one that matches gives the pair, printed as `lat, lng` with six decimals each.
 */
module Extraction {
  import opened Wrappers
  import opened Strings
  import opened Decimals
  import opened Seqs

  /** The nine patterns of script.js:898-908, in the order the script tries them. */
  datatype Pattern =
    | AtPair       // @lat,lng
    | QueryQ       // q=lat,lng
    | Bang3d4d     // !3dlat!4dlng
    | LlPair       // ll=lat,lng
    | QueryPair    // query=lat,lng
    | AtPairZoom   // @lat,lng,zoom z
    | SlashAtPair  // /@lat,lng
    | PlaceAtPair  // place/ ... @lat,lng
    | Data3d4d     // data=!3dlat!4dlng

  const Patterns: seq<Pattern> :=
    [AtPair, QueryQ, Bang3d4d, LlPair, QueryPair, AtPairZoom, SlashAtPair, PlaceAtPair, Data3d4d]

  /** The literal text around the numerals of patterns 3 and 9. */
  const BangOpen: string := "!3d"
  const BangSep: string := "!4d"
  const DataOpen: string := "data=!3d"

  /** The two captured numerals. */
  datatype Coordinate = Coordinate(lat: Decimal, lng: Decimal)

  predicate ValidCoordinate(c: Coordinate) {
    WellFormed(c.lat) && WellFormed(c.lng)
  }

  // ---------------------------------------------------------------------------
  // Matchers at one start position

  /**
   * `open(-?\d+\.\d+)sep(-?\d+\.\d+)` at position `i`, with the position after the match.
   * Each `-?\d+\.\d+` is followed by a literal that is not a digit, or by nothing that
   * the pattern constrains, so the backtracking engine takes the greedy numeral.
   */
  function PairAt(s: string, i: nat, open: string, sep: string): (r: Option<(Coordinate, nat)>)
    requires i <= |s|
    ensures r.Some? ==> ContainsAt(s, open, i) && ValidCoordinate(r.value.0)
    ensures r.Some? ==> i + |open| < r.value.1 <= |s|
  {
    if ContainsAt(s, open, i) then PairFrom(s, i + |open|, sep) else None
  }

  /** `(-?\d+\.\d+)sep(-?\d+\.\d+)` at position `j`; the match ends before a non-digit. */
  function PairFrom(s: string, j: nat, sep: string): (r: Option<(Coordinate, nat)>)
    requires j <= |s|
    ensures r.Some? ==> ValidCoordinate(r.value.0) && j < r.value.1 <= |s|
    ensures r.Some? ==> r.value.1 == |s| || !IsDigit(s[r.value.1])
  {
    match NumberAt(s, j)
    case None => None
    case Some((lat, e1)) =>
      if !ContainsAt(s, sep, e1) then None
      else match NumberAt(s, e1 + |sep|)
        case None => None
        case Some((lng, e2)) => Some((Coordinate(lat, lng), e2))
  }

  /** The text a pair match covers spells the captured pair. */
  lemma PairFromSpelled(s: string, j: nat, sep: string)
    requires j <= |s| && PairFrom(s, j, sep).Some?
    ensures s[j..PairFrom(s, j, sep).value.1] == Spelled(PairFrom(s, j, sep).value.0, sep)
  {
    var c, e2 := PairFrom(s, j, sep).value.0, PairFrom(s, j, sep).value.1;
    var e1 := PairFromParts(s, j, sep);
    NumberAtSpelled(s, j);
    NumberAtSpelled(s, e1 + |sep|);
    SideBySide(s, j, e1, e2, Text(c.lat), sep, Text(c.lng));
  }

  /** The numeral matches and the separator a pair match is made of. */
  lemma PairFromParts(s: string, j: nat, sep: string) returns (e1: nat)
    requires j <= |s| && PairFrom(s, j, sep).Some?
    ensures var (c, e2) := PairFrom(s, j, sep).value;
      && NumberAt(s, j) == Some((c.lat, e1)) && ContainsAt(s, sep, e1)
      && NumberAt(s, e1 + |sep|) == Some((c.lng, e2))
  {
    e1 := NumberAt(s, j).value.1;
  }

  /** The text of a pair with separator `sep`. */
  function Spelled(c: Coordinate, sep: string): string {
    Text(c.lat) + sep + Text(c.lng)
  }

  predicate IsZoomChar(c: char) {
    IsDigit(c) || c == '.'
  }

  /** The length of the run of `[\d.]` at `i`. */
  function ZoomRun(s: string, i: nat): (n: nat)
    requires i <= |s|
    ensures i + n <= |s|
    ensures forall k :: i <= k < i + n ==> IsZoomChar(s[k])
    ensures i + n == |s| || !IsZoomChar(s[i + n])
    decreases |s| - i
  {
    if i < |s| && IsZoomChar(s[i]) then 1 + ZoomRun(s, i + 1) else 0
  }

  /** `,[\d.]+z` at `i`: the greedy run of `[\d.]` is non-empty and followed by `z`. */
  predicate ZoomAt(s: string, i: nat)
    requires i <= |s|
  {
    && i < |s| && s[i] == ','
    && var n := ZoomRun(s, i + 1);
    n > 0 && i + 1 + n < |s| && s[i + 1 + n] == 'z'
  }

  /** The characters JavaScript's `.` does not match. */
  predicate IsLineTerminator(c: char) {
    c == '\n' || c == '\r' || c == '\U{2028}' || c == '\U{2029}'
  }

  /** The first line terminator at or after `p`, or the end of the text. */
  function LineEnd(s: string, p: nat): (q: nat)
    requires p <= |s|
    ensures p <= q <= |s| && (q == |s| || IsLineTerminator(s[q]))
    ensures forall k :: p <= k < q ==> !IsLineTerminator(s[k])
    decreases |s| - p
  {
    if p == |s| || IsLineTerminator(s[p]) then p else LineEnd(s, p + 1)
  }

  /**
   * The captures of the last `@lat,lng` match that starts in `[lo, hi)`: a greedy `.*`
   * backtracks from its longest run, so the start positions are tried from `hi - 1` down.
   */
  function LastPair(s: string, lo: nat, hi: nat): (r: Option<Coordinate>)
    requires lo <= hi <= |s|
    ensures r.Some? ==> ValidCoordinate(r.value)
    decreases hi - lo
  {
    if lo == hi then None
    else
      var m := PairAt(s, hi - 1, "@", ",");
      if m.Some? then Some(m.value.0) else LastPair(s, lo, hi - 1)
  }

  /**
   * `place\/.*@(-?\d+\.\d+),(-?\d+\.\d+)` at `i`: the greedy `.*` runs to the end of the
   * line and backtracks, so the capture is the last `@lat,lng` on the rest of the line.
   */
  function PlaceAt(s: string, i: nat): (r: Option<Coordinate>)
    requires i <= |s|
    ensures r.Some? ==> ContainsAt(s, "place/", i) && ValidCoordinate(r.value)
  {
    if !ContainsAt(s, "place/", i) then None
    else LastPair(s, i + 6, LineEnd(s, i + 6))
  }

  function Captured(m: Option<(Coordinate, nat)>): Option<Coordinate> {
    if m.Some? then Some(m.value.0) else None
  }

  /** The literal in front of the first numeral of pattern `p`. */
  function Opener(p: Pattern): string {
    match p
    case AtPair => "@"
    case QueryQ => "q="
    case Bang3d4d => BangOpen
    case LlPair => "ll="
    case QueryPair => "query="
    case AtPairZoom => "@"
    case SlashAtPair => "/@"
    case PlaceAtPair => "@"
    case Data3d4d => DataOpen
  }

  /** The literal between the two numerals of pattern `p`. */
  function Separator(p: Pattern): string {
    if p == Bang3d4d || p == Data3d4d then BangSep else ","
  }

  /** The captures of pattern `p` for a match starting at `i`. */
  function MatchAt(p: Pattern, s: string, i: nat): (r: Option<Coordinate>)
    requires i <= |s|
    ensures r.Some? ==> ValidCoordinate(r.value)
  {
    match p
    case AtPair => Captured(PairAt(s, i, "@", ","))
    case QueryQ => Captured(PairAt(s, i, "q=", ","))
    case Bang3d4d => Captured(PairAt(s, i, BangOpen, BangSep))
    case LlPair => Captured(PairAt(s, i, "ll=", ","))
    case QueryPair => Captured(PairAt(s, i, "query=", ","))
    case AtPairZoom =>
      var m := PairAt(s, i, "@", ",");
      if m.Some? && ZoomAt(s, m.value.1) then Some(m.value.0) else None
    case SlashAtPair => Captured(PairAt(s, i, "/@", ","))
    case PlaceAtPair => PlaceAt(s, i)
    case Data3d4d => Captured(PairAt(s, i, DataOpen, BangSep))
  }

  /**
   * What a pattern captures is in the text: two well-formed numerals at or after the
   * start of the match, with the pattern's separator between them.
   */
  lemma MatchAtSpelled(p: Pattern, s: string, i: nat)
    requires i <= |s| && MatchAt(p, s, i).Some?
    ensures OccursFrom(s, Spelled(MatchAt(p, s, i).value, Separator(p)), i)
  {
    match p
    case AtPair => OpenedSpelled(s, i, "@", ",");
    case QueryQ => OpenedSpelled(s, i, "q=", ",");
    case Bang3d4d => OpenedSpelled(s, i, BangOpen, BangSep);
    case LlPair => OpenedSpelled(s, i, "ll=", ",");
    case QueryPair => OpenedSpelled(s, i, "query=", ",");
    case AtPairZoom => OpenedSpelled(s, i, "@", ",");
    case SlashAtPair => OpenedSpelled(s, i, "/@", ",");
    case PlaceAtPair =>
      PlaceSpelled(s, i);
      OccursLater(s, Spelled(PlaceAt(s, i).value, ","), i, i + 6);
    case Data3d4d => OpenedSpelled(s, i, DataOpen, BangSep);
  }

  /** `MatchAtSpelled` for a pattern made of an opening literal and a pair. */
  lemma OpenedSpelled(s: string, i: nat, open: string, sep: string)
    requires i <= |s| && PairAt(s, i, open, sep).Some?
    ensures OccursFrom(s, Spelled(PairAt(s, i, open, sep).value.0, sep), i)
  {
    PairAtSpelled(s, i, open, sep);
    OccursAt(s, Spelled(PairAt(s, i, open, sep).value.0, sep), i, i + |open|);
  }

  /**
   * `LastPair` finds the last start in `[lo, hi)` where `@lat,lng` matches, and captures
   * what that match captures.
   */
  lemma {:induction false} LastPairFound(s: string, lo: nat, hi: nat) returns (j: nat)
    requires lo <= hi <= |s| && LastPair(s, lo, hi).Some?
    ensures lo <= j < hi && PairAt(s, j, "@", ",").Some?
    ensures LastPair(s, lo, hi) == Some(PairAt(s, j, "@", ",").value.0)
    ensures LastPair(s, j + 1, hi).None?
    decreases hi - lo
  {
    if PairAt(s, hi - 1, "@", ",").Some? {
      j := hi - 1;
    } else {
      j := LastPairFound(s, lo, hi - 1);
    }
  }

  /** `LastPair` finds nothing exactly when `@lat,lng` matches at no start in `[lo, hi)`. */
  lemma {:induction false} LastPairNone(s: string, lo: nat, hi: nat)
    requires lo <= hi <= |s|
    ensures LastPair(s, lo, hi).None? <==> forall k :: lo <= k < hi ==> PairAt(s, k, "@", ",").None?
    decreases hi - lo
  {
    if lo < hi && PairAt(s, hi - 1, "@", ",").None? {
      LastPairNone(s, lo, hi - 1);
    }
  }

  /**
   * A match of `place/...@lat,lng` at `i` captures an `@lat,lng` match that starts on the
   * same line after `place/`, and no later start on that line matches (`LastPairNone`).
   */
  lemma PlaceFound(s: string, i: nat) returns (j: nat)
    requires i <= |s| && PlaceAt(s, i).Some?
    ensures i + 6 <= j < LineEnd(s, i + 6) && PairAt(s, j, "@", ",").Some?
    ensures PlaceAt(s, i) == Some(PairAt(s, j, "@", ",").value.0)
    ensures LastPair(s, j + 1, LineEnd(s, i + 6)).None?
  {
    j := LastPairFound(s, i + 6, LineEnd(s, i + 6));
  }

  /** The pair `place/...@lat,lng` captures is spelled out after `place/`. */
  lemma PlaceSpelled(s: string, i: nat)
    requires i <= |s| && PlaceAt(s, i).Some?
    ensures OccursFrom(s, Spelled(PlaceAt(s, i).value, ","), i + 6)
  {
    var j := PlaceFound(s, i);
    PairAtSpelled(s, j, "@", ",");
    OccursAt(s, Spelled(PlaceAt(s, i).value, ","), i + 6, j + 1);
  }

  /** The text a match of `open` and a pair covers spells the captured pair after `open`. */
  lemma PairAtSpelled(s: string, i: nat, open: string, sep: string)
    requires i <= |s| && PairAt(s, i, open, sep).Some?
    ensures ContainsAt(s, Spelled(PairAt(s, i, open, sep).value.0, sep), i + |open|)
  {
    PairAtOpened(s, i, open, sep);
    PairFromSpelled(s, i + |open|, sep);
  }

  // ---------------------------------------------------------------------------
  // Leftmost match and first pattern

  /** The captures of `p` at each start position of the text, from left to right. */
  function Starts(p: Pattern, s: string): (ms: seq<Option<Coordinate>>)
    ensures |ms| == |s| + 1
  {
    seq(|s| + 1, i requires 0 <= i <= |s| => MatchAt(p, s, i))
  }

  /** `url.match(p)`: the captures of the leftmost match, or `null`. */
  function Match(p: Pattern, s: string): (r: Option<Coordinate>)
    ensures r.Some? ==> ValidCoordinate(r.value)
  {
    var ms := Starts(p, s);
    var r := FirstSome(ms);
    if r.Some? then
      var i :| FirstSomeAt(ms, i) && r == ms[i];
      assert ms[i] == MatchAt(p, s, i);
      r
    else r
  }

  /** A pattern matches the text exactly when it matches at some start. */
  lemma MatchSomewhere(p: Pattern, s: string)
    ensures Match(p, s).Some? <==> exists i :: 0 <= i <= |s| && MatchAt(p, s, i).Some?
  {
    var ms := Starts(p, s);
    assert forall i :: 0 <= i <= |s| ==> ms[i] == MatchAt(p, s, i);
  }

  /** The captures of a match are those of its leftmost start. */
  lemma MatchIsLeftmost(p: Pattern, s: string, i: nat)
    requires i <= |s| && MatchAt(p, s, i).Some?
    requires forall j :: 0 <= j < i ==> MatchAt(p, s, j).None?
    ensures Match(p, s) == MatchAt(p, s, i)
  {
    var ms := Starts(p, s);
    assert forall j :: 0 <= j <= |s| ==> ms[j] == MatchAt(p, s, j);
    assert FirstSomeAt(ms, i);
    FirstSomeAtUnique(ms, i);
  }

  /** The result of `url.match` for each pattern of `ps`, in order. */
  function Matches(ps: seq<Pattern>, s: string): (ms: seq<Option<Coordinate>>)
    ensures |ms| == |ps|
  {
    seq(|ps|, k requires 0 <= k < |ps| => Match(ps[k], s))
  }

  /** `ps[k]` matches and no earlier pattern of `ps` does. */
  predicate FirstToMatch(ps: seq<Pattern>, k: nat, s: string)
    requires k < |ps|
  {
    Match(ps[k], s).Some? && forall j :: 0 <= j < k ==> Match(ps[j], s).None?
  }

  /** The captures of the first pattern of `ps` that matches the text. */
  function FirstMatch(ps: seq<Pattern>, s: string): (r: Option<Coordinate>)
    ensures r.None? <==> forall k :: 0 <= k < |ps| ==> Match(ps[k], s).None?
    ensures r.Some? ==> exists k :: 0 <= k < |ps| && FirstToMatch(ps, k, s) && r == Match(ps[k], s)
  {
    var ms := Matches(ps, s);
    var r := FirstSome(ms);
    assert forall k :: 0 <= k < |ps| ==> ms[k] == Match(ps[k], s);
    if r.Some? then
      var k :| FirstSomeAt(ms, k) && r == ms[k];
      assert FirstToMatch(ps, k, s);
      r
    else r
  }

  /** One more pattern tried without a match. */
  lemma NoneYet(ps: seq<Pattern>, s: string, i: nat)
    requires i < |ps| && Match(ps[i], s).None?
    requires forall k :: 0 <= k < i ==> Match(ps[k], s).None?
    ensures forall k :: 0 <= k < i + 1 ==> Match(ps[k], s).None?
  {
  }

  /** The first pattern to match is the one `FirstMatch` reports. */
  lemma FirstToMatchUnique(ps: seq<Pattern>, k: nat, s: string)
    requires k < |ps| && FirstToMatch(ps, k, s)
    ensures FirstMatch(ps, s) == Match(ps[k], s)
  {
    var ms := Matches(ps, s);
    assert forall j :: 0 <= j < |ps| ==> ms[j] == Match(ps[j], s);
    assert FirstSomeAt(ms, k);
    FirstSomeAtUnique(ms, k);
  }

  /** `${lat}, ${lng}` with `toFixed(6)` applied to each captured numeral. */
  function Render(c: Coordinate): (t: string)
    requires ValidCoordinate(c)
    ensures IsRendered(t)
  {
    var lat, lng := ToFixed6(c.lat), ToFixed6(c.lng);
    ConcatThree(lat, ", ", lng);
    lat + ", " + lng
  }

  /** `L, G` where `L` and `G` are each `-?\d+\.\d{6}`. */
  predicate IsRendered(t: string) {
    exists n :: 0 <= n <= |t| - 2 && IsFixed6(t[..n]) && t[n..n + 2] == ", " && IsFixed6(t[n + 2..])
  }

  /** The value `extractCoordsFromUrl` returns. */
  function Extract(url: string): (r: Option<string>)
    ensures r.Some? ==> IsRendered(r.value)
  {
    var m := FirstMatch(Patterns, url);
    if m.Some? then Some(Render(m.value)) else None
  }

  /**
   * The scan of script.js:910-919: the first pattern, in list order, that matches
   * anywhere in the text gives the result; `None` exactly when no pattern matches.
   */
  method ExtractCoordsFromUrl(url: string) returns (r: Option<string>)
    ensures r == Extract(url)
    ensures r.None? <==> forall k :: 0 <= k < |Patterns| ==> Match(Patterns[k], url).None?
    ensures r.Some? ==> exists k :: 0 <= k < |Patterns| && FirstToMatch(Patterns, k, url) &&
                                   r.value == Render(Match(Patterns[k], url).value)
    ensures r.Some? ==> IsRendered(r.value)
  {
    var i := 0;
    while i < |Patterns|
      invariant 0 <= i <= |Patterns|
      invariant forall k :: 0 <= k < i ==> Match(Patterns[k], url).None?
    {
      var m := Match(Patterns[i], url);
      if m.Some? {
        assert FirstToMatch(Patterns, i, url);
        FirstToMatchUnique(Patterns, i, url);
        return Some(Render(m.value));
      }
      NoneYet(Patterns, url, i);
      i := i + 1;
    }
    return None;
  }

  // ---------------------------------------------------------------------------
  // Reading a pair back

  /**
   * The text of pair `c` with separator `sep` stands at `j` and ends at `e`, before a
   * non-digit or the end of the text; the separator does not start with a digit.
   */
  predicate PairTextAt(s: string, j: nat, c: Coordinate, sep: string, e: nat) {
    && ValidCoordinate(c) && ContainsAt(s, Spelled(c, sep), j)
    && |sep| > 0 && !IsDigit(sep[0])
    && e == j + |Spelled(c, sep)| && (e == |s| || !IsDigit(s[e]))
  }

  /**
   * Where the opening literal stands at `i` and the text of a pair follows it, the
   * matcher captures exactly that pair and ends where its text does.
   */
  lemma PairAtReads(s: string, i: nat, open: string, sep: string, c: Coordinate, e: nat)
    requires ContainsAt(s, open, i) && PairTextAt(s, i + |open|, c, sep, e)
    ensures PairAt(s, i, open, sep) == Some((c, e))
  {
    PairFromReads(s, i + |open|, c, sep, e);
    PairAtFrom(s, i, open, sep, Some((c, e)));
  }

  lemma PairAtFrom(s: string, i: nat, open: string, sep: string, r: Option<(Coordinate, nat)>)
    requires i <= |s| && ContainsAt(s, open, i) && PairFrom(s, i + |open|, sep) == r
    ensures PairAt(s, i, open, sep) == r
  {
  }

  /** `PairAtReads` without the opening literal. */
  lemma PairFromReads(s: string, j: nat, c: Coordinate, sep: string, e: nat)
    requires PairTextAt(s, j, c, sep, e)
    ensures PairFrom(s, j, sep) == Some((c, e))
  {
    var lat, lng := Text(c.lat), Text(c.lng);
    var e1 := j + |lat|;
    SpelledParts(s, j, c, sep);
    assert e == e1 + |sep| + |lng|;
    CharOfSlice(s, e1, sep, 0);
    NumberAtReads(s, j, c.lat, e1);
    NumberAtReads(s, e1 + |sep|, c.lng, e);
    PairFromIs(s, j, sep, c.lat, e1, c.lng, e);
  }

  /** `PairFrom` given what its two numeral matches and its separator test give. */
  lemma PairFromIs(s: string, j: nat, sep: string, lat: Decimal, e1: nat, lng: Decimal, e2: nat)
    requires j <= |s| && e1 + |sep| <= |s|
    requires NumberAt(s, j) == Some((lat, e1)) && ContainsAt(s, sep, e1)
    requires NumberAt(s, e1 + |sep|) == Some((lng, e2))
    ensures PairFrom(s, j, sep) == Some((Coordinate(lat, lng), e2))
  {
    assert NumberAt(s, j).value.1 + |sep| == e1 + |sep|;
  }

  /** The pieces of an occurrence of a pair's text. */
  lemma SpelledParts(s: string, j: nat, c: Coordinate, sep: string)
    requires ContainsAt(s, Spelled(c, sep), j)
    ensures var lat, lng := Text(c.lat), Text(c.lng);
      && |Spelled(c, sep)| == |lat| + |sep| + |lng|
      && ContainsAt(s, lat, j) && ContainsAt(s, sep, j + |lat|)
      && ContainsAt(s, lng, j + |lat| + |sep|)
  {
    var t := Spelled(c, sep);
    var lat, lng := Text(c.lat), Text(c.lng);
    ConcatThree(lat, sep, lng);
    SliceOfSlice(s, j, t, 0, |lat|);
    SliceOfSlice(s, j, t, |lat|, |lat| + |sep|);
    SliceOfSlice(s, j, t, |lat| + |sep|, |t|);
  }

  /**
   * Each pattern made of an opening literal and a pair reads the pair whose text follows
   * the literal; pattern 6 also needs its `,zoomz` tail right after the pair.
   */
  lemma MatchAtReads(p: Pattern, s: string, i: nat, c: Coordinate, e: nat)
    requires p != PlaceAtPair
    requires ContainsAt(s, Opener(p), i) && PairTextAt(s, i + |Opener(p)|, c, Separator(p), e)
    requires p == AtPairZoom ==> ZoomAt(s, e)
    ensures MatchAt(p, s, i) == Some(c)
  {
    match p
    case AtPair => PairAtReads(s, i, "@", ",", c, e);
    case QueryQ => PairAtReads(s, i, "q=", ",", c, e);
    case Bang3d4d => PairAtReads(s, i, BangOpen, BangSep, c, e);
    case LlPair => PairAtReads(s, i, "ll=", ",", c, e);
    case QueryPair => PairAtReads(s, i, "query=", ",", c, e);
    case AtPairZoom => PairAtReads(s, i, "@", ",", c, e);
    case SlashAtPair => PairAtReads(s, i, "/@", ",", c, e);
    case Data3d4d => PairAtReads(s, i, DataOpen, BangSep, c, e);
  }

  /**
   * `place/...@lat,lng` reads the pair after the last `@` on the line that starts a pair
   * match: where `@` and a pair's text stand at `j` and no later start matches.
   */
  lemma PlaceReads(s: string, i: nat, j: nat, c: Coordinate, e: nat)
    requires ContainsAt(s, "place/", i) && i + 6 <= j < LineEnd(s, i + 6)
    requires ContainsAt(s, "@", j) && PairTextAt(s, j + 1, c, ",", e)
    requires LastPair(s, j + 1, LineEnd(s, i + 6)).None?
    ensures MatchAt(PlaceAtPair, s, i) == Some(c)
  {
    PairAtReads(s, j, "@", ",", c, e);
    LastPairIs(s, i + 6, LineEnd(s, i + 6), j);
  }

  /** The last start in `[lo, hi)` where `@lat,lng` matches is what `LastPair` captures. */
  lemma {:induction false} LastPairIs(s: string, lo: nat, hi: nat, j: nat)
    requires lo <= j < hi <= |s| && PairAt(s, j, "@", ",").Some?
    requires LastPair(s, j + 1, hi).None?
    ensures LastPair(s, lo, hi) == Some(PairAt(s, j, "@", ",").value.0)
    decreases hi - lo
  {
    if j < hi - 1 {
      assert PairAt(s, hi - 1, "@", ",").None?;
      LastPairIs(s, lo, hi - 1, j);
    }
  }

  /** No `@lat,lng` match starts where the text has no `@`. */
  lemma NoAtNoPair(s: string, j: nat)
    requires j < |s| && s[j] != '@'
    ensures MatchAt(AtPair, s, j).None?
  {
  }

  /**
   * A URL whose first `@` is followed by the text of a pair and then by a non-digit or
   * the end gives that pair, printed with six decimals.
   */
  lemma ExtractFirstAt(s: string, i: nat, c: Coordinate, e: nat)
    requires ContainsAt(s, "@", i) && PairTextAt(s, i + 1, c, ",", e)
    requires forall j :: 0 <= j < i ==> s[j] != '@'
    ensures Extract(s) == Some(Render(c))
  {
    MatchAtReads(AtPair, s, i, c, e);
    forall j | 0 <= j < i
      ensures MatchAt(AtPair, s, j).None?
    {
      NoAtNoPair(s, j);
    }
    MatchIsLeftmost(AtPair, s, i);
    assert Patterns[0] == AtPair;
    assert FirstToMatch(Patterns, 0, s);
    FirstToMatchUnique(Patterns, 0, s);
  }

  // ---------------------------------------------------------------------------
  // Only the first five patterns decide

  lemma ZoomIsAt(s: string, i: nat)
    requires i <= |s|
    ensures MatchAt(AtPairZoom, s, i).Some? ==> MatchAt(AtPair, s, i).Some?
  {
  }

  /** A match whose opening literal is present is a pair match right after it. */
  lemma PairAtOpened(s: string, i: nat, open: string, sep: string)
    requires i <= |s| && ContainsAt(s, open, i)
    ensures PairAt(s, i, open, sep) == PairFrom(s, i + |open|, sep)
  {
  }

  lemma SlashIsAt(s: string, i: nat)
    requires i <= |s|
    ensures MatchAt(SlashAtPair, s, i).Some? ==>
      i + 1 <= |s| && MatchAt(AtPair, s, i + 1) == MatchAt(SlashAtPair, s, i)
  {
    if PairAt(s, i, "/@", ",").Some? {
      ContainsAtTail(s, "/@", i, 1);
      assert "/@"[1..] == "@";
      PairAtOpened(s, i, "/@", ",");
      PairAtOpened(s, i + 1, "@", ",");
    }
  }

  /** `data=!3d` ends with `!3d`. */
  lemma DataOpenTail()
    ensures |DataOpen| == 8 && DataOpen[5..] == BangOpen
  {
  }

  lemma DataIsBang(s: string, i: nat)
    requires i <= |s|
    ensures MatchAt(Data3d4d, s, i).Some? ==>
      i + 5 <= |s| && MatchAt(Bang3d4d, s, i + 5) == MatchAt(Data3d4d, s, i)
  {
    if PairAt(s, i, DataOpen, BangSep).Some? {
      DataOpenTail();
      ContainsAtTail(s, DataOpen, i, 5);
      PairAtOpened(s, i, DataOpen, BangSep);
      PairAtOpened(s, i + 5, BangOpen, BangSep);
    }
  }

  lemma PlaceIsAt(s: string, i: nat)
    requires i <= |s|
    ensures MatchAt(PlaceAtPair, s, i).Some? ==> exists j :: 0 <= j <= |s| && MatchAt(AtPair, s, j).Some?
  {
    if MatchAt(PlaceAtPair, s, i).Some? {
      var j := PlaceFound(s, i);
      assert MatchAt(AtPair, s, j).Some?;
    }
  }

  /**
   * Pattern 6, 7 and 8 match only text that pattern 1 matches, and pattern 9 only text
   * that pattern 3 matches.
   */
  lemma Subsumed(s: string)
    ensures Match(AtPairZoom, s).Some? ==> Match(AtPair, s).Some?
    ensures Match(SlashAtPair, s).Some? ==> Match(AtPair, s).Some?
    ensures Match(PlaceAtPair, s).Some? ==> Match(AtPair, s).Some?
    ensures Match(Data3d4d, s).Some? ==> Match(Bang3d4d, s).Some?
  {
    MatchSomewhere(AtPair, s);
    MatchSomewhere(Bang3d4d, s);
    if Match(AtPairZoom, s).Some? {
      MatchSomewhere(AtPairZoom, s);
      var i :| 0 <= i <= |s| && MatchAt(AtPairZoom, s, i).Some?;
      ZoomIsAt(s, i);
    }
    if Match(SlashAtPair, s).Some? {
      MatchSomewhere(SlashAtPair, s);
      var i :| 0 <= i <= |s| && MatchAt(SlashAtPair, s, i).Some?;
      SlashIsAt(s, i);
    }
    if Match(PlaceAtPair, s).Some? {
      MatchSomewhere(PlaceAtPair, s);
      var i :| 0 <= i <= |s| && MatchAt(PlaceAtPair, s, i).Some?;
      PlaceIsAt(s, i);
    }
    if Match(Data3d4d, s).Some? {
      MatchSomewhere(Data3d4d, s);
      var i :| 0 <= i <= |s| && MatchAt(Data3d4d, s, i).Some?;
      DataIsBang(s, i);
    }
  }

  lemma MatchesPrefix(ps: seq<Pattern>, n: nat, s: string)
    requires n <= |ps|
    ensures Matches(ps[..n], s) == Matches(ps, s)[..n]
  {
    assert forall k :: 0 <= k < n ==> ps[..n][k] == ps[k];
  }

  /** Which pattern each entry of the scan belongs to. */
  lemma PatternMatches(s: string)
    ensures var ms := Matches(Patterns, s);
      && |ms| == 9
      && ms[0] == Match(AtPair, s) && ms[2] == Match(Bang3d4d, s)
      && ms[5] == Match(AtPairZoom, s) && ms[6] == Match(SlashAtPair, s)
      && ms[7] == Match(PlaceAtPair, s) && ms[8] == Match(Data3d4d, s)
  {
    var ps := Patterns;
    assert ps[0] == AtPair && ps[2] == Bang3d4d && ps[5] == AtPairZoom;
    assert ps[6] == SlashAtPair && ps[7] == PlaceAtPair && ps[8] == Data3d4d;
    MatchesAt(ps, s, 0);
    MatchesAt(ps, s, 2);
    MatchesAt(ps, s, 5);
    MatchesAt(ps, s, 6);
    MatchesAt(ps, s, 7);
    MatchesAt(ps, s, 8);
  }

  lemma MatchesAt(ps: seq<Pattern>, s: string, k: nat)
    requires k < |ps|
    ensures Matches(ps, s)[k] == Match(ps[k], s)
  {
  }

  /** Since patterns 6 to 9 are subsumed by earlier ones, only the first five decide. */
  lemma OnlyFirstFiveDecide(s: string)
    ensures FirstMatch(Patterns, s) == FirstMatch(Patterns[..5], s)
  {
    var ms := Matches(Patterns, s);
    MatchesPrefix(Patterns, 5, s);
    PatternMatches(s);
    if FirstSome(ms[..5]).None? {
      assert ms[..5][0].None? && ms[..5][2].None?;
      Subsumed(s);
    }
    FirstSomePrefix(ms, 5);
  }
}
