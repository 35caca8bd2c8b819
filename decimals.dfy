/**
 * Signed decimal numerals of the form `-?\d+\.\d+`, as the coordinate patterns capture
 * them, and the `parseFloat(x).toFixed(6)` rendering the script applies to them, taken on
 * the exact decimal value: leading integer zeros dropped, the fraction padded to six
 * places or rounded half up at the seventh, and the sign kept unless the value is zero.
 */
module Decimals {
  import opened Wrappers
  import opened Strings

  /** A numeral `-?\d+\.\d+`, kept as its sign and its two digit strings. */
  datatype Decimal = Decimal(negative: bool, whole: string, fraction: string)

  predicate WellFormed(d: Decimal) {
    |d.whole| > 0 && |d.fraction| > 0 && AllDigits(d.whole) && AllDigits(d.fraction)
  }

  /** The source text of a numeral. */
  function Text(d: Decimal): string {
    (if d.negative then "-" else "") + d.whole + "." + d.fraction
  }

  // ---------------------------------------------------------------------------
  // Parsing

  /** The length of the run of digits at `i`: what a greedy `\d+` takes. */
  function DigitRun(s: string, i: nat): (n: nat)
    requires i <= |s|
    ensures i + n <= |s|
    ensures forall k :: i <= k < i + n ==> IsDigit(s[k])
    ensures i + n == |s| || !IsDigit(s[i + n])
    decreases |s| - i
  {
    if i < |s| && IsDigit(s[i]) then 1 + DigitRun(s, i + 1) else 0
  }

  /**
   * The greedy match of `-?\d+\.\d+` at position `i`, with the position just after it.
   * The match ends before a non-digit, so no shorter numeral at `i` can be followed by
   * anything but a digit; `NumberAtSpelled` shows the matched text spells the numeral.
   */
  function NumberAt(s: string, i: nat): (r: Option<(Decimal, nat)>)
    requires i <= |s|
    ensures r.Some? ==> WellFormed(r.value.0) && i < r.value.1 <= |s|
    ensures r.Some? ==> r.value.1 == |s| || !IsDigit(s[r.value.1])
  {
    var sign := if i < |s| && s[i] == '-' then 1 else 0;
    var w := DigitRun(s, i + sign);
    var dot := i + sign + w;
    if w == 0 || dot == |s| || s[dot] != '.' then None
    else
      var f := DigitRun(s, dot + 1);
      if f == 0 then None
      else Some((Decimal(sign == 1, s[i + sign..dot], s[dot + 1..dot + 1 + f]), dot + 1 + f))
  }

  /** The text a match covers is the text of the numeral it captures. */
  lemma NumberAtSpelled(s: string, i: nat)
    requires i <= |s| && NumberAt(s, i).Some?
    ensures s[i..NumberAt(s, i).value.1] == Text(NumberAt(s, i).value.0)
  {
    var sign := if i < |s| && s[i] == '-' then 1 else 0;
    var dot := i + sign + DigitRun(s, i + sign);
    SpelledOut(s, i, sign, dot, NumberAt(s, i).value.1);
  }

  /** The slice a match covers is sign, whole digits, point and fraction digits in a row. */
  lemma SpelledOut(s: string, i: nat, sign: nat, dot: nat, e: nat)
    requires sign <= 1 && i + sign <= dot < e <= |s|
    requires sign == 1 ==> s[i] == '-'
    requires s[dot] == '.'
    ensures s[i..e] == Text(Decimal(sign == 1, s[i + sign..dot], s[dot + 1..e]))
  {
    var minus := if sign == 1 then "-" else "";
    assert s[i..i + sign] == minus;
    assert s[dot..dot + 1] == ".";
    assert s[i..e] == s[i..i + sign] + s[i + sign..dot] + s[dot..dot + 1] + s[dot + 1..e];
  }

  /**
   * The converse: where the text of a numeral stands at `i` and is not followed by a
   * digit, the greedy match at `i` is that numeral, and it ends where the text does (`e`).
   */
  lemma NumberAtReads(s: string, i: nat, d: Decimal, e: nat)
    requires WellFormed(d) && ContainsAt(s, Text(d), i)
    requires e == i + |Text(d)| && (e == |s| || !IsDigit(s[e]))
    ensures NumberAt(s, i) == Some((d, e))
  {
    ReadsLayout(s, i, d);
    NumberAtIs(s, i, d);
  }

  /** Where the runs, the sign and the point of an occurrence of a numeral's text are. */
  lemma ReadsLayout(s: string, i: nat, d: Decimal)
    requires WellFormed(d) && ContainsAt(s, Text(d), i)
    requires var e := i + |Text(d)|; e == |s| || !IsDigit(s[e])
    ensures var sign, w, f := if d.negative then 1 else 0, |d.whole|, |d.fraction|;
      && |Text(d)| == sign + w + 1 + f
      && (s[i] == '-' <==> d.negative)
      && DigitRun(s, i + sign) == w && s[i + sign + w] == '.'
      && DigitRun(s, i + sign + w + 1) == f
      && s[i + sign..i + sign + w] == d.whole
      && s[i + sign + w + 1..i + sign + w + 1 + f] == d.fraction
  {
    var t := Text(d);
    var sign, w, f := if d.negative then 1 else 0, |d.whole|, |d.fraction|;
    TextSlices(d);
    assert |t| == sign + w + 1 + f;
    CharOfSlice(s, i, t, 0);
    CharOfSlice(s, i, t, sign + w);
    DigitsAt(s, i, t, sign, sign + w);
    DigitsAt(s, i, t, sign + w + 1, sign + w + 1 + f);
    DigitRunExactly(s, i + sign, w);
    DigitRunExactly(s, i + sign + w + 1, f);
  }

  /** The greedy parse at `i`, given the runs, the sign and the point of numeral `d` there. */
  lemma NumberAtIs(s: string, i: nat, d: Decimal)
    requires WellFormed(d)
    requires var sign, w, f := if d.negative then 1 else 0, |d.whole|, |d.fraction|;
      && i + sign + w + 1 + f <= |s| && |Text(d)| == sign + w + 1 + f
      && (s[i] == '-' <==> d.negative)
      && DigitRun(s, i + sign) == w && s[i + sign + w] == '.'
      && DigitRun(s, i + sign + w + 1) == f
      && s[i + sign..i + sign + w] == d.whole
      && s[i + sign + w + 1..i + sign + w + 1 + f] == d.fraction
    ensures NumberAt(s, i) == Some((d, i + |Text(d)|))
  {
  }

  /** Where an occurrence has only digits, so has the text it occurs in. */
  lemma DigitsAt(s: string, i: nat, t: string, a: nat, b: nat)
    requires ContainsAt(s, t, i) && a <= b <= |t|
    requires forall k :: a <= k < b ==> IsDigit(t[k])
    ensures forall k :: i + a <= k < i + b ==> IsDigit(s[k])
    ensures s[i + a..i + b] == t[a..b]
  {
    SliceOfSlice(s, i, t, a, b);
    assert forall k :: i + a <= k < i + b ==> s[k] == t[a..b][k - i - a];
  }

  lemma {:induction false} DigitRunAtLeast(s: string, i: nat, n: nat)
    requires i + n <= |s|
    requires forall k :: i <= k < i + n ==> IsDigit(s[k])
    ensures DigitRun(s, i) >= n
    decreases n
  {
    if n > 0 {
      DigitRunAtLeast(s, i + 1, n - 1);
    }
  }

  lemma {:induction false} DigitRunExactly(s: string, i: nat, n: nat)
    requires i + n <= |s|
    requires forall k :: i <= k < i + n ==> IsDigit(s[k])
    requires i + n == |s| || !IsDigit(s[i + n])
    ensures DigitRun(s, i) == n
    decreases n
  {
    if n > 0 {
      DigitRunExactly(s, i + 1, n - 1);
    }
  }

  /** The greedy parse reads the text of a numeral back as that numeral. */
  lemma ParseText(d: Decimal)
    requires WellFormed(d)
    ensures NumberAt(Text(d), 0) == Some((d, |Text(d)|))
  {
    assert Text(d)[0..|Text(d)|] == Text(d);
    NumberAtReads(Text(d), 0, d, |Text(d)|);
  }

  /** Where the sign, the digits and the point of a numeral's text are. */
  lemma TextLayout(d: Decimal)
    ensures var sign := if d.negative then 1 else 0;
      && |Text(d)| == sign + |d.whole| + 1 + |d.fraction|
      && (d.negative ==> Text(d)[0] == '-')
      && (forall k :: 0 <= k < |d.whole| ==> Text(d)[sign + k] == d.whole[k])
      && Text(d)[sign + |d.whole|] == '.'
      && (forall k :: 0 <= k < |d.fraction| ==> Text(d)[sign + |d.whole| + 1 + k] == d.fraction[k])
  {
  }

  lemma SlicesOfFour(a: string, b: string, c: string, e: string)
    ensures var s := a + b + c + e;
      && s[|a|..|a| + |b|] == b
      && s[|a| + |b| + |c|..] == e
  {
    var s := a + b + c + e;
    assert s[|a|..] == b + c + e;
    assert (b + c + e)[..|b|] == b;
    assert s[|a| + |b| + |c|..] == e;
  }

  /** The digit strings of a numeral are slices of its text, and digits only. */
  lemma TextSlices(d: Decimal)
    requires WellFormed(d)
    ensures var sign := if d.negative then 1 else 0;
      var dot := sign + |d.whole|;
      && |Text(d)| == dot + 1 + |d.fraction| && Text(d)[dot] == '.'
      && (Text(d)[0] == '-' <==> d.negative)
      && Text(d)[sign..dot] == d.whole
      && Text(d)[dot + 1..dot + 1 + |d.fraction|] == d.fraction
      && (forall k :: sign <= k < dot ==> IsDigit(Text(d)[k]))
      && (forall k :: dot + 1 <= k < |Text(d)| ==> IsDigit(Text(d)[k]))
  {
    var s := Text(d);
    var sign := if d.negative then 1 else 0;
    var dot := sign + |d.whole|;
    TextLayout(d);
    SlicesOfFour(if d.negative then "-" else "", d.whole, ".", d.fraction);
    assert s[dot + 1..] == d.fraction;
    assert !d.negative ==> s[0] == d.whole[0];
  }

  // ---------------------------------------------------------------------------
  // Digit strings and their values

  function DigitValue(c: char): nat {
    if IsDigit(c) then c as int - '0' as int else 0
  }

  /** The value of a string of decimal digits. */
  function Nat(ds: string): nat {
    if ds == [] then 0 else 10 * Nat(ds[..|ds| - 1]) + DigitValue(ds[|ds| - 1])
  }

  lemma NatAppend(ds: string, c: char)
    ensures Nat(ds + [c]) == 10 * Nat(ds) + DigitValue(c)
  {
    assert (ds + [c])[..|ds|] == ds;
  }

  lemma {:induction false} NatLeadingZero(ds: string)
    ensures Nat("0" + ds) == Nat(ds)
    decreases |ds|
  {
    if ds != [] {
      var init := ds[..|ds| - 1];
      assert "0" + ds == ("0" + init) + [ds[|ds| - 1]];
      NatAppend("0" + init, ds[|ds| - 1]);
      NatLeadingZero(init);
    }
  }

  function Zeros(n: nat): (z: string)
    ensures |z| == n && forall k :: 0 <= k < n ==> z[k] == '0'
  {
    seq(n, _ => '0')
  }

  predicate AllZero(ds: string) {
    forall k :: 0 <= k < |ds| ==> ds[k] == '0'
  }

  function StripLeadingZeros(w: string): (r: string)
    requires |w| > 0
    ensures 0 < |r| <= |w| && r == w[|w| - |r|..]
    ensures |r| == 1 || r[0] != '0'
    ensures forall k :: 0 <= k < |w| - |r| ==> w[k] == '0'
  {
    if |w| > 1 && w[0] == '0' then StripLeadingZeros(w[1..]) else w
  }

  lemma {:induction false} StripKeepsValue(w: string, rest: string)
    requires |w| > 0
    ensures Nat(StripLeadingZeros(w) + rest) == Nat(w + rest)
    decreases |w|
  {
    if |w| > 1 && w[0] == '0' {
      var t := w[1..];
      StripKeepsValue(t, rest);
      ConsAppend(w, rest);
      NatLeadingZero(t + rest);
    }
  }

  lemma ConsAppend(w: string, rest: string)
    requires |w| > 0
    ensures w + rest == [w[0]] + (w[1..] + rest)
  {
  }

  /** Adds one to a digit string, carrying into a new leading `1` when every digit is 9. */
  function Increment(ds: string): (r: string)
    requires AllDigits(ds)
    ensures AllDigits(r) && (|r| == |ds| || |r| == |ds| + 1)
    ensures Nat(r) == Nat(ds) + 1
    ensures |r| == |ds| + 1 ==> r[0] == '1'
    ensures |ds| > 0 && ds[0] != '0' ==> r[0] != '0'
  {
    if ds == [] then
      assert Nat("1") == 10 * Nat("") + 1;
      "1"
    else
      var init, last := ds[..|ds| - 1], ds[|ds| - 1];
      assert ds == init + [last];
      if last < '9' then
        var r := init + [(last as int + 1) as char];
        NatAppend(init, (last as int + 1) as char);
        r
      else
        var r := Increment(init) + "0";
        NatAppend(Increment(init), '0');
        r
  }

  // ---------------------------------------------------------------------------
  // toFixed(6)

  const Places: nat := 6

  /** The first six fractional digits, padded with zeros. */
  function SixPlaces(f: string): (r: string)
    ensures |r| == Places
  {
    if |f| >= Places then f[..Places] else f + Zeros(Places - |f|)
  }

  /** The seventh fractional digit is 5 or more, so the sixth is rounded up. */
  predicate RoundsUp(d: Decimal) {
    |d.fraction| > Places && d.fraction[Places] >= '5'
  }

  predicate IsZero(d: Decimal) {
    AllZero(d.whole) && AllZero(d.fraction)
  }

  lemma DigitsSuffix(ds: string, n: nat)
    requires AllDigits(ds) && n <= |ds|
    ensures AllDigits(ds[n..])
  {
    var t := ds[n..];
    forall k | 0 <= k < |t| ensures IsDigit(t[k]) {
      assert t[k] == ds[n + k];
    }
  }

  lemma DigitsAppend(a: string, b: string)
    requires AllDigits(a) && AllDigits(b)
    ensures AllDigits(a + b)
  {
    var t := a + b;
    forall k | 0 <= k < |t| ensures IsDigit(t[k]) {
      if k < |a| {
        assert t[k] == a[k];
      } else {
        assert t[k] == b[k - |a|];
      }
    }
  }

  lemma SixPlacesDigits(f: string)
    requires AllDigits(f)
    ensures AllDigits(SixPlaces(f))
  {
    if |f| >= Places {
      var t := f[..Places];
      forall k | 0 <= k < |t| ensures IsDigit(t[k]) {
        assert t[k] == f[k];
      }
    } else {
      DigitsAppend(f, Zeros(Places - |f|));
    }
  }

  /**
   * The digits that `toFixed(6)` prints, without sign and point: the value truncated to
   * six places, plus one unit in the sixth place when the seventh digit is 5 or more;
   * the integer part has no superfluous leading zero.
   */
  function Rounded(d: Decimal): (r: string)
    requires WellFormed(d)
    ensures AllDigits(r) && |r| > Places
    ensures |r| == Places + 1 || r[0] != '0'
    ensures Nat(r) == Nat(d.whole + SixPlaces(d.fraction)) + (if RoundsUp(d) then 1 else 0)
  {
    var w := StripLeadingZeros(d.whole);
    var kept := w + SixPlaces(d.fraction);
    StripKeepsValue(d.whole, SixPlaces(d.fraction));
    DigitsSuffix(d.whole, |d.whole| - |w|);
    SixPlacesDigits(d.fraction);
    DigitsAppend(w, SixPlaces(d.fraction));
    if RoundsUp(d) then Increment(kept) else kept
  }

  /** `-?\d+\.\d{6}`: what `toFixed(6)` prints for a finite value below 1e21. */
  predicate IsFixed6(t: string) {
    var body := if |t| > 0 && t[0] == '-' then t[1..] else t;
    && |body| > Places + 1
    && body[|body| - Places - 1] == '.'
    && AllDigits(body[..|body| - Places - 1])
    && AllDigits(body[|body| - Places..])
  }

  /**
   * The numeral `toFixed(6)` prints: the rounded digits with the point before the last
   * six, and a minus sign exactly when `d` is negative and not zero.
   */
  function Fixed(d: Decimal): (e: Decimal)
    requires WellFormed(d)
    ensures WellFormed(e) && |e.fraction| == Places
    ensures |e.whole| == 1 || e.whole[0] != '0'
    ensures e.whole + e.fraction == Rounded(d)
    ensures e.negative <==> d.negative && !IsZero(d)
  {
    var ds := Rounded(d);
    assert ds[..|ds| - Places] + ds[|ds| - Places..] == ds;
    Decimal(d.negative && !IsZero(d), ds[..|ds| - Places], ds[|ds| - Places..])
  }

  lemma TextIsFixed6(e: Decimal)
    requires WellFormed(e) && |e.fraction| == Places
    ensures IsFixed6(Text(e))
  {
    var t := Text(e);
    TextLayout(e);
    var body := if e.negative then t[1..] else t;
    assert body == e.whole + "." + e.fraction;
    assert body[..|body| - Places - 1] == e.whole;
    assert body[|body| - Places..] == e.fraction;
  }

  /**
   * `parseFloat(Text(d)).toFixed(6)`, on the exact value of `d`: the text has the form
   * `-?\d+\.\d{6}` and starts with a minus sign exactly when `d` is negative and not zero.
   */
  function ToFixed6(d: Decimal): (r: string)
    requires WellFormed(d)
    ensures IsFixed6(r)
    ensures r[0] == '-' <==> d.negative && !IsZero(d)
  {
    TextIsFixed6(Fixed(d));
    TextLayout(Fixed(d));
    Text(Fixed(d))
  }

  /** A printed numeral has no comma and neither starts nor ends with white space. */
  lemma Fixed6Shape(t: string)
    requires IsFixed6(t)
    ensures |t| > 0 && ',' !in t && !IsJsSpace(t[0]) && !IsJsSpace(t[|t| - 1])
  {
    var sign := if |t| > 0 && t[0] == '-' then 1 else 0;
    var body := t[sign..];
    var point := |body| - Places - 1;
    forall k | 0 <= k < |t| ensures t[k] != ',' {
      if k >= sign {
        assert t[k] == body[k - sign];
        if k - sign < point {
          assert body[k - sign] == body[..point][k - sign];
        } else if k - sign > point {
          assert body[k - sign] == body[|body| - Places..][k - sign - point - 1];
        }
      }
    }
    assert t[|t| - 1] == body[|body| - Places..][Places - 1];
    if sign == 0 {
      assert t[0] == body[..point][0];
    }
  }

  lemma SameSplit(a: string, b: string, c: string, e: string)
    requires a + b == c + e && |b| == |e|
    ensures a == c && b == e
  {
    assert a == (a + b)[..|a|] && c == (c + e)[..|c|];
    assert b == (a + b)[|a|..] && e == (c + e)[|c|..];
  }

  /** A numeral already in printed form rounds to its own digits. */
  lemma RoundedFixed(e: Decimal)
    requires WellFormed(e) && |e.fraction| == Places
    requires |e.whole| == 1 || e.whole[0] != '0'
    ensures Rounded(e) == e.whole + e.fraction
  {
    StripStripped(e.whole);
    SixPlacesOfSix(e.fraction);
    assert !RoundsUp(e);
    assert Rounded(e) == StripLeadingZeros(e.whole) + SixPlaces(e.fraction);
  }

  lemma StripStripped(w: string)
    requires |w| == 1 || (|w| > 0 && w[0] != '0')
    ensures StripLeadingZeros(w) == w
  {
  }

  lemma SixPlacesOfSix(f: string)
    requires |f| == Places
    ensures SixPlaces(f) == f
  {
    assert f[..Places] == f;
  }

  /** Printing a printed numeral again changes at most the sign of a zero. */
  lemma FixedFixed(d: Decimal)
    requires WellFormed(d)
    ensures Fixed(Fixed(d)) == Fixed(d).(negative := Fixed(d).negative && !IsZero(Fixed(d)))
  {
    var e := Fixed(d);
    RoundedFixed(e);
    var f := Fixed(e);
    SameSplit(f.whole, f.fraction, e.whole, e.fraction);
  }

  /** The only printed numeral that reads as minus zero is `-0.000000`. */
  lemma NegativeZeroText(e: Decimal)
    requires WellFormed(e) && |e.fraction| == Places
    requires |e.whole| == 1 || e.whole[0] != '0'
    ensures Text(e) == "-0.000000" <==> e.negative && IsZero(e)
    ensures e.negative && IsZero(e) ==> Text(e.(negative := false)) == "0.000000"
  {
    TextLayout(e);
    if e.negative && IsZero(e) {
      assert e.whole == "0";
      assert e.fraction == "000000";
    }
    if Text(e) == "-0.000000" {
      assert |e.whole| == 1;
      assert e.whole[0] == Text(e)[1];
      forall k | 0 <= k < Places ensures e.fraction[k] == '0' {
        assert e.fraction[k] == Text(e)[3 + k];
      }
    }
  }

  /**
   * Rendering is idempotent: `parseFloat` reads a rendering back as the numeral it
   * prints, spanning the whole text, and rendering that numeral again gives the same
   * text, except that a negative value rounded to zero, `-0.000000`, is read back as
   * minus zero and printed as `0.000000`.
   */
  lemma RenderReadsBack(d: Decimal)
    requires WellFormed(d)
    ensures NumberAt(ToFixed6(d), 0) == Some((Fixed(d), |ToFixed6(d)|))
    ensures ToFixed6(Fixed(d)) == if ToFixed6(d) == "-0.000000" then "0.000000" else ToFixed6(d)
  {
    var e := Fixed(d);
    ParseText(e);
    FixedFixed(d);
    NegativeZeroText(e);
    if e.negative && IsZero(e) {
      assert Text(e.(negative := false)) == "0.000000";
    }
  }
}
