/**
 * `extract_package_info`: the first match of
 * `(?i)\b(\d+(?:\.\d+)?)\s*(u1|u2|...)\b` in a description, as the pair of
 * captured groups (number, unit as written in the text).
 *
 * `MatchAt` says declaratively where the pattern matches; `ExtractPackage`
 * is a left-to-right scanner proved to return the leftmost match and,
 * among matches at that position, the one with the earliest unit of the
 * vocabulary. With alphabetic units the number and the white space of a
 * match are forced by its start (`MatchForced`), so the regex engine's
 * backtracking order over them cannot change which match is returned.
 */
module Package {
  import opened Wrappers
  import opened Text

  /** Every unit is a non-empty word of ASCII letters, and there is at least one. */
  predicate ValidUnits(units: seq<string>) {
    && |units| > 0
    && forall k :: 0 <= k < |units| ==>
         |units[k]| > 0 && forall j :: 0 <= j < |units[k]| ==> IsLetter(units[k][j])
  }

  /** `\b` at position `i`: a word character on exactly one side. */
  predicate WordBoundary(s: string, i: nat)
    requires i <= |s|
  {
    (i > 0 && IsWordChar(s[i - 1])) != (i < |s| && IsWordChar(s[i]))
  }

  predicate AllDigits(t: string) {
    forall j :: 0 <= j < |t| ==> IsDigit(t[j])
  }

  /** `\d+(?:\.\d+)?` matched in full. */
  predicate IsNumeral(t: string) {
    || (|t| > 0 && AllDigits(t))
    || exists m :: 0 < m < |t| - 1 && t[m] == '.' && AllDigits(t[..m]) && AllDigits(t[m + 1..])
  }

  /** Equal up to ASCII case. */
  predicate CaseEq(a: string, b: string) {
    LowerStr(a) == LowerStr(b)
  }

  /** The pattern's unit alternative `u` followed by `\b`, at position `q`. */
  predicate UnitAt(s: string, q: nat, u: string) {
    q + |u| <= |s| && CaseEq(s[q..q + |u|], u) && WordBoundary(s, q + |u|)
  }

  /**
   * The whole pattern matches `s[i..]` with the number in `s[i..e]`, white
   * space in `s[e..q]` and the `k`-th unit at `q`.
   */
  ghost predicate MatchAt(s: string, units: seq<string>, i: nat, e: nat, q: nat, k: nat) {
    && i <= e <= q <= |s|
    && k < |units|
    && WordBoundary(s, i)
    && IsNumeral(s[i..e])
    && (forall j :: e <= j < q ==> IsSpace(s[j]))
    && UnitAt(s, q, units[k])
  }

  /** No match starts before `i`, and none at `i` uses a unit listed before `k`. */
  ghost predicate Earliest(s: string, units: seq<string>, i: nat, k: nat) {
    forall i', e', q', k' :: MatchAt(s, units, i', e', q', k') ==> i < i' || (i == i' && k <= k')
  }

  /** A match found by the scanner: start, end of number, start of unit, unit index. */
  datatype Hit = Hit(start: nat, numEnd: nat, unitStart: nat, unit: nat)

  /** The end of the longest run of `P` characters starting at `j`. */
  function RunEnd(s: string, j: nat, P: char -> bool): (r: nat)
    requires j <= |s|
    ensures j <= r <= |s|
    ensures forall t :: j <= t < r ==> P(s[t])
    ensures r < |s| ==> !P(s[r])
    decreases |s| - j
  {
    if j == |s| || !P(s[j]) then j else RunEnd(s, j + 1, P)
  }

  /** A run is maximal exactly when it ends where `RunEnd` says. */
  lemma RunEndIs(s: string, j: nat, P: char -> bool, r: nat)
    requires j <= r < |s|
    requires forall t :: j <= t < r ==> P(s[t])
    requires !P(s[r])
    ensures RunEnd(s, j, P) == r
  {
  }

  /** End of the longest `\d+(?:\.\d+)?` starting at `i`. */
  function NumEnd(s: string, i: nat): (e: nat)
    requires i <= |s|
    ensures i <= e <= |s|
  {
    var d := RunEnd(s, i, IsDigit);
    if d + 1 < |s| && s[d] == '.' && IsDigit(s[d + 1]) then RunEnd(s, d + 1, IsDigit) else d
  }

  lemma NumEndIsNumeral(s: string, i: nat)
    requires i < |s| && IsDigit(s[i])
    ensures IsNumeral(s[i..NumEnd(s, i)])
  {
    var d := RunEnd(s, i, IsDigit);
    var t := s[i..NumEnd(s, i)];
    DigitsSlice(s, i, d);
    if d + 1 < |s| && s[d] == '.' && IsDigit(s[d + 1]) {
      var m := d - i;
      var f := RunEnd(s, d + 1, IsDigit);
      DigitsSlice(s, d + 1, f);
      assert t[m] == '.';
      assert t[..m] == s[i..d];
      assert t[m + 1..] == s[d + 1..f];
      assert 0 < m < |t| - 1;
    } else {
      assert t == s[i..d];
    }
  }

  /** A stretch of digit characters is a string of digits. */
  lemma DigitsSlice(s: string, a: nat, b: nat)
    requires a <= b <= |s|
    requires forall t :: a <= t < b ==> IsDigit(s[t])
    ensures AllDigits(s[a..b])
  {
    forall j | 0 <= j < b - a ensures IsDigit(s[a..b][j]) {
      assert s[a..b][j] == s[a + j];
    }
  }

  /** The first unit at index `k` or later that matches at `q`. */
  function FirstUnit(s: string, q: nat, units: seq<string>, k: nat): (r: Option<nat>)
    requires k <= |units|
    ensures r.Some? ==> k <= r.value < |units| && UnitAt(s, q, units[r.value])
    ensures forall k' :: k <= k' < |units| && UnitAt(s, q, units[k']) ==> r.Some? && r.value <= k'
    decreases |units| - k
  {
    if k == |units| then None
    else if UnitAt(s, q, units[k]) then Some(k)
    else FirstUnit(s, q, units, k + 1)
  }

  /** A matched alphabetic unit starts with a letter of the text. */
  lemma UnitStartsWithLetter(s: string, q: nat, u: string)
    requires |u| > 0 && forall j :: 0 <= j < |u| ==> IsLetter(u[j])
    requires UnitAt(s, q, u)
    ensures q < |s| && IsLetter(s[q])
  {
    assert LowerStr(s[q..q + |u|])[0] == LowerStr(u)[0];
    LowerLetter(s[q], u[0]);
  }

  /** A numeral followed by neither a digit nor a `.` is the longest one at its start. */
  lemma NumeralIsLongest(s: string, i: nat, e: nat)
    requires i <= e < |s|
    requires IsNumeral(s[i..e])
    requires !IsDigit(s[e]) && s[e] != '.'
    ensures NumEnd(s, i) == e
    ensures IsDigit(s[i])
  {
    var t := s[i..e];
    assert IsDigit(t[0]);
    if |t| > 0 && AllDigits(t) {
      assert forall j :: i <= j < e ==> IsDigit(s[j]) by {
        forall j | i <= j < e ensures IsDigit(s[j]) { assert s[j] == t[j - i]; }
      }
      RunEndIs(s, i, IsDigit, e);
    } else {
      var m :| 0 < m < |t| - 1 && t[m] == '.' && AllDigits(t[..m]) && AllDigits(t[m + 1..]);
      assert t[..m] == s[i..i + m];
      assert t[m + 1..] == s[i + m + 1..e];
      DecimalIsLongest(s, i, e, m);
    }
  }

  lemma DecimalIsLongest(s: string, i: nat, e: nat, m: nat)
    requires i <= e < |s| && 0 < m < e - i - 1
    requires s[i + m] == '.' && AllDigits(s[i..i + m]) && AllDigits(s[i + m + 1..e])
    requires !IsDigit(s[e])
    ensures NumEnd(s, i) == e
  {
    assert forall j :: i <= j < i + m ==> IsDigit(s[j]) by {
      forall j | i <= j < i + m ensures IsDigit(s[j]) { assert s[j] == s[i..i + m][j - i]; }
    }
    RunEndIs(s, i, IsDigit, i + m);
    assert forall j :: i + m + 1 <= j < e ==> IsDigit(s[j]) by {
      forall j | i + m + 1 <= j < e ensures IsDigit(s[j]) { assert s[j] == s[i + m + 1..e][j - i - m - 1]; }
    }
    assert IsDigit(s[i + m + 1]);
    RunEndIs(s, i + m + 1, IsDigit, e);
  }

  /**
   * With alphabetic units, a match starting at `i` has the longest numeral
   * at `i` and then all the white space after it.
   */
  lemma MatchForced(s: string, units: seq<string>, i: nat, e: nat, q: nat, k: nat)
    requires ValidUnits(units)
    requires MatchAt(s, units, i, e, q, k)
    ensures e == NumEnd(s, i)
    ensures q == RunEnd(s, e, IsSpace)
    ensures i < |s| && IsDigit(s[i])
  {
    UnitStartsWithLetter(s, q, units[k]);
    // the character ending the numeral is white space or the unit's first letter
    assert e < |s| && !IsDigit(s[e]) && s[e] != '.' by {
      if e < q { assert IsSpace(s[e]); }
    }
    RunEndIs(s, e, IsSpace, q);
    NumeralIsLongest(s, i, e);
  }

  /** Two matches at the same start agree on the number and the white space. */
  lemma MatchUnique(s: string, units: seq<string>, i: nat, e1: nat, q1: nat, k1: nat, e2: nat, q2: nat, k2: nat)
    requires ValidUnits(units)
    requires MatchAt(s, units, i, e1, q1, k1) && MatchAt(s, units, i, e2, q2, k2)
    ensures e1 == e2 && q1 == q2
  {
    MatchForced(s, units, i, e1, q1, k1);
    MatchForced(s, units, i, e2, q2, k2);
  }

  /** The match at `i` with the earliest unit, if the pattern matches there. */
  function MatchHere(s: string, units: seq<string>, i: nat): (r: Option<Hit>)
    requires ValidUnits(units)
    requires i <= |s|
    ensures r.Some? ==> r.value.start == i
    ensures r.Some? ==> MatchAt(s, units, i, r.value.numEnd, r.value.unitStart, r.value.unit)
    ensures forall e, q, k :: MatchAt(s, units, i, e, q, k) ==> r.Some? && r.value.unit <= k
  {
    if i < |s| && IsDigit(s[i]) && WordBoundary(s, i) then
      var e := NumEnd(s, i);
      var q := RunEnd(s, e, IsSpace);
      NumEndIsNumeral(s, i);
      var k := FirstUnit(s, q, units, 0);
      assert forall e', q', k' :: MatchAt(s, units, i, e', q', k') ==> e' == e && q' == q by {
        forall e', q', k' | MatchAt(s, units, i, e', q', k') ensures e' == e && q' == q {
          MatchForced(s, units, i, e', q', k');
        }
      }
      if k.Some? then Some(Hit(i, e, q, k.value)) else None
    else
      assert forall e, q, k :: !MatchAt(s, units, i, e, q, k) by {
        forall e, q, k | MatchAt(s, units, i, e, q, k) ensures i < |s| && IsDigit(s[i]) {
          MatchForced(s, units, i, e, q, k);
        }
      }
      None
  }

  /** The leftmost match starting at `i` or later. */
  function Scan(s: string, units: seq<string>, i: nat): (r: Option<Hit>)
    requires ValidUnits(units)
    requires i <= |s|
    ensures r.Some? ==> i <= r.value.start
    ensures r.Some? ==> MatchAt(s, units, r.value.start, r.value.numEnd, r.value.unitStart, r.value.unit)
    ensures forall i', e, q, k :: i <= i' && MatchAt(s, units, i', e, q, k) ==>
              r.Some? && (r.value.start < i' || (r.value.start == i' && r.value.unit <= k))
    decreases |s| - i
  {
    var here := MatchHere(s, units, i);
    if here.Some? then here
    else if i == |s| then None
    else Scan(s, units, i + 1)
  }

  /**
   * The captured (number, unit) of the first match, the unit as written in
   * the text; `None` (pandas' NaN) when the pattern matches nowhere.
   */
  function ExtractPackage(s: string, units: seq<string>): (r: Option<(string, string)>)
    requires ValidUnits(units)
    ensures r.Some? ==> IsNumeral(r.value.0)
  {
    match Scan(s, units, 0)
    case None => None
    case Some(h) => Some((s[h.start..h.numEnd], s[h.unitStart..h.unitStart + |units[h.unit]|]))
  }

  /**
   * `None` exactly when the pattern matches nowhere; otherwise the groups
   * of the leftmost match, taking the earliest unit at that position.
   */
  lemma ExtractPackageFirstMatch(s: string, units: seq<string>)
    requires ValidUnits(units)
    ensures ExtractPackage(s, units).None? <==> forall i, e, q, k :: !MatchAt(s, units, i, e, q, k)
    ensures ExtractPackage(s, units).Some? ==> exists i: nat, e: nat, q: nat, k: nat ::
              && MatchAt(s, units, i, e, q, k)
              && Earliest(s, units, i, k)
              && ExtractPackage(s, units).value == (s[i..e], s[q..q + |units[k]|])
  {
  }

  /** The pattern matches somewhere in `s`. */
  ghost predicate Matches(s: string, units: seq<string>) {
    exists i, e, q, k :: MatchAt(s, units, i, e, q, k)
  }

  /** Nothing is found exactly when the pattern matches nowhere. */
  lemma ExtractPackageNone(s: string, units: seq<string>)
    requires ValidUnits(units)
    ensures ExtractPackage(s, units).None? <==> !Matches(s, units)
  {
  }

  /** A unit match followed only by letters reaches the end of the text. */
  lemma UnitFillsRest(s: string, q: nat, w: string)
    requires |w| > 0 && UnitAt(s, q, w)
    requires forall j :: q <= j < |s| ==> IsLetter(s[j])
    ensures q + |w| == |s|
  {
    assert IsWordChar(s[q + |w| - 1]);
  }

  /**
   * The result when a match is known: it starts at `i`, no digit before
   * `i` could start one, and no earlier unit matches at `q`.
   */
  lemma ExtractPackageIs(s: string, units: seq<string>, i: nat, e: nat, q: nat, k: nat)
    requires ValidUnits(units)
    requires MatchAt(s, units, i, e, q, k)
    requires forall j :: 0 <= j < i ==> !IsDigit(s[j]) || !WordBoundary(s, j)
    requires forall k' :: 0 <= k' < k ==> !UnitAt(s, q, units[k'])
    ensures ExtractPackage(s, units) == Some((s[i..e], s[q..q + |units[k]|]))
  {
    ScanHit(s, units, i, e, q, k);
  }

  lemma ScanHit(s: string, units: seq<string>, i: nat, e: nat, q: nat, k: nat)
    requires ValidUnits(units)
    requires MatchAt(s, units, i, e, q, k)
    requires forall j :: 0 <= j < i ==> !IsDigit(s[j]) || !WordBoundary(s, j)
    requires forall k' :: 0 <= k' < k ==> !UnitAt(s, q, units[k'])
    ensures Scan(s, units, 0) == Some(Hit(i, e, q, k))
  {
    var h := ScanStart(s, units, i, e, q, k);
    MatchUnique(s, units, i, h.numEnd, h.unitStart, h.unit, e, q, k);
    assert UnitAt(s, q, units[h.unit]);
  }

  /** The scan stops at the first match, at an earlier or equal unit. */
  lemma ScanStart(s: string, units: seq<string>, i: nat, e: nat, q: nat, k: nat) returns (h: Hit)
    requires ValidUnits(units)
    requires MatchAt(s, units, i, e, q, k)
    requires forall j :: 0 <= j < i ==> !IsDigit(s[j]) || !WordBoundary(s, j)
    ensures Scan(s, units, 0) == Some(h)
    ensures h.start == i && h.unit <= k
    ensures MatchAt(s, units, i, h.numEnd, h.unitStart, h.unit)
  {
    var r := Scan(s, units, 0);
    assert r.Some? && (r.value.start < i || (r.value.start == i && r.value.unit <= k));
    h := r.value;
    MatchForced(s, units, h.start, h.numEnd, h.unitStart, h.unit);
    assert WordBoundary(s, h.start);
  }

  /** `ExtractPackageIs` with the two captured groups named. */
  lemma ExtractGroups(s: string, units: seq<string>, i: nat, e: nat, q: nat, k: nat, n: string, u: string)
    requires ValidUnits(units)
    requires MatchAt(s, units, i, e, q, k)
    requires forall j :: 0 <= j < i ==> !IsDigit(s[j]) || !WordBoundary(s, j)
    requires forall k' :: 0 <= k' < k ==> !UnitAt(s, q, units[k'])
    requires s[i..e] == n && s[q..q + |units[k]|] == u
    ensures ExtractPackage(s, units) == Some((n, u))
  {
    ExtractPackageIs(s, units, i, e, q, k);
  }

  /** `u` is one of the units up to ASCII case, as the `(?i)` pattern compares them. */
  predicate InVocabulary(u: string, units: seq<string>) {
    exists k :: 0 <= k < |units| && CaseEq(u, units[k])
  }

  /** A word equal up to case to a word of letters is a word of letters of the same length. */
  lemma CaseEqLetters(u: string, w: string)
    requires CaseEq(u, w)
    requires forall j :: 0 <= j < |w| ==> IsLetter(w[j])
    ensures |u| == |w|
    ensures forall j :: 0 <= j < |u| ==> IsLetter(u[j])
  {
    assert |LowerStr(u)| == |LowerStr(w)|;
    forall j | 0 <= j < |u| ensures IsLetter(u[j]) {
      assert Lower(u[j]) == LowerStr(u)[j] == LowerStr(w)[j] == Lower(w[j]);
      LowerLetter(u[j], w[j]);
    }
  }

  /** A unit of the vocabulary, in any case, is a non-empty word of letters. */
  lemma VocabularyLetters(u: string, units: seq<string>)
    requires ValidUnits(units) && InVocabulary(u, units)
    ensures |u| > 0 && forall j :: 0 <= j < |u| ==> IsLetter(u[j])
  {
    var k :| 0 <= k < |units| && CaseEq(u, units[k]);
    CaseEqLetters(u, units[k]);
  }

  /**
   * Extracting from text already of the form number, space, unit gives
   * that number and unit back, the unit in the case the text spells it.
   */
  lemma ExtractFromPackageText(n: string, u: string, units: seq<string>)
    requires ValidUnits(units)
    requires IsNumeral(n) && InVocabulary(u, units)
    ensures ExtractPackage(n + " " + u, units) == Some((n, u))
  {
    var k := PackageTextUnit(n, u, units);
    NumberBeforeUnit(n, u);
    ExtractGroups(n + " " + u, units, 0, |n|, |n| + 1, k, n, u);
  }

  /** The unit the scan finds after the space: the earliest matching one, spelled as `u`. */
  lemma PackageTextUnit(n: string, u: string, units: seq<string>) returns (k: nat)
    requires ValidUnits(units)
    requires IsNumeral(n) && InVocabulary(u, units)
    ensures MatchAt(n + " " + u, units, 0, |n|, |n| + 1, k)
    ensures forall k' :: 0 <= k' < k ==> !UnitAt(n + " " + u, |n| + 1, units[k'])
    ensures (n + " " + u)[|n| + 1..|n| + 1 + |units[k]|] == u
  {
    var s := n + " " + u;
    var q := |n| + 1;
    var k0 := PackageTextMatches(n, u, units);
    k := FirstUnit(s, q, units, 0).value;
    TextAfterIsUnit(n, u, units, k);
  }

  lemma NumberBeforeUnit(n: string, u: string)
    ensures (n + " " + u)[0..|n|] == n
  {
  }

  lemma TextAfterIsUnit(n: string, u: string, units: seq<string>, k: nat)
    requires ValidUnits(units)
    requires InVocabulary(u, units) && k < |units|
    requires UnitAt(n + " " + u, |n| + 1, units[k])
    ensures (n + " " + u)[|n| + 1..|n| + 1 + |units[k]|] == u
  {
    var s := n + " " + u;
    var q := |n| + 1;
    VocabularyLetters(u, units);
    LettersAfter(n, u);
    UnitFillsRest(s, q, units[k]);
    assert s[q..] == u;
  }

  /** Text ending in an alphabetic unit ends in letters. */
  lemma LettersAfter(n: string, u: string)
    requires forall j :: 0 <= j < |u| ==> IsLetter(u[j])
    ensures forall j :: |n| + 1 <= j < |n + " " + u| ==> IsLetter((n + " " + u)[j])
  {
    var s := n + " " + u;
    forall j | |n| + 1 <= j < |s| ensures IsLetter(s[j]) { assert s[j] == u[j - |n| - 1]; }
  }

  lemma PackageTextMatches(n: string, u: string, units: seq<string>) returns (k: nat)
    requires ValidUnits(units)
    requires IsNumeral(n) && InVocabulary(u, units)
    ensures MatchAt(n + " " + u, units, 0, |n|, |n| + 1, k)
  {
    var s := n + " " + u;
    k :| 0 <= k < |units| && CaseEq(u, units[k]);
    CaseEqLetters(u, units[k]);
    UnitAtEnd(n, u, units[k]);
    assert IsDigit(n[0]);
    assert s[0..|n|] == n;
  }

  /** A unit spelled `u` at the very end of the text, after the space, matches `w`. */
  lemma UnitAtEnd(n: string, u: string, w: string)
    requires CaseEq(u, w) && |u| == |w| > 0
    requires forall j :: 0 <= j < |u| ==> IsLetter(u[j])
    ensures UnitAt(n + " " + u, |n| + 1, w)
  {
    var s := n + " " + u;
    assert s[|n| + 1..|n| + 1 + |w|] == u;
    assert s[|s| - 1] == u[|u| - 1];
  }

  /** The vocabulary the repository's tests use. */
  const TestUnits: seq<string> := ["GR", "KG", "GRS", "ML"]

  lemma TestUnitsValid()
    ensures ValidUnits(TestUnits)
  {
  }

  /** No unit follows the number in `1UN`: no match, and the package is missing. */
  lemma NoPackageInUnits()
    ensures ExtractPackage("1UN", TestUnits) == None
  {
  }

  /** The unit comes back as written in the text. */
  lemma PackageExampleKg()
    ensures ExtractPackage("CERDO 1 KG.", TestUnits) == Some(("1", "KG"))
  {
    TestUnitsValid();
    KgMatch();
    KgNotEarlier();
    KgGroups();
    ExtractGroups("CERDO 1 KG.", TestUnits, 6, 7, 8, 1, "1", "KG");
  }

  lemma KgMatch()
    ensures MatchAt("CERDO 1 KG.", TestUnits, 6, 7, 8, 1)
  {
    var s := "CERDO 1 KG.";
    assert s[6..7] == "1";
    assert IsNumeral(s[6..7]);
    assert s[8..10] == "KG";
    assert UnitAt(s, 8, TestUnits[1]);
  }

  lemma KgNotEarlier()
    ensures forall j :: 0 <= j < 6 ==> !IsDigit("CERDO 1 KG."[j]) || !WordBoundary("CERDO 1 KG.", j)
    ensures forall k :: 0 <= k < 1 ==> !UnitAt("CERDO 1 KG.", 8, TestUnits[k])
  {
    var s := "CERDO 1 KG.";
    assert LowerStr(s[8..10]) != LowerStr("GR");
  }

  lemma KgGroups()
    ensures "CERDO 1 KG."[6..7] == "1" && "CERDO 1 KG."[8..8 + |TestUnits[1]|] == "KG"
  {
  }

  /** `GR` is tried first but is not followed by a word boundary, so `GRS` is found. */
  lemma PackageExampleGrs()
    ensures ExtractPackage("SAL 300grs", TestUnits) == Some(("300", "grs"))
  {
    TestUnitsValid();
    GrsMatch();
    GrsNotEarlier();
    GrsGroups();
    ExtractGroups("SAL 300grs", TestUnits, 4, 7, 7, 2, "300", "grs");
  }

  lemma GrsMatch()
    ensures MatchAt("SAL 300grs", TestUnits, 4, 7, 7, 2)
  {
    var s := "SAL 300grs";
    assert s[4..7] == "300";
    assert IsNumeral(s[4..7]);
    assert s[7..10] == "grs";
    assert LowerStr("grs") == LowerStr("GRS");
    assert UnitAt(s, 7, TestUnits[2]);
  }

  lemma GrsNotEarlier()
    ensures forall j :: 0 <= j < 4 ==> !IsDigit("SAL 300grs"[j]) || !WordBoundary("SAL 300grs", j)
    ensures forall k :: 0 <= k < 2 ==> !UnitAt("SAL 300grs", 7, TestUnits[k])
  {
    var s := "SAL 300grs";
    assert !WordBoundary(s, 9);
    assert s[7..9] == "gr";
    assert LowerStr(s[7..9]) != LowerStr("KG");
  }

  lemma GrsGroups()
    ensures "SAL 300grs"[4..7] == "300" && "SAL 300grs"[7..7 + |TestUnits[2]|] == "grs"
  {
  }
}
