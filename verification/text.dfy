/**
 * ASCII character classes and the Python string operations the pipeline
 * relies on: `str.lower`, `str.join` and `str(int)`.
 */
module Text {

  predicate IsDigit(c: char) { '0' <= c <= '9' }

  predicate IsUpper(c: char) { 'A' <= c <= 'Z' }

  predicate IsLetter(c: char) { IsUpper(c) || 'a' <= c <= 'z' }

  /** Python's `\w` on ASCII text: letters, digits and underscore. */
  predicate IsWordChar(c: char) { IsLetter(c) || IsDigit(c) || c == '_' }

  /**
   * Python's `\s` restricted to ASCII: space, tab, line feed, vertical tab,
   * form feed, carriage return and the four separators 0x1C-0x1F, which
   * `str.isspace` also counts as white space.
   */
  predicate IsSpace(c: char) {
    c == ' ' || ('\t' <= c <= '\r') || ('\U{1C}' <= c <= '\U{1F}')
  }

  /**
   * `c.lower()` on ASCII letters only: `A`-`Z` become `a`-`z` and every
   * other character, non-ASCII letters included, is kept as it is.
   */
  function Lower(c: char): (r: char)
    ensures IsUpper(c) ==> r as int == c as int + 32
    ensures !IsUpper(c) ==> r == c
    ensures !IsUpper(r)
  {
    if IsUpper(c) then (c as int + 32) as char else c
  }

  /** `s.lower()` with the ASCII-only `Lower` applied to every character. */
  function LowerStr(s: string): (r: string)
    ensures |r| == |s|
    ensures forall i :: 0 <= i < |s| ==> r[i] == Lower(s[i])
  {
    if s == [] then [] else [Lower(s[0])] + LowerStr(s[1..])
  }

  lemma LowerStrConcat(a: string, b: string)
    ensures LowerStr(a + b) == LowerStr(a) + LowerStr(b)
  {
  }

  /** A letter compares equal, ignoring case, only to a letter. */
  lemma LowerLetter(c: char, d: char)
    requires IsLetter(d) && Lower(c) == Lower(d)
    ensures IsLetter(c)
  {
  }

  /** `sep.join(vs)`. */
  function Join(vs: seq<string>, sep: string): (r: string)
    ensures |vs| == 1 ==> r == vs[0]
    ensures vs == [] ==> r == []
  {
    if vs == [] then []
    else if |vs| == 1 then vs[0]
    else vs[0] + sep + Join(vs[1..], sep)
  }

  /** Three parts joined: each separator sits between two parts. */
  lemma Join3(a: string, b: string, c: string, sep: string)
    ensures Join([a, b, c], sep) == a + sep + b + sep + c
  {
    assert [a, b, c][1..] == [b, c];
    assert [b, c][1..] == [c];
    assert Join([b, c], sep) == b + sep + c;
  }

  function LowerAll(vs: seq<string>): (r: seq<string>)
    ensures |r| == |vs|
    ensures forall i :: 0 <= i < |vs| ==> r[i] == LowerStr(vs[i])
  {
    if vs == [] then [] else [LowerStr(vs[0])] + LowerAll(vs[1..])
  }

  /** Lower-casing a joined string lower-cases each part and the separator. */
  lemma {:induction false} LowerJoin(vs: seq<string>, sep: string)
    ensures LowerStr(Join(vs, sep)) == Join(LowerAll(vs), LowerStr(sep))
  {
    if |vs| > 1 {
      LowerJoin(vs[1..], sep);
      LowerStrConcat(vs[0] + sep, Join(vs[1..], sep));
      LowerStrConcat(vs[0], sep);
      assert LowerAll(vs)[1..] == LowerAll(vs[1..]);
    }
  }

  function DigitChar(d: nat): (c: char)
    requires d < 10
    ensures IsDigit(c)
  {
    ('0' as int + d) as char
  }

  /** Decimal rendering of a natural number, most significant digit first. */
  function NatStr(n: nat): (r: string)
    ensures |r| > 0
    ensures forall i :: 0 <= i < |r| ==> IsDigit(r[i])
    ensures n < 10 <==> |r| == 1
  {
    if n < 10 then [DigitChar(n)] else NatStr(n / 10) + [DigitChar(n % 10)]
  }

  /** Python's `str(i)` for an `int`: a minus sign for negatives, then the decimal digits. */
  function PyStr(i: int): (r: string)
    ensures |r| > 0
    ensures r[0] == '-' <==> i < 0
    ensures forall j :: (if i < 0 then 1 else 0) <= j < |r| ==> IsDigit(r[j])
  {
    if i < 0 then "-" + NatStr(-i) else NatStr(i)
  }

  lemma {:induction false} NatStrInjective(a: nat, b: nat)
    requires NatStr(a) == NatStr(b)
    ensures a == b
  {
    if a >= 10 && b >= 10 {
      var sa, sb := NatStr(a), NatStr(b);
      assert sa[..|sa| - 1] == NatStr(a / 10);
      assert sb[..|sb| - 1] == NatStr(b / 10);
      NatStrInjective(a / 10, b / 10);
      assert DigitChar(a % 10) == sa[|sa| - 1];
    }
  }

  /** Distinct integers render as distinct strings. */
  lemma PyStrInjective(a: int, b: int)
    requires PyStr(a) == PyStr(b)
    ensures a == b
  {
    assert PyStr(a)[0] == '-' <==> a < 0;
    assert PyStr(b)[0] == '-' <==> b < 0;
    if a < 0 {
      assert PyStr(a)[1..] == NatStr(-a);
      assert PyStr(b)[1..] == NatStr(-b);
      NatStrInjective(-a, -b);
    } else {
      NatStrInjective(a, b);
    }
  }

  /** `s.split(c)` for a one-character separator. */
  function Split(s: string, c: char): (r: seq<string>)
    ensures |r| > 0
    decreases |s|
  {
    if s == [] then [[]]
    else
      var rest := Split(s[1..], c);
      if s[0] == c then [[]] + rest else [[s[0]] + rest[0]] + rest[1..]
  }

  /**
   * Joining with a one-character separator that occurs in none of the
   * parts can be undone by splitting: no part is lost, merged or reordered.
   */
  lemma {:induction false} SplitJoin(vs: seq<string>, c: char)
    requires |vs| > 0
    requires forall i :: 0 <= i < |vs| ==> c !in vs[i]
    ensures Split(Join(vs, [c]), c) == vs
    decreases |vs|, |vs[0]|
  {
    if |vs| == 1 {
      SplitPlain(vs[0], c);
    } else if vs[0] == [] {
      var tail := Join(vs[1..], [c]);
      assert Join(vs, [c]) == [c] + tail;
      SplitJoin(vs[1..], c);
      assert ([c] + tail)[1..] == tail;
    } else {
      var w := vs[0];
      var vs' := [w[1..]] + vs[1..];
      assert Join(vs, [c]) == [w[0]] + Join(vs', [c]) by {
        assert vs'[1..] == vs[1..];
        assert w == [w[0]] + w[1..];
      }
      assert c !in w[1..] by { assert forall x :: x in w[1..] ==> x in w; }
      SplitJoin(vs', c);
      assert ([w[0]] + Join(vs', [c]))[1..] == Join(vs', [c]);
      assert w[0] in w;
      assert [w[0]] + w[1..] == w;
    }
  }

  lemma {:induction false} SplitPlain(s: string, c: char)
    requires c !in s
    ensures Split(s, c) == [s]
    decreases |s|
  {
    if s != [] {
      assert c !in s[1..] by { assert forall x :: x in s[1..] ==> x in s; }
      SplitPlain(s[1..], c);
      assert [s[0]] + s[1..] == s;
    }
  }
}
