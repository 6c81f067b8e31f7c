/**
 * `remove_html_tags`: Python's `re.sub(r'<[^<>]*>', '', s)`.
 *
 * The scan goes left to right. At a `<` it looks for the next `<` or `>`;
 * if that is a `>`, the whole span is a tag and is deleted and the scan
 * resumes after it. Otherwise the character is kept and the scan moves on
 * by one. Spans never overlap and nested brackets are not balanced.
 */
module Tags {
  import Tables

  predicate IsAngle(c: char) { c == '<' || c == '>' }

  /** The first `<` or `>` at or after `i`, or `|s|` when there is none. */
  function NextAngle(s: string, i: nat): (j: nat)
    requires i <= |s|
    ensures i <= j <= |s|
    ensures forall k :: i <= k < j ==> !IsAngle(s[k])
    ensures j < |s| ==> IsAngle(s[j])
    decreases |s| - i
  {
    if i == |s| || IsAngle(s[i]) then i else NextAngle(s, i + 1)
  }

  /** A span the pattern `<[^<>]*>` matches in full. */
  predicate IsTag(t: string) {
    && |t| >= 2
    && t[0] == '<'
    && t[|t| - 1] == '>'
    && forall k :: 0 < k < |t| - 1 ==> !IsAngle(t[k])
  }

  /** Whether a tag starts at the front of `s`, and where it ends (exclusive). */
  function TagAtFront(s: string): (end: nat)
    ensures end <= |s|
    ensures end > 0 ==> IsTag(s[..end])
  {
    if s != [] && s[0] == '<' && NextAngle(s, 1) < |s| && s[NextAngle(s, 1)] == '>'
    then NextAngle(s, 1) + 1
    else 0
  }

  function StripTags(s: string): (r: string)
    ensures Tables.IsSubseq(r, s)
    ensures |r| <= |s|
    ensures '<' !in s ==> r == s
    decreases |s|
  {
    if s == [] then []
    else
      var end := TagAtFront(s);
      if end > 0 then
        var r := StripTags(s[end..]);
        SubseqDrop(r, s, end);
        r
      else
        assert '<' !in s ==> '<' !in s[1..];
        [s[0]] + StripTags(s[1..])
  }

  lemma {:induction false} SubseqDrop(r: string, s: string, n: nat)
    requires n <= |s|
    requires Tables.IsSubseq(r, s[n..])
    ensures Tables.IsSubseq(r, s)
    decreases n
  {
    if n > 0 {
      assert s[1..][n - 1..] == s[n..];
      SubseqDrop(r, s[1..], n - 1);
      assert r == [] || Tables.IsSubseq(r, s[1..]);
    }
  }

  /** A whole tag at the front is deleted. */
  lemma StripTagsDropsTag(t: string, s: string)
    requires IsTag(t)
    ensures StripTags(t + s) == StripTags(s)
  {
    var u := t + s;
    assert NextAngle(u, 1) == |t| - 1 by {
      NextAngleSkips(u, 1, |t| - 1);
    }
    assert u[|t|..] == s;
  }

  lemma {:induction false} NextAngleSkips(s: string, i: nat, j: nat)
    requires i <= j < |s|
    requires forall k :: i <= k < j ==> !IsAngle(s[k])
    requires IsAngle(s[j])
    ensures NextAngle(s, i) == j
    decreases j - i
  {
    if i < j { NextAngleSkips(s, i + 1, j); }
  }

  /** A character other than `<` is kept. */
  lemma StripTagsKeepsChar(c: char, s: string)
    requires c != '<'
    ensures StripTags([c] + s) == [c] + StripTags(s)
  {
    assert ([c] + s)[1..] == s;
  }

  /** A `<` whose next bracket is another `<`, or which has no bracket after it, is kept. */
  lemma StripTagsKeepsUnclosed(s: string)
    requires '>' !in s || exists j :: 0 <= j < |s| && s[j] == '<' && '>' !in s[..j]
    ensures StripTags("<" + s) == "<" + StripTags(s)
  {
    var u := "<" + s;
    NoTagAtFront(s);
    assert u[1..] == s;
  }

  lemma NoTagAtFront(s: string)
    requires '>' !in s || exists j :: 0 <= j < |s| && s[j] == '<' && '>' !in s[..j]
    ensures TagAtFront("<" + s) == 0
  {
    var u := "<" + s;
    var j0 := NextAngle(u, 1);
    if j0 < |u| {
      assert u[j0] == s[j0 - 1];
      if '>' !in s {
        assert s[j0 - 1] in s;
      } else {
        var j :| 0 <= j < |s| && s[j] == '<' && '>' !in s[..j];
        assert u[j + 1] == '<';
        assert j0 <= j + 1;
        if j0 <= j { assert s[j0 - 1] == s[..j][j0 - 1]; }
      }
    }
  }

  /** Deleting tags once may create a new tag: the operation is not idempotent. */
  lemma NotIdempotent()
    ensures StripTags("<<a>b>") == "<b>"
    ensures StripTags(StripTags("<<a>b>")) == ""
  {
    var inner: string := "<a>b>";
    InnerStripped();
    assert inner[0] == '<' && '>' !in inner[..0];
    StripTagsKeepsUnclosed(inner);
    OuterSplit();
    TagStripped();
  }

  lemma OuterSplit()
    ensures "<<a>b>" == "<" + "<a>b>"
  {
    assert ("<" + "<a>b>")[1..] == "<a>b>";
  }

  lemma InnerStripped()
    ensures StripTags("<a>b>") == "b>"
  {
    assert '<' !in "b>";
    assert "<a>b>" == "<a>" + "b>";
    StripTagsDropsTag("<a>", "b>");
  }

  lemma TagStripped()
    ensures StripTags("<b>") == ""
  {
    assert "<b>" == "<b>" + "";
    StripTagsDropsTag("<b>", "");
  }
}
