/**
 * The row-level table operations, generic in the row type. A table is a
 * sequence of rows; a column the source names by string is passed here as
 * a projection from the row.
 */
module Tables {
  import opened Wrappers
  import Dicts

  /** `a` is `b` with some rows left out, the rest in their original order. */
  ghost predicate IsSubseq<R>(a: seq<R>, b: seq<R>)
    decreases |b|
  {
    if a == [] then true
    else if b == [] then false
    else (a[0] == b[0] && IsSubseq(a[1..], b[1..])) || IsSubseq(a, b[1..])
  }

  /**
   * `dataframe[mask]`: the rows for which `keep` holds, in input order,
   * each as often as in the input; the others are gone.
   */
  function Filter<R(!new)>(t: seq<R>, keep: R -> bool): (r: seq<R>)
    ensures IsSubseq(r, t)
    ensures |r| <= |t|
    ensures forall x :: x in r ==> keep(x)
    ensures forall x :: multiset(r)[x] == if keep(x) then multiset(t)[x] else 0
  {
    if t == [] then []
    else
      var rest := Filter(t[1..], keep);
      assert t == [t[0]] + t[1..];
      if keep(t[0]) then [t[0]] + rest else rest
  }

  /** `dataframe[column].isin(values)` as a row filter. */
  function FilterIn<R(!new)>(t: seq<R>, column: R -> string, values: seq<string>): (r: seq<R>)
    ensures forall x :: multiset(r)[x] == if column(x) in values then multiset(t)[x] else 0
    ensures IsSubseq(r, t)
    ensures |r| <= |t|
  {
    Filter(t, (x: R) => column(x) in values)
  }

  /** `dataframe[column] > 0` as a row filter. */
  function FilterPositive<R(!new)>(t: seq<R>, column: R -> int): (r: seq<R>)
    ensures forall x :: multiset(r)[x] == if column(x) > 0 then multiset(t)[x] else 0
    ensures IsSubseq(r, t)
    ensures |r| <= |t|
  {
    Filter(t, (x: R) => column(x) > 0)
  }

  /** The largest `value` among the rows whose `key` is `k`; `None` for an empty group. */
  function GroupMax<R, K(==)>(t: seq<R>, key: R -> K, value: R -> int, k: K): (m: Option<int>)
    ensures m.None? <==> forall i :: 0 <= i < |t| ==> key(t[i]) != k
    ensures m.Some? ==> exists i :: 0 <= i < |t| && key(t[i]) == k && value(t[i]) == m.value
    ensures m.Some? ==> forall i :: 0 <= i < |t| && key(t[i]) == k ==> value(t[i]) <= m.value
  {
    if t == [] then None
    else
      var rest := GroupMax(t[1..], key, value, k);
      assert forall i :: 1 <= i < |t| ==> t[i] == t[1..][i - 1];
      if key(t[0]) != k then rest
      else if rest.Some? && rest.value > value(t[0]) then rest
      else Some(value(t[0]))
  }

  /**
   * `drop_duplications` with `transform_op='max'`: keep a row exactly when
   * its value equals the maximum of its group.
   */
  function DropDuplications<R(!new), K(==)>(t: seq<R>, key: R -> K, value: R -> int): (r: seq<R>)
    ensures IsSubseq(r, t)
    ensures forall x :: multiset(r)[x] ==
              if GroupMax(t, key, value, key(x)) == Some(value(x)) then multiset(t)[x] else 0
  {
    Filter(t, (x: R) => GroupMax(t, key, value, key(x)) == Some(value(x)))
  }

  /** Every surviving row carries its group's maximum. */
  lemma DropDuplicationsKeepsMax<R(!new), K>(t: seq<R>, key: R -> K, value: R -> int, x: R)
    requires x in DropDuplications(t, key, value)
    ensures GroupMax(t, key, value, key(x)) == Some(value(x))
    ensures forall i :: 0 <= i < |t| && key(t[i]) == key(x) ==> value(t[i]) <= value(x)
  {
    assert multiset(DropDuplications(t, key, value))[x] > 0;
  }

  /** Every row that ties for its group's maximum survives, so no group vanishes. */
  lemma DropDuplicationsKeepsGroups<R(!new), K>(t: seq<R>, key: R -> K, value: R -> int, i: nat)
    requires i < |t|
    ensures exists x :: x in DropDuplications(t, key, value) && key(x) == key(t[i])
    ensures forall j :: 0 <= j < |t| && key(t[j]) == key(t[i]) &&
              GroupMax(t, key, value, key(t[i])) == Some(value(t[j]))
              ==> t[j] in DropDuplications(t, key, value)
  {
    var r := DropDuplications(t, key, value);
    var m := GroupMax(t, key, value, key(t[i]));
    var j :| 0 <= j < |t| && key(t[j]) == key(t[i]) && value(t[j]) == m.value;
    assert t[j] in multiset(t);
    assert multiset(r)[t[j]] == multiset(t)[t[j]];
    forall j' | 0 <= j' < |t| && key(t[j']) == key(t[i]) && m == Some(value(t[j']))
      ensures t[j'] in r
    {
      assert t[j'] in multiset(t);
      assert multiset(r)[t[j']] == multiset(t)[t[j']];
    }
  }

  /** Rows ordered by non-increasing `value`. */
  ghost predicate SortedDesc<R>(s: seq<R>, value: R -> int) {
    forall i, j :: 0 <= i < j < |s| ==> value(s[i]) >= value(s[j])
  }

  /** Putting a row no smaller than the head in front keeps a sorted table sorted. */
  lemma SortedCons<R>(h: R, s: seq<R>, value: R -> int)
    requires SortedDesc(s, value)
    requires s != [] ==> value(h) >= value(s[0])
    ensures SortedDesc([h] + s, value)
  {
    var r := [h] + s;
    forall i, j | 0 <= i < j < |r| ensures value(r[i]) >= value(r[j]) {
      if i == 0 {
        assert r[j] == s[j - 1];
        if j > 1 { assert value(s[0]) >= value(s[j - 1]); }
      } else {
        assert r[i] == s[i - 1] && r[j] == s[j - 1];
      }
    }
  }

  function Insert<R>(x: R, s: seq<R>, value: R -> int): (r: seq<R>)
    requires SortedDesc(s, value)
    ensures |r| == |s| + 1
    ensures r[0] == x || (s != [] && r[0] == s[0])
    ensures SortedDesc(r, value)
    ensures multiset(r) == multiset(s) + multiset{x}
  {
    if s == [] then [x]
    else if value(x) >= value(s[0]) then
      SortedCons(x, s, value);
      [x] + s
    else
      var rest := Insert(x, s[1..], value);
      InsertBehind(x, s, rest, value);
      [s[0]] + rest
  }

  /** Inserting behind a head that is larger than the new row keeps the head first. */
  lemma InsertBehind<R>(x: R, s: seq<R>, rest: seq<R>, value: R -> int)
    requires SortedDesc(s, value) && s != [] && value(x) < value(s[0])
    requires |rest| > 0 && (rest[0] == x || (|s| > 1 && rest[0] == s[1]))
    requires SortedDesc(rest, value) && multiset(rest) == multiset(s[1..]) + multiset{x}
    ensures SortedDesc([s[0]] + rest, value)
    ensures multiset([s[0]] + rest) == multiset(s) + multiset{x}
  {
    assert |s| > 1 ==> value(s[0]) >= value(s[1]);
    SortedCons(s[0], rest, value);
    assert s == [s[0]] + s[1..];
    assert multiset(s) == multiset{s[0]} + multiset(s[1..]);
  }

  /**
   * A descending sort by `value`. Equal values end up in some order the
   * model fixes; callers rely only on the order of unequal values.
   */
  function SortDesc<R>(t: seq<R>, value: R -> int): (r: seq<R>)
    ensures |r| == |t|
    ensures SortedDesc(r, value)
    ensures multiset(r) == multiset(t)
  {
    if t == [] then []
    else
      assert t == [t[0]] + t[1..];
      Insert(t[0], SortDesc(t[1..], value), value)
  }

  function Min(a: int, b: int): int { if a < b then a else b }

  /**
   * The first `k` rows of a sorted permutation of `t` are sorted, come from
   * `t`, and are no smaller than any row of `t` they leave out.
   */
  lemma SortedPrefix<R>(t: seq<R>, s: seq<R>, k: nat, value: R -> int)
    requires SortedDesc(s, value) && multiset(s) == multiset(t) && k <= |s|
    ensures SortedDesc(s[..k], value)
    ensures multiset(s[..k]) <= multiset(t)
    ensures forall x, y :: x in multiset(t) - multiset(s[..k]) && y in s[..k] ==> value(x) <= value(y)
  {
    var r, rest := s[..k], s[k..];
    PrefixSorted(s, k, value);
    assert s == r + rest;
    assert multiset(t) - multiset(r) == multiset(rest);
    forall x, y | x in multiset(rest) && y in r ensures value(x) <= value(y) {
      RestBelow(s, k, value, x, y);
    }
  }

  lemma PrefixSorted<R>(s: seq<R>, k: nat, value: R -> int)
    requires SortedDesc(s, value) && k <= |s|
    ensures SortedDesc(s[..k], value)
  {
    forall i, j | 0 <= i < j < k ensures value(s[..k][i]) >= value(s[..k][j]) {
      assert s[..k][i] == s[i] && s[..k][j] == s[j];
    }
  }

  lemma RestBelow<R>(s: seq<R>, k: nat, value: R -> int, x: R, y: R)
    requires SortedDesc(s, value) && k <= |s|
    requires x in multiset(s[k..]) && y in s[..k]
    ensures value(x) <= value(y)
  {
    assert x in s[k..];
    var a :| k <= a < |s| && s[a] == x;
    var b :| 0 <= b < k && s[b] == y;
    assert value(s[b]) >= value(s[a]);
  }

  /**
   * `sort_values(by=value, ascending=False)[:n]`: the `n` rows with the
   * largest values (all rows when there are fewer), largest first. Every
   * row left out is no larger than every row taken.
   */
  function TopN<R>(t: seq<R>, value: R -> int, n: nat): (r: seq<R>)
    ensures |r| == Min(n, |t|)
    ensures SortedDesc(r, value)
    ensures multiset(r) <= multiset(t)
    ensures forall x, y :: x in multiset(t) - multiset(r) && y in r ==> value(x) <= value(y)
  {
    var s := SortDesc(t, value);
    SortedPrefix(t, s, Min(n, |t|), value);
    s[..Min(n, |t|)]
  }

  /** The rows whose `column` equals `b`, in input order. */
  function RowsOf<R(!new)>(t: seq<R>, column: R -> string, b: string): (r: seq<R>)
    ensures forall x :: multiset(r)[x] == if column(x) == b then multiset(t)[x] else 0
    ensures IsSubseq(r, t)
  {
    Filter(t, (x: R) => column(x) == b)
  }

  /**
   * `_separate_by_branch`: a dict from each configured branch to its rows.
   * A branch configured twice is filled twice with the same rows and keeps
   * its first position.
   */
  function SeparateBy<R(!new)>(t: seq<R>, column: R -> string, branches: seq<string>): (d: Dicts.Dict<string, seq<R>>)
    ensures Dicts.WellFormed(d)
    ensures forall b :: b in branches ==> Dicts.Get(d, b) == Some(RowsOf(t, column, b))
    ensures forall b :: b !in branches ==> Dicts.Get(d, b) == None
    decreases |branches|
  {
    if branches == [] then []
    else
      var front := SeparateBy(t, column, branches[..|branches| - 1]);
      var b := branches[|branches| - 1];
      Dicts.PutWellFormed(front, b, RowsOf(t, column, b));
      assert forall c :: c in branches ==> c in branches[..|branches| - 1] || c == b;
      Dicts.Put(front, b, RowsOf(t, column, b))
  }
}
