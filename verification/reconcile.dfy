/**
 * `CSVOps.compare_branchs`: the merge of two SKU-keyed item mappings, one
 * per branch, into a single list. A SKU present in both mappings yields
 * one item whose `column` value is A's value plus B's value; every other
 * item passes through unchanged. Items of A come first, in A's order,
 * then the items whose SKU is only in B, in B's order.
 */
module Reconcile {
  import opened Wrappers
  import opened Dicts
  import opened PyValues
  import Tables

  /** One branch's items, keyed by SKU string. */
  type Mapping = Dict<string, Record>

  /** The item holds a list under `column`. */
  predicate HasList(d: Record, column: string) {
    Get(d, column).Some? && Get(d, column).value.List?
  }

  /** The entries of the list an item holds under `column`. */
  function ListAt(d: Record, column: string): seq<Value>
    requires HasList(d, column)
  {
    Get(d, column).value.items
  }

  /**
   * `a[column] = a[column] + b[column]` on two item dicts: a missing key
   * raises KeyError (A's item is read first), an unsupported `+` raises
   * TypeError, and otherwise the sum replaces A's value in place.
   */
  function Combine(a: Record, b: Record, column: string): (r: Result<Record, PyError>)
    ensures !HasKey(a, column) ==> r == Failure(KeyError(column))
    ensures HasKey(a, column) && !HasKey(b, column) ==> r == Failure(KeyError(column))
    ensures HasKey(a, column) && HasKey(b, column) ==>
              (r.Success? <==> Add(Get(a, column).value, Get(b, column).value).Some?)
    ensures r.Failure? ==> r.error == KeyError(column) || r.error == TypeError
    ensures r.Success? ==> Keys(r.value) == Keys(a)
    ensures r.Success? && WellFormed(a) ==>
              WellFormed(r.value)
              && Get(r.value, column) == Add(Get(a, column).value, Get(b, column).value)
              && forall k :: k != column ==> Get(r.value, k) == Get(a, k)
  {
    match (Get(a, column), Get(b, column))
    case (None, _) => Failure(KeyError(column))
    case (_, None) => Failure(KeyError(column))
    case (Some(x), Some(y)) =>
      match Add(x, y)
      case None => Failure(TypeError)
      case Some(sum) =>
        PutWellFormedIf(a, column, sum);
        Success(Put(a, column, sum))
  }

  lemma PutWellFormedIf(a: Record, k: string, v: Value)
    ensures Keys(Put(a, k, v)) == Keys(a) || !HasKey(a, k)
    ensures WellFormed(a) ==>
              (WellFormed(Put(a, k, v)) && Get(Put(a, k, v), k) == Some(v)
               && forall k' :: k' != k ==> Get(Put(a, k, v), k') == Get(a, k'))
  {
    if WellFormed(a) { PutWellFormed(a, k, v); }
  }

  /** Whether the item of SKU `k` in A is combined with B's, that is, whether B has `k`. */
  function Emit(a: (string, Record), b: Mapping, column: string): (r: Result<Record, PyError>)
    ensures !HasKey(b, a.0) ==> r == Success(a.1)
    ensures r.Failure? ==> HasKey(b, a.0)
  {
    match Get(b, a.0)
    case None => Success(a.1)
    case Some(rb) => Combine(a.1, rb, column)
  }

  /** `f` applied to each element in order, stopping at the first failure. */
  function MapAll<T, U, E>(xs: seq<T>, f: T -> Result<U, E>): (r: Result<seq<U>, E>)
    ensures r.Success? ==> |r.value| == |xs|
    ensures r.Success? ==> forall i :: 0 <= i < |xs| ==> f(xs[i]) == Success(r.value[i])
    ensures r.Success? <==> forall i :: 0 <= i < |xs| ==> f(xs[i]).Success?
  {
    if xs == [] then Success([])
    else
      assert forall i :: 1 <= i < |xs| ==> xs[i] == xs[1..][i - 1];
      var first :- f(xs[0]);
      var rest :- MapAll(xs[1..], f);
      Success([first] + rest)
  }

  /** A failing run stops with the error of the first element that fails. */
  lemma {:induction false} MapAllFirstFailure<T, U, E>(xs: seq<T>, f: T -> Result<U, E>) returns (i: nat)
    requires MapAll(xs, f).Failure?
    ensures i < |xs| && f(xs[i]) == Failure(MapAll(xs, f).error)
    ensures forall i' :: 0 <= i' < i ==> f(xs[i']).Success?
  {
    if f(xs[0]).Failure? {
      i := 0;
    } else {
      var j := MapAllFirstFailure(xs[1..], f);
      assert xs[j + 1] == xs[1..][j];
      assert forall i' :: 1 <= i' < j + 1 ==> xs[i'] == xs[1..][i' - 1];
      i := j + 1;
    }
  }

  /** The outer loop over A: one item per entry, stopping at the first exception. */
  function MergeA(a: Mapping, b: Mapping, column: string): (r: Result<seq<Record>, PyError>)
    ensures r.Success? ==> |r.value| == |a|
    ensures r.Success? ==> forall i :: 0 <= i < |a| ==> Emit(a[i], b, column) == Success(r.value[i])
    ensures r.Success? <==> forall i :: 0 <= i < |a| ==> Emit(a[i], b, column).Success?
  {
    MapAll(a, Emitter(b, column))
  }

  function Emitter(b: Mapping, column: string): ((string, Record)) -> Result<Record, PyError> {
    (e: (string, Record)) => Emit(e, b, column)
  }

  /** A failing loop stops with the error of the first entry whose item raises. */
  lemma MergeAFirstFailure(a: Mapping, b: Mapping, column: string) returns (i: nat)
    requires MergeA(a, b, column).Failure?
    ensures i < |a| && Emit(a[i], b, column) == Failure(MergeA(a, b, column).error)
    ensures forall i' :: 0 <= i' < i ==> Emit(a[i'], b, column).Success?
  {
    i := MapAllFirstFailure(a, Emitter(b, column));
  }

  /** The entries of B whose SKU is not a key of A: what is left of B's working copy. */
  function Leftover(a: Mapping, b: Mapping): (r: Mapping)
    ensures Tables.IsSubseq(r, b)
    ensures forall e :: e in r <==> e in b && !HasKey(a, e.0)
    ensures WellFormed(b) ==> WellFormed(r)
  {
    if b == [] then []
    else
      var rest := Leftover(a, b[1..]);
      assert forall e :: e in b <==> e == b[0] || e in b[1..];
      assert WellFormed(b) ==> forall e :: e in rest ==> e.0 != b[0].0 by {
        if WellFormed(b) {
          forall e | e in rest ensures e.0 != b[0].0 {
            var j :| 0 <= j < |b[1..]| && b[1..][j] == e;
            assert b[j + 1] == e;
          }
        }
      }
      if !HasKey(a, b[0].0) then [b[0]] + rest else rest
  }

  /** `compare_branchs(A, B, column=column)`. */
  function CompareBranchs(a: Mapping, b: Mapping, column: string): (r: Result<seq<Record>, PyError>)
    ensures r.Success? <==> forall i :: 0 <= i < |a| ==> Emit(a[i], b, column).Success?
    ensures r.Success? ==> |r.value| == |a| + |Leftover(a, b)|
    ensures r.Success? ==> forall i :: 0 <= i < |a| ==> Emit(a[i], b, column) == Success(r.value[i])
    ensures r.Success? ==> r.value[|a|..] == Values(Leftover(a, b))
  {
    var merged :- MergeA(a, b, column);
    Success(merged + Values(Leftover(a, b)))
  }

  /**
   * An item holding a list under `column` combines with an item that has
   * the column exactly when that item's value is a list too; otherwise
   * `+` raises TypeError.
   */
  lemma ListCombinesOnlyWithList(ra: Record, rb: Record, column: string)
    requires HasList(ra, column) && HasKey(rb, column)
    ensures Combine(ra, rb, column).Success? <==> Get(rb, column).value.List?
    ensures Combine(ra, rb, column).Failure? ==> Combine(ra, rb, column).error == TypeError
  {
    AddListOnlyToList(ListAt(ra, column), Get(rb, column).value);
  }

  /**
   * A shared SKU whose A item holds a list under `column` while B's item
   * holds something else there makes the whole merge fail.
   */
  lemma NonListInBFails(a: Mapping, b: Mapping, column: string, i: nat)
    requires i < |a| && HasKey(b, a[i].0)
    requires HasList(a[i].1, column) && HasKey(Get(b, a[i].0).value, column)
    requires !Get(Get(b, a[i].0).value, column).value.List?
    ensures CompareBranchs(a, b, column).Failure?
  {
    ListCombinesOnlyWithList(a[i].1, Get(b, a[i].0).value, column);
    assert Emit(a[i], b, column).Failure?;
  }

  /** Two one-item mappings under the same SKU merge into their combined item. */
  lemma MergeSameSku(k: string, ra: Record, rb: Record, column: string)
    requires Combine(ra, rb, column).Success?
    ensures CompareBranchs([(k, ra)], [(k, rb)], column) == Success([Combine(ra, rb, column).value])
  {
    var a, b := [(k, ra)], [(k, rb)];
    assert Get(b, k) == Some(rb);
    assert Emit(a[0], b, column) == Combine(ra, rb, column);
    var m := Combine(ra, rb, column).value;
    assert a[1..] == [];
    assert MergeA(a[1..], b, column) == Success([]);
    assert [m] + [] == [m];
    assert MergeA(a, b, column) == Success([m]);
    assert HasKey(a, k);
    assert b[1..] == [];
    assert Leftover(a, b) == [];
  }

  /** The keys left over are exactly B's keys that are not A's. */
  lemma LeftoverKeys(a: Mapping, b: Mapping)
    requires WellFormed(b)
    ensures KeySet(Leftover(a, b)) == KeySet(b) - KeySet(a)
    ensures |Leftover(a, b)| == |KeySet(b) - KeySet(a)|
  {
    var r := Leftover(a, b);
    forall k | k in KeySet(b) - KeySet(a) ensures k in KeySet(r) {
      var j :| 0 <= j < |b| && b[j].0 == k;
      assert b[j] in b;
      forall i | 0 <= i < |a| ensures a[i].0 != k {
        assert a[i].0 in KeySet(a);
      }
      assert b[j] in r;
      var n :| 0 <= n < |r| && r[n] == b[j];
    }
    forall k | k in KeySet(r) ensures k in KeySet(b) - KeySet(a) {
      var n :| 0 <= n < |r| && r[n].0 == k;
      assert r[n] in r;
      var j :| 0 <= j < |b| && b[j] == r[n];
    }
    KeySetSize(r);
  }

  /**
   * Totality: on success the list has one item per SKU of A or B, so its
   * length is the size of the union of the two key sets.
   */
  lemma CompareBranchsTotal(a: Mapping, b: Mapping, column: string)
    requires WellFormed(a) && WellFormed(b)
    requires CompareBranchs(a, b, column).Success?
    ensures |CompareBranchs(a, b, column).value| == |KeySet(a) + KeySet(b)|
  {
    CompareBranchsContent(a, b, column);
    LeftoverKeys(a, b);
    KeySetSize(a);
    UnionSize(KeySet(a), KeySet(b));
  }

  /** The union counts the first set and what the second adds to it. */
  lemma UnionSize<T>(x: set<T>, y: set<T>)
    ensures |x + y| == |x| + |y - x|
  {
    assert x + y == x + (y - x);
    assert x * (y - x) == {};
  }

  /**
   * Content and order: the i-th item is A's i-th item, combined with B's
   * item of the same SKU when B has one; after A's items come B's
   * leftover items in B's order. The source writes the sum into A's item
   * dicts in place (csv_manipulation.py:327); the model returns new
   * records, and nothing reads A afterwards.
   */
  lemma CompareBranchsContent(a: Mapping, b: Mapping, column: string)
    requires CompareBranchs(a, b, column).Success?
    ensures |CompareBranchs(a, b, column).value| == |a| + |Leftover(a, b)|
    ensures forall i :: 0 <= i < |a| && !HasKey(b, a[i].0) ==>
              CompareBranchs(a, b, column).value[i] == a[i].1
    ensures forall i :: 0 <= i < |a| && HasKey(b, a[i].0) ==>
              Combine(a[i].1, Get(b, a[i].0).value, column) == Success(CompareBranchs(a, b, column).value[i])
    ensures CompareBranchs(a, b, column).value[|a|..] == Values(Leftover(a, b))
  {
    var r := CompareBranchs(a, b, column).value;
    assert r == MergeA(a, b, column).value + Values(Leftover(a, b));
    forall i | 0 <= i < |a| ensures Emit(a[i], b, column) == Success(r[i]) {
      assert r[i] == MergeA(a, b, column).value[i];
    }
  }

  /**
   * The merge fails exactly when some SKU shared by A and B has an item
   * lacking `column` on either side, or values `+` cannot add.
   */
  lemma CompareBranchsSucceedsIff(a: Mapping, b: Mapping, column: string)
    ensures CompareBranchs(a, b, column).Success? <==>
              forall i :: 0 <= i < |a| && HasKey(b, a[i].0) ==>
                HasKey(a[i].1, column) && HasKey(Get(b, a[i].0).value, column)
                && Add(Get(a[i].1, column).value, Get(Get(b, a[i].0).value, column).value).Some?
  {
  }

  /**
   * The branch facts of a shared SKU: when both items hold lists under
   * `column`, the merged item holds A's list followed by B's, and every
   * other field is A's.
   */
  lemma CombineLists(a: Record, b: Record, column: string, x: seq<Value>, y: seq<Value>)
    requires WellFormed(a)
    requires Get(a, column) == Some(List(x)) && Get(b, column) == Some(List(y))
    ensures Combine(a, b, column).Success?
    ensures Get(Combine(a, b, column).value, column) == Some(List(x + y))
    ensures forall k :: k != column ==> Get(Combine(a, b, column).value, k) == Get(a, k)
    ensures Keys(Combine(a, b, column).value) == Keys(a)
  {
  }

  /** Items that all hold a list under `column` always merge. */
  lemma ListColumnsMerge(a: Mapping, b: Mapping, column: string)
    requires forall i :: 0 <= i < |a| ==> HasList(a[i].1, column)
    requires forall j :: 0 <= j < |b| ==> HasList(b[j].1, column)
    ensures CompareBranchs(a, b, column).Success?
  {
    forall i | 0 <= i < |a| && HasKey(b, a[i].0)
      ensures Emit(a[i], b, column).Success?
    {
      var rb := Get(b, a[i].0).value;
      var j :| 0 <= j < |b| && b[j] == (a[i].0, rb);
      ListsCombine(a[i].1, rb, column);
    }
  }

  lemma ListsCombine(ra: Record, rb: Record, column: string)
    requires HasList(ra, column) && HasList(rb, column)
    ensures Combine(ra, rb, column).Success?
  {
    assert Add(Get(ra, column).value, Get(rb, column).value).Some?;
  }

  /**
   * When every item holds a list under `column`, the merge succeeds with
   * one item per SKU of A or B, and a shared SKU's list is A's entries
   * followed by B's.
   */
  lemma ListsConcatenate(a: Mapping, b: Mapping, column: string)
    requires WellFormed(a) && WellFormed(b)
    requires forall i :: 0 <= i < |a| ==> WellFormed(a[i].1)
    requires forall i :: 0 <= i < |a| ==> HasList(a[i].1, column)
    requires forall j :: 0 <= j < |b| ==> HasList(b[j].1, column)
    ensures CompareBranchs(a, b, column).Success?
    ensures |CompareBranchs(a, b, column).value| == |KeySet(a) + KeySet(b)|
    ensures |CompareBranchs(a, b, column).value| >= |a|
    ensures ListsJoined(a, b, CompareBranchs(a, b, column).value, column)
  {
    ListColumnsMerge(a, b, column);
    CompareBranchsTotal(a, b, column);
    CompareBranchsContent(a, b, column);
    var merged := CompareBranchs(a, b, column).value;
    forall i | 0 <= i < |a| && HasKey(b, a[i].0)
      ensures JoinedAt(a, b, merged, column, i)
    {
      var rb := Get(b, a[i].0).value;
      var j :| 0 <= j < |b| && b[j] == (a[i].0, rb);
      CombineLists(a[i].1, rb, column, ListAt(a[i].1, column), ListAt(rb, column));
    }
  }

  /**
   * Every SKU of A that B also has sits at A's position in `merged`, and
   * holds A's list under `column` followed by B's.
   */
  ghost predicate ListsJoined(a: Mapping, b: Mapping, merged: seq<Record>, column: string) {
    forall i :: 0 <= i < |a| && HasKey(b, a[i].0) ==> JoinedAt(a, b, merged, column, i)
  }

  ghost predicate JoinedAt(a: Mapping, b: Mapping, merged: seq<Record>, column: string, i: nat)
    requires i < |a| && HasKey(b, a[i].0)
  {
    && i < |merged|
    && HasList(a[i].1, column) && HasList(Get(b, a[i].0).value, column)
    && Get(merged[i], column) == Some(List(ListAt(a[i].1, column) + ListAt(Get(b, a[i].0).value, column)))
  }

  /** A SKU shared by A and B whose item in A lacks `column` makes the merge raise KeyError(column). */
  lemma MissingColumnFails(a: Mapping, b: Mapping, column: string, i: nat)
    requires i < |a| && HasKey(b, a[i].0)
    requires forall i' :: 0 <= i' < |a| ==> !HasKey(a[i'].1, column)
    ensures CompareBranchs(a, b, column) == Failure(KeyError(column))
  {
    assert !Emit(a[i], b, column).Success?;
    var i' := MergeAFirstFailure(a, b, column);
  }

  /** Without shared SKUs nothing is combined, whatever `column` is: A's items, then B's. */
  lemma DisjointConcatenates(a: Mapping, b: Mapping, column: string)
    requires forall i :: 0 <= i < |a| ==> !HasKey(b, a[i].0)
    ensures CompareBranchs(a, b, column) == Success(Values(a) + Values(b))
  {
    var m := MergeA(a, b, column);
    assert m.Success?;
    assert m.value == Values(a);
    LeftoverAll(a, b);
  }

  lemma {:induction false} LeftoverAll(a: Mapping, b: Mapping)
    requires forall i :: 0 <= i < |a| ==> !HasKey(b, a[i].0)
    ensures Leftover(a, b) == b
  {
    if b != [] {
      forall i | 0 <= i < |a| ensures a[i].0 != b[0].0 {
        assert !HasKey(b, a[i].0);
        assert b[0].0 != a[i].0;
      }
      assert forall i :: 0 <= i < |a| ==> !HasKey(b[1..], a[i].0) by {
        forall i, j | 0 <= i < |a| && 0 <= j < |b[1..]| ensures b[1..][j].0 != a[i].0 {
          assert b[1..][j] == b[j + 1];
        }
      }
      LeftoverAll(a, b[1..]);
    }
  }

  /**
   * The two-branch example: S1 in both mappings yields one item with
   * branch_products [p1, p2]; S2, only in B, is passed through.
   */
  lemma SharedSkuExample(p1: Value, p2: Value, item3: Record)
    ensures CompareBranchs([("S1", [("branch_products", List([p1]))])],
                           [("S1", [("branch_products", List([p2]))]), ("S2", item3)],
                           "branch_products")
            == Success([[("branch_products", List([p1, p2]))], item3])
  {
    var a: Mapping := [("S1", [("branch_products", List([p1]))])];
    var b: Mapping := [("S1", [("branch_products", List([p2]))]), ("S2", item3)];
    assert Get(b, "S1") == Some([("branch_products", List([p2]))]);
    assert [p1] + [p2] == [p1, p2];
    assert Add(List([p1]), List([p2])) == Some(List([p1, p2]));
    assert Put(a[0].1, "branch_products", List([p1, p2])) == [("branch_products", List([p1, p2]))];
    assert Emit(a[0], b, "branch_products") == Success([("branch_products", List([p1, p2]))]);
    assert MergeA(a[1..], b, "branch_products") == Success([]);
    assert !HasKey(a, "S2");
    assert Leftover(a, b[1..][1..]) == [];
    assert Leftover(a, b[1..]) == [("S2", item3)];
    assert Leftover(a, b) == [("S2", item3)];
    var merged: Record := [("branch_products", List([p1, p2]))];
    assert [merged] + [] == [merged];
    assert MergeA(a, b, "branch_products") == Success([merged]);
    assert Values(Leftover(a, b)) == [item3];
    assert [merged] + [item3] == [merged, item3];
    assert CompareBranchs(a, b, "branch_products") == Success([merged, item3]);
  }
}
