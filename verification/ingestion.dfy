/**
 * `Facade.main` from the merged table onwards: the split by branch, the
 * top 100 per branch, item validation into SKU-keyed mappings, the
 * cross-branch merge and the numbering of the items for dispatch. The
 * feeds, the configured branches and package units, and the merchant id
 * fetched from the catalog API are parameters.
 */
module Ingestion {
  import opened Wrappers
  import opened Dicts
  import opened Text
  import opened PyValues
  import opened Models
  import Tables
  import Package
  import Rows
  import Reconcile

  /** Why a run stops before dispatch: a constructor check, or an exception from a lookup or the merge. */
  datatype RunError = Invalid(reason: ValidationError) | Raised(error: PyError)

  /** The one `branch_products` entry of a row: its branch, price and stock. */
  function BranchFacts(row: Rows.PackagedRow): Value {
    Value.Dict([(Str("branch"), Str(row.branch)), (Str("price"), Int(row.price)), (Str("stock"), Int(row.stock))])
  }

  /**
   * The constructor arguments `_validate_items` passes for a row. A missing
   * package would be NaN, a float.
   */
  function BuildFields(row: Rows.PackagedRow, merchantId: Value): (f: Fields)
    ensures f.barcodes == List([Str(PyStr(row.ean))])
    ensures f.url == f.imageUrl == Str(row.image)
    ensures f.category == Str(row.categoryStream)
    ensures f.branchProducts == List([BranchFacts(row)])
    ensures f.package.Str? <==> row.package.Some?
  {
    Fields(
      merchantId, Str(PyStr(row.sku)), List([Str(PyStr(row.ean))]), Str(row.brand),
      Str(row.name), Str(row.description),
      match row.package case Some(p) => Str(p) case None => Float,
      Str(row.image), Str(row.categoryStream), Str(row.image),
      List([BranchFacts(row)]))
  }

  /**
   * The constructor call for a row: it succeeds exactly when the merchant
   * id is a string and the row has a package, and otherwise fails the
   * string-field check, since barcodes and branch facts are always valid.
   */
  function ItemOf(row: Rows.PackagedRow, merchantId: Value): (r: Result<IngestItem, ValidationError>)
    ensures r.Success? <==> merchantId.Str? && row.package.Some?
    ensures r.Failure? ==> r.error == NotStrings
  {
    var f := BuildFields(row, merchantId);
    assert f.barcodes.items[0].Str?;
    assert f.branchProducts.items[0].entries[0].0.Str?;
    assert IsScalar(f.branchProducts.items[0].entries[0].1);
    Validate(f)
  }

  /**
   * A row with a package and a string merchant id always yields an item:
   * its SKU and only barcode are the decimal SKU and EAN, `url` and
   * `image_url` are both the image link, `category` is CATEGORY_STREAM and
   * `branch_products` holds this row's branch facts alone.
   */
  lemma BuiltItem(row: Rows.PackagedRow, merchantId: Value)
    requires merchantId.Str? && row.package.Some?
    ensures ItemOf(row, merchantId).Success?
    ensures ItemOf(row, merchantId).value == IngestItem(
              merchantId.s, PyStr(row.sku), [Str(PyStr(row.ean))], Str(row.brand), row.name,
              row.description, row.package.value, row.image, row.categoryStream, row.image,
              [BranchFacts(row)])
    ensures ItemOf(row, merchantId).value.url == ItemOf(row, merchantId).value.imageUrl
  {
    var f := BuildFields(row, merchantId);
    assert f.barcodes.items[0].Str?;
    assert f.branchProducts.items[0].entries[0].0.Str?;
    assert IsScalar(f.branchProducts.items[0].entries[0].1);
  }

  /** A non-string merchant id, or a row without package, fails the string check. */
  lemma ItemNeedsStrings(row: Rows.PackagedRow, merchantId: Value)
    requires !merchantId.Str? || row.package.None?
    ensures ItemOf(row, merchantId) == Failure(NotStrings)
  {
    var f := BuildFields(row, merchantId);
    assert f.barcodes.items[0].Str?;
    assert f.branchProducts.items[0].entries[0].0.Str?;
    assert IsScalar(f.branchProducts.items[0].entries[0].1);
  }

  /**
   * The loop of `_validate_items` over any rows: each row is built into a
   * record stored under its key, a later row with the same key overwriting
   * the earlier record in its place. The first row whose build fails stops
   * the loop with that error.
   */
  function Collect<R, E>(rows: seq<R>, key: R -> string, build: R -> Result<Record, E>)
    : (r: Result<Reconcile.Mapping, E>)
    ensures r.Success? <==> forall i :: 0 <= i < |rows| ==> build(rows[i]).Success?
    ensures r.Failure? ==>
              exists i :: (0 <= i < |rows| && build(rows[i]) == Failure(r.error)
                           && forall i' :: 0 <= i' < i ==> build(rows[i']).Success?)
    decreases |rows|
  {
    if rows == [] then Success([])
    else
      var front := rows[..|rows| - 1];
      var last := rows[|rows| - 1];
      assert forall i :: 0 <= i < |front| ==> front[i] == rows[i];
      var items :- Collect(front, key, build);
      var item :- build(last);
      Success(Put(items, key(last), item))
  }

  /** One more row stores its record under its key in the mapping built so far. */
  lemma CollectStep<R, E>(rows: seq<R>, key: R -> string, build: R -> Result<Record, E>)
    requires rows != [] && Collect(rows, key, build).Success?
    ensures Collect(rows[..|rows| - 1], key, build).Success?
    ensures build(rows[|rows| - 1]).Success?
    ensures Collect(rows, key, build).value
            == Put(Collect(rows[..|rows| - 1], key, build).value, key(rows[|rows| - 1]),
                   build(rows[|rows| - 1]).value)
  {
    assert forall i :: 0 <= i < |rows| - 1 ==> rows[..|rows| - 1][i] == rows[i];
  }

  /** The mapping never holds a key twice. */
  lemma {:induction false} CollectWellFormed<R, E>(rows: seq<R>, key: R -> string, build: R -> Result<Record, E>)
    requires Collect(rows, key, build).Success?
    ensures WellFormed(Collect(rows, key, build).value)
    decreases |rows|
  {
    if rows != [] {
      var front := rows[..|rows| - 1];
      CollectStep(rows, key, build);
      CollectWellFormed(front, key, build);
      PutWellFormed(Collect(front, key, build).value, key(rows[|rows| - 1]), build(rows[|rows| - 1]).value);
    }
  }

  /** Some row has key `k`. */
  ghost predicate KeyIn<R>(rows: seq<R>, key: R -> string, k: string) {
    exists i :: 0 <= i < |rows| && key(rows[i]) == k
  }

  lemma KeyInFront<R>(rows: seq<R>, key: R -> string, k: string)
    requires rows != []
    ensures KeyIn(rows, key, k) <==> KeyIn(rows[..|rows| - 1], key, k) || k == key(rows[|rows| - 1])
  {
    var front := rows[..|rows| - 1];
    if KeyIn(front, key, k) {
      var i :| 0 <= i < |front| && key(front[i]) == k;
      assert rows[i] == front[i];
    }
    if KeyIn(rows, key, k) {
      var i :| 0 <= i < |rows| && key(rows[i]) == k;
      if i < |front| { assert front[i] == rows[i]; }
    }
  }

  /** Its keys are exactly the keys of the rows. */
  lemma {:induction false} CollectKeys<R, E>(rows: seq<R>, key: R -> string, build: R -> Result<Record, E>)
    requires Collect(rows, key, build).Success?
    ensures forall k :: HasKey(Collect(rows, key, build).value, k) <==> KeyIn(rows, key, k)
    decreases |rows|
  {
    if rows != [] {
      var front := rows[..|rows| - 1];
      CollectStep(rows, key, build);
      CollectKeys(front, key, build);
      var items := Collect(front, key, build).value;
      var k0 := key(rows[|rows| - 1]);
      forall k ensures HasKey(Collect(rows, key, build).value, k) <==> KeyIn(rows, key, k) {
        PutKeys(items, k0, build(rows[|rows| - 1]).value, k);
        KeyInFront(rows, key, k);
      }
    }
  }

  lemma PutKeys<V>(d: Dict<string, V>, k0: string, v: V, k: string)
    ensures HasKey(Put(d, k0, v), k) <==> HasKey(d, k) || k == k0
  {
    var r := Put(d, k0, v);
    if HasKey(d, k) {
      var i :| 0 <= i < |d| && d[i].0 == k;
      assert r[i].0 == k;
    }
    if HasKey(d, k0) {
      var i :| 0 <= i < |d| && d[i].0 == k0;
      assert r[i].0 == k0;
    } else {
      assert r[|d|].0 == k0;
    }
    if HasKey(r, k) {
      var i :| 0 <= i < |r| && r[i].0 == k;
      if i < |d| { assert d[i].0 == k; }
    }
  }

  /** Some row builds into `v`. */
  ghost predicate BuiltFrom<R, E>(rows: seq<R>, build: R -> Result<Record, E>, v: Record) {
    exists j :: 0 <= j < |rows| && build(rows[j]) == Success(v)
  }

  /** Every stored record is built from some row. */
  lemma {:induction false} CollectValues<R, E>(rows: seq<R>, key: R -> string, build: R -> Result<Record, E>)
    requires Collect(rows, key, build).Success?
    ensures forall i :: 0 <= i < |Collect(rows, key, build).value| ==>
              BuiltFrom(rows, build, Collect(rows, key, build).value[i].1)
    decreases |rows|
  {
    if rows != [] {
      var front := rows[..|rows| - 1];
      var last := rows[|rows| - 1];
      CollectStep(rows, key, build);
      CollectValues(front, key, build);
      CollectWellFormed(front, key, build);
      var items := Collect(front, key, build).value;
      var r := Collect(rows, key, build).value;
      forall i | 0 <= i < |r| ensures BuiltFrom(rows, build, r[i].1) {
        if i < |items| && items[i].0 != key(last) {
          assert r[i] == items[i];
          var j :| 0 <= j < |front| && build(front[j]) == Success(items[i].1);
          assert front[j] == rows[j];
        } else if i < |items| {
          assert r[i].1 == build(last).value;
        } else {
          assert r == items + [(key(last), build(last).value)];
          assert r[i].1 == build(last).value;
        }
      }
    }
  }

  /** The record stored for a key is built from the last row carrying it. */
  lemma {:induction false} CollectLastWins<R, E>(rows: seq<R>, key: R -> string, build: R -> Result<Record, E>, i: nat)
    requires Collect(rows, key, build).Success?
    requires i < |rows|
    requires forall j :: i < j < |rows| ==> key(rows[j]) != key(rows[i])
    ensures build(rows[i]).Success?
    ensures Get(Collect(rows, key, build).value, key(rows[i])) == Some(build(rows[i]).value)
    decreases |rows|
  {
    var front := rows[..|rows| - 1];
    var last := rows[|rows| - 1];
    CollectStep(rows, key, build);
    CollectWellFormed(front, key, build);
    var items := Collect(front, key, build).value;
    var v := build(last).value;
    PutWellFormed(items, key(last), v);
    assert Collect(rows, key, build).value == Put(items, key(last), v);
    if i < |rows| - 1 {
      assert front[i] == rows[i];
      assert forall j :: i < j < |front| ==> key(front[j]) != key(front[i]) by {
        forall j | i < j < |front| ensures key(front[j]) != key(front[i]) {
          assert front[j] == rows[j];
        }
      }
      CollectLastWins(front, key, build, i);
      assert key(last) != key(rows[i]);
      assert Get(Put(items, key(last), v), key(rows[i])) == Get(items, key(rows[i]));
    } else {
      assert rows[i] == last;
    }
  }

  /** The key `_validate_items` stores a row under. */
  function SkuKey(row: Rows.PackagedRow): string {
    PyStr(row.sku)
  }

  /** A row's item, as the `__dict__` the mapping stores. */
  function ItemDict(row: Rows.PackagedRow, merchantId: Value): Result<Record, ValidationError> {
    match ItemOf(row, merchantId)
    case Success(item) => Success(InstanceDict(item))
    case Failure(e) => Failure(e)
  }

  function ItemBuilder(merchantId: Value): Rows.PackagedRow -> Result<Record, ValidationError> {
    (row: Rows.PackagedRow) => ItemDict(row, merchantId)
  }

  /**
   * `_validate_items`: rows in order, each built into an item stored under
   * `str(SKU)`. The first row that fails a check stops the loop.
   */
  function ValidateItems(rows: seq<Rows.PackagedRow>, merchantId: Value): (r: Result<Reconcile.Mapping, ValidationError>)
    ensures r.Success? <==> forall i :: 0 <= i < |rows| ==> ItemOf(rows[i], merchantId).Success?
    ensures r.Failure? ==>
              exists i :: (0 <= i < |rows| && ItemOf(rows[i], merchantId) == Failure(r.error)
                           && forall i' :: 0 <= i' < i ==> ItemOf(rows[i'], merchantId).Success?)
  {
    Collect(rows, SkuKey, ItemBuilder(merchantId))
  }

  /** The mapping never holds a SKU twice. */
  lemma ValidateItemsWellFormed(rows: seq<Rows.PackagedRow>, merchantId: Value)
    requires ValidateItems(rows, merchantId).Success?
    ensures WellFormed(ValidateItems(rows, merchantId).value)
  {
    CollectWellFormed(rows, SkuKey, ItemBuilder(merchantId));
  }

  /** Some row has SKU string `k`. */
  ghost predicate SkuIn(rows: seq<Rows.PackagedRow>, k: string) {
    KeyIn(rows, SkuKey, k)
  }

  /** Its keys are exactly the SKU strings of the rows. */
  lemma ValidateItemsKeys(rows: seq<Rows.PackagedRow>, merchantId: Value)
    requires ValidateItems(rows, merchantId).Success?
    ensures forall k :: HasKey(ValidateItems(rows, merchantId).value, k) <==> SkuIn(rows, k)
  {
    CollectKeys(rows, SkuKey, ItemBuilder(merchantId));
  }

  /** Every stored value is the `__dict__` of a built item. */
  lemma ValidateItemsDicts(rows: seq<Rows.PackagedRow>, merchantId: Value)
    requires ValidateItems(rows, merchantId).Success?
    ensures forall i :: 0 <= i < |ValidateItems(rows, merchantId).value| ==>
              exists item :: ValidateItems(rows, merchantId).value[i].1 == InstanceDict(item)
  {
    var build := ItemBuilder(merchantId);
    var r := ValidateItems(rows, merchantId).value;
    CollectValues(rows, SkuKey, build);
    forall i | 0 <= i < |r| ensures exists item :: r[i].1 == InstanceDict(item) {
      assert BuiltFrom(rows, build, r[i].1);
      var j :| 0 <= j < |rows| && build(rows[j]) == Success(r[i].1);
      assert r[i].1 == InstanceDict(ItemOf(rows[j], merchantId).value);
    }
  }

  /**
   * A later row with the same SKU overwrites the earlier one: the item
   * stored for a SKU is built from the last row carrying it.
   */
  lemma ValidateItemsLastWins(rows: seq<Rows.PackagedRow>, merchantId: Value, i: nat)
    requires ValidateItems(rows, merchantId).Success?
    requires i < |rows|
    requires forall j :: i < j < |rows| ==> rows[j].sku != rows[i].sku
    ensures ItemOf(rows[i], merchantId).Success?
    ensures Get(ValidateItems(rows, merchantId).value, PyStr(rows[i].sku))
            == Some(InstanceDict(ItemOf(rows[i], merchantId).value))
  {
    forall j | i < j < |rows| ensures SkuKey(rows[j]) != SkuKey(rows[i]) {
      if SkuKey(rows[j]) == SkuKey(rows[i]) { PyStrInjective(rows[j].sku, rows[i].sku); }
    }
    CollectLastWins(rows, SkuKey, ItemBuilder(merchantId), i);
  }

  /** `_top_100_most_expensive_products`. */
  function Top100(t: seq<Rows.PackagedRow>): (r: seq<Rows.PackagedRow>)
    ensures |r| == Tables.Min(100, |t|)
    ensures Tables.SortedDesc(r, Rows.PackagedPrice)
    ensures multiset(r) <= multiset(t)
    ensures forall x, y :: x in multiset(t) - multiset(r) && y in r ==> x.price <= y.price
  {
    Tables.TopN(t, Rows.PackagedPrice, 100)
  }

  /** `enumerate(items, start=start)`. */
  function Enumerate(items: seq<Record>, start: nat): (r: seq<(nat, Record)>)
    ensures |r| == |items|
    ensures forall i :: 0 <= i < |items| ==> r[i] == (start + i, items[i])
  {
    if items == [] then []
    else [(start, items[0])] + Enumerate(items[1..], start + 1)
  }

  /** The items are numbered 1, 2, 3, ... in list order. */
  predicate NumberedFromOne(items: seq<(nat, Record)>) {
    forall i :: 0 <= i < |items| ==> items[i].0 == i + 1
  }

  /** The top-100 rows of one branch of a table. */
  function BranchTop(table: seq<Rows.PackagedRow>, branch: string): seq<Rows.PackagedRow> {
    Top100(Tables.RowsOf(table, Rows.PackagedBranch, branch))
  }

  /** The validated top-100 mapping of one branch of a table. */
  function BranchItems(table: seq<Rows.PackagedRow>, branch: string, merchantId: Value)
    : Result<Reconcile.Mapping, ValidationError>
  {
    ValidateItems(BranchTop(table, branch), merchantId)
  }

  /**
   * `Facade.main` from the prepared table on, with the list field handed to
   * the reconciler as `column`: the table is split by the configured
   * branches; the parts for `MM` and `RHSM` are looked up (KeyError when
   * either is not configured), cut to their top 100, validated, merged,
   * and numbered from 1.
   */
  function RunOn(table: seq<Rows.PackagedRow>, branches: seq<string>, merchantId: Value, column: string)
    : (r: Result<seq<(nat, Record)>, RunError>)
    ensures "MM" !in branches ==> r == Failure(Raised(KeyError("MM")))
    ensures "MM" in branches && "RHSM" !in branches ==> r == Failure(Raised(KeyError("RHSM")))
    ensures r.Success? ==> NumberedFromOne(r.value)
  {
    var parts := Tables.SeparateBy(table, Rows.PackagedBranch, branches);
    assert "MM" in branches ==> Get(parts, "MM").Some?;
    match (Get(parts, "MM"), Get(parts, "RHSM"))
    case (None, _) => Failure(Raised(KeyError("MM")))
    case (_, None) => Failure(Raised(KeyError("RHSM")))
    case (Some(mm), Some(rhsm)) => RunBranches(mm, rhsm, merchantId, column)
  }

  /** The two looked-up parts cut to their top 100, validated, merged and numbered. */
  function RunBranches(mm: seq<Rows.PackagedRow>, rhsm: seq<Rows.PackagedRow>, merchantId: Value, column: string)
    : (r: Result<seq<(nat, Record)>, RunError>)
    ensures r.Success? ==> ValidateItems(Top100(mm), merchantId).Success?
    ensures r.Success? ==> ValidateItems(Top100(rhsm), merchantId).Success?
    ensures r.Failure? && r.error.Raised? ==>
              ValidateItems(Top100(mm), merchantId).Success? && ValidateItems(Top100(rhsm), merchantId).Success?
    ensures r.Success? ==> NumberedFromOne(r.value)
  {
    match (ValidateItems(Top100(mm), merchantId), ValidateItems(Top100(rhsm), merchantId))
    case (Failure(e), _) => Failure(Invalid(e))
    case (_, Failure(e)) => Failure(Invalid(e))
    case (Success(mmItems), Success(rhsmItems)) => MergeAndNumber(mmItems, rhsmItems, column)
  }

  /** The two validated mappings merged on `column` and numbered from 1. */
  function MergeAndNumber(a: Reconcile.Mapping, b: Reconcile.Mapping, column: string)
    : (r: Result<seq<(nat, Record)>, RunError>)
    ensures r.Success? <==> Reconcile.CompareBranchs(a, b, column).Success?
    ensures r.Failure? ==> r.error == Raised(Reconcile.CompareBranchs(a, b, column).error)
    ensures r.Success? ==> |r.value| == |Reconcile.CompareBranchs(a, b, column).value|
    ensures r.Success? ==> forall i :: 0 <= i < |r.value| ==>
              r.value[i] == (i + 1, Reconcile.CompareBranchs(a, b, column).value[i])
    ensures r.Success? ==> NumberedFromOne(r.value)
  {
    match Reconcile.CompareBranchs(a, b, column)
    case Failure(e) => Failure(Raised(e))
    case Success(items) => Success(Enumerate(items, 1))
  }

  /** `Facade.main` up to dispatch: the CSV stages, then the run on their table. */
  function Run(products: seq<Rows.ProductRow>, stock: seq<Rows.StockRow>, branches: seq<string>,
               units: seq<string>, merchantId: Value, column: string): (r: Result<seq<(nat, Record)>, RunError>)
    requires Package.ValidUnits(units)
    ensures "MM" !in branches ==> r == Failure(Raised(KeyError("MM")))
    ensures "MM" in branches && "RHSM" !in branches ==> r == Failure(Raised(KeyError("RHSM")))
    ensures r.Success? ==> NumberedFromOne(r.value)
  {
    RunOn(Rows.PrepareTable(products, stock, branches, units), branches, merchantId, column)
  }

  /** The code as written: the reconciler is given the column name `BRANCH`. */
  function MainAsWritten(products: seq<Rows.ProductRow>, stock: seq<Rows.StockRow>, branches: seq<string>,
                         units: seq<string>, merchantId: Value): (r: Result<seq<(nat, Record)>, RunError>)
    requires Package.ValidUnits(units)
    ensures "MM" !in branches ==> r == Failure(Raised(KeyError("MM")))
    ensures "MM" in branches && "RHSM" !in branches ==> r == Failure(Raised(KeyError("RHSM")))
    ensures r.Success? ==> NumberedFromOne(r.value)
  {
    Run(products, stock, branches, units, merchantId, "BRANCH")
  }

  /** As intended: the reconciler concatenates the `branch_products` lists. */
  function Main(products: seq<Rows.ProductRow>, stock: seq<Rows.StockRow>, branches: seq<string>,
                units: seq<string>, merchantId: Value): (r: Result<seq<(nat, Record)>, RunError>)
    requires Package.ValidUnits(units)
    ensures "MM" !in branches ==> r == Failure(Raised(KeyError("MM")))
    ensures "MM" in branches && "RHSM" !in branches ==> r == Failure(Raised(KeyError("RHSM")))
    ensures r.Success? ==> NumberedFromOne(r.value)
  {
    Run(products, stock, branches, units, merchantId, "branch_products")
  }

  /** Rows that all carry a package validate under a string merchant id. */
  lemma ValidateItemsSucceed(rows: seq<Rows.PackagedRow>, merchantId: Value)
    requires merchantId.Str?
    requires forall i :: 0 <= i < |rows| ==> rows[i].package.Some?
    ensures ValidateItems(rows, merchantId).Success?
  {
    forall i | 0 <= i < |rows| ensures ItemOf(rows[i], merchantId).Success? {
      BuiltItem(rows[i], merchantId);
    }
  }

  /** After the NaN fill every row of a branch's top 100 carries a package. */
  lemma TopRowsHavePackages(products: seq<Rows.ProductRow>, stock: seq<Rows.StockRow>, branches: seq<string>,
                            units: seq<string>, branch: string)
    requires Package.ValidUnits(units)
    ensures forall x :: x in BranchTop(Rows.PrepareTable(products, stock, branches, units), branch)
              ==> x.package.Some?
  {
    var table := Rows.PrepareTable(products, stock, branches, units);
    Rows.PreparedHavePackages(products, stock, branches, units);
    TopRowsFrom(table, branch);
  }

  /** A row of a branch's top 100 is a row of the table. */
  lemma TopRowsFrom(table: seq<Rows.PackagedRow>, branch: string)
    ensures forall x :: x in BranchTop(table, branch) ==> x in table
  {
    var part := Tables.RowsOf(table, Rows.PackagedBranch, branch);
    forall x | x in Top100(part) ensures x in table {
      assert multiset(Top100(part))[x] > 0;
      assert multiset(part)[x] > 0;
    }
  }

  /** Without `MM` among the configured branches the run raises KeyError('MM'). */
  lemma RunNeedsMM(table: seq<Rows.PackagedRow>, branches: seq<string>, merchantId: Value, column: string)
    requires "MM" !in branches
    ensures RunOn(table, branches, merchantId, column) == Failure(Raised(KeyError("MM")))
  {
    assert Get(Tables.SeparateBy(table, Rows.PackagedBranch, branches), "MM") == None;
  }

  /** With `MM` but without `RHSM` it raises KeyError('RHSM'). */
  lemma RunNeedsRHSM(table: seq<Rows.PackagedRow>, branches: seq<string>, merchantId: Value, column: string)
    requires "MM" in branches && "RHSM" !in branches
    ensures RunOn(table, branches, merchantId, column) == Failure(Raised(KeyError("RHSM")))
  {
    var parts := Tables.SeparateBy(table, Rows.PackagedBranch, branches);
    assert Get(parts, "MM") == Some(Tables.RowsOf(table, Rows.PackagedBranch, "MM"));
    assert Get(parts, "RHSM") == None;
  }

  /** A merchant id that is not a string fails validation as soon as MM has a row. */
  lemma RunRejectsMerchantId(table: seq<Rows.PackagedRow>, branches: seq<string>, merchantId: Value, column: string)
    requires "MM" in branches && "RHSM" in branches && !merchantId.Str?
    requires Tables.RowsOf(table, Rows.PackagedBranch, "MM") != []
    ensures RunOn(table, branches, merchantId, column) == Failure(Invalid(NotStrings))
  {
    var parts := Tables.SeparateBy(table, Rows.PackagedBranch, branches);
    var top := BranchTop(table, "MM");
    assert Get(parts, "MM") == Some(Tables.RowsOf(table, Rows.PackagedBranch, "MM"));
    assert Get(parts, "RHSM").Some?;
    assert |top| > 0;
    ItemNeedsStrings(top[0], merchantId);
    var e := ValidateItems(top, merchantId);
    assert e.Failure?;
    var i :| 0 <= i < |top| && ItemOf(top[i], merchantId) == Failure(e.error);
    ItemNeedsStrings(top[i], merchantId);
    assert e == Failure(NotStrings);
  }

  /**
   * With both branches configured and a string merchant id the intended
   * run always succeeds: its items are the merge of the MM mapping `a`
   * and the RHSM mapping `b`, numbered from 1.
   */
  lemma MainSucceeds(products: seq<Rows.ProductRow>, stock: seq<Rows.StockRow>, branches: seq<string>,
                     units: seq<string>, merchantId: Value)
      returns (a: Reconcile.Mapping, b: Reconcile.Mapping)
    requires Package.ValidUnits(units)
    requires "MM" in branches && "RHSM" in branches && merchantId.Str?
    ensures BranchItems(Rows.PrepareTable(products, stock, branches, units), "MM", merchantId) == Success(a)
    ensures BranchItems(Rows.PrepareTable(products, stock, branches, units), "RHSM", merchantId) == Success(b)
    ensures WellFormed(a) && WellFormed(b)
    ensures forall i :: 0 <= i < |a| ==> WellFormed(a[i].1)
    ensures forall i :: 0 <= i < |a| ==>
              Reconcile.HasList(a[i].1, "branch_products")
    ensures forall j :: 0 <= j < |b| ==>
              Reconcile.HasList(b[j].1, "branch_products")
    ensures Reconcile.CompareBranchs(a, b, "branch_products").Success?
    ensures Main(products, stock, branches, units, merchantId)
            == Success(Enumerate(Reconcile.CompareBranchs(a, b, "branch_products").value, 1))
  {
    var table := Rows.PrepareTable(products, stock, branches, units);
    Rows.PreparedHavePackages(products, stock, branches, units);
    a, b := BranchesValidate(table, branches, merchantId);
    ListColumns(BranchTop(table, "MM"), merchantId);
    ListColumns(BranchTop(table, "RHSM"), merchantId);
    ValidateItemsWellFormed(BranchTop(table, "MM"), merchantId);
    ValidateItemsWellFormed(BranchTop(table, "RHSM"), merchantId);
    Reconcile.ListColumnsMerge(a, b, "branch_products");
  }

  /**
   * The intended run yields one item per SKU of either branch, numbered
   * from 1 in list order, and a SKU in both keeps MM's `branch_products`
   * entries followed by RHSM's.
   */
  lemma MainMergesBranches(products: seq<Rows.ProductRow>, stock: seq<Rows.StockRow>, branches: seq<string>,
                           units: seq<string>, merchantId: Value)
      returns (a: Reconcile.Mapping, b: Reconcile.Mapping, merged: seq<Record>, items: seq<(nat, Record)>)
    requires Package.ValidUnits(units)
    requires "MM" in branches && "RHSM" in branches && merchantId.Str?
    ensures BranchItems(Rows.PrepareTable(products, stock, branches, units), "MM", merchantId) == Success(a)
    ensures BranchItems(Rows.PrepareTable(products, stock, branches, units), "RHSM", merchantId) == Success(b)
    ensures Main(products, stock, branches, units, merchantId) == Success(items)
    ensures |merged| == |KeySet(a) + KeySet(b)| && |merged| >= |a|
    ensures |items| == |merged| && forall i :: 0 <= i < |items| ==> items[i] == (i + 1, merged[i])
    ensures Reconcile.ListsJoined(a, b, merged, "branch_products")
  {
    a, b := MainSucceeds(products, stock, branches, units, merchantId);
    merged, items := NumberedMerge(a, b);
  }

  lemma NumberedMerge(a: Reconcile.Mapping, b: Reconcile.Mapping) returns (merged: seq<Record>, items: seq<(nat, Record)>)
    requires WellFormed(a) && WellFormed(b)
    requires forall i :: 0 <= i < |a| ==> WellFormed(a[i].1)
    requires forall i :: 0 <= i < |a| ==> Reconcile.HasList(a[i].1, "branch_products")
    requires forall j :: 0 <= j < |b| ==> Reconcile.HasList(b[j].1, "branch_products")
    ensures Reconcile.CompareBranchs(a, b, "branch_products") == Success(merged)
    ensures items == Enumerate(merged, 1)
    ensures |merged| == |KeySet(a) + KeySet(b)| && |merged| >= |a|
    ensures |items| == |merged| && forall i :: 0 <= i < |items| ==> items[i] == (i + 1, merged[i])
    ensures Reconcile.ListsJoined(a, b, merged, "branch_products")
  {
    Reconcile.ListsConcatenate(a, b, "branch_products");
    merged := Reconcile.CompareBranchs(a, b, "branch_products").value;
    items := Enumerate(merged, 1);
  }

  /**
   * On a table whose rows all carry a package, both branch mappings
   * validate under a string merchant id, and the run is their merge.
   */
  lemma BranchesValidate(table: seq<Rows.PackagedRow>, branches: seq<string>, merchantId: Value)
      returns (a: Reconcile.Mapping, b: Reconcile.Mapping)
    requires "MM" in branches && "RHSM" in branches && merchantId.Str?
    requires forall x :: x in table ==> x.package.Some?
    ensures BranchItems(table, "MM", merchantId) == Success(a)
    ensures BranchItems(table, "RHSM", merchantId) == Success(b)
    ensures forall column :: RunOn(table, branches, merchantId, column) == MergeAndNumber(a, b, column)
  {
    var mm := BranchTop(table, "MM");
    var rhsm := BranchTop(table, "RHSM");
    TopRowsFrom(table, "MM");
    TopRowsFrom(table, "RHSM");
    assert forall i :: 0 <= i < |mm| ==> mm[i].package.Some? by {
      forall i | 0 <= i < |mm| ensures mm[i].package.Some? { assert mm[i] in mm; }
    }
    assert forall i :: 0 <= i < |rhsm| ==> rhsm[i].package.Some? by {
      forall i | 0 <= i < |rhsm| ensures rhsm[i].package.Some? { assert rhsm[i] in rhsm; }
    }
    ValidateItemsSucceed(mm, merchantId);
    ValidateItemsSucceed(rhsm, merchantId);
    a := ValidateItems(mm, merchantId).value;
    b := ValidateItems(rhsm, merchantId).value;
    forall column ensures RunOn(table, branches, merchantId, column) == MergeAndNumber(a, b, column) {
      RunOnBothBranches(table, branches, merchantId, column);
    }
  }

  /** With both branches configured the run goes on to their parts. */
  lemma RunOnBothBranches(table: seq<Rows.PackagedRow>, branches: seq<string>, merchantId: Value, column: string)
    requires "MM" in branches && "RHSM" in branches
    ensures RunOn(table, branches, merchantId, column)
            == RunBranches(Tables.RowsOf(table, Rows.PackagedBranch, "MM"),
                           Tables.RowsOf(table, Rows.PackagedBranch, "RHSM"), merchantId, column)
  {
    var parts := Tables.SeparateBy(table, Rows.PackagedBranch, branches);
    assert Get(parts, "MM") == Some(Tables.RowsOf(table, Rows.PackagedBranch, "MM"));
    assert Get(parts, "RHSM") == Some(Tables.RowsOf(table, Rows.PackagedBranch, "RHSM"));
  }

  /** Every stored item dict holds a list under `branch_products` and has no `BRANCH` key. */
  lemma ListColumns(rows: seq<Rows.PackagedRow>, merchantId: Value)
    requires ValidateItems(rows, merchantId).Success?
    ensures forall i :: 0 <= i < |ValidateItems(rows, merchantId).value| ==>
              Reconcile.HasList(ValidateItems(rows, merchantId).value[i].1, "branch_products")
              && !HasKey(ValidateItems(rows, merchantId).value[i].1, "BRANCH")
              && WellFormed(ValidateItems(rows, merchantId).value[i].1)
  {
    ValidateItemsDicts(rows, merchantId);
    var d := ValidateItems(rows, merchantId).value;
    forall i | 0 <= i < |d|
      ensures Reconcile.HasList(d[i].1, "branch_products")
      ensures !HasKey(d[i].1, "BRANCH") && WellFormed(d[i].1)
    {
      var item :| d[i].1 == InstanceDict(item);
      InstanceDictKeys(item);
    }
  }

  /** Some SKU is among the top 100 of both MM and RHSM. */
  ghost predicate SharesSku(table: seq<Rows.PackagedRow>) {
    exists i, j :: 0 <= i < |BranchTop(table, "MM")| && 0 <= j < |BranchTop(table, "RHSM")|
      && BranchTop(table, "MM")[i].sku == BranchTop(table, "RHSM")[j].sku
  }

  /**
   * The code as written raises KeyError('BRANCH') as soon as one SKU is in
   * the top 100 of both branches: the item dicts have no `BRANCH` key.
   */
  lemma AsWrittenFailsOnSharedSku(products: seq<Rows.ProductRow>, stock: seq<Rows.StockRow>,
                                  branches: seq<string>, units: seq<string>, merchantId: Value)
    requires Package.ValidUnits(units)
    requires "MM" in branches && "RHSM" in branches && merchantId.Str?
    requires SharesSku(Rows.PrepareTable(products, stock, branches, units))
    ensures MainAsWritten(products, stock, branches, units, merchantId) == Failure(Raised(KeyError("BRANCH")))
  {
    var table := Rows.PrepareTable(products, stock, branches, units);
    Rows.PreparedHavePackages(products, stock, branches, units);
    var a, b := BranchesValidate(table, branches, merchantId);
    var i, j :| 0 <= i < |BranchTop(table, "MM")| && 0 <= j < |BranchTop(table, "RHSM")|
                && BranchTop(table, "MM")[i].sku == BranchTop(table, "RHSM")[j].sku;
    SharedSkuFails(BranchTop(table, "MM"), BranchTop(table, "RHSM"), a, b, merchantId, i, j);
  }

  /** Two validated mappings whose rows share a SKU cannot be merged on `BRANCH`. */
  lemma SharedSkuFails(mm: seq<Rows.PackagedRow>, rhsm: seq<Rows.PackagedRow>, a: Reconcile.Mapping,
                       b: Reconcile.Mapping, merchantId: Value, i: nat, j: nat)
    requires ValidateItems(mm, merchantId) == Success(a)
    requires ValidateItems(rhsm, merchantId) == Success(b)
    requires i < |mm| && j < |rhsm| && mm[i].sku == rhsm[j].sku
    ensures Reconcile.CompareBranchs(a, b, "BRANCH") == Failure(KeyError("BRANCH"))
  {
    ValidateItemsKeys(mm, merchantId);
    ValidateItemsKeys(rhsm, merchantId);
    ListColumns(mm, merchantId);
    var k := SkuKey(mm[i]);
    assert SkuKey(rhsm[j]) == k;
    assert SkuIn(mm, k) && SkuIn(rhsm, k);
    assert HasKey(a, k) && HasKey(b, k);
    var n :| 0 <= n < |a| && a[n].0 == k;
    assert forall i' :: 0 <= i' < |a| ==> !HasKey(a[i'].1, "BRANCH");
    Reconcile.MissingColumnFails(a, b, "BRANCH", n);
  }

  /**
   * Without a SKU in both top-100 lists the column name does not matter:
   * the code as written and the intended code agree.
   */
  lemma AsWrittenAgreesWithoutSharedSku(products: seq<Rows.ProductRow>, stock: seq<Rows.StockRow>,
                                        branches: seq<string>, units: seq<string>, merchantId: Value)
    requires Package.ValidUnits(units)
    requires "MM" in branches && "RHSM" in branches && merchantId.Str?
    requires !SharesSku(Rows.PrepareTable(products, stock, branches, units))
    ensures MainAsWritten(products, stock, branches, units, merchantId)
            == Main(products, stock, branches, units, merchantId)
  {
    Rows.PreparedHavePackages(products, stock, branches, units);
    AgreeOnTable(Rows.PrepareTable(products, stock, branches, units), branches, merchantId);
  }

  /** On a prepared table sharing no top-100 SKU, the two column names give the same run. */
  lemma AgreeOnTable(table: seq<Rows.PackagedRow>, branches: seq<string>, merchantId: Value)
    requires "MM" in branches && "RHSM" in branches && merchantId.Str?
    requires forall x :: x in table ==> x.package.Some?
    requires !SharesSku(table)
    ensures RunOn(table, branches, merchantId, "BRANCH") == RunOn(table, branches, merchantId, "branch_products")
  {
    var a, b := BranchesValidate(table, branches, merchantId);
    var mm, rhsm := BranchTop(table, "MM"), BranchTop(table, "RHSM");
    assert forall i, j :: 0 <= i < |mm| && 0 <= j < |rhsm| ==> mm[i].sku != rhsm[j].sku;
    NoSharedSku(mm, rhsm, a, b, merchantId);
    Reconcile.DisjointConcatenates(a, b, "BRANCH");
    Reconcile.DisjointConcatenates(a, b, "branch_products");
    SameMergeSameRun(a, b, "BRANCH", "branch_products");
  }

  /** Two columns on which the merge gives the same result give the same numbered run. */
  lemma SameMergeSameRun(a: Reconcile.Mapping, b: Reconcile.Mapping, c1: string, c2: string)
    requires Reconcile.CompareBranchs(a, b, c1) == Reconcile.CompareBranchs(a, b, c2)
    ensures MergeAndNumber(a, b, c1) == MergeAndNumber(a, b, c2)
  {
  }

  /** Two validated mappings whose rows share no SKU share no key. */
  lemma NoSharedSku(mm: seq<Rows.PackagedRow>, rhsm: seq<Rows.PackagedRow>, a: Reconcile.Mapping,
                    b: Reconcile.Mapping, merchantId: Value)
    requires ValidateItems(mm, merchantId) == Success(a)
    requires ValidateItems(rhsm, merchantId) == Success(b)
    requires forall i, j :: 0 <= i < |mm| && 0 <= j < |rhsm| ==> mm[i].sku != rhsm[j].sku
    ensures forall n :: 0 <= n < |a| ==> !HasKey(b, a[n].0)
  {
    ValidateItemsKeys(mm, merchantId);
    ValidateItemsKeys(rhsm, merchantId);
    forall n | 0 <= n < |a| ensures !HasKey(b, a[n].0) {
      assert HasKey(a, a[n].0);
      assert SkuIn(mm, a[n].0);
      var i :| 0 <= i < |mm| && PyStr(mm[i].sku) == a[n].0;
      forall j | 0 <= j < |rhsm| ensures PyStr(rhsm[j].sku) != a[n].0 {
        assert mm[i].sku != rhsm[j].sku;
        if PyStr(rhsm[j].sku) == a[n].0 { PyStrInjective(rhsm[j].sku, mm[i].sku); }
      }
      assert !SkuIn(rhsm, a[n].0);
    }
  }

  /**
   * Two single-row branch mappings with the same SKU merge into one item:
   * the first row's item, with the branch facts of both rows, first row
   * first.
   */
  lemma SameSkuMerges(x: Rows.PackagedRow, y: Rows.PackagedRow, merchantId: Value)
    requires x.sku == y.sku && merchantId.Str? && x.package.Some? && y.package.Some?
    ensures ValidateItems([x], merchantId).Success? && ValidateItems([y], merchantId).Success?
    ensures Reconcile.CompareBranchs(ValidateItems([x], merchantId).value, ValidateItems([y], merchantId).value,
                                     "branch_products")
            == Success([InstanceDict(ItemOf(x, merchantId).value.(branchProducts := [BranchFacts(x), BranchFacts(y)]))])
  {
    var a := SingleRow(x, merchantId);
    var b := SingleRow(y, merchantId);
    var ix := ItemOf(x, merchantId).value;
    var iy := ItemOf(y, merchantId).value;
    CombineSingle(ix, iy, BranchFacts(x), BranchFacts(y));
    Reconcile.MergeSameSku(PyStr(x.sku), InstanceDict(ix), InstanceDict(iy), "branch_products");
  }

  /** A single valid row makes a one-entry mapping. */
  lemma SingleRow(x: Rows.PackagedRow, merchantId: Value) returns (a: Reconcile.Mapping)
    requires merchantId.Str? && x.package.Some?
    ensures ItemOf(x, merchantId).Success?
    ensures a == [(PyStr(x.sku), InstanceDict(ItemOf(x, merchantId).value))]
    ensures ValidateItems([x], merchantId) == Success(a)
    ensures ItemOf(x, merchantId).value.branchProducts == [BranchFacts(x)]
  {
    BuiltItem(x, merchantId);
    a := [(PyStr(x.sku), InstanceDict(ItemOf(x, merchantId).value))];
    var build := ItemBuilder(merchantId);
    assert [x][..0] == [];
    assert Collect([x][..0], SkuKey, build) == Success([]);
    assert build(x) == Success(InstanceDict(ItemOf(x, merchantId).value));
    assert Collect([x], SkuKey, build) == Success(Put([], SkuKey(x), build(x).value));
  }

  /** Combining two item dicts with one branch entry each. */
  lemma CombineSingle(ix: IngestItem, iy: IngestItem, p: Value, q: Value)
    requires ix.branchProducts == [p] && iy.branchProducts == [q]
    ensures Reconcile.Combine(InstanceDict(ix), InstanceDict(iy), "branch_products")
            == Success(InstanceDict(ix.(branchProducts := [p, q])))
  {
    InstanceDictKeys(ix);
    InstanceDictKeys(iy);
    assert [p] + [q] == [p, q];
    assert Add(List([p]), List([q])) == Some(List([p, q]));
    PutBranchProducts(ix, [p, q]);
  }
}
