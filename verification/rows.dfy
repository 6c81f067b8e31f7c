/**
 * The two feeds and the table stages of the CSV half of the pipeline
 * (`PandasOperations` as `Facade.main` drives it), on rows that hold only
 * the columns the pipeline reads. Each stage returns a new table; a row
 * type per stage records which columns exist at that point.
 */
module Rows {
  import opened Wrappers
  import opened Text
  import Tables
  import Tags
  import Package

  /** A row of the products feed. */
  datatype ProductRow = ProductRow(
    sku: int, ean: int, brand: string, name: string, description: string,
    image: string, category: string, subCategory: string, subSubCategory: string)

  /** A row of the price/stock feed. */
  datatype StockRow = StockRow(sku: int, branch: string, price: int, stock: int)

  /** A row of the inner join of the two feeds on SKU. */
  datatype MergedRow = MergedRow(
    sku: int, ean: int, brand: string, name: string, description: string,
    image: string, category: string, subCategory: string, subSubCategory: string,
    branch: string, price: int, stock: int)

  /** A merged row after the three category columns became CATEGORY_STREAM. */
  datatype CompactRow = CompactRow(
    sku: int, ean: int, brand: string, name: string, description: string,
    image: string, categoryStream: string, branch: string, price: int, stock: int)

  /**
   * A compacted row after package extraction: the description is tag-free
   * and PACKAGE holds the extracted text, `None` standing for NaN.
   */
  datatype PackagedRow = PackagedRow(
    sku: int, ean: int, brand: string, name: string, description: string,
    image: string, categoryStream: string, branch: string, price: int, stock: int,
    package: Option<string>)

  function StockBranch(s: StockRow): string { s.branch }
  function StockLevel(s: StockRow): int { s.stock }
  function MergedPrice(m: MergedRow): int { m.price }
  function DedupKey(m: MergedRow): (string, int) { (m.branch, m.sku) }
  function PackagedBranch(r: PackagedRow): string { r.branch }
  function PackagedPrice(r: PackagedRow): int { r.price }

  /** The row pandas builds from a product row and a stock row of the same SKU. */
  function MergeRows(p: ProductRow, s: StockRow): MergedRow {
    MergedRow(p.sku, p.ean, p.brand, p.name, p.description, p.image,
              p.category, p.subCategory, p.subSubCategory, s.branch, s.price, s.stock)
  }

  function JoinOne(p: ProductRow, stock: seq<StockRow>): (r: seq<MergedRow>)
    ensures forall m :: m in r <==>
              exists j :: 0 <= j < |stock| && stock[j].sku == p.sku && m == MergeRows(p, stock[j])
  {
    if stock == [] then []
    else
      var rest := JoinOne(p, stock[1..]);
      assert forall j :: 1 <= j < |stock| ==> stock[j] == stock[1..][j - 1];
      if stock[0].sku == p.sku then [MergeRows(p, stock[0])] + rest else rest
  }

  /**
   * `pd.merge(products, stock, on='SKU')`: one merged row for every pair of
   * a product row and a stock row with the same SKU. Only membership is
   * modelled, not pandas' row order.
   */
  function MergeOn(products: seq<ProductRow>, stock: seq<StockRow>): (r: seq<MergedRow>)
    ensures forall m :: m in r <==>
              exists i, j :: 0 <= i < |products| && 0 <= j < |stock|
                && products[i].sku == stock[j].sku && m == MergeRows(products[i], stock[j])
  {
    if products == [] then []
    else
      var rest := MergeOn(products[1..], stock);
      assert forall i :: 1 <= i < |products| ==> products[i] == products[1..][i - 1];
      JoinOne(products[0], stock) + rest
  }

  /**
   * `concat_columns_values` on one row's values: the values joined by
   * `sep` in column order; with `lower`, the joined string lower-cased,
   * which is the lower-cased values joined by the lower-cased separator.
   */
  function ConcatColumnsValues(values: seq<string>, sep: string, lower: bool): (r: string)
    ensures lower ==> r == Join(LowerAll(values), LowerStr(sep))
    ensures !lower ==> r == Join(values, sep)
    ensures |r| == |Join(values, sep)|
  {
    LowerJoin(values, sep);
    if lower then LowerStr(Join(values, sep)) else Join(values, sep)
  }

  /**
   * Lower-casing the joined string equals joining the lower-cased parts
   * (`|` has no case), so CATEGORY_STREAM is
   * lower(CATEGORY) | lower(SUB_CATEGORY) | lower(SUB_SUB_CATEGORY).
   */
  lemma CategoryStreamParts(a: string, b: string, c: string)
    ensures ConcatColumnsValues([a, b, c], "|", true) == LowerStr(a + "|" + b + "|" + c)
    ensures ConcatColumnsValues([a, b, c], "|", true)
            == LowerStr(a) + "|" + LowerStr(b) + "|" + LowerStr(c)
  {
    Join3(a, b, c, "|");
    assert LowerStr("|") == "|";
    LowerStrConcat(a + "|" + b + "|", c);
    LowerStrConcat(a + "|" + b, "|");
    LowerStrConcat(a + "|", b);
    LowerStrConcat(a, "|");
  }

  /** Without `lower` the parts are joined as they are, empty parts included. */
  lemma ConcatWithoutLower(a: string, b: string, c: string)
    ensures ConcatColumnsValues([a, b, c], "|", false) == a + "|" + b + "|" + c
  {
    Join3(a, b, c, "|");
  }

  /**
   * When no category contains `|`, splitting CATEGORY_STREAM on `|` gives
   * the three lower-cased categories back, in the configured order.
   */
  lemma CategoryStreamSplits(a: string, b: string, c: string)
    requires '|' !in a && '|' !in b && '|' !in c
    ensures Split(ConcatColumnsValues([a, b, c], "|", true), '|')
            == [LowerStr(a), LowerStr(b), LowerStr(c)]
  {
    CategoryStreamParts(a, b, c);
    var parts := [LowerStr(a), LowerStr(b), LowerStr(c)];
    Join3(LowerStr(a), LowerStr(b), LowerStr(c), "|");
    forall i | 0 <= i < 3 ensures '|' !in parts[i] {
      LowerKeepsBar([a, b, c][i]);
    }
    SplitJoin(parts, '|');
  }

  lemma LowerKeepsBar(s: string)
    requires '|' !in s
    ensures '|' !in LowerStr(s)
  {
    forall i | 0 <= i < |s| ensures LowerStr(s)[i] != '|' {
      assert s[i] != '|';
    }
  }

  /**
   * `_concat_columns_values_and_drop_it` for one row: CATEGORY_STREAM is
   * computed from the three category columns, which are then gone; every
   * other column is carried over.
   */
  function Compact(m: MergedRow): (c: CompactRow)
    ensures c.categoryStream == LowerStr(m.category) + "|" + LowerStr(m.subCategory) + "|" + LowerStr(m.subSubCategory)
    ensures c.sku == m.sku && c.ean == m.ean && c.brand == m.brand && c.name == m.name
    ensures c.description == m.description && c.image == m.image
    ensures c.branch == m.branch && c.price == m.price && c.stock == m.stock
  {
    CategoryStreamParts(m.category, m.subCategory, m.subSubCategory);
    CompactRow(m.sku, m.ean, m.brand, m.name, m.description, m.image,
               ConcatColumnsValues([m.category, m.subCategory, m.subSubCategory], "|", true),
               m.branch, m.price, m.stock)
  }

  function CompactCategories(t: seq<MergedRow>): (r: seq<CompactRow>)
    ensures |r| == |t|
    ensures forall i :: 0 <= i < |t| ==> r[i] == Compact(t[i])
  {
    seq(|t|, i requires 0 <= i < |t| => Compact(t[i]))
  }

  /**
   * The PACKAGE value for a description: the regex groups joined by a
   * space, or NaN when the tag-stripped text has no match.
   */
  function PackageOf(description: string, units: seq<string>): (p: Option<string>)
    requires Package.ValidUnits(units)
    ensures p.None? <==> !Package.Matches(Tags.StripTags(description), units)
  {
    Package.ExtractPackageNone(Tags.StripTags(description), units);
    match Package.ExtractPackage(Tags.StripTags(description), units)
    case None => None
    case Some((n, u)) => Some(n + " " + u)
  }

  /**
   * A present PACKAGE is the number and the unit of the leftmost match in
   * the tag-stripped description, as written there, joined by one space.
   */
  lemma PackageOfFirstMatch(description: string, units: seq<string>)
    requires Package.ValidUnits(units)
    requires PackageOf(description, units).Some?
    ensures exists i: nat, e: nat, q: nat, k: nat ::
              && Package.MatchAt(Tags.StripTags(description), units, i, e, q, k)
              && Package.Earliest(Tags.StripTags(description), units, i, k)
              && PackageOf(description, units).value
                 == Tags.StripTags(description)[i..e] + " " + Tags.StripTags(description)[q..q + |units[k]|]
  {
    Package.ExtractPackageFirstMatch(Tags.StripTags(description), units);
  }

  /** Text already of the form number, space, unit is its own package. */
  lemma PackageOfPackageText(n: string, u: string, units: seq<string>)
    requires Package.ValidUnits(units)
    requires Package.IsNumeral(n) && Package.InVocabulary(u, units)
    ensures PackageOf(n + " " + u, units) == Some(n + " " + u)
  {
    var s := n + " " + u;
    Package.VocabularyLetters(u, units);
    forall i | 0 <= i < |s| ensures s[i] != '<' {
      if i < |n| {
        assert s[i] == n[i];
        NumeralHasNoBracket(n, i);
      } else if i > |n| {
        assert s[i] == u[i - |n| - 1];
        assert IsLetter(u[i - |n| - 1]);
      }
    }
    Package.ExtractFromPackageText(n, u, units);
  }

  /** A package the pipeline writes with a lower-case unit, "300 grs" under `GRS`, is its own package. */
  lemma PackageOfLowerCaseUnit()
    ensures PackageOf("300 grs", Package.TestUnits) == Some("300 grs")
  {
    Package.TestUnitsValid();
    assert Package.AllDigits("300");
    assert Package.CaseEq("grs", Package.TestUnits[2]);
    assert "300" + " " + "grs" == "300 grs";
    PackageOfPackageText("300", "grs", Package.TestUnits);
  }

  lemma NumeralHasNoBracket(n: string, i: nat)
    requires Package.IsNumeral(n) && i < |n|
    ensures IsDigit(n[i]) || n[i] == '.'
  {
    if !(|n| > 0 && Package.AllDigits(n)) {
      var m :| 0 < m < |n| - 1 && n[m] == '.' && Package.AllDigits(n[..m]) && Package.AllDigits(n[m + 1..]);
      if i < m { assert n[i] == n[..m][i]; }
      else if i > m { assert n[i] == n[m + 1..][i - m - 1]; }
    }
  }

  /**
   * `_extract_package_info_in_description` for one row: the description is
   * overwritten with its tag-stripped text, and PACKAGE is extracted from
   * that text.
   */
  function WithPackage(c: CompactRow, units: seq<string>): (p: PackagedRow)
    requires Package.ValidUnits(units)
    ensures p.description == Tags.StripTags(c.description)
    ensures p.package == PackageOf(c.description, units)
    ensures p.sku == c.sku && p.ean == c.ean && p.brand == c.brand && p.name == c.name
    ensures p.image == c.image && p.categoryStream == c.categoryStream
    ensures p.branch == c.branch && p.price == c.price && p.stock == c.stock
  {
    PackagedRow(c.sku, c.ean, c.brand, c.name, Tags.StripTags(c.description), c.image,
                c.categoryStream, c.branch, c.price, c.stock, PackageOf(c.description, units))
  }

  function ExtractPackages(t: seq<CompactRow>, units: seq<string>): (r: seq<PackagedRow>)
    requires Package.ValidUnits(units)
    ensures |r| == |t|
    ensures forall i :: 0 <= i < |t| ==> r[i] == WithPackage(t[i], units)
  {
    seq(|t|, i requires 0 <= i < |t| => WithPackage(t[i], units))
  }

  /**
   * `nan_to_empty_str` on PACKAGE: a missing package becomes `""`; a
   * present one, and every other column, is left alone.
   */
  function NanToEmpty(t: seq<PackagedRow>): (r: seq<PackagedRow>)
    ensures |r| == |t|
    ensures forall i :: 0 <= i < |t| ==> r[i].package == Some(t[i].package.GetOr(""))
    ensures forall i :: 0 <= i < |t| ==> r[i].(package := t[i].package) == t[i]
  {
    seq(|t|, i requires 0 <= i < |t| => t[i].(package := Some(t[i].package.GetOr(""))))
  }

  /** Afterwards no package is missing, and a second pass changes nothing. */
  lemma NanToEmptyIdempotent(t: seq<PackagedRow>)
    ensures forall i :: 0 <= i < |t| ==> NanToEmpty(t)[i].package.Some?
    ensures NanToEmpty(NanToEmpty(t)) == NanToEmpty(t)
  {
  }

  /** The price/stock rows left by the branch filter and then the stock filter. */
  function InStock(stock: seq<StockRow>, branches: seq<string>): seq<StockRow> {
    Tables.FilterPositive(Tables.FilterIn(stock, StockBranch, branches), StockLevel)
  }

  /** The joined rows left by the group-max deduplication over (BRANCH, SKU) on PRICE. */
  function Deduped(products: seq<ProductRow>, stock: seq<StockRow>, branches: seq<string>): seq<MergedRow> {
    Tables.DropDuplications(MergeOn(products, InStock(stock, branches)), DedupKey, MergedPrice)
  }

  /**
   * The CSV half of `Facade.main`: the branch and stock filters run on the
   * price/stock feed only, then the inner join on SKU, the deduplication,
   * the category compaction, the package extraction and the NaN fill, in
   * this order.
   */
  function PrepareTable(products: seq<ProductRow>, stock: seq<StockRow>,
                        branches: seq<string>, units: seq<string>): (r: seq<PackagedRow>)
    requires Package.ValidUnits(units)
    ensures |r| == |Deduped(products, stock, branches)|
    ensures forall x :: x in r ==> x.package.Some?
  {
    var packaged := ExtractPackages(CompactCategories(Deduped(products, stock, branches)), units);
    FilledHavePackages(packaged);
    NanToEmpty(packaged)
  }

  /** Every row of the prepared table carries a package. */
  lemma PreparedHavePackages(products: seq<ProductRow>, stock: seq<StockRow>,
                             branches: seq<string>, units: seq<string>)
    requires Package.ValidUnits(units)
    ensures forall x :: x in PrepareTable(products, stock, branches, units) ==> x.package.Some?
  {
    FilledHavePackages(ExtractPackages(CompactCategories(Deduped(products, stock, branches)), units));
  }

  lemma FilledHavePackages(t: seq<PackagedRow>)
    ensures forall x :: x in NanToEmpty(t) ==> x.package.Some?
  {
    var r := NanToEmpty(t);
    forall x | x in r ensures x.package.Some? {
      var i :| 0 <= i < |r| && r[i] == x;
      assert r[i].package == Some(t[i].package.GetOr(""));
    }
  }

  /** A stock row survives both filters exactly when it is in an allowed branch and in stock. */
  ghost predicate Eligible(s: StockRow, branches: seq<string>) {
    s.branch in branches && s.stock > 0
  }

  /** Both filters together keep exactly the eligible rows of the feed. */
  lemma InStockIff(stock: seq<StockRow>, branches: seq<string>, s: StockRow)
    ensures s in InStock(stock, branches) <==> s in stock && Eligible(s, branches)
  {
    var inBranches := Tables.FilterIn(stock, StockBranch, branches);
    assert multiset(InStock(stock, branches))[s] == if Eligible(s, branches) then multiset(stock)[s] else 0;
  }

  /** The whole row a merged row becomes after the later stages. */
  function Finished(m: MergedRow, units: seq<string>): PackagedRow
    requires Package.ValidUnits(units)
  {
    PackagedRow(m.sku, m.ean, m.brand, m.name, Tags.StripTags(m.description), m.image,
                LowerStr(m.category) + "|" + LowerStr(m.subCategory) + "|" + LowerStr(m.subSubCategory),
                m.branch, m.price, m.stock, Some(PackageOf(m.description, units).GetOr("")))
  }

  /** The stages after deduplication work row by row and keep the order. */
  lemma PrepareTableRows(products: seq<ProductRow>, stock: seq<StockRow>,
                         branches: seq<string>, units: seq<string>)
    requires Package.ValidUnits(units)
    ensures |PrepareTable(products, stock, branches, units)| == |Deduped(products, stock, branches)|
    ensures forall k :: 0 <= k < |Deduped(products, stock, branches)| ==>
              PrepareTable(products, stock, branches, units)[k] == Finished(Deduped(products, stock, branches)[k], units)
  {
  }

  /** Picks the product row and the stock row a member of `MergeOn` is built from; a proof helper only. */
  lemma MergeOnSource(products: seq<ProductRow>, stock: seq<StockRow>, m: MergedRow)
      returns (i: nat, j: nat)
    requires m in MergeOn(products, stock)
    ensures i < |products| && j < |stock| && products[i].sku == stock[j].sku
    ensures m == MergeRows(products[i], stock[j])
  {
    i, j :| 0 <= i < |products| && 0 <= j < |stock|
            && products[i].sku == stock[j].sku && m == MergeRows(products[i], stock[j]);
  }

  lemma MergeOnHas(products: seq<ProductRow>, stock: seq<StockRow>, i: nat, j: nat)
    requires i < |products| && j < |stock| && products[i].sku == stock[j].sku
    ensures MergeRows(products[i], stock[j]) in MergeOn(products, stock)
  {
  }

  lemma InStockSource(stock: seq<StockRow>, branches: seq<string>, s: StockRow) returns (j: nat)
    requires s in InStock(stock, branches)
    ensures j < |stock| && stock[j] == s && Eligible(s, branches)
  {
    InStockIff(stock, branches, s);
    j :| 0 <= j < |stock| && stock[j] == s;
  }

  /** A row kept by the deduplication is priced at least as high as every row of its group. */
  lemma DedupBound(t: seq<MergedRow>, x: MergedRow, y: MergedRow)
    requires x in Tables.DropDuplications(t, DedupKey, MergedPrice)
    requires y in t && DedupKey(y) == DedupKey(x)
    ensures y.price <= x.price
  {
    Tables.DropDuplicationsKeepsMax(t, DedupKey, MergedPrice, x);
    var n :| 0 <= n < |t| && t[n] == y;
    assert DedupKey(t[n]) == DedupKey(x);
  }

  /**
   * A deduplicated row joins a product row with an eligible stock row of
   * the same SKU, and no eligible stock row of that branch and SKU has a
   * higher price.
   */
  lemma DedupedProvenance(products: seq<ProductRow>, stock: seq<StockRow>, branches: seq<string>, m: MergedRow)
    requires m in Deduped(products, stock, branches)
    ensures exists i, j :: 0 <= i < |products| && 0 <= j < |stock|
              && products[i].sku == stock[j].sku && Eligible(stock[j], branches)
              && m == MergeRows(products[i], stock[j])
    ensures forall i, j :: 0 <= i < |products| && 0 <= j < |stock|
              && products[i].sku == stock[j].sku && Eligible(stock[j], branches)
              && stock[j].branch == m.branch && stock[j].sku == m.sku
              ==> stock[j].price <= m.price
  {
    var i, j := DedupedSource(products, stock, branches, m);
    forall i2, j2 | 0 <= i2 < |products| && 0 <= j2 < |stock|
        && products[i2].sku == stock[j2].sku && Eligible(stock[j2], branches)
        && stock[j2].branch == m.branch && stock[j2].sku == m.sku
      ensures stock[j2].price <= m.price
    {
      DedupedMax(products, stock, branches, m, i2, j2);
    }
  }

  lemma DedupedSource(products: seq<ProductRow>, stock: seq<StockRow>, branches: seq<string>, m: MergedRow)
      returns (i: nat, j: nat)
    requires m in Deduped(products, stock, branches)
    ensures i < |products| && j < |stock| && products[i].sku == stock[j].sku && Eligible(stock[j], branches)
    ensures m == MergeRows(products[i], stock[j])
  {
    var filtered := InStock(stock, branches);
    var merged := MergeOn(products, filtered);
    assert m in merged by {
      assert multiset(Deduped(products, stock, branches))[m] > 0;
    }
    var j';
    i, j' := MergeOnSource(products, filtered, m);
    j := InStockSource(stock, branches, filtered[j']);
  }

  lemma DedupedMax(products: seq<ProductRow>, stock: seq<StockRow>, branches: seq<string>, m: MergedRow,
                   i: nat, j: nat)
    requires m in Deduped(products, stock, branches)
    requires i < |products| && j < |stock| && products[i].sku == stock[j].sku && Eligible(stock[j], branches)
    requires stock[j].branch == m.branch && stock[j].sku == m.sku
    ensures stock[j].price <= m.price
  {
    var filtered := InStock(stock, branches);
    var merged := MergeOn(products, filtered);
    InStockIff(stock, branches, stock[j]);
    var jf :| 0 <= jf < |filtered| && filtered[jf] == stock[j];
    MergeOnHas(products, filtered, i, jf);
    DedupBound(merged, m, MergeRows(products[i], stock[j]));
  }

  /**
   * Every prepared row comes from a product row and an eligible stock row
   * of the same SKU, with the categories, description and package derived
   * from the product row as the stages say, and with the largest price
   * among the eligible stock rows of its branch and SKU.
   */
  lemma PrepareTableProvenance(products: seq<ProductRow>, stock: seq<StockRow>,
                               branches: seq<string>, units: seq<string>, r: PackagedRow)
    requires Package.ValidUnits(units)
    requires r in PrepareTable(products, stock, branches, units)
    ensures exists i, j :: 0 <= i < |products| && 0 <= j < |stock|
              && products[i].sku == stock[j].sku && Eligible(stock[j], branches)
              && r == Finished(MergeRows(products[i], stock[j]), units)
    ensures forall i, j :: 0 <= i < |products| && 0 <= j < |stock|
              && products[i].sku == stock[j].sku && Eligible(stock[j], branches)
              && stock[j].branch == r.branch && stock[j].sku == r.sku
              ==> stock[j].price <= r.price
  {
    var deduped := Deduped(products, stock, branches);
    PrepareTableRows(products, stock, branches, units);
    var k :| 0 <= k < |deduped| && PrepareTable(products, stock, branches, units)[k] == r;
    DedupedProvenance(products, stock, branches, deduped[k]);
  }

  /**
   * Conversely, every product row with an eligible stock row of the same
   * SKU and the top price of its branch and SKU reaches the output.
   */
  lemma PrepareTableComplete(products: seq<ProductRow>, stock: seq<StockRow>,
                             branches: seq<string>, units: seq<string>, i: nat, j: nat)
    requires Package.ValidUnits(units)
    requires i < |products| && j < |stock|
    requires products[i].sku == stock[j].sku && Eligible(stock[j], branches)
    requires forall i2, j2 :: 0 <= i2 < |products| && 0 <= j2 < |stock|
               && products[i2].sku == stock[j2].sku && Eligible(stock[j2], branches)
               && stock[j2].branch == stock[j].branch && stock[j2].sku == stock[j].sku
               ==> stock[j2].price <= stock[j].price
    ensures Finished(MergeRows(products[i], stock[j]), units) in PrepareTable(products, stock, branches, units)
  {
    DedupedComplete(products, stock, branches, i, j);
    var deduped := Deduped(products, stock, branches);
    var k :| 0 <= k < |deduped| && deduped[k] == MergeRows(products[i], stock[j]);
    PrepareTableRows(products, stock, branches, units);
  }

  lemma DedupedComplete(products: seq<ProductRow>, stock: seq<StockRow>,
                        branches: seq<string>, i: nat, j: nat)
    requires i < |products| && j < |stock|
    requires products[i].sku == stock[j].sku && Eligible(stock[j], branches)
    requires forall i2, j2 :: 0 <= i2 < |products| && 0 <= j2 < |stock|
               && products[i2].sku == stock[j2].sku && Eligible(stock[j2], branches)
               && stock[j2].branch == stock[j].branch && stock[j2].sku == stock[j].sku
               ==> stock[j2].price <= stock[j].price
    ensures MergeRows(products[i], stock[j]) in Deduped(products, stock, branches)
  {
    var filtered := InStock(stock, branches);
    var merged := MergeOn(products, filtered);
    var m := MergeRows(products[i], stock[j]);
    InStockIff(stock, branches, stock[j]);
    var jf :| 0 <= jf < |filtered| && filtered[jf] == stock[j];
    MergeOnHas(products, filtered, i, jf);
    forall y | y in merged && DedupKey(y) == DedupKey(m) ensures y.price <= m.price {
      var i2, j2' := MergeOnSource(products, filtered, y);
      var j2 := InStockSource(stock, branches, filtered[j2']);
    }
    DedupKeeps(merged, m);
  }

  /** A row priced at least as high as every row of its group survives the deduplication. */
  lemma DedupKeeps(t: seq<MergedRow>, x: MergedRow)
    requires x in t
    requires forall y :: y in t && DedupKey(y) == DedupKey(x) ==> y.price <= x.price
    ensures x in Tables.DropDuplications(t, DedupKey, MergedPrice)
  {
    var n :| 0 <= n < |t| && t[n] == x;
    var g := Tables.GroupMax(t, DedupKey, MergedPrice, DedupKey(x));
    var n2 :| 0 <= n2 < |t| && DedupKey(t[n2]) == DedupKey(x) && MergedPrice(t[n2]) == g.value;
    assert t[n2] in t;
    assert g == Some(MergedPrice(x));
    Tables.DropDuplicationsKeepsGroups(t, DedupKey, MergedPrice, n);
  }
}
