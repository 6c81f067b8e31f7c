/**
 * The catalog item record and the checks its constructor runs
 * (`IngestItem` and its `__post_init__`).
 *
 * The constructor accepts arbitrary Python values for its eleven fields;
 * `Fields` carries them untyped. The checks are weaker than the field
 * annotations: only some barcode must be a string, only the first branch
 * product is looked at, and `brand` is never checked.
 */
module Models {
  import opened Wrappers
  import opened PyValues
  import Dicts

  /** The constructor's keyword arguments, as given. */
  datatype Fields = Fields(
    merchantId: Value,
    sku: Value,
    barcodes: Value,
    brand: Value,
    name: Value,
    description: Value,
    package: Value,
    imageUrl: Value,
    category: Value,
    url: Value,
    branchProducts: Value)

  /**
   * A constructed item. The string-checked fields are strings; `barcodes`
   * and `branchProducts` are lists whose elements may be of any kind, and
   * `brand` may be any value.
   */
  datatype IngestItem = IngestItem(
    merchantId: string,
    sku: string,
    barcodes: seq<Value>,
    brand: Value,
    name: string,
    description: string,
    package: string,
    imageUrl: string,
    category: string,
    url: string,
    branchProducts: seq<Value>)

  /** The three `ValueError`s the constructor raises, one per check. */
  datatype ValidationError = BadBarcodes | BadBranchProducts | NotStrings

  /** A non-empty list with at least one string element. */
  predicate BarcodesOk(v: Value) {
    v.List? && |v.items| > 0 && exists i :: 0 <= i < |v.items| && v.items[i].Str?
  }

  predicate IsScalar(v: Value) {
    v.Str? || v.Int? || v.Float?
  }

  /**
   * A non-empty list whose FIRST element is a dict with at least one string
   * key and at least one str/int/float value.
   */
  predicate BranchProductsOk(v: Value) {
    && v.List?
    && |v.items| > 0
    && v.items[0].Dict?
    && (exists i :: 0 <= i < |v.items[0].entries| && v.items[0].entries[i].0.Str?)
    && (exists i :: 0 <= i < |v.items[0].entries| && IsScalar(v.items[0].entries[i].1))
  }

  /** Every field named in the string check is a string; `brand` is not among them. */
  predicate StringFieldsOk(f: Fields) {
    && f.merchantId.Str?
    && f.sku.Str?
    && f.name.Str?
    && f.description.Str?
    && f.package.Str?
    && f.imageUrl.Str?
    && f.category.Str?
    && f.url.Str?
  }

  /** The arguments an item was built from. */
  function AsFields(item: IngestItem): Fields {
    Fields(
      Str(item.merchantId), Str(item.sku), List(item.barcodes), item.brand,
      Str(item.name), Str(item.description), Str(item.package),
      Str(item.imageUrl), Str(item.category), Str(item.url),
      List(item.branchProducts))
  }

  /**
   * `IngestItem(...)`: the checks run barcodes, then branch products, then
   * string fields, and the first one that fails decides the error. An item
   * that passes keeps its arguments exactly as given.
   */
  function Validate(f: Fields): (r: Result<IngestItem, ValidationError>)
    ensures r == Failure(BadBarcodes) <==> !BarcodesOk(f.barcodes)
    ensures r == Failure(BadBranchProducts)
            <==> BarcodesOk(f.barcodes) && !BranchProductsOk(f.branchProducts)
    ensures r == Failure(NotStrings)
            <==> BarcodesOk(f.barcodes) && BranchProductsOk(f.branchProducts) && !StringFieldsOk(f)
    ensures r.Success? ==> AsFields(r.value) == f
  {
    if !BarcodesOk(f.barcodes) then Failure(BadBarcodes)
    else if !BranchProductsOk(f.branchProducts) then Failure(BadBranchProducts)
    else if !StringFieldsOk(f) then Failure(NotStrings)
    else Success(IngestItem(
      f.merchantId.s, f.sku.s, f.barcodes.items, f.brand, f.name.s,
      f.description.s, f.package.s, f.imageUrl.s, f.category.s, f.url.s,
      f.branchProducts.items))
  }

  /** Building an item from its own fields gives the item back. */
  lemma ValidateAsFields(item: IngestItem)
    requires BarcodesOk(List(item.barcodes)) && BranchProductsOk(List(item.branchProducts))
    ensures Validate(AsFields(item)) == Success(item)
  {
  }

  /** `brand` takes no part in validation, whatever its kind. */
  lemma BrandNeverChecked(f: Fields, brand: Value)
    ensures Validate(f.(brand := brand)).Failure? <==> Validate(f).Failure?
    ensures Validate(f).Failure? ==> Validate(f.(brand := brand)) == Validate(f)
    ensures Validate(f).Success? ==>
              Validate(f.(brand := brand)) == Success(Validate(f).value.(brand := brand))
  {
  }

  /** Entries of `branch_products` after the first are never inspected. */
  lemma LaterBranchProductsIgnored(f: Fields, first: Value, rest: seq<Value>, rest': seq<Value>)
    ensures Validate(f.(branchProducts := List([first] + rest))).Failure?
            <==> Validate(f.(branchProducts := List([first] + rest'))).Failure?
  {
    assert ([first] + rest)[0] == first;
    assert ([first] + rest')[0] == first;
  }

  /** A barcode list mixing a string with a non-string is accepted. */
  lemma MixedBarcodesAccepted(f: Fields)
    requires BranchProductsOk(f.branchProducts) && StringFieldsOk(f)
    ensures Validate(f.(barcodes := List([Int(7), Str("7501")]))).Success?
  {
    assert List([Int(7), Str("7501")]).items[1].Str?;
  }

  /** An empty barcode list, or one without any string, is rejected first. */
  lemma BarcodesWithoutStringRejected(f: Fields)
    ensures Validate(f.(barcodes := List([]))) == Failure(BadBarcodes)
    ensures Validate(f.(barcodes := List([Int(7), Null]))) == Failure(BadBarcodes)
  {
  }

  /**
   * A first branch product with one non-scalar value is still accepted as
   * long as another of its values is a str/int/float.
   */
  lemma NonScalarValueAccepted(f: Fields)
    requires BarcodesOk(f.barcodes) && StringFieldsOk(f)
    ensures Validate(f.(branchProducts :=
              List([Dict([(Str("branch"), List([])), (Str("price"), Int(10))])]))).Success?
  {
    var e := [(Str("branch"), List([])), (Str("price"), Int(10))];
    assert e[0].0.Str?;
    assert IsScalar(e[1].1);
  }

  /** A first branch product none of whose values is a str/int/float is rejected. */
  lemma AllNonScalarValuesRejected(f: Fields)
    requires BarcodesOk(f.barcodes)
    ensures Validate(f.(branchProducts :=
              List([Dict([(Str("branch"), Null), (Str("price"), List([]))])]))) == Failure(BadBranchProducts)
  {
  }

  /** `item.__dict__`: the fields under their Python names, in declaration order. */
  function InstanceDict(item: IngestItem): Record {
    [("merchant_id", Str(item.merchantId)), ("sku", Str(item.sku)),
     ("barcodes", List(item.barcodes)), ("brand", item.brand),
     ("name", Str(item.name)), ("description", Str(item.description)),
     ("package", Str(item.package)), ("image_url", Str(item.imageUrl)),
     ("category", Str(item.category)), ("url", Str(item.url)),
     ("branch_products", List(item.branchProducts))]
  }

  /**
   * The dict has one entry per field; the branch facts sit under
   * `branch_products`, and there is no `BRANCH` key.
   */
  lemma InstanceDictKeys(item: IngestItem)
    ensures Dicts.WellFormed(InstanceDict(item))
    ensures |InstanceDict(item)| == 11
    ensures Dicts.Get(InstanceDict(item), "branch_products") == Some(List(item.branchProducts))
    ensures Dicts.Get(InstanceDict(item), "sku") == Some(Str(item.sku))
    ensures !Dicts.HasKey(InstanceDict(item), "BRANCH")
  {
    var d := InstanceDict(item);
    assert d[1] == ("sku", Str(item.sku));
    assert d[10] == ("branch_products", List(item.branchProducts));
  }

  /** Assigning `branch_products` in the dict is replacing the field of the item. */
  lemma PutBranchProducts(item: IngestItem, v: seq<Value>)
    ensures Dicts.Put(InstanceDict(item), "branch_products", List(v))
            == InstanceDict(item.(branchProducts := v))
  {
    var d := InstanceDict(item);
    var e := InstanceDict(item.(branchProducts := v));
    InstanceDictKeys(item);
    assert d[10].0 == "branch_products";
    var r := Dicts.Put(d, "branch_products", List(v));
    assert |r| == |e|;
    forall i | 0 <= i < |e| ensures r[i] == e[i] {
      if i < 10 { assert d[i].0 != "branch_products"; }
    }
  }
}
