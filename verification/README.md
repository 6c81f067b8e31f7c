# Cornershop catalog reconciliation, modelled in Dafny

The repository ingests two pipe-separated feeds of a grocery merchant, a
product catalogue (SKU, EAN, brand, name, HTML description, image link and
three category levels) and a price/stock feed (SKU, branch, price, stock),
and pushes the most expensive products of two branches, `MM` and `RHSM`, to
a remote catalogue API. This project models the reconciliation core of
that run as pure functions on immutable data, and proves what each stage
promises:

- the branch filter and the stock filter on the price/stock feed, the
  inner join on SKU, and the group-max deduplication over (BRANCH, SKU) on
  PRICE (`PandasOperations` and the first half of `Facade.main`);
- the compaction of the three category columns into CATEGORY_STREAM, the
  deletion of `<…>` tags from the description, the package extraction by
  the `(?i)\b(\d+(?:\.\d+)?)\s*(unit|…)\b` pattern, and the NaN fill of the
  PACKAGE column;
- the split of the table by branch, the top 100 by price per branch, the
  construction and validation of one `IngestItem` per row into a mapping
  keyed by `str(SKU)`, the cross-branch merge `CSVOps.compare_branchs`, and
  the numbering of the merged items from 1 for dispatch.

Modules: `Wrappers` (Option/Result), `Dicts` (Python dicts as
insertion-ordered association lists), `Text` (ASCII character classes,
`str.lower` on ASCII letters, `sep.join`, `str(int)`), `PyValues` (loosely typed Python
values and `+`), `Models` (`IngestItem` and its `__post_init__` checks),
`Tables` (generic row filters, deduplication, sort and top-N, split by
column), `Tags` (`re.sub('<[^<>]*>', '')`), `Package` (the package
pattern), `Rows` (row types per stage and the CSV half of the run),
`Reconcile` (`compare_branchs`), `Ingestion` (the rest of `Facade.main`).

The checks in `__post_init__` and the merge do less than the type
annotations at src/cornershop/utils/models.py:9-19 and the error messages
suggest, and the run has fixed lookups; the model follows the code:

- A failed item check raises `ValueError` inside `_validate_items` and ends
  the run.
- The `branch_products` check passes as soon as one value of the first
  entry is a str/int/float, and only the first entry is looked at; `brand`
  is never checked.
- `sort_values` uses pandas' default, non-stable sort, so the order of
  equal prices in the top 100 is not the input order. The model fixes one
  order and its contracts hold for every order.
- `compare_branchs` is called with the column name `BRANCH`, which the item
  dicts do not have (see Findings).
- The two branches are looked up as the literals `MM` and `RHSM`, whatever
  branches are configured. The command-line default configures exactly
  those two. Leaving either out raises KeyError (`Ingestion.RunNeedsMM`,
  `Ingestion.RunNeedsRHSM`).

## Model

| member | source | states |
|---|---|---|
| Dicts.Get | src/cornershop/ingestion.py:108-109 | `d[k]` is `None` (KeyError) exactly when `k` is not a key; on a dict with distinct keys it is the value stored under `k` |
| Dicts.Put | src/cornershop/ingestion.py:260 | `d[k] = v` keeps every key in place, replaces the value of an existing key and appends a new key at the end; other entries are untouched |
| Dicts.PutWellFormed | src/cornershop/ingestion.py:260 | assignment keeps keys distinct, makes `d[k]` return `v` and leaves every other lookup unchanged |
| Dicts.KeySetSize | src/cornershop/utils/csv_manipulation.py:321-338 | a dict with distinct keys has as many keys as entries |
| Text.LowerJoin | src/cornershop/utils/csv_manipulation.py:147-149 | lower-casing a joined string equals joining the lower-cased parts with the lower-cased separator |
| Text.Join3 | src/cornershop/ingestion.py:90-91 | `sep.join([a, b, c])` is `a + sep + b + sep + c` |
| Text.PyStrInjective | src/cornershop/ingestion.py:242 | `str()` of an int is injective, so distinct SKUs get distinct keys |
| Text.SplitJoin | src/cornershop/ingestion.py:90 | joining `|`-free parts with `|` can be undone by splitting on `|` |
| Text.Lower | src/cornershop/utils/csv_manipulation.py:149 | an ASCII capital becomes the small letter 32 code points on, every other character is kept, and no ASCII capital is left |
| Text.LowerStr | src/cornershop/utils/csv_manipulation.py:149 | `s.lower()` keeps the length and lower-cases each character by `Lower` |
| Text.Join | src/cornershop/utils/csv_manipulation.py:147-152 | `sep.join` of one value is that value and of no values the empty string; Join3 and SplitJoin give the separator placement |
| Text.PyStr | src/cornershop/ingestion.py:242-246 | `str(i)` is non-empty, starts with `-` exactly when `i` is negative, and is digits after that; PyStrInjective makes it one-to-one |
| PyValues.AddListOnlyToList | src/cornershop/utils/csv_manipulation.py:327 | a list can be added only to a list |
| Models.Validate | src/cornershop/utils/models.py:21-58 | each of the three errors is raised exactly when its check is the first to fail (barcodes, then branch products, then string fields); a passing item holds its arguments exactly |
| Models.ValidateAsFields | src/cornershop/utils/models.py:6-19 | an item rebuilt from its own fields passes and is the same item |
| Models.BrandNeverChecked | src/cornershop/utils/models.py:43-58 | changing `brand` to any value changes neither the verdict nor any error |
| Models.LaterBranchProductsIgnored | src/cornershop/utils/models.py:32-38 | only the first `branch_products` entry decides the verdict |
| Models.MixedBarcodesAccepted | src/cornershop/utils/models.py:22-25 | a barcode list mixing an int and a string passes |
| Models.BarcodesWithoutStringRejected | src/cornershop/utils/models.py:22-25 | an empty barcode list, or one without a string, fails with the barcode error whatever the other fields are |
| Models.NonScalarValueAccepted | src/cornershop/utils/models.py:34-38 | a first entry with a string key and one scalar value among non-scalar ones passes |
| Models.AllNonScalarValuesRejected | src/cornershop/utils/models.py:34-38 | a first entry none of whose values is a str/int/float fails with the branch-products error |
| Models.InstanceDictKeys | src/cornershop/ingestion.py:260 | `item.__dict__` has eleven distinct keys, holds the branch facts under `branch_products` and has no `BRANCH` key |
| Models.PutBranchProducts | src/cornershop/utils/csv_manipulation.py:327 | assigning `branch_products` in the dict is the item with that field replaced |
| Tables.Filter | src/cornershop/utils/csv_manipulation.py:222-236 | `dataframe[mask]` keeps the rows satisfying the mask, each as often as in the input and in input order, and never grows the table |
| Tables.FilterIn | src/cornershop/utils/csv_manipulation.py:100-107 | `isin` keeps exactly the rows whose column is in the list, in order |
| Tables.FilterPositive | src/cornershop/utils/csv_manipulation.py:109-115 | `> 0` keeps exactly the rows whose column is positive, in order |
| Tables.GroupMax | src/cornershop/utils/csv_manipulation.py:133-135 | `transform('max')` of a group is a value the group attains and bounds every value of the group; empty groups have none |
| Tables.DropDuplications | src/cornershop/utils/csv_manipulation.py:125-136 | the output is an ordered sub-sequence of the input and keeps a row exactly when its value equals its group's maximum |
| Tables.DropDuplicationsKeepsMax | src/cornershop/utils/csv_manipulation.py:125-136 | every kept row's value is its group's maximum |
| Tables.DropDuplicationsKeepsGroups | src/cornershop/utils/csv_manipulation.py:125-136 | every non-empty group keeps a row, and every row tied for the maximum is kept |
| Tables.SortDesc | src/cornershop/ingestion.py:233 | sorting by price descending gives a permutation of the input in non-increasing order |
| Tables.TopN | src/cornershop/ingestion.py:227-233 | the first `n` of the sorted rows: `min(n, len)` rows, non-increasing, a sub-multiset of the input, none of the rows left out priced above one taken |
| Tables.RowsOf | src/cornershop/ingestion.py:216-223 | a branch's partition holds exactly the rows of that branch, in input order |
| Tables.SeparateBy | src/cornershop/ingestion.py:210-225 | the branch dict has distinct keys, maps every configured branch to its rows and has no other key |
| Tags.NextAngle | src/cornershop/utils/csv_manipulation.py:169 | the scan stops at the first `<` or `>` from a position on |
| Tags.TagAtFront | src/cornershop/utils/csv_manipulation.py:169 | a reported tag at the front is a span `<[^<>]*>` |
| Tags.StripTags | src/cornershop/utils/csv_manipulation.py:163-169 | the result is an ordered sub-sequence of the text, and a text without `<` is unchanged |
| Tags.StripTagsDropsTag | src/cornershop/utils/csv_manipulation.py:169 | a whole tag at the front is deleted |
| Tags.StripTagsKeepsChar | src/cornershop/utils/csv_manipulation.py:169 | a character other than `<` is kept |
| Tags.StripTagsKeepsUnclosed | src/cornershop/utils/csv_manipulation.py:169 | a `<` that no `>` closes before the next `<` is kept |
| Tags.NotIdempotent | src/cornershop/utils/csv_manipulation.py:163-169 | `<<a>b>` becomes `<b>`, which a second pass deletes: tag removal is not idempotent |
| Package.RunEnd | src/cornershop/utils/csv_manipulation.py:178 | the greedy end of a run of `\d` or `\s` characters |
| Package.NumEndIsNumeral | src/cornershop/utils/csv_manipulation.py:178 | the greedy number from a digit is a `\d+(?:\.\d+)?` numeral |
| Package.FirstUnit | src/cornershop/utils/csv_manipulation.py:178 | alternatives are tried in list order: the first unit that matches with a word boundary after it |
| Package.MatchForced | src/cornershop/utils/csv_manipulation.py:178 | in any match the number and the white space are the greedy runs, and the match starts at a digit |
| Package.MatchUnique | src/cornershop/utils/csv_manipulation.py:178 | two matches at one start agree on number and white space |
| Package.MatchHere | src/cornershop/utils/csv_manipulation.py:178 | the match at a position uses the earliest unit that matches there, and there is one whenever the pattern matches there |
| Package.Scan | src/cornershop/utils/csv_manipulation.py:178 | the leftmost match: no match starts earlier, and none at the same start uses an earlier unit |
| Package.ExtractPackage | src/cornershop/utils/csv_manipulation.py:171-178 | a found number is a numeral |
| Package.ExtractPackageFirstMatch | src/cornershop/utils/csv_manipulation.py:171-178 | nothing is found exactly when the pattern matches nowhere; otherwise the groups are the number and the unit as written in the text of the leftmost match with the earliest unit |
| Package.ExtractPackageNone | src/cornershop/utils/csv_manipulation.py:171-178 | `str.extract` gives NaN exactly when the pattern matches nowhere in the text |
| Package.ExtractPackageIs | src/cornershop/utils/csv_manipulation.py:171-178 | a match with no earlier start and no earlier unit is the one returned |
| Package.ScanHit | src/cornershop/utils/csv_manipulation.py:178 | a match with no earlier start and no earlier unit at its start is the hit the scan returns |
| Package.ExtractFromPackageText | src/cornershop/utils/csv_manipulation.py:178 | text of the form number, space, unit, the unit being a vocabulary unit in any letter case, yields that number and the unit as the text spells it |
| Package.NoPackageInUnits | tests/test_csv_manipulation.py:67-72 | `1UN` with units GR/KG/GRS/ML has no match |
| Package.PackageExampleKg | tests/test_csv_manipulation.py:62-65 | `CERDO 1 KG.` gives `1` and `KG` |
| Package.PackageExampleGrs | src/cornershop/utils/csv_manipulation.py:178 | in `SAL 300grs`, `GR` fails the word boundary and `grs` is found |
| Rows.MergeOn | src/cornershop/utils/csv_manipulation.py:117-123 | the inner join holds a row exactly for each product row and stock row with the same SKU |
| Rows.ConcatColumnsValues | src/cornershop/utils/csv_manipulation.py:138-152 | without `lower` the result is `sep.join(values)`; with `lower` it is the lower-cased values joined by the lower-cased separator; either way it is as long as the plain join |
| Rows.CategoryStreamParts | src/cornershop/ingestion.py:87-93 | CATEGORY_STREAM is lower(CATEGORY) + `|` + lower(SUB_CATEGORY) + `|` + lower(SUB_SUB_CATEGORY) |
| Rows.ConcatWithoutLower | src/cornershop/utils/csv_manipulation.py:151-152 | without `lower` the values are joined unchanged |
| Rows.CategoryStreamSplits | src/cornershop/ingestion.py:87-93 | when no category contains `|`, splitting CATEGORY_STREAM gives the three lower-cased categories back in order |
| Rows.Compact | src/cornershop/ingestion.py:171-189 | the compacted row holds CATEGORY_STREAM instead of the three category columns and every other column unchanged |
| Rows.CompactCategories | src/cornershop/ingestion.py:87-93 | the stage compacts every row and keeps the row order |
| Rows.PackageOfPackageText | src/cornershop/ingestion.py:191-208 | a description of the form number + " " + unit, the unit being a vocabulary unit in any letter case, has itself as package |
| Rows.PackageOf | src/cornershop/ingestion.py:195-208 | PACKAGE is NaN exactly when the pattern matches nowhere in the tag-stripped description |
| Rows.PackageOfFirstMatch | src/cornershop/ingestion.py:195-208 | a present PACKAGE is the number and the unit, as written, of the leftmost match with the earliest unit in the tag-stripped description, joined by one space |
| Rows.PackageOfLowerCaseUnit | src/cornershop/utils/csv_manipulation.py:178 | the package text `300 grs` under the unit `GRS` is its own package |
| Rows.WithPackage | src/cornershop/ingestion.py:191-208 | the description is overwritten with its tag-free text, PACKAGE is extracted from that text, and every other column is unchanged |
| Rows.ExtractPackages | src/cornershop/ingestion.py:94-99 | the stage treats every row so and keeps the row order |
| Rows.NanToEmpty | src/cornershop/utils/csv_manipulation.py:180-186 | a missing package becomes `""`, a present one and every other column stay as they were |
| Rows.NanToEmptyIdempotent | src/cornershop/utils/csv_manipulation.py:180-186 | afterwards no package is missing and a second fill changes nothing |
| Rows.InStockIff | src/cornershop/ingestion.py:73-79 | the two filters keep exactly the stock rows of an allowed branch with positive stock |
| Rows.PrepareTableRows | src/cornershop/ingestion.py:87-101 | the stages after deduplication map the rows one to one, in order |
| Rows.DedupedProvenance | src/cornershop/ingestion.py:80-86 | a deduplicated row joins a product row with an eligible stock row and is priced at least as high as every eligible row of its branch and SKU |
| Rows.DedupedComplete | src/cornershop/ingestion.py:80-86 | a join of an eligible stock row with the top price of its branch and SKU survives the deduplication |
| Rows.PrepareTableProvenance | src/cornershop/ingestion.py:72-102 | every prepared row is a product row joined with an eligible stock row, with the derived category stream, tag-free description, filled package and the top price of its group |
| Rows.PreparedHavePackages | src/cornershop/ingestion.py:100-101 | after the NaN fill every prepared row has a package |
| Rows.PrepareTableComplete | src/cornershop/ingestion.py:72-102 | every such join with the top price of its group reaches the prepared table |
| Rows.PrepareTable | src/cornershop/ingestion.py:72-101 | the CSV stages in `Facade.main` order give one prepared row per deduplicated join, and every prepared row has a package |
| Reconcile.Combine | src/cornershop/utils/csv_manipulation.py:327 | `a[column] + b[column]`: KeyError when either item lacks the column, TypeError when `+` fails, otherwise A's item with the sum in place of the old value and every other key unchanged |
| Reconcile.Emit | src/cornershop/utils/csv_manipulation.py:323-333 | an item of A whose SKU B lacks is appended unchanged, and only an item whose SKU B has can raise |
| Reconcile.MapAll | src/cornershop/utils/csv_manipulation.py:323-333 | a loop appending `f(x)` for each element succeeds exactly when every element does, and then holds `f(x)` at the element's position |
| Reconcile.MapAllFirstFailure | src/cornershop/utils/csv_manipulation.py:323-333 | a failing loop stops with the error of the first element that fails |
| Reconcile.MergeA | src/cornershop/utils/csv_manipulation.py:323-333 | the loop over A yields one item per entry of A, combined with B's item when B has the SKU, and succeeds exactly when every entry can be emitted |
| Reconcile.MergeAFirstFailure | src/cornershop/utils/csv_manipulation.py:323-333 | a failing loop over A stops with the error of the first entry whose item raises |
| Reconcile.Leftover | src/cornershop/utils/csv_manipulation.py:322-336 | what is left of B's copy is exactly B's entries whose SKU is not in A, in B's order, with distinct keys |
| Reconcile.CompareBranchs | src/cornershop/utils/csv_manipulation.py:308-338 | the merge succeeds exactly when every entry of A can be emitted; then it has one item per entry of A and of B's leftover, item `i` being A's entry `i` emitted against B, and the tail after A's items being B's leftover items in B's order |
| Reconcile.LeftoverKeys | src/cornershop/utils/csv_manipulation.py:329-336 | the leftover keys are B's keys minus A's |
| Reconcile.CompareBranchsTotal | src/cornershop/utils/csv_manipulation.py:321-338 | on success there is one item per key of A or B: the length is `|keys(A) ∪ keys(B)|` |
| Reconcile.CompareBranchsContent | src/cornershop/utils/csv_manipulation.py:322-336 | item `i` is A's item `i`, combined with B's item when the SKU is shared; then come B's leftover items in B's order |
| Reconcile.CompareBranchsSucceedsIff | src/cornershop/utils/csv_manipulation.py:326-327 | the merge fails exactly when a shared SKU's items lack the column or hold values `+` cannot add |
| Reconcile.CombineLists | src/cornershop/utils/csv_manipulation.py:327 | for list columns the merged item holds A's list followed by B's, with the other fields and key order of A |
| Reconcile.ListsCombine | src/cornershop/utils/csv_manipulation.py:327 | two items that both hold a list under the column always combine |
| Reconcile.ListColumnsMerge | src/cornershop/utils/csv_manipulation.py:321-338 | if every item holds a list under the column the merge succeeds |
| Reconcile.ListsConcatenate | src/cornershop/utils/csv_manipulation.py:321-338 | with list columns the merge succeeds, has one item per key of A or B, and concatenates the lists of each shared SKU A-first |
| Reconcile.MissingColumnFails | src/cornershop/utils/csv_manipulation.py:327 | a shared SKU with the column missing from A's items raises KeyError(column) |
| Reconcile.DisjointConcatenates | src/cornershop/utils/csv_manipulation.py:321-338 | without shared SKUs the result is A's items followed by B's, whatever the column |
| Reconcile.ListCombinesOnlyWithList | src/cornershop/utils/csv_manipulation.py:327 | an item holding a list under the column combines with an item that has the column exactly when that value is a list too, and otherwise raises TypeError |
| Reconcile.NonListInBFails | src/cornershop/utils/csv_manipulation.py:322-333 | a shared SKU whose A item holds a list under the column while B's item holds a non-list there makes the merge fail |
| Reconcile.MergeSameSku | src/cornershop/utils/csv_manipulation.py:322-336 | two one-item mappings under the same SKU merge into the single combined item |
| Reconcile.SharedSkuExample | src/cornershop/utils/csv_manipulation.py:315-319 | A = {S1: [p1]}, B = {S1: [p2], S2: item3} gives the S1 item with [p1, p2] and item3 |
| Ingestion.BuiltItem | src/cornershop/ingestion.py:243-259 | a row with a package and a string merchant id yields an item with `sku == str(SKU)`, `barcodes == [str(EAN)]`, `url == image_url == ITEM_IMG`, `category == CATEGORY_STREAM` and one `branch_products` entry with the row's branch, price and stock |
| Ingestion.BuildFields | src/cornershop/ingestion.py:243-259 | the constructor arguments: `barcodes == [str(EAN)]`, `url` and `image_url` both ITEM_IMG, `category` CATEGORY_STREAM, one `branch_products` entry of the row's branch facts, and a string package exactly when the row has one |
| Ingestion.ItemOf | src/cornershop/ingestion.py:243-259 | constructing the item succeeds exactly when the merchant id is a string and the row has a package, and otherwise fails the string-field check |
| Ingestion.ItemNeedsStrings | src/cornershop/utils/models.py:43-58 | a non-string merchant id or a NaN package fails the string check |
| Ingestion.ValidateItems | src/cornershop/ingestion.py:235-262 | the loop succeeds exactly when every row yields an item, and otherwise stops with the error of the first failing row |
| Ingestion.Collect | src/cornershop/ingestion.py:240-262 | a loop of dict assignments, one per row, succeeds exactly when every row builds, and otherwise stops with the error of the first row that fails |
| Ingestion.CollectStep | src/cornershop/ingestion.py:241-260 | each row stores its record under its key in the mapping built from the rows before it |
| Ingestion.CollectWellFormed | src/cornershop/ingestion.py:240-262 | the mapping never holds a key twice |
| Ingestion.CollectKeys | src/cornershop/ingestion.py:240-262 | its keys are exactly the keys of the rows |
| Ingestion.CollectValues | src/cornershop/ingestion.py:240-262 | every stored record is built from some row |
| Ingestion.CollectLastWins | src/cornershop/ingestion.py:240-262 | the record stored under a key is the one built from the last row with that key |
| Ingestion.ValidateItemsWellFormed | src/cornershop/ingestion.py:240-262 | the mapping has no SKU twice |
| Ingestion.ValidateItemsKeys | src/cornershop/ingestion.py:240-262 | its keys are exactly the SKU strings of the rows |
| Ingestion.ValidateItemsDicts | src/cornershop/ingestion.py:260 | every value is the `__dict__` of a built item |
| Ingestion.ValidateItemsLastWins | src/cornershop/ingestion.py:240-262 | the item stored for a SKU is built from the last row carrying it |
| Ingestion.ValidateItemsSucceed | src/cornershop/ingestion.py:240-262 | rows that all carry a package validate under a string merchant id |
| Ingestion.Top100 | src/cornershop/ingestion.py:227-233 | `min(100, n)` rows, prices non-increasing, a sub-multiset of the input, no row left out priced above a row taken |
| Ingestion.Enumerate | src/cornershop/ingestion.py:134 | item `i` gets number `start + i` |
| Ingestion.RunOn | src/cornershop/ingestion.py:104-134 | without `MM` configured the run raises KeyError('MM'), with `MM` but without `RHSM` KeyError('RHSM'), and a successful run is numbered 1, 2, 3, ... |
| Ingestion.RunBranches | src/cornershop/ingestion.py:110-134 | a run succeeds, or raises in the merge, only after both top-100 lists validate, and is numbered from 1 |
| Ingestion.MergeAndNumber | src/cornershop/ingestion.py:117-134 | the numbering succeeds exactly when the merge does, raises the merge's error otherwise, and pairs item `i` of the merge with number `i + 1` |
| Ingestion.Run | src/cornershop/ingestion.py:70-134 | the whole run raises KeyError('MM') or KeyError('RHSM') when those branches are not configured, and otherwise its items are numbered from 1 |
| Ingestion.MainAsWritten | src/cornershop/ingestion.py:70-134 | the run as written, merging on `BRANCH`: the same branch KeyErrors and numbering from 1 |
| Ingestion.Main | src/cornershop/ingestion.py:70-134 | the intended run, merging on `branch_products`: the same branch KeyErrors and numbering from 1 |
| Ingestion.TopRowsFrom | src/cornershop/ingestion.py:227-233 | every top row of a branch is a row of the table |
| Ingestion.TopRowsHavePackages | src/cornershop/ingestion.py:100-115 | after the NaN fill every row of a branch's top 100 has a package |
| Ingestion.RunNeedsMM | src/cornershop/ingestion.py:107-108 | without `MM` configured the run raises KeyError('MM') |
| Ingestion.RunNeedsRHSM | src/cornershop/ingestion.py:107-109 | with `MM` but without `RHSM` the run raises KeyError('RHSM') |
| Ingestion.RunRejectsMerchantId | src/cornershop/ingestion.py:113-114 | a non-string merchant id stops the run at validation once MM has a row |
| Ingestion.RunOnBothBranches | src/cornershop/ingestion.py:107-109 | with both branches configured the run works on exactly the MM rows and the RHSM rows of the table |
| Ingestion.BranchesValidate | src/cornershop/ingestion.py:106-117 | with both branches and a string merchant id both mappings validate, and the run is the merge of those two mappings, numbered |
| Ingestion.ListColumns | src/cornershop/ingestion.py:254-260 | every stored item dict has distinct keys, a list under `branch_products` and no `BRANCH` key |
| Ingestion.MainSucceeds | src/cornershop/ingestion.py:70-136 | with the intended column the run never fails after validation and yields the numbered merge of the MM and RHSM mappings |
| Ingestion.NumberedMerge | src/cornershop/ingestion.py:117-134 | the numbered merge has one item per SKU of either branch, numbered from 1, with each shared SKU's branch facts MM-first |
| Ingestion.MainMergesBranches | src/cornershop/ingestion.py:70-136 | the intended run yields one numbered item per SKU of either branch, a shared SKU keeping MM's entries followed by RHSM's |
| Ingestion.AsWrittenFailsOnSharedSku | src/cornershop/ingestion.py:117 | as written, a SKU in both top-100 lists makes the run raise KeyError('BRANCH') |
| Ingestion.SharedSkuFails | src/cornershop/ingestion.py:117 | two validated mappings that share a SKU make the merge on `BRANCH` raise KeyError('BRANCH') |
| Ingestion.NoSharedSku | src/cornershop/ingestion.py:240-262 | row sets with no SKU in common validate into mappings with no key in common |
| Ingestion.AsWrittenAgreesWithoutSharedSku | src/cornershop/ingestion.py:117 | with no SKU in both top-100 lists the code as written and the intended code give the same result |
| Ingestion.AgreeOnTable | src/cornershop/ingestion.py:117 | on a prepared table with no SKU in both top-100 lists, the runs merging on `BRANCH` and on `branch_products` are equal |
| Ingestion.SingleRow | src/cornershop/ingestion.py:240-262 | one valid row makes a one-entry mapping under its SKU string |
| Ingestion.CombineSingle | src/cornershop/utils/csv_manipulation.py:327 | merging two items with one branch entry each gives the first item with both entries |
| Ingestion.SameSkuMerges | src/cornershop/ingestion.py:113-117 | two single-row branch mappings with the same SKU merge into one item holding both rows' branch facts, first branch first |

## Left out

- Downloading the feeds, logging, the API client (merchant lookup, update,
  delete, product upload) and the `multiprocessing.Pool` dispatch are I/O
  or concurrency; the merchant id is a parameter and the run stops at the
  numbered item list.
- `pd.read_csv` parsing, `pd.merge` row order and column suffixes: the join
  is modelled by membership only (`Rows.MergeOn`).
- Prices and stock are integers; float prices and NaN arithmetic are not
  modelled. A NaN price would never equal its group maximum and be dropped.
- NaN cells in the string columns are not modelled: `astype(str)` would turn
  a missing category into `nan`, and tag removal and extraction would leave
  NaN. Only the PACKAGE column can be missing (`Option`).
- `\d`, `\s`, `\b` and case-insensitive matching are modelled on ASCII only;
  Unicode digits, spaces, letters and case folding are not.
- Reconcile.CompareBranchs: the source writes each sum into A's item dicts
  in place (csv_manipulation.py:327) and appends those same dicts; the
  model returns new records and leaves A as it was, which `Facade.main`
  cannot observe because it never reads A's mapping again.
- Text.LowerStr: lower-cases ASCII letters only, so Rows.Compact and
  Rows.CategoryStreamParts build CATEGORY_STREAM with a non-ASCII capital
  such as `Á` kept as it is, where Python's `str.lower` would lower-case it;
  full Unicode case mapping is out of scope.
- Package.ExtractPackage: requires a non-empty list of non-empty alphabetic
  units; regex metacharacters or an empty unit would change the pattern.
- Tables.TopN: ties in price come out in the one order the model's sort
  fixes; the contracts state only what every tie order satisfies.
- Ingestion.ValidateItems: the contracts state the key set, the values and
  the last-row-wins rule, not the first-occurrence order of the keys.
- The numeric type of the cells an item is built from (numpy integers
  versus Python ints) is not modelled; the branch facts are a string and
  two ints.
- The command-line parsing, including how a list of branch names is read,
  is not part of this model.
- Other `transform` operations than `max` are not modelled.

## Findings

| source | as written | input that shows it | evidently intended | confidence | as-written member | corrected member |
|---|---|---|---|---|---|---|
| src/cornershop/ingestion.py:117 | the merge is asked to combine the key `BRANCH` (the column-name constant), which the item dicts built at ingestion.py:254-260 do not have | a SKU among the top 100 of both MM and RHSM: `mm_items[sku]['BRANCH']` raises KeyError | `column='branch_products'`, so a shared SKU's branch facts are concatenated | not executed | Ingestion.AsWrittenFailsOnSharedSku | Ingestion.MainMergesBranches |
