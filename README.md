# Catalog: one current Version per Product

A model of the catalog schema in `catalog/models.py`. The schema has three
record kinds. A Category has a name and a description. A Product has a name,
an optional category, a price, a view counter, an optional owner and a
publication status. A Version belongs to a Product and carries a version
number, a version name and an `is_current` flag.

The one piece of behaviour is `Version.save`. When the saved Version is
flagged current, every other Version of the same product is first set to
`is_current = false` (the row with the saved Version's own key is excluded).
Then the Version itself is inserted or overwritten. When the flag is clear,
only the Version's own row is written. The rule keeps the table in a state
where no product has two current versions. A product may also end up with
none, because nothing promotes another row in its place.

The model has four modules:

- `CatalogModels` (`catalog_models.dfy`): the records as datatypes, the field
  defaults and the publication-status choices, the field constraints a full
  clean checks, and the display string of a Version together with a function
  that reads the version number back out of it.
- `ListingOrder` (`listing_order.dfy`): the default listing orders. Versions
  are listed by `version_number` descending, Categories by `name` ascending.
  Both compare strings character by character and never as numbers. The
  order is a total order, and listing is a sort that is a permutation of its
  input.
- `VersionCurrency` (`version_currency.dfy`): the save rule as pure functions
  on a table `map<int, Version>` keyed by primary key (`Sweep` is the bulk
  update, `AfterSave` the whole save), the invariant `AtMostOneCurrent`, the
  lemmas about them, and the class `VersionTable`. Its `Save` method performs
  the two steps in place.
- `CatalogStore` (`catalog_store.dfy`): the class `Store`, which holds the
  category and product tables and a `VersionTable`. It implements the
  referential actions: SET_NULL for a deleted category, CASCADE from a deleted
  owner to their products, and CASCADE from a deleted product to its versions.
  The owner cascade continues on to the versions of the deleted products.

Primary keys are `int`. A new row gets the table's next key, which is one
above the highest key the table has used so far. The price is a whole number
of hundredths (`decimal_places=2`).

## Model

| member | source | states |
|---|---|---|
| `VersionCurrency.VersionTable.Save` | catalog/models.py:123-129 | The new table is `AfterSave` of the old one. A new row gets a key that was not in use. When the flag is set, the saved row is afterwards the only current version of its product. If no product had two current versions before the save, none has after it. |
| `VersionCurrency.SaveCurrentIsSole` | catalog/models.py:124-129 | After a save with `is_current = true`, the current versions of that product are exactly the saved row. |
| `VersionCurrency.SaveTouchesOnlySiblingFlags` | catalog/models.py:126-128 | A save adds the saved row's key and writes `v` there. Every other row keeps its product, number and name. No other row becomes current. Rows of other products are unchanged. Rows of the same product lose their flag exactly when `v` is current. |
| `VersionCurrency.SaveNotCurrentWritesOnlyItself` | catalog/models.py:124-129 | With `is_current = false` the sweep is skipped: the new table is the old one with only the saved row written. |
| `VersionCurrency.SaveNotCurrentCurrents` | catalog/models.py:124-129 | With `is_current = false`, every product's current set is its old current set minus the saved row. Nothing is promoted. |
| `VersionCurrency.DemotingSoleCurrentLeavesNone` | catalog/models.py:124-129 | Saving a product's only current version with the flag cleared leaves that product with zero current versions. |
| `VersionCurrency.NewCurrentDemotesAllSiblings` | catalog/models.py:126-127 | For a new row (no key), excluding its key removes nothing. Every pre-existing row of the product is demoted and otherwise unchanged. |
| `VersionCurrency.ExclusionIsImmaterial` | catalog/models.py:126-129 | Excluding the saved row's own key from the sweep does not change the final table, because step two overwrites that row anyway. |
| `VersionCurrency.SaveDefaultVersionKeepsOthers` | catalog/models.py:113 | Saving a newly created Version, whose flag defaults to false, leaves every existing row unchanged. |
| `VersionCurrency.SavePreservesAtMostOne` | catalog/models.py:123-129 | If every product has at most one current version before a save, this still holds after it, for any flag, product or key. |
| `VersionCurrency.SaveCurrentEstablishesForItsProduct` | catalog/models.py:124-129 | After a save with the flag set, the saved row's product has exactly one current version, whatever state it was in before. |
| `VersionCurrency.AtMostOneCurrentIffCount` | catalog/models.py:123-129 | The pairwise invariant holds if and only if every product has 0 or 1 current versions. |
| `VersionCurrency.TwoCurrentSavesScenario` | catalog/models.py:123-129 | Save A ("1.0", current), then B ("2.0", current), for one product. Afterwards A is not current, B is, and the product's current set is {B}. |
| `VersionCurrency.DeletePreservesAtMostOne` | catalog/models.py:104-129 | Deleting a Version removes it from its product's current set and promotes nothing. The invariant is kept. |
| `VersionCurrency.WithoutProductsKeepsOthers` | catalog/models.py:105-107 | The product cascade keeps exactly the rows whose product is not deleted, each one unchanged. The invariant is kept. |
| `VersionCurrency.VersionTable.Delete` | catalog/models.py:104-129 | Removes exactly the row with that key. Every product's current set loses only that key. The invariant is kept. |
| `VersionCurrency.VersionTable.DeleteOfProducts` | catalog/models.py:105-107 | The table becomes the rows that do not belong to the deleted products. |
| `VersionCurrency.VersionTable.constructor` | catalog/models.py:104-113 | Gives an empty table whose first key is 1. |
| `CatalogStore.DeleteCategoryKeepsProducts` | catalog/models.py:38-45 | SET_NULL: deleting a category keeps every product. Products that referred to it now have no category and are otherwise unchanged. Other products are untouched. All references stay intact. |
| `CatalogStore.DeleteProductCascades` | catalog/models.py:105-110 | Deleting a product removes exactly the versions that refer to it. Other versions are untouched. All references stay intact. |
| `CatalogStore.DeleteOwnerCascades` | catalog/models.py:74-81 | Deleting an owner removes exactly that owner's products. The second cascade then removes exactly the versions of those products. References stay intact. |
| `CatalogStore.Store.SaveVersion` | catalog/models.py:105-129 | Fails with `MissingProduct`, changing nothing, exactly when the product does not exist. Otherwise applies `AfterSave` to the version table, and the saved row is its product's only current version when flagged. The invariant is kept. Categories and products are unchanged. |
| `CatalogStore.Store.SaveProduct` | catalog/models.py:38-45 | Fails with `MissingCategory`, changing nothing, exactly when the category it names does not exist. Otherwise it writes the product at its key (or a fresh key) and changes nothing else. |
| `CatalogStore.Store.SaveCategory` | catalog/models.py:5-17 | Writes the category at its key (or a fresh key) and changes nothing else. |
| `CatalogStore.Store.DeleteCategory` | catalog/models.py:38-45 | Removes the category. Its products stay, with the category cleared. Versions are unchanged. References stay intact. |
| `CatalogStore.Store.DeleteProduct` | catalog/models.py:105-110 | Removes the product and all its versions. The invariant and references are kept. |
| `CatalogStore.Store.DeleteOwner` | catalog/models.py:74-81 | Removes the owner's products and all their versions. The invariant and references are kept. |
| `CatalogStore.Store.DeleteVersion` | catalog/models.py:104-129 | Removes the one version. No other version is promoted. The invariant and references are kept. |
| `CatalogStore.Store.constructor` | catalog/models.py:5-129 | Gives an empty catalog with all references intact. |
| `ListingOrder.OrderVersions` | catalog/models.py:118 | The Version listing is a permutation of its input, ordered by `version_number` in non-increasing string order. |
| `ListingOrder.OrderCategories` | catalog/models.py:14 | The Category listing is a permutation of its input, ordered by `name` in non-decreasing string order. |
| `ListingOrder.SortBy` | catalog/models.py:118 | Sorting by a text key in either direction gives a permutation of the input that is ordered pairwise. |
| `ListingOrder.InsertBy` | catalog/models.py:118 | Inserting adds exactly one element, as a multiset. |
| `ListingOrder.InsertBySorted` | catalog/models.py:118 | Inserting into an ordered listing keeps it ordered. |
| `ListingOrder.VersionListingExample` | catalog/models.py:118 | Versions "1.10", "1.9" and "2.0" are listed as "2.0", "1.9", "1.10". |
| `ListingOrder.StringOrderIsNotNumeric` | catalog/models.py:118 | In string order "1.10" sorts strictly before "1.9", and "1.9" strictly before "2.0". |
| `ListingOrder.LexLeTotal` | catalog/models.py:118 | Any two strings are comparable. |
| `ListingOrder.LexLeTransitive` | catalog/models.py:118 | String order is transitive. |
| `ListingOrder.LexLeAntisymmetric` | catalog/models.py:118 | Two strings that are each no later than the other are equal. |
| `ListingOrder.LexLeReflexive` | catalog/models.py:118 | Every string is no later than itself. |
| `CatalogModels.VersionLabel` | catalog/models.py:120-121 | The display string begins with the product name, holds the version name after the " - " separator, and ends with ")". Its length is that of the three parts plus the six separator characters. |
| `CatalogModels.LabelNumberRoundTrip` | catalog/models.py:121 | When the version number has no "(", reading the number back out of the display string gives that number. |
| `CatalogModels.NewProductIsClean` | catalog/models.py:68-91 | A product created from a valid name and price has 0 views, status "draft" and no category, and it passes every field constraint. |
| `CatalogModels.StatusChoicesFit` | catalog/models.py:82-91 | The choices are "draft" and "published". Both fit the 10-character column, and the default "draft" is one of them. |
| `CatalogModels.NewVersionDefaults` | catalog/models.py:111-113 | A newly created Version is not current. It is clean exactly when its number and name are non-blank and within 50 and 100 characters. |

## Left out

- Database and framework internals: SQL, querysets, migrations and the `*args, **kwargs` passed through `save` (`force_insert`, `update_fields`, `using`). Each table is a map from key to record.
- Transactions and concurrent saves. The code wraps nothing in a transaction. Each save is one sequential step, and no rollback behaviour is claimed.
- Bulk creation and queryset `update()`. They bypass `save`, so they bypass the rule. Nothing in the model can put a table into a bad state this way. The invariant is stated as preserved ("if it held before, it holds after") rather than assumed.
- `image_preview`, file storage and the user model. An owner is only an id. Deleting an owner is modelled by its cascade on products and versions.
- `created_at` and `updated_at`, which depend on the wall clock.
- Permissions, `verbose_name`, `help_text` and the choices' display labels. They are metadata.
- Category.__str__ and Product.__str__ return the `name` field. No separate members are given for them.
- The field constraints (`CategoryClean`, `ProductClean`, `VersionClean`: required, max length, 10-digit price, status choice) are predicates only. The source's `save` does not run them, so the store does not check them on save.
- The upper bound of `views_counter`, which depends on the database.
- The order of rows with equal keys in a listing. The database leaves it unspecified. The model's sort is stable, and its contracts say nothing about ties.
- String order is modelled as plain character-by-character comparison. A database collation may order characters differently.
- Key allocation: a new row gets one above the highest key used so far. A database sequence may skip keys differently. The contracts only use the fact that the key is new.
- The store checks a Version's product reference before saving it. The source runs the sweep first and then fails on the insert. While references are intact, no row has a missing product, so that sweep changes nothing and both orders leave the same state.
- The sweep sets `is_current = false` on every sibling row, as catalog/models.py:126-128 does, whether or not the row was current; on a row that is already false this changes nothing.
- Versions are listed descending (`-version_number`, catalog/models.py:118), so "2.0", "1.9", "1.10"; ascending string order would put "1.10" before "1.9".
