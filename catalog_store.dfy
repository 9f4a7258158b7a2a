/**
 The catalog's three tables together with the referential actions declared on
 their foreign keys:
 - Product.category: on delete of the Category, set to null (SET_NULL);
 - Product.owner: on delete of the owner, delete the Product (CASCADE);
 - Version.product: on delete of the Product, delete the Version (CASCADE).
 Owners are user identities kept outside the catalog; only their ids appear here.
 */
module CatalogStore {
  import opened CatalogModels
  import opened VersionCurrency

  datatype SaveError = MissingCategory(category: int) | MissingProduct(product: int)

  datatype Outcome = Saved(id: int) | Failed(error: SaveError)

  /** Every category and product reference points at a row that exists. */
  predicate ReferencesIntact(categories: map<int, Category>, products: map<int, Product>, versions: map<int, Version>)
  {
    && (forall k :: k in products && products[k].category.Some? ==> products[k].category.value in categories)
    && (forall k :: k in versions ==> versions[k].product in products)
  }

  /** SET_NULL: the products of category c lose their category. */
  function ClearCategory(products: map<int, Product>, c: int): map<int, Product>
  {
    map k | k in products :: if products[k].category == Some(c) then products[k].(category := None) else products[k]
  }

  /** Keys of the products owned by owner. */
  function OwnedBy(products: map<int, Product>, owner: int): set<int>
  {
    set k | k in products && products[k].owner == Some(owner)
  }

  /**
   Deleting category c keeps every product: those that referred to c now have
   no category and are otherwise as before, the rest are untouched, and every
   remaining reference is still intact.
   */
  lemma DeleteCategoryKeepsProducts(categories: map<int, Category>, products: map<int, Product>, versions: map<int, Version>, c: int)
    requires ReferencesIntact(categories, products, versions)
    ensures ClearCategory(products, c).Keys == products.Keys
    ensures forall k :: k in products ==> ClearCategory(products, c)[k].category != Some(c)
    ensures forall k :: k in products ==> ClearCategory(products, c)[k].(category := products[k].category) == products[k]
    ensures forall k :: k in products && products[k].category != Some(c) ==> ClearCategory(products, c)[k] == products[k]
    ensures ReferencesIntact(categories - {c}, ClearCategory(products, c), versions)
  {
  }

  /**
   Deleting product p removes exactly the versions that refer to it, leaves
   every other version as it was, and keeps every reference intact.
   */
  lemma DeleteProductCascades(categories: map<int, Category>, products: map<int, Product>, versions: map<int, Version>, p: int)
    requires ReferencesIntact(categories, products, versions)
    ensures forall k :: k in WithoutProducts(versions, {p}) <==> k in versions && versions[k].product != p
    ensures forall k :: k in WithoutProducts(versions, {p}) ==> WithoutProducts(versions, {p})[k] == versions[k]
    ensures ReferencesIntact(categories, products - {p}, WithoutProducts(versions, {p}))
  {
  }

  /**
   Deleting owner u removes exactly that owner's products and, by the second
   cascade, exactly the versions of those products; every reference stays intact.
   */
  lemma DeleteOwnerCascades(categories: map<int, Category>, products: map<int, Product>, versions: map<int, Version>, u: int)
    requires ReferencesIntact(categories, products, versions)
    ensures forall k :: k in products - OwnedBy(products, u) <==> k in products && products[k].owner != Some(u)
    ensures forall k :: k in WithoutProducts(versions, OwnedBy(products, u)) <==>
      k in versions && products[versions[k].product].owner != Some(u)
    ensures ReferencesIntact(categories, products - OwnedBy(products, u), WithoutProducts(versions, OwnedBy(products, u)))
  {
  }

  /** The catalog: its category and product tables, and the version table. */
  class Store {
    var categories: map<int, Category>
    var products: map<int, Product>
    var nextCategoryId: int
    var nextProductId: int
    const versions: VersionTable

    ghost predicate Valid()
      reads this, versions
    {
      && versions.Valid()
      && (forall k :: k in categories ==> k < nextCategoryId)
      && (forall k :: k in products ==> k < nextProductId)
      && ReferencesIntact(categories, products, versions.rows)
    }

    constructor ()
      ensures Valid() && fresh(versions)
      ensures categories == map[] && products == map[] && versions.rows == map[]
    {
      categories := map[];
      products := map[];
      nextCategoryId := 1;
      nextProductId := 1;
      versions := new VersionTable();
    }

    /** Saves a Category: insert or overwrite at its key. */
    method SaveCategory(pk: Option<int>, c: Category) returns (id: int)
      requires Valid()
      modifies this
      ensures Valid()
      ensures id == SaveSlot(pk, old(nextCategoryId))
      ensures pk.None? ==> id !in old(categories)
      ensures categories == old(categories)[id := c]
      ensures products == old(products) && versions.rows == old(versions.rows)
    {
      id := if pk.Some? then pk.value else nextCategoryId;
      categories := categories[id := c];
      if nextCategoryId <= id {
        nextCategoryId := id + 1;
      }
    }

    /** Saves a Product; fails, changing nothing, if its category does not exist. */
    method SaveProduct(pk: Option<int>, p: Product) returns (r: Outcome)
      requires Valid()
      modifies this
      ensures Valid()
      ensures r.Failed? <==> p.category.Some? && p.category.value !in old(categories)
      ensures r.Failed? ==> r.error == MissingCategory(p.category.value) && products == old(products)
      ensures r.Saved? ==> r.id == SaveSlot(pk, old(nextProductId)) && products == old(products)[r.id := p]
      ensures r.Saved? && pk.None? ==> r.id !in old(products)
      ensures categories == old(categories) && versions.rows == old(versions.rows)
    {
      if p.category.Some? && p.category.value !in categories {
        return Failed(MissingCategory(p.category.value));
      }
      var id := if pk.Some? then pk.value else nextProductId;
      products := products[id := p];
      if nextProductId <= id {
        nextProductId := id + 1;
      }
      r := Saved(id);
    }

    /**
     Saves a Version under the version-currency rule; fails, changing nothing,
     if its product does not exist.
     */
    method SaveVersion(pk: Option<int>, v: Version) returns (r: Outcome)
      requires Valid()
      modifies versions
      ensures Valid()
      ensures r.Failed? <==> v.product !in old(products)
      ensures r.Failed? ==> r.error == MissingProduct(v.product) && versions.rows == old(versions.rows)
      ensures r.Saved? ==> r.id == SaveSlot(pk, old(versions.nextId))
      ensures r.Saved? ==> versions.rows == AfterSave(old(versions.rows), pk, old(versions.nextId), v)
      ensures r.Saved? && v.isCurrent ==> CurrentOf(versions.rows, v.product) == {r.id}
      ensures AtMostOneCurrent(old(versions.rows)) ==> AtMostOneCurrent(versions.rows)
      ensures categories == old(categories) && products == old(products)
    {
      if v.product !in products {
        return Failed(MissingProduct(v.product));
      }
      var id := versions.Save(pk, v);
      r := Saved(id);
    }

    /** Deletes category c; its products stay, with no category. */
    method DeleteCategory(c: int)
      requires Valid()
      modifies this
      ensures Valid()
      ensures categories == old(categories) - {c}
      ensures products == ClearCategory(old(products), c)
      ensures versions.rows == old(versions.rows)
    {
      DeleteCategoryKeepsProducts(categories, products, versions.rows, c);
      categories := categories - {c};
      products := ClearCategory(products, c);
    }

    /** Deletes product p and, by cascade, all its versions. */
    method DeleteProduct(p: int)
      requires Valid()
      modifies this, versions
      ensures Valid()
      ensures products == old(products) - {p}
      ensures versions.rows == WithoutProducts(old(versions.rows), {p})
      ensures categories == old(categories)
      ensures AtMostOneCurrent(old(versions.rows)) ==> AtMostOneCurrent(versions.rows)
    {
      DeleteProductCascades(categories, products, versions.rows, p);
      versions.DeleteOfProducts({p});
      products := products - {p};
    }

    /** Deletes owner u's products and, by cascade, all their versions. */
    method DeleteOwner(u: int)
      requires Valid()
      modifies this, versions
      ensures Valid()
      ensures products == old(products) - OwnedBy(old(products), u)
      ensures versions.rows == WithoutProducts(old(versions.rows), OwnedBy(old(products), u))
      ensures categories == old(categories)
      ensures AtMostOneCurrent(old(versions.rows)) ==> AtMostOneCurrent(versions.rows)
    {
      var doomed := OwnedBy(products, u);
      DeleteOwnerCascades(categories, products, versions.rows, u);
      versions.DeleteOfProducts(doomed);
      products := products - doomed;
    }

    /** Deletes the version with key pk; no other version is promoted. */
    method DeleteVersion(pk: int)
      requires Valid()
      modifies versions
      ensures Valid()
      ensures versions.rows == AfterDelete(old(versions.rows), pk)
      ensures forall p :: CurrentOf(versions.rows, p) == CurrentOf(old(versions.rows), p) - {pk}
      ensures AtMostOneCurrent(old(versions.rows)) ==> AtMostOneCurrent(versions.rows)
    {
      versions.Delete(pk);
    }
  }
}
