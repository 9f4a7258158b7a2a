/**
 The version-currency rule of Version.save. Saving a Version whose flag is set
 first clears the flag of every other Version of the same product (all the
 product's rows except the one with the saved row's own primary key), then
 inserts or overwrites the saved row. Saving with the flag clear writes only
 the saved row.

 The table is a map from primary key to Version. The pure functions below
 give the table after each step; VersionTable performs the same steps in place.
 */
module VersionCurrency {
  import opened CatalogModels

  /**
   The bulk update: every row of the product, except the row whose key is
   exclude, gets is_current = false. With exclude = None (an unsaved Version)
   no row is excluded.
   */
  function Sweep(rows: map<int, Version>, product: int, exclude: Option<int>): map<int, Version>
  {
    map k | k in rows :: if rows[k].product == product && exclude != Some(k) then rows[k].(isCurrent := false) else rows[k]
  }

  /** The table after saving v with key pk (None for a new row that obtains freshId). */
  function AfterSave(rows: map<int, Version>, pk: Option<int>, freshId: int, v: Version): map<int, Version>
  {
    var swept := if v.isCurrent then Sweep(rows, v.product, pk) else rows;
    swept[SaveSlot(pk, freshId) := v]
  }

  /** The table after deleting the row with key pk (nothing if there is none). */
  function AfterDelete(rows: map<int, Version>, pk: int): map<int, Version>
  {
    rows - {pk}
  }

  /** The table after the cascade from deleting the products in doomed. */
  function WithoutProducts(rows: map<int, Version>, doomed: set<int>): map<int, Version>
  {
    map k | k in rows && rows[k].product !in doomed :: rows[k]
  }

  /** Keys of the current versions of product p. */
  function CurrentOf(rows: map<int, Version>, p: int): set<int>
  {
    set k | k in rows && rows[k].product == p && rows[k].isCurrent
  }

  /** The invariant: no two distinct rows of one product are both current. */
  predicate AtMostOneCurrent(rows: map<int, Version>)
  {
    forall a, b :: a in rows && b in rows && rows[a].isCurrent && rows[b].isCurrent && rows[a].product == rows[b].product ==> a == b
  }

  // ---------------------------------------------------------------------------
  // The invariant, stated two ways
  // ---------------------------------------------------------------------------

  /** The pairwise invariant holds exactly when every product has zero or one current version. */
  lemma AtMostOneCurrentIffCount(rows: map<int, Version>)
    ensures AtMostOneCurrent(rows) <==> forall p :: |CurrentOf(rows, p)| <= 1
  {
    if AtMostOneCurrent(rows) {
      forall p ensures |CurrentOf(rows, p)| <= 1 {
        SingletonBound(CurrentOf(rows, p));
      }
    } else {
      var a, b :| a in rows && b in rows && rows[a].isCurrent && rows[b].isCurrent && rows[a].product == rows[b].product && a != b;
      var cs := CurrentOf(rows, rows[a].product);
      SubsetCardinality({a, b}, cs);
    }
  }

  lemma SingletonBound(s: set<int>)
    requires forall a, b :: a in s && b in s ==> a == b
    ensures |s| <= 1
  {
    if |s| > 0 {
      NonEmptyHasElement(s);
      var x :| x in s;
      assert forall y :: y in s <==> y in {x};
      assert s == {x};
    }
  }

  lemma NonEmptyHasElement(s: set<int>)
    requires |s| > 0
    ensures exists x :: x in s
  {
    if forall x :: x !in s {
      assert false;
    }
  }

  lemma SubsetCardinality(small: set<int>, big: set<int>)
    requires small <= big
    ensures |small| <= |big|
  {
    assert big == small + (big - small);
  }

  // ---------------------------------------------------------------------------
  // What one save does
  // ---------------------------------------------------------------------------

  /**
   After a save with the flag set, the saved row is the one and only current
   version of its product.
   */
  lemma SaveCurrentIsSole(rows: map<int, Version>, pk: Option<int>, freshId: int, v: Version)
    requires v.isCurrent
    ensures CurrentOf(AfterSave(rows, pk, freshId, v), v.product) == {SaveSlot(pk, freshId)}
  {
  }

  /**
   The sweep touches only rows of the saved row's product, and of those only
   the flag: the product, the number and the name of every other row stay as
   they were, and rows of other products are not touched at all.
   */
  lemma SaveTouchesOnlySiblingFlags(rows: map<int, Version>, pk: Option<int>, freshId: int, v: Version)
    ensures AfterSave(rows, pk, freshId, v).Keys == rows.Keys + {SaveSlot(pk, freshId)}
    ensures AfterSave(rows, pk, freshId, v)[SaveSlot(pk, freshId)] == v
    ensures forall k :: k in rows && k != SaveSlot(pk, freshId) ==>
      var w := AfterSave(rows, pk, freshId, v)[k];
      && w.product == rows[k].product
      && w.versionNumber == rows[k].versionNumber
      && w.versionName == rows[k].versionName
      && (w.isCurrent ==> rows[k].isCurrent)
    ensures forall k :: k in rows && k != SaveSlot(pk, freshId) && rows[k].product != v.product ==>
      AfterSave(rows, pk, freshId, v)[k] == rows[k]
    ensures forall k :: k in rows && k != SaveSlot(pk, freshId) && rows[k].product == v.product ==>
      AfterSave(rows, pk, freshId, v)[k] == rows[k].(isCurrent := rows[k].isCurrent && !v.isCurrent)
  {
  }

  /** With the flag clear, step one is skipped: only the saved row is written. */
  lemma SaveNotCurrentWritesOnlyItself(rows: map<int, Version>, pk: Option<int>, freshId: int, v: Version)
    requires !v.isCurrent
    ensures AfterSave(rows, pk, freshId, v) == rows[SaveSlot(pk, freshId) := v]
    ensures forall k :: k in rows && k != SaveSlot(pk, freshId) ==> AfterSave(rows, pk, freshId, v)[k] == rows[k]
  {
  }

  /**
   With the flag clear, the current versions of every product are the old ones
   less the saved row: nothing is promoted in its place.
   */
  lemma SaveNotCurrentCurrents(rows: map<int, Version>, pk: Option<int>, freshId: int, v: Version, p: int)
    requires !v.isCurrent
    ensures CurrentOf(AfterSave(rows, pk, freshId, v), p) == CurrentOf(rows, p) - {SaveSlot(pk, freshId)}
  {
  }

  /**
   A product may end with no current version: demoting its only current
   version leaves it with none.
   */
  lemma DemotingSoleCurrentLeavesNone(rows: map<int, Version>, k: int, freshId: int)
    requires k in rows && CurrentOf(rows, rows[k].product) == {k}
    ensures CurrentOf(AfterSave(rows, Some(k), freshId, rows[k].(isCurrent := false)), rows[k].product) == {}
  {
    SaveNotCurrentCurrents(rows, Some(k), freshId, rows[k].(isCurrent := false), rows[k].product);
  }

  /**
   Saving a new row with the flag set demotes every pre-existing row of its
   product, since the exclusion of an unsaved row's key removes nothing.
   */
  lemma NewCurrentDemotesAllSiblings(rows: map<int, Version>, freshId: int, v: Version)
    requires freshId !in rows && v.isCurrent
    ensures AfterSave(rows, None, freshId, v).Keys == rows.Keys + {freshId}
    ensures forall k :: k in rows && rows[k].product == v.product ==>
      AfterSave(rows, None, freshId, v)[k] == rows[k].(isCurrent := false)
  {
  }

  /**
   Excluding the saved row's own key from the sweep does not change the final
   table: that row is overwritten by step two whatever the sweep did to it.
   */
  lemma ExclusionIsImmaterial(rows: map<int, Version>, pk: Option<int>, freshId: int, v: Version)
    ensures AfterSave(rows, pk, freshId, v) == AfterSave(rows, None, SaveSlot(pk, freshId), v)
  {
  }

  /** Saving a Version created with its default flag changes no other row. */
  lemma SaveDefaultVersionKeepsOthers(rows: map<int, Version>, freshId: int, product: int, versionNumber: string, versionName: string)
    requires freshId !in rows
    ensures var after := AfterSave(rows, None, freshId, NewVersion(product, versionNumber, versionName));
      && after.Keys == rows.Keys + {freshId}
      && forall k :: k in rows ==> after[k] == rows[k]
  {
  }

  // ---------------------------------------------------------------------------
  // The invariant is kept by every save and delete
  // ---------------------------------------------------------------------------

  /** If every product had at most one current version, it still has after any save. */
  lemma SavePreservesAtMostOne(rows: map<int, Version>, pk: Option<int>, freshId: int, v: Version)
    requires AtMostOneCurrent(rows)
    ensures AtMostOneCurrent(AfterSave(rows, pk, freshId, v))
  {
  }

  /** A save with the flag set leaves at most one current version per product, whatever came before. */
  lemma SaveCurrentEstablishesForItsProduct(rows: map<int, Version>, pk: Option<int>, freshId: int, v: Version)
    requires v.isCurrent
    ensures |CurrentOf(AfterSave(rows, pk, freshId, v), v.product)| == 1
  {
    SaveCurrentIsSole(rows, pk, freshId, v);
  }

  /** Deleting a row removes it from the current set of every product and keeps the invariant. */
  lemma DeletePreservesAtMostOne(rows: map<int, Version>, pk: int, p: int)
    ensures CurrentOf(AfterDelete(rows, pk), p) == CurrentOf(rows, p) - {pk}
    ensures AtMostOneCurrent(rows) ==> AtMostOneCurrent(AfterDelete(rows, pk))
  {
  }

  /** The product cascade removes exactly the rows of the doomed products and keeps the invariant. */
  lemma WithoutProductsKeepsOthers(rows: map<int, Version>, doomed: set<int>)
    ensures forall k :: k in WithoutProducts(rows, doomed) <==> k in rows && rows[k].product !in doomed
    ensures forall k :: k in WithoutProducts(rows, doomed) ==> WithoutProducts(rows, doomed)[k] == rows[k]
    ensures AtMostOneCurrent(rows) ==> AtMostOneCurrent(WithoutProducts(rows, doomed))
  {
  }

  /**
   The worked scenario: A ("1.0", current) is saved for a product, then B
   ("2.0", current) for the same product; afterwards A is not current, B is,
   and the product has exactly one current version.
   */
  lemma TwoCurrentSavesScenario(p: int)
    ensures
      var a := Version(p, "1.0", "A", true);
      var b := Version(p, "2.0", "B", true);
      var t1 := AfterSave(map[], None, 1, a);
      var t2 := AfterSave(t1, None, 2, b);
      && t1[1].isCurrent
      && t2.Keys == {1, 2}
      && !t2[1].isCurrent && t2[2].isCurrent
      && CurrentOf(t2, p) == {2}
  {
  }

  // ---------------------------------------------------------------------------
  // The table, updated in place
  // ---------------------------------------------------------------------------

  /** The Version table: rows by primary key and the key the next new row obtains. */
  class VersionTable {
    var rows: map<int, Version>
    var nextId: int

    ghost predicate Valid()
      reads this
    {
      forall k :: k in rows ==> k < nextId
    }

    constructor ()
      ensures Valid() && rows == map[] && nextId == 1
    {
      rows := map[];
      nextId := 1;
    }

    /**
     Version.save: with the flag set, first demote the product's other rows,
     then insert or overwrite the row itself. Returns the row's key.
     */
    method Save(pk: Option<int>, v: Version) returns (id: int)
      requires Valid()
      modifies this
      ensures Valid()
      ensures id == SaveSlot(pk, old(nextId))
      ensures pk.None? ==> id !in old(rows)
      ensures rows == AfterSave(old(rows), pk, old(nextId), v)
      ensures v.isCurrent ==> CurrentOf(rows, v.product) == {id}
      ensures AtMostOneCurrent(old(rows)) ==> AtMostOneCurrent(rows)
    {
      ghost var before := rows;
      if v.isCurrent {
        rows := Sweep(rows, v.product, pk);
      }
      id := if pk.Some? then pk.value else nextId;
      rows := rows[id := v];
      if nextId <= id {
        nextId := id + 1;
      }
      if v.isCurrent {
        SaveCurrentIsSole(before, pk, old(nextId), v);
      }
      if AtMostOneCurrent(before) {
        SavePreservesAtMostOne(before, pk, old(nextId), v);
      }
    }

    /** Deletes the row with key pk, if any. No other row is promoted. */
    method Delete(pk: int)
      requires Valid()
      modifies this
      ensures Valid() && nextId == old(nextId)
      ensures rows == AfterDelete(old(rows), pk)
      ensures forall p :: CurrentOf(rows, p) == CurrentOf(old(rows), p) - {pk}
      ensures AtMostOneCurrent(old(rows)) ==> AtMostOneCurrent(rows)
    {
      rows := AfterDelete(rows, pk);
      forall p ensures CurrentOf(rows, p) == CurrentOf(old(rows), p) - {pk} {
        DeletePreservesAtMostOne(old(rows), pk, p);
      }
    }

    /** The cascade from deleting the products in doomed: their rows go. */
    method DeleteOfProducts(doomed: set<int>)
      requires Valid()
      modifies this
      ensures Valid() && nextId == old(nextId)
      ensures rows == WithoutProducts(old(rows), doomed)
      ensures AtMostOneCurrent(old(rows)) ==> AtMostOneCurrent(rows)
    {
      rows := WithoutProducts(rows, doomed);
    }
  }
}
