/**
 Default listing orders: Versions by version number, descending, and
 Categories by name, ascending. Both compare the texts as strings, character
 by character (code-point order, a proper prefix first), never as numbers.
 */
module ListingOrder {
  import opened CatalogModels

  /** a comes no later than b in lexicographic string order. */
  predicate LexLe(a: string, b: string)
  {
    |a| == 0 || (|b| > 0 && (a[0] < b[0] || (a[0] == b[0] && LexLe(a[1..], b[1..]))))
  }

  lemma {:induction false} LexLeReflexive(a: string)
    ensures LexLe(a, a)
  {
    if |a| > 0 {
      LexLeReflexive(a[1..]);
    }
  }

  lemma {:induction false} LexLeAntisymmetric(a: string, b: string)
    requires LexLe(a, b) && LexLe(b, a)
    ensures a == b
  {
    if |a| > 0 && |b| > 0 {
      LexLeAntisymmetric(a[1..], b[1..]);
      assert a == [a[0]] + a[1..];
      assert b == [b[0]] + b[1..];
    }
  }

  lemma {:induction false} LexLeTransitive(a: string, b: string, c: string)
    requires LexLe(a, b) && LexLe(b, c)
    ensures LexLe(a, c)
  {
    if |a| > 0 && a[0] == b[0] && b[0] == c[0] {
      LexLeTransitive(a[1..], b[1..], c[1..]);
    }
  }

  lemma {:induction false} LexLeTotal(a: string, b: string)
    ensures LexLe(a, b) || LexLe(b, a)
  {
    if |a| > 0 && |b| > 0 && a[0] == b[0] {
      LexLeTotal(a[1..], b[1..]);
    }
  }

  /** Under string order "1.10" comes before "1.9", and "1.9" before "2.0". */
  lemma StringOrderIsNotNumeric()
    ensures LexLe("1.10", "1.9") && !LexLe("1.9", "1.10")
    ensures LexLe("1.9", "2.0") && !LexLe("2.0", "1.9")
  {
  }

  // ---------------------------------------------------------------------------
  // Ordering a listing by a text key
  // ---------------------------------------------------------------------------

  datatype Direction = Ascending | Descending

  /** A key a may be listed before a key b. */
  predicate InOrder(a: string, b: string, d: Direction)
  {
    match d
    case Ascending => LexLe(a, b)
    case Descending => LexLe(b, a)
  }

  lemma InOrderTotal(a: string, b: string, d: Direction)
    ensures InOrder(a, b, d) || InOrder(b, a, d)
  {
    LexLeTotal(a, b);
  }

  lemma InOrderTransitive(a: string, b: string, c: string, d: Direction)
    requires InOrder(a, b, d) && InOrder(b, c, d)
    ensures InOrder(a, c, d)
  {
    if d.Ascending? {
      LexLeTransitive(a, b, c);
    } else {
      LexLeTransitive(c, b, a);
    }
  }

  predicate SortedBy<T>(s: seq<T>, key: T -> string, d: Direction)
  {
    forall i, j :: 0 <= i < j < |s| ==> InOrder(key(s[i]), key(s[j]), d)
  }

  /** Places x before the first element it may precede. */
  function InsertBy<T>(x: T, s: seq<T>, key: T -> string, d: Direction): (r: seq<T>)
    ensures multiset(r) == multiset(s) + multiset{x}
  {
    if |s| == 0 then [x]
    else if InOrder(key(x), key(s[0]), d) then [x] + s
    else
      assert s == [s[0]] + s[1..];
      [s[0]] + InsertBy(x, s[1..], key, d)
  }

  lemma {:induction false} InsertBySorted<T>(x: T, s: seq<T>, key: T -> string, d: Direction)
    requires SortedBy(s, key, d)
    ensures SortedBy(InsertBy(x, s, key, d), key, d)
  {
    if |s| > 0 {
      if InOrder(key(x), key(s[0]), d) {
        var r := [x] + s;
        forall j | 0 < j < |r|
          ensures InOrder(key(x), key(r[j]), d)
        {
          if j > 1 {
            InOrderTransitive(key(x), key(s[0]), key(s[j - 1]), d);
          }
        }
      } else {
        InOrderTotal(key(x), key(s[0]), d);
        var t := InsertBy(x, s[1..], key, d);
        InsertBySorted(x, s[1..], key, d);
        forall j | 0 <= j < |t|
          ensures InOrder(key(s[0]), key(t[j]), d)
        {
          assert t[j] in multiset(t);
          assert t[j] in multiset(s[1..]) || t[j] == x;
          if t[j] != x {
            var k :| 0 <= k < |s[1..]| && s[1..][k] == t[j];
            assert s[k + 1] == t[j];
          }
        }
        var r := [s[0]] + t;
        assert forall i, j :: 0 < i < j < |r| ==> r[i] == t[i - 1] && r[j] == t[j - 1];
      }
    }
  }

  /** A stable insertion sort: the listing order for key and direction d. */
  function SortBy<T>(s: seq<T>, key: T -> string, d: Direction): (r: seq<T>)
    ensures multiset(r) == multiset(s)
    ensures SortedBy(r, key, d)
  {
    if |s| == 0 then []
    else
      var t := SortBy(s[1..], key, d);
      InsertBySorted(s[0], t, key, d);
      assert s == [s[0]] + s[1..];
      InsertBy(s[0], t, key, d)
  }

  /** Version listing (ordering = "-version_number"). */
  function OrderVersions(vs: seq<Version>): (r: seq<Version>)
    ensures multiset(r) == multiset(vs)
    ensures forall i, j :: 0 <= i < j < |r| ==> LexLe(r[j].versionNumber, r[i].versionNumber)
  {
    var r := SortBy(vs, (v: Version) => v.versionNumber, Descending);
    assert forall i, j :: 0 <= i < j < |r| ==> InOrder(r[i].versionNumber, r[j].versionNumber, Descending);
    r
  }

  /** Category listing (ordering = "name"). */
  function OrderCategories(cs: seq<Category>): (r: seq<Category>)
    ensures multiset(r) == multiset(cs)
    ensures forall i, j :: 0 <= i < j < |r| ==> LexLe(r[i].name, r[j].name)
  {
    var r := SortBy(cs, (c: Category) => c.name, Ascending);
    assert forall i, j :: 0 <= i < j < |r| ==> InOrder(r[i].name, r[j].name, Ascending);
    r
  }

  /** Versions "1.10", "1.9" and "2.0" of one product are listed "2.0", "1.9", "1.10". */
  lemma VersionListingExample(p: int)
    ensures
      var v110 := Version(p, "1.10", "b", false);
      var v19 := Version(p, "1.9", "a", false);
      var v20 := Version(p, "2.0", "c", true);
      OrderVersions([v110, v19, v20]) == [v20, v19, v110]
  {
  }
}
