/**
 The three record kinds of the catalog (Category, Product, Version) as values,
 their field defaults and choices, the field constraints a full clean checks,
 and the display string of a Version together with its inverse.
 */
module CatalogModels {

  datatype Option<+T> = None | Some(value: T)

  /** A calendar date (Product.manufactured_at); its fields are not interpreted. */
  datatype Date = Date(year: int, month: int, day: int)

  /** Category: a required name and an optional long description. */
  datatype Category = Category(name: string, description: Option<string>)

  /**
   Product. The category and the owner are references by primary key; the
   price is held as a whole number of hundredths (two decimal places).
   views_counter is a non-negative integer, so it is a nat here.
   */
  datatype Product = Product(
    name: string,
    description: Option<string>,
    category: Option<int>,
    purchasePriceCents: int,
    manufacturedAt: Option<Date>,
    viewsCounter: nat,
    owner: Option<int>,
    publicationStatus: string)

  /** Version: a required reference to its product and a currency flag. */
  datatype Version = Version(
    product: int,
    versionNumber: string,
    versionName: string,
    isCurrent: bool)

  // ---------------------------------------------------------------------------
  // Defaults and choices
  // ---------------------------------------------------------------------------

  const DraftStatus: string := "draft"
  const PublishedStatus: string := "published"

  /** The stored values of PUBLICATION_STATUS_CHOICES. */
  const StatusChoices: seq<string> := [DraftStatus, PublishedStatus]

  /** Field lengths and the decimal precision declared on the fields. */
  const CategoryNameMaxLength: nat := 100
  const ProductNameMaxLength: nat := 50
  const ProductDescriptionMaxLength: nat := 255
  const PublicationStatusMaxLength: nat := 10
  const VersionNumberMaxLength: nat := 50
  const VersionNameMaxLength: nat := 100
  /** max_digits=10 with decimal_places=2: at most 10 digits of cents. */
  const PriceCentsBound: int := 10_000_000_000

  /** A Product as created from its two required fields and an optional owner. */
  function NewProduct(name: string, purchasePriceCents: int, owner: Option<int>): Product
  {
    Product(name, None, None, purchasePriceCents, None, 0, owner, DraftStatus)
  }

  /** A Version as created from its required fields. */
  function NewVersion(product: int, versionNumber: string, versionName: string): Version
  {
    Version(product, versionNumber, versionName, false)
  }

  /**
   The primary key a saved record is written at: its own key when it has one
   (an update, or an insert at that key), else the next key the table hands out.
   */
  function SaveSlot(pk: Option<int>, freshId: int): int
  {
    if pk.Some? then pk.value else freshId
  }

  // ---------------------------------------------------------------------------
  // Field constraints (checked by a full clean; saving does not check them)
  // ---------------------------------------------------------------------------

  /** A required character field: not blank and within its maximum length. */
  predicate RequiredText(s: string, maxLength: nat)
  {
    0 < |s| <= maxLength
  }

  /** An optional character field: absent, or within its maximum length. */
  predicate OptionalText(s: Option<string>, maxLength: nat)
  {
    s.None? || |s.value| <= maxLength
  }

  predicate PriceFits(cents: int)
  {
    -PriceCentsBound < cents < PriceCentsBound
  }

  predicate IsStatusChoice(s: string)
  {
    s in StatusChoices
  }

  predicate CategoryClean(c: Category)
  {
    RequiredText(c.name, CategoryNameMaxLength)
  }

  predicate ProductClean(p: Product)
  {
    && RequiredText(p.name, ProductNameMaxLength)
    && OptionalText(p.description, ProductDescriptionMaxLength)
    && PriceFits(p.purchasePriceCents)
    && |p.publicationStatus| <= PublicationStatusMaxLength
    && IsStatusChoice(p.publicationStatus)
  }

  predicate VersionClean(v: Version)
  {
    && RequiredText(v.versionNumber, VersionNumberMaxLength)
    && RequiredText(v.versionName, VersionNameMaxLength)
  }

  /** Every declared choice fits the status column, and the default is one of them. */
  lemma StatusChoicesFit()
    ensures forall s :: s in StatusChoices ==> 0 < |s| <= PublicationStatusMaxLength
    ensures IsStatusChoice(DraftStatus)
    ensures StatusChoices == [DraftStatus, PublishedStatus] && DraftStatus != PublishedStatus
  {
  }

  /**
   A Product created with a valid name and price passes the full clean: its
   defaults (no category, zero views, status "draft") are all admissible.
   */
  lemma NewProductIsClean(name: string, purchasePriceCents: int, owner: Option<int>)
    requires RequiredText(name, ProductNameMaxLength) && PriceFits(purchasePriceCents)
    ensures ProductClean(NewProduct(name, purchasePriceCents, owner))
    ensures NewProduct(name, purchasePriceCents, owner).viewsCounter == 0
    ensures NewProduct(name, purchasePriceCents, owner).publicationStatus == DraftStatus
    ensures NewProduct(name, purchasePriceCents, owner).category.None?
  {
  }

  /** A Version created without an explicit flag is not current, and is clean when its texts are. */
  lemma NewVersionDefaults(product: int, versionNumber: string, versionName: string)
    ensures !NewVersion(product, versionNumber, versionName).isCurrent
    ensures VersionClean(NewVersion(product, versionNumber, versionName))
        <==> RequiredText(versionNumber, VersionNumberMaxLength) && RequiredText(versionName, VersionNameMaxLength)
  {
  }

  // ---------------------------------------------------------------------------
  // Display string of a Version and its inverse
  // ---------------------------------------------------------------------------

  /** "<product name> - <version name> (<version number>)". */
  function VersionLabel(productName: string, v: Version): (r: string)
    ensures |r| == |productName| + |v.versionName| + |v.versionNumber| + 6
    ensures r[..|productName|] == productName
    ensures r[|productName| + 3..|productName| + 3 + |v.versionName|] == v.versionName
    ensures r[|r| - 1] == ')'
  {
    productName + " - " + v.versionName + " (" + v.versionNumber + ")"
  }

  /** The position of the last occurrence of c in s, if any. */
  function LastIndexOf(s: string, c: char): (r: Option<nat>)
    ensures r.Some? ==> r.value < |s| && s[r.value] == c && c !in s[r.value + 1..]
    ensures r.None? ==> c !in s
  {
    if |s| == 0 then None
    else if s[|s| - 1] == c then Some(|s| - 1)
    else
      var r := LastIndexOf(s[..|s| - 1], c);
      assert s == s[..|s| - 1] + [s[|s| - 1]];
      r
  }

  /** The text between the last "(" and a closing ")" that ends the display. */
  function LabelNumber(display: string): Option<string>
  {
    if |display| == 0 || display[|display| - 1] != ')' then None
    else
      match LastIndexOf(display[..|display| - 1], '(')
      case None => None
      case Some(i) => Some(display[i + 1..|display| - 1])
  }

  /** The last occurrence of c in a + [c] + b, when b has none, is at |a|. */
  lemma LastIndexOfAfterPrefix(a: string, c: char, b: string)
    requires c !in b
    ensures LastIndexOf(a + [c] + b, c) == Some(|a|)
  {
    var s := a + [c] + b;
    var r := LastIndexOf(s, c);
    assert s[|a|] == c;
    assert s[|a| + 1..] == b;
  }

  /**
   The version number can be read back from the display string whenever it
   contains no "(" of its own.
   */
  lemma LabelNumberRoundTrip(productName: string, v: Version)
    requires '(' !in v.versionNumber
    ensures LabelNumber(VersionLabel(productName, v)) == Some(v.versionNumber)
  {
    var display := VersionLabel(productName, v);
    var prefix := productName + " - " + v.versionName + " ";
    assert display == prefix + ['('] + v.versionNumber + [')'];
    assert display[..|display| - 1] == prefix + ['('] + v.versionNumber;
    LastIndexOfAfterPrefix(prefix, '(', v.versionNumber);
  }
}
