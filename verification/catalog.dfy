/**
 * The fixed field catalogue of the Google Shopping feed validator: the seven
 * required `g:` attributes, in the order the validator checks them, and the
 * four whose absence is critical.
 */
module Catalog {

  datatype Field = Id | Title | Description | Link | ImageLink | Price | Availability

  /** REQUIRED_FIELDS, in catalogue order. */
  const RequiredFields: seq<Field> := [Id, Title, Description, Link, ImageLink, Price, Availability]

  /** CRITICAL_FIELDS. */
  const CriticalFields: set<Field> := {Id, Link, Price, Availability}

  /** The number of required fields, `len(REQUIRED_FIELDS)`. */
  const FieldCount: nat := 7

  /** The attribute name the feed uses for `f` (the local name under the `g:` prefix). */
  function FieldName(f: Field): string {
    match f
    case Id => "id"
    case Title => "title"
    case Description => "description"
    case Link => "link"
    case ImageLink => "image_link"
    case Price => "price"
    case Availability => "availability"
  }

  /** The position of `f` in the catalogue: indexing the catalogue there gives `f` back. */
  function FieldPos(f: Field): (p: nat)
    ensures p < |RequiredFields| && RequiredFields[p] == f
  {
    match f
    case Id => 0
    case Title => 1
    case Description => 2
    case Link => 3
    case ImageLink => 4
    case Price => 5
    case Availability => 6
  }

  /**
   * The catalogue is well formed: it has `FieldCount` entries, each field
   * appears exactly once (so `FieldPos` inverts indexing), and every critical
   * field is a required field.
   */
  lemma CatalogueWellFormed()
    ensures |RequiredFields| == FieldCount
    ensures forall j :: 0 <= j < |RequiredFields| ==> FieldPos(RequiredFields[j]) == j
    ensures forall f :: f in CriticalFields ==> f in RequiredFields
    ensures forall f: Field :: f in RequiredFields
  {
    forall f: Field ensures f in RequiredFields {
      assert RequiredFields[FieldPos(f)] == f;
    }
  }

  /** Distinct fields have distinct attribute names, so the enumeration loses nothing. */
  lemma FieldNamesDistinct(f: Field, g: Field)
    requires f != g
    ensures FieldName(f) != FieldName(g)
  {
  }
}
