/**
 * A feed item and `get_text`, the lookup of one of its `g:` child elements.
 */
module Items {
  import opened Wrappers
  import opened Text
  import opened Catalog

  /**
   * One `<item>` element, seen through its `g:` children: a field that is not
   * a key has no element; `None` is an element without text; `Some(t)` is an
   * element whose text is `t`, before any trimming.
   */
  type Item = map<Field, Option<string>>

  /**
   * `get_text`: absent when there is no element or its text is empty, otherwise
   * the text stripped of surrounding whitespace. Whitespace-only text is not
   * empty before stripping, so it comes back as `Some("")`.
   */
  function GetText(item: Item, f: Field): Option<string> {
    if f in item && item[f].Some? && item[f].value != [] then Some(Strip(item[f].value)) else None
  }

  /** Python truthiness failing on a looked-up value: `not val`. */
  predicate Blank(v: Option<string>) {
    v.None? || v.value == []
  }

  /** The required-field rule's test: the item does not supply `f`. */
  predicate IsMissing(item: Item, f: Field) {
    Blank(GetText(item, f))
  }

  /**
   * Missing means: no element, an element without text, or text that is all
   * whitespace. A field holding only spaces is missing exactly like an absent one.
   */
  lemma MissingIffBlankText(item: Item, f: Field)
    ensures IsMissing(item, f) <==> f !in item || item[f].None? || AllSpace(item[f].value)
  {
    if f in item && item[f].Some? {
      StripEnds(item[f].value);
    }
  }

  /** A present field is reported by `get_text` as non-empty stripped text. */
  lemma PresentFieldIsStrippedText(item: Item, f: Field)
    requires !IsMissing(item, f)
    ensures f in item && item[f].Some?
    ensures GetText(item, f).value == Strip(item[f].value) != []
    ensures !IsSpace(GetText(item, f).value[0])
  {
    StripEnds(item[f].value);
  }
}
