/**
 * Single-item feeds worked through the validator: the exact reports the rules
 * imply for an item with every field present, one lacking only `description`
 * or only `price`, one whose price has no space, and an `id` of whitespace
 * only. `Complete` is a concrete item that the worked examples start from.
 */
module Scenarios {
  import opened Wrappers
  import opened Text
  import opened Catalog
  import opened Items
  import opened Findings
  import opened Scoring
  import opened Engine
  import opened ItemRules
  import opened Properties

  /** An item supplying every required field, with a well-formed price. */
  const Complete: Item := map[
    Id := Some("42"),
    Title := Some("Mug"),
    Description := Some("A white mug"),
    Link := Some("https://shop.example/42"),
    ImageLink := Some("https://shop.example/42.jpg"),
    Price := Some("99.99 PLN"),
    Availability := Some("in stock")]

  /** A field whose text has no surrounding whitespace is present and read back verbatim. */
  lemma PresentAsWritten(item: Item, f: Field)
    requires f in item && item[f].Some? && item[f].value != []
    requires !IsSpace(item[f].value[0]) && !IsSpace(item[f].value[|item[f].value| - 1])
    ensures GetText(item, f) == item[f] && !IsMissing(item, f)
  {
    StripKeepsTrimmed(item[f].value);
  }

  /** Steps of the required-field loop over fields an item supplies change nothing. */
  lemma {:induction false} PresentFieldsSkipped(acc: Acc, item: Item, i: nat, a: nat, b: nat)
    requires a <= b <= |RequiredFields|
    requires forall f :: a <= FieldPos(f) < b ==> !IsMissing(item, f)
    ensures CheckFieldsUpTo(acc, item, i, b) == CheckFieldsUpTo(acc, item, i, a)
    decreases b
  {
    if a < b {
      PresentFieldsSkipped(acc, item, i, a, b - 1);
      CatalogueWellFormed();
      assert FieldPos(RequiredFields[b - 1]) == b - 1;
    }
  }

  lemma CompleteFieldsPresent(f: Field)
    ensures !IsMissing(Complete, f)
  {
    PresentAsWritten(Complete, f);
  }

  /**
   * Any item supplying every required field, whose price has a space: no
   * findings, no tallies, score 100.
   */
  lemma CompleteItemIsClean(item: Item)
    requires forall g :: !IsMissing(item, g)
    requires !PriceFormatBad(item)
    ensures ValidateItems([item]) == Report(1, 100, [], [], 0, 0, map[])
  {
    PresentFieldsSkipped(Start, item, 1, 0, |RequiredFields|);
    SingleItemRun(item);
  }

  /** `Complete` is such an item: its report is empty, with score 100. */
  lemma CompleteExample()
    ensures ValidateItems([Complete]) == Report(1, 100, [], [], 0, 0, map[])
  {
    forall g ensures !IsMissing(Complete, g) {
      CompleteFieldsPresent(g);
    }
    CompletePriceAccepted(Complete);
    CompleteItemIsClean(Complete);
  }

  /** Every field of `Complete` other than `f` is present in `item`, which agrees with `Complete` on them. */
  predicate CompleteExcept(item: Item, f: Field) {
    forall g :: g != f ==> g in item && g in Complete && item[g] == Complete[g]
  }

  lemma OthersPresent(item: Item, f: Field)
    requires CompleteExcept(item, f)
    ensures forall g :: g != f ==> !IsMissing(item, g)
  {
    forall g | g != f ensures !IsMissing(item, g) {
      PresentAsWritten(item, g);
    }
  }

  /** The price of `Complete`, "99.99 PLN", passes the price-format rule. */
  lemma CompletePriceAccepted(item: Item)
    requires Price in item && item[Price] == Complete[Price]
    ensures !PriceFormatBad(item)
  {
    PresentAsWritten(item, Price);
    assert ("99.99 PLN")[5] == ' ';
  }

  /** A one-item feed is one application of both rules to item number 1. */
  lemma SingleItemRun(item: Item)
    ensures Run([item]) == CheckItem(Start, item, 1)
  {
    assert [item][..0] == [];
  }

  /** One slot missing out of seven: `round(100 − 100/7)` = `round(85.71…)` = 86. */
  lemma OneOfSevenScore()
    ensures Score(7, 1) == 86
  {
  }

  /** The state after the required-field loop over an item that lacks only `f`. */
  function OneMissing(item: Item, f: Field): Acc {
    var e := MissingFinding(item, 1, f);
    if f in CriticalFields then Acc([e], [], map[FieldMissing(f) := 1], 1)
    else Acc([], [e], map[FieldMissing(f) := 1], 1)
  }

  /** The required-field loop over an item lacking only `f` reports `f` alone. */
  lemma OnlyMissingField(item: Item, f: Field)
    requires IsMissing(item, f)
    requires forall g :: g != f ==> !IsMissing(item, g)
    ensures CheckFieldsUpTo(Start, item, 1, |RequiredFields|) == OneMissing(item, f)
  {
    var p := FieldPos(f);
    assert CheckFieldsUpTo(Start, item, 1, p) == Start by {
      PresentFieldsSkipped(Start, item, 1, 0, p);
    }
    assert CheckFieldsUpTo(Start, item, 1, p + 1) == OneMissing(item, f) by {
      CheckFieldStep(Start, item, 1, f);
    }
    assert CheckFieldsUpTo(Start, item, 1, |RequiredFields|) == CheckFieldsUpTo(Start, item, 1, p + 1) by {
      PresentFieldsSkipped(Start, item, 1, p + 1, |RequiredFields|);
    }
  }

  /**
   * Any item lacking only `description`: no critical finding, one warning for
   * the field, `{"description": 1}` and score `round(100 − 100/7)` = 86; when
   * its price has no space, the price-format warning and its tally follow.
   */
  lemma MissingDescriptionScenario(item: Item)
    requires IsMissing(item, Description)
    requires forall g :: g != Description ==> !IsMissing(item, g)
    ensures var e := MissingFinding(item, 1, Description);
      ValidateItems([item])
        == if PriceFormatBad(item) then
             Report(1, 86, [], [e, PriceFinding(item, 1)], 0, 2,
                    map[FieldMissing(Description) := 1, PriceFormat := 1])
           else
             Report(1, 86, [], [e], 0, 1, map[FieldMissing(Description) := 1])
  {
    OnlyMissingField(item, Description);
    SingleItemRun(item);
    OneOfSevenScore();
  }

  /**
   * Any item lacking only `price`: a single critical finding, no warning (the
   * format rule needs a price), `{"price": 1}` and score 86.
   */
  lemma MissingPriceScenario(item: Item)
    requires IsMissing(item, Price)
    requires forall g :: g != Price ==> !IsMissing(item, g)
    ensures ValidateItems([item])
      == Report(1, 86, [MissingFinding(item, 1, Price)], [], 1, 0, map[FieldMissing(Price) := 1])
  {
    OnlyMissingField(item, Price);
    SingleItemRun(item);
    OneOfSevenScore();
  }

  /**
   * Any item supplying every required field whose price has no space: one
   * price warning, `{"price_format": 1}`, and the score stays 100.
   */
  lemma GluedPriceScenario(item: Item)
    requires forall g :: !IsMissing(item, g)
    requires PriceFormatBad(item)
    ensures ValidateItems([item])
      == Report(1, 100, [], [PriceFinding(item, 1)], 0, 1, map[PriceFormat := 1])
  {
    PresentFieldsSkipped(Start, item, 1, 0, |RequiredFields|);
    SingleItemRun(item);
  }

  /** `Complete` with its price written "99.99PLN" draws the price warning. */
  lemma GluedPriceExample()
    ensures var item := Complete[Price := Some("99.99PLN")];
      ValidateItems([item]) == Report(1, 100, [], [PriceFinding(item, 1)], 0, 1, map[PriceFormat := 1])
  {
    var item := Complete[Price := Some("99.99PLN")];
    assert CompleteExcept(item, Price);
    OthersPresent(item, Price);
    PresentAsWritten(item, Price);
    assert ' ' !in "99.99PLN";
    GluedPriceScenario(item);
  }

  /**
   * In any feed, an `id` element of whitespace only counts as missing, yet the
   * finding carries the empty string as its `product_id`, not an absent one:
   * the lookup strips after testing the text, so the empty result is passed on.
   */
  lemma BlankIdReportedAsEmpty(items: seq<Item>, k: nat, s: string)
    requires k < |items| && Id in items[k] && items[k][Id] == Some(s) && s != [] && AllSpace(s)
    ensures MissingFinding(items[k], k + 1, Id) in ValidateItems(items).criticalErrors
    ensures MissingFinding(items[k], k + 1, Id).productId == Some("")
  {
    MissingIffBlankText(items[k], Id);
    StripEnds(s);
    MissingFieldReportedIff(items, k, Id);
  }
}
