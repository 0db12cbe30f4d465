/**
 * `validate_google_feed`: one pass over the items in document order applying
 * the required-field rule and the price-format rule, then the score.
 */
module Engine {
  import opened Wrappers
  import opened Catalog
  import opened Items
  import opened Walker
  import opened Findings
  import opened Scoring

  /** The running state of the pass: the two finding lists, `error_stats` and `missing_fields`. */
  datatype Acc = Acc(critical: seq<Finding>, warnings: seq<Finding>, stats: Stats, missing: nat)

  const Start: Acc := Acc([], [], map[], 0)

  /** One step of the required-field loop: item number `i` checked for field `f`. */
  function CheckField(acc: Acc, item: Item, i: nat, f: Field): Acc {
    if !IsMissing(item, f) then acc
    else
      var e := MissingFinding(item, i, f);
      var counted := acc.(missing := acc.missing + 1, stats := Bump(acc.stats, FieldMissing(f)));
      if e.severity == Critical then counted.(critical := acc.critical + [e])
      else counted.(warnings := acc.warnings + [e])
  }

  /** The required-field loop after its first `m` catalogue fields. */
  function CheckFieldsUpTo(acc: Acc, item: Item, i: nat, m: nat): Acc
    requires m <= |RequiredFields|
  {
    if m == 0 then acc
    else CheckField(CheckFieldsUpTo(acc, item, i, m - 1), item, i, RequiredFields[m - 1])
  }

  /** The price-format rule for item number `i`. */
  function CheckPrice(acc: Acc, item: Item, i: nat): Acc {
    if PriceFormatBad(item) then
      acc.(stats := Bump(acc.stats, PriceFormat), warnings := acc.warnings + [PriceFinding(item, i)])
    else acc
  }

  /** Both rules for item number `i`: every required field in catalogue order, then the price. */
  function CheckItem(acc: Acc, item: Item, i: nat): Acc {
    CheckPrice(CheckFieldsUpTo(acc, item, i, |RequiredFields|), item, i)
  }

  /** The state after the first `|items|` items; the last one is item number `|items|`. */
  function Run(items: seq<Item>): Acc {
    if items == [] then Start
    else CheckItem(Run(items[..|items| - 1]), items[|items| - 1], |items|)
  }

  /** The dictionary `validate_google_feed` returns. */
  datatype Report = Report(
    productsChecked: nat,
    score: int,
    criticalErrors: seq<Finding>,
    warnings: seq<Finding>,
    totalCritical: nat,
    totalWarnings: nat,
    errorStats: Stats)

  /**
   * Validation of an item sequence. The score lies in [0, 100]; the totals are
   * the list lengths; an empty feed scores 100 with nothing reported.
   */
  function ValidateItems(items: seq<Item>): (r: Report)
    ensures r.productsChecked == |items|
    ensures 0 <= r.score <= 100
    ensures r.totalCritical == |r.criticalErrors| && r.totalWarnings == |r.warnings|
    ensures items == [] ==> r == Report(0, 100, [], [], 0, 0, map[])
  {
    var acc := Run(items);
    Report(|items|, Score(|items| * FieldCount, acc.missing), acc.critical, acc.warnings,
           |acc.critical|, |acc.warnings|, acc.stats)
  }

  /** Validation of a parsed document: its `<item>` elements at any depth, in document order. */
  function ValidateFeed(root: Node): (r: Report)
    ensures r.productsChecked == |FindAllItems(root)|
    ensures 0 <= r.score <= 100
  {
    ValidateItems(FindAllItems(root))
  }

  /** The pass over one more item extends the pass over the items before it. */
  lemma RunSnoc(items: seq<Item>, k: nat)
    requires k < |items|
    ensures Run(items[..k + 1]) == CheckItem(Run(items[..k]), items[k], k + 1)
  {
    assert items[..k + 1][..k] == items[..k];
  }

  /** One step of the loop, spelled out: a missing field adds one finding, one tally and one missing slot. */
  lemma CheckFieldStep(acc: Acc, item: Item, i: nat, f: Field)
    ensures var res := CheckField(acc, item, i, f);
      var e := MissingFinding(item, i, f);
      if !IsMissing(item, f) then res == acc
      else && res.missing == acc.missing + 1
           && res.stats == Bump(acc.stats, FieldMissing(f))
           && (f in CriticalFields ==> res.critical == acc.critical + [e] && res.warnings == acc.warnings)
           && (f !in CriticalFields ==> res.critical == acc.critical && res.warnings == acc.warnings + [e])
  {
  }

  /**
   * The pass written as the source writes it: two nested loops over the items
   * and the catalogue, appending to the lists and raising the tallies in place.
   * It computes the same report as the fold.
   */
  method ValidateLoop(items: seq<Item>) returns (r: Report)
    ensures r == ValidateItems(items)
  {
    var critical: seq<Finding> := [];
    var warnings: seq<Finding> := [];
    var stats: Stats := map[];
    var missing: nat := 0;
    var k := 0;
    while k < |items|
      invariant k <= |items|
      invariant Acc(critical, warnings, stats, missing) == Run(items[..k])
    {
      var item := items[k];
      var i := k + 1;
      var productId := GetText(item, Id);
      var title := GetText(item, Title);
      var link := GetText(item, Link);
      ghost var before := Acc(critical, warnings, stats, missing);
      var j := 0;
      while j < |RequiredFields|
        invariant j <= |RequiredFields|
        invariant Acc(critical, warnings, stats, missing) == CheckFieldsUpTo(before, item, i, j)
      {
        var field := RequiredFields[j];
        CheckFieldStep(Acc(critical, warnings, stats, missing), item, i, field);
        var val := GetText(item, field);
        if Blank(val) {
          missing := missing + 1;
          var severity := if field in CriticalFields then Critical else Warning;
          stats := Bump(stats, FieldMissing(field));
          var e := Finding(i, productId, title, link, field, severity, MissingRequired);
          if severity == Critical {
            critical := critical + [e];
          } else {
            warnings := warnings + [e];
          }
        }
        j := j + 1;
      }
      var price := GetText(item, Price);
      if !Blank(price) && ' ' !in price.value {
        stats := Bump(stats, PriceFormat);
        warnings := warnings + [Finding(i, productId, title, link, Price, Warning, BadPriceFormat)];
      }
      RunSnoc(items, k);
      k := k + 1;
    }
    assert items[..k] == items;
    var score := 100;
    var total := |items| * FieldCount;
    if total > 0 {
      score := ClampLow(Percent(total, missing));
    }
    r := Report(|items|, score, critical, warnings, |critical|, |warnings|, stats);
  }
}
