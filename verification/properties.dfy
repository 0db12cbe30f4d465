/**
 * Properties of the report `validate_google_feed` returns, stated for every
 * item sequence.
 */
module Properties {
  import opened Wrappers
  import opened Text
  import opened Catalog
  import opened Items
  import opened Findings
  import opened Scoring
  import opened Engine
  import opened ItemRules
  import opened FeedRules

  /**
   * Counting: at most `products_checked · 7` slots are missing; each missing
   * slot has exactly one required-field finding across the two lists; the
   * required-field tallies of `error_stats` add up to the same number; and the
   * score is computed from that number alone.
   */
  lemma CountsAgree(items: seq<Item>)
    ensures var r := ValidateItems(items);
      && TotalMissing(items) <= r.productsChecked * FieldCount
      && |r.criticalErrors| + CountProblem(r.warnings, MissingRequired) == TotalMissing(items)
      && SumRequired(r.errorStats) == TotalMissing(items)
      && r.score == Score(r.productsChecked * FieldCount, TotalMissing(items))
  {
    RunCounts(items);
    TotalMissingBound(items);
  }

  /**
   * `error_stats` is exact: each field's tally is the number of items lacking
   * it, `price_format` is the number of items with a bad price, a key is
   * present only with a positive tally, and no tally exceeds `products_checked`.
   */
  lemma StatsAgree(items: seq<Item>)
    ensures var r := ValidateItems(items);
      && (forall k :: StatOf(r.errorStats, k) == RefCount(items, k))
      && (forall k :: k in r.errorStats <==> RefCount(items, k) > 0)
      && (forall k :: k in r.errorStats ==> 0 < r.errorStats[k] <= r.productsChecked)
  {
    RunStats(items);
  }

  /**
   * Severity: a critical finding is always a missing critical field; a warning
   * is either a missing non-critical field or the price-format warning on `price`.
   */
  lemma SeverityClassification(items: seq<Item>)
    ensures var r := ValidateItems(items);
      && (forall x :: x in r.criticalErrors ==>
            x.severity == Critical && x.error == MissingRequired && x.field in CriticalFields)
      && (forall x :: x in r.warnings ==>
            && x.severity == Warning
            && (x.error == MissingRequired ==> x.field !in CriticalFields)
            && (x.error == BadPriceFormat ==> x.field == Price))
  {
    var r := ValidateItems(items);
    forall x | x in r.criticalErrors
      ensures x.severity == Critical && x.error == MissingRequired && x.field in CriticalFields
    {
      CriticalMember(items, x);
    }
    forall x | x in r.warnings
      ensures x.severity == Warning
      ensures x.error == MissingRequired ==> x.field !in CriticalFields
      ensures x.error == BadPriceFormat ==> x.field == Price
    {
      WarningMember(items, x);
    }
  }

  /**
   * A required field is reported against item `k + 1` exactly when that item
   * lacks it, in the critical list when the field is critical and among the
   * warnings otherwise.
   */
  lemma MissingFieldReportedIff(items: seq<Item>, k: nat, f: Field)
    requires k < |items|
    ensures var r := ValidateItems(items);
      var x := MissingFinding(items[k], k + 1, f);
      && (x in r.criticalErrors <==> IsMissing(items[k], f) && f in CriticalFields)
      && (x in r.warnings <==> IsMissing(items[k], f) && f !in CriticalFields)
  {
    var acc := Run(items);
    var x := MissingFinding(items[k], k + 1, f);
    if IsMissing(items[k], f) {
      RunReportsMissing(items);
      assert x in (if f in CriticalFields then acc.critical else acc.warnings);
    }
    if x in acc.critical {
      CriticalMember(items, x);
    }
    if x in acc.warnings {
      WarningMember(items, x);
    }
  }

  /**
   * The price-format warning is reported against item `k + 1` exactly when its
   * stripped price is non-empty and has no space (and only once: `ReportedOnce`).
   */
  lemma PriceWarningIff(items: seq<Item>, k: nat)
    requires k < |items|
    ensures var r := ValidateItems(items);
      (PriceFinding(items[k], k + 1) in r.warnings)
        <==> (var p := GetText(items[k], Price); p.Some? && p.value != [] && ' ' !in p.value)
  {
    RunReportsPrice(items);
    var x := PriceFinding(items[k], k + 1);
    if x in Run(items).warnings {
      WarningMember(items, x);
    }
  }

  /**
   * The price rule only fires on a present price: an absent, text-less or
   * whitespace-only price is a missing field and never a format warning.
   */
  lemma BlankPriceNeverWarns(item: Item)
    requires Price !in item || item[Price].None? || AllSpace(item[Price].value)
    ensures IsMissing(item, Price) && !PriceFormatBad(item)
  {
    MissingIffBlankText(item, Price);
  }

  /**
   * Order: each list is in strictly ascending report order, so item indices
   * never decrease along it, and every index lies in [1, products_checked].
   */
  lemma ReportOrder(items: seq<Item>)
    ensures var r := ValidateItems(items);
      && Ascending(r.criticalErrors) && Ascending(r.warnings)
      && (forall p, q :: 0 <= p < q < |r.criticalErrors| ==>
            r.criticalErrors[p].index <= r.criticalErrors[q].index)
      && (forall p, q :: 0 <= p < q < |r.warnings| ==> r.warnings[p].index <= r.warnings[q].index)
      && (forall x :: x in r.criticalErrors ==> 1 <= x.index <= |items|)
      && (forall x :: x in r.warnings ==> 1 <= x.index <= |items|)
  {
    RunOrder(items);
    var r := ValidateItems(items);
    forall p, q | 0 <= p < q < |r.criticalErrors|
      ensures r.criticalErrors[p].index <= r.criticalErrors[q].index
    {
      AscendingIndices(r.criticalErrors, p, q);
    }
    forall p, q | 0 <= p < q < |r.warnings|
      ensures r.warnings[p].index <= r.warnings[q].index
    {
      AscendingIndices(r.warnings, p, q);
    }
    forall x | x in r.criticalErrors ensures 1 <= x.index <= |items| {
      CriticalMember(items, x);
    }
    forall x | x in r.warnings ensures 1 <= x.index <= |items| {
      WarningMember(items, x);
    }
  }

  /**
   * Nothing is reported twice for one item: no field is reported missing twice
   * against the same item, and each item has at most one price-format warning.
   */
  lemma ReportedOnce(items: seq<Item>)
    ensures var r := ValidateItems(items);
      && (forall p, q :: 0 <= p < q < |r.criticalErrors| && r.criticalErrors[p].index == r.criticalErrors[q].index
            ==> r.criticalErrors[p].field != r.criticalErrors[q].field)
      && (forall p, q :: 0 <= p < q < |r.warnings| && r.warnings[p].index == r.warnings[q].index
            ==> r.warnings[p].error != r.warnings[q].error || r.warnings[p].field != r.warnings[q].field)
      && (forall p, q :: 0 <= p < q < |r.warnings| && r.warnings[p].index == r.warnings[q].index
            ==> !(r.warnings[p].error == BadPriceFormat && r.warnings[q].error == BadPriceFormat))
  {
    RunOrder(items);
    var r := ValidateItems(items);
    forall p, q | 0 <= p < q < |r.criticalErrors| && r.criticalErrors[p].index == r.criticalErrors[q].index
      ensures r.criticalErrors[p].field != r.criticalErrors[q].field
    {
      AscendingDistinctSlots(r.criticalErrors, p, q);
      CriticalMember(items, r.criticalErrors[p]);
      CriticalMember(items, r.criticalErrors[q]);
    }
    forall p, q | 0 <= p < q < |r.warnings| && r.warnings[p].index == r.warnings[q].index
      ensures r.warnings[p].error != r.warnings[q].error || r.warnings[p].field != r.warnings[q].field
    {
      AscendingDistinctSlots(r.warnings, p, q);
    }
    forall p, q | 0 <= p < q < |r.warnings| && r.warnings[p].index == r.warnings[q].index
      ensures !(r.warnings[p].error == BadPriceFormat && r.warnings[q].error == BadPriceFormat)
    {
      assert Key(r.warnings[p]) < Key(r.warnings[q]);
    }
  }

  /** Feed `b` lacks at least every field feed `a` lacks, item by item. */
  predicate LacksAtLeast(a: seq<Item>, b: seq<Item>) {
    |a| == |b| && forall k, f :: 0 <= k < |a| && IsMissing(a[k], f) ==> IsMissing(b[k], f)
  }

  lemma {:induction false} MissingAmongMonotone(x: Item, y: Item, m: nat)
    requires m <= |RequiredFields|
    requires forall f :: IsMissing(x, f) ==> IsMissing(y, f)
    ensures MissingAmong(x, m) <= MissingAmong(y, m)
  {
    if m > 0 {
      MissingAmongMonotone(x, y, m - 1);
    }
  }

  lemma {:induction false} TotalMissingMonotone(a: seq<Item>, b: seq<Item>)
    requires LacksAtLeast(a, b)
    ensures TotalMissing(a) <= TotalMissing(b)
  {
    if a != [] {
      var n := |a|;
      assert LacksAtLeast(a[..n - 1], b[..n - 1]);
      TotalMissingMonotone(a[..n - 1], b[..n - 1]);
      MissingAmongMonotone(a[n - 1], b[n - 1], |RequiredFields|);
    }
  }

  /** Leaving more required fields missing, on the same items, never raises the score. */
  lemma ScoreMonotoneInMissing(a: seq<Item>, b: seq<Item>)
    requires LacksAtLeast(a, b)
    ensures ValidateItems(b).score <= ValidateItems(a).score
  {
    CountsAgree(a);
    CountsAgree(b);
    TotalMissingMonotone(a, b);
    ScoreMonotone(|a| * FieldCount, TotalMissing(a), TotalMissing(b));
  }

  /**
   * The price rule never touches the score: two feeds whose items have the same
   * fields present (whatever the price text, spaces or not) score the same and
   * count the same missing slots, whatever their price-format warnings.
   */
  lemma PriceRuleLeavesScore(a: seq<Item>, b: seq<Item>)
    requires LacksAtLeast(a, b) && LacksAtLeast(b, a)
    ensures ValidateItems(a).score == ValidateItems(b).score
    ensures TotalMissing(a) == TotalMissing(b)
  {
    TotalMissingMonotone(a, b);
    TotalMissingMonotone(b, a);
    CountsAgree(a);
    CountsAgree(b);
  }

  /**
   * Two items the rules cannot tell apart: the same `id`, `title` and `link`
   * as `get_text` reads them, the same missing fields, and the same verdict of
   * the price-format rule.
   */
  predicate SameToRules(x: Item, y: Item) {
    && GetText(x, Id) == GetText(y, Id)
    && GetText(x, Title) == GetText(y, Title)
    && GetText(x, Link) == GetText(y, Link)
    && (forall f :: IsMissing(x, f) == IsMissing(y, f))
    && PriceFormatBad(x) == PriceFormatBad(y)
  }

  lemma {:induction false} SameFieldsUpTo(acc: Acc, x: Item, y: Item, i: nat, m: nat)
    requires SameToRules(x, y) && m <= |RequiredFields|
    ensures CheckFieldsUpTo(acc, x, i, m) == CheckFieldsUpTo(acc, y, i, m)
  {
    if m > 0 {
      SameFieldsUpTo(acc, x, y, i, m - 1);
      var f := RequiredFields[m - 1];
      assert IsMissing(x, f) == IsMissing(y, f);
      assert MissingFinding(x, i, f) == MissingFinding(y, i, f);
    }
  }

  /**
   * The report depends on an item only through what `SameToRules` compares:
   * feeds whose items agree on it, position by position, get the same pass.
   */
  lemma {:induction false} SameRun(a: seq<Item>, b: seq<Item>)
    requires |a| == |b| && forall j :: 0 <= j < |a| ==> SameToRules(a[j], b[j])
    ensures Run(a) == Run(b)
  {
    if a != [] {
      var n := |a|;
      SameRun(a[..n - 1], b[..n - 1]);
      SameFieldsUpTo(Run(a[..n - 1]), a[n - 1], b[n - 1], n, |RequiredFields|);
      assert PriceFinding(a[n - 1], n) == PriceFinding(b[n - 1], n);
    }
  }

  /**
   * In any feed, giving one item a `price` element of whitespace only yields
   * exactly the report that removing its `price` element does. (For `id`,
   * `title` and `link` this fails: their blank text is carried as `""`.)
   */
  lemma BlankPriceIsNoPrice(items: seq<Item>, k: nat, s: string)
    requires k < |items| && AllSpace(s)
    ensures ValidateItems(items[k := items[k][Price := Some(s)]])
         == ValidateItems(items[k := items[k] - {Price}])
  {
    var x := items[k][Price := Some(s)];
    var y := items[k] - {Price};
    StripEnds(s);
    assert IsMissing(x, Price) && IsMissing(y, Price);
    forall f | f != Price ensures GetText(x, f) == GetText(y, f) {
      assert (f in x) == (f in y);
      assert f in x ==> x[f] == y[f];
    }
    var a := items[k := x];
    var b := items[k := y];
    forall j | 0 <= j < |a| ensures SameToRules(a[j], b[j]) {
      if j != k {
        assert a[j] == b[j];
      }
    }
    SameRun(a, b);
  }
}
