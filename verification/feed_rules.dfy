/**
 * What the pass over all items accumulates, stated against counts taken
 * item by item straight from the feed.
 */
module FeedRules {
  import opened Catalog
  import opened Items
  import opened Findings
  import opened Engine
  import opened ItemRules

  /** The number of required-field slots the feed leaves unfilled. */
  function TotalMissing(items: seq<Item>): nat {
    if items == [] then 0
    else TotalMissing(items[..|items| - 1]) + MissingAmong(items[|items| - 1], |RequiredFields|)
  }

  /** The number of items lacking `f`. */
  function ItemsMissing(items: seq<Item>, f: Field): (n: nat)
    ensures n <= |items|
  {
    if items == [] then 0
    else ItemsMissing(items[..|items| - 1], f) + (if IsMissing(items[|items| - 1], f) then 1 else 0)
  }

  /** The number of items whose price breaks the price-format rule. */
  function PriceBadCount(items: seq<Item>): (n: nat)
    ensures n <= |items|
  {
    if items == [] then 0
    else PriceBadCount(items[..|items| - 1]) + (if PriceFormatBad(items[|items| - 1]) then 1 else 0)
  }

  /** The tally `error_stats` should hold for `k`: items lacking the field, or items with a bad price. */
  function RefCount(items: seq<Item>, k: StatKey): (n: nat)
    ensures n <= |items|
  {
    match k
    case FieldMissing(f) => ItemsMissing(items, f)
    case PriceFormat => PriceBadCount(items)
  }

  /** A critical finding of the feed: about item `x.index`, a critical field that item lacks. */
  predicate SoundCritical(items: seq<Item>, x: Finding) {
    1 <= x.index <= |items| && CriticalFor(items[x.index - 1], x.index, x)
  }

  /** The price-format warning of item number `i`, whose price breaks the rule. */
  predicate PriceWarningFor(item: Item, i: nat, x: Finding) {
    PriceFormatBad(item) && x == PriceFinding(item, i)
  }

  /** A warning of the feed: about item `x.index`, a non-critical field it lacks or its bad price. */
  predicate SoundWarning(items: seq<Item>, x: Finding) {
    && 1 <= x.index <= |items|
    && (MissingWarningFor(items[x.index - 1], x.index, x) || PriceWarningFor(items[x.index - 1], x.index, x))
  }

  /**
   * Counting: `missing_fields` is the number of unfilled slots; each one has
   * exactly one required-field finding; each bad price exactly one price
   * warning; and the required-field tallies add up to `missing_fields`.
   */
  lemma {:induction false} RunCounts(items: seq<Item>)
    ensures var acc := Run(items);
      && acc.missing == TotalMissing(items)
      && |acc.critical| + CountProblem(acc.warnings, MissingRequired) == acc.missing
      && CountProblem(acc.warnings, BadPriceFormat) == PriceBadCount(items)
      && SumRequired(acc.stats) == acc.missing
  {
    if items != [] {
      RunCounts(items[..|items| - 1]);
      CheckItemCounts(Run(items[..|items| - 1]), items[|items| - 1], |items|);
    }
  }

  /**
   * Checking one item adds its missing slots to `missing_fields`, to the
   * required-field findings and to the required-field tallies, and adds one
   * price warning when its price is bad.
   */
  lemma CheckItemCounts(acc: Acc, item: Item, i: nat)
    ensures var res := CheckItem(acc, item, i);
      var n := MissingAmong(item, |RequiredFields|);
      && res.missing == acc.missing + n
      && |res.critical| + CountProblem(res.warnings, MissingRequired)
         == |acc.critical| + CountProblem(acc.warnings, MissingRequired) + n
      && CountProblem(res.warnings, BadPriceFormat)
         == CountProblem(acc.warnings, BadPriceFormat) + (if PriceFormatBad(item) then 1 else 0)
      && SumRequired(res.stats) == SumRequired(acc.stats) + n
  {
    var mid := CheckFieldsUpTo(acc, item, i, |RequiredFields|);
    FieldsExtend(acc, item, i, |RequiredFields|);
    FieldsFindingCount(acc, item, i, |RequiredFields|);
    FieldsSum(acc, item, i, |RequiredFields|);
    if PriceFormatBad(item) {
      CountProblemAppend(mid.warnings, PriceFinding(item, i), MissingRequired);
      CountProblemAppend(mid.warnings, PriceFinding(item, i), BadPriceFormat);
      SumRequiredBump(mid.stats, PriceFormat);
    }
  }

  /** Every slot count is bounded by the catalogue size. */
  lemma {:induction false} TotalMissingBound(items: seq<Item>)
    ensures TotalMissing(items) <= |items| * FieldCount
  {
    if items != [] {
      TotalMissingBound(items[..|items| - 1]);
      assert |items| * FieldCount == (|items| - 1) * FieldCount + FieldCount;
    }
  }

  /**
   * `error_stats` holds, for each field, the number of items lacking it and,
   * for `price_format`, the number of items with a bad price; a key is present
   * exactly when its tally is positive.
   */
  lemma RunStats(items: seq<Item>)
    ensures var acc := Run(items);
      && (forall k :: StatOf(acc.stats, k) == RefCount(items, k))
      && (forall k :: k in acc.stats <==> RefCount(items, k) > 0)
  {
    forall k
      ensures StatOf(Run(items).stats, k) == RefCount(items, k)
      ensures k in Run(items).stats <==> RefCount(items, k) > 0
    {
      RunStatAt(items, k);
    }
  }

  /** `RunStats` for one key `k`. */
  lemma {:induction false} RunStatAt(items: seq<Item>, k: StatKey)
    ensures StatOf(Run(items).stats, k) == RefCount(items, k)
    ensures k in Run(items).stats <==> RefCount(items, k) > 0
  {
    if items != [] {
      var n := |items|;
      RunStatAt(items[..n - 1], k);
      ItemStatStep(Run(items[..n - 1]), items[n - 1], n, k);
      RefCountStep(items, k);
    }
  }

  /** What one item adds to the tally of `k`: its missing field, or its bad price. */
  function ItemInc(item: Item, k: StatKey): nat {
    Inc(item, |RequiredFields|, k) + (if k == PriceFormat && PriceFormatBad(item) then 1 else 0)
  }

  /** Checking one item raises the tally of `k` by what the item adds, and adds `k` once it is raised. */
  lemma ItemStatStep(acc: Acc, item: Item, i: nat, k: StatKey)
    ensures var res := CheckItem(acc, item, i).stats;
      && StatOf(res, k) == StatOf(acc.stats, k) + ItemInc(item, k)
      && (k in res <==> k in acc.stats || ItemInc(item, k) > 0)
  {
    FieldsStats(acc, item, i, |RequiredFields|);
  }

  /** The reference count of `k` over a feed is its count over all but the last item plus the last item's share. */
  lemma RefCountStep(items: seq<Item>, k: StatKey)
    requires items != []
    ensures RefCount(items, k) == RefCount(items[..|items| - 1], k) + ItemInc(items[|items| - 1], k)
  {
  }

  /**
   * Both lists are in report order (document order, then catalogue order, the
   * price warning last within its item), and every finding belongs to one of
   * the feed's items.
   */
  lemma RunOrder(items: seq<Item>)
    ensures var acc := Run(items);
      && Ascending(acc.critical) && Ascending(acc.warnings)
      && KeysFrom(acc.critical, 8) && KeysFrom(acc.warnings, 8)
      && KeysBelow(acc.critical, 8 * (|items| + 1))
      && KeysBelow(acc.warnings, 8 * (|items| + 1))
  {
    RunAscending(items);
    RunKeysFrom(items);
  }

  /** Both lists are ascending and sit before the first slot past the last item. */
  lemma {:induction false} RunAscending(items: seq<Item>)
    ensures var acc := Run(items);
      && Ascending(acc.critical) && Ascending(acc.warnings)
      && KeysBelow(acc.critical, 8 * (|items| + 1))
      && KeysBelow(acc.warnings, 8 * (|items| + 1))
  {
    if items != [] {
      var n := |items|;
      var pre := items[..n - 1];
      var last := items[n - 1];
      RunAscending(pre);
      FieldsOrder(Run(pre), last, n, |RequiredFields|);
      var mid := CheckFieldsUpTo(Run(pre), last, n, |RequiredFields|);
      KeysBelowWeaken(mid.critical, 8 * n + 7, 8 * (n + 1));
      KeysBelowWeaken(mid.warnings, 8 * n + 7, 8 * (n + 1));
      if PriceFormatBad(last) {
        assert Key(PriceFinding(last, n)) == 8 * n + 7;
        AscendingAppend(mid.warnings, PriceFinding(last, n));
      }
    }
  }

  /** No finding sits before the first slot of item number 1: the items are numbered from 1. */
  lemma {:induction false} RunKeysFrom(items: seq<Item>)
    ensures KeysFrom(Run(items).critical, 8) && KeysFrom(Run(items).warnings, 8)
  {
    if items != [] {
      var n := |items|;
      var earlier := Run(items[..n - 1]);
      var last := items[n - 1];
      RunKeysFrom(items[..n - 1]);
      FieldsExtend(earlier, last, n, |RequiredFields|);
      FieldsSound(earlier, last, n, |RequiredFields|);
      var mid := CheckFieldsUpTo(earlier, last, n, |RequiredFields|);
      var acc := Run(items);
      forall p | 0 <= p < |acc.critical| ensures 8 <= Key(acc.critical[p]) {
        if p < |earlier.critical| {
          assert acc.critical[p] == earlier.critical[p];
        } else {
          assert acc.critical[p] == mid.critical[p];
        }
      }
      forall p | 0 <= p < |acc.warnings| ensures 8 <= Key(acc.warnings[p]) {
        if p < |earlier.warnings| {
          assert acc.warnings[p] == earlier.warnings[p];
        } else if p < |mid.warnings| {
          assert acc.warnings[p] == mid.warnings[p];
        }
      }
    }
  }

  /** Every finding in `l` is a critical finding of the feed. */
  predicate AllSoundCritical(items: seq<Item>, l: seq<Finding>) {
    forall p :: 0 <= p < |l| ==> SoundCritical(items, l[p])
  }

  /** Every finding in `l` is a warning of the feed. */
  predicate AllSoundWarning(items: seq<Item>, l: seq<Finding>) {
    forall p :: 0 <= p < |l| ==> SoundWarning(items, l[p])
  }

  /** A finding justified by a prefix of the feed stays justified by the whole feed. */
  lemma SoundExtend(pre: seq<Item>, items: seq<Item>, l: seq<Finding>)
    requires |pre| <= |items| && pre == items[..|pre|]
    ensures AllSoundCritical(pre, l) ==> AllSoundCritical(items, l)
    ensures AllSoundWarning(pre, l) ==> AllSoundWarning(items, l)
  {
    forall p | 0 <= p < |l| && 1 <= l[p].index <= |pre|
      ensures SoundCritical(pre, l[p]) ==> SoundCritical(items, l[p])
      ensures SoundWarning(pre, l[p]) ==> SoundWarning(items, l[p])
    {
      assert items[l[p].index - 1] == pre[l[p].index - 1];
    }
  }

  /** Every finding is justified by the item it names. */
  lemma RunSound(items: seq<Item>)
    ensures AllSoundCritical(items, Run(items).critical)
    ensures AllSoundWarning(items, Run(items).warnings)
  {
    RunSoundCritical(items);
    RunSoundWarning(items);
  }

  lemma {:induction false} RunSoundCritical(items: seq<Item>)
    ensures AllSoundCritical(items, Run(items).critical)
  {
    if items != [] {
      var n := |items|;
      var pre := items[..n - 1];
      var last := items[n - 1];
      var earlier := Run(pre);
      RunSoundCritical(pre);
      SoundExtend(pre, items, earlier.critical);
      FieldsExtend(earlier, last, n, |RequiredFields|);
      FieldsSound(earlier, last, n, |RequiredFields|);
      var acc := Run(items);
      assert acc.critical == CheckFieldsUpTo(earlier, last, n, |RequiredFields|).critical;
      forall p | 0 <= p < |acc.critical|
        ensures SoundCritical(items, acc.critical[p])
      {
        if p < |earlier.critical| {
          assert acc.critical[p] == earlier.critical[p];
        }
      }
    }
  }

  lemma {:induction false} RunSoundWarning(items: seq<Item>)
    ensures AllSoundWarning(items, Run(items).warnings)
  {
    if items != [] {
      var n := |items|;
      var pre := items[..n - 1];
      var last := items[n - 1];
      var earlier := Run(pre);
      RunSoundWarning(pre);
      SoundExtend(pre, items, earlier.warnings);
      FieldsExtend(earlier, last, n, |RequiredFields|);
      FieldsSound(earlier, last, n, |RequiredFields|);
      var mid := CheckFieldsUpTo(earlier, last, n, |RequiredFields|);
      var acc := Run(items);
      forall p | 0 <= p < |acc.warnings|
        ensures SoundWarning(items, acc.warnings[p])
      {
        if p < |earlier.warnings| {
          assert acc.warnings[p] == earlier.warnings[p];
        } else if p < |mid.warnings| {
          assert acc.warnings[p] == mid.warnings[p];
        }
      }
    }
  }

  /** A member of the critical list is a critical finding of the feed. */
  lemma CriticalMember(items: seq<Item>, x: Finding)
    requires x in Run(items).critical
    ensures SoundCritical(items, x)
  {
    RunSound(items);
    var l := Run(items).critical;
    var p :| 0 <= p < |l| && l[p] == x;
  }

  /** A member of the warnings is a warning of the feed. */
  lemma WarningMember(items: seq<Item>, x: Finding)
    requires x in Run(items).warnings
    ensures SoundWarning(items, x)
  {
    RunSound(items);
    var l := Run(items).warnings;
    var p :| 0 <= p < |l| && l[p] == x;
  }

  /** Each field any of the items lacks is reported against it, in the list its severity picks. */
  predicate ReportsMissing(items: seq<Item>, acc: Acc) {
    forall k, f :: 0 <= k < |items| && IsMissing(items[k], f) ==>
      MissingFinding(items[k], k + 1, f) in (if f in CriticalFields then acc.critical else acc.warnings)
  }

  /** Each bad price among the items is reported against its item. */
  predicate ReportsPrice(items: seq<Item>, acc: Acc) {
    forall k :: 0 <= k < |items| && PriceFormatBad(items[k]) ==> PriceFinding(items[k], k + 1) in acc.warnings
  }

  /** What a state reports, a state extending it reports too. */
  lemma ExtendsKeeps(acc: Acc, res: Acc)
    requires Extends(acc, res)
    ensures forall x :: x in acc.critical ==> x in res.critical
    ensures forall x :: x in acc.warnings ==> x in res.warnings
  {
    forall x | x in acc.critical ensures x in res.critical {
      var p :| 0 <= p < |acc.critical| && acc.critical[p] == x;
      assert res.critical[p] == x;
    }
    forall x | x in acc.warnings ensures x in res.warnings {
      var p :| 0 <= p < |acc.warnings| && acc.warnings[p] == x;
      assert res.warnings[p] == x;
    }
  }

  /** Checking one more item extends the state. */
  lemma CheckItemExtends(acc: Acc, item: Item, i: nat)
    ensures Extends(acc, CheckItem(acc, item, i))
    ensures Extends(CheckFieldsUpTo(acc, item, i, |RequiredFields|), CheckItem(acc, item, i))
  {
    FieldsExtend(acc, item, i, |RequiredFields|);
    var mid := CheckFieldsUpTo(acc, item, i, |RequiredFields|);
    if PriceFormatBad(item) {
      assert (mid.warnings + [PriceFinding(item, i)])[..|mid.warnings|] == mid.warnings;
    }
  }

  /**
   * Nothing is overlooked: each field an item lacks is reported against that
   * item, in the critical list or among the warnings by the field's severity.
   */
  lemma {:induction false} RunReportsMissing(items: seq<Item>)
    ensures ReportsMissing(items, Run(items))
  {
    if items != [] {
      var n := |items|;
      var pre := items[..n - 1];
      var last := items[n - 1];
      var earlier := Run(pre);
      var acc := Run(items);
      RunReportsMissing(pre);
      CheckItemExtends(earlier, last, n);
      ExtendsKeeps(earlier, acc);
      ExtendsKeeps(CheckFieldsUpTo(earlier, last, n, |RequiredFields|), acc);
      FieldsComplete(earlier, last, n, |RequiredFields|);
      forall k, f | 0 <= k < n && IsMissing(items[k], f)
        ensures MissingFinding(items[k], k + 1, f) in (if f in CriticalFields then acc.critical else acc.warnings)
      {
        if k < n - 1 {
          assert items[k] == pre[k];
        } else {
          assert RequiredFields[FieldPos(f)] == f;
        }
      }
    }
  }

  /** Nothing is overlooked: each bad price is reported against its item. */
  lemma {:induction false} RunReportsPrice(items: seq<Item>)
    ensures ReportsPrice(items, Run(items))
  {
    if items != [] {
      var n := |items|;
      var pre := items[..n - 1];
      var last := items[n - 1];
      var earlier := Run(pre);
      var acc := Run(items);
      RunReportsPrice(pre);
      CheckItemExtends(earlier, last, n);
      ExtendsKeeps(earlier, acc);
      forall k | 0 <= k < n && PriceFormatBad(items[k])
        ensures PriceFinding(items[k], k + 1) in acc.warnings
      {
        if k < n - 1 {
          assert items[k] == pre[k];
        }
      }
    }
  }
}
