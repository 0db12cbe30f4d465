/**
 * What the required-field loop does to the running state for one item:
 * how much it counts, which tallies it raises, in what order it appends,
 * and that every finding it appends is justified and every missing field
 * is reported.
 */
module ItemRules {
  import opened Catalog
  import opened Items
  import opened Findings
  import opened Engine

  /** How many of the first `m` catalogue fields `item` lacks. */
  function MissingAmong(item: Item, m: nat): (n: nat)
    requires m <= |RequiredFields|
    ensures n <= m
  {
    if m == 0 then 0
    else MissingAmong(item, m - 1) + (if IsMissing(item, RequiredFields[m - 1]) then 1 else 0)
  }

  /** The sum of `error_stats` over the required fields (the `price_format` tally excluded). */
  function SumRequired(stats: Stats): nat {
    StatOf(stats, FieldMissing(Id)) + StatOf(stats, FieldMissing(Title))
    + StatOf(stats, FieldMissing(Description)) + StatOf(stats, FieldMissing(Link))
    + StatOf(stats, FieldMissing(ImageLink)) + StatOf(stats, FieldMissing(Price))
    + StatOf(stats, FieldMissing(Availability))
  }

  /** Tallying a missing field raises the required-field sum by one; the `price_format` tally leaves it. */
  lemma SumRequiredBump(stats: Stats, k: StatKey)
    ensures SumRequired(Bump(stats, k)) == SumRequired(stats) + (if k.FieldMissing? then 1 else 0)
  {
    match k
    case PriceFormat =>
    case FieldMissing(f) =>
      match f
      case Id =>
      case Title =>
      case Description =>
      case Link =>
      case ImageLink =>
      case Price =>
      case Availability =>
  }

  /** How much the first `m` steps of the loop over `item` raise the tally of `k`. */
  function Inc(item: Item, m: nat, k: StatKey): nat {
    match k
    case FieldMissing(f) => if FieldPos(f) < m && IsMissing(item, f) then 1 else 0
    case PriceFormat => 0
  }

  /** `res` keeps everything `acc` had reported, in place. */
  predicate Extends(acc: Acc, res: Acc) {
    && |acc.critical| <= |res.critical| && res.critical[..|acc.critical|] == acc.critical
    && |acc.warnings| <= |res.warnings| && res.warnings[..|acc.warnings|] == acc.warnings
  }

  /** A critical finding for item number `i`: a critical field `item` lacks. */
  predicate CriticalFor(item: Item, i: nat, x: Finding) {
    x.field in CriticalFields && IsMissing(item, x.field) && x == MissingFinding(item, i, x.field)
  }

  /** A missing-field warning for item number `i`: a non-critical field `item` lacks. */
  predicate MissingWarningFor(item: Item, i: nat, x: Finding) {
    x.field !in CriticalFields && IsMissing(item, x.field) && x == MissingFinding(item, i, x.field)
  }

  lemma CountProblemAppend(l: seq<Finding>, x: Finding, e: Problem)
    ensures CountProblem(l + [x], e) == CountProblem(l, e) + (if x.error == e then 1 else 0)
  {
    assert (l + [x])[..|l|] == l;
  }

  /**
   * The loop over the first `m` fields only appends, and counts one missing
   * slot per missing field.
   */
  lemma {:induction false} FieldsExtend(acc: Acc, item: Item, i: nat, m: nat)
    requires m <= |RequiredFields|
    ensures Extends(acc, CheckFieldsUpTo(acc, item, i, m))
    ensures CheckFieldsUpTo(acc, item, i, m).missing == acc.missing + MissingAmong(item, m)
  {
    if m > 0 {
      FieldsExtend(acc, item, i, m - 1);
      var prev := CheckFieldsUpTo(acc, item, i, m - 1);
      var f := RequiredFields[m - 1];
      CheckFieldStep(prev, item, i, f);
      if IsMissing(item, f) {
        var e := MissingFinding(item, i, f);
        assert (prev.critical + [e])[..|acc.critical|] == acc.critical;
        assert (prev.warnings + [e])[..|acc.warnings|] == acc.warnings;
      }
    }
  }

  /**
   * The loop over the first `m` fields puts one finding into one of the lists
   * per missing field, and adds no price warning.
   */
  lemma {:induction false} FieldsFindingCount(acc: Acc, item: Item, i: nat, m: nat)
    requires m <= |RequiredFields|
    ensures var res := CheckFieldsUpTo(acc, item, i, m);
      && |res.critical| + CountProblem(res.warnings, MissingRequired)
         == |acc.critical| + CountProblem(acc.warnings, MissingRequired) + MissingAmong(item, m)
      && CountProblem(res.warnings, BadPriceFormat) == CountProblem(acc.warnings, BadPriceFormat)
  {
    if m > 0 {
      FieldsFindingCount(acc, item, i, m - 1);
      var prev := CheckFieldsUpTo(acc, item, i, m - 1);
      var f := RequiredFields[m - 1];
      CheckFieldStep(prev, item, i, f);
      if IsMissing(item, f) {
        var e := MissingFinding(item, i, f);
        CountProblemAppend(prev.warnings, e, MissingRequired);
        CountProblemAppend(prev.warnings, e, BadPriceFormat);
      }
    }
  }

  /** The loop over the first `m` fields raises the required-field tallies by one per missing field. */
  lemma {:induction false} FieldsSum(acc: Acc, item: Item, i: nat, m: nat)
    requires m <= |RequiredFields|
    ensures SumRequired(CheckFieldsUpTo(acc, item, i, m).stats) == SumRequired(acc.stats) + MissingAmong(item, m)
  {
    if m > 0 {
      FieldsSum(acc, item, i, m - 1);
      var prev := CheckFieldsUpTo(acc, item, i, m - 1);
      var f := RequiredFields[m - 1];
      CheckFieldStep(prev, item, i, f);
      if IsMissing(item, f) {
        SumRequiredBump(prev.stats, FieldMissing(f));
      }
    }
  }

  /**
   * After the first `m` fields, each field's tally has risen by one exactly when
   * it is among those fields and `item` lacks it; no other tally moves, and a
   * key appears in `error_stats` only once it has been raised.
   */
  lemma {:induction false} FieldsStats(acc: Acc, item: Item, i: nat, m: nat)
    requires m <= |RequiredFields|
    ensures var res := CheckFieldsUpTo(acc, item, i, m);
      && (forall k :: StatOf(res.stats, k) == StatOf(acc.stats, k) + Inc(item, m, k))
      && (forall k :: k in res.stats <==> k in acc.stats || Inc(item, m, k) > 0)
  {
    forall k
      ensures StatOf(CheckFieldsUpTo(acc, item, i, m).stats, k) == StatOf(acc.stats, k) + Inc(item, m, k)
      ensures k in CheckFieldsUpTo(acc, item, i, m).stats <==> k in acc.stats || Inc(item, m, k) > 0
    {
      TallyOfFields(acc, item, i, m);
      FieldsStatAt(acc.stats, item, m, k);
    }
  }

  /** The `error_stats` part of the loop over the first `m` fields, on its own. */
  function TallyUpTo(stats: Stats, item: Item, m: nat): Stats
    requires m <= |RequiredFields|
  {
    if m == 0 then stats
    else
      var prev := TallyUpTo(stats, item, m - 1);
      var f := RequiredFields[m - 1];
      if IsMissing(item, f) then Bump(prev, FieldMissing(f)) else prev
  }

  /** The loop's `error_stats` is the tally on its own: the findings do not affect it. */
  lemma {:induction false} TallyOfFields(acc: Acc, item: Item, i: nat, m: nat)
    requires m <= |RequiredFields|
    ensures CheckFieldsUpTo(acc, item, i, m).stats == TallyUpTo(acc.stats, item, m)
  {
    if m > 0 {
      TallyOfFields(acc, item, i, m - 1);
      CheckFieldStep(CheckFieldsUpTo(acc, item, i, m - 1), item, i, RequiredFields[m - 1]);
    }
  }

  /** `FieldsStats` for one key `k`. */
  lemma {:induction false} FieldsStatAt(stats: Stats, item: Item, m: nat, k: StatKey)
    requires m <= |RequiredFields|
    ensures var res := TallyUpTo(stats, item, m);
      && StatOf(res, k) == StatOf(stats, k) + Inc(item, m, k)
      && (k in res <==> k in stats || Inc(item, m, k) > 0)
  {
    if m > 0 {
      FieldsStatAt(stats, item, m - 1, k);
      IncStep(item, m, k);
    }
  }

  /** Taking field number `m` into account raises only that field's count, and only when it is missing. */
  lemma IncStep(item: Item, m: nat, k: StatKey)
    requires 0 < m <= |RequiredFields|
    ensures var f := RequiredFields[m - 1];
      Inc(item, m, k) == Inc(item, m - 1, k) + (if k == FieldMissing(f) && IsMissing(item, f) then 1 else 0)
  {
    CatalogueWellFormed();
    var f := RequiredFields[m - 1];
    assert FieldPos(f) == m - 1;
    if k.FieldMissing? && FieldPos(k.field) == m - 1 {
      assert k.field == f;
    }
  }

  /** Appending a finding placed after everything in an ascending list keeps it ascending. */
  lemma AscendingAppend(l: seq<Finding>, e: Finding)
    requires Ascending(l) && KeysBelow(l, Key(e))
    ensures Ascending(l + [e]) && KeysBelow(l + [e], Key(e) + 1)
  {
  }

  lemma KeysBelowWeaken(l: seq<Finding>, b: nat, c: nat)
    requires KeysBelow(l, b) && b <= c
    ensures KeysBelow(l, c)
  {
  }

  /** One step of the loop, for field `f` of item number `i`, appends in report order. */
  lemma FieldStepOrder(prev: Acc, item: Item, i: nat, f: Field)
    requires Ascending(prev.critical) && Ascending(prev.warnings)
    requires KeysBelow(prev.critical, 8 * i + FieldPos(f))
    requires KeysBelow(prev.warnings, 8 * i + FieldPos(f))
    ensures var res := CheckField(prev, item, i, f);
      && Ascending(res.critical) && Ascending(res.warnings)
      && KeysBelow(res.critical, 8 * i + FieldPos(f) + 1)
      && KeysBelow(res.warnings, 8 * i + FieldPos(f) + 1)
  {
    var b := 8 * i + FieldPos(f);
    CheckFieldStep(prev, item, i, f);
    KeysBelowWeaken(prev.critical, b, b + 1);
    KeysBelowWeaken(prev.warnings, b, b + 1);
    if IsMissing(item, f) {
      var e := MissingFinding(item, i, f);
      assert Key(e) == b;
      AscendingAppend(prev.critical, e);
      AscendingAppend(prev.warnings, e);
    }
  }

  /**
   * The loop over item number `i` appends in report order: starting from lists
   * in ascending order that hold only earlier items, the lists stay ascending
   * and every finding sits before slot `m` of item `i`.
   */
  lemma {:induction false} FieldsOrder(acc: Acc, item: Item, i: nat, m: nat)
    requires m <= |RequiredFields|
    requires Ascending(acc.critical) && Ascending(acc.warnings)
    requires KeysBelow(acc.critical, 8 * i)
    requires KeysBelow(acc.warnings, 8 * i)
    ensures var res := CheckFieldsUpTo(acc, item, i, m);
      && Ascending(res.critical) && Ascending(res.warnings)
      && KeysBelow(res.critical, 8 * i + m)
      && KeysBelow(res.warnings, 8 * i + m)
  {
    if m > 0 {
      FieldsOrder(acc, item, i, m - 1);
      CatalogueWellFormed();
      FieldStepOrder(CheckFieldsUpTo(acc, item, i, m - 1), item, i, RequiredFields[m - 1]);
    }
  }

  /**
   * The findings the loop over the first `m` fields appends to one list: the
   * critical list when `critical` holds, the warnings otherwise.
   */
  function Reported(item: Item, i: nat, m: nat, critical: bool): seq<Finding>
    requires m <= |RequiredFields|
  {
    if m == 0 then []
    else
      var f := RequiredFields[m - 1];
      Reported(item, i, m - 1, critical)
        + (if IsMissing(item, f) && (f in CriticalFields) == critical then [MissingFinding(item, i, f)] else [])
  }

  /** The critical list of a state when `critical` holds, its warnings otherwise. */
  function ListOf(acc: Acc, critical: bool): seq<Finding> {
    if critical then acc.critical else acc.warnings
  }

  /** Step `m` of the loop appends to one list what `Reported` adds at step `m`. */
  lemma ListStep(acc: Acc, item: Item, i: nat, m: nat, critical: bool)
    requires 0 < m <= |RequiredFields|
    ensures ListOf(CheckFieldsUpTo(acc, item, i, m), critical)
      == ListOf(CheckFieldsUpTo(acc, item, i, m - 1), critical)
         + Reported(item, i, m, critical)[|Reported(item, i, m - 1, critical)|..]
  {
    var f := RequiredFields[m - 1];
    var prev := Reported(item, i, m - 1, critical);
    CheckFieldStep(CheckFieldsUpTo(acc, item, i, m - 1), item, i, f);
    if IsMissing(item, f) && (f in CriticalFields) == critical {
      assert Reported(item, i, m, critical)[|prev|..] == [MissingFinding(item, i, f)];
    } else {
      assert Reported(item, i, m, critical)[|prev|..] == [];
    }
  }

  /** The loop over the first `m` fields appends `Reported` to each list. */
  lemma {:induction false} FieldsList(acc: Acc, item: Item, i: nat, m: nat, critical: bool)
    requires m <= |RequiredFields|
    ensures ListOf(CheckFieldsUpTo(acc, item, i, m), critical) == ListOf(acc, critical) + Reported(item, i, m, critical)
  {
    if m > 0 {
      FieldsList(acc, item, i, m - 1, critical);
      ListStep(acc, item, i, m, critical);
      var l := Reported(item, i, m, critical);
      var k := |Reported(item, i, m - 1, critical)|;
      assert l == l[..k] + l[k..];
      assert ListOf(acc, critical) + l[..k] + l[k..] == ListOf(acc, critical) + l;
    }
  }

  /** Finding `q` of a `Reported` list is a field of the list's severity that `item` lacks. */
  lemma {:induction false} ReportedSoundAt(item: Item, i: nat, m: nat, critical: bool, q: nat)
    requires m <= |RequiredFields| && q < |Reported(item, i, m, critical)|
    ensures var x := Reported(item, i, m, critical)[q];
      && (x.field in CriticalFields) == critical && IsMissing(item, x.field)
      && x == MissingFinding(item, i, x.field)
  {
    var prev := Reported(item, i, m - 1, critical);
    if q < |prev| {
      ReportedSoundAt(item, i, m - 1, critical, q);
      assert Reported(item, i, m, critical)[q] == prev[q];
    }
  }

  /** Each of the first `m` fields `item` lacks is in the `Reported` list of its severity. */
  lemma {:induction false} ReportedComplete(item: Item, i: nat, m: nat, critical: bool)
    requires m <= |RequiredFields|
    ensures forall j :: 0 <= j < m && IsMissing(item, RequiredFields[j]) && (RequiredFields[j] in CriticalFields) == critical ==>
      MissingFinding(item, i, RequiredFields[j]) in Reported(item, i, m, critical)
  {
    if m > 0 {
      ReportedComplete(item, i, m - 1, critical);
    }
  }

  /**
   * Every finding the loop appends for item number `i` is justified: in the
   * critical list, a critical field the item lacks; in the warnings, a
   * non-critical field it lacks.
   */
  lemma {:induction false} FieldsSound(acc: Acc, item: Item, i: nat, m: nat)
    requires m <= |RequiredFields|
    ensures var res := CheckFieldsUpTo(acc, item, i, m);
      && (forall p :: |acc.critical| <= p < |res.critical| ==> CriticalFor(item, i, res.critical[p]))
      && (forall p :: |acc.warnings| <= p < |res.warnings| ==> MissingWarningFor(item, i, res.warnings[p]))
  {
    FieldsList(acc, item, i, m, true);
    FieldsList(acc, item, i, m, false);
    var res := CheckFieldsUpTo(acc, item, i, m);
    forall p | |acc.critical| <= p < |res.critical| ensures CriticalFor(item, i, res.critical[p]) {
      ReportedSoundAt(item, i, m, true, p - |acc.critical|);
      assert res.critical[p] == Reported(item, i, m, true)[p - |acc.critical|];
    }
    forall p | |acc.warnings| <= p < |res.warnings| ensures MissingWarningFor(item, i, res.warnings[p]) {
      ReportedSoundAt(item, i, m, false, p - |acc.warnings|);
      assert res.warnings[p] == Reported(item, i, m, false)[p - |acc.warnings|];
    }
  }

  /**
   * Every one of the first `m` fields that `item` lacks is reported, in the
   * critical list when it is critical and among the warnings otherwise.
   */
  lemma {:induction false} FieldsComplete(acc: Acc, item: Item, i: nat, m: nat)
    requires m <= |RequiredFields|
    ensures var res := CheckFieldsUpTo(acc, item, i, m);
      forall j :: 0 <= j < m && IsMissing(item, RequiredFields[j]) ==>
        MissingFinding(item, i, RequiredFields[j])
          in (if RequiredFields[j] in CriticalFields then res.critical else res.warnings)
  {
    FieldsList(acc, item, i, m, true);
    FieldsList(acc, item, i, m, false);
    ReportedComplete(item, i, m, true);
    ReportedComplete(item, i, m, false);
  }
}
