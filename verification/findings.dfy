/**
 * What the validator reports: findings, their severities, and the
 * per-field miss tallies of `error_stats`.
 */
module Findings {
  import opened Wrappers
  import opened Catalog
  import opened Items

  datatype Severity = Critical | Warning

  /**
   * The two fixed message texts: "required field missing" and "invalid price
   * format (e.g. 99.99 PLN)". Their wording is not modelled.
   */
  datatype Problem = MissingRequired | BadPriceFormat

  /**
   * One reported problem. `index` is the 1-based position of the item in
   * document order; `productId`, `title` and `link` are the item's own
   * `get_text` values, reported as context whether or not they are present.
   */
  datatype Finding = Finding(
    index: nat,
    productId: Option<string>,
    title: Option<string>,
    link: Option<string>,
    field: Field,
    severity: Severity,
    error: Problem)

  /** A key of `error_stats`: a required field, or the synthetic `price_format`. */
  datatype StatKey = FieldMissing(field: Field) | PriceFormat

  type Stats = map<StatKey, nat>

  /** The string key the source uses in `error_stats`. */
  function StatKeyName(k: StatKey): string {
    match k
    case FieldMissing(f) => FieldName(f)
    case PriceFormat => "price_format"
  }

  /** Distinct keys have distinct names, so a map keyed by `StatKey` is the source's dictionary. */
  lemma StatKeyNamesDistinct(j: StatKey, k: StatKey)
    requires j != k
    ensures StatKeyName(j) != StatKeyName(k)
  {
    if j.FieldMissing? && k.FieldMissing? {
      FieldNamesDistinct(j.field, k.field);
    }
  }

  /** `error_stats.get(k, 0)`. */
  function StatOf(stats: Stats, k: StatKey): nat {
    if k in stats then stats[k] else 0
  }

  /** `error_stats[k] = error_stats.get(k, 0) + 1`: one more for `k`, every other key unchanged. */
  function Bump(stats: Stats, k: StatKey): (s: Stats)
    ensures s.Keys == stats.Keys + {k}
    ensures StatOf(s, k) == StatOf(stats, k) + 1
    ensures forall j :: j != k ==> StatOf(s, j) == StatOf(stats, j)
  {
    stats[k := StatOf(stats, k) + 1]
  }

  /** The severity of a missing `f`: critical exactly for the critical fields. */
  function SeverityOf(f: Field): (s: Severity)
    ensures s == Critical <==> f in CriticalFields
  {
    if f in CriticalFields then Critical else Warning
  }

  /** The finding for item number `i` lacking the required field `f`. */
  function MissingFinding(item: Item, i: nat, f: Field): Finding {
    Finding(i, GetText(item, Id), GetText(item, Title), GetText(item, Link), f, SeverityOf(f), MissingRequired)
  }

  /**
   * The price-format rule's test: the price is present and its stripped text
   * holds no space character.
   */
  predicate PriceFormatBad(item: Item) {
    var p := GetText(item, Price);
    !Blank(p) && ' ' !in p.value
  }

  /** The warning for item number `i` whose price has no space. */
  function PriceFinding(item: Item, i: nat): Finding {
    Finding(i, GetText(item, Id), GetText(item, Title), GetText(item, Link), Price, Warning, BadPriceFormat)
  }

  /**
   * Where a finding sits within its item: missing-field findings at their
   * field's catalogue position, the price-format warning after all of them.
   */
  function Slot(x: Finding): (s: nat)
    ensures s <= |RequiredFields|
  {
    if x.error == BadPriceFormat then |RequiredFields| else FieldPos(x.field)
  }

  /**
   * The report position of a finding: document order first, then its slot.
   * Each item has eight slots, one per required field and one for the price check.
   */
  function Key(x: Finding): nat {
    8 * x.index + Slot(x)
  }

  /** Strictly increasing report positions: document order, then catalogue order, no repeats. */
  predicate Ascending(l: seq<Finding>) {
    forall p, q :: 0 <= p < q < |l| ==> Key(l[p]) < Key(l[q])
  }

  /** Every finding in `l` sits before report position `b`. */
  predicate KeysBelow(l: seq<Finding>, b: nat) {
    forall p :: 0 <= p < |l| ==> Key(l[p]) < b
  }

  /** Every finding in `l` sits at report position `b` or later. */
  predicate KeysFrom(l: seq<Finding>, b: nat) {
    forall p :: 0 <= p < |l| ==> b <= Key(l[p])
  }

  /** The number of findings in `l` carrying message `e`. */
  function CountProblem(l: seq<Finding>, e: Problem): (n: nat)
    ensures n <= |l|
  {
    if l == [] then 0
    else CountProblem(l[..|l| - 1], e) + (if l[|l| - 1].error == e then 1 else 0)
  }

  /** Ascending report positions imply non-decreasing item indices. */
  lemma AscendingIndices(l: seq<Finding>, p: int, q: int)
    requires Ascending(l) && 0 <= p < q < |l|
    ensures l[p].index <= l[q].index
  {
  }

  /**
   * Two findings of an ascending list about the same item are at different
   * slots: a different field, or one of them is the price warning.
   */
  lemma AscendingDistinctSlots(l: seq<Finding>, p: int, q: int)
    requires Ascending(l) && 0 <= p < q < |l| && l[p].index == l[q].index
    ensures l[p].error != l[q].error || l[p].field != l[q].field
  {
    assert Key(l[p]) < Key(l[q]);
  }
}
