# Google product-feed quality validator, modelled in Dafny

This project models the validation engine of a product-feed auditing service:
`validate_google_feed` in `backend/validator/google.py`. The function takes a
parsed Google Merchant product feed. It finds every `<item>` element at any
depth, checks each item for the seven required `g:` fields and for a price
written with a currency separator, and returns a report with these keys:

- `products_checked`
- `score`
- `critical_errors` and `warnings`
- `total_critical` and `total_warnings`
- `error_stats`

The model is a set of pure functions over immutable data:

- `Catalog`: the required-field catalogue in its declared order, and the critical subset.
- `Text`: `str.strip` over the whitespace characters 9–13 and 32, with its specification.
- `Items`: an item as a map from field to optional element text; `get_text`; the "missing" test.
- `Walker`: the parsed document as a tree of `Node`s; `findall(".//item")` as a pre-order walk that excludes the root.
- `Findings`: the finding record, the two severities and the two problems. It also holds the `error_stats` keys and tallies, and the report order of findings.
- `Scoring`: Python's `round` (half to even), computed exactly over the integers, and the score formula.
- `Engine`: the pass over the items as a fold (`Run`), the report (`ValidateItems`, `ValidateFeed`), and `ValidateLoop`. `ValidateLoop` is the same pass written as the two nested loops of the source, proved equal to the fold.
- `ItemRules`, `FeedRules`: what the required-field loop and the whole pass accumulate. These are stated against counts taken item by item straight from the feed.
- `Properties`: the report-level guarantees, for every feed.
- `Scenarios`: single-item feeds worked through to their exact reports.

An item is a `map<Field, Option<string>>`. A field absent from the map has no
element. `None` is an element with no text. `Some(t)` is an element with text `t`.

Findings in a list appear in report order. Report order is document order of the
items; within an item, catalogue order of the fields; the price warning comes
last. `Findings.Key` numbers these positions, and both lists are proved strictly
ascending in it.

`get_text` tests the raw text before stripping it. An element whose text is only
whitespace therefore yields the empty string, where a missing element yields
`None`. The missing-field rule treats that empty string as missing. The same
empty string is carried as the finding's `product_id`, `title` or `link`, so such
an item's findings show `""` in those places rather than `None`.
`Scenarios.BlankIdReportedAsEmpty` states this for `id`.

## Model

| member | source | states |
|---|---|---|
| `Catalog.CatalogueWellFormed` | backend/validator/google.py:4-19 | Seven required fields, each listed once and at the position `FieldPos` gives it; every field of the model is required; every critical field is among the required ones. |
| `Catalog.FieldNamesDistinct` | backend/validator/google.py:4-12 | Distinct fields have distinct XML names, so each catalogue entry looks up a different `g:` element. |
| `Findings.StatKeyNamesDistinct` | backend/validator/google.py:67-89 | The `error_stats` keys are distinct strings: no field's tally shares a key with `price_format` or with another field. |
| `Findings.Bump` | backend/validator/google.py:67 | Raising a tally adds the key when absent, raises its count by exactly one, and leaves every other key and count as it was. |
| `Text.StripSpec` | backend/validator/google.py:27 | The stripped text is a contiguous slice of the input, and everything cut off on either side is whitespace. |
| `Text.StripEnds` | backend/validator/google.py:27 | The stripped text is empty or starts and ends with a non-whitespace character; it is empty exactly when the input is all whitespace. |
| `Text.StripIdempotent` | backend/validator/google.py:27 | Stripping twice gives the same text as stripping once. |
| `Text.StripKeepsTrimmed` | backend/validator/google.py:27 | Text that is non-empty and has non-whitespace at both ends is returned unchanged. |
| `Items.MissingIffBlankText` | backend/validator/google.py:22-29 | A field counts as missing exactly when the item has no such element, the element has no text, or its text is whitespace only. |
| `Items.PresentFieldIsStrippedText` | backend/validator/google.py:22-29 | For a present field, the lookup returns the stripped element text, which is non-empty and starts with a non-whitespace character. |
| `Walker.ItemsUnderAppend` | backend/validator/google.py:36 | The search over two runs of siblings is the search over the first followed by the search over the second (document order). |
| `Walker.FlatChildrenInOrder` | backend/validator/google.py:36 | A channel whose children are plain `<item>` elements yields exactly those items, one per child, in order. |
| `Walker.NoItemsFound` | backend/validator/google.py:36 | A subtree with no `<item>` element anywhere contributes no items. |
| `Walker.ItemsInFilters` | backend/validator/google.py:36 | The search from a node returns the fields of exactly the `<item>` elements of its preorder listing (the node itself and every descendant), in that order. |
| `Walker.FindAllItemsSpec` | backend/validator/google.py:36 | `root.findall(".//item")` returns the fields of the `<item>` elements among the root's strict descendants, in document order. |
| `Walker.FoundIffItemDescendant` | backend/validator/google.py:36 | An item's fields are in the result exactly when some strict descendant of the root is an `<item>` element with those fields. |
| `Walker.NestedItemsInDocumentOrder` | backend/validator/google.py:36 | For the tree rss → channel → [item a → [item b], item c], the search returns [a, b, c]: the nested item b is found, after its parent a and before a's following sibling c. |
| `Scoring.RoundHalfEven` | backend/validator/google.py:106 | The result is an integer nearest to n/d, and on a tie it is the even one (Python's `round`). |
| `Scoring.RoundHalfEvenUnique` | backend/validator/google.py:106 | Any integer that is nearest to n/d, with ties to even, is the rounded value. |
| `Scoring.RoundHalfEvenMonotone` | backend/validator/google.py:106 | Rounding preserves the order of the quotients over a fixed denominator. |
| `Scoring.Score` | backend/validator/google.py:101-106 | The score lies in [0, 100]; it is 100 when there are no slots or none is missing, and 0 when every slot is missing. |
| `Scoring.ScoreIsRoundedPenalty` | backend/validator/google.py:104-106 | With missing ≤ total, the score is 100 − 100·missing/total rounded half to even, so the `max(0, …)` never clips. |
| `Scoring.ScoreMonotone` | backend/validator/google.py:104-106 | For a fixed number of slots, more missing slots never give a higher score. |
| `Engine.ValidateItems` | backend/validator/google.py:43-119 | `products_checked` is the number of items, the score lies in [0, 100], and the totals are the list lengths. An empty feed gives 0 products, score 100, empty lists and empty `error_stats`. |
| `Engine.ValidateFeed` | backend/validator/google.py:32-36 | The report of a document counts exactly the `<item>` elements found below its root, with a score in [0, 100]. |
| `Engine.ValidateLoop` | backend/validator/google.py:38-119 | The two nested loops, with in-place appends, in-place tallies and the score computed at the end, give exactly the report of the fold over the items. |
| `ItemRules.SumRequiredBump` | backend/validator/google.py:67 | A required-field tally raises the sum of those tallies by one; a `price_format` tally leaves it. |
| `ItemRules.FieldsExtend` | backend/validator/google.py:53-82 | The field loop only appends, and counts one missing slot per missing field. |
| `ItemRules.FieldsFindingCount` | backend/validator/google.py:53-82 | The field loop adds one required-field finding per missing field across the two lists, and no price warning. |
| `ItemRules.FieldsSum` | backend/validator/google.py:53-82 | The field loop raises the required-field tallies by one per missing field in total. |
| `ItemRules.FieldsStats` | backend/validator/google.py:53-82 | Each field's tally rises by one exactly when the item lacks it; no other tally moves; keys appear only once raised. |
| `ItemRules.FieldsOrder` | backend/validator/google.py:53-82 | The field loop appends in report order: the lists stay ascending and hold nothing past the current field. |
| `ItemRules.FieldsList` | backend/validator/google.py:53-82 | Each list grows by exactly the findings for the missing fields of its severity, in catalogue order. |
| `ItemRules.FieldsSound` | backend/validator/google.py:53-82 | Every appended finding is a field the item lacks: critical ones in the critical list, the others among the warnings. |
| `ItemRules.FieldsComplete` | backend/validator/google.py:53-82 | Every field the item lacks is reported, in the list its severity picks. |
| `FeedRules.RunCounts` | backend/validator/google.py:46-99 | `missing_fields` equals the number of unfilled slots, which equals the number of required-field findings and the sum of their tallies. The number of price warnings equals the number of bad prices. |
| `FeedRules.CheckItemCounts` | backend/validator/google.py:53-99 | One item adds its missing slots to `missing_fields`, to the required-field findings and to the required-field tallies. It adds one price warning exactly when its price is bad. |
| `FeedRules.TotalMissingBound` | backend/validator/google.py:43 | At most seven slots per item are unfilled. |
| `FeedRules.RunStats` | backend/validator/google.py:67-89 | Each tally is the number of items lacking the field (or with a bad price); a key is present exactly when its tally is positive. |
| `FeedRules.RunOrder` | backend/validator/google.py:46-99 | Both lists are strictly ascending in report order, and every finding's position lies at or after the first slot of item 1 and before the first slot past the last item. |
| `FeedRules.RunSound` | backend/validator/google.py:53-99 | Every critical finding is a critical field its item lacks; every warning is a non-critical field its item lacks, or its item's bad price. |
| `FeedRules.RunReportsMissing` | backend/validator/google.py:53-82 | Every field any item lacks is reported against that item, in the list its severity picks. |
| `FeedRules.RunReportsPrice` | backend/validator/google.py:84-99 | Every bad price is reported against its item. |
| `Properties.CountsAgree` | backend/validator/google.py:43-106 | At most 7·`products_checked` slots are missing. The number of required-field findings equals the number missing, and so does the sum of the required-field tallies. The score depends on that number alone. |
| `Properties.StatsAgree` | backend/validator/google.py:67-89 | `error_stats` is exact per key, a key is present only with a positive tally, and no tally exceeds `products_checked`. |
| `Properties.SeverityClassification` | backend/validator/google.py:61-99 | Every critical finding is a missing critical field; every warning is a missing non-critical field or the price-format warning on `price`. |
| `Properties.MissingFieldReportedIff` | backend/validator/google.py:53-82 | A field is reported against an item exactly when the item lacks it, in the critical list exactly when the field is critical. |
| `Properties.PriceWarningIff` | backend/validator/google.py:84-99 | The price warning is reported against an item exactly when its stripped price is non-empty and has no space. |
| `Properties.BlankPriceNeverWarns` | backend/validator/google.py:85-87 | An absent, text-less or whitespace-only price is missing and never draws the format warning. |
| `Properties.ReportOrder` | backend/validator/google.py:46-99 | Both lists are in report order, item indices never decrease along them, and every index lies in [1, `products_checked`]. |
| `Properties.ReportedOnce` | backend/validator/google.py:46-99 | No field is reported missing twice against the same item, and no item gets more than one price-format warning. |
| `Properties.MissingAmongMonotone` | backend/validator/google.py:53-59 | An item lacking at least the fields another lacks has at least as many missing slots. |
| `Properties.TotalMissingMonotone` | backend/validator/google.py:46-59 | A feed lacking at least what another lacks, item by item, has at least as many missing slots. |
| `Properties.ScoreMonotoneInMissing` | backend/validator/google.py:101-106 | Leaving more required fields missing on the same number of items never raises the score. |
| `Properties.SameRun` | backend/validator/google.py:38-99 | Two feeds whose items agree position by position on `id`/`title`/`link` as read, on which fields are missing and on the price-format verdict get the same finding lists, tallies and missing count. |
| `Properties.BlankPriceIsNoPrice` | backend/validator/google.py:22-29 | In any feed, giving one item a whitespace-only `price` element yields exactly the report that removing its `price` element does. |
| `Properties.PriceRuleLeavesScore` | backend/validator/google.py:84-106 | Feeds with the same fields present score the same and count the same missing slots, whatever their price-format warnings. |
| `Scenarios.CompleteItemIsClean` | backend/validator/google.py:32-119 | A one-item feed whose item supplies every required field and whose price has a space gives no findings, an empty `error_stats` and score 100. |
| `Scenarios.OnlyMissingField` | backend/validator/google.py:53-82 | The field loop over an item lacking only one field reports that field alone, with a tally of one. |
| `Scenarios.OneOfSevenScore` | backend/validator/google.py:104-106 | One slot missing out of seven scores `round(85.71…)` = 86. |
| `Scenarios.MissingDescriptionScenario` | backend/validator/google.py:32-119 | A one-item feed whose item lacks only `description` gives score 86, no critical finding, and one `description` warning with `{"description": 1}`. When the item's price has no space, the price-format warning follows it, and the tallies also get `price_format: 1`. |
| `Scenarios.MissingPriceScenario` | backend/validator/google.py:32-119 | A one-item feed whose item lacks only `price` gives one critical finding, no price warning, `{"price": 1}` and score 86. |
| `Scenarios.GluedPriceScenario` | backend/validator/google.py:84-106 | A one-item feed whose item supplies every required field but whose price has no space gives one price warning, `{"price_format": 1}` and score 100. |
| `Scenarios.BlankIdReportedAsEmpty` | backend/validator/google.py:22-29 | In any feed, an item whose `id` text is non-empty and all whitespace is reported as missing its critical `id`, and that finding's `product_id` is the empty string. |

## Left out

- The web API, upload handling and feed download (`backend/main.py`) are not part of this model. They are I/O around the validator.
- The PDF report (`backend/report.py`) is not part of this model. It only formats the report.
- XML parsing is left out; the model starts from the parsed tree.
  - Namespace resolution of the `g:` prefix is taken as done.
  - An item's fields are given as a map, so a second element of the same field, which `find` would ignore, is not represented.
  - Tags are compared as plain strings.
- The Polish error messages are represented by the two `Problem` values, not by their text.
- `error_stats` is a map, so the insertion order of the Python dictionary's keys is not represented.
- `Scoring.Score`: the score is computed with exact rational arithmetic. The source divides in double precision before rounding. The two could differ only where `100·missing/total` falls within a rounding error of a half.
- `Text.Strip`: strips exactly six characters: tab, line feed, vertical tab, form feed, carriage return and space. Python's `str.strip` also strips the separators 0x1C-0x1F and the non-ASCII Unicode whitespace characters. XML 1.0 text cannot contain 0x1C-0x1F; the non-ASCII whitespace is not modelled.
- Idempotence of a validation run is not stated separately. The model is a pure function of the document.
