# Logistics Framework — verified model of the front-end logic

Logistics Framework is a web application for freight offers. Its React front
end lets a company do three things:

- keep **price lists** for five categories of logistics suppliers
  (customs clearance, inland carriers, forwarders, inland suppliers and local
  charges);
- build **offers** from those price lists in a simulator;
- browse both in paginated, sortable, filterable tables whose state lives in the
  URL query string.

A Mongoose schema on the backend guards the stored price lists.

This project models in Dafny the logic of that application that is more than
rendering. Each source file becomes one module, and each module's properties are
proved:

- **Offer pricing** (`OfferPricing`):
  - per-supplier totals, where each line is rounded before the sum;
  - the transit path of an offer;
  - the scaling of an offer's prices by container counts.
- **Utility helpers** (`UtilsHelpers`):
  - thousands-separator price formatting;
  - the key-ignoring deep equality;
  - the e-mail top-level-domain check;
  - the ordered password rules;
  - the deletion of URL parameters by substring;
  - category titles.
- **Sorting**:
  - the row comparator and the stable sort (`SortHelpers`);
  - the two-field sort state of the sortable table (`SortableTable`);
  - the `sort=key` / `sort=-key` URL toggle of the paginated table
    (`PaginatedSortedTable`).
- **Pagination** (`Pagination`): the page count, the current page read from
  `?page=`, the guarded page change, and the disabled rule of the navigation
  buttons.
- **The offers service** (`OffersService`):
  - the default filling and the activity-range rewriting of the query string;
  - the date predicates the ranges stand for;
  - the field merging of the two `distinct` lookups.
- **Hooks** (`Hooks`): the URL-parameter filter, the counter, and the status
  machine of an asynchronous call.
- **Forms** (`PriceListForm`, `OfferForm`, `ItemLineDuplicates`):
  - the duplicate item-line check both forms run on submit;
  - the stamping of the submitted data;
  - the free-interval day expansion and its fetch guard;
  - the mode-of-shipping checkbox toggle.
- **The backend schema** (`PriceListSchema`): the enumerations and defaults,
  trimming, and the two `details` validators. It is proved to agree with the
  front end's duplicate check on untrimmed lines and shown to disagree after
  trimming.

## Shared modules

Four modules support the others:

- `Wrappers` provides `Option` and `Result`.
- `Text` holds the JavaScript string primitives the code relies on: digits,
  `String(n)`, `includes`, `indexOf`, `replace` with a one-character pattern,
  and `<` on strings.
- `GenericObjects` holds the untyped JSON-like values.
- `Params` models the browser's `URLSearchParams` as section 6.2 (URLSearchParams
  class) of the WHATWG URL Standard defines it:
  - the value is an ordered list of name–value pairs;
  - `get` returns the first value with that name;
  - `delete` removes every pair with that name;
  - `set` overwrites the first pair with that name and drops the later ones, or
    appends a new pair when there is none.

`Types` holds the records of `frontend/src/utils/types.ts` that the core reads:
item lines, offers, price lists and users.

## Representation

- Prices and weights are exact `real`s.
- `Math.round` is `Floor(x + 1/2)`, which rounds halves toward +∞.
- Days are integers.
- Strings are `seq<char>`.

Where the code changes state step by step, the model is imperative:

- `getOfferSuppliers`, `getOfferPath`, `deepEqual` and
  `deleteKeysIncludingString` are methods with loops or sequenced updates.
- `getFilteredPage`, `onSort` and `onChange` apply `set` and `delete` to a
  `UrlSearchParams` object.
- The nested duplicate loops are a method.
- Each hook and form is a class whose fields are the React state.

Every method is proved against a specification function, and the properties are
lemmas about those functions.

## Behaviour of the code worth knowing

The model follows the code as written. Where the code does something surprising,
a lemma states what it does.

- `getNestedValue` tests `path.includes(".")` the wrong way round. A dotted path
  is therefore looked up as one literal key, and an undotted path "reduces" over
  its single segment. So a nested value is never reached:
  `SortHelpers.GetNestedValueIsLookup` proves the result is always `obj[path]`,
  and `SortHelpers.GetNestedValueDottedPath` shows `{a: {b: 1}}` read at `"a.b"`
  giving `undefined`.
- The head cells of the paginated table are documented, in their doc comment and
  their story, as writing `sort=key` on the first click. The code writes the
  value from the parsed order, and an absent `sort` parses as ascending. So the
  first click writes `-key`, which is descending. The model follows the code;
  `PaginatedSortedTable.FirstClickFromNoSort` states it.
- The front end compares item lines exactly as typed, but the backend trims them
  before its `Set`-size check. Lines `"A"` and `"A "` therefore pass the form and
  fail the schema (`PriceListSchema.TrimmedDuplicatesExample`). The converse
  cannot happen (`PriceListSchema.TrimmedUniqueImpliesUnique`).
- `deepEqual` looks up only `obj1`'s keys in `obj2`. With `undefined` values it
  is not symmetric: `{a: undefined}` equals `{b: 1}`, but not the other way
  round (`UtilsHelpers.DeepEqNotSymmetric`).
- `doesEmailHaveTopLevelDomain` throws on an address without `@`, because the
  domain piece is `undefined`. The model returns `None` there.
- `getFilteredPage` indexes `ACTIVITY_RANGES` with whatever `activity_range`
  holds. An unknown name interpolates the text `undefined` into the query
  (`OffersService.UndefinedRangeExample`). A name that every object inherits
  from `Object.prototype` finds that property instead: `toString` interpolates
  the source text of a built-in function (`OffersService.InheritedRangeExample`)
  and `__proto__` interpolates `[object Object]`
  (`OffersService.ProtoRangeExample`).
- The head cells read the column as `sort` without its first "-". A column key
  that itself contains "-" therefore reads back wrongly once it is sorted
  descending: `"a-b"` is written as `-a-b` and read as column `ab`
  (`PaginatedSortedTable.DashedKeyMisread`).
- In the price-list modal, the debounced category values can still belong to the
  previous category's fields after a category switch. A key past their end then
  reads `undefined` (`PriceListForm.ValueAt`).
- The backend schema does not order `valid_from` and `valid_until`
  (`PriceListSchema.DatesUnordered`).

## Model

| member | source | states |
|---|---|---|
| `JsMath.Round` | frontend/src/pages/simulator/helpers.ts:12 | `Math.round` gives the integer within half a unit of its argument, halves rounded up |
| `JsMath.RoundInteger` | frontend/src/pages/simulator/helpers.ts:12 | rounding leaves a whole number unchanged |
| `GenericObjects.Lookup` | frontend/src/components/SortableTable/helpers.ts:4 | `obj[key]` is the value stored under an own key, and `undefined` for any other key; names inherited from `Object.prototype` read as `undefined` too (left out) |
| `OfferPricing.GetOfferSuppliers` | frontend/src/pages/simulator/helpers.ts:6-24 | the one-pass `Map` tally equals the reference per-supplier result: one entry per distinct supplier, in order of first appearance, with the sum of its rounded line prices |
| `OfferPricing.SupplierPrices` | frontend/src/pages/simulator/helpers.ts:21-23 | the result has exactly one entry per distinct supplier, and each entry's total is that supplier's sum of rounded line prices |
| `OfferPricing.TallySnoc` | frontend/src/pages/simulator/helpers.ts:14-18 | one `forEach` step either adds the line's rounded price to a known supplier or appends a new supplier with that price, and keeps the tally in step with the reference |
| `OfferPricing.TallyResult` | frontend/src/pages/simulator/helpers.ts:21-23 | after the last line, `Array.from` of the map's entries is the reference result |
| `OfferPricing.PrefixSnoc` | frontend/src/pages/simulator/helpers.ts:10-19 | one more line extends the supplier order only when its supplier is new, and adds its rounded price to its own supplier's total only |
| `OfferPricing.FirstLineOf` | frontend/src/pages/simulator/helpers.ts:14 | the position of the first line of a supplier: no earlier line has that supplier |
| `OfferPricing.SupplierOrderSpec` | frontend/src/pages/simulator/helpers.ts:8-23 | a supplier is listed iff some line has it, and the list is ordered by each supplier's first line |
| `OfferPricing.SupplierOrderMembers` | frontend/src/pages/simulator/helpers.ts:14-18 | listed suppliers are exactly those occurring in the lines |
| `OfferPricing.LinePrice` | frontend/src/pages/simulator/helpers.ts:12 | a line's price is within half a unit of the sum of its two USD prices |
| `OfferPricing.SupplierOrder` | frontend/src/pages/simulator/helpers.ts:8-23 | the suppliers of the result in order; `OfferPricing.SupplierOrderSpec` states that it lists each supplier of the lines once, by first appearance |
| `OfferPricing.SupplierTotal` | frontend/src/pages/simulator/helpers.ts:10-19 | the per-supplier sum of rounded line prices; `OfferPricing.SupplierPrices` states that each entry carries it |
| `OfferPricing.SupplierOrderRanked` | frontend/src/pages/simulator/helpers.ts:14-18 | listed suppliers appear in strictly increasing order of first appearance |
| `OfferPricing.FirstLineOfUnique` | frontend/src/pages/simulator/helpers.ts:14 | the first line of a supplier is the unique position with no earlier occurrence |
| `OfferPricing.FirstLineOfSnoc` | frontend/src/pages/simulator/helpers.ts:10-19 | appending a line keeps every earlier first appearance and makes the new line the first one of a new supplier |
| `OfferPricing.FirstLineOfSnocAll` | frontend/src/pages/simulator/helpers.ts:10-19 | the same, for every supplier at once |
| `OfferPricing.SupplierOrderDistinct` | frontend/src/pages/simulator/helpers.ts:8 | no supplier is listed twice (exact, case-sensitive keys) |
| `OfferPricing.SumTotalsSnoc` | frontend/src/pages/simulator/helpers.ts:15 | a new line adds its rounded price to the sum of the totals of any distinct supplier list containing its supplier |
| `OfferPricing.SumTotalsAppend` | frontend/src/pages/simulator/helpers.ts:21-23 | summing over one more supplier adds that supplier's total |
| `OfferPricing.SupplierTotalAbsent` | frontend/src/pages/simulator/helpers.ts:17 | a supplier with no line totals 0 |
| `OfferPricing.SupplierTotalsSum` | frontend/src/pages/simulator/helpers.ts:10-23 | the per-supplier totals add up to the sum of all rounded line prices |
| `OfferPricing.SumPricesOfOrder` | frontend/src/pages/simulator/helpers.ts:21-23 | the `price_usd` fields of entries built from a supplier list add up to those suppliers' totals |
| `OfferPricing.SupplierPricesSum` | frontend/src/pages/simulator/helpers.ts:10-23 | the sum of all `price_usd` of the result equals the sum over all lines of the line's rounded price |
| `OfferPricing.SupplierPricesRoundPerLine` | frontend/src/pages/simulator/helpers.ts:12 | rounding is per line: two lines of 100.4 total 200, not `Math.round(200.8)` = 201 |
| `OfferPricing.PresentStops` | frontend/src/pages/simulator/helpers.ts:34-42 | a stop is kept iff its location is neither empty nor "-" |
| `OfferPricing.GetOfferPath` | frontend/src/pages/simulator/helpers.ts:30-45 | the pushes produce exactly the present candidates in the fixed order |
| `OfferPricing.PresentCandidates` | frontend/src/pages/simulator/helpers.ts:34-42 | the path is built by three independent presence tests, one per candidate in turn |
| `OfferPricing.OfferPathSpec` | frontend/src/pages/simulator/helpers.ts:30-45 | at most three stops; the transit port, discharge port and train station each appear iff present; they appear in that order; only the train station is inland |
| `OfferPricing.PathMembers` | frontend/src/pages/simulator/helpers.ts:34-42 | each candidate is on the path iff its location is present |
| `OfferPricing.PathOrder` | frontend/src/pages/simulator/helpers.ts:35-41 | the stops keep the order transit, discharge, train; `isInLand` holds exactly for the train station |
| `OfferPricing.PresentStopsRanked` | frontend/src/pages/simulator/helpers.ts:34-42 | skipping absent stops keeps the survivors' relative order |
| `OfferPricing.RankedTail` | frontend/src/pages/simulator/helpers.ts:34-42 | a suffix of an ordered path is ordered |
| `OfferPricing.RankedCons` | frontend/src/pages/simulator/helpers.ts:34-42 | a stop ranked before all the others can be put in front of an ordered path |
| `OfferPricing.CandidateRanks` | frontend/src/pages/simulator/helpers.ts:35-41 | the three candidates are told apart by their labels, and only the train station is inland |
| `OfferPricing.ScaleLines` | frontend/src/pages/simulator/helpers.ts:60-66 | the line count and order are kept, and each line is scaled by itself |
| `OfferPricing.MultiplyOfferPricesSpec` | frontend/src/pages/simulator/helpers.ts:51-78 | the 20-foot totals, weight and line prices (local and USD) are multiplied by `num20` and the 40-foot ones by `num40`, on the offer and in every price list; every other field of the offer, lines and price lists (the price lists' own totals included) is unchanged, and the counts and order are kept |
| `OfferPricing.MultiplyOfferPrices` | frontend/src/pages/simulator/helpers.ts:51-78 | `multiplyOfferPrices`; `OfferPricing.MultiplyOfferPricesSpec` states what it scales and what it keeps |
| `OfferPricing.ScaleLine` | frontend/src/pages/simulator/helpers.ts:60-66 | one line with its four prices scaled; `OfferPricing.ScaleLinesCompose` states that scaling twice is scaling by the products |
| `OfferPricing.ScalePriceList` | frontend/src/pages/simulator/helpers.ts:67-76 | a price list whose lines are scaled, with every other field, its own totals included, unchanged |
| `OfferPricing.MultiplyByOne` | frontend/src/pages/simulator/helpers.ts:51-78 | one container of each size gives back the offer |
| `OfferPricing.MultiplyByZero` | frontend/src/pages/simulator/helpers.ts:51-78 | zero containers zero every scaled field |
| `OfferPricing.MultiplyCompose` | frontend/src/pages/simulator/helpers.ts:51-78 | scaling twice is scaling once by the products of the counts |
| `OfferPricing.ScaleLinesCompose` | frontend/src/pages/simulator/helpers.ts:60-66 | the same for a list of lines |
| `OfferPricing.ScaleLineCompose` | frontend/src/pages/simulator/helpers.ts:61-65 | the same for one line |
| `OfferPricing.ScaledLinesSum` | frontend/src/pages/simulator/helpers.ts:64 | the sum of the lines' 20-foot USD prices is scaled by `num20` |
| `UtilsHelpers.ToFixed` | frontend/src/utils/helpers.ts:10 | the text starts with "-" exactly for a negative number, and the rest is a digit string whose value is the magnitude rounded to the nearest integer, halves up |
| `UtilsHelpers.DigitRun` | frontend/src/utils/helpers.ts:11 | the run of digits that the look-ahead `(\d{3})+(?!\d)` scans lies within the string |
| `UtilsHelpers.Rem3` | frontend/src/utils/helpers.ts:11 | the size of the leading digit group: below 3, and leaving a multiple of three behind it |
| `UtilsHelpers.Mult3Rem3` | frontend/src/utils/helpers.ts:11 | a length is a multiple of three iff it leaves no leading group |
| `UtilsHelpers.Rem3Pred` | frontend/src/utils/helpers.ts:11 | how the leading group shrinks as one digit is consumed |
| `UtilsHelpers.DigitRunAllDigits` | frontend/src/utils/helpers.ts:11 | on a digit string the run is the whole string |
| `UtilsHelpers.InsertCommasStep` | frontend/src/utils/helpers.ts:11 | the global replace handles one position: a possible comma, then the character |
| `UtilsHelpers.InsertCommasAfterDigit` | frontend/src/utils/helpers.ts:11 | after a digit (no `\B` boundary issue) the pattern puts a comma before every group of three digits from the right |
| `UtilsHelpers.InsertCommasDigits` | frontend/src/utils/helpers.ts:11 | on a digit string the regular expression gives the reference thousands grouping |
| `UtilsHelpers.GroupedFirst` | frontend/src/utils/helpers.ts:11 | the grouping of a number is its first digit followed by the grouping of the rest, with the leading group of 1–3 digits |
| `UtilsHelpers.InsertCommasFirstDigit` | frontend/src/utils/helpers.ts:11 | `\B` never matches before the first digit |
| `UtilsHelpers.InsertCommasNegative` | frontend/src/utils/helpers.ts:11 | no comma goes between a minus sign and the first digit |
| `UtilsHelpers.FormatPriceGrouping` | frontend/src/utils/helpers.ts:9-12 | `formatPrice` is the sign of the rounded price followed by its digits grouped in threes from the right |
| `UtilsHelpers.FormatPrice` | frontend/src/utils/helpers.ts:9-12 | `formatPrice`; `UtilsHelpers.FormatPriceGrouping` states its digit groups, and `UtilsHelpers.FormatPriceStripsToDecimal` states that dropping the commas from a whole number's text gives `String(n)` |
| `UtilsHelpers.InsertCommas` | frontend/src/utils/helpers.ts:11 | the comma-inserting `replace`; `UtilsHelpers.InsertCommasDigits` states that on a digit string it gives the thousands grouping |
| `UtilsHelpers.StripCommasAppend` | frontend/src/utils/helpers.ts:11 | removing commas distributes over concatenation |
| `UtilsHelpers.StripCommasDigits` | frontend/src/utils/helpers.ts:11 | a digit string has no commas to remove |
| `UtilsHelpers.StripTail3` | frontend/src/utils/helpers.ts:11 | removing the commas from the three-digit groups gives back their digits |
| `UtilsHelpers.StripGrouped` | frontend/src/utils/helpers.ts:11 | the grouping inserts commas only: removing them gives back the digits |
| `UtilsHelpers.FormatPriceStripsToDecimal` | frontend/src/utils/helpers.ts:9-12 | for a non-negative integer price, `formatPrice` without its commas is the decimal rendering |
| `UtilsHelpers.FormatPriceThousand` | frontend/src/tests/helpers.test.ts:12-16 | 1000 formats as "1,000" |
| `UtilsHelpers.FormatPriceFiveThousand` | frontend/src/tests/helpers.test.ts:12-16 | 5000 formats as "5,000" |
| `UtilsHelpers.SingleThousandGrouped` | frontend/src/utils/helpers.ts:11 | a four-digit number ending in 000 gets one comma after its first digit |
| `UtilsHelpers.FormatPriceTenThousand` | frontend/src/tests/helpers.test.ts:12-16 | 10000 formats as "10,000" |
| `UtilsHelpers.TenThousandGrouped` | frontend/src/utils/helpers.ts:11 | "10000" is grouped as "10,000" |
| `UtilsHelpers.VisibleKeys` | frontend/src/utils/helpers.ts:39-40 | a key is compared iff the object has it and it is not ignored |
| `UtilsHelpers.DeepEqual` | frontend/src/utils/helpers.ts:38-60 | the loop with its early exits returns exactly the deep-equality predicate; differing counts of compared keys give false |
| `UtilsHelpers.DeepEq` | frontend/src/utils/helpers.ts:38-60 | the reference deep equality; `UtilsHelpers.DeepEqual` states the loop computes it, and `UtilsHelpers.StripEqualDeepEq` and `UtilsHelpers.DeepEqStripEqual` relate it to equality after stripping ignored keys |
| `UtilsHelpers.Strip` | frontend/src/utils/helpers.ts:38-60 | removing the ignored keys at every depth keeps objects objects and non-objects unchanged in kind |
| `UtilsHelpers.DeepEqReflexive` | frontend/src/tests/helpers.test.ts:27-33 | every object is deeply equal to itself, whatever is ignored |
| `UtilsHelpers.StripEqualDeepEq` | frontend/src/utils/helpers.ts:38-60 | the ignore list applies at every nesting level: objects differing only under ignored keys are deeply equal |
| `UtilsHelpers.DeepEqStripEqual` | frontend/src/utils/helpers.ts:38-60 | without `undefined` values the converse holds: deep equality means equality after stripping the ignored keys |
| `UtilsHelpers.SubsetSameSize` | frontend/src/utils/helpers.ts:42-44 | the count check turns "every key of `obj1` is in `obj2`" into equal key sets |
| `UtilsHelpers.DeepEqNotSymmetric` | frontend/src/utils/helpers.ts:46-57 | with `undefined` values the check is not symmetric |
| `UtilsHelpers.DeepEqPersonExamples` | frontend/src/tests/helpers.test.ts:27-33 | the unit test's nested person records: equal addresses compare equal, different cities do not |
| `UtilsHelpers.DomainPart` | frontend/src/utils/helpers.ts:68 | `email.split("@")[1]` is missing iff there is no "@", and otherwise is the "@"-free text right after the first "@" |
| `UtilsHelpers.EmailTopLevelDomainSpec` | frontend/src/utils/helpers.ts:67-76 | for an address with "@", true iff the domain is a dot-free host, a dot, and at least two more characters (first dot at index ≤ length − 3) |
| `UtilsHelpers.EmailHasTopLevelDomain` | frontend/src/utils/helpers.ts:67-76 | `doesEmailHaveTopLevelDomain`, None where the source throws; `UtilsHelpers.EmailTopLevelDomainSpec` states when it is true |
| `UtilsHelpers.DomainAcceptedIff` | frontend/src/utils/helpers.ts:69-71 | the index test is the same as that split into host, dot and suffix of length ≥ 2 |
| `UtilsHelpers.AcceptedDomainSplits` | frontend/src/utils/helpers.ts:69-71 | an accepted domain splits at its first dot with at least two characters after it |
| `UtilsHelpers.SplitDomainAccepted` | frontend/src/utils/helpers.ts:69-71 | any such split is accepted |
| `UtilsHelpers.IndexOfFirst` | frontend/src/utils/helpers.ts:69 | `indexOf` reports the first occurrence |
| `UtilsHelpers.DomainOf` | frontend/src/utils/helpers.ts:68 | the domain of `user@domain` is `domain` |
| `UtilsHelpers.EmailWithDot` | frontend/src/utils/helpers.ts:69-75 | with a dot after a dot-free host, the address passes iff at least two characters follow the dot |
| `UtilsHelpers.EmailWithoutDot` | frontend/src/utils/helpers.ts:71-72 | a domain without a dot fails |
| `UtilsHelpers.EmailExampleNoDot` | frontend/src/tests/helpers.test.ts:38-42 | "example@test" fails |
| `UtilsHelpers.EmailExampleNoAt` | frontend/src/utils/helpers.ts:68-69 | an address without "@" makes the source throw |
| `UtilsHelpers.EmailExampleTrailingDot` | frontend/src/tests/helpers.test.ts:38-42 | "example@test." fails |
| `UtilsHelpers.EmailExampleCom` | frontend/src/tests/helpers.test.ts:38-42 | "example@test.com" passes |
| `UtilsHelpers.EmailExampleCoUk` | frontend/src/tests/helpers.test.ts:38-42 | "example@test.co.uk" passes |
| `UtilsHelpers.FirstFailing` | frontend/src/utils/helpers.ts:83-109 | the first broken rule of a list, or none exactly when every rule holds |
| `UtilsHelpers.FailedRuleIsFirstFailing` | frontend/src/utils/helpers.ts:84-106 | the chain of early returns stops at the first broken rule in the order empty, length, lowercase, uppercase, digit, special |
| `UtilsHelpers.FailedRule` | frontend/src/utils/helpers.ts:84-106 | the first failing password rule; `UtilsHelpers.FailedRuleIsFirstFailing` states that every earlier rule holds and this one fails |
| `UtilsHelpers.PasswordValidationMessage` | frontend/src/utils/helpers.ts:83-109 | the message is the failed rule's message, and "" when no rule fails; `UtilsHelpers.PasswordMessageEmptyIff` states when that is |
| `UtilsHelpers.PasswordMessageFirstFailing` | frontend/src/utils/helpers.ts:83-109 | only the first broken rule's message is returned |
| `UtilsHelpers.PasswordMessageEmptyIff` | frontend/src/utils/helpers.ts:83-109 | the message is "" iff the password is non-empty, at least 8 long, and has a lowercase letter, an uppercase letter, a digit and one of `!@#$%^&*` |
| `UtilsHelpers.RuleMessageNonEmpty` | frontend/src/utils/helpers.ts:85-105 | every rule's message is non-empty, so a failure is never reported as "" |
| `UtilsHelpers.PasswordRuleIndex` | frontend/src/utils/helpers.ts:84-106 | every rule is one of the checked rules |
| `UtilsHelpers.PasswordExamplesShort` | frontend/src/tests/helpers.test.ts:47-64 | the empty and the seven-character passwords get the empty and length messages |
| `UtilsHelpers.PasswordExampleAllLower` | frontend/src/tests/helpers.test.ts:47-64 | "password" gets the uppercase message |
| `UtilsHelpers.PasswordExampleAllUpper` | frontend/src/tests/helpers.test.ts:47-64 | "PASSWORD" gets the lowercase message |
| `UtilsHelpers.PasswordExampleNoSpecial` | frontend/src/tests/helpers.test.ts:47-64 | "Password1" gets the special-character message |
| `UtilsHelpers.PasswordExampleNoDigit` | frontend/src/tests/helpers.test.ts:47-64 | "Password@" gets the digit message |
| `UtilsHelpers.PasswordExampleStrong` | frontend/src/tests/helpers.test.ts:47-64 | "StrongPassword1@" is accepted |
| `UtilsHelpers.NamesContaining` | frontend/src/utils/helpers.ts:120-121 | the names the loop deletes: those present whose text contains the string |
| `UtilsHelpers.DeleteKeysIncludingString` | frontend/src/utils/helpers.ts:117-125 | returns a fresh copy holding exactly the input's pairs whose name does not contain the string, in order; the input is untouched |
| `UtilsHelpers.DeleteKeysStep` | frontend/src/utils/helpers.ts:120-122 | one iteration deletes the current name iff it contains the string, keeping the copy equal to the input minus the names seen so far |
| `UtilsHelpers.NamesContainingSnoc` | frontend/src/utils/helpers.ts:120-121 | looking at one more key adds its name exactly when it contains the string |
| `UtilsHelpers.WithoutKeysContainingMembers` | frontend/src/utils/helpers.ts:117-125 | a pair survives iff its name does not contain the string |
| `UtilsHelpers.WithoutKeysContainingGet` | frontend/src/utils/helpers.ts:117-125 | a name without the string reads its old value; any other reads nothing |
| `UtilsHelpers.WithoutKeysContaining` | frontend/src/utils/helpers.ts:117-125 | the pairs whose name does not contain the pattern, in order; `UtilsHelpers.WithoutKeysContainingGet` states what `get` then returns |
| `UtilsHelpers.DropAllNamed` | frontend/src/utils/helpers.ts:121 | deleting every name leaves nothing |
| `UtilsHelpers.DeleteKeysExample` | frontend/src/tests/helpers.test.ts:69-80 | deleting "param" from param1..param4 leaves no parameter |
| `UtilsHelpers.CategoryTitleSpec` | frontend/src/utils/helpers.ts:143-156 | the function is total: distinct categories get distinct titles, and anything other than the four named ones gets the local-charges title |
| `UtilsHelpers.CategoryTitle` | frontend/src/utils/helpers.ts:143-156 | `getCategoryTitle`; `UtilsHelpers.CategoryTitleSpec` states the title of each category and the fallback |
| `UtilsHelpers.CategoryTitleAt` | frontend/src/utils/helpers.ts:144-154 | each category maps to its own title |
| `UtilsHelpers.CategoryTitlesDistinct` | frontend/src/utils/helpers.ts:146-154 | the five titles are pairwise different |
| `UtilsHelpers.CategoryTitleOther` | frontend/src/utils/helpers.ts:153-154 | the default branch gives "Local Charges Offer" |
| `SortHelpers.Split` | frontend/src/components/SortableTable/helpers.ts:5 | `split` always yields at least one piece |
| `SortHelpers.SplitWithout` | frontend/src/components/SortableTable/helpers.ts:5 | a path without "." splits into itself |
| `SortHelpers.GetNestedValueIsLookup` | frontend/src/components/SortableTable/helpers.ts:3-6 | because the test on "." is inverted, the value is always the row's own entry under the whole path |
| `SortHelpers.GetNestedValue` | frontend/src/components/SortableTable/helpers.ts:3-6 | `getNestedValue`; `SortHelpers.GetNestedValueIsLookup` states that it is always the plain lookup `obj[path]` |
| `SortHelpers.GetNestedValueDottedPath` | frontend/src/components/SortableTable/helpers.ts:4 | a dotted path misses the nested value |
| `SortHelpers.LessAsymmetric` | frontend/src/components/SortableTable/helpers.ts:12-13 | `<` on values is asymmetric |
| `SortHelpers.LessTotalOrder` | frontend/src/components/SortableTable/helpers.ts:12-13 | on values of one kind `<` is an irreflexive, transitive and total order |
| `SortHelpers.Less` | frontend/src/components/SortableTable/helpers.ts:12-13 | JavaScript `<` on numbers, strings and booleans; `SortHelpers.LessTotalOrder` and `SortHelpers.LessAsymmetric` state that it is a strict total order on each type |
| `SortHelpers.DescendingComparatorSwap` | frontend/src/components/SortableTable/helpers.ts:8-15 | the comparator returns −1, 0 or 1, and swapping its arguments negates it |
| `SortHelpers.DescendingComparator` | frontend/src/components/SortableTable/helpers.ts:8-15 | 1, -1 or 0 as the right operand is greater, smaller or neither; `SortHelpers.DescendingComparatorSwap` states that swapping the rows negates it |
| `SortHelpers.GetComparatorSpec` | frontend/src/components/SortableTable/helpers.ts:17-21 | the ascending comparator is the pointwise negation of the descending one; descending puts larger values first and ascending smaller values first |
| `SortHelpers.GetComparator` | frontend/src/components/SortableTable/helpers.ts:17-21 | the comparator for an order; `SortHelpers.GetComparatorSpec` states that ascending negates descending and which values each puts first |
| `SortHelpers.Tag` | frontend/src/components/SortableTable/helpers.ts:24 | each item is paired with its index |
| `SortHelpers.Untag` | frontend/src/components/SortableTable/helpers.ts:28 | the items are read back, in order |
| `SortHelpers.Insert` | frontend/src/components/SortableTable/helpers.ts:26 | inserting adds exactly the one item |
| `SortHelpers.SortTagged` | frontend/src/components/SortableTable/helpers.ts:26 | the sort rearranges the tagged items without loss |
| `SortHelpers.StrictThenWeak` | frontend/src/components/SortableTable/helpers.ts:26 | for a consistent comparator, "below" then "not above" is "below" |
| `SortHelpers.ConsStablySorted` | frontend/src/components/SortableTable/helpers.ts:26 | an item that may stand before all of a stably sorted run keeps it stably sorted at the front |
| `SortHelpers.ItemOf` | frontend/src/components/SortableTable/helpers.ts:26 | each sorted item comes from the compared items |
| `SortHelpers.InsertStablySorted` | frontend/src/components/SortableTable/helpers.ts:26 | inserting a later-tagged item keeps the run ordered, ties by tag |
| `SortHelpers.SortTaggedStablySorted` | frontend/src/components/SortableTable/helpers.ts:24-26 | items tagged in increasing order come out ordered by the comparator, ties in input order |
| `SortHelpers.StableSortSpec` | frontend/src/components/SortableTable/helpers.ts:23-28 | `stableSort` returns a permutation of its input; for a consistent comparator it is ordered, and equal elements keep their input order |
| `SortHelpers.StableSort` | frontend/src/components/SortableTable/helpers.ts:23-29 | `stableSort`; `SortHelpers.StableSortSpec` states that it is a permutation, ordered by the comparator, with ties in input order |
| `SortHelpers.UntagMultiset` | frontend/src/components/SortableTable/helpers.ts:28 | dropping the tags maps the multiset of pairs to the multiset of items |
| `SortHelpers.MapFirstAdd` | frontend/src/components/SortableTable/helpers.ts:28 | dropping tags commutes with adding one pair |
| `SortHelpers.GetComparatorConsistent` | frontend/src/components/SortableTable/helpers.ts:8-21 | on rows whose sort values are of one kind, both comparators are antisymmetric and transitive |
| `SortableTable.NextSort` | frontend/src/components/SortableTable/SortableTable.tsx:79-83 | a click always selects the column, and sorts descending exactly when that column was already ascending |
| `SortableTable.FreshColumnStartsAscending` | frontend/src/components/SortableTable/SortableTable.tsx:80-81 | a new column starts ascending |
| `SortableTable.RepeatedClicksAlternate` | frontend/src/components/SortableTable/SortableTable.tsx:80-81 | repeated clicks on a column alternate the direction |
| `SortableTable.ClickTwiceFromDescending` | frontend/src/components/SortableTable/SortableTable.tsx:75-81 | from the initial descending state a column shows ascending, then descending |
| `SortableTable.SortTable.constructor` | frontend/src/components/SortableTable/SortableTable.tsx:75-76 | the table starts with no column and descending |
| `SortableTable.SortTable.SortedValues` | frontend/src/components/SortableTable/SortableTable.tsx:77 | the displayed rows are a permutation of `rowData` |
| `SortableTable.SortTable.HandleSort` | frontend/src/components/SortableTable/SortableTable.tsx:79-83 | the state moves to the next sort state and the rows are untouched |
| `SortableTable.SortTable.ClickHeader` | frontend/src/components/SortableTable/SortableTable.tsx:96-104 | with fewer than two rows no sort control exists and a click changes nothing |
| `SortableTable.SortedValuesOrdered` | frontend/src/components/SortableTable/SortableTable.tsx:77 | the displayed rows are ordered by the chosen column and direction, ties in `rowData` order, when the column's values are of one kind |
| `PaginatedSortedTable.OrderOf` | frontend/src/components/PaginatedSortedTable/PaginatedSortedTable.tsx:70 | descending iff `sort` starts with "-"; ascending when absent |
| `PaginatedSortedTable.OrderByOf` | frontend/src/components/PaginatedSortedTable/PaginatedSortedTable.tsx:69 | the column is `sort` without its first "-"; absent iff `sort` is absent |
| `PaginatedSortedTable.SortValue` | frontend/src/components/PaginatedSortedTable/PaginatedSortedTable.tsx:73 | the written value reads back as the other order than the current one, and, for a key without "-", as the same column |
| `PaginatedSortedTable.DashedKeyMisread` | frontend/src/components/PaginatedSortedTable/PaginatedSortedTable.tsx:69-73 | sorting descending by a key that contains "-" writes a value that reads back as the key without its first "-" ("a-b" becomes "ab") |
| `PaginatedSortedTable.OnSortEntries` | frontend/src/components/PaginatedSortedTable/PaginatedSortedTable.tsx:72-77 | only `sort` changes, to the toggled value; every other parameter and their order are kept |
| `PaginatedSortedTable.OnSort` | frontend/src/components/PaginatedSortedTable/PaginatedSortedTable.tsx:72-77 | a fresh copy of the parameters gets the new `sort`, and the current parameters are left alone |
| `PaginatedSortedTable.ClickHeadCell` | frontend/src/components/PaginatedSortedTable/PaginatedSortedTable.tsx:81-90 | a disabled cell, or one without a key, offers no sort action |
| `PaginatedSortedTable.TwoClicksRestore` | frontend/src/components/PaginatedSortedTable/PaginatedSortedTable.tsx:70-76 | two clicks on the same column from `sort=key` or `sort=-key` restore it and keep the other parameters |
| `PaginatedSortedTable.FirstClickFromNoSort` | frontend/src/components/PaginatedSortedTable/PaginatedSortedTable.tsx:70-73 | from no `sort`, the first click writes "-key" (descending) |
| `PaginatedSortedTable.ClicksAfterDescending` | frontend/src/components/PaginatedSortedTable/PaginatedSortedTable.tsx:70-73 | while descending, a click writes the bare key, and the next one "-key" |
| `PaginatedSortedTable.ActiveColumn` | frontend/src/components/PaginatedSortedTable/PaginatedSortedTable.tsx:69-70 | "key" and "-key" both parse to the column, ascending and descending |
| `Pagination.NumPages` | frontend/src/components/Pagination/Pagination.tsx:84 | the page count is the ceiling of `totalCount / pageSize` |
| `Pagination.CeilDiv` | frontend/src/components/Pagination/Pagination.tsx:84 | the least number of pages that holds all items |
| `Pagination.NumberOf` | frontend/src/components/Pagination/Pagination.tsx:85 | `Number` of the empty string is 0, and of a digit string its value |
| `Pagination.CurrentPage` | frontend/src/components/Pagination/Pagination.tsx:85 | the numeric `page`, with 1 when it is absent, 0 or not a number; never 0 |
| `Pagination.PageChange` | frontend/src/components/Pagination/Pagination.tsx:91-96 | ignored unless the page differs from the current one and lies in 1..numPages; page 1 removes `page`, any other page sets it to its decimal string; other parameters untouched |
| `Pagination.GetAfterDeleteAll` | frontend/src/components/Pagination/Pagination.tsx:93 | deleting `page` leaves every other parameter |
| `Pagination.GetAfterSetAll` | frontend/src/components/Pagination/Pagination.tsx:94 | setting `page` leaves every other parameter |
| `Pagination.OnChange` | frontend/src/components/Pagination/Pagination.tsx:91-96 | the handler updates the shared parameters in place to the page change |
| `Pagination.PageChangeRoundTrip` | frontend/src/components/Pagination/Pagination.tsx:85-95 | an accepted change to page p is read back as current page p |
| `Pagination.NavButtonsLeadToAcceptedPages` | frontend/src/components/Pagination/Pagination.tsx:122-126 | Back is enabled iff moving to the previous page is accepted, Forward iff moving to the next one is |
| `Pagination.Accepts` | frontend/src/components/Pagination/Pagination.tsx:92 | the guard of `onChange`; `Pagination.PageChange` states that a page it rejects leaves the parameters unchanged |
| `Pagination.BackDisabled` | frontend/src/components/Pagination/Pagination.tsx:122-124 | "previous" is disabled on the first page; `Pagination.NavButtonsLeadToAcceptedPages` states that an enabled button leads to an accepted page |
| `Pagination.ForwardDisabled` | frontend/src/components/Pagination/Pagination.tsx:122-126 | "next" is disabled on the last page; `Pagination.NavButtonsLeadToAcceptedPages` states the same for it |
| `Pagination.ForwardThenBack` | frontend/src/components/Pagination/Pagination.tsx:84-126 | Forward from page 1 of five writes page=2, and Back removes it again |
| `OffersService.ActivityName` | frontend/src/utils/services/offers.ts:42 | each range name is one of `ACTIVITIES` |
| `OffersService.ActivityNamed` | frontend/src/utils/services/offers.ts:44-49 | a known name finds its range; an unknown one is not in `ACTIVITIES` |
| `OffersService.ActivityNameRoundTrip` | frontend/src/utils/services/offers.ts:42-49 | a range's name finds that range |
| `OffersService.RangeClause` | frontend/src/utils/services/offers.ts:104 | a known range gives its conditions' text; a name inherited from `Object.prototype` gives that property's text (a function's source, or "[object Object]" for `__proto__`); any other name gives "undefined" |
| `OffersService.InheritedRangeExample` | frontend/src/utils/services/offers.ts:104 | `activity_range=toString` interpolates the source text of the built-in `toString` |
| `OffersService.ProtoRangeExample` | frontend/src/utils/services/offers.ts:104 | `activity_range=__proto__` interpolates "[object Object]" |
| `OffersService.UndefinedRangeExample` | frontend/src/utils/services/offers.ts:104 | `activity_range=Archived` interpolates "undefined" |
| `OffersService.Conditions` | frontend/src/utils/services/offers.ts:44-49 | the comparisons of each range; `OffersService.InRangeSpec` states which days they accept |
| `OffersService.ActiveClause` | frontend/src/utils/services/offers.ts:45 | the Active clause is `valid_from[lte]=T&valid_until[gte]=T` |
| `OffersService.ExpiredClause` | frontend/src/utils/services/offers.ts:47 | the Expired clause is `valid_until[lt]=T` |
| `OffersService.InRangeSpec` | frontend/src/utils/services/offers.ts:44-49 | Active means from ≤ t ≤ until, Current until ≥ t, Expired until < t, Future from > t |
| `OffersService.RangeRelations` | frontend/src/utils/services/offers.ts:44-49 | Current and Expired split every offer, Active implies Current, and Active excludes Future |
| `OffersService.PageSizeText` | frontend/src/utils/services/offers.ts:40 | `${PAGE_SIZE}` is "15" |
| `OffersService.GetFilteredPage` | frontend/src/utils/services/offers.ts:90-105 | the copy, default filling and range rewriting produce the reference query, and the caller's parameters are not changed |
| `OffersService.FillOneSpec` | frontend/src/utils/services/offers.ts:94-97 | one default check keeps a given value, inserts the default otherwise, and moves no other parameter |
| `OffersService.WithDefaultsSpec` | frontend/src/utils/services/offers.ts:94-97 | `sort`, `page`, `limit` and `activity` get their defaults only when absent; given values and other parameters are kept |
| `OffersService.WithDefaults` | frontend/src/utils/services/offers.ts:94-97 | the four defaults filled in; `OffersService.WithDefaultsSpec` states which names are set and that the rest is kept |
| `OffersService.FilteredQuerySpec` | frontend/src/utils/services/offers.ts:99-105 | without a range the query is the defaulted copy; with one it drops `activity_range` and every name containing "valid", keeps the rest, and appends the range's clause |
| `OffersService.FilteredQuery` | frontend/src/utils/services/offers.ts:99-105 | the query `getFilteredPage` sends; `OffersService.FilteredQuerySpec` states its pairs and clause |
| `OffersService.ExpiredQueryExample` | frontend/src/utils/services/offers.ts:101-105 | the Expired range replaces the caller's own date filter and keeps the other filters |
| `OffersService.IncotermLacksValid` | frontend/src/utils/services/offers.ts:103 | "incoterm" does not contain "valid", so it survives the rewriting |
| `OffersService.DistinctResponse.constructor` | frontend/src/utils/services/offers.ts:117 | a response holds the data it was given |
| `OffersService.GetFilterValues` | frontend/src/utils/services/offers.ts:116-120 | with data present `activities` becomes the four range names; otherwise nothing changes |
| `OffersService.Alias` | frontend/src/utils/services/offers.ts:130-132 | the new key reads the dotted key's list, or stays undefined, and no other key changes |
| `OffersService.Concat` | frontend/src/utils/services/offers.ts:133-138 | the spread succeeds iff every list is present |
| `OffersService.ConcatCons` | frontend/src/utils/services/offers.ts:133-138 | the spread is the first list followed by the rest |
| `OffersService.GetFormValues` | frontend/src/utils/services/offers.ts:126-142 | with data present the three aliases are set and `suppliers` is their concatenation, or the spread fails on a missing list; without data nothing changes |
| `OffersService.FormValuesSpec` | frontend/src/utils/services/offers.ts:129-139 | `suppliers` is sealines, then inland-carrier discharge ports, then inland-carrier loading ports, then customs discharge ports; the aliases read the dotted keys |
| `OffersService.WithAliases` | frontend/src/utils/services/offers.ts:130-132 | the three aliased keys; `OffersService.FormValuesSpec` states what each reads and that nothing else changes |
| `OffersService.SuppliersConcat` | frontend/src/utils/services/offers.ts:133-138 | the four lists are concatenated in source order |
| `Hooks.FilterChange` | frontend/src/utils/hooks.tsx:26-36 | no change when the value is the current one; otherwise the parameter is set (or removed for ""), `page` is removed, and other parameters are kept |
| `Hooks.FilterChangeIdempotent` | frontend/src/utils/hooks.tsx:27 | the same change twice is the change once |
| `Hooks.UrlParamFilter.constructor` | frontend/src/utils/hooks.tsx:18-19 | the filter starts with the router's parameters and an empty input |
| `Hooks.UrlParamFilter.SyncValue` | frontend/src/utils/hooks.tsx:22-24 | the input shows the parameter's value, or "" when absent |
| `Hooks.UrlParamFilter.HandleChange` | frontend/src/utils/hooks.tsx:26-36 | the parameters become the filter change and the input shows the new value, unless nothing changed |
| `Hooks.Click` | frontend/src/utils/hooks.tsx:106-110 | a click moves the count by at most one: up exactly on "+", and unchanged exactly when "-" is pressed at 0, so a non-negative count never goes negative |
| `Hooks.ClicksNeverNegative` | frontend/src/utils/hooks.tsx:108 | no series of clicks drives the count below zero |
| `Hooks.Clicks` | frontend/src/utils/hooks.tsx:106-110 | the count after a series of clicks; `Hooks.ClicksNeverNegative` states that it stays non-negative |
| `Hooks.CounterExample` | frontend/src/tests/hooks.test.tsx:17-29 | from 1, "-" gives 0, "+" gives 1 again, and "-" at 0 does nothing |
| `Hooks.Counter.constructor` | frontend/src/utils/hooks.tsx:96 | the count starts at 1 |
| `Hooks.Counter.HandleIncrement` | frontend/src/utils/hooks.tsx:98-100 | the count goes up by one |
| `Hooks.Counter.HandleDecrement` | frontend/src/utils/hooks.tsx:102-104 | the count goes down by one |
| `Hooks.Counter.ClickButton` | frontend/src/utils/hooks.tsx:106-110 | a rendered click follows `Click` and keeps a non-negative count non-negative |
| `Hooks.AsyncHook.constructor` | frontend/src/utils/hooks.tsx:125-127 | the status starts idle with no value and no error |
| `Hooks.AsyncHook.Begin` | frontend/src/utils/hooks.tsx:135-137 | `execute` first moves to loading and clears the value and the error |
| `Hooks.AsyncHook.Settle` | frontend/src/utils/hooks.tsx:139-148 | resolving stores the response and succeeds; rejecting stores the error and fails with a null value; loading moves only to success or error |
| `Hooks.Transition` | frontend/src/utils/hooks.tsx:134-149 | the status moves of `execute`; `Hooks.AsyncHook.Begin` and `Hooks.AsyncHook.Settle` state that each step is one of them |
| `Hooks.AsyncHook.Execute` | frontend/src/utils/hooks.tsx:134-149 | a whole call ends in success with the response and no error, or in error with the error and no value, and returns the matching value and status |
| `ItemLineDuplicates.ItemLineValues` | frontend/src/pages/price-lists/components/InputFormModal.tsx:148 | the item lines, one per detail, in order |
| `ItemLineDuplicates.FindDuplicateItemLines` | frontend/src/pages/price-lists/components/InputFormModal.tsx:144-152 | the nested loops push the reference error rows, which are empty iff the item lines are pairwise distinct, and which contain a row iff its item line occurs in another row |
| `ItemLineDuplicates.ErrorRowsEmptyIffDistinct` | frontend/src/pages/simulator/components/InputForm.tsx:146-154 | no rows are reported iff the item lines are pairwise distinct |
| `ItemLineDuplicates.ErrorRowsArePairs` | frontend/src/pages/simulator/components/InputForm.tsx:148-152 | the rows come in pairs i < j of equal item lines, and every index is below the number of details |
| `ItemLineDuplicates.DuplicatePairsAppend` | frontend/src/pages/price-lists/components/InputFormModal.tsx:149 | pushing a list of pairs after another keeps a list of pairs |
| `ItemLineDuplicates.MatchesArePairs` | frontend/src/pages/price-lists/components/InputFormModal.tsx:147-150 | the inner loop pushes only pairs of equal lines |
| `ItemLineDuplicates.ErrorRowsUpToArePairs` | frontend/src/pages/price-lists/components/InputFormModal.tsx:146-151 | the outer loop pushes only such pairs |
| `ItemLineDuplicates.PairsInRange` | frontend/src/pages/price-lists/components/InputFormModal.tsx:146-151 | every pushed index is a row of the details |
| `ItemLineDuplicates.MatchesFind` | frontend/src/pages/price-lists/components/InputFormModal.tsx:147-150 | the inner loop for row i pushes both i and any later row j with the same item line |
| `ItemLineDuplicates.ErrorRowsUpToFind` | frontend/src/pages/price-lists/components/InputFormModal.tsx:146-151 | once the outer loop has passed row i, both rows of each of its duplicate pairs are in the output |
| `ItemLineDuplicates.ErrorRowsUpToPrefix` | frontend/src/pages/price-lists/components/InputFormModal.tsx:146-151 | the outer loop only appends: its output after row m is a prefix of its output after any later row |
| `ItemLineDuplicates.PairsHaveDuplicates` | frontend/src/pages/simulator/components/InputForm.tsx:148-152 | every index in a list of equal-line pairs names a row whose item line occurs in another row |
| `ItemLineDuplicates.ErrorRowsComplete` | frontend/src/pages/simulator/components/InputForm.tsx:146-154 | a row is reported iff its item line occurs in another row: no duplicate is missed and no unique row is flagged |
| `ItemLineDuplicates.ErrorRowsExample` | frontend/src/pages/price-lists/components/InputFormModal.tsx:146-152 | lines A, B, A report rows 0 and 2; A, B, C report none |
| `OfferForm.Without` | frontend/src/pages/simulator/components/InputForm.tsx:56 | filtering removes every occurrence of the value and keeps the other elements |
| `OfferForm.HandleCheck` | frontend/src/pages/simulator/components/InputForm.tsx:54-60 | the toggled value's membership flips, and the membership of every other value is kept |
| `OfferForm.WithoutAbsent` | frontend/src/pages/simulator/components/InputForm.tsx:56 | filtering out an absent value changes nothing |
| `OfferForm.WithoutTwice` | frontend/src/pages/simulator/components/InputForm.tsx:56 | filtering twice is filtering once |
| `OfferForm.WithoutAppend` | frontend/src/pages/simulator/components/InputForm.tsx:56 | filtering distributes over concatenation |
| `OfferForm.HandleCheckKeepsOthers` | frontend/src/pages/simulator/components/InputForm.tsx:55-57 | the other values keep their relative order |
| `OfferForm.HandleCheckAbsent` | frontend/src/pages/simulator/components/InputForm.tsx:55-57 | an absent value is appended at the end, and a second click restores the list |
| `OfferForm.HandleCheckPresent` | frontend/src/pages/simulator/components/InputForm.tsx:55-57 | a present value, even repeated, is removed and then comes back once, at the end |
| `OfferForm.CheckboxFlips` | frontend/src/pages/simulator/components/InputForm.tsx:54-60 | a checkbox shows its mode checked after a click exactly when it did not before |
| `OfferForm.ModesExample` | frontend/src/pages/simulator/components/InputForm.tsx:54-60 | ticking Rail and Barge, then unticking Rail, leaves Barge |
| `OfferForm.Prepare` | frontend/src/pages/simulator/components/InputForm.tsx:141-144 | a logged-in user's id and company are stamped and nothing else changes; without a user the data is unchanged |
| `OfferForm.OfferInputForm.constructor` | frontend/src/pages/simulator/components/InputForm.tsx:136 | the form starts with no error rows and nothing submitted |
| `OfferForm.OfferInputForm.SubmitForm` | frontend/src/pages/simulator/components/InputForm.tsx:140-165 | duplicate item lines flag their rows, as pairs, and skip `onSubmit`; otherwise the flags are cleared and the stamped offer is submitted once |
| `PriceListForm.EachDay` | frontend/src/pages/price-lists/components/InputFormModal.tsx:28 | the days from start to end, one by one; an interval ending before it starts is an error |
| `PriceListForm.FlatDaysSpec` | frontend/src/pages/price-lists/components/InputFormModal.tsx:26-30 | the expansion succeeds iff every interval is ordered, and then a day is listed iff some interval contains it |
| `PriceListForm.FlatDaysAppend` | frontend/src/pages/price-lists/components/InputFormModal.tsx:27-29 | the days of two runs of intervals are concatenated in input order |
| `PriceListForm.GetIntervalDatesSpec` | frontend/src/pages/price-lists/components/InputFormModal.tsx:26-30 | a missing list disables no day, and otherwise a day is disabled iff some valid interval contains it |
| `PriceListForm.GetIntervalDates` | frontend/src/pages/price-lists/components/InputFormModal.tsx:26-30 | `getIntervalDates`; `PriceListForm.GetIntervalDatesSpec` states that a day is listed iff some interval contains it |
| `PriceListForm.DisabledDates` | frontend/src/pages/price-lists/components/InputFormModal.tsx:103 | the excluded dates of the free intervals; `PriceListForm.IntervalDatesExample` shows them |
| `PriceListForm.IntervalDatesExample` | frontend/src/pages/price-lists/components/InputFormModal.tsx:26-30 | two intervals give their days in input order, and an empty response disables nothing |
| `PriceListForm.BuildIntervalRequest` | frontend/src/pages/price-lists/components/InputFormModal.tsx:125-131 | the request holds the category and every field key, and each key holds the debounced value of its last field |
| `PriceListForm.RequestStep` | frontend/src/pages/price-lists/components/InputFormModal.tsx:127-131 | one `forEach` step keeps the request in step with the keys written so far |
| `PriceListForm.RequestStepValues` | frontend/src/pages/price-lists/components/InputFormModal.tsx:130 | a later field with the same key overwrites the earlier value |
| `PriceListForm.IntervalsEffect` | frontend/src/pages/price-lists/components/InputFormModal.tsx:117-135 | the intervals are requested exactly when the date inputs are enabled, that is when every debounced field is filled; each field key then holds the debounced value of its last field, which is filled, or `undefined` when the key lies past the end of the values (after a category switch) |
| `PriceListForm.ShouldFetchExamples` | frontend/src/pages/price-lists/components/InputFormModal.tsx:117 | nothing is fetched while a field is empty or undefined, nor in the `None` case that only the defensive `?.` guards against; filled values fetch at once, so a form opened with filled default values fetches on its first render; a category without fields fetches at once |
| `PriceListForm.ShouldFetchIntervals` | frontend/src/pages/price-lists/components/InputFormModal.tsx:117 | every debounced value is defined and not empty, with `None` standing only for the defensive `?.`; `PriceListForm.ShouldFetchExamples` shows its cases |
| `PriceListForm.DateInputsDisabled` | frontend/src/pages/price-lists/components/InputFormModal.tsx:190-208 | the date inputs are disabled exactly while no fetch is due; `PriceListForm.IntervalsEffect` states that the request is sent exactly when they are enabled |
| `PriceListForm.ValueAt` | frontend/src/pages/price-lists/components/InputFormModal.tsx:130 | `categoryValues[index]`, undefined past the end; `PriceListForm.BuildIntervalRequest` states that each key holds it |
| `PriceListForm.Prepare` | frontend/src/pages/price-lists/components/InputFormModal.tsx:138-142 | the category is always overwritten with the modal's, a logged-in user's id and company are stamped, and nothing else changes |
| `PriceListForm.PriceListFormModal.constructor` | frontend/src/pages/price-lists/components/InputFormModal.tsx:104 | the modal starts with no error rows and nothing submitted |
| `PriceListForm.PriceListFormModal.SubmitForm` | frontend/src/pages/price-lists/components/InputFormModal.tsx:137-163 | duplicate item lines flag their rows, as pairs, and skip `onSubmit`; otherwise the flags are cleared and the stamped data is submitted once |
| `PriceListSchema.CategoryEnumMatchesFrontEnd` | backend/api/models/main/priceList.js:8-14 | the schema's five categories are the ones the front end titles |
| `PriceListSchema.TrimStart` | backend/api/models/main/priceList.js:88 | trimming the start removes exactly the leading white space |
| `PriceListSchema.TrimEnd` | backend/api/models/main/priceList.js:88 | trimming the end removes exactly the trailing white space |
| `PriceListSchema.Trim` | backend/api/models/main/priceList.js:88 | `trim` keeps a slice of the string and removes only white space, at both ends, and the slice neither starts nor ends with white space |
| `PriceListSchema.TrimUnchanged` | backend/api/models/main/priceList.js:88 | a string without surrounding white space is kept |
| `PriceListSchema.TrimIdempotent` | backend/api/models/main/priceList.js:88 | trimming twice is trimming once |
| `PriceListSchema.ValueSetSize` | backend/api/models/main/priceList.js:121-122 | the `Set` is never larger than the list, and has its size iff the lines are pairwise distinct |
| `PriceListSchema.ValueSetSnoc` | backend/api/models/main/priceList.js:122 | one more line adds its value to the set |
| `PriceListSchema.DistinctSnoc` | backend/api/models/main/priceList.js:122 | a repeated line breaks distinctness, and a new one keeps it |
| `PriceListSchema.UniqueIffNoErrorRows` | backend/api/models/main/priceList.js:120-122 | the backend's Set-size validator passes iff the front end's nested loops report no rows |
| `PriceListSchema.UniqueItemLines` | backend/api/models/main/priceList.js:120-123 | the Set-size validator; `PriceListSchema.UniqueIffNoErrorRows` states that it passes iff the front end reports no rows |
| `PriceListSchema.HasItemLine` | backend/api/models/main/priceList.js:127-130 | the second validator: some detail, and some item line that is not empty |
| `PriceListSchema.HasItemLineExamples` | backend/api/models/main/priceList.js:127-130 | empty details fail, details whose item lines are all empty fail, and one non-empty line passes |
| `PriceListSchema.TrimAll` | backend/api/models/main/priceList.js:86-91 | each stored item line is the trimmed input line |
| `PriceListSchema.TrimmedDuplicatesExample` | backend/api/models/main/priceList.js:86-91 | "A" and "A " pass the front end's check but fail the backend's after trimming |
| `PriceListSchema.TrimmedUniqueImpliesUnique` | backend/api/models/main/priceList.js:120-122 | lines unique after trimming were unique before |
| `PriceListSchema.ItemLines` | backend/api/models/main/priceList.js:121 | the item lines of the details, in order |
| `PriceListSchema.Cast` | backend/api/models/main/priceList.js:83-141 | a stored document has its `activity` trimmed or defaulted to "Active", and each detail cast one by one |
| `PriceListSchema.CastDefaultActivity` | backend/api/models/main/priceList.js:136-141 | a document without `activity` is stored as "Active" |
| `PriceListSchema.CastDefaultCurrency` | backend/api/models/main/priceList.js:110-115 | a detail without `currency_code` is stored in "USD" |
| `PriceListSchema.CastDetail` | backend/api/models/main/priceList.js:85-116 | a detail as stored: item line, supplier and currency trimmed, the currency "USD" by default; `PriceListSchema.CastDefaultCurrency` states the default |
| `PriceListSchema.ValidStoredDocument` | backend/api/models/main/priceList.js:118-134 | a valid stored document has at least one detail, item lines that are distinct both before and after trimming, and a known category |
| `PriceListSchema.Valid` | backend/api/models/main/priceList.js:4-156 | the checks of the schema on a stored document; `PriceListSchema.ValidStoredDocument` states what a valid stored document guarantees |
| `PriceListSchema.StoredItemLines` | backend/api/models/main/priceList.js:86-91 | the stored item lines are the trimmed ones, and the stored category is trimmed |
| `PriceListSchema.DatesUnordered` | backend/api/models/main/priceList.js:73-82 | both dates are required, but nothing orders them: any pair of dates keeps a valid document valid |
| `Params.FirstIndex` | frontend/src/utils/services/offers.ts:92 | the first pair with the name |
| `Params.GetParam` | frontend/src/utils/services/offers.ts:92 | `get` finds a value iff some pair has the name, and returns the first pair's value |
| `Params.DropNames` | frontend/src/utils/hooks.tsx:31 | dropping names never lengthens the list |
| `Params.DropNamesMembers` | frontend/src/utils/hooks.tsx:31 | a pair is kept iff its name is not dropped |
| `Params.GetAfterDelete` | frontend/src/utils/hooks.tsx:31 | after `delete`, the name reads nothing and every other name reads as before |
| `Params.DeleteTwice` | frontend/src/utils/hooks.tsx:34 | deleting twice is deleting once |
| `Params.DeleteCommutes` | frontend/src/utils/hooks.tsx:31-34 | deleting two names in either order gives the same list |
| `Params.DeleteRemovesAll` | frontend/src/utils/hooks.tsx:31 | no pair with the deleted name remains |
| `Params.SetParamSpec` | frontend/src/utils/hooks.tsx:30 | after `set`, the name reads the new value from exactly one pair, in the first old pair's place or at the end, and the other pairs are unchanged and in order |
| `Params.GetAfterSet` | frontend/src/utils/hooks.tsx:30 | setting a name leaves every other name's value |
| `Params.UrlSearchParams.constructor` | frontend/src/utils/hooks.tsx:28 | a copy holds the same pairs |
| `Params.UrlSearchParams.Set` | frontend/src/utils/hooks.tsx:30 | `set` updates the object in place to the set pairs |
| `Params.UrlSearchParams.Delete` | frontend/src/utils/hooks.tsx:31 | `delete` updates the object in place to the remaining pairs |
| `Text.DecimalString` | frontend/src/components/Pagination/Pagination.tsx:94 | `String(n)` is a non-empty digit string without a leading zero |
| `Text.DecimalStringRoundTrip` | frontend/src/components/Pagination/Pagination.tsx:85-94 | reading `String(n)` back with `Number` gives n |
| `Text.IndexOf` | frontend/src/utils/helpers.ts:69 | `indexOf` gives the first occurrence, or −1 exactly when there is none |
| `Text.RemoveFirst` | frontend/src/components/PaginatedSortedTable/PaginatedSortedTable.tsx:69 | `replace("-", "")` removes only the first "-" |
| `Text.LexLessAsymmetric` | frontend/src/components/SortableTable/helpers.ts:12-13 | `<` on strings is asymmetric |
| `Text.LexLessTransitive` | frontend/src/components/SortableTable/helpers.ts:12-13 | `<` on strings is transitive |
| `Text.LexLessTotal` | frontend/src/components/SortableTable/helpers.ts:12-13 | two different strings are ordered one way or the other |

## Left out

- Rendering, styling, routing and page components are UI, so they are not modelled. This includes the MUI `usePagination` items and ellipses, and the `items.length <= 3` early return.
- HTTP requests (axios), toasts, the SWR cache (`revalidateCache`, `usePaginatedData`) and the confirmation dialog are I/O. The model covers `getFilteredPage` only up to the query it sends.
- `useDebounce` timing is not modelled. The debounced values are a parameter. `useDebounce` starts from the watched values, so they are defined from the first render.
- Overlapping `execute` calls of `useAsync` are not modelled. Only one call at a time is covered, so the order in which concurrent promises settle is left out.
- The clock is a parameter: `TODAY` is passed in, as its ISO text for the query and as an integer day for the range predicates.
- `eachDayOfInterval` of date-fns is a foreign library whose version is not pinned. The model follows date-fns 2.x, where an interval ending before it starts throws a `RangeError` (None). From date-fns 3.x on, such an interval yields its days in reverse order instead, and that behaviour is not modelled.
- The free-interval merge behind `/price-lists/free-intervals` is backend code that is not part of this model. Only its consumer, `getIntervalDates`, is modelled.
- `OffersService.InheritedText` renders an inherited built-in method the way V8 prints a native function. Other engines print that text differently.
- Strings are sequences of Unicode code points, while JavaScript's `length`, `indexOf`, `split` and `<` count and compare UTF-16 code units. The two differ only for characters outside the Basic Multilingual Plane: "😀😀😀😀" has length 8 in JavaScript and 4 here. The members below are exact for text within the Basic Multilingual Plane only:
- `UtilsHelpers.EmailTopLevelDomainSpec`: the "length − 3" bound counts code points. A domain with astral characters after its dot is judged by the code-point count.
- `UtilsHelpers.DomainAcceptedIff`: the index of the first dot and the suffix length are code-point counts.
- `UtilsHelpers.EmailHasTopLevelDomain`: `indexOf` and `length` are code-point counts.
- `UtilsHelpers.PasswordMessageEmptyIff`: the "at least 8" length rule counts code points. `"Ab1!😀😀😀"` has 7 code points and 10 UTF-16 code units, so here it fails the length rule, while in JavaScript it passes every rule.
- `UtilsHelpers.FailedRule`: its length rule counts code points, as for `UtilsHelpers.PasswordMessageEmptyIff`.
- `Text.LexLess`: strings are ordered by code point. JavaScript orders them by UTF-16 code unit, which differs when an astral character is compared with one in U+E000–U+FFFF.
- The Excel export and `formatDate` (`toLocaleDateString`) are locale and library formatting, so they are left out.
- Floating point is not modelled: prices are exact reals. `JsMath.Round` ignores double rounding artefacts, and `UtilsHelpers.ToFixed` ignores the exponent form for magnitudes of 10^21 and above.
- `UtilsHelpers.DeepEqual` covers JSON-like values only. `NaN`, arrays, functions and symbols are left out.
- `GenericObjects.Lookup` reads own keys only. In JavaScript `obj[key]` also finds the properties every object inherits from `Object.prototype` (`toString`, `valueOf`, `constructor`, `__proto__` and the others in `OffersService.InheritedNames`), which are functions or the prototype object. Here such a name, when it is not an own key, reads `undefined`. An own `"__proto__"` key is taken as an ordinary key, although an object literal would set the prototype instead.
- `UtilsHelpers.DeepEqual`: an own key of `obj1` that `obj2` lacks is compared with `undefined`, as `GenericObjects.Lookup` reads it. For an inherited name the source compares with the inherited property instead, so `deepEqual({toString: undefined}, {a: 1})` is false in JavaScript but true here.
- `UtilsHelpers.DeepEq`: the same inherited-name gap as `UtilsHelpers.DeepEqual`, whose reference it is.
- `SortHelpers.Less` orders numbers, strings and booleans among themselves. JavaScript's cross-type `<` coercions are not modelled, so `StableSortSpec` promises order only for a comparator consistent on the rows.
- `SortHelpers.SortTagged` is a stable insertion sort, standing in for `Array.prototype.sort`. Sorting in place is not modelled, and neither is the engine's result for an inconsistent comparator.
- `Pagination.NumberOf` models `Number()` on an optional sign and ASCII digits only. White space, decimals, exponents, hexadecimal and `Infinity` read as `NaN` here.
- The `Map` in `getOfferSuppliers` is a key sequence plus a map. That is how its insertion order is kept.
- URLSearchParams percent-encoding and `toString` are not modelled. Parameters are decoded name–value pairs, and the query is those pairs plus the appended clause.
- The password special-character test carries an `/i` flag. It changes nothing for the classes used, so it is not modelled.
- The schema's `maxLength`/`maxlength` limits and the optional string fields other than `category` and `incoterm` are not modelled. The same goes for `ObjectId` references, whose `company` and `senderInformation` are only required to be present, and for the `created_at` default.
- The item-line validator's truthiness is modelled for strings only. `required` already guarantees a string.
- `PriceListSchema.Cast` trims `category`, `incoterm`, `activity`, and each detail's `item_line`, `supplier` and `currency_code`. The trimming of the other string fields is not modelled.
