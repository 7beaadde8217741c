# Receipt processor: points rules, result store and request validators

This project models the core of a small receipt-processing service. The
service takes a purchase receipt and validates it. It computes reward
points from the receipt, stores them under a new id and returns them when
the id is asked for.

- `jstext.dfy` (module `JsText`) states the JavaScript string built-ins the
  service relies on: `trim`, `split` on one character, `endsWith` and
  `parseInt(s, 10)`. It also defines the character classes `\d`, `\w`, `\s`
  and JavaScript's truncating `%`. Each comes with an inverse or a
  reference definition: `split` with `join`, `parseInt` with decimal
  formatting, `trim` with padding.
- `money.dfy` (module `Money`) reads money text `^\d+\.\d{2}$` as a whole
  number of cents, with a formatting inverse.
- `receipts.dfy` (module `Receipts`) holds the `Receipt` and `Item` values
  and the seven additive points rules as functions. Their sum is `Points`,
  the specification. `ProcessReceipt` is the service's accumulate-as-you-go
  computation, a method with a loop over the items, proved equal to
  `Points`. It adds the date and time bonuses by calling the rule functions
  `OddDayPoints` and `AfternoonPoints`, which follow the source's branches
  one for one. `ResultStore` is the id-to-points table, a class with a map
  field.
- `middleware.dfy` has two modules. `ReceiptsMiddleware` holds the decoded
  JSON body, one predicate per anchored regular expression, the two rule
  tables and the two middleware checks, which return `Next` or
  `Reject(status, message)`. `MiddlewareProperties` holds what validation
  guarantees: the round trip between a typed receipt and its JSON form,
  the meaning of the scoring rules on validated fields, and the cases the
  middleware tests exercise.

`\s` and `trim` use the same set, ECMAScript WhiteSpace plus
LineTerminator: U+0009 to U+000D, U+0020, U+00A0, U+1680, U+2000 to
U+200A, U+2028, U+2029, U+202F, U+205F, U+3000 and U+FEFF. `\w` is
`[A-Za-z0-9_]` and `\d` is `[0-9]`.

Three facts about the code shape the model:
- The retailer pattern is `^[\w\s\-&]+$`, so an underscore is accepted.
- Scoring has seven additive rules, the seventh being the odd-day rule.
- The scoring function accepts any receipt, not only validated ones. Its
  date and time rules are modelled on arbitrary text. Only the two amounts
  must be money text (see "Left out").

## Model

| member | source | states |
|---|---|---|
| `JsText.Trim` | src/services/Receipts.ts:29 | the trimmed text is no longer than the input and neither starts nor ends with whitespace |
| `JsText.TrimOfPadded` | src/services/Receipts.ts:29 | trimming text padded with whitespace on both sides gives back the text |
| `JsText.TrimEmptyIffAllSpace` | src/middleware/receiptsMiddleware.ts:44 | text trims to the empty string exactly when every character is whitespace |
| `JsText.Split` | src/services/Receipts.ts:38 | splitting yields at least one piece and no piece contains the separator |
| `JsText.JoinSplit` | src/services/Receipts.ts:38 | joining the pieces of a split with the separator gives back the text |
| `JsText.SplitJoin` | src/services/Receipts.ts:47 | splitting a join of separator-free pieces gives back the pieces |
| `JsText.SplitAfterPiece` | src/services/Receipts.ts:47 | a separator-free piece followed by the separator splits off as the first piece |
| `JsText.ParseIntOfDigits` | src/services/Receipts.ts:40 | parseInt of a non-empty digit string is its value, leading zeros included |
| `JsText.ParseIntOfDecimal` | src/services/Receipts.ts:49-50 | parseInt inverts decimal formatting of every natural number |
| `JsText.ParseIntNoDigits` | src/services/Receipts.ts:41 | text that starts with neither whitespace, a sign nor a digit parses to NaN |
| `JsText.TruncRem` | src/services/Receipts.ts:41 | the remainder differs from the dividend by a multiple of the divisor, is smaller than the divisor in magnitude and takes the sign of the dividend |
| `JsText.Decimal` | src/services/Receipts.ts:40 | the decimal text of a number is a non-empty digit string with no leading zero |
| `JsText.DigitsValueOfDecimal` | src/services/Receipts.ts:40 | the value of the decimal text of a number is the number |
| `Money.Cents` | src/middleware/receiptsMiddleware.ts:73-74 | the cents divided by 100 are the dollar digits' value and the cents modulo 100 the two decimals' value |
| `Money.CentsOfFormat` | src/services/Receipts.ts:31 | reading back formatted money gives the amount that was formatted |
| `Money.RoundIffZeroCents` | src/services/Receipts.ts:14 | money text ends in ".00" exactly when the cents are a multiple of 100, and never ends in ".0" |
| `Receipts.KeepAlnum` | src/services/Receipts.ts:10 | stripping the non-alphanumerics leaves only ASCII letters and digits and never lengthens the text |
| `Receipts.KeepAlnumCounts` | src/services/Receipts.ts:10 | each ASCII letter or digit is kept as often as it occurs and every other character is dropped |
| `Receipts.RetailerPointsAppend` | src/services/Receipts.ts:10 | the retailer points of a concatenation are the sum of the parts' points |
| `Receipts.TotalPoints` | src/services/Receipts.ts:14-21 | the two total rules together give 75 for a round-dollar total, 25 for another multiple of 0.25 and 0 otherwise |
| `Receipts.PairPointsSteps` | src/services/Receipts.ts:24 | 0 or 1 item earns 0, 2 or 3 earn 5, 4 or 5 earn 10, and each further pair adds 5 |
| `Receipts.CeilFifth` | src/services/Receipts.ts:32 | the item bonus is the least whole number of points at least a fifth of the price in dollars |
| `Receipts.BlankDescriptionEarns` | src/services/Receipts.ts:28-35 | a whitespace-only description trims to length 0 and still earns the price bonus |
| `Receipts.DescriptionPointsAppend` | src/services/Receipts.ts:28-35 | the description bonus of a list of items is the sum over its parts |
| `Receipts.OddRemainder` | src/services/Receipts.ts:41 | `day % 2 === 1` holds exactly for the positive odd days |
| `Receipts.ProcessReceipt` | src/services/Receipts.ts:6-66 | the accumulated points equal the sum of the seven rules |
| `Receipts.ResultStore.constructor` | src/services/Receipts.ts:4 | the store starts empty |
| `Receipts.ResultStore.GetResult` | src/services/Receipts.ts:78-80 | a stored id gives its points and an unknown id gives nothing |
| `Receipts.ResultStore.SaveResult` | src/services/Receipts.ts:68-76 | the id was not stored before, it now gives the floored points, and every other id gives what it gave before |
| `Receipts.ScoreAndLookUp` | src/routes/Receipts.routes.ts:15-16 | scoring, saving and looking the id up again returns the score |
| `ReceiptsMiddleware.AsItem` | src/middleware/receiptsMiddleware.ts:110-129 | an item value that passes validation reads as the item whose description and price are the value's two strings, both in their formats |
| `ReceiptsMiddleware.AsReceipt` | src/middleware/receiptsMiddleware.ts:91-108 | a receipt value that passes validation reads as the receipt whose text fields are the value's strings and whose items are the value's item values in order, every field in its format and both amounts readable by the scoring rules |
| `ReceiptsMiddleware.ReceiptRequestCheck` | src/middleware/receiptsMiddleware.ts:24-35 | a request continues exactly when its body is present and valid, and every rejection is 400 with "The receipt is invalid." |
| `ReceiptsMiddleware.PointsRequestCheck` | src/middleware/receiptsMiddleware.ts:37-57 | a missing or whitespace-only id is 400, a non-blank unknown id is 404, both with "No receipt found for that ID.", and a stored id continues |
| `MiddlewareProperties.ValidateReceiptOfJson` | src/middleware/receiptsMiddleware.ts:91-108 | the JSON form of a receipt validates exactly when every field has its format, and a valid one reads back as the same receipt |
| `MiddlewareProperties.ValidateItemObject` | src/middleware/receiptsMiddleware.ts:110-129 | an item object is valid exactly when it has a description and a price that pass their rules |
| `MiddlewareProperties.ValidateReceiptObject` | src/middleware/receiptsMiddleware.ts:91-108 | a receipt object is valid exactly when all five keys are present and each value passes its rule |
| `MiddlewareProperties.ExtraKeysIgnored` | src/middleware/receiptsMiddleware.ts:96-107 | adding or changing a key that has no rule does not change the verdict |
| `MiddlewareProperties.MissingKeyRejected` | src/middleware/receiptsMiddleware.ts:97-101 | a receipt missing any of its five keys is rejected |
| `MiddlewareProperties.EmptyItemsRejected` | src/middleware/receiptsMiddleware.ts:76-79 | an empty item list is rejected whatever the other fields hold |
| `MiddlewareProperties.OnlyObjectsValidate` | src/middleware/receiptsMiddleware.ts:92-94 | arrays, strings, numbers, booleans and null are rejected |
| `MiddlewareProperties.OddDayOnValidDate` | src/services/Receipts.ts:37-44 | on a validated date the odd-day rule gives 6 exactly when the two day digits are odd |
| `MiddlewareProperties.DatesValidate` | src/middleware/receiptsMiddleware.ts:66-67 | every four-digit year, two-digit month and two-digit day form an accepted date, with no range check, and the odd-day rule sees only the day's parity |
| `MiddlewareProperties.TimeTextInRange` | src/middleware/receiptsMiddleware.ts:69-71 | an accepted time has hour 0 to 23 and minute 0 to 59 |
| `MiddlewareProperties.ClockTimesValidate` | src/middleware/receiptsMiddleware.ts:69-71 | every clock time is accepted, with or without a leading zero on the hour |
| `MiddlewareProperties.SplitValidTime` | src/services/Receipts.ts:47 | an accepted time splits at its colon into hour text and minute text |
| `MiddlewareProperties.AfternoonOnValidTime` | src/services/Receipts.ts:46-61 | on an accepted time the afternoon rule gives 10 exactly when the hour is 14 or 15 |
| `MiddlewareProperties.AfternoonBoundaries` | src/services/Receipts.ts:57 | "14:00" and "15:59" earn the afternoon bonus and "13:59" and "16:00" do not |
| `MiddlewareProperties.ScoreOfValidReceipt` | src/services/Receipts.ts:6-66 | the points of a validated receipt, rule by rule, in terms of its parsed cents, day and hour |
| `MiddlewareProperties.BlankDescriptionAccepted` | src/middleware/receiptsMiddleware.ts:84-85 | a whitespace-only description passes validation and still earns its item bonus |
| `MiddlewareProperties.RetailerExamples` | src/middleware/receiptsMiddleware.ts:63-64 | names with letters, digits, underscores, whitespace, hyphens and ampersands pass, and symbols or an empty name fail |
| `MiddlewareProperties.DescriptionIsRetailerWithoutAmpersand` | src/middleware/receiptsMiddleware.ts:63-85 | every valid description is a valid retailer name, a retailer name without `&` is a valid description, and no description contains `&` |
| `MiddlewareProperties.WellFormedTestReceiptPasses` | src/middleware/receiptsMiddleware.test.ts:35-58 | the well-formed test receipt continues to the handler |
| `MiddlewareProperties.MissingTotalRejected` | src/middleware/receiptsMiddleware.test.ts:60-84 | the test receipt without a total is rejected with 400 |
| `MiddlewareProperties.MalformedTestReceiptsRejected` | src/middleware/receiptsMiddleware.test.ts:86-203 | a symbol-laden retailer, a slashed date, a one-decimal price, an empty item list and a missing body are each rejected with 400 |
| `MiddlewareProperties.TimeFormatExamples` | src/middleware/receiptsMiddleware.ts:69-71 | "9:30", "09:30", "23:59" and "0:00" are accepted, while "24:00", "12:5" and "12:60" are rejected |
| `MiddlewareProperties.PointsRequestTestCases` | src/middleware/receiptsMiddleware.test.ts:224-284 | a stored id passes, an empty or missing id is 400, an unknown id is 404, all with the same message |
| `MiddlewareProperties.PointsRuleRange` | src/middleware/receiptsMiddleware.ts:16-20 | the points rule accepts exactly the integers 0 to 2^53 - 1 and rejects fractions and non-numbers |
| `MiddlewareProperties.ScoresSatisfyPointsRule` | src/middleware/receiptsMiddleware.ts:16-20 | every receipt score up to 2^53 - 1 satisfies the points rule |

## Left out

- Receipts.ProcessReceipt: requires the total and every price to be money text, so it does not cover receipts that skipped validation. In the source, a total that is not money text is only tested with `endsWith` and `% 0.25`, so it still gets an ordinary whole-number score: "5" earns the 25 and "abc" does not. `Math.ceil` always gives a whole number, so the score is never fractional. It is NaN or Infinity only when an item whose trimmed description length is a multiple of 3 has a price that is not a finite number. Other items' prices are never read. The route scores a receipt only after validation, and the validator guarantees the precondition (`ReceiptsMiddleware.AsReceipt`).
- Floating point: `Number(total) % 0.25 === 0` is modelled as cents modulo 25 equal to 0. `Math.ceil(price * 0.2)` is modelled as the ceiling of cents / 500. The two agree for two-decimal amounts of ordinary size; double rounding for very large amounts is not modelled. `Math.floor` on the integer sum is the identity and is dropped. `parseInt` of more than 15 significant digits is exact here, not rounded to a double.
- Id generation: `uuidv4()` is a foreign library. `SaveResult` takes the id as a parameter and requires that it is not already stored.
- `getResult`'s `receiptResults[id] || null` on a plain object also finds inherited keys such as `"constructor"`. The store here is a map, so only saved ids are found.
- The route handlers and the Express plumbing are left out: status codes sent with `res.status(...).json(...)`, `next()`, the router and the server bootstrap. They include the 500 answer when scoring throws and the 200 answer with the points. The middleware checks return `Next` or `Reject(status, message)` instead.
- `typeof id !== "string"` in the points-request check: Express route parameters are strings, so the id is modelled as an optional string.
- Strings are sequences of characters, not of UTF-16 code units. This matters only for the lengths of text containing characters outside the Basic Multilingual Plane; the validator rejects such text in every field.
- JSON numbers are modelled as exact reals. `JSON.parse` rounds every number literal to a double and turns an overflowing literal such as `1e400` into `Infinity`; neither is modelled. No receipt verdict depends on this, because every receipt field must be a string. The points rule's verdict can differ for literals that round to an integer: `1.0000000000000001` decodes to `1` and passes in JavaScript, while `PointsRule` rejects the exact value.
- Synchronisation of the store under concurrent requests is not modelled; the service is single-threaded.
- The scores 28, 109, 14, 31 and 15 expected by src/services/Receipts.test.ts come from fixtures under src/mock/, which are not part of this model. src/interfaces/Item.ts is not part of this model either; the item shape is the one the item validator checks.
