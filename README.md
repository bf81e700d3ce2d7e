# Cash-flow service and controller, modelled in Dafny

This project models the core of a small Kotlin/Ktor backend that keeps personal
cash-flow records (income and expense entries). Each record has an id, a type, a
source, a comma-separated `label`, an amount, a description and two timestamps. The
core has two parts:

- **`CashFlowService`** filters the stored records with a query made of optional
  criteria (type, source, labels, amount bounds, text search, date range), lists
  the distinct types, sources and labels, and passes create, update and remove on
  to the repository.
- **`CashFlowController`** validates request bodies, calls the service and chooses
  the response: 200 with data, 400 with every field error, 404, or a failure that
  escapes the handler.

The files are:

| file | module | contents |
|---|---|---|
| `wrappers.dfy` | `Wrappers` | `Option` and `Result` |
| `text.dfy` | `Text` | `isBlank`, `trim`, `split`, ASCII case folding, substring search |
| `dates.dfy` | `Dates` | calendar dates and their parsing in the ISO form (`yyyy-MM-dd`) and the `dd-MM-yyyy` form |
| `amounts.dfy` | `Amounts` | `toDoubleOrNull` on decimal numerals, as exact reals |
| `seqs.dfy` | `Seqs` | subsequences and `distinct()` |
| `cashflows.dfy` | `CashFlows` | the `CashFlow` record and the repository's list operations by id |
| `queries.dfy` | `Queries` | the query, the filter behind `getAllCashFlows`, and the distinct lists |
| `service.dfy` | `Services` | `class CashFlowService`, which owns the record list |
| `controller.dfy` | `Controllers` | request validation and `class CashFlowController` with one method per handler |

The store is the field `records: seq<CashFlow>` of `CashFlowService`. Its methods
reassign that field. The invariant `Valid()` says that no two records share an id.
Every method that changes the store keeps this invariant. Fresh ids are therefore a
precondition of create: the Kotlin code gets them from `UUID.randomUUID()`.

`type` and `label` are reserved words in Dafny, so these fields are called
`flowType` and `labelText`.

## Model

| member | source | states |
|---|---|---|
| Text.Trim | src/main/kotlin/services/CashFlowService.kt:25 | The result of `trim()` has no whitespace at either end, and it is empty exactly when the input is blank. |
| Text.TrimIsCut | src/main/kotlin/services/CashFlowService.kt:25 | `trim()` returns a window of its input with only whitespace cut off at each end. |
| Text.TrimOmits | src/main/kotlin/services/CashFlowService.kt:25 | `trim()` never introduces a character its input lacks, so a trimmed label piece holds no comma. |
| Text.TrimTrimmed | src/main/kotlin/services/CashFlowService.kt:62 | A string with no whitespace at either end is left unchanged by `trim()`. |
| Text.TrimIdempotent | src/main/kotlin/services/CashFlowService.kt:62 | Trimming twice is the same as trimming once. |
| Text.Split | src/main/kotlin/services/CashFlowService.kt:24-25 | `split(",")` yields one more piece than there are commas. No piece contains a comma, and joining the pieces with commas gives the input back. |
| Text.SplitTwo | src/main/kotlin/services/CashFlowService.kt:24 | Two characters around one comma split into the two one-character pieces. |
| Text.SplitJoin | src/main/kotlin/services/CashFlowService.kt:61 | Splitting a comma-join of comma-free pieces gives those pieces back. |
| Text.Lower | src/main/kotlin/services/CashFlowService.kt:18 | Case folding keeps the length, leaves no ASCII upper-case letter, and changes no character other than A-Z. |
| Text.LowerIdempotent | src/main/kotlin/services/CashFlowService.kt:18 | Folding a folded string changes nothing. |
| Text.EqualsIgnoreCaseIsEquivalence | src/main/kotlin/services/CashFlowService.kt:18-21 | `equals(ignoreCase = true)` is reflexive, symmetric and transitive. |
| Text.EqualsIgnoreCaseCharwise | src/main/kotlin/services/CashFlowService.kt:18-21 | `equals(ignoreCase = true)` holds exactly when the lengths agree and every pair of characters is equal after folding. |
| Text.EqualsIgnoreCase | src/main/kotlin/services/CashFlowService.kt:18-21 | `equals(ignoreCase = true)`: the two strings are equal once each is folded to lower case. |
| Text.ContainsIgnoreCase | src/main/kotlin/services/CashFlowService.kt:33 | `contains(ignoreCase = true)`: the folded text occurs in the folded string. |
| Text.IsSubstringIffOccurs | src/main/kotlin/services/CashFlowService.kt:33 | The substring search behind `contains` succeeds exactly when the text occurs at some index. |
| Dates.DaysInMonth | src/main/kotlin/services/CashFlowService.kt:37 | A month has 28 to 31 days. |
| Dates.ParseIsoDate | src/main/kotlin/services/CashFlowService.kt:36-40 | The strict ISO parse accepts only a day that exists in its month, with a four-digit year. |
| Dates.ParseFormatIsoDate | src/main/kotlin/services/CashFlowService.kt:37 | Every valid date with a year from 0 to 9999 is read back from its ISO text. |
| Dates.FormatParseIsoDate | src/main/kotlin/services/CashFlowService.kt:37 | Any text the ISO parse accepts is exactly the ISO text of the date it returns. |
| Dates.ParseDayMonthYear | src/main/kotlin/services/CashFlowService.kt:9 | A `dd-MM-yyyy` bound that parses is a valid date whose year is at least 1. |
| Dates.FormatParseDayMonthYear | src/main/kotlin/services/CashFlowService.kt:42-50 | Whatever the `dd-MM-yyyy` parse accepts is the text of a day from 1 to 31, a month from 1 to 12 and a year from 1 to 9999. The result is that date with its day clamped to the month's length. So "32-01-2024", "15-13-2024" and "ab-cd-efgh" are rejected. |
| Dates.ParseOfFormatDayMonthYear | src/main/kotlin/services/CashFlowService.kt:42-48 | Year 0 in a `dd-MM-yyyy` text is rejected. A year from 1 to 9999 with any month and a day from 1 to 31 reads as that date, with the day clamped to the month's length. |
| Dates.ParseFormatDayMonthYear | src/main/kotlin/services/CashFlowService.kt:42-48 | Every valid date of the era is read back from its `dd-MM-yyyy` text. |
| Dates.ParseDayMonthYearClamps | src/main/kotlin/services/CashFlowService.kt:43 | The resolver clamps a day the month lacks instead of rejecting it: any day from the month's length + 1 up to 31 reads as the month's last day ("31-04-2024" is 30 April). |
| Amounts.ParseAmount | src/main/kotlin/controllers/CashFlowController.kt:52 | A parsed amount has the sign of its text. |
| Amounts.ParseNaturalNumeral | src/main/kotlin/controllers/CashFlowController.kt:33 | A whole number written in decimal is read back as that number. |
| Seqs.Distinct | src/main/kotlin/services/CashFlowService.kt:57 | `distinct()` has no duplicates and has exactly the elements of its input. |
| Seqs.DistinctFirstOccurrenceOrder | src/main/kotlin/services/CashFlowService.kt:57-58 | `distinct()` lists its elements in the order of their first occurrence. |
| Seqs.DistinctIsSubsequence | src/main/kotlin/services/CashFlowService.kt:64 | `distinct()` keeps the input order. |
| CashFlows.FindById | src/main/kotlin/services/CashFlowService.kt:68 | `findById` finds nothing exactly when no record has the id. A found record is in the store and has that id. |
| CashFlows.FindByIdUnique | src/main/kotlin/services/CashFlowService.kt:68 | When ids are unique, looking up a record's id returns that very record. |
| CashFlows.ReplaceByIdKeepsOthers | src/main/kotlin/services/CashFlowService.kt:70 | Replacing the record of one id by a record with the same id leaves the lookup of every other id unchanged. |
| CashFlows.ReplaceByIdKeepsIds | src/main/kotlin/services/CashFlowService.kt:70 | Replacing a record by one with the same id keeps ids unique, and the new record is then the one found. |
| CashFlows.RemoveById | src/main/kotlin/services/CashFlowService.kt:73 | `removeById` drops exactly the records with the id and keeps all others. |
| CashFlows.RemoveByIdOrder | src/main/kotlin/services/CashFlowService.kt:73 | Removal preserves the order of the rest, and changes nothing when the id is absent. |
| CashFlows.RemoveByIdCount | src/main/kotlin/services/CashFlowService.kt:73 | When ids are unique, removing a present id shortens the store by exactly one. |
| CashFlows.RemoveByIdKeepsUnique | src/main/kotlin/services/CashFlowService.kt:73 | Removing an id from a store with unique ids leaves the ids unique. |
| CashFlows.RemoveFirstId | src/main/kotlin/controllers/CashFlowController.kt:18 | Removing the id of the first of several uniquely-identified records leaves the rest. |
| Queries.NonBlank | src/main/kotlin/services/CashFlowService.kt:24 | `filter { it.isNotBlank() }` keeps exactly the non-blank pieces. |
| Queries.MatchesIgnoringCase | src/main/kotlin/services/CashFlowService.kt:18-21 | The type or source criterion: absent, or equal to the field ignoring case. |
| Queries.MatchesLabels | src/main/kotlin/services/CashFlowService.kt:23-26 | The labels criterion: absent, or every non-blank requested piece, trimmed, is one of the record's trimmed label pieces. |
| Queries.MatchesAtLeast | src/main/kotlin/services/CashFlowService.kt:29 | The `gteAmount` criterion: absent, or the amount is at least the bound. |
| Queries.MatchesAtMost | src/main/kotlin/services/CashFlowService.kt:30 | The `lteAmount` criterion: absent, or the amount is at most the bound. |
| Queries.MatchesSearch | src/main/kotlin/services/CashFlowService.kt:33 | The search criterion: absent, or the description contains the text ignoring case. |
| Queries.MatchesStart | src/main/kotlin/services/CashFlowService.kt:42-45 | The start bound: absent, or the record has a date and that date is not before the bound. |
| Queries.MatchesEnd | src/main/kotlin/services/CashFlowService.kt:47-50 | The end bound: absent, or the record has a date and that date is not after the bound. |
| Queries.Matches | src/main/kotlin/services/CashFlowService.kt:18-52 | A record passes when every given criterion holds. An absent criterion always holds. |
| Queries.RecordTags | src/main/kotlin/services/CashFlowService.kt:25 | A record has one more tag than its label has commas. Every tag is trimmed and free of commas. |
| Queries.CreatedDate | src/main/kotlin/services/CashFlowService.kt:36-40 | A record has a date only when `createdAt` has at least ten characters and they are exactly the ISO text of a valid date. That date is the one returned; otherwise the date is null. |
| Queries.Select | src/main/kotlin/services/CashFlowService.kt:16-53 | The filter keeps the store order and every kept record passes all criteria. It keeps every copy of a passing record and no copy of a failing one. |
| Queries.GetAllCashFlows | src/main/kotlin/services/CashFlowService.kt:15-54 | The query fails exactly when the store has a record and a date bound does not parse. Otherwise it returns the filtered list, which is empty for an empty store. |
| Queries.SelectAllPass | src/main/kotlin/services/CashFlowService.kt:16 | When every record passes, the filter returns the whole store in order. |
| Queries.NoCriteriaReturnsAll | src/main/kotlin/controllers/CashFlowController.kt:17 | A query with no criteria returns the store unchanged. |
| Queries.GetAllCashFlowsSelects | src/main/kotlin/services/CashFlowService.kt:15-54 | A successful query returns an ordered selection that contains every passing record and only passing records. |
| Queries.UnparsableBoundAborts | src/main/kotlin/services/CashFlowService.kt:42-50 | On a non-empty store, an unparsable start bound is reported first, then an unparsable end bound. |
| Queries.MatchesLabelsIsContainment | src/main/kotlin/services/CashFlowService.kt:23-26 | The label criterion is set containment: a record must carry every requested tag, not just one of them. The empty tag is never required. |
| Queries.BlankLabelsMatchAll | src/main/kotlin/services/CashFlowService.kt:24 | A `labels` value made only of blank pieces excludes nothing. |
| Queries.TwoLabelsBothRequired | src/main/kotlin/services/CashFlowService.kt:23-26 | For any two one-character tags a and b that are neither blank nor a comma, the labels value "a,b" matches exactly the records tagged with both a and b. |
| Queries.AmountBoundsInclusive | src/main/kotlin/services/CashFlowService.kt:29-30 | The amount bounds are inclusive. Each one alone keeps exactly the records on its side of the bound. |
| Queries.TypeAndSourceIgnoreCase | src/main/kotlin/services/CashFlowService.kt:18-21 | The type or source criterion alone keeps exactly the records whose field equals it, ignoring case. |
| Queries.EmptySearchMatchesAll | src/main/kotlin/services/CashFlowService.kt:33 | An empty search text matches every description. |
| Queries.DateBoundsNeedRecordDate | src/main/kotlin/services/CashFlowService.kt:42-50 | With a date bound, a record without a readable date is excluded. Without date bounds, `createdAt` has no effect. |
| Queries.DateBoundsCompareDays | src/main/kotlin/services/CashFlowService.kt:42-50 | The date bounds compare calendar days and both are inclusive. The start bound for day a passes a record of day c exactly when c is not before a. The end bound for day b passes it exactly when c is not after b. The time of day is ignored. |
| Queries.CreatedDateOfIso | src/main/kotlin/services/CashFlowService.kt:36-40 | A `createdAt` that begins with a day's ISO text has that day as its date. |
| Queries.DistinctTypes | src/main/kotlin/services/CashFlowService.kt:57 | Each type in the store appears once, and nothing else appears. |
| Queries.DistinctSources | src/main/kotlin/services/CashFlowService.kt:58 | Each source in the store appears once, and nothing else appears. |
| Queries.LabelPieces | src/main/kotlin/services/CashFlowService.kt:61 | The flat list holds exactly the comma-separated pieces of every record's label. |
| Queries.TrimmedNonEmptyPieces | src/main/kotlin/services/CashFlowService.kt:62-63 | Trimming and then dropping empty pieces keeps exactly the trims of the non-blank pieces. Each kept piece is non-empty and trimmed. |
| Queries.TrimmedNonEmpty | src/main/kotlin/services/CashFlowService.kt:62-63 | `map { it.trim() }.filter { it.isNotEmpty() }`: the trimmed pieces, empty ones dropped, in order. |
| Queries.KeptLabelPieces | src/main/kotlin/services/CashFlowService.kt:61-63 | Each kept piece is non-empty and trimmed, and is the trim of some record's label piece. Every non-blank label piece contributes its trim. |
| Queries.DistinctLabels | src/main/kotlin/services/CashFlowService.kt:59-65 | The distinct labels have no duplicates. Each is non-empty and trimmed. Together they are exactly the trimmed non-blank label pieces of the store. |
| Queries.DistinctLabelsFirstOccurrence | src/main/kotlin/services/CashFlowService.kt:59-65 | The labels come in the order of their first occurrence. |
| Queries.LabelPresent | src/main/kotlin/services/CashFlowService.kt:59-65 | Every non-blank label piece of a stored record is listed, trimmed. |
| Queries.DistinctLabelsExample | src/main/kotlin/services/CashFlowService.kt:59-65 | Labels "a, b" and "b,c" give exactly a, b and c, each once. |
| Services.CashFlowService.constructor | src/main/kotlin/services/CashFlowService.kt:8 | A new service starts with an empty, valid store (see the repository under "Left out"). |
| Services.CashFlowService.GetAllCashFlows | src/main/kotlin/services/CashFlowService.kt:15-54 | The service's query fails exactly when there is a record and a date bound does not parse. A successful result is an ordered selection of the records that holds every matching record and only matching ones. |
| Services.CashFlowService.GetDistinctTypes | src/main/kotlin/services/CashFlowService.kt:57 | The distinct types have no duplicates. They include the type of every record, and each is the type of some record. |
| Services.CashFlowService.GetDistinctSources | src/main/kotlin/services/CashFlowService.kt:58 | The distinct sources have no duplicates. They include the source of every record, and each is the source of some record. |
| Services.CashFlowService.GetDistinctLabels | src/main/kotlin/services/CashFlowService.kt:59-65 | The distinct labels have no duplicates, and each is non-empty and trimmed. Each is the trim of some record's label piece, and every non-blank piece contributes its trim. |
| Services.CashFlowService.FindById | src/main/kotlin/services/CashFlowService.kt:68 | `findById` finds nothing exactly when no record has the id. A found record is stored and has the id. |
| Services.CashFlowService.Create | src/main/kotlin/services/CashFlowService.kt:69 | `create` appends the record at the end and keeps ids unique. |
| Services.CashFlowService.Update | src/main/kotlin/services/CashFlowService.kt:70 | `update` replaces the record with the id in place. The new record is then the one found for that id, and the lookup of every other id is unchanged. |
| Services.CashFlowService.Remove | src/main/kotlin/services/CashFlowService.kt:73 | `remove` returns true exactly when the id was present. That record is then gone and the store is one shorter. An absent id changes nothing. |
| Services.CashFlowService.RemoveCashFlow | src/main/kotlin/services/CashFlowService.kt:76 | `removeCashFlow` removes the same way and discards the result. |
| Services.CashFlowService.CreateRawCashFlow | src/main/kotlin/services/CashFlowService.kt:78-88 | The record built from the given fields, in their argument order, is appended. |
| Controllers.CollectRequiredErrors | src/main/kotlin/controllers/CashFlowController.kt:49-50 | There is exactly one error per missing or blank field among the five, and each error carries the given message. |
| Controllers.IsMissing | src/main/kotlin/controllers/CashFlowController.kt:50 | `isNullOrBlank()` on a field: the field is absent, null or blank. |
| Controllers.AmountOrZero | src/main/kotlin/controllers/CashFlowController.kt:52 | `toDoubleOrNull() ?: 0.0`: a non-zero result is the parsed amount of a present field, and a parsable amount is always the result. |
| Controllers.ValidateCreate | src/main/kotlin/controllers/CashFlowController.kt:46-53 | "Is required" goes on each missing field. "Must be > 0" goes on a present amount that is not a positive number, and never replaces "Is required". There are no errors exactly when all fields are present and the amount is positive. |
| Controllers.NewCashFlow | src/main/kotlin/controllers/CashFlowController.kt:63-65 | The created record has the fresh id. Its type, source, label and description are the body's texts, and its amount is the parsed, positive amount. Both timestamps are the same instant. |
| Controllers.UpdatedCashFlow | src/main/kotlin/controllers/CashFlowController.kt:105-109 | The updated record keeps its id and creation time. It takes the body's type, source, label and description, the new amount and the update time. |
| Controllers.QueryOf | src/main/kotlin/controllers/CashFlowController.kt:30-35 | Type, source, labels, search and both date bounds are the parameters' texts as given, and absent when the parameter is absent. Each amount bound is the parameter's parsed number, and absent when the parameter is absent or not a number. |
| Controllers.TakesParam | src/main/kotlin/controllers/CashFlowController.kt:32-34 | A text criterion equals the parameter's value when it is given and is absent otherwise. |
| Controllers.CashFlowController.constructor | src/main/kotlin/controllers/CashFlowController.kt:14 | The controller works on the given service. |
| Controllers.CashFlowController.SetupData | src/main/kotlin/controllers/CashFlowController.kt:16-27 | After the two loops the store is exactly the seed list, in order. |
| Controllers.CashFlowController.RemoveEach | src/main/kotlin/controllers/CashFlowController.kt:18 | Removing each listed record in turn empties a store that held exactly that list. |
| Controllers.CashFlowController.AddEach | src/main/kotlin/controllers/CashFlowController.kt:19-21 | Adding each seed record in turn to an empty store leaves exactly the seed, in order. |
| Controllers.CashFlowController.GetAll | src/main/kotlin/controllers/CashFlowController.kt:29-42 | The handler fails exactly when the store has records and a date bound does not parse, and succeeds otherwise. On success the list is exactly the result of `getAllCashFlows` for the query built from the parameters: an ordered selection holding exactly the matching records. `total` is the list's length. |
| Controllers.CashFlowController.Create | src/main/kotlin/controllers/CashFlowController.kt:44-73 | An invalid body yields 400 with all its errors and no change to the store. A valid body appends the new record and answers with its id. |
| Controllers.CashFlowController.GetById | src/main/kotlin/controllers/CashFlowController.kt:75-85 | 404 is returned exactly when no record has the id. Otherwise the answer is the record with that id. |
| Controllers.CashFlowController.Update | src/main/kotlin/controllers/CashFlowController.kt:87-112 | An unknown id yields 404 before the body is read. Then "Required" errors yield 400, and a non-numeric amount fails. Otherwise the record is replaced with the id and creation time kept. No other outcome changes the store. |
| Controllers.CashFlowController.Delete | src/main/kotlin/controllers/CashFlowController.kt:114-120 | 404 is returned exactly when the id is absent. Afterwards no record has the id. |
| Controllers.CashFlowController.GetTypes | src/main/kotlin/controllers/CashFlowController.kt:122-123 | The answer is the distinct types, without duplicates. |
| Controllers.CashFlowController.GetSources | src/main/kotlin/controllers/CashFlowController.kt:125-126 | The answer is the distinct sources, without duplicates. |
| Controllers.CashFlowController.GetLabels | src/main/kotlin/controllers/CashFlowController.kt:128-129 | The answer is the distinct labels, without duplicates. |
| Controllers.DeleteThenGetById | src/main/kotlin/controllers/CashFlowController.kt:114-120 | A lookup that follows a delete of the same id answers 404. |

## Behaviour worth knowing

- **Create requires a positive amount; update does not check it.** The create
  handler answers 400 with "Must be > 0" for an amount that is not positive. The
  update handler applies no such rule, so a zero or negative amount is stored. A non-numeric amount
  makes `toDouble()` throw, and the request fails instead of receiving a 400. The
  model follows the code (`CashFlowController.kt:105-109`).
- **A bad date bound on an empty store.** The date bounds are parsed inside the
  per-record predicate. On an empty store, an unparsable `startDate` or `endDate`
  therefore yields an empty list, not an error.

## Left out

- HTTP, routing, JSON (de)serialisation and the response wrapper's status and
  message texts are not modelled. A response is `Success`, `BadRequest` with the
  error map, `NotFound` or `Failed`. `Failed` stands for an exception escaping a
  handler.
- A request body is a map from field name to the text of its value; a JSON null
  counts as absent. A null body is the empty map (`CashFlowController.kt:45`, `:92`).
  A body that cannot be decoded makes `receiveNullable` throw; that failure is not
  modelled.
- `UUID.randomUUID()` and `OffsetDateTime.now()` become parameters of the handlers
  (`freshId`, `now`). The create handler requires the id to be fresh.
- `loadInitialData` (`helpers/DummyHelper.kt`) reads a file. Its result is the
  `seed` parameter of `SetupData`, which requires unique ids. A load failure is the
  empty seed.
- The repository (`CashFlowRepository`) is not part of this model. Its list
  operations by id are given their evident meaning in `CashFlows`.
- Services.CashFlowService.constructor: the service wraps whatever repository it is
  given; the model assumes that repository starts empty.
- Amounts are exact reals, not doubles. Rounding, NaN, infinities, exponents and
  hexadecimal forms are not modelled.
- Amounts.ParseAmount: does not accept the forms of `toDoubleOrNull` beyond an
  optional sign, digits and an optional fractional part. Those forms are
  surrounding whitespace, exponents, `NaN`, `Infinity`, hexadecimal and the `d`/`f`
  suffixes. A `NaN` amount, which would pass the `<= 0` test, is therefore not
  modelled.
- Whitespace and case folding are those of ASCII. Unicode whitespace and non-ASCII
  case mappings are not modelled.
- Dates.ParseDayMonthYear: the `yyyy` field of the query pattern accepts a year of
  more than four digits when it carries a `+` sign, as in "01-01-+20245". The model
  reads exactly ten characters, so it treats such a bound as unparsable. An
  unsigned longer year, as in "01-01-20245", is rejected by both.
- Concurrency between requests is not modelled; every handler runs atomically.
