# Assessment report extractor — a Dafny model

This project models the data path of the assessment report backend. A stored
assessment record is an untyped JSON tree. A configuration declares sections of fields. Each field
names a path such as `exercises[id=235].setList[0].time`, an optional transform and an
optional classification. The backend resolves each path against the record, transforms
and classifies the value, and packs one uniform field record per declared field. A field
that fails gets a "N/A" fallback. Around that extractor sit the request checks and
section/field assembly of the report handler, the filter/sort/paginate arithmetic of the
assessment list, and the per-type count and average of the dashboard statistics.

Modules:

- `Common`: `Option` and `Completion` (a JavaScript computation that returns a value or
  throws).
- `Text`: the runtime string operations the extractor relies on. These are `split`/`join`
  on one character, `replace` of the first occurrence, and the decimal grammar read by
  `parseInt`, `parseFloat` and `Number`.
- `Values`: the `Json` value type and the language rules the code depends on. These are
  truthiness, property access (which throws on `null`/`undefined`), `===`, `==` against a
  string, and the numeric conversions of `>=`/`<=`, subtraction and `parseFloat`.
- `DataExtractor`: `extractValue`, `extractFromArray`, `transformValue`, `classifyValue`
  and `processField`.
  - The two loops are methods proved equal to the specification functions `Walk` and
    `Classify`.
  - The dot-notation `reduce`, the `switch` and the field record are functions.
- `ReportAssembly`: the report handler's checks and its per-field `try`/`catch`. It also
  covers the nested `map` over sections and fields, the metadata counts and the record
  update.
- `AssessmentList`: the list handler's filters, the newest-first sort (insertion into a
  sorted list, proved a permutation and ordered) and the page arithmetic over query
  strings.
- `DashboardStats`: the `assessmentsByType` reducer, as a method with the `find` loop and
  the in-place count update, proved equal to a fold. It also covers the rounded average
  accuracy.
- `Server`: the shared in-memory assessment list as a class.
  - Listing sorts the shared list in place exactly when no filter applies.
  - Generating a report marks the found record.
- `Scenarios`: concrete records and fields resolved end to end.

Behaviour of the code worth knowing, which the model follows:

- A classification range without `min` or `max` never matches, because a comparison
  with `undefined` is false (Backend/utils/dataExtractor.js:84,
  `DataExtractor.MissingBoundNeverMatches`).
- `classifyValue` reads only `classification.ranges`. The backend configurations declare
  keyed ranges (`{excellent: {min, max}, ...}`) with no `ranges` member, so every backend
  classification is `null`.
  - The heart-rate field therefore yields 75 with no classification
    (`Scenarios.HeartRateScenario`).
- `processField` itself does not catch exceptions. The per-field fallback lives in the
  report handler (`ReportAssembly.ProcessFieldSafely`).
- A field whose `path` is not a string shows "N/A". `extractValue` fails on it with a
  `TypeError` inside its `try` and returns `null` (`DataExtractor.NonStringPathIsMissing`).

## Model

| member | source | states |
|---|---|---|
| DataExtractor.ExtractValue | Backend/utils/dataExtractor.js:3-18 | `extractValue` equals `ExtractAt`: a path that is not a string gives `null`, bracket paths go through the segment walk, other paths through the dot fold, and a thrown exception becomes `null` |
| DataExtractor.ExtractAt | Backend/utils/dataExtractor.js:3-18 | a path that is not a string gives `null`; a string path gives `Extract` of it |
| DataExtractor.Extract | Backend/utils/dataExtractor.js:3-18 | the result is never `undefined`: a miss or an exception is `null` |
| DataExtractor.ExtractFromArray | Backend/utils/dataExtractor.js:20-55 | the segment loop, with its early `return null`s, yields exactly `Walk` over the pieces of `path.split('.')` |
| DataExtractor.Walk | Backend/utils/dataExtractor.js:25-54 | a walk over at least one segment never ends on `undefined`: the null check turns it into `null` |
| DataExtractor.FindIn | Backend/utils/dataExtractor.js:34-36 | a value that `find` returns is an element of the array and is not `null` |
| DataExtractor.FindInFirstMatch | Backend/utils/dataExtractor.js:34-36 | over elements none of which is `null` or `undefined`, `find` returns the first element whose `key` loosely or strictly equals the text, and `undefined` when none does |
| DataExtractor.FindInThrows | Backend/utils/dataExtractor.js:34-36 | a `null` element met before any match makes the callback throw |
| DataExtractor.DotFoldOfNull | Backend/utils/dataExtractor.js:11-13 | once the fold reaches `null`, it stays `null` |
| DataExtractor.DotFoldDefined | Backend/utils/dataExtractor.js:11-13 | a dot fold over at least one key never yields `undefined` |
| DataExtractor.DotFoldAppend | Backend/utils/dataExtractor.js:11-13 | folding a longer path is folding its prefix, then the rest |
| DataExtractor.DotPathAddressed | Backend/utils/dataExtractor.js:11-13 | a dot path that addresses a value through objects yields that value (`null` for an addressed `undefined`) |
| DataExtractor.AddressedFromUndefined | Backend/utils/dataExtractor.js:11-13 | nothing below `undefined` is addressed |
| DataExtractor.DotPathMissingKey | Backend/utils/dataExtractor.js:11-13 | reaching an object that lacks the next key yields `null` |
| DataExtractor.DotPathFalsyStep | Backend/utils/dataExtractor.js:11-13 | reaching a falsy value before the last key yields `null` |
| DataExtractor.DotPathStops | Backend/utils/dataExtractor.js:11-13 | a step that yields `null` makes the whole dot path `null` |
| DataExtractor.DotPathRoundTrip | Backend/utils/dataExtractor.js:3-18 | extracting the dotted join of plain keys returns the value those keys address |
| DataExtractor.WalkOfPlainKeys | Backend/utils/dataExtractor.js:46 | for segments without brackets, the bracket walk agrees with the dot fold |
| DataExtractor.WalkAppend | Backend/utils/dataExtractor.js:25-54 | walking a path is walking its first segments, then the rest from where they stopped |
| DataExtractor.BracketPartPieces | Backend/utils/dataExtractor.js:27-28 | `name[selector]` splits into the array name `name` and the cleaned condition `selector` |
| DataExtractor.SingleBracketPath | Backend/utils/dataExtractor.js:22 | a one-segment bracket path splits on `.` into exactly that segment |
| DataExtractor.PredicateSegment | Backend/utils/dataExtractor.js:31-36 | over an array without `null` or `undefined` elements, `name[key=value]` resolves to the first element whose `key` loosely equals `value`, or to `null` when there is none |
| DataExtractor.SingleSegmentExtract | Backend/utils/dataExtractor.js:49-51 | a one-segment bracket path yields its step's value, with `null` for a miss or a throw |
| DataExtractor.DecimalIsPlain | Backend/utils/dataExtractor.js:39-40 | the decimal text of an index neither cuts a segment apart nor reads as `length` |
| DataExtractor.IndexStep | Backend/utils/dataExtractor.js:38-41 | an index segment reads the array at the key made of `parseInt(condition)` |
| DataExtractor.IndexSegment | Backend/utils/dataExtractor.js:38-41 | `name[i]` selects element `i`; a negative or out-of-range index yields `null` |
| DataExtractor.IndexSegmentNotANumber | Backend/utils/dataExtractor.js:38-41 | a selector `parseInt` cannot read yields `null` |
| DataExtractor.BracketShortCircuit | Backend/utils/dataExtractor.js:30 | an empty array name or a missing or falsy array returns `null` at once, whatever segments follow |
| DataExtractor.PredicateOnNonArrayIsCaught | Backend/utils/dataExtractor.js:14-17 | a predicate segment on a truthy value that is not an array throws inside the walk, and `extractValue` turns the throw into `null` |
| DataExtractor.NumberMatchesItsText | Backend/utils/dataExtractor.js:35 | a numeric property loosely equals its decimal text (235 matches "235") |
| DataExtractor.TransformValue | Backend/utils/dataExtractor.js:57-75 | falsy value, no transform, an unknown transform or `capitalize` of a non-string: unchanged; `capitalize` upper-cases only the first character; `assessmentName` maps exactly the two codes and passes other strings through |
| DataExtractor.TransformIdempotent | Backend/utils/dataExtractor.js:57-75 | applying a transform twice gives the same value as applying it once |
| DataExtractor.ClassifyValue | Backend/utils/dataExtractor.js:77-94 | the first-match loop, with its early returns, yields exactly `Classify` |
| DataExtractor.FirstInRangeIsFirstMatch | Backend/utils/dataExtractor.js:83-93 | over range objects the loop never throws; it yields nothing exactly when no range contains the value, and otherwise the first range that contains it |
| DataExtractor.MissingBoundNeverMatches | Backend/utils/dataExtractor.js:84 | a range without `min` or `max` never matches |
| DataExtractor.KeyedClassificationIsIgnored | Backend/utils/dataExtractor.js:78 | a classification with no `ranges` member classifies nothing |
| DataExtractor.ProcessField | Backend/utils/dataExtractor.js:96-127 | a `null` extraction gives the "N/A" record; otherwise label, unit (`''` default) and description (`null` default) are copied, the value is the transformed value, and the classification is that of `classifyValue` on it; it throws only when that classification throws |
| DataExtractor.NonStringPathIsMissing | Backend/utils/dataExtractor.js:3-17 | a field whose `path` is not a string gives the "N/A" record |
| DataExtractor.ProcessFieldTotal | Backend/utils/dataExtractor.js:96-127 | with no classification, or one without `ranges` (every backend configuration), processing never throws |
| Values.Get | Backend/utils/dataExtractor.js:46 | reading a property throws exactly on `null` and `undefined`; an object gives its own member or `undefined` |
| Values.Or | Backend/utils/dataExtractor.js:114-116 | `v \|\| fallback` is `v` when truthy and `fallback` otherwise |
| Values.StrictImpliesLoose | Backend/utils/dataExtractor.js:35 | against a string, strict equality implies loose equality, so the `===` disjunct never adds a match |
| Text.Split | Backend/utils/dataExtractor.js:22 | `split` gives at least one piece, at least two when the separator occurs, and no piece contains the separator |
| Text.JoinOfSplit | Backend/utils/dataExtractor.js:22 | joining the pieces of a split gives the string back |
| Text.SplitOfJoin | Backend/utils/dataExtractor.js:22 | splitting the join of separator-free pieces gives the pieces back |
| Text.RemoveFirst | Backend/utils/dataExtractor.js:28 | `replace(']', '')` removes only the first occurrence |
| Text.ParseIntOfDecimal | Backend/utils/dataExtractor.js:39 | `parseInt` reads back the decimal text of every integer |
| Text.StringToNumberOfDecimal | Backend/utils/dataExtractor.js:35 | `Number` reads back the decimal text of every natural number |
| ReportAssembly.ProcessFieldSafely | Backend/server.js:254-266 | the fallback record is used exactly when `processField` throws; it carries the field's id, label, unit (`''` default), value "N/A" and the error "Processing failed" |
| ReportAssembly.ProcessFields | Backend/server.js:253-267 | exactly one outcome per declared field, in declaration order, each computed from its own field |
| ReportAssembly.ProcessSections | Backend/server.js:251-268 | one processed section per configured section, in order, with the section's id and title |
| ReportAssembly.SiblingsUnaffected | Backend/server.js:254-266 | changing one field, including into one that throws, changes no other field's outcome |
| ReportAssembly.FieldTotalIsDeclared | Backend/server.js:322 | the metadata field count equals the number of fields the configuration declares |
| ReportAssembly.MetadataCountsDeclarations | Backend/server.js:320-324 | the counts of the handler's local report information are the configuration's sections and declared fields |
| ReportAssembly.FindSession | Backend/server.js:239 | `find` returns the first record whose `session_id` is strictly equal, or nothing when none is |
| ReportAssembly.ValidateReportRequest | Backend/server.js:231-248 | a falsy session id gives 400, an unknown session 404, a type without configuration 400, in that order; acceptance names the first matching record and its configuration |
| ReportAssembly.BuildReport | Backend/server.js:270-279 | the report holds the configuration's name, exactly the processed sections (one per configured section), the request's session id and the record's assessment id |
| ReportAssembly.MarkReported | Backend/server.js:327-329 | the record gains `reportGenerated = true` and `reportPath = /reports/<file>`; every other property is unchanged |
| AssessmentList.FilterBy | Backend/server.js:184-188 | a record is kept, as often as it occurs, exactly when its property is strictly equal to the query text |
| AssessmentList.FilteredSelects | Backend/server.js:181-189 | the filtered list holds exactly the records passing both active filters; an empty or absent filter is not applied |
| AssessmentList.UnfilteredIsAll | Backend/server.js:181 | with no active filter the list is the stored list itself |
| AssessmentList.SortNewestFirst | Backend/server.js:192 | the sort returns a permutation of the records in non-increasing timestamp order |
| AssessmentList.Insert | Backend/server.js:192 | inserting into a newest-first list keeps it newest-first and adds exactly one record |
| AssessmentList.FilteredTimed | Backend/server.js:183-192 | filtering keeps every timestamp numeric, so the comparator stays consistent |
| AssessmentList.SliceAtMost | Backend/server.js:196-198 | `slice(a, a + n)` holds at most `n` items |
| AssessmentList.WindowAtMost | Backend/server.js:195-198 | a page holds at most `parseInt(limit)` items, and none when a bound is NaN |
| AssessmentList.PageArithmetic | Backend/server.js:195-203 | for page and limit written as positive decimals, the page is items `(page-1)*limit` to `page*limit`, `current` is the page number and `pages` is `ceil(total/limit)` |
| AssessmentList.PageCountBounds | Backend/server.js:203 | `ceil(total/limit)` pages hold every item, and one page fewer would not |
| AssessmentList.PagesCoverList | Backend/server.js:195-203 | pages 1 to `pages`, one after another, give back the whole sorted list |
| AssessmentList.ListAssessments | Backend/server.js:176-206 | the page holds only stored records passing the filters, newest first, at most `parseInt(limit)` of them; `total` is the filtered count, `current` is `parseInt(page)`, `pages` is `ceil(total/limit)` or `null` |
| DashboardStats.EntryOf | Backend/server.js:399 | `find` returns the first entry whose `_id` is strictly equal, or nothing |
| DashboardStats.AssessmentsByType | Backend/server.js:398-406 | the reducer, with its `find` loop and in-place count update, yields the fold `GroupCounts` |
| DashboardStats.GroupCountsTotal | Backend/server.js:398-406 | the counts add up to the number of records |
| DashboardStats.GroupCountsDistinct | Backend/server.js:398-406 | no two entries have strictly equal ids, and every count is at least 1 |
| DashboardStats.GroupCountsCount | Backend/server.js:398-406 | every value's count is the number of records whose type is strictly equal to it (0 without an entry) |
| DashboardStats.GroupCountsFirstSeen | Backend/server.js:398-406 | entries appear in the order in which their types are first met |
| DashboardStats.Round | Backend/server.js:415 | `Math.round` gives the nearest integer, halves rounding up |
| DashboardStats.AverageScore | Backend/server.js:414-415 | no records give 0 |
| DashboardStats.AverageScoreWithin | Backend/server.js:414-415 | with every accuracy a number between two whole numbers, the rounded mean lies between them |
| Server.AssessmentStore.constructor | Backend/server.js:9 | the store starts with the given list |
| Server.AssessmentStore.List | Backend/server.js:176-206 | the response is `ListAssessments` of the list before the call; the shared list is sorted in place exactly when no filter applies and otherwise left as it was |
| Server.AssessmentStore.GenerateReport | Backend/server.js:230-339 | a refused request answers with its status and message and changes nothing; an accepted one answers with the assembled report, its path, its file name and the session id, and marks exactly the found record |
| Server.MarkReportedTimed | Backend/server.js:327-329 | marking a record keeps every timestamp numeric |
| Server.RepeatedRequestSameRecord | Backend/server.js:239-248 | after a report is generated, the same request finds the same record and configuration again |
| Scenarios.HeartRateScenario | Backend/config/assessmentConfig.js:22-33 | the heart-rate field resolves to 75 bpm with no classification, because its keyed ranges are never read |
| Scenarios.MissingExerciseScenario | Backend/utils/dataExtractor.js:31-36 | `exercises[id=999].time` with no exercise 999 resolves to `null` and shows "N/A" |
| Scenarios.PresentExerciseScenario | Backend/utils/dataExtractor.js:31-36 | `exercises[id=235].time` reaches the time of the exercise whose numeric id is 235 |
| Scenarios.FirstRangeWinsScenario | Backend/utils/dataExtractor.js:83-91 | with overlapping ranges 50–60 "A" and 55–70 "B", 55 is "A", 65 is "B" and 75 is unclassified |

## Left out

- HTTP routing, JWT authentication, bcrypt, health and download endpoints, and the
  `req.method` choice of where `session_id` comes from. These are framework and library
  calls. The session id is a parameter.
- Persistence and seeding (the database configuration, the mongoose models and the
  seeders). The store is the in-memory list.
- PDF, HTML and JSON report files and their fallback chain (Backend/server.js:281-307).
  They are file output through foreign libraries. The file name is a parameter of
  `Server.AssessmentStore.GenerateReport`.
- Clock values: `generatedAt`, `createdAt` and the report id. The same goes for the
  "today" counts of the statistics handler.
- The statistics handler as a whole. It reads an undefined `users` list
  (Backend/server.js:392), which throws before lines 398-415 run, so the handler always
  answers 500. The group-by and the average are modelled as the standalone computations
  they would be. The report count and the `recentAssessments` sort after line 392 are not
  modelled.
- Logging (`console.log`, `console.error`).
- The frontend, its configurations and sample data.
- Floating point. Numbers are exact reals. A NaN result is `None`, and IEEE rounding,
  infinities and `-0` are not represented.
- The number grammar is the decimal subset: leading and trailing white space, a sign,
  digits and a fraction.
  - White space is the space and the characters `\t` to `\r`. JavaScript also skips
    U+00A0, U+FEFF, U+2028, U+2029 and the other space separators.
  - `parseFloat` stops before an exponent: "1e3" reads as 1 here and as 1000 in
    JavaScript. `parseInt` does not read a `0x` prefix: "0x10" reads as 0 here and as 16
    in JavaScript.
  - `Number` gives NaN for exponents, hexadecimal, binary and octal prefixes and
    `Infinity`, where JavaScript gives a number. `parseFloat("Infinity")` is NaN here
    too.
  - `String(number)` for non-integers and for integers of 21 or more digits is not
    modelled.
- Strings are sequences of Unicode code points, not of UTF-16 code units. A character
  outside the Basic Multilingual Plane counts 1 towards `length` here and 2 in
  JavaScript.
- DataExtractor.TransformValue: `capitalize` upper-cases only the ASCII letters `a` to
  `z` and keeps the length. JavaScript's `toUpperCase` maps every cased character
  ("élan" becomes "Élan") and can lengthen the text ("ß" becomes "SS"). The
  length-preserving clause and `DataExtractor.TransformIdempotent` hold for the model's
  upper-casing only.
- Property access reads own members of objects, plus `length` and index keys of arrays
  and strings. Inherited members (`constructor`, `toString`, array methods used as keys)
  read as `undefined`.
- Values.LooseEqString: an array on the left never equals the string. JavaScript would
  compare the array's joined text.
- Object identity: `===` on two objects or arrays is false in the model, as for distinct
  references. A record that appears twice in the list, and so would be updated twice
  through aliasing, is not modelled.
- AssessmentList.ListAssessments: query parameters are absent or one string each. Arrays
  and objects from repeated or bracketed query keys are not modelled.
- ReportAssembly.ConfigFor: only string assessment ids name a configuration. A number
  whose text equals a configuration key, and inherited keys of the configuration object,
  are not modelled.
- Server.AssessmentStore.List: requires every stored record to have a numeric timestamp.
  With a NaN comparison the order of `sort` depends on the engine, and the model does not
  follow it.
- AssessmentList.SortNewestFirst: states a permutation in newest-first order. It does not
  state stability (records with equal timestamps keeping their order), although the
  insertion it is built from keeps that order.
- AssessmentList.ListAssessments: states which records a page may hold, their order and
  the size bound, but not which window of the sorted list the page is. That window is
  stated only by AssessmentList.PageArithmetic, for page and limit written as positive
  decimals.
- DashboardStats.AverageScore: it is `None` when some accuracy is not a number.
  JavaScript adds whatever `+` gives: `null` adds 0, a boolean adds 0 or 1, a string
  turns the sum into text, and `undefined` gives NaN. The model does not follow these
  cases. Its contract states only the empty case; the value is bounded by
  DashboardStats.AverageScoreWithin.
