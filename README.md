# MyGuinnessBook data layer in Dafny

MyGuinnessBook is a browser application that keeps personal "records": a
category such as "times I yawned", a count, a memo and a date. Its data layer
has three parts, and this project models them:

- **The validator** (`js/utils/Validation.js`):
  - field checks for category, value, memo and date;
  - lenient normalisers for the same fields, and the date formatter;
  - the error collectors `validateRecord` and `validateSettings`;
  - `validateDataIntegrity`, which checks a whole stored document.
- **The store** (`js/data/DataManager.js`). It holds one persisted document
  (settings, data with records and categories, backup section, metadata) and a
  separate list of backups. Every mutator loads the document, checks its
  input, changes a copy and hands it to `saveData`. `saveData` writes only
  what passes `validateDataIntegrity`.
- **The constants** (`js/config/Constants.js`): the default document, the
  default settings and the validation rules.

Layout, one module per file:

| file | module | contents |
|---|---|---|
| `Wrappers.dfy` | `Wrappers` | `Option` |
| `JsRuntime.dfy` | `JsRuntime` | JavaScript values and truthiness, `Number(...)` on decimal text, whitespace and `trim`, ASCII `toLowerCase`, `includes`, decimal `String(n)` |
| `Calendar.dfy` | `Calendar` | calendar dates and the `YYYY-MM-DD` reading of the host date parser |
| `Schema.dfy` | `Schema` | the stored document, records, settings and backups |
| `Constants.dfy` | `Constants` | `DATA_STRUCTURE`, `DEFAULT_SETTINGS`, `VALIDATION_RULES`, the messages, the backup bound |
| `Validation.dfy` | `Validation` | the validator |
| `RecordQuery.dfy` | `RecordQuery` | `getRecords`: filters, search and sort |
| `ConstantFacts.dfy` | `ConstantFacts` | the defaults against the validator |
| `DataManager.dfy` | `Data` | the store: the `DataManager` class and the document-level functions its methods are specified by |

The two localStorage blobs are the fields of class `Data.DataManager`:
`appData: Option<Document>` and `backups: Option<seq<Backup>>`. Each public
operation is a method that states its whole new state:

- `appData` becomes `Commit(old(appData), d, now)`. This is the integrity gate:
  the stamped document `d` when it is intact, otherwise what was stored.
- `backups` is kept, except by `CreateBackup` and `DeleteAllData`.
- The class invariant `Valid()` ("the stored document is intact") is preserved.

Several values are parameters: "now" (`new Date().toISOString()`), "today"
(`getCurrentDate`) and the generated id. The document-level lemmas beside the
class carry the store's promises:

- the gate accepts an added record;
- categories stay duplicate-free;
- removal keeps the other entries;
- a run of backups keeps exactly the newest ten;
- repair is idempotent.

## Model

| member | source | states |
|---|---|---|
| Validation.ValidateCategory | js/utils/Validation.js:50-67 | accepted iff a string whose trimmed form has between 2 and 50 characters and no line terminator: the pattern needs two non-blank ends, so a one-character name is refused |
| Validation.PatternOnTrimmed | js/config/Constants.js:54-58 | on a trimmed string, `/^[^\s].*[^\s]$/` holds iff it has at least two characters and no line terminator |
| Validation.CategoryPaddingIgnored | js/utils/Validation.js:50-67 | outer whitespace never changes the verdict, because only the trimmed form is tested |
| Validation.ValidateValue | js/utils/Validation.js:74-91 | refused for null, undefined and NaN; otherwise accepted iff `Number(v)` is finite and between 0 and 999999, fractions included |
| Validation.ValidateMemo | js/utils/Validation.js:98-105 | accepted for anything that is not a string, and for a string iff it has at most 500 characters |
| Validation.DateBoundsParse | js/config/Constants.js:67-71 | the rule strings `2020-01-01` and `2030-12-31` denote the first and last accepted days |
| Validation.ValidateDate | js/utils/Validation.js:112-133 | accepted iff a `YYYY-MM-DD` string that names a real calendar day between the two bounds, both bounds included |
| Validation.ValidateRecord | js/utils/Validation.js:16-43 | every field is checked; the error keys are exactly the failing fields; memo and date only fail when present; each key carries its message; valid iff no error |
| Validation.RecordErrors | js/utils/Validation.js:16-43 | the errors map holds a field exactly when its check failed, with the message `validateRecord` assigns to that field |
| Validation.ErrorKeys | js/utils/Validation.js:16-43 | the failing fields, each exactly once, in the order category, value, memo, date in which `validateRecord` inserts them |
| Validation.KeysIn | js/utils/Validation.js:16-43 | the keys of the errors map among the given fields, each once and in assignment order |
| Validation.ErrorMessages | js/utils/Validation.js:274-279 | `Object.values(errors)`: one message per failing field, in that insertion order; empty iff the check found no error |
| Validation.ValidateSettings | js/utils/Validation.js:140-163 | a truthy theme outside the four themes fails; a notifications or autoSave that is neither undefined nor boolean fails (null included); every error is the format message; valid iff no error |
| Validation.NormalizeCategory | js/utils/Validation.js:170-176 | a string input becomes its trimmed form, with no whitespace at either end; anything else becomes the empty string |
| Validation.NormalizeMemo | js/utils/Validation.js:197-203 | a string input becomes its trimmed form, with no whitespace at either end; anything else becomes the empty string |
| Validation.NormalizeValue | js/utils/Validation.js:183-190 | 0 for null, undefined, NaN, negative numbers and negative infinity; the floor of every finite non-negative number; positive infinity is kept; on a valid value the result lies in the value range |
| Validation.NormalizeCategoryStable | js/utils/Validation.js:170-176 | normalising twice is normalising once, and a valid category stays valid |
| Validation.NormalizeMemoStable | js/utils/Validation.js:197-203 | normalising twice is normalising once, and a valid memo stays valid |
| Validation.NormalizeValueIdempotent | js/utils/Validation.js:183-190 | normalising twice is normalising once |
| Validation.FormatDate | js/utils/Validation.js:239-244 | the year written without padding (a leading '0' only for year 0); for a month and day below 100: the year's digits, '-', two month digits, '-', two day digits, each group reading back as its field |
| Validation.Pad2 | js/utils/Validation.js:239-244 | `padStart(2, '0')` of a number below 100 is two digits that read back as that number |
| Validation.FormatThenParse | js/utils/Validation.js:239-244 | a real day with a four-digit year is formatted as text the date parser reads back as the same day |
| Validation.ParseThenFormat | js/utils/Validation.js:239-244 | a parsed `YYYY-MM-DD` text with a four-digit year is formatted back into the same text |
| Validation.NormalizeDate | js/utils/Validation.js:210-223 | a valid date is kept as written; a falsy, non-string or unparsable one becomes today |
| Validation.NormalizeDateIdempotent | js/utils/Validation.js:210-223 | normalising twice is normalising once (four-digit years) |
| Validation.MissingFieldIssues | js/utils/Validation.js:260-266 | one missing-field issue for each of settings, data, backup and metadata exactly when that property is missing, in that order and each at most once |
| Validation.NoMissingFields | js/utils/Validation.js:260-266 | there is no missing-field issue exactly when all four required properties are present |
| Validation.RecordIssues | js/utils/Validation.js:268-281 | one issue per invalid record, in index order, and one for each invalid record |
| Validation.RecordChecks | js/utils/Validation.js:274-275 | one `validateRecord` result per record, at the same index |
| Validation.CheckIssuesFrom | js/utils/Validation.js:274-279 | from a given index on, the failed checks and only those are reported, in index order |
| Validation.CheckIssue | js/utils/Validation.js:277 | the issue for a failed record carries that record's index |
| Validation.CategoryIssues | js/utils/Validation.js:283-294 | one issue per invalid category, in index order, and one for each invalid category |
| Validation.CategoryIssuesFrom | js/utils/Validation.js:288-292 | from a given index on, the refused categories and only those are reported, in index order |
| Validation.ValidateDataIntegrity | js/utils/Validation.js:251-300 | a non-object gets exactly one issue; an object gets the missing-field, list and entry issues in source order; valid iff no issue iff the document is intact |
| Validation.IntactIffNoIssues | js/utils/Validation.js:251-300 | a document has no issue exactly when it is intact |
| Validation.NoRecordIssues | js/utils/Validation.js:268-281 | no record issue iff every record is valid |
| Validation.NoCategoryIssues | js/utils/Validation.js:283-294 | no category issue iff every category is valid |
| JsRuntime.TrimPadding | js/utils/Validation.js:170-176 | `trim` removes exactly the outer whitespace |
| JsRuntime.TrimIdempotent | js/utils/Validation.js:170-176 | trimming twice is trimming once |
| JsRuntime.NatToString | js/utils/Validation.js:239-244 | the decimal text of a number reads back as that number, without a leading zero |
| JsRuntime.NumberOfDecimalText | js/utils/Validation.js:74-91 | `Number` of the decimal text of n is n |
| JsRuntime.NumberOfPaddedDecimalText | js/utils/Validation.js:74-91 | `Number` of the decimal text of n with whitespace on either side is still n |
| JsRuntime.BlankTextIsZero | js/utils/Validation.js:79 | `Number` of empty or all-whitespace text is 0 |
| JsRuntime.StringToNumberIgnoresPadding | js/utils/Validation.js:79 | whitespace around the text never changes the number `Number` reads |
| JsRuntime.TrimSplit | js/utils/Validation.js:170-176 | every string is its trimmed form with whitespace before and after it |
| JsRuntime.IncludesIsOccurrence | js/data/DataManager.js:274-281 | `includes` holds iff the needle occurs at some offset |
| Calendar.NotAfterIsTotalOrder | js/utils/Validation.js:129-132 | the comparison of dates is a total order |
| RecordQuery.Keep | js/data/DataManager.js:254-272 | `filter` returns a subsequence holding exactly the entries that pass, each as often as it occurs in the input |
| RecordQuery.Search | js/data/DataManager.js:274-281 | the search throws iff some record has a non-string category, or a category that misses the term and a non-string memo (`||` stops at a hit); otherwise it keeps, in order and with their multiplicities, exactly the records whose category or memo contains the lower-cased term |
| RecordQuery.FieldFiltered | js/data/DataManager.js:254-272 | the category, date and period filters keep, in stored order and with their multiplicities, exactly the records that pass all the supplied ones |
| RecordQuery.Filtered | js/data/DataManager.js:252-281 | the pipeline throws iff a search is given and a record that passed the other filters makes it throw; otherwise it keeps, in order, exactly the selected records, each as often as it is stored |
| RecordQuery.KeyLeTotalPreorder | js/data/DataManager.js:284-295 | the key order used for sorting is a total preorder, so "sorted" is well defined although the comparator never returns 0 |
| RecordQuery.StringLeTotalPreorder | js/data/DataManager.js:284-295 | the character-wise string order used for sorting is total and transitive |
| RecordQuery.Insert | js/data/DataManager.js:284-295 | inserting into a sorted list keeps it sorted and adds exactly that record |
| RecordQuery.Sort | js/data/DataManager.js:284-295 | the sorted list is a permutation of its input, ordered by the key, descending when asked |
| RecordQuery.Query | js/data/DataManager.js:249-303 | only stored records that pass every filter, and each selected record exactly as often as it is stored, unless the search throws (then []); stored order without `sortBy`, sorted with it |
| RecordQuery.SortedQueryIsPermutation | js/data/DataManager.js:284-295 | with `sortBy`, the answer is a permutation of the filtered records |
| RecordQuery.UnfilteredQueryReturnsAll | js/data/DataManager.js:249-303 | with no filter the answer is the stored record list |
| RecordQuery.SubsequenceTransitive | js/data/DataManager.js:252-281 | filtering a filtered list still gives a subsequence of the original |
| ConstantFacts.DataStructureIntact | js/config/Constants.js:13-40 | the default document has all four properties, no records and a category array, and the integrity check reports no issue |
| ConstantFacts.DefaultCategoryValid | js/config/Constants.js:22-28 | each default category passes the category check |
| ConstantFacts.WideTextCategoryValid | js/utils/Validation.js:50-67 | a name of two to fifty kana or CJK ideographs passes the category check |
| ConstantFacts.DefaultCategoriesValid | js/config/Constants.js:22-28 | every default category passes the category check |
| ConstantFacts.DefaultCategoriesDistinct | js/config/Constants.js:22-28 | the five default categories are pairwise distinct |
| ConstantFacts.DataStructureSettingsValid | js/config/Constants.js:14-19 | the default document's settings pass the settings check |
| ConstantFacts.DefaultSettingsValid | js/config/Constants.js:43-50 | `DEFAULT_SETTINGS` passes the settings check |
| ConstantFacts.RuleBoundsConsistent | js/config/Constants.js:53-72 | minimum length does not exceed maximum length, the value range is non-empty, and the date bounds parse, are ordered and are themselves accepted |
| Data.Stamped | js/data/DataManager.js:624-634 | the update stamp sets lastUpdate and version and changes nothing else |
| Data.StampedKeepsIntegrity | js/data/DataManager.js:624-634 | stamping never changes the integrity verdict, and stamping twice is stamping once |
| Data.Commit | js/data/DataManager.js:104-123 | the stamped document is written iff it passes the integrity check; otherwise the stored one stays |
| Data.CommitKeepsStoreIntact | js/data/DataManager.js:104-123 | the gate never lets the stored document become one the check refuses |
| Data.NormalizedRecord | js/data/DataManager.js:139-150 | the new record has the given id and `now` as both stamps; its category and memo are the trimmed input, its value the floored input, its date the normalised input date (today when the input date is falsy, kept when valid); each field is a fixed point of its normaliser |
| Data.NormalizedRecordIsValid | js/data/DataManager.js:139-150 | a record that passes `validateRecord` still passes it once normalised |
| Data.AddedRecordPassesGate | js/data/DataManager.js:130-164 | on an intact document, a valid input is normalised and appended in a way the gate accepts, so the add is really written |
| Data.ValidRecordKeepsIntact | js/data/DataManager.js:152-164 | appending a valid record with a valid category to an intact document keeps it intact |
| Data.WithRecordAdded | js/data/DataManager.js:152-158 | exactly one record appended at the end; its category appended iff absent; settings, backup, metadata and themes unchanged |
| Data.AppendIfAbsent | js/data/DataManager.js:155-158 | the category is present afterwards; the list is unchanged when it was already there, otherwise extended by exactly it at the end |
| Data.AppendIfAbsentKeepsDistinct | js/data/DataManager.js:155-158 | appending a category only when absent keeps the list duplicate-free |
| Data.AddRecordKeepsCategoriesDistinct | js/data/DataManager.js:155-158 | after an add the category list is still duplicate-free and contains the record's category |
| Data.AddCategoryKeepsDistinct | js/data/DataManager.js:336-343 | appending a name not yet listed keeps the list duplicate-free |
| Data.AppendFreshIdKeepsUnique | js/data/DataManager.js:143 | appending a record with a fresh id keeps the ids unique |
| Data.IndexOfId | js/data/DataManager.js:181 | the first index whose record has the id, or none when no record has it |
| Data.Merge | js/data/DataManager.js:189 | for each of id, category, value, memo, date, createdAt and updatedAt, the updates' property wins when present and the record's is kept otherwise; no updates leaves the record as it was |
| Data.RemoveAt | js/data/DataManager.js:230 | `splice(i, 1)` keeps the entries before i, shifts those after it, and removes exactly one occurrence |
| Data.RemoveAtKeepsDistinct | js/data/DataManager.js:374-380 | removing a category keeps the list duplicate-free and the removed name gone |
| Data.RemoveAtKeepsUnique | js/data/DataManager.js:229-230 | removing a record keeps the other ids unique |
| Data.IndexOf | js/data/DataManager.js:374 | the first index holding the value, none iff the value is absent |
| Data.Spread | js/data/DataManager.js:401 | `{...base, ...overrides}`: the union of the keys, the overrides winning |
| Data.RetainNewest | js/data/DataManager.js:510-516 | the new backup is last; below ten entries it is appended; otherwise the oldest is dropped; a list of at most ten stays at most ten |
| Data.RetainAllKeepsNewest | js/data/DataManager.js:501-527 | any run of backups starting from at most ten keeps exactly the newest ten of all, oldest first |
| Data.FindBackup | js/data/DataManager.js:551 | the first backup with the timestamp, or none when none has it |
| Data.Repaired | js/data/DataManager.js:573-609 | a missing settings, data, backup or metadata becomes `DEFAULT_SETTINGS`, `DATA_STRUCTURE.data`, `DATA_STRUCTURE.backup` or `DATA_STRUCTURE.metadata`; a non-array record list becomes [] and a non-array category list the default categories; everything already in shape is kept; unchanged iff already well shaped |
| Data.RepairIdempotent | js/data/DataManager.js:573-619 | repairing twice is repairing once |
| Data.InitialDocument | js/data/DataManager.js:61-70 | `DATA_STRUCTURE` with a creation and an update stamp |
| Data.InitialDocumentIntact | js/data/DataManager.js:61-78 | the initial document passes the integrity check, so it is written |
| Data.InitialCategoriesDistinct | js/data/DataManager.js:61-78 | a new document starts with a duplicate-free category list |
| Data.Refreshed | js/data/DataManager.js:624-634 | after `updateMetadata` an intact stored document is stamped, a refused one stays as it was, and a missing one becomes the stamped `DATA_STRUCTURE` |
| Data.RepairCommitted | js/data/DataManager.js:573-619 | after `repairData` a well-shaped or missing document stays; a repair the gate accepts is stored stamped; one it refuses leaves the blob as it was |
| Data.Loaded | js/data/DataManager.js:20-42 | after `initialize` there is always a document: the stamped initial one when none was stored, the stored one stamped when intact, its repair stamped when that is intact, otherwise the stored one unchanged |
| Data.LoadedIntact | js/data/DataManager.js:20-42 | `initialize` leaves an intact document unless the stored one is beyond repair |
| Data.DataManager.constructor | js/data/DataManager.js:7-42 | the store runs `initialize` on the stored blobs: the document becomes `Loaded` of the stored one, in each of its four cases; the backups are kept; the invariant holds unless the stored document is beyond repair |
| Data.DataManager.GetData | js/data/DataManager.js:84-98 | the stored document, or `DATA_STRUCTURE` when there is none |
| Data.DataManager.SaveData | js/data/DataManager.js:104-123 | the stored document becomes the gate's answer; backups are unchanged; the invariant holds |
| Data.DataManager.UpdateMetadata | js/data/DataManager.js:624-634 | the stored document becomes `Refreshed` of the old one; backups are unchanged; the invariant holds |
| Data.DataManager.Initialize | js/data/DataManager.js:20-42 | the stored document becomes `Loaded` of the old one (created, stamped, repaired or kept); backups are unchanged; the invariant holds |
| Data.DataManager.AddRecord | js/data/DataManager.js:130-170 | false and no change on an invalid input or missing lists; otherwise true and the document with the normalised record added goes through the gate |
| Data.DataManager.UpdateRecord | js/data/DataManager.js:178-212 | false and no change when no record has the id or the merge is invalid; otherwise only the first matching record is replaced by the merge with a new `updatedAt` |
| Data.DataManager.DeleteRecord | js/data/DataManager.js:219-242 | false and no change when no record has the id; otherwise only the first matching record is removed |
| Data.DataManager.GetRecords | js/data/DataManager.js:249-303 | exactly `Query` over the current document: selected stored records, each as often as it is stored, [] on a throw or without a record array, subsequence without `sortBy`, sorted with it |
| Data.DataManager.GetCategories | js/data/DataManager.js:309-318 | the category array, or [] when there is none |
| Data.DataManager.AddCategory | js/data/DataManager.js:325-355 | false and no change when the name is invalid or its trimmed form is listed; otherwise exactly the trimmed form is appended |
| Data.DataManager.DeleteCategory | js/data/DataManager.js:362-392 | false and no change while a record uses the name or when it is not listed; otherwise only its first occurrence is removed |
| Data.DataManager.GetSettings | js/data/DataManager.js:398-407 | `DEFAULT_SETTINGS` overridden by the stored settings, every default key present |
| Data.DataManager.UpdateSettings | js/data/DataManager.js:414-436 | false and no change on an invalid partial; otherwise the old settings overridden by the partial go through the gate |
| Data.DataManager.DeleteAllData | js/data/DataManager.js:441-452 | both blobs are gone |
| Data.DataManager.ExportData | js/data/DataManager.js:458-467 | the document `getData` returns, intact when the store holds one |
| Data.DataManager.ImportData | js/data/DataManager.js:474-495 | true iff the text parses to an object that passes the integrity check; then it is stored, stamped; otherwise nothing changes |
| Data.DataManager.GetBackups | js/data/DataManager.js:533-541 | the backup list, or [] when there is none |
| Data.DataManager.CreateBackup | js/data/DataManager.js:501-527 | false without metadata; otherwise the bounded push of a backup of the current document, at most ten kept; the document is untouched |
| Data.DataManager.RestoreBackup | js/data/DataManager.js:548-568 | false and no change when no backup has the timestamp; otherwise the first such backup's document goes through the gate |
| Data.DataManager.RepairData | js/data/DataManager.js:573-619 | the stored document becomes `RepairCommitted` of the old one: the repair is saved only when something needed repair |
| Data.DataManager.GetStorageInfo | js/data/DataManager.js:661-683 | the record and category counts and the last update, or zeros when the lists or metadata are missing |
| Data.ExportImportRoundTrip | js/data/DataManager.js:458-495 | importing what was exported succeeds and keeps settings, data and backup section |

## Left out

- Browser interface: `js/app.js` (DOM, events, alerts, downloads) and the field-error helpers and `getErrorMessage` in `js/utils/Validation.js:308-372` are not part of this model.
- localStorage and JSON are not modelled as text. Each blob is an option-typed field, and a parse failure is `None`. `exportData` and `importData` work on documents; `ImportData` receives the parse result, where `None` stands for text `JSON.parse` rejects.
- Data.DataManager.SaveData: `saveData` and `updateMetadata` call each other until the stack overflows, and a catch ends it. The model performs one stamp of lastUpdate and version per accepted save. It does not reproduce the recursion or the number of writes.
- The clock, the local date and the random id are parameters. The id is not checked for freshness inside the store; `AppendFreshIdKeepsUnique` states what freshness buys.
- Validation.NormalizeDate: the source parses the text as UTC and formats it in local time, which can shift the day by one. The model keeps a valid date as written.
- Validation.NormalizeDate: the source reformats a string the host parser reads in some other format (such as `2021/01/02`); the model gives today for any text that is not `YYYY-MM-DD`. `addRecord` only normalises dates that are falsy or passed `validateDate`, so the store is not affected.
- Validation.NormalizeDateIdempotent: proved only when today and the input parse with four-digit years. `formatDate` does not pad the year, so a year below 1000 would not read back.
- Calendar overflow (such as 2021-02-30) depends on the host date parser. The model refuses days beyond the month, with Gregorian leap years.
- JsRuntime.StringToNumber: `Number(...)` on strings is modelled for blank text and for decimal text with an optional sign, an optional fraction and `Infinity`, after trimming. Exponents and hexadecimal text are read as NaN.
- JsRuntime.ToNumber: every object is read as NaN. In JavaScript an array converts through its text, so `Number([])` is 0 and `Number([5])` is 5; the model's values have no arrays.
- Validation.ValidateValue: follows `JsRuntime.ToNumber`, so an empty array or a one-element array holding a valid number, which the source accepts, is refused by the model.
- Validation.ValidateCategory: the `\s` class is the ECMAScript whitespace set over `char`. String lengths count Unicode scalar values, not UTF-16 code units, so text outside the Basic Multilingual Plane is measured differently.
- `toLowerCase` is ASCII-only in the model.
- RecordQuery.Sort: the comparator never returns 0, so the order of equal keys depends on the engine. The model proves only "a sorted permutation", using an insertion sort over a total preorder.
- RecordQuery.KeyLe: for two finite numbers the model agrees with `>`. Two strings are compared on Unicode scalar values, while `>` compares UTF-16 code units; the two orders differ when a character above U+FFFF meets one in U+E000..U+FFFF at the first difference. Mixed types, NaN and missing properties are given a fixed rank order instead of the engine's coercions.
- RecordQuery.Filters: filter values are strings, with "" meaning "not supplied". Non-string filter values are not modelled. The period filter compares only dates that parse as `YYYY-MM-DD`: a record date or a `startDate`/`endDate` filter in another form the host `Date` parser accepts, such as `2021/01/01`, fails it, where the source compares it.
- Data.DataManager.AddRecord: when the category list is a string rather than an array, the source's `includes` is a substring test and the following `push` may be skipped. The model returns false whenever either list is not an array.
- Data.DataManager.GetStorageInfo: the byte size and the kilobyte figure are left out because they depend on `JSON.stringify` output and floating point.
- Data.DataManager.GetStorageInfo: when either list is not an array, the model answers zeros for both counts and no last update. The source reads `length` of each list without throwing, so it keeps the other count and the last update; the non-array's count is a string's length, or undefined for a number or an object.
- Data.DataManager.GetCategories: a category property that is a string is copied character by character by the spread; the model returns [].
- JavaScript aliasing is not modelled: `getData` returns the shared `DATA_STRUCTURE` object, and repair makes shallow copies. Dafny values are never shared.
- Logging, `handleError` and `window.showNotification` are not modelled.
- `metadata.statistics`, the unused `STORAGE_KEYS.SETTINGS`, and the chart, breakpoint, animation, locale and unused message tables of `js/config/Constants.js` are not modelled.
- Top-level document values that are truthy but not objects (such as a number stored as the settings) are not modelled. A property is either an object of the expected shape or missing.
- Data.Merge: `RecordPatch` carries only the seven record properties. Any other property of `updates` is copied into the stored record by the source and dropped by the model.
- RecordQuery.Query: when the record property is a string, the source's `[...data.data.records]` spreads it into one-character strings and filters those; the model answers [].
- Validation.ValidateDataIntegrity: a record entry that is null, or not an object, makes the source's `validateRecord` throw while reading its properties. The model's record list holds only records, so that path is not modelled.
- Data.Loaded: a stored APP_DATA blob that is empty or fails to parse is modelled as `None`, so the model stores the initial document with `created` set to now. In the source `hasData` is true for such a blob, so `createInitialData` is skipped; `getData` falls back to `DATA_STRUCTURE`, which passes the integrity check, and `updateMetadata` saves it stamped and without a `created` property.
- Data.AddedRecordPassesGate: holds only when today's date passes `validateDate`. After 2030-12-31, or when the UTC date is not the local one, a record without a date is given a today the gate refuses, and `addRecord` still answers true.
