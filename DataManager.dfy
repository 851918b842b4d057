/**
 * The record store: one persisted document (the APP_DATA blob) and a separate
 * list of backups (the BACKUP blob). Every mutator loads the document, checks
 * its input, changes a copy and hands it to `saveData`, whose integrity gate
 * decides whether it is written.
 *
 * The clock, the date of today and the generated id are parameters.
 */
module Data {
  import opened Wrappers
  import opened JsRuntime
  import opened Calendar
  import opened Schema
  import opened Constants
  import opened Validation
  import opened RecordQuery
  import opened ConstantFacts

  // ---------------------------------------------------------------------------
  // Saving

  /**
   * The document as `updateMetadata` leaves it after a successful save:
   * `metadata.lastUpdate` is now and `metadata.version` is the application
   * version. Nothing else changes.
   */
  function Stamped(doc: Document, now: string): (r: Document)
    ensures r.settings == doc.settings && r.data == doc.data && r.backup == doc.backup
    ensures doc.metadata.Some? ==>
              r.metadata == Some(Metadata(AppVersion, Some(now), doc.metadata.value.created))
    ensures doc.metadata.None? ==> r == doc
  {
    match doc.metadata
    case None => doc
    case Some(m) => doc.(metadata := Some(m.(lastUpdate := Some(now), version := AppVersion)))
  }

  /** Stamping touches only the metadata, so it never changes the integrity verdict. */
  lemma StampedKeepsIntegrity(doc: Document, now: string)
    ensures IsIntact(Stamped(doc, now)) <==> IsIntact(doc)
    ensures Stamped(Stamped(doc, now), now) == Stamped(doc, now)
  {
  }

  /** What the APP_DATA blob holds after `saveData(doc)`: the stamped document if it passes the gate, else what it held. */
  function Commit(stored: Option<Document>, doc: Document, now: string): (r: Option<Document>)
    ensures IsIntact(doc) ==> r == Some(Stamped(doc, now))
    ensures !IsIntact(doc) ==> r == stored
  {
    if ValidateDataIntegrity(AnObject(doc)).isValid then Some(Stamped(doc, now)) else stored
  }

  /** The store never holds a document the gate refuses: `Commit` keeps that true. */
  lemma CommitKeepsStoreIntact(stored: Option<Document>, doc: Document, now: string)
    requires stored.Some? ==> IsIntact(stored.value)
    ensures Commit(stored, doc, now).Some? ==> IsIntact(Commit(stored, doc, now).value)
  {
    StampedKeepsIntegrity(doc, now);
  }

  // ---------------------------------------------------------------------------
  // Records

  /** The record `addRecord` builds from its input: every field normalised, a fresh id and two timestamps. */
  function NormalizedRecord(input: Record, id: string, now: string, today: string): (r: Record)
    ensures r.id == Str(id) && r.createdAt == Str(now) && r.updatedAt == Str(now)
    ensures r.category == Str(NormalizeCategory(r.category))
    ensures r.memo == Str(NormalizeMemo(r.memo))
    ensures r.value == Num(NormalizeValue(r.value))
    ensures r.category == Str(NormalizeCategory(input.category)) && r.memo == Str(NormalizeMemo(input.memo))
    ensures r.value == Num(NormalizeValue(input.value))
    ensures r.date == Str(NormalizeDate(input.date, today))
    ensures !Truthy(input.date) ==> r.date == Str(today)
    ensures ValidateDate(input.date) ==> r.date == input.date
  {
    var record := Record(
      Str(id),
      Str(NormalizeCategory(input.category)),
      Num(NormalizeValue(input.value)),
      Str(NormalizeMemo(input.memo)),
      Str(NormalizeDate(input.date, today)),
      Str(now),
      Str(now));
    assert record.category == Str(NormalizeCategory(record.category)) by {
      NormalizeCategoryStable(input.category);
    }
    assert record.memo == Str(NormalizeMemo(record.memo)) by {
      NormalizeMemoStable(input.memo);
    }
    assert record.value == Num(NormalizeValue(record.value)) by {
      NormalizeValueIdempotent(input.value);
    }
    record
  }

  /** A valid category is still valid once trimmed. */
  lemma NormalizedCategoryValid(category: JsValue)
    requires ValidateCategory(category)
    ensures ValidateCategory(Str(NormalizeCategory(category)))
  {
    NormalizeCategoryStable(category);
  }

  /** A valid memo is still valid once trimmed. */
  lemma NormalizedMemoValid(memo: JsValue)
    requires ValidateMemo(memo)
    ensures ValidateMemo(Str(NormalizeMemo(memo)))
  {
    NormalizeMemoStable(memo);
  }

  /** A valid value is still valid once floored. */
  lemma NormalizedValueValid(value: JsValue)
    requires ValidateValue(value)
    ensures ValidateValue(Num(NormalizeValue(value)))
  {
  }

  /** A truthy date must be valid; the normalised date is then that date, or today when falsy. */
  lemma NormalizedDateValid(date: JsValue, today: string)
    requires Truthy(date) ==> ValidateDate(date)
    requires ValidateDate(Str(today))
    ensures ValidateDate(Str(NormalizeDate(date, today)))
  {
  }

  /** `validateRecord` reports no error only when every field check passes. */
  lemma ValidRecordFields(r: Record)
    requires ValidateRecord(r).isValid
    ensures ValidateCategory(r.category) && ValidateValue(r.value)
    ensures ValidateMemo(r.memo) && (Truthy(r.date) ==> ValidateDate(r.date))
  {
  }

  /** Every field check passes, so `validateRecord` reports no error. */
  lemma FieldsValidRecordValid(r: Record)
    requires ValidateCategory(r.category) && ValidateValue(r.value)
    requires ValidateMemo(r.memo) && ValidateDate(r.date)
    ensures ValidateRecord(r).isValid
  {
  }

  /**
   * A record that passes `validateRecord` still passes it once normalised, when
   * today is an accepted date. Without that requirement the claim is false: a
   * record with no date is given today's date, and a today after 2030-12-31
   * (or a UTC date that is not yet the local one) fails `validateDate`.
   */
  lemma NormalizedRecordIsValid(input: Record, id: string, now: string, today: string)
    requires ValidateRecord(input).isValid
    requires ValidateDate(Str(today))
    ensures ValidateRecord(NormalizedRecord(input, id, now, today)).isValid
  {
    ValidRecordFields(input);
    NormalizedCategoryValid(input.category);
    NormalizedValueValid(input.value);
    NormalizedMemoValid(input.memo);
    NormalizedDateValid(input.date, today);
    FieldsValidRecordValid(NormalizedRecord(input, id, now, today));
  }

  /** The document has a data section whose records and categories are both arrays. */
  predicate HasLists(doc: Document) {
    doc.data.Some? && doc.data.value.records.List? && doc.data.value.categories.List?
  }

  /** The stored categories, or [] when there is no category array. */
  function CategoriesOf(doc: Document): seq<JsValue> {
    if doc.data.Some? && doc.data.value.categories.List? then doc.data.value.categories.items else []
  }

  /** The document with its record and category arrays replaced, everything else kept. */
  function WithLists(doc: Document, records: seq<Record>, categories: seq<JsValue>): (r: Document)
    requires doc.data.Some?
    ensures HasLists(r) && RecordsOf(r) == records && CategoriesOf(r) == categories
    ensures r.settings == doc.settings && r.backup == doc.backup && r.metadata == doc.metadata
    ensures r.data.value.themes == doc.data.value.themes
  {
    doc.(data := Some(doc.data.value.(records := List(records), categories := List(categories))))
  }

  /** `categories.includes(c) ? categories : [...categories, c]` */
  function AppendIfAbsent(categories: seq<JsValue>, c: JsValue): (r: seq<JsValue>)
    ensures c in r
    ensures c in categories ==> r == categories
    ensures c !in categories ==> r == categories + [c]
  {
    if c in categories then categories else categories + [c]
  }

  /** No category appears twice. */
  predicate DistinctCategories(categories: seq<JsValue>) {
    forall i, j :: 0 <= i < j < |categories| ==> categories[i] != categories[j]
  }

  /** Appending only absent categories keeps a category list free of duplicates. */
  lemma AppendIfAbsentKeepsDistinct(categories: seq<JsValue>, c: JsValue)
    requires DistinctCategories(categories)
    ensures DistinctCategories(AppendIfAbsent(categories, c))
  {
    if c !in categories {
      var r := categories + [c];
      forall i, j | 0 <= i < j < |r| ensures r[i] != r[j] {
        if j == |categories| {
          assert r[i] == categories[i];
        }
      }
    }
  }

  /** The document `addRecord` hands to `saveData`: the record appended, its category appended when new. */
  function WithRecordAdded(doc: Document, record: Record): (r: Document)
    requires HasLists(doc)
    ensures HasLists(r)
    ensures RecordsOf(r) == RecordsOf(doc) + [record]
    ensures CategoriesOf(r) == AppendIfAbsent(CategoriesOf(doc), record.category)
    ensures r.settings == doc.settings && r.backup == doc.backup && r.metadata == doc.metadata
    ensures r.data.value.themes == doc.data.value.themes
  {
    WithLists(doc, RecordsOf(doc) + [record], AppendIfAbsent(CategoriesOf(doc), record.category))
  }

  /** `addRecord` keeps a duplicate-free category list duplicate-free. */
  lemma AddRecordKeepsCategoriesDistinct(doc: Document, record: Record)
    requires HasLists(doc) && DistinctCategories(CategoriesOf(doc))
    ensures DistinctCategories(CategoriesOf(WithRecordAdded(doc, record)))
    ensures record.category in CategoriesOf(WithRecordAdded(doc, record))
  {
    AppendIfAbsentKeepsDistinct(CategoriesOf(doc), record.category);
  }

  /** `addCategory` appends only names not yet listed, so it keeps the list duplicate-free. */
  lemma AddCategoryKeepsDistinct(categories: seq<JsValue>, c: JsValue)
    requires DistinctCategories(categories) && c !in categories
    ensures DistinctCategories(categories + [c])
  {
    AppendIfAbsentKeepsDistinct(categories, c);
  }

  /** No two records share an id. */
  predicate UniqueIds(records: seq<Record>) {
    forall i, j :: 0 <= i < j < |records| ==> records[i].id != records[j].id
  }

  /** Appending a record whose id is fresh keeps the ids unique. */
  lemma AppendFreshIdKeepsUnique(records: seq<Record>, record: Record)
    requires UniqueIds(records)
    requires forall x :: x in records ==> x.id != record.id
    ensures UniqueIds(records + [record])
  {
    var r := records + [record];
    forall i, j | 0 <= i < j < |r| ensures r[i].id != r[j].id {
      assert r[i] == records[i];
      if j < |records| {
        assert r[j] == records[j];
      } else {
        assert records[i] in records;
      }
    }
  }

  /**
   * On an intact document with arrays, a record that passes `validateRecord`
   * is normalised into one the gate accepts: the add really is written. When
   * today itself is refused by `validateDate`, a record without a date is not
   * written although `addRecord` still answers true.
   */
  lemma AddedRecordPassesGate(doc: Document, input: Record, id: string, now: string, today: string)
    requires IsIntact(doc) && HasLists(doc)
    requires ValidateRecord(input).isValid && ValidateDate(Str(today))
    ensures IsIntact(WithRecordAdded(doc, NormalizedRecord(input, id, now, today)))
  {
    var record := NormalizedRecord(input, id, now, today);
    NormalizedRecordIsValid(input, id, now, today);
    NormalizedCategoryValid(input.category);
    ValidRecordKeepsIntact(doc, record);
  }

  /** Adding a valid record with a valid category to an intact document keeps it intact. */
  lemma ValidRecordKeepsIntact(doc: Document, record: Record)
    requires IsIntact(doc) && HasLists(doc)
    requires ValidateRecord(record).isValid && ValidateCategory(record.category)
    ensures IsIntact(WithRecordAdded(doc, record))
  {
    var records := RecordsOf(doc) + [record];
    var categories := AppendIfAbsent(CategoriesOf(doc), record.category);
    AppendKeepsAll(RecordsOf(doc), record, (x: Record) => ValidateRecord(x).isValid);
    if record.category !in CategoriesOf(doc) {
      AppendKeepsAll(CategoriesOf(doc), record.category, ValidateCategory);
    }
    assert WithRecordAdded(doc, record) == WithLists(doc, records, categories);
    IntactWithLists(doc, records, categories);
  }

  /** Appending an element that satisfies `ok` to a list whose members all do keeps that true. */
  lemma AppendKeepsAll<T>(xs: seq<T>, x: T, ok: T -> bool)
    requires forall y :: y in xs ==> ok(y)
    requires ok(x)
    ensures forall y :: y in xs + [x] ==> ok(y)
  {
  }

  /** Replacing the arrays of an intact document by arrays of valid entries keeps it intact. */
  lemma IntactWithLists(doc: Document, records: seq<Record>, categories: seq<JsValue>)
    requires IsIntact(doc)
    requires forall x :: x in records ==> ValidateRecord(x).isValid
    requires forall c :: c in categories ==> ValidateCategory(c)
    ensures IsIntact(WithLists(doc, records, categories))
  {
  }

  /** The first index whose record has the given id: `findIndex(record => record.id === id)`. */
  function IndexOfId(records: seq<Record>, id: string): (r: Option<nat>)
    ensures r.Some? ==> r.value < |records| && records[r.value].id == Str(id)
    ensures r.Some? ==> forall k :: 0 <= k < r.value ==> records[k].id != Str(id)
    ensures r.None? ==> forall k :: 0 <= k < |records| ==> records[k].id != Str(id)
  {
    if records == [] then None
    else if records[0].id == Str(id) then Some(0)
    else
      match IndexOfId(records[1..], id)
      case None => None
      case Some(k) => Some(k + 1)
  }

  /** The properties an update may carry: `Some` for a key present in the updates object. */
  datatype RecordPatch = RecordPatch(
    id: Option<JsValue>,
    category: Option<JsValue>,
    value: Option<JsValue>,
    memo: Option<JsValue>,
    date: Option<JsValue>,
    createdAt: Option<JsValue>,
    updatedAt: Option<JsValue>)

  /** `{ ...record, ...updates }`: a property the updates carry wins, every other one is kept. */
  function Merge(record: Record, updates: RecordPatch): (r: Record)
    ensures r.category == updates.category.GetOr(record.category)
    ensures r.value == updates.value.GetOr(record.value)
    ensures r.memo == updates.memo.GetOr(record.memo)
    ensures r.date == updates.date.GetOr(record.date)
    ensures r.id == updates.id.GetOr(record.id)
    ensures r.createdAt == updates.createdAt.GetOr(record.createdAt)
    ensures r.updatedAt == updates.updatedAt.GetOr(record.updatedAt)
    ensures updates == RecordPatch(None, None, None, None, None, None, None) ==> r == record
  {
    Record(
      updates.id.GetOr(record.id),
      updates.category.GetOr(record.category),
      updates.value.GetOr(record.value),
      updates.memo.GetOr(record.memo),
      updates.date.GetOr(record.date),
      updates.createdAt.GetOr(record.createdAt),
      updates.updatedAt.GetOr(record.updatedAt))
  }

  /** `records.splice(index, 1)` */
  function RemoveAt<T>(xs: seq<T>, index: nat): (r: seq<T>)
    requires index < |xs|
    ensures |r| == |xs| - 1
    ensures forall k :: 0 <= k < index ==> r[k] == xs[k]
    ensures forall k :: index <= k < |r| ==> r[k] == xs[k + 1]
    ensures multiset(r) == multiset(xs) - multiset{xs[index]}
  {
    assert xs == xs[..index] + [xs[index]] + xs[index + 1..];
    xs[..index] + xs[index + 1..]
  }

  /** Removing an entry keeps the rest free of duplicates and, when it had none, drops the value for good. */
  lemma RemoveAtKeepsDistinct(categories: seq<JsValue>, index: nat)
    requires index < |categories| && DistinctCategories(categories)
    ensures DistinctCategories(RemoveAt(categories, index))
    ensures categories[index] !in RemoveAt(categories, index)
  {
    var r := RemoveAt(categories, index);
    forall i, j | 0 <= i < j < |r| ensures r[i] != r[j] {
      var i' := if i < index then i else i + 1;
      var j' := if j < index then j else j + 1;
      assert r[i] == categories[i'] && r[j] == categories[j'];
    }
  }

  /** Removing an entry keeps the ids of the others unique. */
  lemma RemoveAtKeepsUnique(records: seq<Record>, index: nat)
    requires index < |records| && UniqueIds(records)
    ensures UniqueIds(RemoveAt(records, index))
  {
    var r := RemoveAt(records, index);
    forall i, j | 0 <= i < j < |r| ensures r[i].id != r[j].id {
      var i' := if i < index then i else i + 1;
      var j' := if j < index then j else j + 1;
      assert r[i] == records[i'] && r[j] == records[j'];
    }
  }

  /** `array.indexOf(value)` */
  function IndexOf(xs: seq<JsValue>, x: JsValue): (r: Option<nat>)
    ensures r.Some? ==> r.value < |xs| && xs[r.value] == x
    ensures r.Some? ==> forall k :: 0 <= k < r.value ==> xs[k] != x
    ensures r.None? <==> x !in xs
  {
    if xs == [] then None
    else if xs[0] == x then Some(0)
    else
      match IndexOf(xs[1..], x)
      case None => None
      case Some(k) => Some(k + 1)
  }

  // ---------------------------------------------------------------------------
  // Settings

  /** `{ ...base, ...overrides }` */
  function Spread(base: Settings, overrides: Settings): (r: Settings)
    ensures r.Keys == base.Keys + overrides.Keys
    ensures forall k :: k in overrides ==> r[k] == overrides[k]
    ensures forall k :: k in base && k !in overrides ==> r[k] == base[k]
  {
    base + overrides
  }

  // ---------------------------------------------------------------------------
  // Backups

  /** The list after `push` then, past ten entries, one `shift`. */
  function RetainNewest(backups: seq<Backup>, b: Backup): (r: seq<Backup>)
    ensures r != [] && r[|r| - 1] == b
    ensures |backups| < MaxBackups ==> r == backups + [b]
    ensures |backups| >= MaxBackups ==> r == (backups + [b])[1..]
    ensures |backups| <= MaxBackups ==> |r| <= MaxBackups
  {
    var pushed := backups + [b];
    if |pushed| > MaxBackups then pushed[1..] else pushed
  }

  /** A run of `createBackup` calls, oldest first. */
  function RetainAll(backups: seq<Backup>, pushed: seq<Backup>): seq<Backup>
    decreases |pushed|
  {
    if pushed == [] then backups
    else RetainAll(RetainNewest(backups, pushed[0]), pushed[1..])
  }

  /** The last `n` entries (all of them when there are fewer). */
  function LastN(xs: seq<Backup>, n: nat): (r: seq<Backup>)
    ensures |r| == if |xs| < n then |xs| else n
  {
    if |xs| <= n then xs else xs[|xs| - n..]
  }

  /**
   * Starting from at most ten backups, any run of `createBackup` calls leaves
   * exactly the newest ten of all of them, oldest first.
   */
  lemma {:induction false} RetainAllKeepsNewest(backups: seq<Backup>, pushed: seq<Backup>)
    requires |backups| <= MaxBackups
    ensures RetainAll(backups, pushed) == LastN(backups + pushed, MaxBackups)
    decreases |pushed|
  {
    if pushed == [] {
      assert backups + pushed == backups;
    } else {
      var next := RetainNewest(backups, pushed[0]);
      RetainAllKeepsNewest(next, pushed[1..]);
      assert backups + pushed == (backups + [pushed[0]]) + pushed[1..];
      if |backups| < MaxBackups {
        assert next + pushed[1..] == backups + pushed;
      } else {
        var all := backups + pushed;
        assert next + pushed[1..] == all[1..];
        assert LastN(all[1..], MaxBackups) == LastN(all, MaxBackups) by {
          assert |all| > MaxBackups;
          assert all[1..][|all[1..]| - MaxBackups..] == all[|all| - MaxBackups..];
        }
      }
    }
  }

  /** The index of the first backup with the given timestamp: `find(b => b.timestamp === timestamp)`. */
  function FindBackup(backups: seq<Backup>, timestamp: string): (r: Option<nat>)
    ensures r.Some? ==> r.value < |backups| && backups[r.value].timestamp == timestamp
    ensures r.Some? ==> forall k :: 0 <= k < r.value ==> backups[k].timestamp != timestamp
    ensures r.None? ==> forall k :: 0 <= k < |backups| ==> backups[k].timestamp != timestamp
  {
    if backups == [] then None
    else if backups[0].timestamp == timestamp then Some(0)
    else
      match FindBackup(backups[1..], timestamp)
      case None => None
      case Some(k) => Some(k + 1)
  }

  // ---------------------------------------------------------------------------
  // Repair

  /** Each required property present and both lists arrays: what `repairData` establishes. */
  predicate WellShaped(doc: Document) {
    doc.settings.Some? && doc.backup.Some? && doc.metadata.Some? && HasLists(doc)
  }

  /**
   * The document `repairData` builds: each missing property from its default,
   * a non-array record list as [], a non-array category list as the default
   * categories. Everything already in shape is kept.
   */
  function Repaired(doc: Document): (r: Document)
    ensures WellShaped(r)
    ensures doc.settings.None? ==> r.settings == Some(DefaultSettings)
    ensures doc.data.None? ==> r.data == Some(DefaultDataSection)
    ensures doc.backup.None? ==> r.backup == Some(DefaultBackupSection)
    ensures doc.metadata.None? ==> r.metadata == Some(DefaultMetadata)
    ensures doc.data.Some? && !doc.data.value.records.List? ==> RecordsOf(r) == []
    ensures doc.data.Some? && !doc.data.value.categories.List? ==> CategoriesOf(r) == DefaultCategoryValues
    ensures doc.data.Some? ==> r.data.value.themes == doc.data.value.themes
    ensures doc.settings.Some? ==> r.settings == doc.settings
    ensures doc.backup.Some? ==> r.backup == doc.backup
    ensures doc.metadata.Some? ==> r.metadata == doc.metadata
    ensures doc.data.Some? && doc.data.value.records.List? ==> RecordsOf(r) == RecordsOf(doc)
    ensures doc.data.Some? && doc.data.value.categories.List? ==> CategoriesOf(r) == CategoriesOf(doc)
    ensures WellShaped(doc) <==> r == doc
  {
    var settings := if doc.settings.None? then Some(DefaultSettings) else doc.settings;
    var data := if doc.data.None? then DefaultDataSection else doc.data.value;
    var backup := if doc.backup.None? then Some(DefaultBackupSection) else doc.backup;
    var metadata := if doc.metadata.None? then Some(DefaultMetadata) else doc.metadata;
    var records := if data.records.List? then data.records else List([]);
    var categories := if data.categories.List? then data.categories else List(DefaultCategoryValues);
    Document(settings, Some(data.(records := records, categories := categories)), backup, metadata)
  }

  /** Repairing twice is repairing once. */
  lemma RepairIdempotent(doc: Document)
    ensures Repaired(Repaired(doc)) == Repaired(doc)
  {
  }

  // ---------------------------------------------------------------------------
  // Initialisation

  /** `createInitialData`: `DATA_STRUCTURE` with a creation and an update stamp. */
  function InitialDocument(now: string): (r: Document)
    ensures r.settings == DataStructure.settings && r.data == DataStructure.data && r.backup == DataStructure.backup
    ensures r.metadata == Some(Metadata(AppVersion, Some(now), Some(now)))
  {
    DataStructure.(metadata := Some(DefaultMetadata.(created := Some(now), lastUpdate := Some(now))))
  }

  /** The document `getData` reads from a blob: the stored one, or `DATA_STRUCTURE` when there is none. */
  function Current(stored: Option<Document>): Document {
    if stored.Some? then stored.value else DataStructure
  }

  /**
   * What the APP_DATA blob holds after `updateMetadata`: the current document,
   * stamped, when it passes the gate; otherwise what the blob held.
   */
  function Refreshed(stored: Option<Document>, now: string): (r: Option<Document>)
    ensures stored.None? ==> r == Some(Stamped(DataStructure, now))
    ensures stored.Some? && IsIntact(stored.value) ==> r == Some(Stamped(stored.value, now))
    ensures stored.Some? && !IsIntact(stored.value) ==> r == stored
  {
    DataStructureIntact();
    StampedKeepsIntegrity(Current(stored), now);
    var d := Current(stored);
    if d.metadata.Some? then Commit(stored, Stamped(d, now), now) else stored
  }

  /**
   * What the APP_DATA blob holds after `repairData`: the repaired document,
   * stamped, when repair changed something and the result passes the gate;
   * otherwise what the blob held.
   */
  function RepairCommitted(stored: Option<Document>, now: string): (r: Option<Document>)
    ensures stored.None? || WellShaped(stored.value) ==> r == stored
    ensures !IsIntact(Repaired(Current(stored))) ==> r == stored
    ensures !WellShaped(Current(stored)) && IsIntact(Repaired(Current(stored))) ==>
              r == Some(Stamped(Repaired(Current(stored)), now))
  {
    DataStructureIntact();
    var d := Current(stored);
    if Repaired(d) == d then stored else Commit(stored, Repaired(d), now)
  }

  /**
   * What the APP_DATA blob holds after `initialize`: a stamped initial document
   * when there was none; the stored document, stamped, when it passes the gate;
   * its repair, stamped, when that passes; otherwise the blob unchanged.
   */
  function Loaded(stored: Option<Document>, now: string): (r: Option<Document>)
    ensures r.Some?
    ensures stored.None? ==> r == Some(Stamped(InitialDocument(now), now))
    ensures stored.Some? && IsIntact(stored.value) ==> r == Some(Stamped(stored.value, now))
    ensures stored.Some? && !IsIntact(stored.value) && IsIntact(Repaired(stored.value)) ==>
              r == Some(Stamped(Repaired(stored.value), now))
    ensures stored.Some? && !IsIntact(stored.value) && !IsIntact(Repaired(stored.value)) ==> r == stored
  {
    InitialDocumentIntact(now);
    if stored.None? then
      StampedKeepsIntegrity(InitialDocument(now), now);
      Refreshed(Commit(None, InitialDocument(now), now), now)
    else if IsIntact(stored.value) then
      Refreshed(stored, now)
    else
      var d := stored.value;
      assert !WellShaped(d) || !IsIntact(Repaired(d));
      StampedKeepsIntegrity(Repaired(d), now);
      Refreshed(RepairCommitted(stored, now), now)
  }

  /** `getStorageInfo` without the byte size: the two counts and the last update. */
  datatype StorageInfo = StorageInfo(recordCount: nat, categoryCount: nat, lastUpdate: Option<string>)

  /**
   * `initialize` leaves an intact document behind whenever it starts from no
   * document, an intact one, or one that repair makes intact.
   */
  lemma LoadedIntact(stored: Option<Document>, now: string)
    ensures stored.None? || IsIntact(stored.value) || IsIntact(Repaired(stored.value)) ==>
              IsIntact(Loaded(stored, now).value)
  {
    if stored.None? {
      InitialDocumentIntact(now);
      StampedKeepsIntegrity(InitialDocument(now), now);
    } else if IsIntact(stored.value) {
      StampedKeepsIntegrity(stored.value, now);
    } else {
      StampedKeepsIntegrity(Repaired(stored.value), now);
    }
  }

  // ---------------------------------------------------------------------------
  // The store

  class DataManager {
    /** The APP_DATA blob; `None` when it is absent. */
    var appData: Option<Document>
    /** The BACKUP blob; `None` when it is absent. */
    var backups: Option<seq<Backup>>

    /** The stored document never fails the integrity gate. */
    predicate Valid()
      reads this
    {
      appData.Some? ==> IsIntact(appData.value)
    }

    /** `new DataManager()` over the two blobs found in storage; it runs `initialize`. */
    constructor(storedData: Option<Document>, storedBackups: Option<seq<Backup>>, now: string)
      ensures appData == Loaded(storedData, now)
      ensures backups == storedBackups
      ensures storedData.None? ==> appData == Some(Stamped(InitialDocument(now), now))
      ensures storedData.Some? && IsIntact(storedData.value) ==> appData == Some(Stamped(storedData.value, now))
      ensures storedData.Some? && !IsIntact(storedData.value) && IsIntact(Repaired(storedData.value)) ==>
                appData == Some(Stamped(Repaired(storedData.value), now))
      ensures storedData.Some? && !IsIntact(storedData.value) && !IsIntact(Repaired(storedData.value)) ==>
                appData == storedData
      ensures storedData.None? || IsIntact(storedData.value) || IsIntact(Repaired(storedData.value)) ==> Valid()
    {
      appData := storedData;
      backups := storedBackups;
      new;
      Initialize(now);
      LoadedIntact(storedData, now);
    }

    /** `getData`: the stored document, or `DATA_STRUCTURE` when there is none. */
    function GetData(): (r: Document)
      reads this
      ensures appData.Some? ==> r == appData.value
      ensures appData.None? ==> r == DataStructure
    {
      Current(appData)
    }

    /** `saveData`: write the stamped document when it passes the integrity gate; otherwise keep what is stored. */
    method SaveData(doc: Document, now: string)
      modifies this
      ensures appData == Commit(old(appData), doc, now)
      ensures backups == old(backups)
      ensures old(Valid()) ==> Valid()
    {
      var integrity := ValidateDataIntegrity(AnObject(doc));
      if integrity.isValid {
        appData := Some(Stamped(doc, now));
      }
      if old(Valid()) {
        CommitKeepsStoreIntact(old(appData), doc, now);
      }
    }

    /** `updateMetadata`: stamp the stored document and save it; nothing happens without metadata. */
    method UpdateMetadata(now: string)
      modifies this
      ensures appData == Refreshed(old(appData), now)
      ensures backups == old(backups)
      ensures old(Valid()) ==> Valid()
    {
      var data := GetData();
      if data.metadata.Some? {
        data := data.(metadata := Some(data.metadata.value.(lastUpdate := Some(now), version := AppVersion)));
        SaveData(data, now);
      }
    }

    /** `initialize`: create the initial document when there is none, repair one that fails the gate, then stamp. */
    method Initialize(now: string)
      modifies this
      ensures appData == Loaded(old(appData), now)
      ensures backups == old(backups)
      ensures old(Valid()) ==> Valid()
    {
      if appData.None? {
        InitialDocumentIntact(now);
        SaveData(InitialDocument(now), now);
      } else if !ValidateDataIntegrity(AnObject(GetData())).isValid {
        RepairData(now);
      }
      StampedKeepsIntegrity(GetData(), now);
      UpdateMetadata(now);
    }

    /**
     * `addRecord`: refuse an input `validateRecord` rejects, and fail when the
     * document has no record or category array; otherwise append the
     * normalised record (and its category when new) and save. The answer is
     * true even when the gate then refuses the document.
     */
    method AddRecord(input: Record, id: string, now: string, today: string) returns (ok: bool)
      modifies this
      ensures ok <==> ValidateRecord(input).isValid && HasLists(old(GetData()))
      ensures ok ==> appData == Commit(old(appData), WithRecordAdded(old(GetData()), NormalizedRecord(input, id, now, today)), now)
      ensures !ok ==> appData == old(appData)
      ensures backups == old(backups)
      ensures old(Valid()) ==> Valid()
    {
      var validation := ValidateRecord(input);
      if !validation.isValid {
        return false;
      }
      var data := GetData();
      if !HasLists(data) {
        return false;
      }
      var record := NormalizedRecord(input, id, now, today);
      var records := RecordsOf(data) + [record];
      var categories := CategoriesOf(data);
      if record.category !in categories {
        categories := categories + [record.category];
      }
      SaveData(WithLists(data, records, categories), now);
      return true;
    }

    /**
     * `updateRecord`: find the first record with the id; merge the updates into
     * it, refuse the merge if `validateRecord` rejects it, otherwise replace
     * that record alone (with a new `updatedAt`) and save.
     */
    method UpdateRecord(id: string, updates: RecordPatch, now: string) returns (ok: bool)
      modifies this
      ensures var d := old(GetData());
              ok <==> && d.data.Some? && d.data.value.records.List?
                      && IndexOfId(RecordsOf(d), id).Some?
                      && ValidateRecord(Merge(RecordsOf(d)[IndexOfId(RecordsOf(d), id).value], updates)).isValid
      ensures ok ==>
                var d := old(GetData());
                var i := IndexOfId(RecordsOf(d), id).value;
                var merged := Merge(RecordsOf(d)[i], updates).(updatedAt := Str(now));
                appData == Commit(old(appData), d.(data := Some(d.data.value.(records := List(RecordsOf(d)[i := merged])))), now)
      ensures !ok ==> appData == old(appData)
      ensures backups == old(backups)
      ensures old(Valid()) ==> Valid()
    {
      var data := GetData();
      if data.data.None? || !data.data.value.records.List? {
        return false;
      }
      var records := RecordsOf(data);
      var index := IndexOfId(records, id);
      if index.None? {
        return false;
      }
      var updated := Merge(records[index.value], updates);
      var validation := ValidateRecord(updated);
      if !validation.isValid {
        return false;
      }
      records := records[index.value := updated.(updatedAt := Str(now))];
      SaveData(data.(data := Some(data.data.value.(records := List(records)))), now);
      return true;
    }

    /** `deleteRecord`: remove the first record with the id and save; false when there is none. */
    method DeleteRecord(id: string, now: string) returns (ok: bool)
      modifies this
      ensures var d := old(GetData());
              ok <==> d.data.Some? && d.data.value.records.List? && IndexOfId(RecordsOf(d), id).Some?
      ensures ok ==>
                var d := old(GetData());
                var i := IndexOfId(RecordsOf(d), id).value;
                appData == Commit(old(appData), d.(data := Some(d.data.value.(records := List(RemoveAt(RecordsOf(d), i))))), now)
      ensures !ok ==> appData == old(appData)
      ensures backups == old(backups)
      ensures old(Valid()) ==> Valid()
    {
      var data := GetData();
      if data.data.None? || !data.data.value.records.List? {
        return false;
      }
      var records := RecordsOf(data);
      var index := IndexOfId(records, id);
      if index.None? {
        return false;
      }
      records := RemoveAt(records, index.value);
      SaveData(data.(data := Some(data.data.value.(records := List(records)))), now);
      return true;
    }

    /** `getRecords(filters)` */
    function GetRecords(filters: Filters): (r: seq<Record>)
      reads this
      ensures forall x :: x in r ==> x in RecordsOf(GetData()) && Selected(x, filters)
      ensures filters.sortBy == "" ==> IsSubsequence(r, RecordsOf(GetData()))
      ensures filters.sortBy != "" ==> SortedBy(r, filters.sortBy, filters.sortOrder == "desc")
      ensures HasRecordList(GetData()) && Filtered(RecordsOf(GetData()), filters).Some? ==>
                forall x :: x in RecordsOf(GetData()) && Selected(x, filters) ==> x in r
      ensures HasRecordList(GetData()) && Filtered(RecordsOf(GetData()), filters).Some? ==>
                forall x :: multiset(r)[x] == if Selected(x, filters) then multiset(RecordsOf(GetData()))[x] else 0
      ensures !HasRecordList(GetData()) || Filtered(RecordsOf(GetData()), filters).None? ==> r == []
      ensures r == Query(GetData(), filters)
    {
      Query(GetData(), filters)
    }

    /** `getCategories`: a copy of the category array, or [] when there is none. */
    function GetCategories(): (r: seq<JsValue>)
      reads this
      ensures GetData().data.Some? && GetData().data.value.categories.List? ==> r == GetData().data.value.categories.items
      ensures GetData().data.None? || !GetData().data.value.categories.List? ==> r == []
    {
      CategoriesOf(GetData())
    }

    /**
     * `addCategory`: refuse an invalid name, and one whose trimmed form is
     * already listed; otherwise append the trimmed form and save.
     */
    method AddCategory(category: JsValue, now: string) returns (ok: bool)
      modifies this
      ensures var d := old(GetData());
              ok <==> && ValidateCategory(category) && d.data.Some? && d.data.value.categories.List?
                      && Str(NormalizeCategory(category)) !in CategoriesOf(d)
      ensures ok ==>
                var d := old(GetData());
                appData == Commit(old(appData),
                                  d.(data := Some(d.data.value.(categories := List(CategoriesOf(d) + [Str(NormalizeCategory(category))])))),
                                  now)
      ensures !ok ==> appData == old(appData)
      ensures backups == old(backups)
      ensures old(Valid()) ==> Valid()
    {
      if !ValidateCategory(category) {
        return false;
      }
      var data := GetData();
      if data.data.None? || !data.data.value.categories.List? {
        return false;
      }
      var normalized := Str(NormalizeCategory(category));
      var categories := CategoriesOf(data);
      if normalized in categories {
        return false;
      }
      categories := categories + [normalized];
      SaveData(data.(data := Some(data.data.value.(categories := List(categories)))), now);
      return true;
    }

    /**
     * `deleteCategory`: refuse while any record has the category (checked
     * first) or when it is not listed; otherwise remove its first occurrence and save.
     */
    method DeleteCategory(category: string, now: string) returns (ok: bool)
      modifies this
      ensures var d := old(GetData());
              ok <==> && d.data.Some? && d.data.value.records.List? && d.data.value.categories.List?
                      && (forall x :: x in RecordsOf(d) ==> x.category != Str(category))
                      && Str(category) in CategoriesOf(d)
      ensures ok ==>
                var d := old(GetData());
                var i := IndexOf(CategoriesOf(d), Str(category)).value;
                appData == Commit(old(appData), d.(data := Some(d.data.value.(categories := List(RemoveAt(CategoriesOf(d), i))))), now)
      ensures !ok ==> appData == old(appData)
      ensures backups == old(backups)
      ensures old(Valid()) ==> Valid()
    {
      var data := GetData();
      if data.data.None? || !data.data.value.records.List? {
        return false;
      }
      var related := Keep(RecordsOf(data), (x: Record) => x.category == Str(category));
      if |related| > 0 {
        assert related[0] in related;
        return false;
      }
      if !data.data.value.categories.List? {
        return false;
      }
      var categories := CategoriesOf(data);
      var index := IndexOf(categories, Str(category));
      if index.None? {
        return false;
      }
      categories := RemoveAt(categories, index.value);
      SaveData(data.(data := Some(data.data.value.(categories := List(categories)))), now);
      return true;
    }

    /** `getSettings`: `DEFAULT_SETTINGS` overridden by the stored settings. */
    function GetSettings(): (r: Settings)
      reads this
      ensures GetData().settings.Some? ==> r == Spread(DefaultSettings, GetData().settings.value)
      ensures GetData().settings.None? ==> r == DefaultSettings
      ensures DefaultSettings.Keys <= r.Keys
    {
      match GetData().settings
      case None => DefaultSettings
      case Some(stored) => Spread(DefaultSettings, stored)
    }

    /** `updateSettings`: refuse an invalid partial; otherwise spread it over the stored settings and save. */
    method UpdateSettings(partial: Settings, now: string) returns (ok: bool)
      modifies this
      ensures ok <==> ValidateSettings(partial).isValid
      ensures ok ==>
                var d := old(GetData());
                appData == Commit(old(appData), d.(settings := Some(Spread(d.settings.GetOr(map[]), partial))), now)
      ensures !ok ==> appData == old(appData)
      ensures backups == old(backups)
      ensures old(Valid()) ==> Valid()
    {
      var validation := ValidateSettings(partial);
      if !validation.isValid {
        return false;
      }
      var data := GetData();
      var current := if data.settings.Some? then data.settings.value else map[];
      SaveData(data.(settings := Some(Spread(current, partial))), now);
      return true;
    }

    /** `deleteAllData`: remove both blobs. */
    method DeleteAllData()
      modifies this
      ensures appData.None? && backups.None?
      ensures Valid()
    {
      appData := None;
      backups := None;
    }

    /** `exportData`: the document `getData` returns. */
    function ExportData(): (r: Document)
      reads this
      ensures appData.Some? ==> r == appData.value
      ensures appData.None? ==> r == DataStructure
      ensures Valid() && appData.Some? ==> IsIntact(r)
    {
      GetData()
    }

    /**
     * `importData`: `None` stands for text `JSON.parse` rejects. Anything that
     * fails the integrity check is refused; an accepted document is saved.
     */
    method ImportData(parsed: Option<Parsed>, now: string) returns (ok: bool)
      modifies this
      ensures ok <==> parsed.Some? && parsed.value.AnObject? && IsIntact(parsed.value.doc)
      ensures ok ==> appData == Some(Stamped(parsed.value.doc, now))
      ensures !ok ==> appData == old(appData)
      ensures backups == old(backups)
      ensures old(Valid()) ==> Valid()
    {
      if parsed.None? {
        return false;
      }
      var integrity := ValidateDataIntegrity(parsed.value);
      if !integrity.isValid {
        return false;
      }
      SaveData(parsed.value.doc, now);
      return true;
    }

    /** `getBackups`: the backup list, or [] when there is none. */
    function GetBackups(): (r: seq<Backup>)
      reads this
      ensures backups.Some? ==> r == backups.value
      ensures backups.None? ==> r == []
    {
      if backups.Some? then backups.value else []
    }

    /**
     * `createBackup`: push a backup of the current document and, past ten
     * entries, drop the oldest. Fails when the document has no metadata.
     */
    method CreateBackup(timestamp: string) returns (ok: bool)
      modifies this
      ensures ok <==> old(GetData()).metadata.Some?
      ensures ok ==>
                var d := old(GetData());
                backups == Some(RetainNewest(old(GetBackups()), Backup(d, timestamp, d.metadata.value.version)))
      ensures !ok ==> backups == old(backups)
      ensures ok && |old(GetBackups())| <= MaxBackups ==> |GetBackups()| <= MaxBackups
      ensures appData == old(appData)
    {
      var data := GetData();
      if data.metadata.None? {
        return false;
      }
      var backup := Backup(data, timestamp, data.metadata.value.version);
      var list := GetBackups();
      list := list + [backup];
      if |list| > MaxBackups {
        list := list[1..];
      }
      backups := Some(list);
      return true;
    }

    /** `restoreBackup`: save the document of the first backup with the timestamp; false when none has it. */
    method RestoreBackup(timestamp: string, now: string) returns (ok: bool)
      modifies this
      ensures ok <==> FindBackup(old(GetBackups()), timestamp).Some?
      ensures ok ==>
                appData == Commit(old(appData), old(GetBackups())[FindBackup(old(GetBackups()), timestamp).value].data, now)
      ensures !ok ==> appData == old(appData)
      ensures backups == old(backups)
      ensures old(Valid()) ==> Valid()
    {
      var list := GetBackups();
      var found := FindBackup(list, timestamp);
      if found.None? {
        return false;
      }
      SaveData(list[found.value].data, now);
      return true;
    }

    /** `repairData`: patch the document's shape and save it, but only when something was patched. */
    method RepairData(now: string)
      modifies this
      ensures appData == RepairCommitted(old(appData), now)
      ensures backups == old(backups)
      ensures old(Valid()) ==> Valid()
    {
      var data := GetData();
      var repaired := false;
      if data.settings.None? {
        data := data.(settings := Some(DefaultSettings));
        repaired := true;
      }
      if data.data.None? {
        data := data.(data := Some(DefaultDataSection));
        repaired := true;
      }
      if data.backup.None? {
        data := data.(backup := Some(DefaultBackupSection));
        repaired := true;
      }
      if data.metadata.None? {
        data := data.(metadata := Some(DefaultMetadata));
        repaired := true;
      }
      if !data.data.value.records.List? {
        data := data.(data := Some(data.data.value.(records := List([]))));
        repaired := true;
      }
      if !data.data.value.categories.List? {
        data := data.(data := Some(data.data.value.(categories := List(DefaultCategoryValues))));
        repaired := true;
      }
      assert data == Repaired(old(GetData()));
      assert repaired <==> Repaired(old(GetData())) != old(GetData());
      if repaired {
        SaveData(data, now);
      }
    }

    /** `getStorageInfo` without the byte size; the zeros of its error path when the lists or the metadata are missing. */
    function GetStorageInfo(): (r: StorageInfo)
      reads this
      ensures HasLists(GetData()) && GetData().metadata.Some? ==>
                r == StorageInfo(|RecordsOf(GetData())|, |CategoriesOf(GetData())|, GetData().metadata.value.lastUpdate)
      ensures !(HasLists(GetData()) && GetData().metadata.Some?) ==> r == StorageInfo(0, 0, None)
    {
      var data := GetData();
      if HasLists(data) && data.metadata.Some? then
        StorageInfo(|RecordsOf(data)|, |CategoriesOf(data)|, data.metadata.value.lastUpdate)
      else StorageInfo(0, 0, None)
    }
  }

  /** The initial document passes the integrity check. */
  lemma InitialDocumentIntact(now: string)
    ensures IsIntact(InitialDocument(now))
  {
    DataStructureIntact();
  }

  /** A new document starts with a duplicate-free category list. */
  lemma InitialCategoriesDistinct(now: string)
    ensures DistinctCategories(CategoriesOf(InitialDocument(now)))
  {
    DefaultCategoriesDistinct();
  }

  /**
   * Export followed by import of the same document on a store that satisfies
   * its invariant succeeds and leaves settings, data and backup section as they were.
   */
  method ExportImportRoundTrip(store: DataManager, now: string) returns (ok: bool)
    requires store.Valid() && store.appData.Some?
    modifies store
    ensures ok
    ensures store.appData.Some?
    ensures store.appData.value.settings == old(store.appData.value.settings)
    ensures store.appData.value.data == old(store.appData.value.data)
    ensures store.appData.value.backup == old(store.appData.value.backup)
  {
    var exported := store.ExportData();
    ok := store.ImportData(Some(AnObject(exported)), now);
  }
}
