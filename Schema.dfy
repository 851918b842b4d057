/**
 * The shape of the persisted document. Every field that arrives through
 * `JSON.parse` (an import, a restored backup, the stored blob) may hold any
 * value, so record fields are `JsValue`s and the two lists distinguish a
 * missing list from one that is present but not an array.
 */
module Schema {
  import opened Wrappers
  import opened JsRuntime

  /** One logged record. `addRecord` fills every field; an import or an update may not. */
  datatype Record = Record(
    id: JsValue,
    category: JsValue,
    value: JsValue,
    memo: JsValue,
    date: JsValue,
    createdAt: JsValue,
    updatedAt: JsValue)

  /** A property that should hold an array: missing (falsy), present but not an array, or an array. */
  datatype ListField<T> = Absent | NotList | List(items: seq<T>)

  /** Settings are a plain object, so spreading one over another is a map union. */
  type Settings = map<string, JsValue>

  /** `document.data` */
  datatype DataSection = DataSection(records: ListField<Record>, categories: ListField<JsValue>, themes: seq<JsValue>)

  /** `document.metadata` (its empty `statistics` object is never read and is not modelled). */
  datatype Metadata = Metadata(version: string, lastUpdate: Option<string>, created: Option<string>)

  /** `document.backup`: two lists the store never reads or writes. */
  datatype BackupSection = BackupSection(auto: seq<Backup>, manual: seq<Backup>)

  /** One entry of the backup list. */
  datatype Backup = Backup(data: Document, timestamp: string, version: string)

  /** The whole persisted document. `None` stands for a missing (falsy) top-level property. */
  datatype Document = Document(
    settings: Option<Settings>,
    data: Option<DataSection>,
    backup: Option<BackupSection>,
    metadata: Option<Metadata>)

  /** What `JSON.parse` produced: an object, or a value that is falsy or not an object. */
  datatype Parsed = NotAnObject | AnObject(doc: Document)
}
