/**
 * The compiled-in tables the validator and the store are parameterised by:
 * the default document, the default settings, the validation rules and the
 * error messages the validator reports.
 */
module Constants {
  import opened Wrappers
  import opened JsRuntime
  import opened Schema

  /** `DATA_STRUCTURE.metadata.version`, also written on every save. */
  const AppVersion: string := "1.0.0"

  /** The five categories every new document starts with. */
  const DefaultCategories: seq<string> := [
    "あくびの回数",
    "猫と目が合った回数",
    "冷蔵庫を開けた回数",
    "しゃっくりの回数",
    "ジャンプした数"
  ]

  /** `DATA_STRUCTURE.settings` */
  const DataStructureSettings: Settings := map[
    "theme" := Str("default"),
    "notifications" := Bool(false),
    "autoSave" := Bool(true),
    "version" := Str("1.0.0")
  ]

  /** `DATA_STRUCTURE.data`: no records, the default categories, no themes. */
  const DefaultDataSection: DataSection :=
    DataSection(List([]), List(DefaultCategoryValues), [])

  /** The default categories as stored values. */
  const DefaultCategoryValues: seq<JsValue> := [
    Str(DefaultCategories[0]),
    Str(DefaultCategories[1]),
    Str(DefaultCategories[2]),
    Str(DefaultCategories[3]),
    Str(DefaultCategories[4])
  ]

  /** `DATA_STRUCTURE.backup` */
  const DefaultBackupSection: BackupSection := BackupSection([], [])

  /** `DATA_STRUCTURE.metadata`: version 1.0.0, never updated, no creation stamp. */
  const DefaultMetadata: Metadata := Metadata(AppVersion, None, None)

  /** `DATA_STRUCTURE`: the document `getData` falls back to. */
  const DataStructure: Document :=
    Document(Some(DataStructureSettings), Some(DefaultDataSection), Some(DefaultBackupSection), Some(DefaultMetadata))

  /** `DEFAULT_SETTINGS`: what `getSettings` fills gaps from. */
  const DefaultSettings: Settings := map[
    "theme" := Str("default"),
    "notifications" := Bool(false),
    "autoSave" := Bool(true),
    "language" := Str("ja"),
    "dateFormat" := Str("YYYY-MM-DD"),
    "timeFormat" := Str("24h")
  ]

  // VALIDATION_RULES
  const CategoryMinLength: nat := 1
  const CategoryMaxLength: nat := 50
  const ValueMin: real := 0.0
  const ValueMax: real := 999999.0
  const MemoMaxLength: nat := 500
  const MinDate: string := "2020-01-01"
  const MaxDate: string := "2030-12-31"

  // ERROR_MESSAGES used by the validator
  const RequiredMessage: string := "この項目は必須です"
  const InvalidFormatMessage: string := "形式が正しくありません"
  const TooLongMessage: string := "文字数が多すぎます"
  const InvalidNumberMessage: string := "数値を入力してください"
  const InvalidDateMessage: string := "日付が正しくありません"

  /** Most backups `createBackup` keeps. */
  const MaxBackups: nat := 10
}
