/**
 * The compiled-in defaults are consistent with the validator that guards the
 * store: the default document passes the integrity check, its categories are
 * valid and distinct, the default settings pass the settings check, and the
 * rule bounds are ordered.
 */
module ConstantFacts {
  import opened Wrappers
  import opened JsRuntime
  import opened Calendar
  import opened Schema
  import opened Constants
  import opened Validation

  /** Each default category passes `validateCategory`: none has surrounding whitespace. */
  lemma DefaultCategoryValid(i: nat)
    requires i < |DefaultCategories|
    ensures ValidateCategory(Str(DefaultCategories[i]))
  {
    var s := DefaultCategories[i];
    assert forall k :: 0 <= k < |s| ==> '\U{3001}' <= s[k] <= '\U{FEFE}';
    WideTextCategoryValid(s);
  }

  /**
   * A name of two to fifty kana or CJK ideographs passes `validateCategory`:
   * those characters lie between the ideographic space and the byte order
   * mark, so none is whitespace or a line terminator.
   */
  lemma WideTextCategoryValid(s: string)
    requires 2 <= |s| <= CategoryMaxLength
    requires forall k :: 0 <= k < |s| ==> '\U{3001}' <= s[k] <= '\U{FEFE}'
    ensures ValidateCategory(Str(s))
  {
    assert !IsWhitespace(s[0]) && !IsWhitespace(s[|s| - 1]);
    NoWhitespaceTrims(s);
    assert NoLineTerminator(s);
  }

  /** Every stored default category passes `validateCategory`. */
  lemma DefaultCategoriesValid()
    ensures forall c :: c in DefaultCategoryValues ==> ValidateCategory(c)
  {
    forall i | 0 <= i < |DefaultCategoryValues|
      ensures ValidateCategory(DefaultCategoryValues[i])
    {
      assert DefaultCategoryValues[i] == Str(DefaultCategories[i]);
      DefaultCategoryValid(i);
    }
  }

  /** The five default categories are pairwise distinct. */
  lemma DefaultCategoriesDistinct()
    ensures forall i, j :: 0 <= i < j < |DefaultCategoryValues| ==> DefaultCategoryValues[i] != DefaultCategoryValues[j]
  {
  }

  /**
   * `DATA_STRUCTURE` has all four required properties, no records and an
   * array of categories, and `validateDataIntegrity` reports no issue for it.
   */
  lemma DataStructureIntact()
    ensures DataStructure.settings.Some? && DataStructure.data.Some?
    ensures DataStructure.backup.Some? && DataStructure.metadata.Some?
    ensures DataStructure.data.value.records == List([])
    ensures DataStructure.data.value.categories.List?
    ensures IsIntact(DataStructure)
    ensures ValidateDataIntegrity(AnObject(DataStructure)) == IntegrityReport(true, [])
  {
    DefaultCategoriesValid();
  }

  /** `DATA_STRUCTURE.settings` passes `validateSettings`. */
  lemma DataStructureSettingsValid()
    ensures ValidateSettings(DataStructureSettings).isValid
  {
    assert Get(DataStructureSettings, "theme") == Str("default");
    assert Get(DataStructureSettings, "notifications") == Bool(false);
    assert Get(DataStructureSettings, "autoSave") == Bool(true);
  }

  /** `DEFAULT_SETTINGS` passes `validateSettings`. */
  lemma DefaultSettingsValid()
    ensures ValidateSettings(DefaultSettings).isValid
  {
    assert Get(DefaultSettings, "theme") == Str("default");
    assert Get(DefaultSettings, "notifications") == Bool(false);
    assert Get(DefaultSettings, "autoSave") == Bool(true);
  }

  /** The validation rules describe non-empty ranges, and the date bounds parse to ordered days. */
  lemma RuleBoundsConsistent()
    ensures CategoryMinLength <= CategoryMaxLength
    ensures ValueMin <= ValueMax
    ensures 0 < MemoMaxLength
    ensures ParseIsoDate(MinDate).Some? && ParseIsoDate(MaxDate).Some?
    ensures NotAfter(ParseIsoDate(MinDate).value, ParseIsoDate(MaxDate).value)
    ensures ValidateDate(Str(MinDate)) && ValidateDate(Str(MaxDate))
  {
    DateBoundsParse();
  }
}
