/**
 * The validator: strict field checks, lenient normalisers, the date
 * formatter, the two field-by-field error collectors and the whole-document
 * integrity check. All of it is pure.
 */
module Validation {
  import opened Wrappers
  import opened JsRuntime
  import opened Calendar
  import opened Schema
  import opened Constants

  // ---------------------------------------------------------------------------
  // Field checks

  /** No character of `t` is a line terminator (what `.` in a pattern cannot match). */
  predicate NoLineTerminator(t: string) {
    forall i :: 0 <= i < |t| ==> !IsLineTerminator(t[i])
  }

  /** The category pattern `/^[^\s].*[^\s]$/`. */
  predicate MatchesCategoryPattern(t: string) {
    && |t| >= 2
    && !IsWhitespace(t[0])
    && !IsWhitespace(t[|t| - 1])
    && forall i :: 1 <= i < |t| - 1 ==> !IsLineTerminator(t[i])
  }

  /**
   * `validateCategory`: a non-empty string whose trimmed form is 1 to 50
   * characters long and matches the category pattern. The pattern needs two
   * characters, so a one-character category is refused; outer padding is
   * tolerated because only the trimmed form is tested.
   */
  function ValidateCategory(category: JsValue): (ok: bool)
    ensures ok <==> category.Str? && 2 <= |Trim(category.s)| <= CategoryMaxLength && NoLineTerminator(Trim(category.s))
  {
    if !Truthy(category) || !category.Str? then false
    else
      var trimmed := Trim(category.s);
      PatternOnTrimmed(trimmed);
      if |trimmed| < CategoryMinLength || |trimmed| > CategoryMaxLength then false
      else if !MatchesCategoryPattern(trimmed) then false
      else true
  }

  /** On a string with no outer whitespace, the category pattern asks for two characters and no line break. */
  lemma PatternOnTrimmed(t: string)
    requires t == [] || (!IsWhitespace(t[0]) && !IsWhitespace(t[|t| - 1]))
    ensures MatchesCategoryPattern(t) <==> |t| >= 2 && NoLineTerminator(t)
  {
    if |t| >= 2 && MatchesCategoryPattern(t) {
      forall i | 0 <= i < |t| ensures !IsLineTerminator(t[i]) {
        if i == 0 || i == |t| - 1 {
          assert !IsWhitespace(t[i]);
        }
      }
    }
  }

  /** `validateValue`: not null or undefined, and `Number(value)` lies in [0, 999999]. */
  function ValidateValue(value: JsValue): (ok: bool)
    ensures ok <==> && !value.Null? && !value.Undefined?
                    && ToNumber(value).Finite?
                    && ValueMin <= ToNumber(value).r <= ValueMax
  {
    if value.Null? || value.Undefined? then false
    else
      var n := ToNumber(value);
      if n.NaN? then false
      else if Below(n, ValueMin) || Above(n, ValueMax) then false
      else true
  }

  /** `validateMemo`: anything that is not a string passes; a string must be at most 500 characters. */
  function ValidateMemo(memo: JsValue): (ok: bool)
    ensures ok <==> (memo.Str? ==> |memo.s| <= MemoMaxLength)
  {
    if !Truthy(memo) || !memo.Str? then true
    else |memo.s| <= MemoMaxLength
  }

  /** The first and the last day `validateDate` accepts. */
  const FirstDay: CalendarDate := CalendarDate(2020, 1, 1)
  const LastDay: CalendarDate := CalendarDate(2030, 12, 31)

  /** The two rule strings denote `FirstDay` and `LastDay`. */
  lemma DateBoundsParse()
    ensures ParseIsoDate(MinDate) == Some(FirstDay)
    ensures ParseIsoDate(MaxDate) == Some(LastDay)
  {
    assert HasIsoDateShape(MinDate) && HasIsoDateShape(MaxDate);
    assert MinDate[..4] == "2020";
    assert MinDate[5..7] == "01";
    assert MinDate[8..] == "01";
    assert MaxDate[..4] == "2030";
    assert MaxDate[5..7] == "12";
    assert MaxDate[8..] == "31";
    assert DigitsToNat("2020") == 2020 by {
      assert "2020"[..3] == "202" && "202"[..2] == "20" && "20"[..1] == "2" && "2"[..0] == [];
    }
    assert DigitsToNat("2030") == 2030 by {
      assert "2030"[..3] == "203" && "203"[..2] == "20" && "20"[..1] == "2" && "2"[..0] == [];
    }
    assert DigitsToNat("01") == 1 by {
      assert "01"[..1] == "0" && "0"[..0] == [];
    }
    assert DigitsToNat("12") == 12 by {
      assert "12"[..1] == "1" && "1"[..0] == [];
    }
    assert DigitsToNat("31") == 31 by {
      assert "31"[..1] == "3" && "3"[..0] == [];
    }
  }

  /**
   * `validateDate`: a string of the shape `YYYY-MM-DD` that names a day of the
   * calendar between 2020-01-01 and 2030-12-31, both included.
   */
  function ValidateDate(date: JsValue): (ok: bool)
    ensures ok <==> && date.Str?
                    && ParseIsoDate(date.s).Some?
                    && NotAfter(FirstDay, ParseIsoDate(date.s).value)
                    && NotAfter(ParseIsoDate(date.s).value, LastDay)
  {
    DateBoundsParse();
    if !Truthy(date) || !date.Str? then false
    else if !HasIsoDateShape(date.s) then false
    else
      match ParseIsoDate(date.s)
      case None => false
      case Some(d) =>
        match (ParseIsoDate(MinDate), ParseIsoDate(MaxDate))
        case (Some(lo), Some(hi)) => NotAfter(lo, d) && NotAfter(d, hi)
        case _ => false
  }

  // ---------------------------------------------------------------------------
  // validateRecord

  datatype RecordField = CategoryField | ValueField | MemoField | DateField

  /** `{ isValid, errors }` of `validateRecord`. */
  datatype RecordCheck = RecordCheck(isValid: bool, errors: map<RecordField, string>)

  /**
   * `validateRecord`: every field is checked, with no short-circuit, so the
   * error keys are exactly the failing fields. Memo and date are checked only
   * when truthy, so a record without a date is not refused for it.
   */
  function ValidateRecord(record: Record): (r: RecordCheck)
    ensures r.isValid <==> r.errors == map[]
    ensures CategoryField in r.errors <==> !ValidateCategory(record.category)
    ensures ValueField in r.errors <==> !ValidateValue(record.value)
    ensures MemoField in r.errors <==> record.memo.Str? && |record.memo.s| > MemoMaxLength
    ensures DateField in r.errors <==> Truthy(record.date) && !ValidateDate(record.date)
    ensures CategoryField in r.errors ==> r.errors[CategoryField] == RequiredMessage
    ensures ValueField in r.errors ==> r.errors[ValueField] == InvalidNumberMessage
    ensures MemoField in r.errors ==> r.errors[MemoField] == TooLongMessage
    ensures DateField in r.errors ==> r.errors[DateField] == InvalidDateMessage
  {
    var badMemo := Truthy(record.memo) && !ValidateMemo(record.memo);
    assert badMemo <==> record.memo.Str? && |record.memo.s| > MemoMaxLength;
    var errors := RecordErrors(
      !ValidateCategory(record.category),
      !ValidateValue(record.value),
      badMemo,
      Truthy(record.date) && !ValidateDate(record.date));
    RecordCheck(|errors.Keys| == 0, errors)
  }

  /** The `errors` object `validateRecord` fills, given which of the four checks failed. */
  function RecordErrors(badCategory: bool, badValue: bool, badMemo: bool, badDate: bool): (e: map<RecordField, string>)
    ensures CategoryField in e <==> badCategory
    ensures ValueField in e <==> badValue
    ensures MemoField in e <==> badMemo
    ensures DateField in e <==> badDate
    ensures CategoryField in e ==> e[CategoryField] == RequiredMessage
    ensures ValueField in e ==> e[ValueField] == InvalidNumberMessage
    ensures MemoField in e ==> e[MemoField] == TooLongMessage
    ensures DateField in e ==> e[DateField] == InvalidDateMessage
    ensures |e.Keys| == 0 <==> e == map[]
  {
    var e0: map<RecordField, string> := map[];
    var e1 := if badCategory then e0[CategoryField := RequiredMessage] else e0;
    var e2 := if badValue then e1[ValueField := InvalidNumberMessage] else e1;
    var e3 := if badMemo then e2[MemoField := TooLongMessage] else e2;
    var e4 := if badDate then e3[DateField := InvalidDateMessage] else e3;
    assert |e4.Keys| == 0 <==> e4 == map[] by {
      if |e4.Keys| == 0 {
        assert e4.Keys == {};
      }
    }
    e4
  }

  /** The position at which `validateRecord` inserts a field's error. */
  function FieldOrder(f: RecordField): nat {
    match f
    case CategoryField => 0
    case ValueField => 1
    case MemoField => 2
    case DateField => 3
  }

  /** The fields of `fields` that carry an error, in the order of `fields`. */
  function KeysIn(errors: map<RecordField, string>, fields: seq<RecordField>): (ks: seq<RecordField>)
    requires forall k, l :: 0 <= k < l < |fields| ==> FieldOrder(fields[k]) < FieldOrder(fields[l])
    ensures forall f :: f in ks <==> f in errors && f in fields
    ensures forall k, l :: 0 <= k < l < |ks| ==> FieldOrder(ks[k]) < FieldOrder(ks[l])
  {
    if fields == [] then []
    else
      var rest := KeysIn(errors, fields[1..]);
      assert forall k :: 0 <= k < |rest| ==> FieldOrder(fields[0]) < FieldOrder(rest[k]) by {
        forall k | 0 <= k < |rest| ensures FieldOrder(fields[0]) < FieldOrder(rest[k]) {
          assert rest[k] in fields[1..];
        }
      }
      if fields[0] in errors then [fields[0]] + rest else rest
  }

  /** The failing fields of a check, each once, in the order `validateRecord` inserts them. */
  function ErrorKeys(errors: map<RecordField, string>): (ks: seq<RecordField>)
    ensures forall f :: f in ks <==> f in errors
    ensures forall k, l :: 0 <= k < l < |ks| ==> FieldOrder(ks[k]) < FieldOrder(ks[l])
  {
    var fields := [CategoryField, ValueField, MemoField, DateField];
    assert forall f: RecordField :: f in fields by {
      forall f: RecordField ensures f in fields {
        assert f.CategoryField? || f.ValueField? || f.MemoField? || f.DateField?;
      }
    }
    KeysIn(errors, fields)
  }

  /** `Object.values(errors)`: one message per failing field, in insertion order. */
  function ErrorMessages(check: RecordCheck): (msgs: seq<string>)
    ensures msgs == [] <==> check.errors == map[]
    ensures |msgs| == |ErrorKeys(check.errors)|
    ensures forall k :: 0 <= k < |msgs| ==> msgs[k] == check.errors[ErrorKeys(check.errors)[k]]
  {
    var ks := ErrorKeys(check.errors);
    assert check.errors != map[] ==> ks != [] by {
      if check.errors != map[] {
        var f :| f in check.errors;
        assert f in ks;
      }
    }
    assert ks != [] ==> check.errors != map[] by {
      if ks != [] {
        assert ks[0] in ks;
      }
    }
    seq(|ks|, k requires 0 <= k < |ks| => check.errors[ks[k]])
  }

  // ---------------------------------------------------------------------------
  // validateSettings

  datatype SettingsField = ThemeField | NotificationsField | AutoSaveField

  /** `{ isValid, errors }` of `validateSettings`. */
  datatype SettingsCheck = SettingsCheck(isValid: bool, errors: map<SettingsField, string>)

  /** The themes `validateSettings` accepts. */
  const ValidThemes: seq<string> := ["default", "dark", "retro", "minimal"]

  /** `settings[key]`: undefined when the key is absent. */
  function Get(settings: Settings, key: string): JsValue {
    if key in settings then settings[key] else Undefined
  }

  /**
   * `validateSettings`: a truthy theme must be one of the four themes, and
   * `notifications` and `autoSave` must be booleans unless undefined (so
   * `null` is refused). An empty partial is valid.
   */
  function ValidateSettings(settings: Settings): (r: SettingsCheck)
    ensures r.isValid <==> r.errors == map[]
    ensures ThemeField in r.errors <==>
              Truthy(Get(settings, "theme")) && !(Get(settings, "theme").Str? && Get(settings, "theme").s in ValidThemes)
    ensures NotificationsField in r.errors <==>
              !Get(settings, "notifications").Undefined? && !Get(settings, "notifications").Bool?
    ensures AutoSaveField in r.errors <==>
              !Get(settings, "autoSave").Undefined? && !Get(settings, "autoSave").Bool?
    ensures forall f :: f in r.errors ==> r.errors[f] == InvalidFormatMessage
  {
    var theme := Get(settings, "theme");
    var notifications := Get(settings, "notifications");
    var autoSave := Get(settings, "autoSave");
    var e0: map<SettingsField, string> := map[];
    var e1 := if Truthy(theme) && !(theme.Str? && theme.s in ValidThemes) then e0[ThemeField := InvalidFormatMessage] else e0;
    var e2 := if !notifications.Undefined? && !notifications.Bool? then e1[NotificationsField := InvalidFormatMessage] else e1;
    var e3 := if !autoSave.Undefined? && !autoSave.Bool? then e2[AutoSaveField := InvalidFormatMessage] else e2;
    assert |e3.Keys| == 0 <==> e3 == map[] by {
      if |e3.Keys| == 0 {
        assert e3.Keys == {};
      }
    }
    SettingsCheck(|e3.Keys| == 0, e3)
  }

  // ---------------------------------------------------------------------------
  // Normalisers

  /** `normalizeCategory`: the trimmed string, or '' for a falsy or non-string input. */
  function NormalizeCategory(category: JsValue): (r: string)
    ensures r == [] || (!IsWhitespace(r[0]) && !IsWhitespace(r[|r| - 1]))
    ensures category.Str? ==> r == Trim(category.s)
    ensures !category.Str? ==> r == ""
  {
    if !Truthy(category) || !category.Str? then "" else Trim(category.s)
  }

  /** `normalizeMemo`: the trimmed string, or '' for a falsy or non-string input. */
  function NormalizeMemo(memo: JsValue): (r: string)
    ensures r == [] || (!IsWhitespace(r[0]) && !IsWhitespace(r[|r| - 1]))
    ensures memo.Str? ==> r == Trim(memo.s)
    ensures !memo.Str? ==> r == ""
  {
    if !Truthy(memo) || !memo.Str? then "" else Trim(memo.s)
  }

  /**
   * `normalizeValue`: `Math.max(0, Math.floor(Number(value)))`, and 0 for
   * null, undefined and NaN. The result is never negative and never NaN; on a
   * value `validateValue` accepts it is the integer part, still in range.
   */
  function NormalizeValue(value: JsValue): (r: Number)
    ensures r.Finite? || r == Infinity(false)
    ensures r.Finite? ==> r.r >= 0.0 && r.r == r.r.Floor as real
    ensures ValidateValue(value) ==>
              r.Finite? && ToNumber(value).r - 1.0 < r.r <= ToNumber(value).r && ValueMin <= r.r <= ValueMax
    ensures value.Null? || value.Undefined? || ToNumber(value).NaN? ==> r == Finite(0.0)
    ensures ToNumber(value).Finite? && ToNumber(value).r < 0.0 ==> r == Finite(0.0)
    ensures ToNumber(value).Finite? && ToNumber(value).r >= 0.0 ==>
              r.Finite? && r.r <= ToNumber(value).r < r.r + 1.0
    ensures ToNumber(value) == Infinity(true) ==> r == Finite(0.0)
    ensures ToNumber(value) == Infinity(false) ==> r == Infinity(false)
  {
    if value.Null? || value.Undefined? then Finite(0.0)
    else
      match ToNumber(value)
      case NaN => Finite(0.0)
      case Finite(x) => Finite(if x.Floor < 0 then 0.0 else x.Floor as real)
      case Infinity(negative) => if negative then Finite(0.0) else Infinity(false)
  }

  /** `String(n).padStart(2, '0')` */
  function Pad2(n: nat): (s: string)
    ensures n < 100 ==> |s| == 2 && AllDigits(s) && DigitsToNat(s) == n
  {
    var t := NatToString(n);
    if |t| < 2 then
      assert DigitsToNat("0" + t) == n by {
        assert ("0" + t)[..1] == "0" && "0"[..0] == [];
      }
      "0" + t
    else
      NatToStringShort(n);
      t
  }

  /** A number below 100 has at most two digits. */
  lemma NatToStringShort(n: nat)
    ensures n < 100 ==> |NatToString(n)| <= 2
  {
  }

  /** `formatDate`: the year unpadded, then zero-padded month and zero-padded day, joined by '-'. */
  function FormatDate(d: CalendarDate): (s: string)
    ensures |s| >= 1 && (s[0] == '0') == (d.year == 0)
    ensures d.month < 100 && d.day < 100 ==>
              && |s| >= 7 && s[|s| - 6] == '-' && s[|s| - 3] == '-'
              && AllDigits(s[..|s| - 6]) && AllDigits(s[|s| - 5..|s| - 3]) && AllDigits(s[|s| - 2..])
              && DigitsToNat(s[..|s| - 6]) == d.year
              && DigitsToNat(s[|s| - 5..|s| - 3]) == d.month
              && DigitsToNat(s[|s| - 2..]) == d.day
  {
    var y, m, dd := NatToString(d.year), Pad2(d.month), Pad2(d.day);
    var s := y + "-" + m + "-" + dd;
    if d.month < 100 && d.day < 100 then
      assert s[..|s| - 6] == y && s[|s| - 5..|s| - 3] == m && s[|s| - 2..] == dd;
      s
    else
      s
  }

  /** The four-digit years are exactly those `String(year)` writes with four digits. */
  lemma FourDigitYear(y: nat)
    requires 1000 <= y <= 9999
    ensures |NatToString(y)| == 4
  {
    var a := y / 10;
    var b := a / 10;
    var c := b / 10;
    assert NatToString(y) == NatToString(a) + [DigitChar(y % 10)];
    assert NatToString(a) == NatToString(b) + [DigitChar(a % 10)];
    assert NatToString(b) == NatToString(c) + [DigitChar(b % 10)];
  }

  /** Formatting a day with a four-digit year and reading it back gives the same day. */
  lemma {:induction false} FormatThenParse(d: CalendarDate)
    requires IsValidDate(d) && 1000 <= d.year <= 9999
    ensures ParseIsoDate(FormatDate(d)) == Some(d)
  {
    var y := NatToString(d.year);
    var m := Pad2(d.month);
    var dd := Pad2(d.day);
    FourDigitYear(d.year);
    var s := FormatDate(d);
    assert s == y + "-" + m + "-" + dd;
    assert s[..4] == y && s[5..7] == m && s[8..] == dd;
    assert s[4] == '-' && s[7] == '-';
    assert HasIsoDateShape(s);
    assert DateFields(s) == d;
  }

  /** A digit string's value is its head digit's weight plus the value of its tail. */
  lemma {:induction false} DigitsSplit(a: string, b: string)
    requires AllDigits(a) && AllDigits(b)
    ensures AllDigits(a + b)
    ensures DigitsToNat(a + b) == DigitsToNat(a) * Pow10(|b|) + DigitsToNat(b)
  {
    if b != [] {
      var init := b[..|b| - 1];
      assert (a + b)[..|a + b| - 1] == a + init;
      assert (a + b)[|a + b| - 1] == b[|b| - 1];
      DigitsSplit(a, init);
      var d := DigitValue(b[|b| - 1]);
      assert DigitsToNat(a + b) == DigitsToNat(a + init) * 10 + d;
      assert DigitsToNat(b) == DigitsToNat(init) * 10 + d;
      assert Pow10(|b|) == Pow10(|init|) * 10;
      ShiftDigit(DigitsToNat(a), Pow10(|init|), DigitsToNat(init), d);
    } else {
      assert a + b == a;
    }
  }

  /** Appending a digit to `x` shifted left by `p` places and then `y`. */
  lemma ShiftDigit(x: nat, p: nat, y: nat, d: nat)
    ensures (x * p + y) * 10 + d == x * (p * 10) + (y * 10 + d)
  {
  }

  /** Two digits, written back with `Pad2`, give the same two characters. */
  lemma Pad2OfDigits(t: string)
    requires |t| == 2 && AllDigits(t)
    ensures Pad2(DigitsToNat(t)) == t
  {
    var n := DigitsToNat(t);
    assert t == [t[0]] + [t[1]];
    DigitsSplit([t[0]], [t[1]]);
    assert [t[0]][..0] == [] && [t[1]][..0] == [];
    assert n == DigitValue(t[0]) * 10 + DigitValue(t[1]);
    if t[0] == '0' {
      assert n < 10;
      assert NatToString(n) == [DigitChar(n)];
      assert "0" + [DigitChar(n)] == t;
    } else {
      NatToStringOfDigits(t);
    }
  }

  /** A `YYYY-MM-DD` string with a year of 1000 or more is what `formatDate` writes for its day. */
  lemma {:induction false} ParseThenFormat(s: string)
    requires ParseIsoDate(s).Some? && ParseIsoDate(s).value.year >= 1000
    ensures FormatDate(ParseIsoDate(s).value) == s
  {
    var d := ParseIsoDate(s).value;
    var yy := s[..4];
    assert yy[0] != '0' by {
      if yy[0] == '0' {
        assert yy == [yy[0]] + yy[1..];
        DigitsSplit([yy[0]], yy[1..]);
        assert [yy[0]][..0] == [];
        DigitsBound(yy[1..]);
      }
    }
    NatToStringOfDigits(yy);
    Pad2OfDigits(s[5..7]);
    Pad2OfDigits(s[8..]);
    assert s == s[..4] + "-" + s[5..7] + "-" + s[8..];
  }

  /**
   * `normalizeDate`: a falsy or non-string date, or a string that is not a
   * calendar day, becomes `today`; a calendar day is re-formatted, which leaves
   * every date `validateDate` accepts as it was.
   */
  function NormalizeDate(date: JsValue, today: string): (r: string)
    ensures ValidateDate(date) ==> r == date.s
    ensures !Truthy(date) || !date.Str? ==> r == today
    ensures date.Str? && ParseIsoDate(date.s).None? ==> r == today
  {
    if !Truthy(date) then today
    else if date.Str? then
      match ParseIsoDate(date.s)
      case Some(d) =>
        if d.year >= 1000 then
          ParseThenFormat(date.s);
          FormatDate(d)
        else
          FormatDate(d)
      case None => today
    else today
  }

  /** Whitespace around a category never changes the verdict on it. */
  lemma CategoryPaddingIgnored(p: string, t: string, q: string)
    requires AllWhitespace(p) && AllWhitespace(q)
    requires t != [] && !IsWhitespace(t[0]) && !IsWhitespace(t[|t| - 1])
    ensures ValidateCategory(Str(p + t + q)) == ValidateCategory(Str(t))
  {
    TrimPadding(p, t, q);
    NoWhitespaceTrims(t);
  }

  /** `normalizeCategory` is idempotent, and the category it returns for an accepted one is still accepted. */
  lemma NormalizeCategoryStable(category: JsValue)
    ensures NormalizeCategory(Str(NormalizeCategory(category))) == NormalizeCategory(category)
    ensures ValidateCategory(category) ==> ValidateCategory(Str(NormalizeCategory(category)))
  {
    var t := NormalizeCategory(category);
    if t != [] {
      assert category.Str? && t == Trim(category.s);
      TrimIdempotent(category.s);
      assert Trim(t) == t;
      assert Truthy(Str(t));
      assert NormalizeCategory(Str(t)) == t;
    } else {
      assert NormalizeCategory(Str(t)) == "";
    }
  }

  /** `normalizeMemo` is idempotent, and a memo `validateMemo` accepts stays accepted. */
  lemma NormalizeMemoStable(memo: JsValue)
    ensures NormalizeMemo(Str(NormalizeMemo(memo))) == NormalizeMemo(memo)
    ensures ValidateMemo(memo) ==> ValidateMemo(Str(NormalizeMemo(memo)))
  {
    var t := NormalizeMemo(memo);
    if t != [] {
      assert memo.Str? && t == Trim(memo.s);
      TrimIdempotent(memo.s);
      assert Trim(t) == t;
      assert Truthy(Str(t));
      assert NormalizeMemo(Str(t)) == t;
    } else {
      assert NormalizeMemo(Str(t)) == "";
    }
  }

  /** `normalizeValue` applied to its own result changes nothing. */
  lemma NormalizeValueIdempotent(value: JsValue)
    ensures NormalizeValue(Num(NormalizeValue(value))) == NormalizeValue(value)
  {
  }

  /**
   * `normalizeDate` applied to its own result changes nothing, provided
   * `today` and any calendar day given have four-digit years (a shorter year
   * is written with fewer digits and no longer reads back as a date).
   */
  lemma NormalizeDateIdempotent(date: JsValue, today: string)
    requires ParseIsoDate(today).Some? && ParseIsoDate(today).value.year >= 1000
    requires date.Str? && ParseIsoDate(date.s).Some? ==> ParseIsoDate(date.s).value.year >= 1000
    ensures NormalizeDate(Str(NormalizeDate(date, today)), today) == NormalizeDate(date, today)
  {
    var r := NormalizeDate(date, today);
    if Truthy(date) && date.Str? && ParseIsoDate(date.s).Some? {
      ParseThenFormat(date.s);
      assert r == date.s;
    } else {
      assert r == today;
      ParseThenFormat(today);
    }
  }

  // ---------------------------------------------------------------------------
  // validateDataIntegrity

  /** One problem `validateDataIntegrity` reports; indices are 0-based. */
  datatype Issue =
    | NotAnObjectIssue
    | MissingField(field: RequiredField)
    | RecordsNotArray
    | InvalidRecord(index: nat, messages: seq<string>)
    | CategoriesNotArray
    | InvalidCategory(index: nat)

  /** The entries of `requiredFields`: `['settings', 'data', 'backup', 'metadata']`. */
  datatype RequiredField = RequiredSettings | RequiredData | RequiredBackup | RequiredMetadata

  /** `{ isValid, issues }` of `validateDataIntegrity`. */
  datatype IntegrityReport = IntegrityReport(isValid: bool, issues: seq<Issue>)

  /** The position of a required property in `requiredFields`. */
  function RequiredRank(field: RequiredField): nat {
    match field
    case RequiredSettings => 0
    case RequiredData => 1
    case RequiredBackup => 2
    case RequiredMetadata => 3
  }

  /** One issue for each of the four required properties that is missing, in their fixed order. */
  function MissingFieldIssues(doc: Document): (r: seq<Issue>)
    ensures forall k :: 0 <= k < |r| ==> r[k].MissingField?
    ensures forall k, l :: 0 <= k < l < |r| ==> RequiredRank(r[k].field) < RequiredRank(r[l].field)
    ensures MissingField(RequiredSettings) in r <==> doc.settings.None?
    ensures MissingField(RequiredData) in r <==> doc.data.None?
    ensures MissingField(RequiredBackup) in r <==> doc.backup.None?
    ensures MissingField(RequiredMetadata) in r <==> doc.metadata.None?
  {
    (if doc.settings.None? then [MissingField(RequiredSettings)] else [])
    + (if doc.data.None? then [MissingField(RequiredData)] else [])
    + (if doc.backup.None? then [MissingField(RequiredBackup)] else [])
    + (if doc.metadata.None? then [MissingField(RequiredMetadata)] else [])
  }

  /** One issue per record that `validateRecord` refuses, in index order, carrying that record's messages. */
  function RecordIssues(records: seq<Record>): (r: seq<Issue>)
    ensures forall k :: 0 <= k < |r| ==>
              r[k].InvalidRecord? && r[k].index < |records| && !ValidateRecord(records[r[k].index]).isValid
    ensures forall k, l :: 0 <= k < l < |r| ==> r[k].index < r[l].index
    ensures forall j :: 0 <= j < |records| && !ValidateRecord(records[j]).isValid ==> ReportsRecord(r, j)
  {
    CheckIssuesFrom(RecordChecks(records), 0)
  }

  /** `validateRecord` of each record, in order. */
  function RecordChecks(records: seq<Record>): (checks: seq<RecordCheck>)
    ensures |checks| == |records|
    ensures forall j :: 0 <= j < |records| ==> checks[j] == ValidateRecord(records[j])
  {
    if records == [] then [] else [ValidateRecord(records[0])] + RecordChecks(records[1..])
  }

  /** The `forEach` over the record checks from index `i` on: one issue, with its messages, per failed check. */
  function CheckIssuesFrom(checks: seq<RecordCheck>, i: nat): (r: seq<Issue>)
    requires i <= |checks|
    ensures forall k :: 0 <= k < |r| ==> r[k].InvalidRecord? && i <= r[k].index < |checks| && !checks[r[k].index].isValid
    ensures forall k, l :: 0 <= k < l < |r| ==> r[k].index < r[l].index
    ensures forall j :: i <= j < |checks| && !checks[j].isValid ==> ReportsRecord(r, j)
    decreases |checks| - i
  {
    if i == |checks| then []
    else
      var rest := CheckIssuesFrom(checks, i + 1);
      if checks[i].isValid then rest
      else
        var r := [CheckIssue(i, checks[i])] + rest;
        ConsReports(r[0], rest);
        r
  }

  /** The issue for the record at `index`: the index and the messages of its check. */
  function CheckIssue(index: nat, check: RecordCheck): (r: Issue)
    ensures r.InvalidRecord? && r.index == index
  {
    InvalidRecord(index, ErrorMessages(check))
  }

  /** Some issue of `r` is about record `j`. */
  predicate ReportsRecord(r: seq<Issue>, j: nat) {
    exists k :: 0 <= k < |r| && r[k].InvalidRecord? && r[k].index == j
  }

  /** Some issue of `r` is about category `j`. */
  predicate ReportsCategory(r: seq<Issue>, j: nat) {
    exists k :: 0 <= k < |r| && r[k].InvalidCategory? && r[k].index == j
  }

  /** Putting an issue in front keeps every index reported and adds its own. */
  lemma ConsReports(x: Issue, rest: seq<Issue>)
    ensures forall j :: ReportsRecord(rest, j) ==> ReportsRecord([x] + rest, j)
    ensures forall j :: ReportsCategory(rest, j) ==> ReportsCategory([x] + rest, j)
    ensures x.InvalidRecord? ==> ReportsRecord([x] + rest, x.index)
    ensures x.InvalidCategory? ==> ReportsCategory([x] + rest, x.index)
  {
    var r := [x] + rest;
    assert r[0] == x;
    forall j | ReportsRecord(rest, j) ensures ReportsRecord(r, j) {
      var k :| 0 <= k < |rest| && rest[k].InvalidRecord? && rest[k].index == j;
      assert r[k + 1] == rest[k];
    }
    forall j | ReportsCategory(rest, j) ensures ReportsCategory(r, j) {
      var k :| 0 <= k < |rest| && rest[k].InvalidCategory? && rest[k].index == j;
      assert r[k + 1] == rest[k];
    }
  }

  /** One issue per entry of the category list that `validateCategory` refuses, in index order. */
  function CategoryIssues(categories: seq<JsValue>): (r: seq<Issue>)
    ensures forall k :: 0 <= k < |r| ==>
              r[k].InvalidCategory? && r[k].index < |categories| && !ValidateCategory(categories[r[k].index])
    ensures forall k, l :: 0 <= k < l < |r| ==> r[k].index < r[l].index
    ensures forall j :: 0 <= j < |categories| && !ValidateCategory(categories[j]) ==> ReportsCategory(r, j)
  {
    CategoryIssuesFrom(categories, 0)
  }

  /** The `forEach` over the categories from index `i` on: one issue per entry `validateCategory` refuses. */
  function CategoryIssuesFrom(categories: seq<JsValue>, i: nat): (r: seq<Issue>)
    requires i <= |categories|
    ensures forall k :: 0 <= k < |r| ==>
              r[k].InvalidCategory? && i <= r[k].index < |categories| && !ValidateCategory(categories[r[k].index])
    ensures forall k, l :: 0 <= k < l < |r| ==> r[k].index < r[l].index
    ensures forall j :: i <= j < |categories| && !ValidateCategory(categories[j]) ==> ReportsCategory(r, j)
    decreases |categories| - i
  {
    if i == |categories| then []
    else
      var rest := CategoryIssuesFrom(categories, i + 1);
      if ValidateCategory(categories[i]) then rest
      else
        var r := [InvalidCategory(i)] + rest;
        ConsReports(r[0], rest);
        r
  }

  /** The issues about `data.records`; none when `data` or `data.records` is missing. */
  function RecordListIssues(doc: Document): seq<Issue> {
    match doc.data
    case None => []
    case Some(section) =>
      match section.records
      case Absent => []
      case NotList => [RecordsNotArray]
      case List(records) => RecordIssues(records)
  }

  /** The issues about `data.categories`; none when `data` or `data.categories` is missing. */
  function CategoryListIssues(doc: Document): seq<Issue> {
    match doc.data
    case None => []
    case Some(section) =>
      match section.categories
      case Absent => []
      case NotList => [CategoriesNotArray]
      case List(categories) => CategoryIssues(categories)
  }

  /**
   * A document the integrity check accepts, stated directly: the four
   * properties are present, a present record list is an array of valid
   * records, and a present category list is an array of valid categories.
   */
  predicate IsIntact(doc: Document) {
    && doc.settings.Some? && doc.data.Some? && doc.backup.Some? && doc.metadata.Some?
    && !doc.data.value.records.NotList?
    && !doc.data.value.categories.NotList?
    && (doc.data.value.records.List? ==>
          forall r :: r in doc.data.value.records.items ==> ValidateRecord(r).isValid)
    && (doc.data.value.categories.List? ==>
          forall c :: c in doc.data.value.categories.items ==> ValidateCategory(c))
  }

  /**
   * `validateDataIntegrity`: a value that is not an object gets exactly one
   * issue; an object gets one issue per missing required property, per record
   * or category list that is not an array, per invalid record and per invalid
   * category. It is valid exactly when there is no issue, which is exactly
   * when the document is intact.
   */
  function ValidateDataIntegrity(value: Parsed): (r: IntegrityReport)
    ensures r.isValid <==> r.issues == []
    ensures value.NotAnObject? ==> r.issues == [NotAnObjectIssue]
    ensures value.AnObject? ==> (r.isValid <==> IsIntact(value.doc))
    ensures value.AnObject? ==>
              r.issues == MissingFieldIssues(value.doc) + RecordListIssues(value.doc) + CategoryListIssues(value.doc)
  {
    match value
    case NotAnObject => IntegrityReport(false, [NotAnObjectIssue])
    case AnObject(doc) =>
      var issues := MissingFieldIssues(doc) + RecordListIssues(doc) + CategoryListIssues(doc);
      IntactIffNoIssues(doc);
      IntegrityReport(|issues| == 0, issues)
  }

  /** The issue list is empty exactly when the document is intact. */
  lemma IntactIffNoIssues(doc: Document)
    ensures MissingFieldIssues(doc) + RecordListIssues(doc) + CategoryListIssues(doc) == [] <==> IsIntact(doc)
  {
    var m, rl, cl := MissingFieldIssues(doc), RecordListIssues(doc), CategoryListIssues(doc);
    assert |m + rl + cl| == |m| + |rl| + |cl|;
    NoMissingFields(doc);
    if doc.data.Some? {
      if doc.data.value.records.List? {
        NoRecordIssues(doc.data.value.records.items);
      }
      if doc.data.value.categories.List? {
        NoCategoryIssues(doc.data.value.categories.items);
      }
    }
  }

  /** No missing-field issue exactly when all four required properties are present. */
  lemma NoMissingFields(doc: Document)
    ensures MissingFieldIssues(doc) == [] <==>
              doc.settings.Some? && doc.data.Some? && doc.backup.Some? && doc.metadata.Some?
  {
    var m := MissingFieldIssues(doc);
    if m != [] {
      assert m[0] in m && m[0] == MissingField(m[0].field);
    }
  }

  /** A record list has no issue exactly when every record is valid. */
  lemma NoRecordIssues(records: seq<Record>)
    ensures RecordIssues(records) == [] <==> forall x :: x in records ==> ValidateRecord(x).isValid
  {
    var r := RecordIssues(records);
    if r == [] {
      forall x | x in records ensures ValidateRecord(x).isValid {
        var j :| 0 <= j < |records| && records[j] == x;
      }
    } else {
      assert records[r[0].index] in records;
    }
  }

  /** A category list has no issue exactly when every category is valid. */
  lemma NoCategoryIssues(categories: seq<JsValue>)
    ensures CategoryIssues(categories) == [] <==> forall x :: x in categories ==> ValidateCategory(x)
  {
    var r := CategoryIssues(categories);
    if r == [] {
      forall x | x in categories ensures ValidateCategory(x) {
        var j :| 0 <= j < |categories| && categories[j] == x;
      }
    } else {
      assert categories[r[0].index] in categories;
    }
  }

}
