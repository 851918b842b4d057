/**
 * The slice of JavaScript's value semantics that the validator and the store
 * rely on: dynamically typed values and their truthiness, the `Number(...)`
 * coercion, the relational operators against a numeric bound, and the string
 * built-ins `trim`, `toLowerCase`, `includes` and `String(n)`.
 */
module JsRuntime {
  import opened Wrappers

  /** An IEEE double seen as an exact number: NaN, a finite value, or +/-Infinity. */
  datatype Number = NaN | Finite(r: real) | Infinity(negative: bool)

  /**
   * A JavaScript value as the validator sees it. `Obj` stands for every object
   * or array that is not one of the other cases.
   */
  datatype JsValue = Undefined | Null | Bool(b: bool) | Num(n: Number) | Str(s: string) | Obj

  /** `!!v` */
  predicate Truthy(v: JsValue) {
    match v
    case Undefined => false
    case Null => false
    case Bool(b) => b
    case Num(n) => n.Infinity? || (n.Finite? && n.r != 0.0)
    case Str(s) => s != ""
    case Obj => true
  }

  /** `n < bound` for a finite `bound`. */
  predicate Below(n: Number, bound: real) {
    match n
    case NaN => false
    case Finite(r) => r < bound
    case Infinity(negative) => negative
  }

  /** `n > bound` for a finite `bound`. */
  predicate Above(n: Number, bound: real) {
    match n
    case NaN => false
    case Finite(r) => r > bound
    case Infinity(negative) => !negative
  }

  // ---------------------------------------------------------------------------
  // Digits and decimal text

  predicate IsDigit(c: char) {
    '0' <= c <= '9'
  }

  predicate AllDigits(s: string) {
    forall i :: 0 <= i < |s| ==> IsDigit(s[i])
  }

  function DigitValue(c: char): (d: nat)
    requires IsDigit(c)
    ensures d < 10
  {
    c as int - '0' as int
  }

  function DigitChar(d: nat): (c: char)
    requires d < 10
    ensures IsDigit(c) && DigitValue(c) == d
  {
    ('0' as int + d) as char
  }

  /** The value of a string of decimal digits (0 for the empty string). */
  function DigitsToNat(s: string): nat
    requires AllDigits(s)
  {
    if s == [] then 0 else DigitsToNat(s[..|s| - 1]) * 10 + DigitValue(s[|s| - 1])
  }

  /** `String(n)` for a non-negative integer: its shortest decimal form. */
  function NatToString(n: nat): (s: string)
    ensures |s| >= 1 && AllDigits(s)
    ensures DigitsToNat(s) == n
    ensures (s[0] == '0') == (n == 0)
  {
    if n < 10 then [DigitChar(n)]
    else
      var p := NatToString(n / 10);
      assert (p + [DigitChar(n % 10)])[..|p|] == p;
      p + [DigitChar(n % 10)]
  }

  /** A digit string is at least its leading digit times the weight of that digit's place. */
  lemma {:induction false} LeadingDigitBound(s: string)
    requires AllDigits(s) && s != []
    ensures DigitsToNat(s) >= DigitValue(s[0]) * Pow10(|s| - 1)
  {
    if |s| > 1 {
      var p := s[..|s| - 1];
      assert p[0] == s[0];
      LeadingDigitBound(p);
    }
  }

  /** A string of `k` digits stands for a number below 10^k. */
  lemma {:induction false} DigitsBound(s: string)
    requires AllDigits(s)
    ensures DigitsToNat(s) < Pow10(|s|)
  {
    if s != [] {
      DigitsBound(s[..|s| - 1]);
    }
  }

  /** Reading back a digit string without a leading zero gives the same string. */
  lemma {:induction false} NatToStringOfDigits(s: string)
    requires AllDigits(s) && s != [] && s[0] != '0'
    ensures NatToString(DigitsToNat(s)) == s
  {
    var n := DigitsToNat(s);
    if |s| == 1 {
      assert s[..0] == [];
      assert n == DigitsToNat(s[..0]) * 10 + DigitValue(s[0]);
      assert [DigitChar(n)] == s;
    } else {
      var p := s[..|s| - 1];
      assert p[0] == s[0];
      LeadingDigitBound(p);
      NatToStringOfDigits(p);
      assert DigitValue(s[0]) >= 1;
      assert Pow10(|p| - 1) >= 1;
      assert DigitsToNat(p) >= 1;
      assert n / 10 == DigitsToNat(p) && n % 10 == DigitValue(s[|s| - 1]);
      assert s == p + [s[|s| - 1]];
    }
  }

  function Pow10(k: nat): (r: nat)
    ensures r >= 1
  {
    if k == 0 then 1 else 10 * Pow10(k - 1)
  }

  /** The index of the first '.', or |s| when there is none. */
  function IndexOfDot(s: string): (i: nat)
    ensures i <= |s|
    ensures i < |s| ==> s[i] == '.'
    ensures forall j :: 0 <= j < i ==> s[j] != '.'
  {
    if s == [] || s[0] == '.' then 0 else 1 + IndexOfDot(s[1..])
  }

  /** A decimal literal without sign or exponent: digits, optionally '.', optionally digits. */
  function UnsignedDecimal(s: string): Option<real> {
    var i := IndexOfDot(s);
    var whole := s[..i];
    var frac := if i < |s| then s[i + 1..] else "";
    if AllDigits(whole) && AllDigits(frac) && |whole| + |frac| >= 1 then
      Some(DigitsToNat(whole) as real + DigitsToNat(frac) as real / Pow10(|frac|) as real)
    else
      None
  }

  /** `Number(s)` for a string: empty or blank text is 0, unparsable text is NaN. */
  function StringToNumber(s: string): Number {
    TrimmedNumber(Trim(s))
  }

  /** Empty or blank text is read as 0. */
  lemma BlankTextIsZero(s: string)
    requires AllWhitespace(s)
    ensures StringToNumber(s) == Finite(0.0)
  {
    var p, q := TrimSplit(s);
  }

  /** Outer whitespace never changes the number a string is read as. */
  lemma StringToNumberIgnoresPadding(s: string)
    ensures StringToNumber(Trim(s)) == StringToNumber(s)
  {
    TrimIdempotent(s);
  }

  /** `Number` of text that has already been trimmed. */
  function TrimmedNumber(t: string): Number {
    if t == "" then Finite(0.0)
    else if t == "Infinity" || t == "+Infinity" then Infinity(false)
    else if t == "-Infinity" then Infinity(true)
    else if t[0] == '+' || t[0] == '-' then
      match UnsignedDecimal(t[1..])
      case Some(r) => Finite(if t[0] == '-' then -r else r)
      case None => NaN
    else
      match UnsignedDecimal(t)
      case Some(r) => Finite(r)
      case None => NaN
  }

  /** `Number(v)` */
  function ToNumber(v: JsValue): Number {
    match v
    case Undefined => NaN
    case Null => Finite(0.0)
    case Bool(b) => Finite(if b then 1.0 else 0.0)
    case Num(n) => n
    case Str(s) => StringToNumber(s)
    case Obj => NaN
  }

  /** A plain digit string is read as its decimal value. */
  lemma UnsignedDecimalOfDigits(s: string)
    requires AllDigits(s) && s != []
    ensures UnsignedDecimal(s) == Some(DigitsToNat(s) as real)
  {
    var i := IndexOfDot(s);
    assert i == |s|;
    assert s[..i] == s;
    var frac: string := "";
    assert DigitsToNat(frac) == 0 && Pow10(|frac|) == 1;
    assert DigitsToNat(s) as real + DigitsToNat(frac) as real / Pow10(|frac|) as real == DigitsToNat(s) as real;
  }

  /** `Number(String(n))` gives `n` back: decimal text coerces to its value. */
  lemma NumberOfDecimalText(n: nat)
    ensures ToNumber(Str(NatToString(n))) == Finite(n as real)
  {
    var s := NatToString(n);
    assert IsDigit(s[0]) && IsDigit(s[|s| - 1]);
    NoWhitespaceTrims(s);
    assert Trim(s) == s;
    assert s != "Infinity" && s != "+Infinity" && s != "-Infinity" by {
      assert IsDigit(s[0]);
    }
    assert s[0] != '+' && s[0] != '-';
    UnsignedDecimalOfDigits(s);
  }

  /** Whitespace around decimal text does not change the number it denotes. */
  lemma NumberOfPaddedDecimalText(p: string, n: nat, q: string)
    requires AllWhitespace(p) && AllWhitespace(q)
    ensures ToNumber(Str(p + NatToString(n) + q)) == Finite(n as real)
  {
    var t := NatToString(n);
    assert !IsWhitespace(t[0]) && !IsWhitespace(t[|t| - 1]);
    TrimPadding(p, t, q);
    NumberOfDecimalText(n);
    NoWhitespaceTrims(t);
  }

  // ---------------------------------------------------------------------------
  // Whitespace and String.prototype.trim

  /** ECMAScript LineTerminator: the characters that `.` in a regular expression does not match. */
  predicate IsLineTerminator(c: char) {
    c == '\n' || c == '\r' || c == '\U{2028}' || c == '\U{2029}'
  }

  /** ECMAScript WhiteSpace or LineTerminator: the class `\s`, and what `trim` removes. */
  predicate IsWhitespace(c: char) {
    || c == '\t' || c == '\U{000B}' || c == '\U{000C}' || c == ' '
    || c == '\U{00A0}' || c == '\U{FEFF}' || c == '\U{1680}'
    || ('\U{2000}' <= c <= '\U{200A}')
    || c == '\U{202F}' || c == '\U{205F}' || c == '\U{3000}'
    || IsLineTerminator(c)
  }

  predicate AllWhitespace(s: string) {
    forall i :: 0 <= i < |s| ==> IsWhitespace(s[i])
  }

  /** `s` after dropping its leading whitespace. */
  function TrimStart(s: string): (r: string)
    ensures |r| <= |s| && r == s[|s| - |r|..]
    ensures r == [] || !IsWhitespace(r[0])
    ensures AllWhitespace(s[..|s| - |r|])
  {
    if s != [] && IsWhitespace(s[0]) then
      var r := TrimStart(s[1..]);
      assert s[..|s| - |r|] == [s[0]] + s[1..][..|s| - 1 - |r|];
      r
    else
      s
  }

  /** `s` after dropping its trailing whitespace. */
  function TrimEnd(s: string): (r: string)
    ensures |r| <= |s| && r == s[..|r|]
    ensures r == [] || !IsWhitespace(r[|r| - 1])
    ensures AllWhitespace(s[|r|..])
  {
    if s != [] && IsWhitespace(s[|s| - 1]) then
      var r := TrimEnd(s[..|s| - 1]);
      assert s[|r|..] == s[..|s| - 1][|r|..] + [s[|s| - 1]];
      r
    else
      s
  }

  /** `s.trim()` */
  function Trim(s: string): (r: string)
    ensures |r| <= |s|
    ensures r == [] || (!IsWhitespace(r[0]) && !IsWhitespace(r[|r| - 1]))
  {
    TrimEnd(TrimStart(s))
  }

  /** `trim` cuts the string into leading whitespace, the result and trailing whitespace. */
  lemma TrimSplit(s: string) returns (p: string, q: string)
    ensures s == p + Trim(s) + q
    ensures AllWhitespace(p) && AllWhitespace(q)
  {
    var u := TrimStart(s);
    var r := TrimEnd(u);
    var i := |s| - |u|;
    p := s[..i];
    q := u[|r|..];
    SplitAt(s, i);
    SplitAt(u, |r|);
    ConcatAssociative(p, r, q);
    assert Trim(s) == r;
  }

  /** Concatenation is associative. */
  lemma ConcatAssociative<T>(a: seq<T>, b: seq<T>, c: seq<T>)
    ensures a + (b + c) == a + b + c
  {
  }

  /** A sequence is its prefix followed by its suffix. */
  lemma SplitAt<T>(s: seq<T>, i: nat)
    requires i <= |s|
    ensures s == s[..i] + s[i..]
  {
  }

  /** A string that neither starts nor ends with whitespace is left alone by `trim`. */
  lemma NoWhitespaceTrims(s: string)
    requires s == [] || (!IsWhitespace(s[0]) && !IsWhitespace(s[|s| - 1]))
    ensures Trim(s) == s
  {
  }

  /** `trim` is idempotent. */
  lemma TrimIdempotent(s: string)
    ensures Trim(Trim(s)) == Trim(s)
  {
    NoWhitespaceTrims(Trim(s));
  }

  /** Whitespace dropped from the front of `p + t` when `t` starts with a non-blank character. */
  lemma {:induction false} TrimStartPadding(p: string, t: string)
    requires AllWhitespace(p) && t != [] && !IsWhitespace(t[0])
    ensures TrimStart(p + t) == t
  {
    if p != [] {
      assert (p + t)[1..] == p[1..] + t;
      TrimStartPadding(p[1..], t);
    } else {
      assert p + t == t;
    }
  }

  /** Whitespace dropped from the end of `t + q` when `t` ends with a non-blank character. */
  lemma {:induction false} TrimEndPadding(t: string, q: string)
    requires AllWhitespace(q) && t != [] && !IsWhitespace(t[|t| - 1])
    ensures TrimEnd(t + q) == t
  {
    if q != [] {
      assert (t + q)[..|t + q| - 1] == t + q[..|q| - 1];
      TrimEndPadding(t, q[..|q| - 1]);
    } else {
      assert t + q == t;
    }
  }

  /** Trimming a padded string gives back the unpadded text. */
  lemma TrimPadding(p: string, t: string, q: string)
    requires AllWhitespace(p) && AllWhitespace(q)
    requires t != [] && !IsWhitespace(t[0]) && !IsWhitespace(t[|t| - 1])
    ensures Trim(p + t + q) == t
  {
    assert p + t + q == p + (t + q);
    assert (t + q)[0] == t[0];
    TrimStartPadding(p, t + q);
    TrimEndPadding(t, q);
  }

  // ---------------------------------------------------------------------------
  // toLowerCase and includes

  /** Lower-casing of one character; only the ASCII letters are mapped. */
  function LowerChar(c: char): char {
    if 'A' <= c <= 'Z' then (c as int + 32) as char else c
  }

  /** `s.toLowerCase()`, restricted to ASCII letters. */
  function ToLower(s: string): (r: string)
    ensures |r| == |s|
  {
    seq(|s|, i requires 0 <= i < |s| => LowerChar(s[i]))
  }

  /** `hay.includes(needle)` */
  predicate Includes(hay: string, needle: string)
    decreases |hay|
  {
    needle <= hay || (hay != [] && Includes(hay[1..], needle))
  }

  /** `needle` occurs in `hay` starting at index `k`. */
  predicate OccursAt(hay: string, needle: string, k: nat) {
    k + |needle| <= |hay| && hay[k..k + |needle|] == needle
  }

  /** `includes` is true exactly when `needle` occurs at some position of `hay`. */
  lemma {:induction false} IncludesIsOccurrence(hay: string, needle: string)
    ensures Includes(hay, needle) <==> exists k: nat :: OccursAt(hay, needle, k)
    decreases |hay|
  {
    if needle <= hay {
      assert OccursAt(hay, needle, 0);
    } else if hay == [] {
      assert |needle| > 0;
    } else {
      IncludesIsOccurrence(hay[1..], needle);
      if exists k: nat :: OccursAt(hay, needle, k) {
        var k: nat :| OccursAt(hay, needle, k);
        if k > 0 {
          assert hay[1..][k - 1..k - 1 + |needle|] == hay[k..k + |needle|];
          assert OccursAt(hay[1..], needle, k - 1);
        }
      }
      if Includes(hay[1..], needle) {
        var k: nat :| OccursAt(hay[1..], needle, k);
        assert hay[k + 1..k + 1 + |needle|] == hay[1..][k..k + |needle|];
        assert OccursAt(hay, needle, k + 1);
      }
    }
  }
}
