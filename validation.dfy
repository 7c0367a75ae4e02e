/**
 * The request rules of GetTopPagesDto, GetPageSeriesDto and PageParamsDto as
 * the validation pipe applies them to the raw query and route strings. A
 * field of the query is None when it is absent. The ISO 8601 check of
 * IsDateString is a parameter, isoDate; every other rule is stated here.
 * Validation reports every rule a field breaks, as a set of violations.
 */
module Validation {
  import opened Wrappers
  import opened Text

  // ---------------------------------------------------------------------
  // Number(s), the conversion @Type(() => Number) applies.

  datatype JsNumber = NaN | Finite(value: real) | PlusInfinity | MinusInfinity

  function Pow10(e: nat): (r: real)
    ensures r >= 1.0
  {
    if e == 0 then 1.0 else 10.0 * Pow10(e - 1)
  }

  /** m * 10^e. */
  function Scale(m: real, e: int): real
  {
    if e >= 0 then m * Pow10(e) else m / Pow10(-e)
  }

  /** The string without its trailing white space. */
  function DropTrailingSpaces(s: string): (t: string)
    ensures |t| <= |s| && t == s[..|t|]
    ensures t != [] ==> !IsJsSpace(t[|t| - 1])
  {
    if s != [] && IsJsSpace(s[|s| - 1]) then DropTrailingSpaces(s[..|s| - 1]) else s
  }

  /** String.prototype.trim. */
  function Trim(s: string): string
  {
    DropTrailingSpaces(SkipSpaces(s))
  }

  function RadixDigit(c: char): int
  {
    if '0' <= c <= '9' then c as int - '0' as int
    else if 'a' <= c <= 'z' then c as int - 'a' as int + 10
    else if 'A' <= c <= 'Z' then c as int - 'A' as int + 10
    else 36
  }

  /** The value of a nonempty string of digits of the radix; None otherwise. */
  function RadixValue(s: string, radix: nat): Option<nat>
  {
    if s == [] || !(RadixDigit(s[|s| - 1]) < radix) then None
    else if |s| == 1 then Some(RadixDigit(s[0]))
    else match RadixValue(s[..|s| - 1], radix)
      case None => None
      case Some(v) => Some(v * radix + RadixDigit(s[|s| - 1]))
  }

  /** An optionally signed run of decimal digits, the whole string. */
  function SignedInteger(s: string): Option<int>
  {
    var u := if s != [] && (s[0] == '-' || s[0] == '+') then s[1..] else s;
    if u == [] || DigitRun(u) != |u| then None
    else Some(if s[0] == '-' then -Value(u) else Value(u))
  }

  /** Digits, an optional fraction and an optional exponent, the whole
      string, with at least one digit before the exponent. */
  function UnsignedDecimal(t: string): Option<real>
  {
    var a := DigitRun(t);
    var rest := t[a..];
    var point := rest != [] && rest[0] == '.';
    var f := if point then DigitRun(rest[1..]) else 0;
    var tail := if point then rest[1 + f..] else rest;
    if a == 0 && f == 0 then None
    else
      var mantissa := Value(t[..a]) as real + (if point then Value(rest[1..1 + f]) as real / Pow10(f) else 0.0);
      if tail == [] then Some(mantissa)
      else if tail[0] == 'e' || tail[0] == 'E' then
        match SignedInteger(tail[1..])
        case None => None
        case Some(e) => Some(Scale(mantissa, e))
      else None
  }

  /** A 0x / 0o / 0b literal: its digits in radix 16, 8 or 2. */
  predicate RadixPrefix(t: string)
  {
    |t| >= 2 && t[0] == '0' && RadixLetter(t[1])
  }

  predicate RadixLetter(c: char)
  {
    c == 'x' || c == 'X' || c == 'o' || c == 'O' || c == 'b' || c == 'B'
  }

  function RadixNumber(t: string): JsNumber
    requires RadixPrefix(t)
  {
    var radix := if t[1] == 'x' || t[1] == 'X' then 16 else if t[1] == 'o' || t[1] == 'O' then 8 else 2;
    match RadixValue(t[2..], radix)
    case None => NaN
    case Some(v) => Finite(v as real)
  }

  /** An optional sign, then Infinity or an unsigned decimal literal. */
  function SignedDecimal(t: string): JsNumber
    requires t != []
  {
    var negative := t[0] == '-';
    var u := if t[0] == '-' || t[0] == '+' then t[1..] else t;
    if u == "Infinity" then (if negative then MinusInfinity else PlusInfinity)
    else match UnsignedDecimal(u)
      case None => NaN
      case Some(v) => Finite(if negative then -v else v)
  }

  /** Number(s) for a string: white space around it ignored, empty is 0,
      0x / 0o / 0b literals, a signed decimal literal or Infinity, and NaN
      for anything else. */
  function ToNumber(s: string): JsNumber
  {
    var t := Trim(s);
    if t == [] then Finite(0.0)
    else if RadixPrefix(t) then RadixNumber(t)
    else SignedDecimal(t)
  }

  /** Number.isInteger. */
  predicate IsInteger(n: JsNumber)
  {
    n.Finite? && n.value.Floor as real == n.value
  }

  /** value >= bound, false for NaN. */
  predicate AtLeast(n: JsNumber, bound: int)
  {
    n == PlusInfinity || (n.Finite? && n.value >= bound as real)
  }

  /** value <= bound, false for NaN. */
  predicate AtMost(n: JsNumber, bound: int)
  {
    n == MinusInfinity || (n.Finite? && n.value <= bound as real)
  }

  lemma TrimDigits(s: string)
    requires s != [] && forall i :: 0 <= i < |s| ==> IsDigit(s[i])
    ensures Trim(s) == s
  {
    assert !IsJsSpace(s[0]) && !IsJsSpace(s[|s| - 1]);
  }

  /** A run of decimal digits is the unsigned decimal literal of its value. */
  lemma UnsignedDigits(s: string)
    requires s != [] && forall i :: 0 <= i < |s| ==> IsDigit(s[i])
    ensures UnsignedDecimal(s) == Some(Value(s) as real)
  {
    DigitRunOfDigits(s, []);
    assert s + [] == s && s[..|s|] == s && s[|s|..] == [];
  }

  /** A run of decimal digits has no radix prefix, no sign and is not
      Infinity. */
  lemma DigitsPlain(s: string)
    requires s != [] && forall i :: 0 <= i < |s| ==> IsDigit(s[i])
    ensures !RadixPrefix(s) && s[0] != '-' && s[0] != '+' && s != "Infinity"
  {
    assert IsDigit(s[0]);
    if |s| >= 2 {
      assert IsDigit(s[1]);
    }
  }

  /** A run of decimal digits is the number it denotes. */
  lemma DigitsNumber(s: string)
    requires s != [] && forall i :: 0 <= i < |s| ==> IsDigit(s[i])
    ensures ToNumber(s) == Finite(Value(s) as real)
  {
    TrimDigits(s);
    DigitsPlain(s);
    UnsignedDigits(s);
    PlainDecimal(s, Value(s) as real);
  }

  /** Text without radix prefix or sign that is not Infinity is read as an
      unsigned decimal literal. */
  lemma PlainDecimal(t: string, v: real)
    requires Trim(t) == t && t != [] && !RadixPrefix(t)
    requires t[0] != '-' && t[0] != '+' && t != "Infinity"
    requires UnsignedDecimal(t) == Some(v)
    ensures ToNumber(t) == Finite(v)
  {
  }

  /** Number reads back the decimal digits of n. */
  lemma ToNumberOfDecimal(n: nat)
    ensures ToNumber(Decimal(n)) == Finite(n as real)
  {
    DigitsNumber(Decimal(n));
    ValueOfDecimal(n);
  }

  /** Text that does not start with a digit, or with a point and a digit, is
      not an unsigned decimal literal. */
  lemma UnsignedWithoutDigit(u: string)
    requires u != [] ==> !IsDigit(u[0])
    requires |u| >= 2 && u[0] == '.' ==> !IsDigit(u[1])
    ensures UnsignedDecimal(u) == None
  {
    if |u| >= 2 && u[0] == '.' {
      assert u[1..][0] == u[1];
    }
  }

  /** Trimming keeps a string free of digits. */
  lemma TrimNoDigits(s: string)
    requires forall i :: 0 <= i < |s| ==> !IsDigit(s[i])
    ensures forall i :: 0 <= i < |Trim(s)| ==> !IsDigit(Trim(s)[i])
  {
    var t := SkipSpaces(s);
    assert forall i :: 0 <= i < |t| ==> t[i] == s[|s| - |t| + i];
    var d := DropTrailingSpaces(t);
    assert forall i :: 0 <= i < |d| ==> d[i] == t[i];
  }

  /** A signed literal without digits that is not Infinity is NaN. */
  lemma SignedNoDigits(t: string)
    requires t != [] && forall i :: 0 <= i < |t| ==> !IsDigit(t[i])
    requires t != "Infinity" && t != "+Infinity" && t != "-Infinity"
    ensures SignedDecimal(t) == NaN
  {
    var u := if t[0] == '-' || t[0] == '+' then t[1..] else t;
    if t[0] == '-' || t[0] == '+' {
      assert t == [t[0]] + u;
      assert forall i :: 0 <= i < |u| ==> u[i] == t[i + 1];
    }
    assert u != "Infinity";
    UnsignedWithoutDigit(u);
  }

  /** Text without a digit is NaN, unless it is blank or Infinity. */
  lemma NoDigitsIsNaN(s: string)
    requires forall i :: 0 <= i < |s| ==> !IsDigit(s[i])
    requires var t := Trim(s); t != [] && t != "Infinity" && t != "+Infinity" && t != "-Infinity"
    ensures ToNumber(s) == NaN
  {
    TrimNoDigits(s);
    var t := Trim(s);
    assert !IsDigit(t[0]);
    SignedNoDigits(t);
  }

  // ---------------------------------------------------------------------
  // Violations.

  datatype Rule = NotEmpty | DateString | IsString | IsIn | IsInt | Min | Max | Matches

  datatype Violation = Violation(field: string, rule: Rule)

  /** IsNotEmpty: neither absent nor the empty string. */
  predicate Present(v: Option<string>)
  {
    v.Some? && v.value != ""
  }

  /** IsNotEmpty and IsDateString on a required date. */
  function DateViolations(field: string, v: Option<string>, isoDate: string -> bool): set<Violation>
  {
    (if Present(v) then {} else {Violation(field, NotEmpty)})
    + (if v.Some? && isoDate(v.value) then {} else {Violation(field, DateString)})
  }

  /** IsNotEmpty, IsString and IsIn(['en', 'es']) on lang. */
  function LangViolations(v: Option<string>): set<Violation>
  {
    (if Present(v) then {} else {Violation("lang", NotEmpty)})
    + (if v.Some? then {} else {Violation("lang", IsString)})
    + (if v == Some("en") || v == Some("es") then {} else {Violation("lang", IsIn)})
  }

  /** IsOptional, IsInt, Min and (when given) Max on a number field, after
      the conversion; an absent field breaks no rule. */
  function NumberViolations(field: string, n: Option<JsNumber>, min: int, max: Option<int>): set<Violation>
  {
    if n == None then {}
    else
      (if IsInteger(n.value) then {} else {Violation(field, IsInt)})
      + (if AtLeast(n.value, min) then {} else {Violation(field, Min)})
      + (if max == None || AtMost(n.value, max.value) then {} else {Violation(field, Max)})
  }

  /** @Type(() => Number) on a query field: Number of the string, when given. */
  function Converted(v: Option<string>): (n: Option<JsNumber>)
    ensures n == None <==> v == None
  {
    if v == None then None else Some(ToNumber(v.value))
  }

  // ---------------------------------------------------------------------
  // GetTopPagesDto.

  const DefaultLimit := 10
  const DefaultOffset := 0
  const MaxLimit := 200

  datatype TopPagesDto = TopPagesDto(date: string, lang: string, limit: int, offset: int)

  /** An optional number field: its default when absent, else its value. */
  function NumberOr(n: Option<JsNumber>, default: int): int
  {
    if n == None then default else if n.value.Finite? then n.value.value.Floor else default
  }

  /** The rules of GetTopPagesDto on the converted query. */
  function TopPagesViolations(date: Option<string>, lang: Option<string>, limit: Option<JsNumber>,
                              offset: Option<JsNumber>, isoDate: string -> bool): set<Violation>
  {
    DateViolations("date", date, isoDate) + LangViolations(lang)
    + NumberViolations("limit", limit, 1, Some(MaxLimit)) + NumberViolations("offset", offset, 0, None)
  }

  /** The validation pipe on the converted query: every broken rule, or the
      request with its defaults filled in. */
  function CheckTopPages(date: Option<string>, lang: Option<string>, limit: Option<JsNumber>,
                         offset: Option<JsNumber>, isoDate: string -> bool): Result<TopPagesDto, set<Violation>>
  {
    var violations := TopPagesViolations(date, lang, limit, offset, isoDate);
    if violations != {} then Err(violations)
    else Ok(TopPagesDto(date.value, lang.value, NumberOr(limit, DefaultLimit), NumberOr(offset, DefaultOffset)))
  }

  /** ValidationPipe({ transform: true }) on the raw query of /pages/top. */
  function ValidateTopPages(date: Option<string>, lang: Option<string>, limit: Option<string>,
                            offset: Option<string>, isoDate: string -> bool): Result<TopPagesDto, set<Violation>>
  {
    CheckTopPages(date, lang, Converted(limit), Converted(offset), isoDate)
  }

  /** A limit or offset field passes when absent, or when its number is an
      integer within the bounds. */
  predicate NumberAccepted(n: Option<JsNumber>, min: int, max: Option<int>)
  {
    n == None || (IsInteger(n.value) && AtLeast(n.value, min) && (max == None || AtMost(n.value, max.value)))
  }

  /** A request is accepted exactly when date is a nonempty ISO date, lang is
      en or es, limit is absent or an integer in [1, 200] and offset absent or
      an integer >= 0; the request passed on then carries those values, with
      10 and 0 for an absent limit and offset. */
  lemma TopPagesAccepted(date: Option<string>, lang: Option<string>, limit: Option<JsNumber>,
                         offset: Option<JsNumber>, isoDate: string -> bool)
    ensures var r := CheckTopPages(date, lang, limit, offset, isoDate);
      && (r.Ok? <==>
            && Present(date) && isoDate(date.value)
            && (lang == Some("en") || lang == Some("es"))
            && NumberAccepted(limit, 1, Some(MaxLimit)) && NumberAccepted(offset, 0, None))
      && (r.Ok? ==>
            && r.value.date == date.value && r.value.lang == lang.value
            && 1 <= r.value.limit <= MaxLimit && r.value.offset >= 0
            && (limit == None ==> r.value.limit == DefaultLimit)
            && (limit != None ==> r.value.limit as real == limit.value.value)
            && (offset == None ==> r.value.offset == DefaultOffset)
            && (offset != None ==> r.value.offset as real == offset.value.value))
  {
  }

  /** A request with date 2025-10-01, lang es, limit 10 and offset 0 is
      passed on with the same values. */
  lemma ValidTopPagesExample(date: string, limit: string, offset: string, isoDate: string -> bool)
    requires date == "2025-10-01" && limit == "10" && offset == "0" && isoDate(date)
    ensures ValidateTopPages(Some(date), Some("es"), Some(limit), Some(offset), isoDate)
            == Ok(TopPagesDto("2025-10-01", "es", 10, 0))
  {
    assert Decimal(10) == limit && Decimal(0) == offset;
    ConvertedDecimal(limit, 10);
    ConvertedDecimal(offset, 0);
    TopPagesAccepted(Some(date), Some("es"), Some(Finite(10.0)), Some(Finite(0.0)), isoDate);
  }

  /** A query field holding the decimal digits of n converts to n. */
  lemma ConvertedDecimal(v: string, n: nat)
    requires v == Decimal(n)
    ensures Converted(Some(v)) == Some(Finite(n as real))
  {
    ToNumberOfDecimal(n);
  }

  /** A request without date is rejected. */
  lemma MissingDate(lang: Option<string>, limit: Option<string>, offset: Option<string>, isoDate: string -> bool)
    ensures var r := ValidateTopPages(None, lang, limit, offset, isoDate);
      r.Err? && Violation("date", NotEmpty) in r.error
  {
  }

  /** A limit that is not a number is rejected. */
  lemma NonNumericLimit(date: Option<string>, lang: Option<string>, limit: string, offset: Option<string>,
                        isoDate: string -> bool)
    requires limit == "invalid"
    ensures var r := ValidateTopPages(date, lang, Some(limit), offset, isoDate);
      r.Err? && Violation("limit", IsInt) in r.error
  {
    InvalidHasNoDigits(limit);
    TrimmedAlready(limit);
    NoDigitsIsNaN(limit);
  }

  lemma InvalidHasNoDigits(s: string)
    requires s == "invalid"
    ensures forall i :: 0 <= i < |s| ==> !IsDigit(s[i])
    ensures s != [] && !IsJsSpace(s[0]) && !IsJsSpace(s[|s| - 1])
  {
    forall i | 0 <= i < |s| ensures !IsDigit(s[i]) {
      assert s[i] in "invald";
    }
  }

  /** A string that neither starts nor ends with a blank is its own trim. */
  lemma TrimmedAlready(s: string)
    requires s != [] && !IsJsSpace(s[0]) && !IsJsSpace(s[|s| - 1])
    ensures Trim(s) == s
  {
  }

  // ---------------------------------------------------------------------
  // GetPageSeriesDto.

  /** /^\d{4}-\d{2}-\d{2}$/: ten characters, '-' at positions 4 and 7, decimal
      digits elsewhere. */
  predicate DateShape(s: string)
  {
    |s| == 10 && forall i :: 0 <= i < 10 ==> if i == 4 || i == 7 then s[i] == '-' else IsDigit(s[i])
  }

  function SeriesDateViolations(field: string, v: Option<string>, isoDate: string -> bool): set<Violation>
  {
    DateViolations(field, v, isoDate) + (if v.Some? && DateShape(v.value) then {} else {Violation(field, Matches)})
  }

  datatype PageSeriesDto = PageSeriesDto(lang: string, dateFrom: string, dateTo: string)

  function ValidatePageSeries(lang: Option<string>, dateFrom: Option<string>, dateTo: Option<string>,
                              isoDate: string -> bool): Result<PageSeriesDto, set<Violation>>
  {
    var violations := LangViolations(lang) + SeriesDateViolations("date_from", dateFrom, isoDate)
                      + SeriesDateViolations("date_to", dateTo, isoDate);
    if violations != {} then Err(violations)
    else Ok(PageSeriesDto(lang.value, dateFrom.value, dateTo.value))
  }

  /** Accepted exactly when lang is en or es and each date, on its own, has
      the YYYY-MM-DD shape and passes the ISO check; no rule relates the two
      dates. */
  lemma PageSeriesAccepted(lang: Option<string>, dateFrom: Option<string>, dateTo: Option<string>,
                           isoDate: string -> bool)
    ensures var r := ValidatePageSeries(lang, dateFrom, dateTo, isoDate);
      && (r.Ok? <==>
            && (lang == Some("en") || lang == Some("es"))
            && dateFrom.Some? && DateShape(dateFrom.value) && isoDate(dateFrom.value)
            && dateTo.Some? && DateShape(dateTo.value) && isoDate(dateTo.value))
      && (r.Ok? ==> r.value == PageSeriesDto(lang.value, dateFrom.value, dateTo.value))
  {
  }

  /** 2025/01/01 breaks the shape rule, whatever the ISO check says. */
  lemma SlashedDate(lang: Option<string>, dateTo: Option<string>, isoDate: string -> bool)
    ensures var r := ValidatePageSeries(lang, Some("2025/01/01"), dateTo, isoDate);
      r.Err? && Violation("date_from", Matches) in r.error
  {
    assert "2025/01/01"[4] == '/';
  }

  /** A series request without date_from is rejected. */
  lemma MissingDateFrom(lang: Option<string>, dateTo: Option<string>, isoDate: string -> bool)
    ensures var r := ValidatePageSeries(lang, None, dateTo, isoDate);
      r.Err? && Violation("date_from", NotEmpty) in r.error
  {
  }

  // ---------------------------------------------------------------------
  // PageParamsDto.

  /** IsString and the unanchored /\S+/ on the title route parameter: the
      search succeeds when a character that is not white space is left after
      skipping the leading white space. */
  function ValidateTitle(title: string): Result<string, set<Violation>>
  {
    if SkipSpaces(title) != [] then Ok(title) else Err({Violation("title", Matches)})
  }

  /** A title is accepted exactly when it holds a character that is not
      white space; it is passed on unchanged, spaces and punctuation kept. */
  lemma TitleAccepted(title: string)
    ensures ValidateTitle(title).Ok? <==> exists i :: 0 <= i < |title| && !IsJsSpace(title[i])
    ensures ValidateTitle(title).Ok? ==> ValidateTitle(title).value == title
  {
    var t := SkipSpaces(title);
    if t != [] {
      assert !IsJsSpace(title[|title| - |t|]);
    } else {
      AllSpaces(title);
    }
  }

  lemma {:induction false} AllSpaces(s: string)
    requires SkipSpaces(s) == []
    ensures forall i :: 0 <= i < |s| ==> IsJsSpace(s[i])
  {
    if s != [] {
      assert IsJsSpace(s[0]) && SkipSpaces(s[1..]) == [];
      AllSpaces(s[1..]);
      forall i | 0 < i < |s| ensures IsJsSpace(s[i]) {
        assert s[i] == s[1..][i - 1];
      }
    }
  }

  /** NestJS-Documentation is accepted; the empty and a blank title are not. */
  lemma TitleExamples(title: string, blank: string)
    requires title == "NestJS-Documentation" && blank == "   "
    ensures ValidateTitle(title) == Ok(title)
    ensures ValidateTitle("").Err?
    ensures ValidateTitle(blank).Err?
  {
    assert title[0] == 'N';
    TitleAccepted(title);
    assert forall i :: 0 <= i < |blank| ==> blank[i] == ' ';
    TitleAccepted(blank);
  }
}
