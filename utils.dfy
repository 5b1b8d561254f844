/**
 * General helpers: `truncate` over the UTF-16 code units JavaScript counts, `absoluteUrl`,
 * and `formatDate` once the date has been broken into its local year, month and day.
 */
module Utils {
  import opened Wrappers
  import opened Unicode
  import opened Decimal
  import opened Text
  import Env

  /** `s.slice(0, end)` for an integral `end`: a negative end counts back from the end. */
  function SliceTo(s: seq<CodeUnit>, end: int): (r: seq<CodeUnit>)
    ensures 0 <= end <= |s| ==> r == s[..end]
    ensures end > |s| ==> r == s
    ensures end < 0 ==> r == s[..if |s| + end > 0 then |s| + end else 0]
  {
    var stop := if end < 0 then (if |s| + end > 0 then |s| + end else 0) else if end > |s| then |s| else end;
    s[..stop]
  }

  const Ellipsis: seq<CodeUnit> := [0x2E, 0x2E, 0x2E]

  /** `truncate(text, length, suffix = '...')`. */
  function Truncate(text: seq<CodeUnit>, length: int, suffix: Option<seq<CodeUnit>>): seq<CodeUnit>
  {
    if |text| <= length then text else SliceTo(text, length) + suffix.GetOr(Ellipsis)
  }

  /**
   * A text that fits is returned unchanged; a longer one is cut to `length` code units and
   * the suffix (by default `...`) is appended, so the cut text is a prefix of the result
   * and the result is `length` plus the suffix long.
   */
  lemma TruncateSpec(text: seq<CodeUnit>, length: int, suffix: Option<seq<CodeUnit>>)
    ensures |text| <= length ==> Truncate(text, length, suffix) == text
    ensures 0 <= length < |text| ==>
      var r := Truncate(text, length, suffix);
      var s := suffix.GetOr(Ellipsis);
      r == text[..length] + s && |r| == length + |s| && r[..length] == text[..length] && r[length..] == s
    ensures suffix.None? && 0 <= length < |text| ==> Truncate(text, length, suffix) == text[..length] + Ellipsis
  {
    if 0 <= length < |text| {
      var r := Truncate(text, length, suffix);
      var s := suffix.GetOr(Ellipsis);
      assert r == text[..length] + s;
      assert r[..length] == text[..length];
      assert r[length..] == s;
    }
  }

  /**
   * `absoluteUrl(path)`: a path that already starts with `http://` or `https://` is returned
   * as it is and never fails; any other is resolved against `APP_URL` by `resolve`, which
   * stands for `new URL(path, base).toString()` and is None where that constructor throws
   * (a base that is not an absolute URL), so `absoluteUrl` throws too.
   */
  function AbsoluteUrl(path: string, env: Env.Environment, resolve: (string, string) -> Option<string>): (url: Option<string>)
    ensures StartsWith(path, "http://") || StartsWith(path, "https://") ==> url == Some(path)
    ensures !(StartsWith(path, "http://") || StartsWith(path, "https://")) ==> url == resolve(path, Env.AppUrl(env))
    ensures url.None? ==> !(StartsWith(path, "http://") || StartsWith(path, "https://")) && resolve(path, Env.AppUrl(env)).None?
  {
    if StartsWith(path, "http://") || StartsWith(path, "https://") then Some(path) else resolve(path, Env.AppUrl(env))
  }

  type Month = m: int | 1 <= m <= 12 witness 1
  type Day = d: int | 1 <= d <= 31 witness 1

  /** A date as its local calendar fields, or an invalid date (`getTime()` is NaN). */
  datatype LocalDate = InvalidDate | LocalDate(year: int, month: Month, day: Day)

  /** The `format` argument; a value outside the three names takes the default branch. */
  datatype DateFormat = YearMonthDay | DayMonthYear | Full | UnknownFormat

  /** `s.padStart(width, '0')`. */
  function PadStart(s: string, width: nat): (r: string)
    ensures |r| == if |s| >= width then |s| else width
    ensures |s| >= width ==> r == s
    decreases width - |s|
  {
    if |s| >= width then s else PadStart("0" + s, width)
  }

  /** `String(n).padStart(2, '0')` for a month or day. */
  function TwoDigits(n: nat): (r: string)
    requires n < 100
    ensures |r| == 2 && IsDigit(r[0]) && IsDigit(r[1])
  {
    var s := NatToString(n);
    if n < 10 then
      assert PadStart(s, 2) == "0" + s;
      PadStart(s, 2)
    else
      assert NatToString(n) == NatToString(n / 10) + [DigitChar(n % 10)];
      s
  }

  /** `formatDate(date, format = 'yyyy-mm-dd')` after the date has been decomposed. */
  function FormatDate(date: LocalDate, format: Option<DateFormat>): string
  {
    match date
    case InvalidDate => ""
    case LocalDate(year, month, day) =>
      var y := IntToString(year);
      var m := TwoDigits(month);
      var d := TwoDigits(day);
      match format.GetOr(YearMonthDay)
      case YearMonthDay => y + "-" + m + "-" + d
      case DayMonthYear => d + "/" + m + "/" + y
      case Full => y + "년 " + IntToString(ParseNat(m).GetOr(0)) + "월 " + IntToString(ParseNat(d).GetOr(0)) + "일"
      case UnknownFormat => y + "-" + m + "-" + d
  }

  lemma TwoDigitsValue(n: nat)
    requires n < 100
    ensures ParseNat(TwoDigits(n)) == Some(n)
  {
    var r := TwoDigits(n);
    if n < 10 {
      assert r[..1] == "0";
      assert DigitsValue(r[..1]) == 0;
    } else {
      ParseNatToString(n);
    }
  }

  /** The three fields of `YYYY-MM-DD`, or of `DD/MM/YYYY` read in that order. */
  function ParseDateFields(s: string, sep: char): Option<(nat, nat, nat)>
  {
    var parts := Split(s, sep);
    if |parts| != 3 then None
    else match (ParseNat(parts[0]), ParseNat(parts[1]), ParseNat(parts[2]))
      case (Some(a), Some(b), Some(c)) => Some((a, b, c))
      case _ => None
  }

  lemma DigitsHaveNoSeparator(s: string, sep: char)
    requires forall i :: 0 <= i < |s| ==> IsDigit(s[i])
    requires !IsDigit(sep)
    ensures sep !in s
  {
  }

  /** Three digit runs joined by a non-digit separator split back into those fields. */
  lemma ThreeFieldsRoundTrip(a: nat, b: nat, c: nat, sa: string, sb: string, sc: string, sep: char)
    requires ParseNat(sa) == Some(a) && ParseNat(sb) == Some(b) && ParseNat(sc) == Some(c)
    requires !IsDigit(sep)
    ensures ParseDateFields(sa + [sep] + sb + [sep] + sc, sep) == Some((a, b, c))
  {
    DigitsHaveNoSeparator(sa, sep);
    DigitsHaveNoSeparator(sb, sep);
    DigitsHaveNoSeparator(sc, sep);
    assert sa + [sep] + sb + [sep] + sc == Join([sa, sb, sc], [sep]) by {
      assert [sa, sb, sc][1..] == [sb, sc];
      assert [sb, sc][1..] == [sc];
      assert Join([sc], [sep]) == sc;
      assert Join([sb, sc], [sep]) == sb + [sep] + sc;
      assert Join([sa, sb, sc], [sep]) == sa + [sep] + (sb + [sep] + sc);
    }
    SplitJoin([sa, sb, sc], sep);
  }

  /**
   * A valid date of a non-negative year is written in `yyyy-mm-dd` (also the default) and
   * `dd/mm/yyyy` with two-digit month and day, and reads back as its fields.
   */
  lemma NumericFormatsRoundTrip(year: nat, month: Month, day: Day)
    ensures ParseDateFields(FormatDate(LocalDate(year, month, day), Some(YearMonthDay)), '-') == Some((year, month, day))
    ensures ParseDateFields(FormatDate(LocalDate(year, month, day), Some(DayMonthYear)), '/') == Some((day, month, year))
    ensures FormatDate(LocalDate(year, month, day), None) == FormatDate(LocalDate(year, month, day), Some(YearMonthDay))
    ensures |FormatDate(LocalDate(year, month, day), None)| == |NatToString(year)| + 6
  {
    TwoDigitsValue(month);
    TwoDigitsValue(day);
    ParseNatToString(year);
    ThreeFieldsRoundTrip(year, month, day, NatToString(year), TwoDigits(month), TwoDigits(day), '-');
    ThreeFieldsRoundTrip(day, month, year, TwoDigits(day), TwoDigits(month), NatToString(year), '/');
  }

  /** `full` writes the year, month and day unpadded with their Korean units; an invalid date gives the empty string. */
  lemma FullFormatAndInvalid(year: int, month: Month, day: Day, format: Option<DateFormat>)
    ensures FormatDate(LocalDate(year, month, day), Some(Full))
         == IntToString(year) + "년 " + NatToString(month) + "월 " + NatToString(day) + "일"
    ensures FormatDate(InvalidDate, format) == ""
  {
    TwoDigitsValue(month);
    TwoDigitsValue(day);
  }
}
