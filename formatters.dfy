/**
 * `formatExpiration`, the front end's display of an expiration date given as
 * `YYYY-MM-DD` or `YYMMDD`.  The date is built the way a JavaScript `Date`
 * built from local year, month and day fields is: two-digit years mean
 * 19xx, and months and days out of range roll over into the next (or
 * previous) month and year.  The month and day are always shown; the year is
 * shown only when it differs from the current year, which is a parameter
 * here.  The locale's wording of the date ("Mar 15", "Dec 25, 2027") is
 * abstracted as the `Shown` value.
 */
module Formatters {
  import opened Wrappers
  import opened Text
  import ExpirationBackfill

  /** A calendar date of the proleptic Gregorian calendar. */
  datatype CivilDate = CivilDate(year: int, month: int, day: int)

  predicate IsLeap(y: int)
  {
    (y % 4 == 0 && y % 100 != 0) || y % 400 == 0
  }

  function DaysIn(y: int, m: int): (n: int)
    requires 1 <= m <= 12
    ensures 28 <= n <= 31
  {
    if m == 2 then (if IsLeap(y) then 29 else 28)
    else if m == 4 || m == 6 || m == 9 || m == 11 then 30
    else 31
  }

  predicate ValidDate(d: CivilDate)
  {
    1 <= d.month <= 12 && 1 <= d.day <= DaysIn(d.year, d.month)
  }

  /**
   * Day `d` of month `m` of year `y`, counted from the first of that month
   * (day 0 is the last day of the month before, day 32 of a 31-day month is
   * the first of the month after), as a valid date.
   */
  function NormalizeDay(y: int, m: int, d: int): (r: CivilDate)
    requires 1 <= m <= 12
    ensures ValidDate(r)
    ensures 1 <= d <= DaysIn(y, m) ==> r == CivilDate(y, m, d)
    ensures d > DaysIn(y, m) ==> r.year > y || (r.year == y && r.month > m)
    ensures d < 1 ==> r.year < y || (r.year == y && r.month < m)
    decreases (if d < 1 then 1 else 0), (if d < 1 then -d else d)
  {
    if d < 1 then
      var py := if m == 1 then y - 1 else y;
      var pm := if m == 1 then 12 else m - 1;
      NormalizeDay(py, pm, d + DaysIn(py, pm))
    else if d > DaysIn(y, m) then
      var ny := if m == 12 then y + 1 else y;
      var nm := if m == 12 then 1 else m + 1;
      NormalizeDay(ny, nm, d - DaysIn(y, m))
    else
      CivilDate(y, m, d)
  }

  /**
   * `new Date(y, m0, d)` read back as a calendar date: `None` is the Invalid
   * Date a NaN field gives.  Years 0..99 mean 1900..1999, the zero-based
   * month rolls over into the year, then the day into the month.
   */
  function MakeDate(y: Option<int>, m0: Option<int>, d: Option<int>): (r: Option<CivilDate>)
    ensures r.Some? <==> y.Some? && m0.Some? && d.Some?
    ensures r.Some? ==> ValidDate(r.value)
    ensures r.Some? && !(0 <= y.value <= 99) && 0 <= m0.value < 12 && 1 <= d.value <= DaysIn(y.value, m0.value + 1) ==>
      r.value == CivilDate(y.value, m0.value + 1, d.value)
  {
    if y.None? || m0.None? || d.None? then None
    else
      var year := if 0 <= y.value <= 99 then 1900 + y.value else y.value;
      Some(NormalizeDay(year + m0.value / 12, m0.value % 12 + 1, d.value))
  }

  /** `k + x` in JavaScript arithmetic, where NaN absorbs. */
  function Add(x: Option<int>, k: int): (r: Option<int>)
    ensures r.Some? <==> x.Some?
    ensures r.Some? ==> r.value == x.value + k
  {
    if x.None? then None else Some(x.value + k)
  }

  /**
   * `Number(s)` on strings of decimal digits, optionally `+`-signed; the
   * empty string is 0.  Everything else is NaN here, including decimal
   * fractions, which JavaScript would read as numbers.
   */
  function ToNumber(s: string): (r: Option<int>)
    ensures AllDigits(s) ==> r == Some(DigitsValue(s))
    ensures r.Some? ==> r.value >= 0
  {
    if AllDigits(s) then Some(DigitsValue(s))
    else if |s| > 1 && s[0] == '+' && AllDigits(s[1..]) then Some(DigitsValue(s[1..]))
    else None
  }

  /** The length of the run of digits `s` starts with. */
  function DigitRun(s: string): (n: nat)
    ensures n <= |s| && AllDigits(s[..n])
    ensures n < |s| ==> !IsDigit(s[n])
  {
    if s == [] || !IsDigit(s[0]) then 0
    else
      var n := 1 + DigitRun(s[1..]);
      assert s[..n] == [s[0]] + s[1..][..n - 1];
      n
  }

  /** The length of the run of hexadecimal digits `s` starts with. */
  function HexRun(s: string): (n: nat)
    ensures n <= |s| && AllHex(s[..n])
    ensures n < |s| ==> !IsHexDigit(s[n])
  {
    if s == [] || !IsHexDigit(s[0]) then 0
    else
      var n := 1 + HexRun(s[1..]);
      assert s[..n] == [s[0]] + s[1..][..n - 1];
      n
  }

  /** White space and line terminators, which `parseInt` skips before the number. */
  predicate IsSpace(c: char)
  {
    || c == ' ' || c == '\t' || c == '\n' || c == '\r' || c == '\U{0B}' || c == '\U{0C}'
    || c == '\U{A0}' || c == '\U{1680}' || ('\U{2000}' <= c <= '\U{200A}')
    || c == '\U{2028}' || c == '\U{2029}' || c == '\U{202F}' || c == '\U{205F}'
    || c == '\U{3000}' || c == '\U{FEFF}'
  }

  /** `s` without its leading white space. */
  function SkipSpace(s: string): (t: string)
    ensures t != [] ==> !IsSpace(t[0])
    ensures s == [] || !IsSpace(s[0]) ==> t == s
  {
    if s != [] && IsSpace(s[0]) then SkipSpace(s[1..]) else s
  }

  /** The longest run of digits `s` starts with, read in base 16 or 10; NaN when there is none. */
  function LeadingValue(s: string, hex: bool): (r: Option<nat>)
    ensures !hex && AllDigits(s) ==> (r.Some? <==> s != "")
    ensures !hex && AllDigits(s) && s != "" ==> r == Some(DigitsValue(s))
  {
    if hex then
      var n := HexRun(s);
      if n == 0 then None else Some(HexValue(s[..n]))
    else
      var n := DigitRun(s);
      assert AllDigits(s) ==> s[..n] == s;
      if n == 0 then None else Some(DigitsValue(s[..n]))
  }

  /** The unsigned part: base 16 after a `0x` or `0X` prefix, else base 10. */
  function Magnitude(s: string): (r: Option<nat>)
    ensures AllDigits(s) ==> r == LeadingValue(s, false)
  {
    if |s| >= 2 && s[0] == '0' && (s[1] == 'x' || s[1] == 'X') then LeadingValue(s[2..], true)
    else LeadingValue(s, false)
  }

  /** An optional sign, then the magnitude. */
  function ParseSigned(s: string): (r: Option<int>)
    ensures AllDigits(s) ==> r == LeadingValue(s, false)
  {
    if |s| > 0 && (s[0] == '+' || s[0] == '-') then
      match Magnitude(s[1..])
      case None => None
      case Some(v) => if s[0] == '-' then Some(-(v as int)) else Some(v)
    else
      match Magnitude(s)
      case None => None
      case Some(v) => Some(v)
  }

  /**
   * `parseInt(s)`: leading white space skipped, an optional sign, then the
   * longest run of digits, in base 16 after a `0x` or `0X` prefix; NaN when
   * there is no digit.
   */
  function ParseInt(s: string): (r: Option<int>)
    ensures AllDigits(s) ==> (r.Some? <==> s != "")
    ensures AllDigits(s) && s != "" ==> r == Some(DigitsValue(s))
  {
    ParseSigned(SkipSpace(s))
  }

  /** Leading white space does not change what `parseInt` reads. */
  lemma ParseIntSkipsSpace(c: char, s: string)
    requires IsSpace(c)
    ensures ParseInt([c] + s) == ParseInt(s)
  {
    assert ([c] + s)[1..] == s;
    assert SkipSpace([c] + s) == SkipSpace(s);
  }

  /** A `0x` prefix with no hexadecimal digit after it reads as NaN, not as 0. */
  lemma ParseIntBareHexPrefix(s: string)
    requires |s| >= 2 && s[0] == '0' && (s[1] == 'x' || s[1] == 'X')
    requires |s| == 2 || !IsHexDigit(s[2])
    ensures ParseInt(s).None?
  {
    assert SkipSpace(s) == s;
    assert HexRun(s[2..]) == 0;
  }

  /** `0x1A` is read in base 16. */
  lemma ParseIntHex()
    ensures ParseInt("0x1A") == Some(26)
  {
    var h := "1A";
    assert "0x1A"[2..] == h;
    assert HexRun(h) == 2;
    assert h[..2] == h && h[..1] == "1" && "1"[..0] == "";
    assert HexValue(h) == 26;
    assert Magnitude("0x1A") == Some(26);
  }

  /** `s.split(sep)`. */
  function Split(s: string, sep: char): (parts: seq<string>)
    ensures |parts| >= 1
    ensures forall i | 0 <= i < |parts| :: sep !in parts[i]
  {
    if s == [] then [""]
    else
      var n := |s| - 1;
      var prev := Split(s[..n], sep);
      if s[n] == sep then prev + [""]
      else prev[..|prev| - 1] + [prev[|prev| - 1] + [s[n]]]
  }

  /** `parts.join(sep)`. */
  function Join(parts: seq<string>, sep: char): string
    requires |parts| >= 1
  {
    if |parts| == 1 then parts[0]
    else Join(parts[..|parts| - 1], sep) + [sep] + parts[|parts| - 1]
  }

  /** Joining the pieces of a split with the separator gives the string back. */
  lemma {:induction false} JoinSplit(s: string, sep: char)
    ensures Join(Split(s, sep), sep) == s
  {
    if s != [] {
      var n := |s| - 1;
      var prev := Split(s[..n], sep);
      JoinSplit(s[..n], sep);
      var parts := Split(s, sep);
      if s[n] == sep {
        assert parts[..|parts| - 1] == prev;
      } else {
        var k := |prev| - 1;
        if k > 0 {
          assert parts[..k] == prev[..k];
          assert Join(prev, sep) == Join(prev[..k], sep) + [sep] + prev[k];
        }
      }
      assert s == s[..n] + [s[n]];
    }
  }

  /** A string without the separator splits into itself. */
  lemma {:induction false} SplitWhole(w: string, sep: char)
    requires sep !in w
    ensures Split(w, sep) == [w]
  {
    if w != [] {
      SplitWhole(w[..|w| - 1], sep);
      assert w == w[..|w| - 1] + [w[|w| - 1]];
    }
  }

  /** Appending a separator and a separator-free piece appends that piece to the split. */
  lemma {:induction false} SplitAfter(s: string, sep: char, w: string)
    requires sep !in w
    ensures Split(s + [sep] + w, sep) == Split(s, sep) + [w]
  {
    var t := s + [sep] + w;
    if w == [] {
      assert t[..|t| - 1] == s;
    } else {
      var w' := w[..|w| - 1];
      SplitAfter(s, sep, w');
      assert t[..|t| - 1] == s + [sep] + w';
      assert w == w' + [w[|w| - 1]];
    }
  }

  /** What `formatExpiration` returns. */
  datatype Shown =
    | Unchanged(text: string)                   // the argument itself
    | InvalidDate                               // "Invalid Date"
    | Formatted(date: CivilDate, showYear: bool) // month and day, and the year when `showYear`

  /** The display of a built date: the year is shown exactly when it is not the current one. */
  function Show(date: Option<CivilDate>, currentYear: int): (r: Shown)
    ensures date.None? ==> r == InvalidDate
    ensures date.Some? ==> r.Formatted? && r.date == date.value && (r.showYear <==> date.value.year != currentYear)
  {
    match date
    case None => InvalidDate
    case Some(d) => Formatted(d, d.year != currentYear)
  }

  /** `formatExpiration(dateStr)` when the clock's year is `currentYear`. */
  function FormatExpiration(dateStr: string, currentYear: int): (r: Shown)
    ensures r.Unchanged? <==> dateStr == "" || ('-' !in dateStr && |dateStr| != 6)
    ensures r.Unchanged? ==> r.text == dateStr
    ensures r.Formatted? ==> ValidDate(r.date) && (r.showYear <==> r.date.year != currentYear)
  {
    if dateStr == "" then Unchanged(dateStr)
    else if '-' in dateStr then FromParts(Split(dateStr, '-'), currentYear)
    else if |dateStr| == 6 then FromCompact(dateStr, currentYear)
    else Unchanged(dateStr)
  }

  /** The dashed branch: `Number` of the first three pieces, missing pieces being NaN. */
  function FromParts(parts: seq<string>, currentYear: int): (r: Shown)
    requires |parts| >= 1
    ensures r.InvalidDate? || r.Formatted?
  {
    var y := ToNumber(parts[0]);
    var m := if |parts| > 1 then ToNumber(parts[1]) else None;
    var d := if |parts| > 2 then ToNumber(parts[2]) else None;
    Show(MakeDate(y, Add(m, -1), d), currentYear)
  }

  /** The six-character branch: `parseInt` of the three pairs, the year taken as 20YY. */
  function FromCompact(dateStr: string, currentYear: int): (r: Shown)
    requires |dateStr| == 6
    ensures r.InvalidDate? || r.Formatted?
  {
    var yy := dateStr[0..2];
    var mm := dateStr[2..4];
    var dd := dateStr[4..6];
    Show(MakeDate(Add(ParseInt(yy), 2000), Add(ParseInt(mm), -1), ParseInt(dd)), currentYear)
  }

  /** `YYYY-MM-DD` with zero padding. */
  function Iso(y: nat, m: nat, d: nat): string
    requires y < 10000 && m < 100 && d < 100
  {
    PadDigits(y, 4) + "-" + PadDigits(m, 2) + "-" + PadDigits(d, 2)
  }

  lemma NoDashInDigits(s: string)
    requires AllDigits(s)
    ensures '-' !in s
  {
  }

  /** The three dash-separated numbers of a `YYYY-MM-DD` string are its year, month and day. */
  lemma ReadIso(y: nat, m: nat, d: nat, currentYear: int)
    requires y < 10000 && m < 100 && d < 100
    ensures FormatExpiration(Iso(y, m, d), currentYear) == Show(MakeDate(Some(y), Some(m - 1), Some(d)), currentYear)
  {
    var a, b, c := PadDigits(y, 4), PadDigits(m, 2), PadDigits(d, 2);
    ReadDashed(a, b, c, currentYear);
    assert Iso(y, m, d) == a + "-" + b + "-" + c;
  }

  /** Three dash-separated digit strings are read as year, one-based month and day. */
  lemma ReadDashed(a: string, b: string, c: string, currentYear: int)
    requires AllDigits(a) && AllDigits(b) && AllDigits(c)
    ensures FormatExpiration(a + "-" + b + "-" + c, currentYear) ==
      Show(MakeDate(Some(DigitsValue(a)), Some(DigitsValue(b) - 1), Some(DigitsValue(c))), currentYear)
  {
    NoDashInDigits(a);
    NoDashInDigits(b);
    NoDashInDigits(c);
    var s := a + "-" + b + "-" + c;
    assert s == (a + ['-'] + b) + ['-'] + c;
    assert s[|a|] == '-';
    SplitWhole(a, '-');
    SplitAfter(a, '-', b);
    SplitAfter(a + ['-'] + b, '-', c);
    assert Split(s, '-') == [a, b, c];
    assert s != "" && '-' in s;
    assert FormatExpiration(s, currentYear) == FromParts([a, b, c], currentYear);
  }

  /** A valid `YYYY-MM-DD` date from year 100 on is displayed as that date, with the year unless it is the current one. */
  lemma IsoShown(y: nat, m: nat, d: nat, currentYear: int)
    requires 100 <= y < 10000 && ValidDate(CivilDate(y, m, d))
    ensures FormatExpiration(Iso(y, m, d), currentYear) == Formatted(CivilDate(y, m, d), y != currentYear)
  {
    ReadIso(y, m, d, currentYear);
  }

  /** The year, month and day a `YYMMDD` string of digits is read as. */
  function CompactDate(yymmdd: string): (r: Option<CivilDate>)
    requires |yymmdd| == 6 && AllDigits(yymmdd)
    ensures r.Some?
  {
    MakeDate(Some(2000 + DigitsValue(yymmdd[..2])), Some(DigitsValue(yymmdd[2..4]) - 1), Some(DigitsValue(yymmdd[4..])))
  }

  lemma ReadCompact(yymmdd: string, currentYear: int)
    requires |yymmdd| == 6 && AllDigits(yymmdd)
    ensures FormatExpiration(yymmdd, currentYear) == Show(CompactDate(yymmdd), currentYear)
  {
    NoDashInDigits(yymmdd);
    var yy, mm, dd := yymmdd[0..2], yymmdd[2..4], yymmdd[4..6];
    DigitsSlice(yymmdd, 0, 2);
    DigitsSlice(yymmdd, 2, 4);
    DigitsSlice(yymmdd, 4, 6);
    var y, m, d := Add(ParseInt(yy), 2000), Add(ParseInt(mm), -1), ParseInt(dd);
    assert y == Some(2000 + DigitsValue(yymmdd[..2])) by { assert yy == yymmdd[..2]; }
    assert m == Some(DigitsValue(yymmdd[2..4]) - 1);
    assert d == Some(DigitsValue(yymmdd[4..])) by { assert dd == yymmdd[4..]; }
    assert FormatExpiration(yymmdd, currentYear) == FromCompact(yymmdd, currentYear);
  }

  lemma DigitsSlice(s: string, i: nat, j: nat)
    requires AllDigits(s) && i <= j <= |s|
    ensures AllDigits(s[i..j])
  {
  }

  lemma TwoDigitsValue(s: string)
    requires |s| == 2 && AllDigits(s)
    ensures DigitsValue(s) == DigitValue(s[0]) * 10 + DigitValue(s[1])
  {
    assert s[..1][..0] == [];
  }

  lemma TwentyPrefix(yy: string)
    requires |yy| == 2 && AllDigits(yy)
    ensures AllDigits("20" + yy) && DigitsValue("20" + yy) == 2000 + DigitsValue(yy)
  {
    var s := "20" + yy;
    assert s[..3][..2] == "20" && s[..3][..1] == "2" && "2"[..0] == "";
    assert yy[..1][..0] == "";
    assert DigitsValue(s) == (DigitsValue("20") * 10 + DigitValue(yy[0])) * 10 + DigitValue(yy[1]);
  }

  /**
   * The two input formats agree: a `YYMMDD` string and the `20YY-MM-DD`
   * string the backfill migration writes for it display the same.
   */
  lemma CompactAndIsoAgree(yymmdd: string, currentYear: int)
    requires |yymmdd| == 6 && AllDigits(yymmdd)
    ensures FormatExpiration(ExpirationBackfill.FormatExpiry(yymmdd), currentYear) == FormatExpiration(yymmdd, currentYear)
  {
    var a, b, c := "20" + yymmdd[..2], yymmdd[2..4], yymmdd[4..];
    TwentyPrefix(yymmdd[..2]);
    assert ExpirationBackfill.FormatExpiry(yymmdd) == a + "-" + b + "-" + c;
    calc {
      FormatExpiration(a + "-" + b + "-" + c, currentYear);
      == { ReadDashed(a, b, c, currentYear); }
      Show(MakeDate(Some(DigitsValue(a)), Some(DigitsValue(b) - 1), Some(DigitsValue(c))), currentYear);
      == { assert CompactDate(yymmdd) == MakeDate(Some(DigitsValue(a)), Some(DigitsValue(b) - 1), Some(DigitsValue(c))); }
      Show(CompactDate(yymmdd), currentYear);
      == { ReadCompact(yymmdd, currentYear); }
      FormatExpiration(yymmdd, currentYear);
    }
  }

  /** A valid `YYMMDD` date is displayed as that date of 20YY, with the year unless it is the current one. */
  lemma CompactShown(yymmdd: string, currentYear: int)
    requires |yymmdd| == 6 && AllDigits(yymmdd)
    requires ValidDate(CivilDate(2000 + DigitsValue(yymmdd[..2]), DigitsValue(yymmdd[2..4]), DigitsValue(yymmdd[4..])))
    ensures FormatExpiration(yymmdd, currentYear) ==
      var year := 2000 + DigitsValue(yymmdd[..2]);
      Formatted(CivilDate(year, DigitsValue(yymmdd[2..4]), DigitsValue(yymmdd[4..])), year != currentYear)
  {
    ReadCompact(yymmdd, currentYear);
  }

  /** A leading space in the compact form is skipped by `parseInt`: " 10101" is January 1, 2001. */
  lemma SpacedCompactYear()
    ensures FormatExpiration(" 10101", 2026) == Formatted(CivilDate(2001, 1, 1), true)
  {
    var s := " 10101";
    assert '-' !in s;
    assert s[0..2] == [' '] + "1" && s[2..4] == "01" && s[4..6] == "01";
    ParseIntSkipsSpace(' ', "1");
    assert ParseInt("1") == Some(1) && ParseInt("01") == Some(1) by {
      assert DigitsValue("01") == DigitsValue("0") * 10 + 1 by { assert "01"[..1] == "0"; }
      assert DigitsValue("1") == 1 by { assert "1"[..0] == ""; }
    }
    assert MakeDate(Some(2001), Some(0), Some(1)) == Some(CivilDate(2001, 1, 1));
  }

  /** A compact date starting `0x` reads its year as NaN, so it shows as an invalid date. */
  lemma HexPrefixedCompactIsInvalid()
    ensures FormatExpiration("0x0101", 2026) == InvalidDate
  {
    var s := "0x0101";
    assert '-' !in s;
    assert s[0..2] == "0x";
    ParseIntBareHexPrefix("0x");
  }

  /** February 4 of next year, written `YYMMDD`, shows "Feb 4" with the year. */
  lemma NextYearCompactShowsYear(currentYear: nat)
    requires 2000 <= currentYear + 1 <= 2099
    ensures FormatExpiration(PadDigits(currentYear + 1 - 2000, 2) + "0204", currentYear) ==
      Formatted(CivilDate(currentYear + 1, 2, 4), true)
  {
    var yy := PadDigits(currentYear + 1 - 2000, 2);
    var s := yy + "0204";
    assert s[..2] == yy && s[2..4] == "02" && s[4..] == "04";
    TwoDigitsValue("02");
    TwoDigitsValue("04");
    CompactShown(s, currentYear);
  }

  /** March 15 of the current year, written `YYYY-MM-DD`, shows "Mar 15" without the year. */
  lemma CurrentYearIsoHidesYear(currentYear: nat)
    requires 1000 <= currentYear < 10000
    ensures FormatExpiration(Iso(currentYear, 3, 15), currentYear) == Formatted(CivilDate(currentYear, 3, 15), false)
  {
    IsoShown(currentYear, 3, 15, currentYear);
  }

  /** December 25 of next year, written `YYYY-MM-DD`, shows "Dec 25, <year>". */
  lemma NextYearIsoShowsYear(currentYear: nat)
    requires 1000 <= currentYear + 1 < 10000
    ensures FormatExpiration(Iso(currentYear + 1, 12, 25), currentYear) == Formatted(CivilDate(currentYear + 1, 12, 25), true)
  {
    IsoShown(currentYear + 1, 12, 25, currentYear);
  }

  /**
   * Out-of-range days roll over as in JavaScript: `2026-12-32` is shown as
   * January 1 2027, with the year when the current year is 2026.
   */
  lemma DayRollsOver()
    ensures FormatExpiration(Iso(2026, 12, 32), 2026) == Formatted(CivilDate(2027, 1, 1), true)
  {
    ReadIso(2026, 12, 32, 2026);
    assert MakeDate(Some(2026), Some(11), Some(32)) == Some(NormalizeDay(2026, 12, 32));
    assert DaysIn(2026, 12) == 31;
    assert NormalizeDay(2026, 12, 32) == NormalizeDay(2027, 1, 1);
  }

  /** A year below 100 is read as 19xx. */
  lemma TwoDigitYears(y: nat, m: nat, d: nat, currentYear: int)
    requires y < 100 && 1 <= m <= 12 && 1 <= d <= DaysIn(1900 + y, m)
    ensures FormatExpiration(Iso(y, m, d), currentYear) == Formatted(CivilDate(1900 + y, m, d), 1900 + y != currentYear)
  {
    ReadIso(y, m, d, currentYear);
    assert (m - 1) / 12 == 0 && (m - 1) % 12 == m - 1;
  }

  /** `0026-03-15` is March 15 1926. */
  lemma TwoDigitYearIsNineteenth()
    ensures FormatExpiration(Iso(26, 3, 15), 2026) == Formatted(CivilDate(1926, 3, 15), true)
  {
    assert DaysIn(1926, 3) == 31;
    TwoDigitYears(26, 3, 15, 2026);
  }
}
