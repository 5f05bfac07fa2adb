/**
 * `isMarketOpen` once New York time has been rendered as a short string such
 * as `Wed 09:30` or `Wed, 09:30`: find the leftmost match of
 * `(\w+)[, ]+(\d{2}):(\d{2})`, refuse weekends, and accept the minutes from
 * 9:30 up to but excluding 16:00.  Holidays are not considered.
 */
module MarketHours {
  import opened Wrappers
  import opened Text

  const OpenMinute := 9 * 60 + 30
  const CloseMinute := 16 * 60

  predicate IsSeparator(c: char) { c == ',' || c == ' ' }

  /** The end of the run of word characters starting at `i`. */
  function WordEnd(s: string, i: nat): (e: nat)
    requires i <= |s|
    ensures i <= e <= |s|
    ensures forall j | i <= j < e :: IsWordChar(s[j])
    ensures e < |s| ==> !IsWordChar(s[e])
    ensures i < |s| && IsWordChar(s[i]) ==> i < e
    decreases |s| - i
  {
    if i < |s| && IsWordChar(s[i]) then WordEnd(s, i + 1) else i
  }

  /** The end of the run of separators starting at `i`. */
  function SepEnd(s: string, i: nat): (e: nat)
    requires i <= |s|
    ensures i <= e <= |s|
    ensures forall j | i <= j < e :: IsSeparator(s[j])
    ensures e < |s| ==> !IsSeparator(s[e])
    decreases |s| - i
  {
    if i < |s| && IsSeparator(s[i]) then SepEnd(s, i + 1) else i
  }

  /** `\d{2}:\d{2}` at `f`. */
  predicate ClockAt(s: string, f: nat)
  {
    f + 5 <= |s| && IsDigit(s[f]) && IsDigit(s[f + 1]) && s[f + 2] == ':' && IsDigit(s[f + 3]) && IsDigit(s[f + 4])
  }

  /**
   * The whole pattern matches `s[i..f+5]` with the word `s[i..e]` and the
   * separators `s[e..f]`.
   */
  ghost predicate MatchSpan(s: string, i: nat, e: nat, f: nat)
  {
    i < e < f <= |s|
    && (forall j | i <= j < e :: IsWordChar(s[j]))
    && (forall j | e <= j < f :: IsSeparator(s[j]))
    && ClockAt(s, f)
  }

  /** The match starting at `i` that greedy matching with backtracking tries. */
  predicate MatchesAt(s: string, i: nat)
  {
    i < |s| && IsWordChar(s[i])
    && var e := WordEnd(s, i);
      var f := SepEnd(s, e);
      e < f && ClockAt(s, f)
  }

  /**
   * A match starting at `i` is unique: the word can only end where the word
   * characters run out (a separator is no word character) and the separators
   * where they run out (a digit is no separator).  So the pattern matches
   * at `i` exactly when `MatchesAt` holds.
   */
  lemma MatchAtIsGreedy(s: string, i: nat)
    ensures MatchesAt(s, i) ==> MatchSpan(s, i, WordEnd(s, i), SepEnd(s, WordEnd(s, i)))
    ensures forall e: nat, f: nat | MatchSpan(s, i, e, f) :: e == WordEnd(s, i) && f == SepEnd(s, e)
  {
    forall e: nat, f: nat | MatchSpan(s, i, e, f)
      ensures e == WordEnd(s, i) && f == SepEnd(s, e)
    {
      WordEndAt(s, i, e);
      SepEndAt(s, e, f);
    }
  }

  lemma {:induction false} WordEndAt(s: string, i: nat, e: nat)
    requires i <= e < |s| && !IsWordChar(s[e])
    requires forall j | i <= j < e :: IsWordChar(s[j])
    ensures WordEnd(s, i) == e
    decreases e - i
  {
    if i < e {
      WordEndAt(s, i + 1, e);
    }
  }

  lemma {:induction false} SepEndAt(s: string, i: nat, f: nat)
    requires i <= f < |s| && !IsSeparator(s[f])
    requires forall j | i <= j < f :: IsSeparator(s[j])
    ensures SepEnd(s, i) == f
    decreases f - i
  {
    if i < f {
      SepEndAt(s, i + 1, f);
    }
  }

  /** The least start `i >= from` of a match. */
  function FindMatch(s: string, from: nat): (r: Option<nat>)
    ensures r.Some? ==> from <= r.value && MatchesAt(s, r.value)
    ensures r.Some? ==> forall i | from <= i < r.value :: !MatchesAt(s, i)
    ensures r.None? ==> forall i | from <= i :: !MatchesAt(s, i)
    decreases |s| - from
  {
    if from >= |s| then None
    else if MatchesAt(s, from) then Some(from)
    else FindMatch(s, from + 1)
  }

  /** The captured weekday, hour and minute of a time string. */
  datatype Clock = Clock(day: string, hour: nat, minute: nat)

  /** `nyTimeStr.match(...)` with `parseInt` applied to the hour and minute groups. */
  function ParseClock(s: string): (r: Option<Clock>)
    ensures r.Some? ==> r.value.hour < 100 && r.value.minute < 100 && |r.value.day| > 0
  {
    match FindMatch(s, 0)
    case None => None
    case Some(i) =>
      var e := WordEnd(s, i);
      var f := SepEnd(s, e);
      assert AllDigits(s[f..f + 2]) && AllDigits(s[f + 3..f + 5]);
      assert Pow10(2) == 100;
      Some(Clock(s[i..e], DigitsValue(s[f..f + 2]), DigitsValue(s[f + 3..f + 5])))
  }

  predicate IsWeekend(day: string) { day == "Sat" || day == "Sun" }

  /** The trading-hours rule on a parsed time. */
  predicate OpenAt(c: Clock)
  {
    !IsWeekend(c.day) && OpenMinute <= c.hour * 60 + c.minute < CloseMinute
  }

  /** `isMarketOpen` on the rendered New York time. */
  function IsMarketOpen(nyTime: string): (open: bool)
    ensures open <==> ParseClock(nyTime).Some? && OpenAt(ParseClock(nyTime).value)
    ensures ParseClock(nyTime).None? ==> !open
  {
    match ParseClock(nyTime)
    case None => false
    case Some(c) => !IsWeekend(c.day) && OpenMinute <= c.hour * 60 + c.minute && c.hour * 60 + c.minute < CloseMinute
  }

  /** A time as the locale formatter writes it: weekday, separator, two-digit hour and minute. */
  function Render(day: string, sep: string, hour: nat, minute: nat): string
    requires hour < 100 && minute < 100
  {
    day + sep + PadDigits(hour, 2) + ":" + PadDigits(minute, 2)
  }

  /** Parsing a rendered time gives back its weekday, hour and minute. */
  lemma ParseRender(day: string, sep: string, hour: nat, minute: nat)
    requires hour < 100 && minute < 100
    requires |day| > 0 && forall j | 0 <= j < |day| :: IsUpper(day[j]) || 'a' <= day[j] <= 'z'
    requires sep == " " || sep == ", "
    ensures ParseClock(Render(day, sep, hour, minute)) == Some(Clock(day, hour, minute))
  {
    var s := Render(day, sep, hour, minute);
    var e, f := |day|, |day| + |sep|;
    var hh, mm := PadDigits(hour, 2), PadDigits(minute, 2);
    assert s == day + sep + hh + ":" + mm;
    assert |s| == f + 5;
    assert forall j | 0 <= j < e :: s[j] == day[j];
    assert forall j | e <= j < f :: s[j] == sep[j - e];
    assert s[f] == hh[0] && s[f + 1] == hh[1] && s[f + 2] == ':' && s[f + 3] == mm[0] && s[f + 4] == mm[1];
    assert ClockAt(s, f);
    WordEndAt(s, 0, e);
    SepEndAt(s, e, f);
    assert FindMatch(s, 0) == Some(0);
    assert s[0..e] == day;
    assert s[f..f + 2] == hh;
    assert s[f + 3..f + 5] == mm;
  }

  /** On a rendered time the rule is exactly: a weekday, and 570 <= minutes < 960. */
  lemma OpenRendered(day: string, sep: string, hour: nat, minute: nat)
    requires hour < 100 && minute < 100
    requires |day| > 0 && forall j | 0 <= j < |day| :: IsUpper(day[j]) || 'a' <= day[j] <= 'z'
    requires sep == " " || sep == ", "
    ensures IsMarketOpen(Render(day, sep, hour, minute)) <==>
      day != "Sat" && day != "Sun" && 570 <= hour * 60 + minute < 960
  {
    ParseRender(day, sep, hour, minute);
  }

  /** The scenarios of the market-hours script, in New York time. */
  lemma ScenarioBeforeOpen()
    ensures !IsMarketOpen(Render("Wed", " ", 8, 0))
  {
    OpenRendered("Wed", " ", 8, 0);
  }

  lemma ScenarioMorning()
    ensures IsMarketOpen(Render("Wed", " ", 10, 0))
  {
    OpenRendered("Wed", " ", 10, 0);
  }

  lemma ScenarioAfternoon()
    ensures IsMarketOpen(Render("Wed", " ", 15, 30))
  {
    OpenRendered("Wed", " ", 15, 30);
  }

  lemma ScenarioAfterClose()
    ensures !IsMarketOpen(Render("Wed", " ", 17, 0))
  {
    OpenRendered("Wed", " ", 17, 0);
  }

  lemma ScenarioSunday()
    ensures !IsMarketOpen(Render("Sun", " ", 10, 0))
  {
    OpenRendered("Sun", " ", 10, 0);
  }

  /** The opening minute is inside the window and the closing minute outside it. */
  lemma ScenarioBoundaries()
    ensures IsMarketOpen(Render("Mon", ", ", 9, 30))
    ensures !IsMarketOpen(Render("Mon", ", ", 16, 0))
  {
    OpenRendered("Mon", ", ", 9, 30);
    OpenRendered("Mon", ", ", 16, 0);
  }
}
