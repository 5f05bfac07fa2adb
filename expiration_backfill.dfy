/**
 * The migration that adds `trades.expiration_date` and backfills it from
 * each trade's option symbol: the six `YYMMDD` digits of the leftmost match
 * of `[A-Z]+(\d{6})[CP]\d{8}` become the date `20YY-MM-DD`.
 */
module ExpirationBackfill {
  import opened Wrappers
  import opened Text
  import opened Trades
  import opened OptionSymbol

  /** `YYMMDD` written as `20YY-MM-DD` (lines 21-24). */
  function FormatExpiry(yymmdd: string): (date: string)
    requires |yymmdd| == 6
    ensures |date| == 10
  {
    "20" + yymmdd[..2] + "-" + yymmdd[2..4] + "-" + yymmdd[4..]
  }

  /** The `YYMMDD` digits a `20YY-MM-DD` date was written from. */
  function CompactExpiry(date: string): (yymmdd: string)
    requires |date| == 10
    ensures |yymmdd| == 6
  {
    date[2..4] + date[5..7] + date[8..]
  }

  /** `YYYY-MM-DD`: four, two and two digits separated by dashes. */
  predicate IsIsoDate(date: string)
  {
    && |date| == 10
    && AllDigits(date[..4]) && date[4] == '-' && AllDigits(date[5..7]) && date[7] == '-' && AllDigits(date[8..])
  }

  /** A date of this century as `FormatExpiry` writes it. */
  predicate IsCenturyDate(date: string)
  {
    IsIsoDate(date) && date[..2] == "20"
  }

  /**
   * The formatted date has the `YYYY-MM-DD` shape with a year in
   * 2000..2099, and its digits are the `YYMMDD` digits after the "20".
   */
  lemma FormatExpiryShape(yymmdd: string)
    requires |yymmdd| == 6 && AllDigits(yymmdd)
    ensures IsCenturyDate(FormatExpiry(yymmdd))
    ensures 2000 <= DigitsValue(FormatExpiry(yymmdd)[..4]) <= 2099
    ensures CompactExpiry(FormatExpiry(yymmdd)) == yymmdd
  {
    var date := FormatExpiry(yymmdd);
    assert date[..4] == "20" + yymmdd[..2];
    assert date[5..7] == yymmdd[2..4];
    assert date[8..] == yymmdd[4..];
    var year := date[..4];
    assert year[..3][..2] == "20";
    assert DigitsValue(year) == DigitsValue(year[..3]) * 10 + DigitValue(year[3]);
    assert DigitsValue(year[..3]) == DigitsValue(year[..3][..2]) * 10 + DigitValue(year[2]);
    assert DigitsValue("20") == 20 by {
      assert "20"[..1] == "2";
      assert "2"[..0] == "";
    }
    assert yymmdd[..2] + yymmdd[2..4] + yymmdd[4..] == yymmdd;
  }

  /** Every date of this century is written from its own compact digits. */
  lemma FormatCompactExpiry(date: string)
    requires IsCenturyDate(date)
    ensures AllDigits(CompactExpiry(date))
    ensures FormatExpiry(CompactExpiry(date)) == date
  {
    var d := CompactExpiry(date);
    assert d[..2] == date[2..4] && d[2..4] == date[5..7] && d[4..] == date[8..];
    assert date == date[..2] + date[2..4] + "-" + date[5..7] + "-" + date[8..];
  }

  /**
   * The expiration date the migration derives from an option symbol: the
   * six digits of the leftmost match, or nothing when the pattern does not
   * match.
   */
  function ExpirationOf(optionSymbol: string): (r: Option<string>)
    ensures r.None? <==> FirstOcc(optionSymbol).None?
    ensures r.Some? ==>
      var k := FirstOcc(optionSymbol).value;
      && IsCenturyDate(r.value)
      && CompactExpiry(r.value) == optionSymbol[k..k + 6]
  {
    match FirstOcc(optionSymbol)
    case None => None
    case Some(k) =>
      FormatExpiryShape(optionSymbol[k..k + 6]);
      Some(FormatExpiry(optionSymbol[k..k + 6]))
  }

  /** Decoding the expiration of an encoded contract gives its own expiry back. */
  lemma ExpirationOfEncoded(c: Contract)
    requires WellFormed(c)
    ensures ExpirationOf(Encode(c)) == Some(FormatExpiry(c.expiry))
    ensures CompactExpiry(ExpirationOf(Encode(c)).value) == c.expiry
  {
    FirstMatchOfEncoded(c);
    EncodeLayout(c);
    FormatExpiryShape(c.expiry);
  }

  /**
   * One iteration of the loop of lines 12-28: a trade without an option
   * symbol, or whose symbol does not match, keeps its row as it is.
   */
  function BackfillRow(t: Trade): (r: Trade)
    ensures r == t.(expirationDate := r.expirationDate)
    ensures t.optionSymbol == "" || ExpirationOf(t.optionSymbol).None? ==> r == t
    ensures t.optionSymbol != "" && ExpirationOf(t.optionSymbol).Some? ==>
      r.expirationDate == ExpirationOf(t.optionSymbol) && IsCenturyDate(r.expirationDate.value)
  {
    if t.optionSymbol == "" then t
    else
      match ExpirationOf(t.optionSymbol)
      case None => t
      case Some(date) => t.(expirationDate := Some(date))
  }

  /** Running the backfill a second time changes nothing. */
  lemma BackfillIdempotent(t: Trade)
    ensures BackfillRow(BackfillRow(t)) == BackfillRow(t)
  {
  }

  /** The backfill over the whole `trades` table, row by row in place. */
  method Backfill(trades: array<Trade>)
    modifies trades
    ensures forall i | 0 <= i < trades.Length :: trades[i] == BackfillRow(old(trades[i]))
  {
    for i := 0 to trades.Length
      invariant forall j | 0 <= j < i :: trades[j] == BackfillRow(old(trades[j]))
      invariant forall j | i <= j < trades.Length :: trades[j] == old(trades[j])
    {
      var trade := trades[i];
      if trade.optionSymbol == "" {
        continue;
      }
      var found := FirstOcc(trade.optionSymbol);
      if found.Some? {
        var dateStr := trade.optionSymbol[found.value..found.value + 6];
        var year := "20" + dateStr[..2];
        var month := dateStr[2..4];
        var day := dateStr[4..6];
        var formattedDate := year + "-" + month + "-" + day;
        assert dateStr[4..6] == dateStr[4..];
        trades[i] := trade.(expirationDate := Some(formattedDate));
      }
    }
  }
}
