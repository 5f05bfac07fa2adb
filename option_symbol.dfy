/**
 * The standard option-symbol encoding `<UNDERLYING><YYMMDD><C|P><strike × 1000, 8 digits>`,
 * e.g. `AAPL260204C00250000`, and the two unanchored regular expressions the
 * game matches against it:
 *
 *   - `[A-Z]+(\d{6})[CP](\d{8})` (strike parse, expiration backfill);
 *   - `\d{6}([CP])\d{8}` (right detection in the expiry sweep).
 *
 * `String.prototype.match` returns the LEFTMOST match.  For the first pattern
 * the greedy letter run can only end where the digit block starts (a letter
 * is never a digit), so a match is determined by the index `k` where its six
 * digits start, and the leftmost match is the one with the least such `k`;
 * `LeftmostMatch` proves this.
 */
module OptionSymbol {
  import opened Wrappers
  import opened Text
  import opened Trades

  /** `\d{6}[CP]\d{8}` matches at `k`. */
  predicate TailAt(s: string, k: nat)
  {
    && k + 15 <= |s|
    && AllDigits(s[k..k + 6])
    && (s[k + 6] == 'C' || s[k + 6] == 'P')
    && AllDigits(s[k + 7..k + 15])
  }

  /** `[A-Z]+\d{6}[CP]\d{8}` matches `s[i..k+15]` with the letter run `s[i..k]`. */
  ghost predicate MatchSpan(s: string, i: nat, k: nat)
  {
    i < k <= |s| && AllUpper(s[i..k]) && TailAt(s, k)
  }

  /** Some match of the letter-prefixed pattern has its digit block at `k`. */
  predicate OccAt(s: string, k: nat)
  {
    0 < k <= |s| && IsUpper(s[k - 1]) && TailAt(s, k)
  }

  /** The least `k >= from` at which the letter-prefixed pattern has its digit block. */
  function FindOcc(s: string, from: nat): (r: Option<nat>)
    decreases |s| - from
    ensures r.Some? ==> from <= r.value && OccAt(s, r.value)
    ensures r.Some? ==> forall k | from <= k < r.value :: !OccAt(s, k)
    ensures r.None? ==> forall k | from <= k :: !OccAt(s, k)
  {
    if from + 15 > |s| then None
    else if OccAt(s, from) then Some(from)
    else FindOcc(s, from + 1)
  }

  /** Where the leftmost match of `[A-Z]+(\d{6})[CP](\d{8})` has its six digits. */
  function FirstOcc(s: string): Option<nat>
  {
    FindOcc(s, 0)
  }

  /** The least `k >= from` at which `\d{6}[CP]\d{8}` matches. */
  function FindTail(s: string, from: nat): (r: Option<nat>)
    decreases |s| - from
    ensures r.Some? ==> from <= r.value && TailAt(s, r.value)
    ensures r.Some? ==> forall k | from <= k < r.value :: !TailAt(s, k)
    ensures r.None? ==> forall k | from <= k :: !TailAt(s, k)
  {
    if from + 15 > |s| then None
    else if TailAt(s, from) then Some(from)
    else FindTail(s, from + 1)
  }

  /** Where the leftmost match of `\d{6}([CP])\d{8}` starts. */
  function FirstTail(s: string): Option<nat>
  {
    FindTail(s, 0)
  }

  /**
   * `FirstOcc` is what the regular-expression engine finds: every match ends
   * its letter run at or after `FirstOcc`, every match that starts before it
   * ends its letter run exactly there, and one such match exists.  So the
   * leftmost match captures the digits at `FirstOcc`; no match at all exactly
   * when `FirstOcc` is `None`.
   */
  lemma LeftmostMatch(s: string)
    ensures FirstOcc(s).None? ==> forall i: nat, k: nat :: !MatchSpan(s, i, k)
    ensures FirstOcc(s).Some? ==>
      var j := FirstOcc(s).value;
      && MatchSpan(s, j - 1, j)
      && forall i: nat, k: nat | MatchSpan(s, i, k) :: j <= k && (i < j ==> k == j)
  {
    forall i: nat, k: nat | MatchSpan(s, i, k)
      ensures OccAt(s, k)
    {
      assert s[i..k][k - 1 - i] == s[k - 1];
    }
    if FirstOcc(s).Some? {
      var j := FirstOcc(s).value;
      assert s[j - 1..j] == [s[j - 1]];
      forall i: nat, k: nat | MatchSpan(s, i, k) && i < j
        ensures k == j
      {
        assert IsDigit(s[j]) by { assert s[j..j + 6][0] == s[j]; }
        assert j < k ==> IsUpper(s[j]) by {
          if j < k { assert s[i..k][j - i] == s[j]; }
        }
      }
    }
  }

  /** A contract in its parts: underlying, `YYMMDD` expiry, right and strike in thousandths. */
  datatype Contract = Contract(underlying: string, expiry: string, right: Side, strikeMilli: nat)

  predicate WellFormed(c: Contract)
  {
    && |c.underlying| > 0 && AllUpper(c.underlying)
    && |c.expiry| == 6 && AllDigits(c.expiry)
    && c.strikeMilli < Pow10(8)
  }

  function RightLetter(r: Side): char
  {
    match r
    case Call => 'C'
    case Put => 'P'
  }

  /** The option symbol of a contract. */
  function Encode(c: Contract): (s: string)
    requires WellFormed(c)
    ensures |s| == |c.underlying| + 15
  {
    c.underlying + c.expiry + [RightLetter(c.right)] + PadDigits(c.strikeMilli, 8)
  }

  /** The pieces of an encoded symbol sit where the decoders look for them. */
  lemma EncodeLayout(c: Contract)
    requires WellFormed(c)
    ensures var s, k := Encode(c), |c.underlying|;
      && s[..k] == c.underlying
      && s[k..k + 6] == c.expiry
      && s[k + 6] == RightLetter(c.right)
      && s[k + 7..k + 15] == PadDigits(c.strikeMilli, 8)
  {
  }

  /** Both patterns find an encoded symbol's digits right after its underlying. */
  lemma FirstMatchOfEncoded(c: Contract)
    requires WellFormed(c)
    ensures FirstOcc(Encode(c)) == Some(|c.underlying|)
    ensures FirstTail(Encode(c)) == Some(|c.underlying|)
  {
    var s, n := Encode(c), |c.underlying|;
    EncodeLayout(c);
    assert TailAt(s, n);
    assert OccAt(s, n) by { assert s[n - 1] == c.underlying[n - 1]; }
    forall k | 0 <= k < n
      ensures !TailAt(s, k) && !OccAt(s, k)
    {
      assert s[k] == c.underlying[k];
      if k + 6 <= |s| {
        assert s[k..k + 6][0] == s[k];
      }
    }
    FindOccFrom(s, 0, n);
    FindTailFrom(s, 0, n);
  }

  lemma {:induction false} FindOccFrom(s: string, from: nat, n: nat)
    requires from <= n && OccAt(s, n)
    requires forall k | from <= k < n :: !OccAt(s, k)
    ensures FindOcc(s, from) == Some(n)
    decreases n - from
  {
    if from < n {
      FindOccFrom(s, from + 1, n);
    }
  }

  lemma {:induction false} FindTailFrom(s: string, from: nat, n: nat)
    requires from <= n && TailAt(s, n)
    requires forall k | from <= k < n :: !TailAt(s, k)
    ensures FindTail(s, from) == Some(n)
    decreases n - from
  {
    if from < n {
      FindTailFrom(s, from + 1, n);
    }
  }
}
