/**
 * Receipt and expense identifiers (`generateReceiptId` in
 * controllers/contributionController.js and controllers/paymentController.js,
 * `generateExpenseId` in controllers/expenditureController.js): a prefix,
 * the date as YYYYMMDD, a dash and a three-digit random suffix, redrawn on
 * collision at most ten times. The clock and the random numbers are
 * parameters.
 */
module DatedIds {
  import opened Text
  import opened Calendar

  const ReceiptPrefix: string := "RCT"
  const ExpensePrefix: string := "EXP"
  const MaxRetries: nat := 10

  /** `${year}${month + 1 padded to 2}${day padded to 2}` */
  function DateStamp(now: Moment): (s: string)
    requires 1000 <= now.year <= 9999 && 0 <= now.month < 12 && 1 <= now.day <= 31
    ensures |s| == 8 && forall i :: 0 <= i < 8 ==> IsDigit(s[i])
  {
    var y := NatToString(now.year);
    assert |y| == 4 by { YearDigits(now.year); }
    var m := PadStart(NatToString(now.month + 1), 2, '0');
    var d := PadStart(NatToString(now.day), 2, '0');
    assert |NatToString(now.month + 1)| <= 2 by { SmallDigits(now.month + 1); }
    assert |NatToString(now.day)| <= 2 by { SmallDigits(now.day); }
    y + m + d
  }

  lemma SmallDigits(n: nat)
    requires n < 100
    ensures |NatToString(n)| <= 2
  {
    if n >= 10 { assert NatToString(n / 10) == [DigitChar(n / 10)]; }
  }

  lemma YearDigits(n: nat)
    requires 1000 <= n <= 9999
    ensures |NatToString(n)| == 4
  {
    assert NatToString(n / 1000) == [DigitChar(n / 1000)];
    assert |NatToString(n / 100)| == 2;
    assert |NatToString(n / 10)| == 3;
  }

  /** `String(n).padStart(3, '0')` for a draw of `Math.floor(Math.random() * 1000)`. */
  function Suffix(n: nat): (s: string)
    requires n < 1000
    ensures |s| == 3
    ensures forall i :: 0 <= i < 3 ==> IsDigit(s[i])
    ensures ParseNat(s) == n
  {
    PaddedNatRoundTrip(n, 3);
    assert |NatToString(n)| <= 3 by {
      if n >= 10 {
        SmallDigits(n / 10);
      }
    }
    PadStart(NatToString(n), 3, '0')
  }

  function DatedId(prefix: string, now: Moment, n: nat): (id: string)
    requires 1000 <= now.year <= 9999 && 0 <= now.month < 12 && 1 <= now.day <= 31
    requires n < 1000
    ensures |id| == |prefix| + 12
    ensures id[..|prefix|] == prefix && id[|prefix| + 8] == '-'
    ensures id[|prefix|..|prefix| + 8] == DateStamp(now)
    ensures id[|prefix| + 9..] == Suffix(n) && ParseNat(id[|prefix| + 9..]) == n
  {
    var id := prefix + DateStamp(now) + "-" + Suffix(n);
    assert id[|prefix| + 9..] == Suffix(n);
    id
  }

  /** The suffix can be read back, so ids of one prefix and day are distinct for distinct draws. */
  lemma DatedIdInjective(prefix: string, now: Moment, a: nat, b: nat)
    requires 1000 <= now.year <= 9999 && 0 <= now.month < 12 && 1 <= now.day <= 31
    requires a < 1000 && b < 1000
    ensures DatedId(prefix, now, a) == DatedId(prefix, now, b) <==> a == b
  {
  }

  /** The documented shape: `RCT20240115-007` for a draw of 7 on 15 January 2024. */
  lemma ReceiptIdExample()
    ensures DatedId(ReceiptPrefix, Moment(2024, 0, 15, 10, 30, 0, 0), 7) == "RCT20240115-007"
  {
    assert NatToString(2024) == "2024" by {
      assert NatToString(2) == "2";
      assert NatToString(20) == "20";
      assert NatToString(202) == "202";
    }
    assert NatToString(15) == "15";
  }

  /**
   * The collision loop: draw, and while the id is taken and fewer than ten
   * redraws have been made, draw again. The last id is used even when it is
   * still taken (the unique index then refuses the insert).
   */
  method FreshId(prefix: string, now: Moment, draws: seq<nat>, taken: set<string>) returns (id: string, retries: nat)
    requires 1000 <= now.year <= 9999 && 0 <= now.month < 12 && 1 <= now.day <= 31
    requires |draws| > MaxRetries && forall i :: 0 <= i < |draws| ==> draws[i] < 1000
    ensures retries <= MaxRetries
    ensures id == Candidates(prefix, now, draws)[retries]
    ensures forall j :: 0 <= j < retries ==> Candidates(prefix, now, draws)[j] in taken
    ensures id in taken ==> retries == MaxRetries
  {
    id, retries := FirstFree(Candidates(prefix, now, draws), taken);
  }

  /** The loop over ready-made candidates: stop at the first free one or after the last redraw. */
  method FirstFree(candidates: seq<string>, taken: set<string>) returns (id: string, retries: nat)
    requires |candidates| > MaxRetries
    ensures retries <= MaxRetries
    ensures id == candidates[retries]
    ensures forall j :: 0 <= j < retries ==> candidates[j] in taken
    ensures id in taken ==> retries == MaxRetries
  {
    retries := 0;
    id := candidates[0];
    while id in taken && retries < MaxRetries
      invariant retries <= MaxRetries
      invariant id == candidates[retries]
      invariant forall j :: 0 <= j < retries ==> candidates[j] in taken
    {
      retries := retries + 1;
      id := candidates[retries];
    }
  }

  /** The id each draw would give, in draw order. */
  function Candidates(prefix: string, now: Moment, draws: seq<nat>): (ids: seq<string>)
    requires 1000 <= now.year <= 9999 && 0 <= now.month < 12 && 1 <= now.day <= 31
    requires forall i :: 0 <= i < |draws| ==> draws[i] < 1000
    ensures |ids| == |draws|
    ensures forall j :: 0 <= j < |draws| ==> ids[j] == DatedId(prefix, now, draws[j])
  {
    seq(|draws|, j requires 0 <= j < |draws| => DatedId(prefix, now, draws[j]))
  }
}
