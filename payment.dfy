/**
 * Hourly billing (parklot.py:84-90). Durations are whole seconds; Dafny's `/` by the positive
 * constant 3600 rounds toward negative infinity, exactly as Python's `//` does, so negative
 * durations are billed as in the source (one hour).
 */
module Payment {

  const SecondsPerHour: int := 3600
  const DefaultRatePerHour: int := 10

  /** Hours billed for a stay: the whole hours elapsed, but never fewer than one. */
  function BilledHours(parkedSeconds: int): (h: int)
    ensures h >= 1
    ensures parkedSeconds < 2 * SecondsPerHour ==> h == 1
    ensures parkedSeconds >= SecondsPerHour ==>
      h * SecondsPerHour <= parkedSeconds < (h + 1) * SecondsPerHour
  {
    var whole := parkedSeconds / SecondsPerHour;
    if whole > 1 then whole else 1
  }

  /** The processor only holds its hourly rate, which never changes. */
  datatype PaymentProcessor = PaymentProcessor(ratePerHour: int)
  {
    /**
     * The fee for a stay: one hour's rate for anything under two hours, and otherwise the rate
     * times the whole hours elapsed.
     */
    function CalculateFee(parkedSeconds: int): (fee: int)
      ensures parkedSeconds < 2 * SecondsPerHour ==> fee == ratePerHour
      ensures parkedSeconds >= SecondsPerHour ==> fee == (parkedSeconds / SecondsPerHour) * ratePerHour
    {
      BilledHours(parkedSeconds) * ratePerHour
    }
  }

  /** A processor built without an explicit rate charges 10 per hour. */
  const DefaultProcessor: PaymentProcessor := PaymentProcessor(DefaultRatePerHour)

  /** Reference points: under two hours is one rate, exactly two hours is two. */
  lemma FeeExamples(p: PaymentProcessor)
    ensures p.CalculateFee(0) == p.ratePerHour
    ensures p.CalculateFee(SecondsPerHour) == p.ratePerHour
    ensures p.CalculateFee(SecondsPerHour + 1) == p.ratePerHour
    ensures p.CalculateFee(2 * SecondsPerHour) == 2 * p.ratePerHour
    ensures DefaultProcessor.CalculateFee(0) == 10
  {
  }

  /** A longer stay is never billed for fewer hours. */
  lemma BilledHoursMonotone(s1: int, s2: int)
    requires s1 <= s2
    ensures BilledHours(s1) <= BilledHours(s2)
  {
    if s1 >= SecondsPerHour {
      assert s1 / SecondsPerHour <= s2 / SecondsPerHour;
    }
  }

  /** With a non-negative rate the fee never decreases as the stay grows. */
  lemma FeeMonotone(p: PaymentProcessor, s1: int, s2: int)
    requires p.ratePerHour >= 0
    requires s1 <= s2
    ensures p.CalculateFee(s1) <= p.CalculateFee(s2)
  {
    BilledHoursMonotone(s1, s2);
    var h1, h2 := BilledHours(s1), BilledHours(s2);
    assert h2 * p.ratePerHour - h1 * p.ratePerHour == (h2 - h1) * p.ratePerHour;
    assert (h2 - h1) * p.ratePerHour >= 0;
  }

  /** With a non-negative rate every stay costs at least one hour's rate. */
  lemma FeeAtLeastRate(p: PaymentProcessor, s: int)
    requires p.ratePerHour >= 0
    ensures p.CalculateFee(s) >= p.ratePerHour
  {
    var h := BilledHours(s);
    assert h * p.ratePerHour - p.ratePerHour == (h - 1) * p.ratePerHour;
    assert (h - 1) * p.ratePerHour >= 0;
  }

  /** Once past the first hour, each further full hour adds exactly one rate. */
  lemma FeeExtraHour(p: PaymentProcessor, s: int)
    requires s >= SecondsPerHour
    ensures p.CalculateFee(s + SecondsPerHour) == p.CalculateFee(s) + p.ratePerHour
  {
    assert (s + SecondsPerHour) / SecondsPerHour == s / SecondsPerHour + 1;
    var h := BilledHours(s);
    assert BilledHours(s + SecondsPerHour) == h + 1;
    assert (h + 1) * p.ratePerHour == h * p.ratePerHour + p.ratePerHour;
  }
}
