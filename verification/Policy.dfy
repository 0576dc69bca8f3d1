/** Intervals, jitter, backoff and the configured check interval. All arithmetic stays in timer range. */
module Policy {
  import opened ByteStrings
  import opened Wrappers
  import opened Numerals

  const INT_MAX := 0x7FFF_FFFF
  const INT64_MAX := 0x7FFF_FFFF_FFFF_FFFF
  const MINUTE := 60_000 // milliseconds
  const LIMIT := INT_MAX / MINUTE // the longest timer, in whole minutes

  /** Minutes, except for `startupDelay` and `onDemandCooldown`, which are seconds. Any value is possible. */
  datatype PolicyFields = PolicyFields(
    startupDelay: int,
    interval: int,
    maxJitter: int,
    backoff: seq<int>,
    minInterval: int,
    onDemandCooldown: int)

  /** The backoff is a fixed array of three steps. */
  type UpdateCheckPolicy = policy: PolicyFields | |policy.backoff| == 3
    witness PolicyFields(60, 360, 10, [5, 15, 60], 15, 10)

  const DEFAULT: UpdateCheckPolicy := PolicyFields(60, 360, 10, [5, 15, 60], 15, 10)

  function Min(a: int, b: int): int {
    if a <= b then a else b
  }

  function Max(a: int, b: int): int {
    if a >= b then a else b
  }

  function Clamp(value: int, low: int, high: int): int
    requires low <= high
  {
    Max(low, Min(value, high))
  }

  function Jitter(maxJitter: int, minutes: nat): nat {
    Min(Max(0, maxJitter), minutes / 10)
  }

  predicate Fits(maxJitter: int, minutes: nat) {
    minutes + Jitter(maxJitter, minutes) <= LIMIT
  }

  /** The greatest interval, at most `candidate`, that fits the timer with its jitter: the plain linear search. */
  function GreatestFitting(maxJitter: int, candidate: nat): nat {
    if candidate == 0 || Fits(maxJitter, candidate) then candidate else GreatestFitting(maxJitter, candidate - 1)
  }

  lemma {:induction false} GreatestFits(maxJitter: int, candidate: nat)
    ensures GreatestFitting(maxJitter, candidate) <= candidate
    ensures Fits(maxJitter, GreatestFitting(maxJitter, candidate))
    ensures forall m: nat | GreatestFitting(maxJitter, candidate) < m <= candidate :: !Fits(maxJitter, m)
  {
    if candidate != 0 && !Fits(maxJitter, candidate) {
      GreatestFits(maxJitter, candidate - 1);
    }
  }

  lemma FitsDownwards(maxJitter: int, a: nat, b: nat)
    requires a <= b && Fits(maxJitter, b)
    ensures Fits(maxJitter, a)
  {
  }

  /** The binary search finds what the linear search finds, for every jitter setting. */
  method MaximumInterval(maxJitter: int) returns (minutes: nat)
    ensures minutes == GreatestFitting(maxJitter, LIMIT)
    ensures Fits(maxJitter, minutes) && forall m: nat | Fits(maxJitter, m) :: m <= minutes
  {
    var low, high := 0, LIMIT;
    while low < high
      invariant 0 <= low <= high <= LIMIT
      invariant Fits(maxJitter, low)
      invariant forall m: nat | high < m :: !Fits(maxJitter, m)
    {
      var middle := low + (high - low + 1) / 2;
      if middle + Jitter(maxJitter, middle) <= LIMIT {
        low := middle;
      } else {
        forall m: nat | middle <= m
          ensures !Fits(maxJitter, m)
        {
          if Fits(maxJitter, m) {
            FitsDownwards(maxJitter, middle, m);
          }
        }
        high := middle - 1;
      }
    }
    minutes := low;
    GreatestFits(maxJitter, LIMIT);
  }

  lemma DefaultMaximum()
    ensures GreatestFitting(DEFAULT.maxJitter, LIMIT) == 35_781
  {
    GreatestFits(10, LIMIT);
    assert Fits(10, 35_781);
    assert !Fits(10, 35_782);
    assert forall m: nat | 35_782 <= m <= LIMIT :: !Fits(10, m);
  }

  // Delays

  /** The configured interval, cut to the range the timer can hold. */
  function SafeInterval(policy: UpdateCheckPolicy): nat {
    Clamp(policy.interval, 0, GreatestFitting(policy.maxJitter, LIMIT))
  }

  /** `draw` is what the random source returns; it is not trusted to stay in range. */
  function IntervalWithJitter(policy: UpdateCheckPolicy, draw: int): int {
    var minutes := SafeInterval(policy);
    var bound := Jitter(policy.maxJitter, minutes) * MINUTE;
    minutes * MINUTE + Clamp(if bound > 0 then draw else 0, -bound, bound)
  }

  function NextAutomaticDelay(policy: UpdateCheckPolicy, failures: int, draw: int): int
  {
    if 1 <= failures <= |policy.backoff|
    then Clamp(policy.backoff[failures - 1], 0, LIMIT) * MINUTE
    else IntervalWithJitter(policy, draw)
  }

  /** The shortest delay any random source can produce. */
  function ShortestDelay(policy: UpdateCheckPolicy, failures: int): int
  {
    if 1 <= failures <= |policy.backoff|
    then Clamp(policy.backoff[failures - 1], 0, LIMIT) * MINUTE
    else (SafeInterval(policy) - Jitter(policy.maxJitter, SafeInterval(policy))) * MINUTE
  }

  /** Whatever the policy and the random source, the delay fits the timer and stays within jitter of the interval. */
  lemma DelayInRange(policy: UpdateCheckPolicy, failures: int, draw: int)
    ensures 0 <= ShortestDelay(policy, failures) <= NextAutomaticDelay(policy, failures, draw) <= INT_MAX
    ensures 1 <= failures <= 3 ==>
              NextAutomaticDelay(policy, failures, draw) == ShortestDelay(policy, failures)
    ensures !(1 <= failures <= 3) ==>
              var minutes := SafeInterval(policy);
              var spread := Min(Max(0, policy.maxJitter), minutes / 10) * MINUTE;
              minutes * MINUTE - spread <= NextAutomaticDelay(policy, failures, draw) <= minutes * MINUTE + spread
  {
    var minutes := SafeInterval(policy);
    var jitter := Jitter(policy.maxJitter, minutes);
    GreatestFits(policy.maxJitter, LIMIT);
    FitsDownwards(policy.maxJitter, minutes, GreatestFitting(policy.maxJitter, LIMIT));
    assert (minutes + jitter) * MINUTE <= LIMIT * MINUTE <= INT_MAX;
  }

  /** Every value inside the jitter band is some source's choice: the band is not wider than it needs to be. */
  lemma DelayCoversBand(policy: UpdateCheckPolicy, draw: int)
    requires var bound := Jitter(policy.maxJitter, SafeInterval(policy)) * MINUTE; bound > 0 && -bound <= draw <= bound
    ensures NextAutomaticDelay(policy, 0, draw) == SafeInterval(policy) * MINUTE + draw
  {
  }

  // The configured interval

  datatype Warning = Fine | Unusable | TooLong | TooShort

  datatype IntervalResolution = IntervalResolution(interval: int, warning: Warning)

  /** What trimming takes off; std::stoll also skips the other spaces, vertical tab and form feed. */
  predicate IsBlank(c: char) {
    c == ' ' || c == '\t' || c == '\r' || c == '\n'
  }

  function Trimmed(text: string): (trimmed: string)
    ensures trimmed != [] ==> !IsBlank(trimmed[0]) && !IsBlank(trimmed[|trimmed| - 1])
  {
    if text == [] then []
    else if IsBlank(text[0]) then Trimmed(text[1..])
    else if IsBlank(text[|text| - 1]) then Trimmed(text[..|text| - 1])
    else text
  }

  function LeadingSpaces(text: string): (count: nat)
    ensures count <= |text|
    ensures forall i | 0 <= i < count :: IsSpace(text[i])
    ensures count < |text| ==> !IsSpace(text[count])
  {
    if text == [] || !IsSpace(text[0]) then 0 else 1 + LeadingSpaces(text[1..])
  }

  function LeadingDigits(text: string): (count: nat)
    ensures count <= |text|
    ensures AllDigits(text[..count])
    ensures count < |text| ==> !('0' <= text[count] <= '9')
  {
    if text == [] || !('0' <= text[0] <= '9') then 0 else 1 + LeadingDigits(text[1..])
  }

  datatype Parsed = InvalidArgument | OutOfRange | Value(minutes: int, used: nat)

  function WithoutSign(text: string): string {
    if text != [] && (text[0] == '+' || text[0] == '-') then text[1..] else text
  }

  /** An optional sign and digits; `used` is where the digits stop. */
  function SignedNumber(text: string): Parsed {
    var unsigned := WithoutSign(text);
    var digits := LeadingDigits(unsigned);
    if digits == 0 then InvalidArgument
    else
      var magnitude: int := DigitsValue(unsigned[..digits]);
      var value := if text[0] == '-' then -magnitude else magnitude;
      if -INT64_MAX - 1 <= value <= INT64_MAX then Value(value, |text| - |unsigned| + digits) else OutOfRange
  }

  /** std::stoll: skips space, then reads a signed number. */
  function Stoll(text: string): Parsed {
    var spaces := LeadingSpaces(text);
    match SignedNumber(text[spaces..])
    case Value(minutes, used) => Value(minutes, spaces + used)
    case other => other
  }

  function WithoutPlus(text: string): string {
    if text != [] && text[0] == '+' then text[1..] else text
  }

  /** Digits with an optional plus. */
  predicate IsNumeral(text: string) {
    WithoutPlus(text) != [] && AllDigits(WithoutPlus(text))
  }

  function NumeralValue(text: string): nat
    requires IsNumeral(text)
  {
    DigitsValue(WithoutPlus(text))
  }

  /**
   * The minutes a trimmed setting stands for: a positive numeral of any length. Behind a vertical tab or form feed
   * a numeral still counts, but only if it fits 64 bits.
   */
  function ConfiguredMinutes(text: string): Option<nat> {
    var spaces := LeadingSpaces(text);
    if IsNumeral(text[spaces..]) && NumeralValue(text[spaces..]) > 0 &&
       (spaces == 0 || NumeralValue(text[spaces..]) <= INT64_MAX)
    then Some(NumeralValue(text[spaces..]))
    else None
  }

  lemma NumeralParses(text: string)
    requires IsNumeral(text)
    ensures SignedNumber(text) ==
            if NumeralValue(text) <= INT64_MAX then Value(NumeralValue(text), |text|) else OutOfRange
  {
    var unsigned := WithoutPlus(text);
    assert '0' <= unsigned[0] <= '9';
    assert WithoutSign(text) == unsigned;
    AllLeadingDigits(unsigned);
    assert unsigned[..|unsigned|] == unsigned;
  }

  lemma {:induction false} AllLeadingDigits(text: string)
    ensures LeadingDigits(text) == |text| <==> AllDigits(text)
  {
    if text != [] && '0' <= text[0] <= '9' {
      AllLeadingDigits(text[1..]);
      assert AllDigits(text[1..]) <==> AllDigits(text) by {
        assert forall i | 1 <= i < |text| :: text[i] == text[1..][i - 1];
      }
    }
  }

  /** What is not a numeral is rejected, read in part, or not positive. */
  lemma OtherTextRejected(text: string)
    requires !IsNumeral(text) && SignedNumber(text).Value?
    ensures SignedNumber(text).used != |text| || SignedNumber(text).minutes <= 0
  {
    var unsigned := WithoutSign(text);
    AllLeadingDigits(unsigned);
    if text[0] != '-' {
      assert unsigned == WithoutPlus(text);
    }
  }

  /** The conversion with its exceptions: a numeral past 64 bits reads as the largest number. */
  method ReadMinutes(text: string) returns (minutes: int, used: nat)
    ensures ConfiguredMinutes(text).None? <==> used != |text| || minutes <= 0
    ensures ConfiguredMinutes(text).Some? ==> minutes == Min(ConfiguredMinutes(text).value, INT64_MAX)
  {
    minutes, used := 0, 0;
    var rest := text[LeadingSpaces(text)..];
    if IsNumeral(rest) {
      NumeralParses(rest);
    } else if SignedNumber(rest).Value? {
      OtherTextRejected(rest);
    }
    match Stoll(text) {
      case Value(value, stopped) =>
        minutes, used := value, stopped;
      case OutOfRange =>
        var digits := WithoutPlus(text);
        if digits != [] && AllDigits(digits) {
          minutes, used := INT64_MAX, |text|;
          assert '0' <= digits[0] <= '9' && rest == text;
        }
      case InvalidArgument =>
    }
  }

  /** For every setting, including numerals too long for any integer, the interval is the value clamped to range. */
  method ResolveCheckInterval(raw: Option<string>, policy: UpdateCheckPolicy) returns (result: IntervalResolution)
    ensures raw.None? ==> result == IntervalResolution(policy.interval, Fine)
    ensures raw.Some? && ConfiguredMinutes(Trimmed(raw.value)).None? ==>
              result == IntervalResolution(policy.interval, Unusable)
    ensures raw.Some? && ConfiguredMinutes(Trimmed(raw.value)).Some? ==>
              var minutes := ConfiguredMinutes(Trimmed(raw.value)).value;
              var maximum := GreatestFitting(policy.maxJitter, LIMIT);
              && result.interval == Min(Max(minutes, policy.minInterval), maximum)
              && (result.warning.TooLong? <==> minutes > maximum)
              && (result.warning.TooShort? <==> minutes < policy.minInterval && minutes <= maximum)
              && !result.warning.Unusable?
  {
    if raw.None? {
      return IntervalResolution(policy.interval, Fine);
    }
    var text := Trimmed(raw.value);
    var minutes, used := ReadMinutes(text);
    if text == [] || used != |text| || minutes <= 0 {
      return IntervalResolution(policy.interval, Unusable);
    }
    var maximum := MaximumInterval(policy.maxJitter);
    if minutes > maximum {
      return IntervalResolution(maximum, TooLong);
    }
    if minutes < policy.minInterval {
      return IntervalResolution(Min(policy.minInterval, maximum), TooShort);
    }
    return IntervalResolution(minutes, Fine);
  }
}
