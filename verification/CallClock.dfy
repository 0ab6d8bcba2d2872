/** FreeSWITCH timestamps: the webhook's whole-second arithmetic against the CDR's nanosecond arithmetic. */
module CallClock {
  import opened Options
  import opened Paths
  import opened Text

  const MAX_INT64: int := 9223372036854775807
  const TWO_TO_THE_64: int := 18446744073709551616
  const NANOS: int := 1_000_000_000
  const MICRO_THRESHOLD: int := 1_000_000_000_000
  const MAX_MICROS: int := 9223372036854775

  /** strconv.ParseInt in base 10 for 64 bits: None when it fails. */
  function ParseInt64(s: string): Option<int> {
    var digits := if s != "" && (s[0] == '-' || s[0] == '+') then s[1..] else s;
    if digits == "" || !AllDigits(digits) then None
    else
      var v: int := Value(digits);
      var n := if s[0] == '-' then -v else v;
      if -MAX_INT64 - 1 <= n <= MAX_INT64 then Some(n) else None
  }

  function Wrap64(x: int): (y: int)
    ensures -MAX_INT64 - 1 <= x <= MAX_INT64 ==> y == x
  {
    (x + MAX_INT64 + 1) % TWO_TO_THE_64 - MAX_INT64 - 1
  }

  // ----- the webhook side: whole seconds, shifted by the clock offset -----

  function ParseEpoch(raw: Option<int>): int {
    if raw.None? || raw.value <= 0 then 0
    else if raw.value > MICRO_THRESHOLD then raw.value / 1_000_000
    else raw.value
  }

  function Normalized(raw: Option<int>, offset: int): int {
    if ParseEpoch(raw) == 0 then 0 else ParseEpoch(raw) + offset
  }

  function Timestamp(raw: Option<int>, offset: int): int {
    if Normalized(raw, offset) <= 0 then 0 else Normalized(raw, offset)
  }

  function WebhookDuration(start: Option<int>, end: Option<int>, offset: int): int {
    var started, ended := Timestamp(start, offset), Timestamp(end, offset);
    if ended > started && started > 0 then ended - started else 0
  }

  // ----- the CDR side: instants in nanoseconds -----

  /** The instant; None stands for the zero time. Microseconds are scaled in 64-bit arithmetic. */
  function EventTime(raw: Option<int>): Option<int> {
    if raw.None? || raw.value <= 0 then None
    else if raw.value > MICRO_THRESHOLD then Some(Wrap64(raw.value * 1_000))
    else Some(raw.value * NANOS)
  }

  /** The difference of two instants saturates at the largest duration. */
  function Sub(later: int, earlier: int): int
    requires later > earlier
  {
    if later - earlier > MAX_INT64 then MAX_INT64 else later - earlier
  }

  function Elapsed(from: Option<int>, to: Option<int>): int {
    if from.Some? && to.Some? && to.value > from.value then Sub(to.value, from.value) / NANOS else 0
  }

  /** Duration and billed seconds of the record, when one is built at all. */
  function CdrTimes(start: Option<int>, answer: Option<int>, end: Option<int>): Option<(int, int)> {
    var s, a, e := EventTime(start), EventTime(answer), EventTime(end);
    if s.None? || e.None? then None else Some((Elapsed(s, e), Elapsed(a, e)))
  }

  // ----- the two durations -----

  predicate Positive(raw: Option<int>) {
    raw.Some? && 0 < raw.value <= MAX_INT64
  }

  /** The instant before it is squeezed into 64 bits. */
  function Exact(raw: int): int {
    if raw > MICRO_THRESHOLD then raw * 1_000 else raw * NANOS
  }

  /** How often the scaling of microseconds wraps around; seconds do not wrap. */
  function Window(raw: int): int {
    if raw > MICRO_THRESHOLD then (raw * 1_000 + MAX_INT64 + 1) / TWO_TO_THE_64 else 0
  }

  lemma TimeInWindow(raw: Option<int>)
    requires Positive(raw)
    ensures EventTime(raw) == Some(Exact(raw.value) - Window(raw.value) * TWO_TO_THE_64)
    ensures ParseEpoch(raw) == Exact(raw.value) / NANOS
    ensures Exact(raw.value) > 0 && Window(raw.value) >= 0
  {
    if raw.value > MICRO_THRESHOLD {
      var x := raw.value * 1_000 + MAX_INT64 + 1;
      assert x % TWO_TO_THE_64 == x - x / TWO_TO_THE_64 * TWO_TO_THE_64;
    }
  }

  /** Truncating two instants to seconds loses at most one second of their difference. */
  lemma FloorDifference(s: int, e: int)
    ensures var borrowed := if e % NANOS < s % NANOS then 1 else 0;
            e / NANOS - s / NANOS == (e - s) / NANOS + borrowed
  {
    var qs, rs, qe, re := s / NANOS, s % NANOS, e / NANOS, e % NANOS;
    assert e - s == NANOS * (qe - qs) + (re - rs);
  }

  function CdrDuration(start: Option<int>, end: Option<int>): int {
    Elapsed(EventTime(start), EventTime(end))
  }

  predicate Agree(start: Option<int>, end: Option<int>, offset: int) {
    var webhook, cdr := WebhookDuration(start, end, offset), CdrDuration(start, end);
    webhook == cdr || webhook == cdr + 1
  }

  const LONGEST: int := MAX_INT64 / NANOS

  /** When the durations agree, read off the two epochs. */
  predicate Close(start: int, end: int, seconds: int) {
    if Window(start) == Window(end) then seconds <= LONGEST + 1
    else if Window(start) < Window(end) then seconds <= 1
    else if seconds > 0 then LONGEST <= seconds <= LONGEST + 1
    else UnderOneSecond(start, end)
  }

  /** After the wraps less than a second is left, or the end lies before the start. */
  predicate UnderOneSecond(start: int, end: int) {
    Exact(end) - Exact(start) - (Window(end) - Window(start)) * TWO_TO_THE_64 < NANOS
  }

  lemma WebhookIs(start: Option<int>, end: Option<int>, offset: int)
    requires Positive(start) && Positive(end) && Normalized(start, offset) > 0
    ensures var seconds := ParseEpoch(end) - ParseEpoch(start);
            WebhookDuration(start, end, offset) == if seconds > 0 then seconds else 0
  {
  }

  /** The exact difference `d`, its whole seconds as the webhook counts them, and what the CDR makes of it after `k`
      wraps. */
  lemma CloseArithmetic(d: int, seconds: int, k: int)
    requires seconds == d / NANOS || seconds == d / NANOS + 1
    ensures var w, t := if seconds > 0 then seconds else 0, d - k * TWO_TO_THE_64;
            var c := Counted(d, k);
            (w == c || w == c + 1) <==>
              if k == 0 then seconds <= LONGEST + 1
              else if k > 0 then seconds <= 1
              else if seconds > 0 then LONGEST <= seconds <= LONGEST + 1
              else t < NANOS
  {
    var t := d - k * TWO_TO_THE_64;
    if k == 0 {
      assert t == d;
    } else if k > 0 {
      assert t <= d - TWO_TO_THE_64;
    } else {
      assert t >= d + TWO_TO_THE_64;
    }
  }

  lemma CdrCountsNothingIff(start: Option<int>, end: Option<int>)
    requires Positive(start) && Positive(end)
    ensures CdrDuration(start, end) >= 0
    ensures CdrDuration(start, end) == 0 <==> UnderOneSecond(start.value, end.value)
  {
    TimeInWindow(start);
    TimeInWindow(end);
  }

  /** The record's duration from the exact difference `d` after `k` wraps. */
  function Counted(d: int, k: int): int {
    var t := d - k * TWO_TO_THE_64;
    if t > 0 then Sub(t, 0) / NANOS else 0
  }

  lemma CdrIs(start: Option<int>, end: Option<int>)
    requires Positive(start) && Positive(end)
    ensures CdrDuration(start, end) ==
            Counted(Exact(end.value) - Exact(start.value), Window(end.value) - Window(start.value))
  {
    TimeInWindow(start);
    TimeInWindow(end);
  }

  lemma VisibleAgreeIff(start: Option<int>, end: Option<int>, offset: int)
    requires Positive(start) && Positive(end) && Normalized(start, offset) > 0
    ensures Agree(start, end, offset) <==> Close(start.value, end.value, ParseEpoch(end) - ParseEpoch(start))
  {
    TimeInWindow(start);
    TimeInWindow(end);
    CdrIs(start, end);
    WebhookIs(start, end, offset);
    FloorDifference(Exact(start.value), Exact(end.value));
    CloseArithmetic(Exact(end.value) - Exact(start.value), ParseEpoch(end) - ParseEpoch(start),
        Window(end.value) - Window(start.value));
  }

  /** For all epochs, in seconds or microseconds, the webhook's duration is the CDR's or one second more exactly when
      they are close: in one window their difference fits the longest duration; in different windows only a few pairs
      are. When the clock offset takes the start to zero or below, the webhook counts nothing, and so must the
      record. */
  lemma DurationsAgreeIff(start: Option<int>, end: Option<int>, offset: int)
    requires Positive(start) && Positive(end)
    ensures Agree(start, end, offset) <==>
              if ParseEpoch(start) + offset > 0 then Close(start.value, end.value, ParseEpoch(end) - ParseEpoch(start))
              else UnderOneSecond(start.value, end.value)
  {
    if Normalized(start, offset) > 0 {
      VisibleAgreeIff(start, end, offset);
    } else {
      CdrCountsNothingIff(start, end);
    }
  }

  predicate InRange(raw: Option<int>) {
    raw.Some? && 0 < raw.value <= MAX_MICROS
  }

  lemma InRangeIsFirstWindow(raw: Option<int>)
    requires InRange(raw)
    ensures Window(raw.value) == 0
  {
    if raw.value > MICRO_THRESHOLD {
      assert raw.value * 1_000 <= MAX_INT64;
    }
  }

  /** In range the durations agree exactly while the seconds between start and end fit the longest duration, and the
      extra second is there exactly when the end lies earlier in its second than the start. */
  lemma InRangeAgreeIff(start: Option<int>, end: Option<int>, offset: int)
    requires InRange(start) && InRange(end) && Normalized(start, offset) > 0
    ensures Agree(start, end, offset) <==> ParseEpoch(end) - ParseEpoch(start) <= LONGEST + 1
    ensures var s, e := EventTime(start).value, EventTime(end).value;
            e - s <= MAX_INT64 ==>
              WebhookDuration(start, end, offset) == CdrDuration(start, end) + if e > s && e % NANOS < s % NANOS then 1
                  else 0
  {
    VisibleAgreeIff(start, end, offset);
    InRangeIsFirstWindow(start);
    InRangeIsFirstWindow(end);
    TimeInWindow(start);
    TimeInWindow(end);
    FloorDifference(EventTime(start).value, EventTime(end).value);
  }

  /** Two in-range timestamps whose end is in microseconds, or lies before the year 2262, always agree. */
  lemma NoSaturation(start: Option<int>, end: Option<int>, offset: int)
    requires InRange(start) && InRange(end) && Normalized(start, offset) > 0
    requires end.value > MICRO_THRESHOLD || end.value <= LONGEST
    ensures Agree(start, end, offset)
  {
    InRangeAgreeIff(start, end, offset);
    TimeInWindow(start);
    TimeInWindow(end);
  }

  // ----- the headers as text -----

  /** The record trims white space before it parses a header, the webhook does not: it reads only what needs no
      trimming. */
  lemma NumberIsTrimmed(s: string)
    requires ParseInt64(s).Some?
    ensures TrimSpace(s) == s
  {
    var digits := if s[0] == '-' || s[0] == '+' then s[1..] else s;
    assert IsDigit(digits[|digits| - 1]) && digits[|digits| - 1] == s[|s| - 1];
    assert IsDigit(s[0]) || s[0] == '-' || s[0] == '+';
    TrimmedIff(s);
  }

  lemma PaddedCountsNothing(start: string, end: string)
    requires TrimSpace(start) != start || TrimSpace(end) != end
    ensures ParseInt64(start) == None || ParseInt64(end) == None
  {
    if ParseInt64(start).Some? && ParseInt64(end).Some? {
      NumberIsTrimmed(start);
      NumberIsTrimmed(end);
    }
  }

  lemma MissingCountsNothing(start: Option<int>, end: Option<int>, offset: int)
    requires start == None || end == None
    ensures WebhookDuration(start, end, offset) == 0
  {
  }

  lemma RecordCountsNothingIff(start: Option<int>, end: Option<int>)
    requires (start.Some? ==> start.value <= MAX_INT64) && (end.Some? ==> end.value <= MAX_INT64)
    ensures CdrDuration(start, end) >= 0
    ensures CdrDuration(start, end) == 0 <==>
            !Positive(start) || !Positive(end) || UnderOneSecond(start.value, end.value)
  {
    if Positive(start) && Positive(end) {
      CdrCountsNothingIff(start, end);
    }
  }

  lemma ParsedIsInt64(s: string)
    ensures ParseInt64(s).Some? ==> ParseInt64(s).value <= MAX_INT64
  {
  }

  lemma NothingAgreesIff(start: Option<int>, end: Option<int>, offset: int, started: Option<int>, ended: Option<int>)
    requires start == None || end == None
    requires (started.Some? ==> started.value <= MAX_INT64) && (ended.Some? ==> ended.value <= MAX_INT64)
    ensures var webhook, cdr := WebhookDuration(start, end, offset), CdrDuration(started, ended);
            (webhook == cdr || webhook == cdr + 1) <==>
              !Positive(started) || !Positive(ended) || UnderOneSecond(started.value, ended.value)
  {
    MissingCountsNothing(start, end, offset);
    RecordCountsNothingIff(started, ended);
  }

  /** So with white space around one of the headers the two agree exactly when one of the trimmed headers is no positive
      number, or what is left between them after the wraps is under a second. */
  lemma PaddedAgreeIff(start: string, end: string, offset: int)
    requires TrimSpace(start) != start || TrimSpace(end) != end
    ensures var started, ended := ParseInt64(TrimSpace(start)), ParseInt64(TrimSpace(end));
            var webhook, cdr := WebhookDuration(ParseInt64(start), ParseInt64(end), offset),
                CdrDuration(started, ended);
            (webhook == cdr || webhook == cdr + 1) <==>
              !Positive(started) || !Positive(ended) || UnderOneSecond(started.value, ended.value)
  {
    PaddedCountsNothing(start, end);
    ParsedIsInt64(TrimSpace(start));
    ParsedIsInt64(TrimSpace(end));
    NothingAgreesIff(ParseInt64(start), ParseInt64(end), offset, ParseInt64(TrimSpace(start)),
        ParseInt64(TrimSpace(end)));
  }

  // ----- the seconds of the record, between the instants -----

  /** The instant of a header in nanoseconds. */
  function Nanos(epoch: int): int {
    if epoch > 1_000_000_000_000 then epoch * 1_000 else epoch * 1_000_000_000
  }

  /** The whole seconds from one instant to another: none when it is not later, and at most the longest duration. */
  predicate Counts(from: int, to: int, seconds: int) {
    var d := Nanos(to) - Nanos(from);
    if d <= 0 then seconds == 0
    else if d <= MAX_INT64 then seconds * 1_000_000_000 <= d < (seconds + 1) * 1_000_000_000
    else seconds == MAX_INT64 / 1_000_000_000
  }

  predicate Given(epoch: Option<int>) {
    epoch.Some? && epoch.value > 0
  }

  lemma ElapsedCounts(from: Option<int>, to: Option<int>)
    requires InRange(from) && InRange(to)
    ensures Counts(from.value, to.value, Elapsed(EventTime(from), EventTime(to)))
  {
    InRangeIsFirstWindow(from);
    InRangeIsFirstWindow(to);
    TimeInWindow(from);
    TimeInWindow(to);
  }

  /** A record is built exactly when start and end are given; its duration counts the seconds from start to end, its
      billed time those from answer to end, and nothing without an answer. */
  lemma TimesCount(start: Option<int>, answer: Option<int>, end: Option<int>)
    ensures CdrTimes(start, answer, end).Some? <==> Given(start) && Given(end)
    ensures InRange(start) && InRange(end) ==> Counts(start.value, end.value, CdrTimes(start, answer, end).value.0)
    ensures Given(start) && InRange(answer) && InRange(end) ==>
              Counts(answer.value, end.value, CdrTimes(start, answer, end).value.1)
    ensures Given(start) && Given(end) && !Given(answer) ==> CdrTimes(start, answer, end).value.1 == 0
  {
    if InRange(start) && InRange(end) { ElapsedCounts(start, end); }
    if InRange(answer) && InRange(end) { ElapsedCounts(answer, end); }
  }

  /** Billed time never exceeds the duration when the call was not answered before it started, and what is not billed is
      the time that it rang, up to a second. */
  lemma BilledWithinDuration(start: Option<int>, answer: Option<int>, end: Option<int>)
    requires CdrTimes(start, answer, end).Some?
    requires EventTime(answer).Some? ==> EventTime(answer).value >= EventTime(start).value
    ensures var (duration, billed) := CdrTimes(start, answer, end).value;
            && 0 <= billed <= duration
            && (InRange(start) && InRange(answer) && InRange(end)
                && Nanos(answer.value) <= Nanos(end.value) <= Nanos(start.value) + MAX_INT64 ==>
                  var rang := Nanos(answer.value) - Nanos(start.value);
                  (duration - billed - 1) * 1_000_000_000 < rang < (duration - billed + 1) * 1_000_000_000)
  {
    if InRange(start) && InRange(answer) && InRange(end) {
      TimesCount(start, answer, end);
    }
  }

  /** Nothing is billed exactly when the call was not answered or ended within a second of the answer. */
  lemma BilledNothingIff(start: Option<int>, answer: Option<int>, end: Option<int>)
    requires Given(start) && InRange(end) && (Given(answer) ==> InRange(answer))
    ensures CdrTimes(start, answer, end).value.1 == 0 <==>
            !Given(answer) || Nanos(end.value) - Nanos(answer.value) < 1_000_000_000
  {
    TimesCount(start, answer, end);
  }

  // ----- numbers as text -----

  /** A numeral with leading zeros and a sign is read as the number, unless it does not fit 64 bits. */
  lemma NumberParsed(sign: string, zeros: string, n: nat, value: int)
    requires (sign == "" || sign == "+" || sign == "-") && Zeros(zeros)
    requires value == if sign == "-" then (0 as int) - n else n
    ensures ParseInt64(sign + zeros + Itoa(n)) == if -MAX_INT64 - 1 <= value <= MAX_INT64 then Some(value) else None
  {
    var s, digits := sign + zeros + Itoa(n), zeros + Itoa(n);
    ValueOfZeros(zeros, Itoa(n));
    ValueOfItoa(n);
    assert s == sign + digits && s[|sign|..] == digits;
    SignedDigits(s, sign, digits, n);
  }

  lemma SignedDigits(s: string, sign: string, digits: string, v: nat)
    requires (sign == "" || sign == "+" || sign == "-") && s == sign + digits && s[|sign|..] == digits
    requires digits != "" && AllDigits(digits) && v == Value(digits)
    ensures var value := if sign == "-" then (0 as int) - v else v;
            ParseInt64(s) == if -MAX_INT64 - 1 <= value <= MAX_INT64 then Some(value) else None
  {
    assert IsDigit(digits[0]);
    if sign != "" { assert s[0] == sign[0]; } else { assert s == digits; }
  }

  lemma SignOf(s: string) returns (sign: string, digits: string)
    requires ParseInt64(s).Some?
    ensures (sign == "" || sign == "+" || sign == "-") && s == sign + digits && digits != "" && AllDigits(digits)
    ensures var value, v: int := ParseInt64(s).value, Value(digits);
            value == if sign == "-" then -v else v
  {
    var signed := s[0] == '-' || s[0] == '+';
    sign, digits := if signed then s[..1] else "", if signed then s[1..] else s;
  }

  lemma ZerosBefore(s: string, sign: string, digits: string, number: string) returns (zeros: string)
    requires s == sign + digits && ZerosThen(digits, number)
    ensures Zeros(zeros) && s == sign + zeros + number
  {
    zeros := digits[..|digits| - |number|];
    assert digits == zeros + number;
  }

  /** Nothing else is read as a number. */
  lemma ParsedIsNumber(s: string) returns (sign: string, zeros: string, n: nat)
    requires ParseInt64(s).Some?
    ensures (sign == "" || sign == "+" || sign == "-") && Zeros(zeros) && |s| > |sign|
    ensures s == sign + zeros + Significant(n)
    ensures ParseInt64(s).value == if sign == "-" then (0 as int) - n else n
  {
    var digits: string;
    sign, digits := SignOf(s);
    n := Value(digits);
    StripZeros(digits, n);
    zeros := ZerosBefore(s, sign, digits, Significant(n));
  }
}
