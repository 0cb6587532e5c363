/**
 * The browser-side timesheet calculator: `CalculateTotal`, `isCanvasBlank` and
 * `handleSubmit` of the Success Center timesheet page.
 *
 * Each day of the two-week pay period has three segments (morning, afternoon,
 * evening), each a begin/end pair of preset time codes.  Consecutive codes are
 * half an hour apart, and 0 means "not set".  The select elements hand their
 * values to the script as decimal strings, so the model keeps the codes as
 * naturals and spells out where the script compares the strings themselves.
 */
module TimesheetCalc {
  import opened Wrappers
  import opened Text

  /** The six select values of one day row. */
  datatype Day = Day(morningBegin: nat, morningEnd: nat,
                     afternoonBegin: nat, afternoonEnd: nat,
                     eveningBegin: nat, eveningEnd: nat)

  /** The sticky validity flags the calculator keeps across days. */
  datatype Flags = Flags(morning: bool, afternoon: bool, evening: bool)

  /** What the page shows once `CalculateTotal` has run. */
  datatype Display = Display(dayTotals: seq<real>, weekOneTotal: real, weekTwoTotal: real,
                             grandTotal: real, submitEnabled: bool)

  /** `(end - begin) / 2`: a segment's hours, as JavaScript coerces both strings to numbers. */
  function SegmentHours(begin: nat, end: nat): real {
    (end as real - begin as real) / 2.0
  }

  /** JavaScript `end > begin` on the two option strings: a lexicographic comparison. */
  predicate StringGreater(end: nat, begin: nat) {
    LexLess(Decimal(begin), Decimal(end))
  }

  /**
   * One segment's flag update.  The flag is only reassigned when some end
   * is non-zero; then both ends must differ from the string '0' and the
   * total must be positive, and for afternoon and evening (`ordered`) the end
   * string must also compare greater than the begin string.
   */
  function NextFlag(prev: bool, begin: nat, end: nat, ordered: bool): bool {
    if end > 0 || begin > 0 then
      if Decimal(begin) != "0" && Decimal(end) != "0" then
        (!ordered || StringGreater(end, begin)) && SegmentHours(begin, end) > 0.0
      else
        false
    else
      prev
  }

  function Step(f: Flags, d: Day): Flags {
    Flags(NextFlag(f.morning, d.morningBegin, d.morningEnd, false),
          NextFlag(f.afternoon, d.afternoonBegin, d.afternoonEnd, true),
          NextFlag(f.evening, d.eveningBegin, d.eveningEnd, true))
  }

  /** The flags after the first `n` days have been processed; all three start true. */
  function FlagsAfter(days: seq<Day>, n: nat): Flags
    requires n <= |days|
  {
    if n == 0 then Flags(true, true, true) else Step(FlagsAfter(days, n - 1), days[n - 1])
  }

  /** The flags after one more day are that day's step from the flags before it. */
  lemma FlagsAfterSnoc(days: seq<Day>, n: nat)
    requires n < |days|
    ensures FlagsAfter(days, n + 1) == Step(FlagsAfter(days, n), days[n])
  {
  }

  /** `all_valid[i]`: the conjunction of the three flags after day `i`. */
  predicate RecordedValid(days: seq<Day>, i: nat)
    requires i < |days|
  {
    var f := FlagsAfter(days, i + 1);
    f.morning && f.afternoon && f.evening
  }

  /** The day total: the three segment totals added, and 0 when that sum is negative. */
  function DayHours(d: Day): real {
    var t := SegmentHours(d.morningBegin, d.morningEnd)
           + SegmentHours(d.afternoonBegin, d.afternoonEnd)
           + SegmentHours(d.eveningBegin, d.eveningEnd);
    if t < 0.0 then 0.0 else t
  }

  /** The sum of the day totals. */
  function SumHours(days: seq<Day>): real {
    if days == [] then 0.0 else SumHours(days[..|days| - 1]) + DayHours(days[|days| - 1])
  }

  /** `isCanvasBlank`: false without a canvas, otherwise whether its data URL equals the load-time one. */
  function IsCanvasBlank(canvasDataUrl: Option<string>, blank: string): (r: bool)
    ensures r <==> canvasDataUrl == Some(blank)
  {
    match canvasDataUrl
    case None => false
    case Some(url) => url == blank
  }

  /**
   * `CalculateTotal` over the 14 day rows.  Each iteration writes the day total,
   * records the day's flags, and re-decides the submit button.  It enables the
   * button when every recorded day is valid, unless the signature canvas is
   * blank, and disables it otherwise.  After the loop a grand total <= 0
   * disables it.
   */
  method CalculateTotal(days: seq<Day>, canvasDataUrl: Option<string>, blank: string)
    returns (display: Display, allValid: seq<bool>)
    requires |days| == 14
    ensures |display.dayTotals| == 14
    ensures forall i :: 0 <= i < 14 ==> display.dayTotals[i] == DayHours(days[i])
    ensures display.grandTotal == SumHours(days)
    ensures display.weekOneTotal == SumHours(days[..7])
    ensures display.weekTwoTotal == display.grandTotal - display.weekOneTotal
    ensures |allValid| == 14
    ensures forall i :: 0 <= i < 14 ==> allValid[i] == RecordedValid(days, i)
    ensures display.submitEnabled <==>
              AllTrue(allValid) && !IsCanvasBlank(canvasDataUrl, blank) && display.grandTotal > 0.0
  {
    var flags := Flags(true, true, true);
    var totals: seq<real> := [];
    allValid := [];
    var weekOne := 0.0;
    var weekTwo := 0.0;
    var grand := 0.0;
    var submit := false;
    var index := 0;
    while index <= 13
      invariant 0 <= index <= 14
      invariant flags == FlagsAfter(days, index)
      invariant |totals| == index && |allValid| == index
      invariant totals == DayTotals(days[..index])
      invariant allValid == RecordedFlags(days, index)
      invariant grand == SumHours(days[..index])
      invariant index > 6 ==> weekOne == SumHours(days[..7])
      invariant index == 14 ==> weekTwo == grand - weekOne
      invariant index > 0 ==> submit == (AllTrue(allValid) && !IsCanvasBlank(canvasDataUrl, blank))
    {
      var shiftTotal, next;
      next, shiftTotal := CalculateDay(flags, days[index]);
      DayBookkeeping(days, index, flags, totals, allValid, grand);
      flags := next;
      grand := grand + shiftTotal;
      totals := totals + [shiftTotal];
      allValid := allValid + [flags.morning && flags.afternoon && flags.evening];
      if AllTrue(allValid) {
        submit := true;
        if IsCanvasBlank(canvasDataUrl, blank) {
          submit := false;
        }
      } else {
        submit := false;
      }
      if index == 6 {
        weekOne := grand;
      }
      if index == 13 {
        weekTwo := grand - weekOne;
      }
      index := index + 1;
    }
    assert days[..14] == days;
    DayTotalsAt(days);
    RecordedFlagsAt(days, 14);
    if grand <= 0.0 {
      submit := false;
    }
    display := Display(totals, weekOne, weekTwo, grand, submit);
  }

  /**
   * One iteration's segment work: the three totals, the three validations
   * (each reassigning its flag only when an end is non-zero) and the clamped
   * day total.
   */
  method CalculateDay(flags: Flags, d: Day) returns (next: Flags, shiftTotal: real)
    ensures next == Step(flags, d)
    ensures shiftTotal == DayHours(d)
  {
    var morningValid, afternoonValid, eveningValid := flags.morning, flags.afternoon, flags.evening;
    var morningTotal := SegmentHours(d.morningBegin, d.morningEnd);
    if d.morningEnd > 0 || d.morningBegin > 0 {
      if Decimal(d.morningBegin) != "0" && Decimal(d.morningEnd) != "0" {
        morningValid := morningTotal > 0.0;
      } else {
        morningValid := false;
      }
    }
    assert morningValid == NextFlag(flags.morning, d.morningBegin, d.morningEnd, false);
    var afternoonTotal := SegmentHours(d.afternoonBegin, d.afternoonEnd);
    if d.afternoonEnd > 0 || d.afternoonBegin > 0 {
      if Decimal(d.afternoonBegin) != "0" && Decimal(d.afternoonEnd) != "0" {
        afternoonValid := StringGreater(d.afternoonEnd, d.afternoonBegin) && afternoonTotal > 0.0;
      } else {
        afternoonValid := false;
      }
    }
    assert afternoonValid == NextFlag(flags.afternoon, d.afternoonBegin, d.afternoonEnd, true);
    var eveningTotal := SegmentHours(d.eveningBegin, d.eveningEnd);
    if d.eveningEnd > 0 || d.eveningBegin > 0 {
      if Decimal(d.eveningBegin) != "0" && Decimal(d.eveningEnd) != "0" {
        eveningValid := StringGreater(d.eveningEnd, d.eveningBegin) && eveningTotal > 0.0;
      } else {
        eveningValid := false;
      }
    }
    assert eveningValid == NextFlag(flags.evening, d.eveningBegin, d.eveningEnd, true);
    next := Flags(morningValid, afternoonValid, eveningValid);
    shiftTotal := morningTotal + afternoonTotal + eveningTotal;
    if shiftTotal < 0.0 {
      shiftTotal := 0.0;
    }
  }

  /** What one iteration of `CalculateTotal` adds keeps every running value in step with the days seen. */
  lemma DayBookkeeping(days: seq<Day>, index: nat, flags: Flags, totals: seq<real>,
                       allValid: seq<bool>, grand: real)
    requires index < |days|
    requires flags == FlagsAfter(days, index)
    requires totals == DayTotals(days[..index])
    requires allValid == RecordedFlags(days, index)
    requires grand == SumHours(days[..index])
    ensures Step(flags, days[index]) == FlagsAfter(days, index + 1)
    ensures totals + [DayHours(days[index])] == DayTotals(days[..index + 1])
    ensures var f := Step(flags, days[index]);
            allValid + [f.morning && f.afternoon && f.evening] == RecordedFlags(days, index + 1)
    ensures grand + DayHours(days[index]) == SumHours(days[..index + 1])
  {
    SumHoursSnoc(days, index);
    assert days[..index + 1][..index] == days[..index];
    FlagsAfterSnoc(days, index);
    RecordedFlagsSnoc(days, index + 1);
  }

  /** The day totals in order, as the page writes them. */
  function DayTotals(days: seq<Day>): (r: seq<real>)
    ensures |r| == |days|
  {
    if days == [] then [] else DayTotals(days[..|days| - 1]) + [DayHours(days[|days| - 1])]
  }

  lemma {:induction false} DayTotalsAt(days: seq<Day>)
    ensures forall i :: 0 <= i < |days| ==> DayTotals(days)[i] == DayHours(days[i])
    decreases |days|
  {
    if days != [] {
      DayTotalsAt(days[..|days| - 1]);
    }
  }

  /** The `all_valid` array after the first `n` days. */
  function RecordedFlags(days: seq<Day>, n: nat): (r: seq<bool>)
    requires n <= |days|
    ensures |r| == n
  {
    if n == 0 then []
    else
      var f := FlagsAfter(days, n);
      RecordedFlags(days, n - 1) + [f.morning && f.afternoon && f.evening]
  }

  lemma {:induction false} RecordedFlagsAt(days: seq<Day>, n: nat)
    requires n <= |days|
    ensures forall i :: 0 <= i < n ==> RecordedFlags(days, n)[i] == RecordedValid(days, i)
  {
    if n > 0 {
      RecordedFlagsAt(days, n - 1);
      RecordedFlagsSnoc(days, n);
      var prev := RecordedFlags(days, n - 1);
      forall i | 0 <= i < n ensures RecordedFlags(days, n)[i] == RecordedValid(days, i) {
        if i < n - 1 {
          assert RecordedFlags(days, n)[i] == prev[i];
        }
      }
    }
  }

  /** The flag recorded for one more day is that day's validity. */
  lemma RecordedFlagsSnoc(days: seq<Day>, n: nat)
    requires 0 < n <= |days|
    ensures RecordedFlags(days, n) == RecordedFlags(days, n - 1) + [RecordedValid(days, n - 1)]
  {
    var f := FlagsAfter(days, n);
    assert RecordedFlags(days, n) == RecordedFlags(days, n - 1) + [f.morning && f.afternoon && f.evening];
  }

  /** `all_valid.every(v => v === true)` */
  predicate AllTrue(flags: seq<bool>) {
    forall i :: 0 <= i < |flags| ==> flags[i]
  }

  /** `handleSubmit`: whether the form is submitted, and the error text it leaves (None: untouched). */
  datatype SubmitOutcome = SubmitOutcome(proceed: bool, errorText: Option<string>)

  function HandleSubmit(confirmed: bool, signature: string, baseline: string): (r: SubmitOutcome)
    ensures r.proceed <==> confirmed && signature != baseline
    ensures !confirmed ==> r.errorText == None
    ensures confirmed ==> r.errorText == Some(if r.proceed then "" else "Please enter a valid number")
  {
    if confirmed then
      if signature == baseline then SubmitOutcome(false, Some("Please enter a valid number"))
      else SubmitOutcome(true, Some(""))
    else
      SubmitOutcome(false, None)
  }

  // ---------------------------------------------------------------------
  // Properties of the calculator
  // ---------------------------------------------------------------------

  lemma SumHoursSnoc(days: seq<Day>, n: nat)
    requires n < |days|
    ensures SumHours(days[..n + 1]) == SumHours(days[..n]) + DayHours(days[n])
  {
    assert days[..n + 1][..n] == days[..n];
  }

  lemma {:induction false} SumHoursAppend(a: seq<Day>, b: seq<Day>)
    ensures SumHours(a + b) == SumHours(a) + SumHours(b)
    decreases |b|
  {
    if b == [] {
      assert a + b == a;
    } else {
      var b' := b[..|b| - 1];
      assert (a + b)[..|a + b| - 1] == a + b';
      SumHoursAppend(a, b');
    }
  }

  /** Week two, written as grand total minus week one, is the sum of days 7..13. */
  lemma WeekTwoIsSecondWeek(days: seq<Day>)
    requires |days| == 14
    ensures SumHours(days) - SumHours(days[..7]) == SumHours(days[7..])
  {
    assert days == days[..7] + days[7..];
    SumHoursAppend(days[..7], days[7..]);
  }

  /** No day total is negative, so neither is any running or grand total. */
  lemma {:induction false} SumHoursNonNegative(days: seq<Day>)
    ensures SumHours(days) >= 0.0
    decreases |days|
  {
    if days != [] {
      SumHoursNonNegative(days[..|days| - 1]);
    }
  }

  /** A day total is the raw segment sum when that is non-negative and 0 otherwise, never below either. */
  lemma DayHoursIsClampedSum(d: Day)
    ensures DayHours(d) >= 0.0
    ensures var t := SegmentHours(d.morningBegin, d.morningEnd)
                   + SegmentHours(d.afternoonBegin, d.afternoonEnd)
                   + SegmentHours(d.eveningBegin, d.eveningEnd);
            DayHours(d) == (if t < 0.0 then 0.0 else t) && DayHours(d) >= t
  {
  }

  /** The string '0' is the rendering of exactly the code 0. */
  lemma DecimalIsZeroString(n: nat)
    ensures Decimal(n) == "0" <==> n == 0
  {
    if n >= 10 {
      assert |Decimal(n)| >= 2 by { DecimalLength(n); }
    }
  }

  lemma {:induction false} DecimalLength(n: nat)
    ensures n >= 10 ==> |Decimal(n)| >= 2
    ensures 10 <= n < 100 ==> Decimal(n) == [DigitChar(n / 10), DigitChar(n % 10)]
  {
  }

  lemma LexLessOneDigit(x: nat, y: nat)
    requires x < 10 && y < 10
    ensures LexLess([DigitChar(x)], [DigitChar(y)]) <==> x < y
  {
    assert [DigitChar(x)][1..] == [];
    assert [DigitChar(y)][1..] == [];
  }

  /** On two-digit codes the script's string comparison agrees with numeric order. */
  lemma StringOrderOnTwoDigits(end: nat, begin: nat)
    requires 10 <= begin < 100 && 10 <= end < 100
    ensures StringGreater(end, begin) <==> end > begin
  {
    DecimalLength(begin);
    DecimalLength(end);
    var b := [DigitChar(begin / 10), DigitChar(begin % 10)];
    var e := [DigitChar(end / 10), DigitChar(end % 10)];
    assert b[1..] == [DigitChar(begin % 10)];
    assert e[1..] == [DigitChar(end % 10)];
    LexLessOneDigit(begin % 10, end % 10);
    assert LexLess(b, e) <==> begin / 10 < end / 10 || (begin / 10 == end / 10 && begin % 10 < end % 10);
  }

  /** Outside two digits it does not: the string "9" is not less than "13". */
  lemma StringOrderDisagreesAcrossLengths()
    ensures !StringGreater(13, 9)
  {
    assert Decimal(9) == "9";
    assert Decimal(13) == "13" by { DecimalLength(13); }
  }

  /**
   * What a single segment's own values say, independently of the sticky flag:
   * unset is fine, exactly one end set is not, and both set needs a positive
   * numeric length.
   */
  predicate SegmentOk(begin: nat, end: nat) {
    (begin == 0 && end == 0) || (begin != 0 && end != 0 && end > begin)
  }

  /** The preset codes the three select fields offer (the form's choice tables). */
  predicate InMorningChoices(n: nat) { n == 0 || 3 <= n <= 13 }
  predicate InAfternoonChoices(n: nat) { n == 0 || 13 <= n <= 23 }
  predicate InEveningChoices(n: nat) { n == 0 || 23 <= n <= 39 }

  predicate DayInChoices(d: Day) {
    InMorningChoices(d.morningBegin) && InMorningChoices(d.morningEnd)
    && InAfternoonChoices(d.afternoonBegin) && InAfternoonChoices(d.afternoonEnd)
    && InEveningChoices(d.eveningBegin) && InEveningChoices(d.eveningEnd)
  }

  predicate DayOk(d: Day) {
    SegmentOk(d.morningBegin, d.morningEnd)
    && SegmentOk(d.afternoonBegin, d.afternoonEnd)
    && SegmentOk(d.eveningBegin, d.eveningEnd)
  }

  /** On the offered codes a set segment's flag is its own numeric validity. */
  lemma NextFlagOnChoices(prev: bool, begin: nat, end: nat, ordered: bool)
    requires ordered ==> (begin == 0 || begin >= 10) && (end == 0 || end >= 10)
    requires begin < 100 && end < 100
    ensures (begin != 0 || end != 0) ==> (NextFlag(prev, begin, end, ordered) <==> SegmentOk(begin, end))
    ensures begin == 0 && end == 0 ==> NextFlag(prev, begin, end, ordered) == prev
  {
    DecimalIsZeroString(begin);
    DecimalIsZeroString(end);
    if ordered && begin != 0 && end != 0 {
      StringOrderOnTwoDigits(end, begin);
    }
  }

  lemma StepOnChoices(f: Flags, d: Day)
    requires DayInChoices(d)
    ensures DayOk(d) && f == Flags(true, true, true) ==> Step(f, d) == f
    ensures var g := Step(f, d); g.morning && g.afternoon && g.evening ==> DayOk(d)
  {
    NextFlagOnChoices(f.morning, d.morningBegin, d.morningEnd, false);
    NextFlagOnChoices(f.afternoon, d.afternoonBegin, d.afternoonEnd, true);
    NextFlagOnChoices(f.evening, d.eveningBegin, d.eveningEnd, true);
  }

  lemma StepKeepsTrue(d: Day)
    requires DayInChoices(d) && DayOk(d)
    ensures Step(Flags(true, true, true), d) == Flags(true, true, true)
  {
    StepOnChoices(Flags(true, true, true), d);
  }

  /** A day on the offered codes whose three segments are each valid. */
  predicate OfferedAndOk(d: Day) {
    DayInChoices(d) && DayOk(d)
  }

  lemma {:induction false} FlagsStayTrue(days: seq<Day>, n: nat)
    requires n <= |days|
    requires forall i :: 0 <= i < n ==> OfferedAndOk(days[i])
    ensures FlagsAfter(days, n) == Flags(true, true, true)
  {
    if n > 0 {
      FlagsStayTrue(days, n - 1);
      NextDayKeepsTrue(days, n);
    }
  }

  /** One more valid day on the offered codes keeps all-true flags all true. */
  lemma NextDayKeepsTrue(days: seq<Day>, n: nat)
    requires 0 < n <= |days|
    requires FlagsAfter(days, n - 1) == Flags(true, true, true)
    requires OfferedAndOk(days[n - 1])
    ensures FlagsAfter(days, n) == Flags(true, true, true)
  {
    StepKeepsTrue(days[n - 1]);
  }

  /**
   * Stickiness does not leak into the submit gate: on the offered codes every
   * recorded flag is true exactly when every day is valid on its own values.
   */
  lemma AllRecordedValidIffEveryDayOk(days: seq<Day>)
    requires forall i :: 0 <= i < |days| ==> DayInChoices(days[i])
    ensures (forall i :: 0 <= i < |days| ==> RecordedValid(days, i))
        <==> (forall i :: 0 <= i < |days| ==> DayOk(days[i]))
  {
    if forall i :: 0 <= i < |days| ==> DayOk(days[i]) {
      forall i | 0 <= i < |days| ensures RecordedValid(days, i) {
        FlagsStayTrue(days, i + 1);
      }
    }
    if forall i :: 0 <= i < |days| ==> RecordedValid(days, i) {
      forall i | 0 <= i < |days| ensures DayOk(days[i]) {
        RecordedValidDayOk(days, i);
      }
    }
  }

  lemma RecordedValidDayOk(days: seq<Day>, i: nat)
    requires i < |days| && DayInChoices(days[i]) && RecordedValid(days, i)
    ensures DayOk(days[i])
  {
    var f := FlagsAfter(days, i);
    assert FlagsAfter(days, i + 1) == Step(f, days[i]);
    StepOnChoices(f, days[i]);
  }

  /** An all-unset segment keeps whatever flag the previous day left behind. */
  lemma UnsetSegmentInheritsFlag(days: seq<Day>, i: nat)
    requires 0 < i < |days|
    requires days[i].morningBegin == 0 && days[i].morningEnd == 0
    ensures FlagsAfter(days, i + 1).morning == FlagsAfter(days, i).morning
  {
  }

  /** So an empty day after an invalid morning is itself recorded invalid. */
  lemma EmptyDayAfterInvalidMorning(days: seq<Day>)
    requires |days| >= 2
    requires days[0] == Day(5, 4, 0, 0, 0, 0) && days[1] == Day(0, 0, 0, 0, 0, 0)
    ensures !RecordedValid(days, 0) && !RecordedValid(days, 1)
  {
    DecimalIsZeroString(5);
    DecimalIsZeroString(4);
  }

  /** The submit gate, stated on the days themselves. */
  lemma SubmitGate(days: seq<Day>, canvasDataUrl: Option<string>, blank: string, display: Display, allValid: seq<bool>)
    requires |days| == 14 && forall i :: 0 <= i < 14 ==> DayInChoices(days[i])
    requires |allValid| == 14 && forall i :: 0 <= i < 14 ==> allValid[i] == RecordedValid(days, i)
    requires display.grandTotal == SumHours(days)
    requires display.submitEnabled <==>
               AllTrue(allValid) && !IsCanvasBlank(canvasDataUrl, blank) && display.grandTotal > 0.0
    ensures display.submitEnabled <==>
              (forall i :: 0 <= i < 14 ==> DayOk(days[i]))
              && canvasDataUrl != Some(blank) && SumHours(days) > 0.0
  {
    AllRecordedValidIffEveryDayOk(days);
  }
}
