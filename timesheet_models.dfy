/**
 * The timesheet models: `PayPeriod` (two-week periods and their lookup) and
 * `TimesheetShift` (the preset time codes, the shift validation and the
 * hours/minutes/seconds breakdown).
 *
 * Dates are day numbers and datetimes are instants in seconds, both in the
 * site's local time.  A clock time of day is a half-hour slot, 0 being
 * midnight and 47 being 11:30 pm.
 */
module TimesheetModels {
  import opened Wrappers
  import opened Text
  import Queries

  const SecondsPerDay: int := 86400

  /** Preset code 0, `INT_NULL_TIME`: no time chosen. */
  const IntNullTime: nat := 0

  /** The largest preset code, `INT_1_00_AM`. */
  const LastPreset: nat := 39

  // ---------------------------------------------------------------------
  // PayPeriod
  // ---------------------------------------------------------------------

  /** A pay period as `clean` sees it: the end may still be unset. */
  class PayPeriod {
    var dateStart: int
    var dateEnd: Option<int>

    constructor (start: int, end: Option<int>)
      ensures dateStart == start && dateEnd == end
    {
      dateStart := start;
      dateEnd := end;
    }

    /** `clean`: an unset end becomes the start plus 13 days, so the period spans 14 days. */
    method Clean()
      modifies this
      ensures dateStart == old(dateStart)
      ensures old(dateEnd).None? ==> dateEnd == Some(dateStart + 13)
      ensures old(dateEnd).Some? ==> dateEnd == old(dateEnd)
    {
      if dateEnd.None? {
        dateEnd := Some(dateStart + 13);
      }
    }
  }

  /** A stored pay period row. */
  datatype PeriodRow = PeriodRow(start: int, end: int)

  predicate Covers(p: PeriodRow, day: int) {
    p.start <= day <= p.end
  }

  /** `get_start_as_datetime`: midnight at the start date. */
  function PeriodStartInstant(p: PeriodRow): int {
    p.start * SecondsPerDay
  }

  /** `get_end_as_datetime`: 23:59:59 on the end date. */
  function PeriodEndInstant(p: PeriodRow): int {
    p.end * SecondsPerDay + SecondsPerDay - 1
  }

  /** The argument of `get_payperiod`, by its Python type. */
  datatype PeriodArg =
    | NoArg
    | DateTimeArg(day: int, secondOfDay: nat)
    | DateArg(day: int)
    | OtherArg

  /** The date looked up: None for a value that is neither a date nor a datetime. */
  function LookupDay(arg: PeriodArg, today: int): Option<int> {
    match arg
    case NoArg => Some(today)
    case DateTimeArg(day, _) => Some(day)
    case DateArg(day) => Some(day)
    case OtherArg => None
  }

  /** `get_payperiod`: the single stored period covering the date. */
  function GetPayPeriod(arg: PeriodArg, today: int, periods: seq<PeriodRow>): (r: Result<PeriodRow>)
    ensures arg.OtherArg? ==> r.Err? && r.error.ValidationError?
    ensures arg.NoArg? ==> (r.Ok? ==> Covers(r.value, today))
    ensures (arg.DateTimeArg? || arg.DateArg?) ==> (r.Ok? ==> Covers(r.value, arg.day))
    ensures r.Ok? ==> r.value in periods
                      && forall q :: q in periods && Covers(q, LookupDay(arg, today).value) ==> q == r.value
    ensures !arg.OtherArg? ==>
              (r == Err(DoesNotExist) <==> forall q :: q in periods ==> !Covers(q, LookupDay(arg, today).value))
    ensures !arg.OtherArg? ==> r.Ok? || r == Err(DoesNotExist) || r == Err(MultipleObjectsReturned)
  {
    match LookupDay(arg, today)
    case None => Err(ValidationError("Expected date value."))
    case Some(day) => Queries.Get(periods, (p: PeriodRow) => Covers(p, day))
  }

  // ---------------------------------------------------------------------
  // Preset time codes
  // ---------------------------------------------------------------------

  /** The half-hour slot that preset code `n` (1..39) stands for: 1 is 6:00 am, 37..39 are 12:00 am..1:00 am. */
  function PresetSlot(n: nat): (slot: nat)
    requires 1 <= n <= LastPreset
    ensures slot < 48
  {
    if n <= 36 then n + 11 else n - 37
  }

  function Hour12(h: nat): (r: nat)
    requires h < 24
    ensures 1 <= r <= 12
  {
    if h == 0 then 12 else if h <= 12 then h else h - 12
  }

  function MinuteText(slot: nat): string {
    if slot % 2 == 0 then "00" else "30"
  }

  /** A slot as `strftime('%-I:%M %p').lower()` writes it, which is also the preset label: '6:00 am'. */
  function TimeText(slot: nat): string
    requires slot < 48
  {
    Decimal(Hour12(slot / 2)) + ":" + MinuteText(slot) + " " + (if slot / 2 < 12 then "am" else "pm")
  }

  /** The zero-padded upper-case spelling the decoder also accepts: '06:00 AM'. */
  function PaddedTimeText(slot: nat): string
    requires slot < 48
  {
    var h := Hour12(slot / 2);
    (if h < 10 then "0" else "") + Decimal(h) + ":" + MinuteText(slot) + " " + (if slot / 2 < 12 then "AM" else "PM")
  }

  /** The codes whose padded spelling the decoder accepts: 6:00 AM to 9:30 PM, and 1:00 AM. */
  predicate HasPaddedSpelling(n: nat) {
    1 <= n <= 32 || n == LastPreset
  }

  /** `get_preset_time_str_from_int`. */
  function PresetTimeStr(n: int): (r: Result<string>)
    ensures r.Ok? <==> 0 <= n <= LastPreset
    ensures n == 0 ==> r == Ok("-")
    ensures r.Err? ==> r.error.ValueError?
  {
    if n == 0 then Ok("-")
    else if 1 <= n <= LastPreset then Ok(TimeText(PresetSlot(n)))
    else Err(ValueError("Unhandled value."))
  }

  /** Whether the decoder's branch for code `n` accepts `s`. */
  predicate Spells(s: string, n: nat)
    requires n <= LastPreset
  {
    if n == 0 then s == "-"
    else s == TimeText(PresetSlot(n)) || (HasPaddedSpelling(n) && s == PaddedTimeText(PresetSlot(n)))
  }

  /** An `if`/`elif` chain over the tests `accepts(n)`, ..., `accepts(last)`: the first branch that holds. */
  function FirstAccepting(accepts: nat -> bool, n: nat, last: nat): (r: Option<nat>)
    ensures r.Some? ==> n <= r.value <= last && accepts(r.value)
    ensures r.Some? ==> forall k :: n <= k < r.value ==> !accepts(k)
    ensures r.None? <==> forall k :: n <= k <= last ==> !accepts(k)
    decreases last + 1 - n
  {
    if n > last then None
    else if accepts(n) then Some(n)
    else FirstAccepting(accepts, n + 1, last)
  }

  lemma {:induction false} FirstAcceptingFinds(accepts: nat -> bool, n: nat, last: nat, m: nat)
    requires n <= m <= last && accepts(m)
    requires forall k :: n <= k < m ==> !accepts(k)
    ensures FirstAccepting(accepts, n, last) == Some(m)
    decreases m - n
  {
    if n < m {
      FirstAcceptingFinds(accepts, n + 1, last, m);
    }
  }

  /** The test of the decoder's branch for code `k`. */
  function Branch(s: string): nat -> bool {
    (k: nat) => k <= LastPreset && Spells(s, k)
  }

  /** `get_preset_time_int_from_str`: the first code whose branch accepts the string, or ValueError. */
  function PresetTimeInt(s: string): (r: Result<nat>)
    ensures r.Ok? ==> r.value <= LastPreset
    ensures r.Err? ==> r.error.ValueError?
  {
    match FirstAccepting(Branch(s), 0, LastPreset)
    case Some(n) => Ok(n)
    case None => Err(ValueError("Unhandled value."))
  }

  /** The decoder returns a code exactly when that code's branch is the first to accept the string. */
  lemma PresetTimeIntAccepts(s: string, n: nat)
    requires n <= LastPreset
    ensures PresetTimeInt(s) == Ok(n) <==> Spells(s, n) && forall k :: 0 <= k < n ==> !Spells(s, k)
  {
    var r := FirstAccepting(Branch(s), 0, LastPreset);
    if Spells(s, n) && forall k :: 0 <= k < n ==> !Spells(s, k) {
      forall k | 0 <= k < n ensures !Branch(s)(k) {
      }
      assert Branch(s)(n);
      FirstAcceptingFinds(Branch(s), 0, LastPreset, n);
    }
    if r == Some(n) {
      assert Branch(s)(n);
      forall k | 0 <= k < n ensures !Spells(s, k) {
        assert !Branch(s)(k);
      }
    }
  }

  /** The decoder fails exactly on strings no branch accepts. */
  lemma PresetTimeIntRejects(s: string)
    ensures PresetTimeInt(s).Err? <==> forall k :: 0 <= k <= LastPreset ==> !Spells(s, k)
  {
    var r := FirstAccepting(Branch(s), 0, LastPreset);
    if forall k :: 0 <= k <= LastPreset ==> !Spells(s, k) {
      forall k | 0 <= k <= LastPreset ensures !Branch(s)(k) {
      }
    }
    if r.None? {
      forall k | 0 <= k <= LastPreset ensures !Spells(s, k) {
        assert !Branch(s)(k);
      }
    } else {
      assert Branch(s)(r.value);
    }
  }

  lemma DecimalSmall(n: nat)
    requires n < 100
    ensures n < 10 ==> Decimal(n) == [DigitChar(n)]
    ensures 10 <= n ==> Decimal(n) == [DigitChar(n / 10), DigitChar(n % 10)]
  {
  }

  lemma DecimalInjectiveSmall(a: nat, b: nat)
    requires a < 100 && b < 100 && Decimal(a) == Decimal(b)
    ensures a == b
  {
    DecimalSmall(a);
    DecimalSmall(b);
    if a < 10 && b < 10 {
      assert Decimal(a)[0] == Decimal(b)[0];
    } else if 10 <= a && 10 <= b {
      assert Decimal(a)[0] == Decimal(b)[0] && Decimal(a)[1] == Decimal(b)[1];
    }
  }

  /** Where the hour, minute digit and am/pm letter sit in a slot's text. */
  lemma TimeTextParts(slot: nat)
    requires slot < 48
    ensures var t, d := TimeText(slot), Decimal(Hour12(slot / 2));
            |t| == |d| + 6 && 1 <= |d| <= 2 && t[..|d|] == d
            && t[|d| + 1] == (if slot % 2 == 0 then '0' else '3')
            && t[|d| + 4] == (if slot / 2 < 12 then 'a' else 'p')
            && t[|t| - 1] == 'm'
  {
    DecimalSmall(Hour12(slot / 2));
  }

  lemma PaddedTimeTextLast(slot: nat)
    requires slot < 48
    ensures var t := PaddedTimeText(slot); |t| >= 1 && t[|t| - 1] == 'M'
  {
  }

  /** Distinct slots have distinct texts. */
  lemma TimeTextInjective(a: nat, b: nat)
    requires a < 48 && b < 48 && TimeText(a) == TimeText(b)
    ensures a == b
  {
    TimeTextParts(a);
    TimeTextParts(b);
    var da, db := Decimal(Hour12(a / 2)), Decimal(Hour12(b / 2));
    assert |da| == |db|;
    assert da == db;
    DecimalInjectiveSmall(Hour12(a / 2), Hour12(b / 2));
    assert a % 2 == b % 2;
    assert (a / 2 < 12) == (b / 2 < 12);
  }

  lemma LabelIsNotPadded(a: nat, b: nat)
    requires a < 48 && b < 48
    ensures TimeText(a) != PaddedTimeText(b)
  {
    TimeTextParts(a);
    PaddedTimeTextLast(b);
  }

  /** A preset's own label is spelled by no other code's branch. */
  lemma LabelSpellsOnly(n: nat, k: nat)
    requires 1 <= n <= LastPreset && k <= LastPreset && k != n
    ensures !Spells(TimeText(PresetSlot(n)), k)
  {
    var t := TimeText(PresetSlot(n));
    if k == 0 {
      TimeTextParts(PresetSlot(n));
      assert |t| >= 7;
    } else {
      if t == TimeText(PresetSlot(k)) {
        TimeTextInjective(PresetSlot(n), PresetSlot(k));
      }
      LabelIsNotPadded(PresetSlot(n), PresetSlot(k));
    }
  }

  /** Decoding the label of any code gives the code back: the codec is a bijection on 0..39. */
  lemma PresetRoundTrip(n: nat)
    requires n <= LastPreset
    ensures PresetTimeStr(n).Ok? && PresetTimeInt(PresetTimeStr(n).value) == Ok(n)
  {
    var s := PresetTimeStr(n).value;
    if n > 0 {
      forall k | 0 <= k <= LastPreset && k != n ensures !Spells(s, k) {
        LabelSpellsOnly(n, k);
      }
    }
    PresetTimeIntAccepts(s, n);
  }

  /** The other direction: whatever the decoder accepts encodes back to its canonical label or is its padded form. */
  lemma PresetDecodeEncode(s: string)
    requires PresetTimeInt(s).Ok?
    ensures var n := PresetTimeInt(s).value;
            PresetTimeStr(n) == Ok(s) || (HasPaddedSpelling(n) && s == PaddedTimeText(PresetSlot(n)))
  {
    PresetTimeIntAccepts(s, PresetTimeInt(s).value);
  }

  /** The first label and the noon label. */
  lemma MorningLabelExamples()
    ensures PresetTimeStr(1) == Ok("6:00 am")
    ensures PresetTimeStr(13) == Ok("12:00 pm")
  {
    assert TimeText(12) == "6:00 am" by { assert Decimal(6) == "6"; }
    assert TimeText(24) == "12:00 pm" by { assert Decimal(12) == "12" by { DecimalSmall(12); } }
  }

  /** The codes past midnight wrap to the small hours. */
  lemma MidnightLabelExamples()
    ensures PresetTimeStr(37) == Ok("12:00 am")
    ensures PresetTimeStr(39) == Ok("1:00 am")
  {
    assert TimeText(0) == "12:00 am" by { assert Decimal(12) == "12" by { DecimalSmall(12); } }
    assert TimeText(2) == "1:00 am" by { assert Decimal(1) == "1"; }
  }

  /** Padded spellings the decoder takes. */
  lemma PaddedSpellingAccepted()
    ensures Spells("06:00 AM", 1) && Spells("01:00 AM", 39)
  {
    assert PaddedTimeText(12) == "06:00 AM" by { assert Decimal(6) == "6"; }
    assert PaddedTimeText(2) == "01:00 AM" by { assert Decimal(1) == "1"; }
  }

  /** From 10:00 pm to 12:30 am only the lower-case label is accepted. */
  lemma PaddedSpellingRejected()
    ensures !Spells("10:00 PM", 33) && !Spells("12:00 AM", 37)
  {
    LabelIsNotPadded(44, 44);
    LabelIsNotPadded(0, 0);
  }

  // ---------------------------------------------------------------------
  // TimesheetShift.clean
  // ---------------------------------------------------------------------

  /** A shift row.  Stored rows always have an id; a shift being created has none yet. */
  datatype Shift = Shift(id: Option<int>, employee: int, clockIn: Option<int>, clockOut: Option<int>,
                         signature: string, payPeriod: Option<PeriodRow>)

  /** Another shift of the same employee, the shift itself excluded. */
  predicate SameEmployeeOther(s: Shift, o: Shift) {
    o.employee == s.employee && o.id != s.id
  }

  /** `o` starts before `t` and ends after it (a NULL column matches no comparison). */
  predicate StrictlyInside(t: int, o: Shift) {
    o.clockIn.Some? && o.clockOut.Some? && o.clockIn.value < t < o.clockOut.value
  }

  /** `o` lies strictly inside the interval from `a` to `b`. */
  predicate StrictlyContains(a: int, b: int, o: Shift) {
    o.clockIn.Some? && o.clockOut.Some? && a < o.clockIn.value && o.clockOut.value < b
  }

  const OrderMessage := "Clock out time must be after clock in time."
  const OverlapMessage := "Users cannot have overlapping shift times."
  const PeriodMessage := "Shift must be between pay period dates. Double check that you're using the correct pay period."
  const SignatureMessage := "Signature is required!"

  predicate Overlaps(s: Shift, others: seq<Shift>) {
    exists o :: o in others && SameEmployeeOther(s, o) &&
      ((s.clockIn.Some? && StrictlyInside(s.clockIn.value, o))
       || (s.clockOut.Some? && StrictlyInside(s.clockOut.value, o))
       || (s.clockIn.Some? && s.clockOut.Some? && StrictlyContains(s.clockIn.value, s.clockOut.value, o)))
  }

  predicate InPeriod(t: int, p: PeriodRow) {
    PeriodStartInstant(p) <= t <= PeriodEndInstant(p)
  }

  /** What a valid shift is, stated on its own. */
  predicate ValidShift(s: Shift, others: seq<Shift>) {
    (s.clockIn.Some? && s.clockOut.Some? ==> s.clockIn.value < s.clockOut.value)
    && !Overlaps(s, others)
    && (s.clockOut.Some? ==> s.clockIn.Some?)
    && (s.payPeriod.Some? ==> s.clockIn.Some? && InPeriod(s.clockIn.value, s.payPeriod.value))
    && s.signature != ""
  }

  /**
   * `TimesheetShift.clean` with the signature check raising the ValidationError
   * it spells out.  The checks run in the source's order: clock order, clock in
   * inside another shift, clock out inside another shift, another shift inside
   * this one, pay-period bounds, signature.  The containment query compares
   * against clock in, so a shift with only a clock out fails there: the ORM
   * refuses None as a comparison value.  The pay-period check compares clock in
   * with the period start, so a missing clock in fails there with a TypeError.
   */
  function CleanShift(s: Shift, others: seq<Shift>): (r: Result<()>)
    ensures r.Ok? <==> ValidShift(s, others)
    ensures s.clockIn.Some? && s.clockOut.Some? && s.clockOut.value <= s.clockIn.value
            ==> r == Err(ValidationError(OrderMessage))
    ensures r.Err? && Overlaps(s, others) && (s.clockIn.Some? && s.clockOut.Some? ==> s.clockIn.value < s.clockOut.value)
            ==> r == Err(ValidationError(OverlapMessage)) || r == Err(ValueError("Cannot use None as a query value"))
    ensures s.signature == "" && r.Err? ==> r.error.ValidationError? || r.error.ValueError? || r.error.TypeError?
  {
    if s.clockIn.Some? && s.clockOut.Some? && s.clockOut.value <= s.clockIn.value then
      Err(ValidationError(OrderMessage))
    else if s.clockIn.Some? && exists o :: o in others && SameEmployeeOther(s, o) && StrictlyInside(s.clockIn.value, o) then
      Err(ValidationError(OverlapMessage))
    else if s.clockOut.Some? && exists o :: o in others && SameEmployeeOther(s, o) && StrictlyInside(s.clockOut.value, o) then
      Err(ValidationError(OverlapMessage))
    else if s.clockOut.Some? && s.clockIn.None? then
      Err(ValueError("Cannot use None as a query value"))
    else if s.clockOut.Some? && exists o :: o in others && SameEmployeeOther(s, o)
                                              && StrictlyContains(s.clockIn.value, s.clockOut.value, o) then
      Err(ValidationError(OverlapMessage))
    else if s.payPeriod.Some? && s.clockIn.None? then
      Err(TypeError("'<' not supported between 'NoneType' and 'datetime'"))
    else if s.payPeriod.Some? && !InPeriod(s.clockIn.value, s.payPeriod.value) then
      Err(ValidationError(PeriodMessage))
    else if s.signature == "" then
      Err(ValidationError(SignatureMessage))
    else
      Ok(())
  }

  /**
   * `clean` as written.  The signature check sits in a `try` whose `except`
   * names `TimesheetShift.signature.RelatedObjectDoesNotExist`.  Raising the
   * ValidationError makes Python evaluate that name, and a plain text field's
   * class attribute has no such member.  So the AttributeError is what leaves
   * `clean`.
   */
  function CleanShiftAsWritten(s: Shift, others: seq<Shift>): (r: Result<()>)
    ensures CleanShift(s, others) == Err(ValidationError(SignatureMessage))
            ==> r == Err(AttributeError("'DeferredAttribute' object has no attribute 'RelatedObjectDoesNotExist'"))
    ensures CleanShift(s, others) != Err(ValidationError(SignatureMessage)) ==> r == CleanShift(s, others)
  {
    var r := CleanShift(s, others);
    if r == Err(ValidationError(SignatureMessage)) then
      Err(AttributeError("'DeferredAttribute' object has no attribute 'RelatedObjectDoesNotExist'"))
    else r
  }

  /** An unsigned shift that passes every other check leaves the as-written `clean` with an AttributeError. */
  lemma UnsignedShiftRaisesAttributeError(p: PeriodRow)
    requires p.start <= p.end
    ensures var s := Shift(None, 1, Some(PeriodStartInstant(p)), Some(PeriodStartInstant(p) + 3600), "", Some(p));
            CleanShift(s, []) == Err(ValidationError(SignatureMessage))
            && CleanShiftAsWritten(s, []).error.AttributeError?
  {
  }

  // ---------------------------------------------------------------------
  // get_time_worked_as_hms
  // ---------------------------------------------------------------------

  /** `math.trunc` on an exact real. */
  function Trunc(x: real): (r: int)
    ensures x >= 0.0 ==> r as real <= x < r as real + 1.0
    ensures x < 0.0 ==> r as real - 1.0 < x <= r as real
  {
    if x >= 0.0 then x.Floor else -((-x).Floor)
  }

  /** `get_time_worked_as_hms(total_seconds)`, for a whole number of seconds. */
  function TimeWorkedHms(totalSeconds: int): (hms: (int, int, int))
  {
    var totalMinutes := totalSeconds as real / 60.0;
    var totalHours := totalMinutes / 60.0;
    var hours := Trunc(totalHours);
    var minutes := Trunc(totalMinutes - (hours * 60) as real);
    var seconds := Trunc(totalSeconds as real - (minutes * 60) as real - (hours * 60 * 60) as real);
    (hours, minutes, seconds)
  }

  /** The breakdown recombines to the input and keeps minutes and seconds within a minute or hour, toward zero. */
  lemma TimeWorkedHmsDecomposes(totalSeconds: int)
    ensures var (h, m, s) := TimeWorkedHms(totalSeconds);
            h * 3600 + m * 60 + s == totalSeconds
            && (totalSeconds >= 0 ==> h >= 0 && 0 <= m < 60 && 0 <= s < 60)
            && (totalSeconds < 0 ==> h <= 0 && -60 < m <= 0 && -60 < s <= 0)
  {
    var (h, m, s) := TimeWorkedHms(totalSeconds);
    var x := totalSeconds as real;
    assert s == totalSeconds - m * 60 - h * 3600;
    if totalSeconds >= 0 {
      assert h as real <= x / 3600.0 < h as real + 1.0;
      assert 0.0 <= x / 60.0 - (h * 60) as real;
    } else {
      assert h as real - 1.0 < x / 3600.0 <= h as real;
      assert x / 60.0 - (h * 60) as real <= 0.0;
    }
  }

  /**
   * `get_time_worked_as_hms()` with no argument, as written: it falls back to
   * `clock_out - clock_in`, a timedelta, and `math.trunc` of a timedelta raises
   * TypeError (as does the subtraction when a clock is unset).
   */
  function TimeWorkedDefaultAsWritten(s: Shift): (r: Result<(int, int, int)>)
    ensures r.Err? && r.error.TypeError?
  {
    Err(TypeError("type datetime.timedelta doesn't define __trunc__"))
  }

  /** The fallback as evidently intended: the shift's length in seconds. */
  function TimeWorkedDefault(s: Shift): (r: Result<(int, int, int)>)
    ensures s.clockIn.Some? && s.clockOut.Some? ==>
              r.Ok? && var (h, m, sec) := r.value;
              h * 3600 + m * 60 + sec == s.clockOut.value - s.clockIn.value
    ensures s.clockIn.None? || s.clockOut.None? ==> r.Err? && r.error.TypeError?
  {
    if s.clockIn.Some? && s.clockOut.Some? then
      TimeWorkedHmsDecomposes(s.clockOut.value - s.clockIn.value);
      Ok(TimeWorkedHms(s.clockOut.value - s.clockIn.value))
    else
      Err(TypeError("unsupported operand type(s) for -"))
  }
}
