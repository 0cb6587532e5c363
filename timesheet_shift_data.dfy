/**
 * The two directions between stored shifts and the day form's preset codes:
 * `calculate_form_shift_data` reads a period's shifts into per-day form data,
 * and `save_morning_data`/`save_afternoon_data`/`save_evening_data` turn a
 * day's posted codes back into a created or updated shift.
 *
 * Instants are seconds in local time, with day `d` starting at `d * 86400`;
 * time zones and daylight saving are not modelled.
 */
module TimesheetShiftData {
  import opened Wrappers
  import opened Text
  import Queries
  import opened TimesheetModels
  import TimesheetForms

  const SecondsPerSlot: int := 1800

  datatype Segment = Morning | Afternoon | Evening

  /** The instant of half-hour `slot` of `day`. */
  function SlotInstant(day: int, slot: int): int {
    day * SecondsPerDay + slot * SecondsPerSlot
  }

  // ---------------------------------------------------------------------
  // Reading a stored instant back as a preset code
  // ---------------------------------------------------------------------

  function TwoDigits(n: nat): string
    requires n < 100
  {
    [DigitChar(n / 10), DigitChar(n % 10)]
  }

  /** `clock.strftime('%-I:%M %p').lower()`: seconds are dropped. */
  function ClockText(t: int): (s: string) {
    var secondOfDay := t % SecondsPerDay;
    var hour := secondOfDay / 3600;
    var minute := (secondOfDay % 3600) / 60;
    Decimal(Hour12(hour)) + ":" + TwoDigits(minute) + " " + (if hour < 12 then "am" else "pm")
  }

  /** The preset code an instant reads back as: `get_preset_time_int_from_str` of its text. */
  function CodeOfInstant(t: int): Result<nat> {
    PresetTimeInt(ClockText(t))
  }

  /** The code whose slot is `slot`, if any: the inverse of `PresetSlot`. */
  function SlotCode(slot: nat): (r: Option<nat>)
    requires slot < 48
    ensures r.Some? ==> 1 <= r.value <= LastPreset && PresetSlot(r.value) == slot
    ensures r.None? <==> forall n :: 1 <= n <= LastPreset ==> PresetSlot(n) != slot
  {
    if 12 <= slot then Some(slot - 11)
    else if slot <= 2 then Some(slot + 37)
    else None
  }

  /** On the hour or the half hour, the clock text is the slot's label. */
  lemma ClockTextAligned(t: int)
    requires (t % SecondsPerDay) % SecondsPerSlot < 60
    ensures ClockText(t) == TimeText((t % SecondsPerDay) / SecondsPerSlot)
  {
    var secondOfDay := t % SecondsPerDay;
    var slot := secondOfDay / SecondsPerSlot;
    assert secondOfDay / 3600 == slot / 2;
    assert (secondOfDay % 3600) / 60 == (if slot % 2 == 0 then 0 else 30);
  }

  /** A slot's label is spelled by the branch of its own code only, and by no branch if it has no code. */
  lemma SlotSpellsOnly(slot: nat, k: nat)
    requires slot < 48 && k <= LastPreset
    requires Spells(TimeText(slot), k)
    ensures 1 <= k && PresetSlot(k) == slot
  {
    TimeTextParts(slot);
    var t := TimeText(slot);
    if k == 0 {
      assert false;
    } else {
      LabelIsNotPadded(slot, PresetSlot(k));
      TimeTextInjective(slot, PresetSlot(k));
    }
  }

  /** Where the minute digits sit in a clock text. */
  lemma ClockTextParts(t: int)
    ensures var secondOfDay := t % SecondsPerDay;
            var d := Decimal(Hour12(secondOfDay / 3600));
            var s := ClockText(t);
            var minute := (secondOfDay % 3600) / 60;
            |s| == |d| + 6 && 1 <= |d| <= 2 && s[..|d|] == d
            && s[|d| + 1] == DigitChar(minute / 10) && s[|d| + 2] == DigitChar(minute % 10)
            && s[|s| - 1] == 'm'
  {
    DecimalSmall(Hour12((t % SecondsPerDay) / 3600));
  }

  /** Off the hour and half hour, the clock text is no preset's spelling. */
  lemma UnalignedSpellsNothing(t: int, k: nat)
    requires (t % SecondsPerDay) % SecondsPerSlot >= 60
    requires k <= LastPreset
    ensures !Spells(ClockText(t), k)
  {
    var s := ClockText(t);
    var secondOfDay := t % SecondsPerDay;
    var minute := (secondOfDay % 3600) / 60;
    assert minute != 0 && minute != 30;
    ClockTextParts(t);
    if k == 0 {
      assert |s| >= 7;
    } else {
      var slot := PresetSlot(k);
      TimeTextParts(slot);
      PaddedTimeTextLast(slot);
      if s == TimeText(slot) {
        assert false;
      }
    }
  }

  /**
   * An instant reads back as the code of its half-hour slot when it is on the
   * hour or half hour and the slot has a code; otherwise the decoder raises ValueError.
   */
  lemma CodeOfInstantSpec(t: int)
    ensures var slot := (t % SecondsPerDay) / SecondsPerSlot;
            CodeOfInstant(t) == if (t % SecondsPerDay) % SecondsPerSlot < 60 && SlotCode(slot).Some?
                                then Ok(SlotCode(slot).value) else Err(ValueError("Unhandled value."))
  {
    var slot := (t % SecondsPerDay) / SecondsPerSlot;
    if (t % SecondsPerDay) % SecondsPerSlot < 60 {
      ClockTextAligned(t);
      SlotLabelCode(slot);
    } else {
      UnalignedRejected(t);
    }
  }

  /** A slot's label reads back as the slot's code, and is rejected when the slot has none. */
  lemma SlotLabelCode(slot: nat)
    requires slot < 48
    ensures PresetTimeInt(TimeText(slot)) == if SlotCode(slot).Some? then Ok(SlotCode(slot).value) else Err(ValueError("Unhandled value."))
  {
    var s := TimeText(slot);
    if SlotCode(slot).Some? {
      PresetRoundTrip(SlotCode(slot).value);
    } else {
      forall k | 0 <= k <= LastPreset ensures !Spells(s, k) {
        if Spells(s, k) {
          SlotSpellsOnly(slot, k);
        }
      }
      PresetTimeIntRejects(s);
    }
  }

  /** An instant off the hour and half hour is rejected. */
  lemma UnalignedRejected(t: int)
    requires (t % SecondsPerDay) % SecondsPerSlot >= 60
    ensures CodeOfInstant(t) == Err(ValueError("Unhandled value."))
  {
    var s := ClockText(t);
    forall k | 0 <= k <= LastPreset ensures !Spells(s, k) {
      UnalignedSpellsNothing(t, k);
    }
    PresetTimeIntRejects(s);
  }

  /** A preset's own instant reads back as that preset, on any day. */
  lemma PresetInstantReadsBack(day: int, n: nat)
    requires 1 <= n <= LastPreset
    ensures CodeOfInstant(SlotInstant(day, PresetSlot(n))) == Ok(n)
  {
    var slot := PresetSlot(n);
    var t := SlotInstant(day, slot);
    SlotInstantParts(day, slot);
    assert SlotCode(slot) == Some(n);
    CodeOfInstantSpec(t);
  }

  /** The day and the second of the day of a slot's instant. */
  lemma SlotInstantParts(day: int, slot: int)
    requires 0 <= slot < 48
    ensures SlotInstant(day, slot) / SecondsPerDay == day
    ensures SlotInstant(day, slot) % SecondsPerDay == slot * SecondsPerSlot
    ensures (SlotInstant(day, slot) % SecondsPerDay) % SecondsPerSlot == 0
    ensures (SlotInstant(day, slot) % SecondsPerDay) / SecondsPerSlot == slot
  {
    var x, r := SlotInstant(day, slot), slot * SecondsPerSlot;
    var q, m := x / SecondsPerDay, x % SecondsPerDay;
    assert (day - q) * SecondsPerDay == m - r;
  }

  // ---------------------------------------------------------------------
  // Segment windows
  // ---------------------------------------------------------------------

  /** Where a segment's clock-in window opens on `day`: its earliest preset. */
  function WindowStart(seg: Segment, day: int): int {
    match seg
    case Morning => SlotInstant(day, PresetSlot(TimesheetForms.MorningEarliest))
    case Afternoon => SlotInstant(day, PresetSlot(TimesheetForms.AfternoonEarliest))
    case Evening => SlotInstant(day, PresetSlot(TimesheetForms.EveningEarliest))
  }

  /** Where it closes: its latest preset, which for the evening is 1:00 am of the next day. */
  function WindowEnd(seg: Segment, day: int): int {
    match seg
    case Morning => SlotInstant(day, PresetSlot(TimesheetForms.MorningLatest))
    case Afternoon => SlotInstant(day, PresetSlot(TimesheetForms.AfternoonLatest))
    case Evening => SlotInstant(day + 1, PresetSlot(TimesheetForms.EveningLatest))
  }

  predicate InWindow(seg: Segment, day: int, t: int) {
    WindowStart(seg, day) <= t < WindowEnd(seg, day)
  }

  /** The segment a clock in on `day` belongs to, tried morning, afternoon, evening. */
  function Classify(day: int, t: int): (r: Result<Segment>)
    ensures r.Ok? ==> InWindow(r.value, day, t)
    ensures r.Err? <==> !InWindow(Morning, day, t) && !InWindow(Afternoon, day, t) && !InWindow(Evening, day, t)
    ensures r.Err? ==> r.error.ValueError?
  {
    if InWindow(Morning, day, t) then Ok(Morning)
    else if InWindow(Afternoon, day, t) then Ok(Afternoon)
    else if InWindow(Evening, day, t) then Ok(Evening)
    else Err(ValueError("Unhandled shift time"))
  }

  /** The windows tile 7:00 am to 1:00 am of the next day without overlapping. */
  lemma WindowsTile(day: int, t: int)
    ensures WindowStart(Morning, day) == SlotInstant(day, 14) && WindowEnd(Morning, day) == WindowStart(Afternoon, day)
    ensures WindowEnd(Afternoon, day) == WindowStart(Evening, day) && WindowEnd(Evening, day) == SlotInstant(day, 50)
    ensures Classify(day, t).Ok? <==> SlotInstant(day, 14) <= t < SlotInstant(day, 50)
    ensures !(InWindow(Morning, day, t) && InWindow(Afternoon, day, t))
    ensures !(InWindow(Afternoon, day, t) && InWindow(Evening, day, t))
    ensures !(InWindow(Morning, day, t) && InWindow(Evening, day, t))
  {
  }

  // ---------------------------------------------------------------------
  // calculate_form_shift_data
  // ---------------------------------------------------------------------

  /** The six codes of one day's form, `INT_NULL_TIME` where no shift was found. */
  datatype DayCodes = DayCodes(morningBegin: nat, morningEnd: nat, afternoonBegin: nat, afternoonEnd: nat,
                               eveningBegin: nat, eveningEnd: nat)

  const NoCodes := DayCodes(IntNullTime, IntNullTime, IntNullTime, IntNullTime, IntNullTime, IntNullTime)

  /** One day of the result: its date, its shifts (None when there are none) and its form data. */
  datatype DayEntry = DayEntry(date: int, shifts: Option<seq<Shift>>, formData: TimesheetForms.CleanedData)

  /** The form data of day number `index`: the six fields suffixed with `index`. */
  function FormData(c: DayCodes, index: nat): TimesheetForms.CleanedData {
    map[(TimesheetForms.MorningBegin, index) := c.morningBegin as int, (TimesheetForms.MorningEnd, index) := c.morningEnd as int,
        (TimesheetForms.AfternoonBegin, index) := c.afternoonBegin as int, (TimesheetForms.AfternoonEnd, index) := c.afternoonEnd as int,
        (TimesheetForms.EveningBegin, index) := c.eveningBegin as int, (TimesheetForms.EveningEnd, index) := c.eveningEnd as int]
  }

  /** A day's form data has exactly the six fields of that day. */
  lemma FormDataKeys(c: DayCodes, index: nat, f: TimesheetForms.Field)
    ensures f in FormData(c, index) <==> f.1 == index
  {
    match f.0
    case MorningBegin =>
    case MorningEnd =>
    case AfternoonBegin =>
    case AfternoonEnd =>
    case EveningBegin =>
    case EveningEnd =>
  }

  const NoClockMessage := "'NoneType' object has no attribute 'astimezone'"

  /**
   * One shift of the day: its segment's two codes become those of its clock in
   * and clock out. A missing clock raises AttributeError, a clock in outside
   * every window ValueError, and so does a clock that is not a preset time.
   */
  function ShiftStep(day: int): (DayCodes, Shift) -> Result<DayCodes> {
    (c: DayCodes, s: Shift) =>
      if s.clockIn.None? || s.clockOut.None? then Err(AttributeError(NoClockMessage))
      else
        match Classify(day, s.clockIn.value)
        case Err(e) => Err(e)
        case Ok(seg) =>
          match CodeOfInstant(s.clockIn.value)
          case Err(e) => Err(e)
          case Ok(b) =>
            match CodeOfInstant(s.clockOut.value)
            case Err(e) => Err(e)
            case Ok(e) =>
              match seg
              case Morning => Ok(c.(morningBegin := b, morningEnd := e))
              case Afternoon => Ok(c.(afternoonBegin := b, afternoonEnd := e))
              case Evening => Ok(c.(eveningBegin := b, eveningEnd := e))
  }

  predicate ClocksInOn(s: Shift, day: int) {
    s.clockIn.Some? && s.clockIn.value / SecondsPerDay == day
  }

  /** `shifts.filter(clock_in__date=day)`. */
  function ShiftsOn(shifts: seq<Shift>, day: int): (r: seq<Shift>)
    ensures forall s :: s in r <==> s in shifts && ClocksInOn(s, day)
  {
    Queries.Filter(shifts, OnDay(day))
  }

  function OnDay(day: int): Shift -> bool {
    (s: Shift) => ClocksInOn(s, day)
  }

  /** The codes after the first `n` shifts of the day, in the order the query returns them. */
  function CodesAfter(day: int, ds: seq<Shift>, n: nat): Result<DayCodes>
    requires n <= |ds|
  {
    Fold(ShiftStep(day), NoCodes, ds, n)
  }

  /** Day number `index` of the period: its shifts, in the order the query returns them, folded into codes. */
  function EntryFor(p: PeriodRow, shifts: seq<Shift>, index: nat): Result<DayEntry> {
    var day := p.start + index;
    var ds := ShiftsOn(shifts, day);
    match CodesAfter(day, ds, |ds|)
    case Err(e) => Err(e)
    case Ok(c) => Ok(DayEntry(day, if |ds| == 0 then None else Some(ds), FormData(c, index)))
  }

  function DaysInPeriod(p: PeriodRow): nat {
    if p.end >= p.start then p.end - p.start + 1 else 0
  }

  /** The result of `calculate_form_shift_data`: one entry per day of the period, or the first error. */
  function FormShiftData(p: PeriodRow, shifts: seq<Shift>): Result<seq<DayEntry>> {
    Collect(DayStep(p, shifts), DaysInPeriod(p))
  }

  function DayStep(p: PeriodRow, shifts: seq<Shift>): nat -> Result<DayEntry> {
    (i: nat) => EntryFor(p, shifts, i)
  }

  /** The inner loop over one day's shifts. */
  method DayShiftCodes(day: int, ds: seq<Shift>) returns (r: Result<DayCodes>)
    ensures r == CodesAfter(day, ds, |ds|)
  {
    var c := NoCodes;
    var i := 0;
    while i < |ds|
      invariant 0 <= i <= |ds|
      invariant CodesAfter(day, ds, i) == Ok(c)
    {
      var next := ShiftStep(day)(c, ds[i]);
      if next.Err? {
        FoldStaysFailed(ShiftStep(day), NoCodes, ds, i + 1, |ds|);
        return next;
      }
      c := next.value;
      i := i + 1;
    }
    r := Ok(c);
  }

  /** One day of the outer loop: the day's shifts, their codes, and the entry built from them. */
  method BuildDay(p: PeriodRow, shifts: seq<Shift>, index: nat) returns (r: Result<DayEntry>)
    ensures r == EntryFor(p, shifts, index)
  {
    var currDate := p.start + index;
    var ds := ShiftsOn(shifts, currDate);
    var codes := DayShiftCodes(currDate, ds);
    if codes.Err? {
      return Err(codes.error);
    }
    r := Ok(DayEntry(currDate, if |ds| == 0 then None else Some(ds), FormData(codes.value, index)));
  }

  lemma FormShiftDataStep(p: PeriodRow, shifts: seq<Shift>, i: nat, es: seq<DayEntry>)
    requires Collect(DayStep(p, shifts), i) == Ok(es)
    ensures Collect(DayStep(p, shifts), i + 1) == match EntryFor(p, shifts, i)
                                                   case Err(e) => Err(e)
                                                   case Ok(x) => Ok(es + [x])
  {
    assert DayStep(p, shifts)(i) == EntryFor(p, shifts, i);
  }

  /** `calculate_form_shift_data`: walks the period's days in order, building each day's entry. */
  method CalculateFormShiftData(p: PeriodRow, shifts: seq<Shift>) returns (r: Result<seq<DayEntry>>)
    ensures r == FormShiftData(p, shifts)
  {
    var formData: seq<DayEntry> := [];
    var currDate := p.start;
    var index: nat := 0;
    while currDate <= p.end
      invariant currDate == p.start + index
      invariant index <= DaysInPeriod(p)
      invariant Collect(DayStep(p, shifts), index) == Ok(formData)
      decreases p.end - currDate
    {
      var entry := BuildDay(p, shifts, index);
      FormShiftDataStep(p, shifts, index, formData);
      if entry.Err? {
        CollectStaysFailed(DayStep(p, shifts), index + 1, DaysInPeriod(p));
        return Err(entry.error);
      }
      formData := formData + [entry.value];
      index := index + 1;
      currDate := currDate + 1;
    }
    r := Ok(formData);
  }

  /** One entry per day of the period, dated in order from its start, each keyed by its position. */
  lemma FormShiftDataShape(p: PeriodRow, shifts: seq<Shift>)
    ensures FormShiftData(p, shifts).Ok? <==> forall i :: 0 <= i < DaysInPeriod(p) ==> EntryFor(p, shifts, i).Ok?
    ensures FormShiftData(p, shifts).Ok? ==>
              var es := FormShiftData(p, shifts).value;
              |es| == DaysInPeriod(p)
              && (forall i :: 0 <= i < |es| ==> es[i].date == p.start + i)
              && (forall i, f :: 0 <= i < |es| ==> (f in es[i].formData <==> f.1 == i))
  {
    var step := DayStep(p, shifts);
    CollectSpec(step, DaysInPeriod(p));
    forall i: nat ensures step(i) == EntryFor(p, shifts, i) {}
    forall i: nat, f: TimesheetForms.Field | i < DaysInPeriod(p) && EntryFor(p, shifts, i).Ok?
      ensures EntryFor(p, shifts, i).value.date == p.start + i
      ensures f in EntryFor(p, shifts, i).value.formData <==> f.1 == i
    {
      var ds := ShiftsOn(shifts, p.start + i);
      FormDataKeys(CodesAfter(p.start + i, ds, |ds|).value, i, f);
    }
  }

  /** A day without shifts gets `INT_NULL_TIME` in all six fields. */
  lemma EmptyDayIsNull(p: PeriodRow, shifts: seq<Shift>, index: nat)
    requires forall s :: s in shifts ==> !ClocksInOn(s, p.start + index)
    ensures EntryFor(p, shifts, index) == Ok(DayEntry(p.start + index, None, FormData(NoCodes, index)))
  {
    var day := p.start + index;
    forall j | 0 <= j < |shifts| ensures !OnDay(day)(shifts[j]) {
      assert shifts[j] in shifts;
    }
    Queries.FilterNone(shifts, OnDay(day));
    var ds := ShiftsOn(shifts, day);
    assert CodesAfter(p.start + index, ds, 0) == Ok(NoCodes);
  }

  /** A shift whose clock in falls outside the three windows of its day makes the call raise ValueError. */
  lemma UnclassifiedShiftRaises(day: int, c: DayCodes, s: Shift)
    requires s.clockIn.Some? && s.clockOut.Some?
    requires Classify(day, s.clockIn.value).Err?
    ensures ShiftStep(day)(c, s).Err? && ShiftStep(day)(c, s).error.ValueError?
  {
  }

  // ---------------------------------------------------------------------
  // save_morning_data, save_afternoon_data, save_evening_data
  // ---------------------------------------------------------------------

  /** What a save did; the source returns True for an update or a creation and False otherwise. */
  datatype SaveOutcome = Unchanged | Updated(shift: Shift) | Created(shift: Shift)

  function Saved(o: SaveOutcome): bool {
    !o.Unchanged?
  }

  /** The earliest and the latest preset of a segment, as the form's choice bounds name them. */
  function Earliest(seg: Segment): nat {
    match seg
    case Morning => TimesheetForms.MorningEarliest
    case Afternoon => TimesheetForms.AfternoonEarliest
    case Evening => TimesheetForms.EveningEarliest
  }

  function Latest(seg: Segment): nat {
    match seg
    case Morning => TimesheetForms.MorningLatest
    case Afternoon => TimesheetForms.AfternoonLatest
    case Evening => TimesheetForms.EveningLatest
  }

  /** `strptime('{day} {label}'.upper(), '%Y-%m-%d %I:%M %p')` for the label of preset `code`. */
  function ClockInstant(day: int, code: nat): (r: Result<int>)
    ensures r.Ok? <==> 1 <= code <= LastPreset
    ensures r.Ok? ==> r.value == SlotInstant(day, PresetSlot(code))
  {
    if 1 <= code <= LastPreset then Ok(SlotInstant(day, PresetSlot(code)))
    else if code == 0 then Err(ValueError("time data does not match format '%Y-%m-%d %I:%M %p'"))
    else Err(PresetTimeStr(code).error)
  }

  /** `end_str[-2:] == 'AM'` on the upper-cased label. */
  predicate IsAmLabel(text: string) {
    EndsWith(Upper(text), "AM")
  }

  /** A preset's label ends in AM exactly when its slot is before noon. */
  lemma AmLabelIffMorningSlot(code: nat)
    requires 1 <= code <= LastPreset
    ensures IsAmLabel(PresetTimeStr(code).value) <==> PresetSlot(code) < 24
  {
    var slot := PresetSlot(code);
    var t := TimeText(slot);
    TimeTextParts(slot);
    var u := Upper(t);
    assert u[|u| - 2] == UpperChar(t[|t| - 2]);
    assert u[|u| - 1] == UpperChar(t[|t| - 1]);
    assert u[|u| - 2..] == [u[|u| - 2], u[|u| - 1]];
  }

  /** The date the label of `code` is put on: an evening's AM times fall on the next day. */
  function LabelDay(seg: Segment, day: int, code: nat): int {
    if seg.Evening? && 1 <= code <= LastPreset && IsAmLabel(PresetTimeStr(code).value) then day + 1 else day
  }

  /** Among the evening presets, exactly 12:00 am, 12:30 am and 1:00 am are dated the next day. */
  lemma EveningLabelDays(day: int, code: nat)
    requires TimesheetForms.EveningEarliest <= code <= TimesheetForms.EveningLatest
    ensures LabelDay(Evening, day, code) == if code >= 37 then day + 1 else day
  {
    AmLabelIffMorningSlot(code);
  }

  /** The clock out a save stores: `end_datetime`. */
  function EndInstant(seg: Segment, day: int, code: nat): Result<int> {
    ClockInstant(LabelDay(seg, day, code), code)
  }

  /** `begin_datetime` as written: every segment puts the begin label on the shift's own date. */
  function BeginInstantAsWritten(seg: Segment, day: int, code: nat): Result<int> {
    ClockInstant(day, code)
  }

  /** `begin_datetime` dated like `end_datetime`, so an evening's AM begin falls on the next day. */
  function BeginInstant(seg: Segment, day: int, code: nat): Result<int> {
    ClockInstant(LabelDay(seg, day, code), code)
  }

  /**
   * As written, an evening begin of 12:00 am or 12:30 am is stored on the morning of the
   * shift's own date: before the evening window the lookup searches, and outside every
   * window the form data is read back through.
   */
  lemma MidnightEveningBeginAsWritten(day: int, code: nat)
    requires code == 37 || code == 38
    ensures BeginInstantAsWritten(Evening, day, code).Ok?
    ensures BeginInstantAsWritten(Evening, day, code).value < WindowStart(Evening, day)
    ensures Classify(day, BeginInstantAsWritten(Evening, day, code).value).Err?
  {
  }

  /** Dated like the end, every evening begin but the last preset lies in the evening window. */
  lemma EveningBeginInWindow(day: int, code: nat)
    requires TimesheetForms.EveningEarliest <= code < TimesheetForms.EveningLatest
    ensures BeginInstant(Evening, day, code).Ok?
    ensures InWindow(Evening, day, BeginInstant(Evening, day, code).value)
  {
    EveningLabelDays(day, code);
  }

  /** Python truthiness of a posted or stored signature: present and non-empty. */
  predicate Truthy(v: Option<string>) {
    v.Some? && v.value != ""
  }

  /** `1 if None else request.POST.get('signature')`: `None` is falsy, so this is the posted value. */
  function FallbackSignatureAsWritten(posted: Option<string>): string {
    if posted.Some? then posted.value else ""
  }

  /** The default the morning and afternoon fallbacks spell out. */
  const DefaultSignature := "1"

  /**
   * The signature a created shift gets. Morning and evening prefer the signature already on
   * the timesheet, afternoon prefers the posted one. The evening fallback is the posted value,
   * which at that point is blank.
   */
  function NewSignature(seg: Segment, existing: Option<string>, posted: Option<string>): (sig: string)
    ensures Truthy(existing) && !seg.Afternoon? ==> sig == existing.value
    ensures Truthy(posted) && (seg.Afternoon? || !Truthy(existing)) ==> sig == posted.value
    ensures !seg.Evening? ==> sig != ""
    ensures seg.Evening? ==> (sig != "" <==> Truthy(existing) || Truthy(posted))
  {
    match seg
    case Morning =>
      if Truthy(existing) then existing.value else if Truthy(posted) then posted.value else DefaultSignature
    case Afternoon =>
      if Truthy(posted) then posted.value else if Truthy(existing) then existing.value else DefaultSignature
    case Evening =>
      if Truthy(existing) then existing.value else if Truthy(posted) then posted.value else FallbackSignatureAsWritten(posted)
  }

  /** As written, the morning and afternoon fallback is blank whenever it is reached, so the shift it creates never validates. */
  lemma FallbackAsWrittenIsBlank(posted: Option<string>, s: Shift, others: seq<Shift>)
    requires !Truthy(posted)
    requires s.signature == FallbackSignatureAsWritten(posted)
    ensures s.signature == ""
    ensures CleanShift(s, others).Err?
  {
  }

  /** The `objects.get` filter: same pay period and employee, inside the segment's window, with the existing signature. */
  function Lookup(seg: Segment, day: int, period: PeriodRow, employee: int, existing: Option<string>): Shift -> bool {
    (s: Shift) => s.payPeriod == Some(period) && s.employee == employee
                  && s.clockIn.Some? && s.clockIn.value >= WindowStart(seg, day)
                  && s.clockOut.Some? && s.clockOut.value <= WindowEnd(seg, day)
                  && existing == Some(s.signature)
  }

  /**
   * One `save_*_data` call for segment `seg` of `day`. `table` holds the stored shifts,
   * `periods` the stored pay periods. `TimesheetShift.save` runs `full_clean`, so both the
   * update and the creation go through `clean`.
   */
  function SaveSegment(seg: Segment, day: int, begin: nat, end: nat, employee: int,
                       existing: Option<string>, posted: Option<string>,
                       today: int, periods: seq<PeriodRow>, table: seq<Shift>): (r: Result<SaveOutcome>)
    ensures r.Ok? && Saved(r.value) ==> ValidShift(r.value.shift, table) && r.value.shift.employee == employee
    ensures begin == IntNullTime || end == IntNullTime ==> r == Ok(Unchanged)
  {
    if begin == IntNullTime || end == IntNullTime then Ok(Unchanged)
    else
      match BeginInstant(seg, day, begin)
      case Err(e) => Err(e)
      case Ok(b) =>
        match EndInstant(seg, day, end)
        case Err(e) => Err(e)
        case Ok(e) =>
          match GetPayPeriod(DateArg(day), today, periods)
          case Err(err) => Err(err)
          case Ok(period) =>
            match Queries.Get(table, Lookup(seg, day, period, employee, existing))
            case Ok(found) =>
              if found.clockIn != Some(b) || found.clockOut != Some(e) then
                var updated := found.(clockIn := Some(b), clockOut := Some(e));
                if CleanShift(updated, table).Err? then Err(CleanShift(updated, table).error) else Ok(Updated(updated))
              else Ok(Unchanged)
            case Err(DoesNotExist) =>
              var created := Shift(None, employee, Some(b), Some(e), NewSignature(seg, existing, posted), Some(period));
              if CleanShift(created, table).Err? then Err(CleanShift(created, table).error) else Ok(Created(created))
            case Err(err) => Err(err)
  }

  /** A day part with a blank begin or end saves nothing. */
  lemma BlankCodeSavesNothing(seg: Segment, day: int, begin: nat, end: nat, employee: int,
                              existing: Option<string>, posted: Option<string>,
                              today: int, periods: seq<PeriodRow>, table: seq<Shift>)
    requires begin == IntNullTime || end == IntNullTime
    ensures SaveSegment(seg, day, begin, end, employee, existing, posted, today, periods, table) == Ok(Unchanged)
  {
  }

  /**
   * Whatever a save stores is a valid shift of the employee, in the pay period covering the
   * day, with the posted clock times; it is new exactly when no stored shift matched the lookup.
   */
  lemma SavedShiftIsValid(seg: Segment, day: int, begin: nat, end: nat, employee: int,
                          existing: Option<string>, posted: Option<string>,
                          today: int, periods: seq<PeriodRow>, table: seq<Shift>)
    ensures var r := SaveSegment(seg, day, begin, end, employee, existing, posted, today, periods, table);
            r.Ok? && Saved(r.value) ==>
              var s := r.value.shift;
              ValidShift(s, table) && s.employee == employee
              && s.payPeriod.Some? && s.payPeriod.value in periods && Covers(s.payPeriod.value, day)
              && s.clockIn == Some(BeginInstant(seg, day, begin).value)
              && s.clockOut == Some(EndInstant(seg, day, end).value)
              && (r.value.Created? <==> forall t :: t in table ==> !Lookup(seg, day, s.payPeriod.value, employee, existing)(t))
  {
    var r := SaveSegment(seg, day, begin, end, employee, existing, posted, today, periods, table);
    if r.Ok? && Saved(r.value) {
      var period := GetPayPeriod(DateArg(day), today, periods).value;
      var p := Lookup(seg, day, period, employee, existing);
      var g := Queries.Get(table, p);
      assert r.value.shift.payPeriod == Some(period) && r.value.shift.employee == employee by {
        if g.Ok? {
          assert p(g.value);
        }
      }
      assert r.value.Created? <==> g == Err(DoesNotExist);
    }
  }

  /** Posting the times a matching stored shift already has changes nothing. */
  lemma ExactMatchUnchanged(seg: Segment, day: int, begin: nat, end: nat, employee: int,
                            existing: Option<string>, posted: Option<string>,
                            today: int, periods: seq<PeriodRow>, table: seq<Shift>, period: PeriodRow, i: nat)
    requires begin != IntNullTime && end != IntNullTime
    requires BeginInstant(seg, day, begin).Ok? && EndInstant(seg, day, end).Ok?
    requires GetPayPeriod(DateArg(day), today, periods) == Ok(period)
    requires i < |table| && Lookup(seg, day, period, employee, existing)(table[i])
    requires forall j :: 0 <= j < |table| && j != i ==> !Lookup(seg, day, period, employee, existing)(table[j])
    requires table[i].clockIn == Some(BeginInstant(seg, day, begin).value)
    requires table[i].clockOut == Some(EndInstant(seg, day, end).value)
    ensures SaveSegment(seg, day, begin, end, employee, existing, posted, today, periods, table) == Ok(Unchanged)
  {
    Queries.GetUnique(table, Lookup(seg, day, period, employee, existing), i);
  }

  /**
   * Save and read back agree: a shift saved from a begin code the segment offers (and dated
   * on the day itself) is filtered into that day, classified into the same segment, and reads
   * back as the posted begin and end codes.
   */
  lemma SavedShiftReadsBack(seg: Segment, day: int, begin: nat, end: nat, c: DayCodes, s: Shift)
    requires Earliest(seg) <= begin < Latest(seg) && begin <= 36
    requires 1 <= end <= LastPreset
    requires s.clockIn == Some(BeginInstant(seg, day, begin).value)
    requires s.clockOut == Some(EndInstant(seg, day, end).value)
    ensures ClocksInOn(s, day)
    ensures ShiftStep(day)(c, s) == Ok(match seg
                                       case Morning => c.(morningBegin := begin, morningEnd := end)
                                       case Afternoon => c.(afternoonBegin := begin, afternoonEnd := end)
                                       case Evening => c.(eveningBegin := begin, eveningEnd := end))
  {
    var slot := PresetSlot(begin);
    BeginOnOwnDay(seg, day, begin);
    SlotInstantParts(day, slot);
    BeginClassified(seg, day, begin);
    PresetInstantReadsBack(day, begin);
    PresetInstantReadsBack(LabelDay(seg, day, end), end);
  }

  /** A begin code the segment offers, below 12:00 am, is dated on the day itself. */
  lemma BeginOnOwnDay(seg: Segment, day: int, begin: nat)
    requires Earliest(seg) <= begin <= 36
    ensures BeginInstant(seg, day, begin) == Ok(SlotInstant(day, PresetSlot(begin)))
  {
    AmLabelIffMorningSlot(begin);
  }

  /** A begin code the segment offers, below 12:00 am, is classified into that segment. */
  lemma BeginClassified(seg: Segment, day: int, begin: nat)
    requires Earliest(seg) <= begin < Latest(seg) && begin <= 36
    ensures Classify(day, SlotInstant(day, PresetSlot(begin))) == Ok(seg)
  {
  }
}
