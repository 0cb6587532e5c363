/**
 * The timesheet forms: the preset choice tables of `TimeSheetDayForm`, its
 * combined-field validation `clean`, and `SearchTimesheet.clean`.
 *
 * A choice field's value reaches `clean` already converted to its integer
 * code; a field missing from the cleaned data is a key missing from the map.
 */
module TimesheetForms {
  import opened Wrappers
  import opened TimesheetModels
  import TimesheetCalc
  import opened Text

  // ---------------------------------------------------------------------
  // Choice tables
  // ---------------------------------------------------------------------

  /** One choice of a preset time field: the code and the label shown for it. */
  type Choice = (nat, string)

  /** The labelled codes `first`..`last`, in order. */
  function Run(first: nat, last: nat): (r: seq<Choice>)
    requires 1 <= first && last <= LastPreset
    ensures |r| == if first <= last then last - first + 1 else 0
    ensures forall i :: 0 <= i < |r| ==> r[i].0 == first + i && PresetTimeStr(r[i].0) == Ok(r[i].1)
    decreases last + 1 - first
  {
    if first > last then [] else [(first, PresetTimeStr(first).value)] + Run(first + 1, last)
  }

  /** A preset choice table: the empty choice '-' followed by the codes `first`..`last`. */
  function ChoiceTable(first: nat, last: nat): seq<Choice>
    requires 1 <= first <= last <= LastPreset
  {
    [(IntNullTime, PresetTimeStr(IntNullTime).value)] + Run(first, last)
  }

  const MorningEarliest: nat := 3     // 7:00 am
  const MorningLatest: nat := 13      // 12:00 pm
  const AfternoonEarliest: nat := 13  // 12:00 pm
  const AfternoonLatest: nat := 23    // 5:00 pm
  const EveningEarliest: nat := 23    // 5:00 pm
  const EveningLatest: nat := 39      // 1:00 am

  function MorningChoices(): seq<Choice> { ChoiceTable(MorningEarliest, MorningLatest) }
  function AfternoonChoices(): seq<Choice> { ChoiceTable(AfternoonEarliest, AfternoonLatest) }
  function EveningChoices(): seq<Choice> { ChoiceTable(EveningEarliest, EveningLatest) }

  predicate Offers(table: seq<Choice>, n: nat) {
    exists i :: 0 <= i < |table| && table[i].0 == n
  }

  /** A table offers exactly the empty code and its range, each with its preset label. */
  lemma ChoiceTableContents(first: nat, last: nat)
    requires 1 <= first <= last <= LastPreset
    ensures var t := ChoiceTable(first, last);
            |t| == last - first + 2 && t[0] == (IntNullTime, "-")
            && (forall i :: 0 <= i < |t| ==> PresetTimeStr(t[i].0) == Ok(t[i].1))
            && (forall n: nat :: Offers(t, n) <==> n == IntNullTime || first <= n <= last)
  {
    var t := ChoiceTable(first, last);
    forall n: nat | n == IntNullTime || first <= n <= last ensures Offers(t, n) {
      if n != IntNullTime {
        assert t[n - first + 1].0 == n;
      } else {
        assert t[0].0 == n;
      }
    }
  }

  /** Every label of a table decodes back to its code, so the labels of a table are distinct. */
  lemma ChoiceLabelsDecode(first: nat, last: nat)
    requires 1 <= first <= last <= LastPreset
    ensures var t := ChoiceTable(first, last);
            forall i :: 0 <= i < |t| ==> PresetTimeInt(t[i].1) == Ok(t[i].0)
  {
    var t := ChoiceTable(first, last);
    ChoiceTableContents(first, last);
    forall i | 0 <= i < |t| ensures PresetTimeInt(t[i].1) == Ok(t[i].0) {
      PresetRoundTrip(t[i].0);
    }
  }

  /** The three field domains are the ones the browser-side calculator is written for. */
  lemma ChoiceDomains(n: nat)
    ensures Offers(MorningChoices(), n) <==> TimesheetCalc.InMorningChoices(n)
    ensures Offers(AfternoonChoices(), n) <==> TimesheetCalc.InAfternoonChoices(n)
    ensures Offers(EveningChoices(), n) <==> TimesheetCalc.InEveningChoices(n)
  {
    ChoiceTableContents(MorningEarliest, MorningLatest);
    ChoiceTableContents(AfternoonEarliest, AfternoonLatest);
    ChoiceTableContents(EveningEarliest, EveningLatest);
  }

  // ---------------------------------------------------------------------
  // TimeSheetDayForm.clean
  // ---------------------------------------------------------------------

  datatype Part = MorningBegin | MorningEnd | AfternoonBegin | AfternoonEnd | EveningBegin | EveningEnd

  /** A form field `<part>_<index>`. */
  type Field = (Part, nat)

  /** The cleaned data: each present field with its code. */
  type CleanedData = map<Field, int>

  datatype FormError = FormError(field: Field, message: Message)

  /** The number of indices `clean` visits: `range(0, 13)`. */
  const VisitedDays: nat := 13

  /** The six errors `clean` can add, one order error and one pairing error per segment. */
  datatype Message =
    | MorningOrderMessage | MorningPairMessage
    | AfternoonOrderMessage | AfternoonPairMessage
    | EveningOrderMessage | EveningPairMessage

  /** The text each error shows. */
  function MessageText(m: Message): string {
    match m
    case MorningOrderMessage => "Morning end must be after morning start."
    case MorningPairMessage => "Both morning shift times must either be set or empty."
    case AfternoonOrderMessage => "Afternoon end must be after afternoon start."
    case AfternoonPairMessage => "Both afternoon shift times must either be set or empty."
    case EveningOrderMessage => "Evening end must be after evening start."
    case EveningPairMessage => "Both evening shift times must either be set or empty."
  }

  function Lookup(data: CleanedData, part: Part, index: nat): Option<int> {
    if (part, index) in data then Some(data[(part, index)]) else None
  }

  /** The error one begin/end pair gets, if any. */
  function SegmentError(begin: Option<int>, end: Option<int>, orderMessage: Message, pairMessage: Message): (r: Option<Message>)
    requires orderMessage != pairMessage
    ensures r == Some(orderMessage) <==>
              begin.Some? && end.Some? && begin.value != IntNullTime && end.value != IntNullTime && end.value <= begin.value
    ensures r == Some(pairMessage) <==>
              begin.Some? && end.Some? && ((begin.value == IntNullTime) != (end.value == IntNullTime))
    ensures r.None? <==>
              begin.None? || end.None? || (begin.value == IntNullTime && end.value == IntNullTime)
              || (begin.value != IntNullTime && end.value != IntNullTime && begin.value < end.value)
  {
    if begin.Some? && end.Some? then
      if begin.value != IntNullTime && end.value != IntNullTime then
        if end.value <= begin.value then Some(orderMessage) else None
      else if !(begin.value == IntNullTime && end.value == IntNullTime) then Some(pairMessage)
      else None
    else None
  }

  function ErrorsOf(field: Field, e: Option<Message>): seq<FormError> {
    if e.Some? then [FormError(field, e.value)] else []
  }

  function MorningError(data: CleanedData, index: nat): Option<Message> {
    SegmentError(Lookup(data, MorningBegin, index), Lookup(data, MorningEnd, index), MorningOrderMessage, MorningPairMessage)
  }

  function AfternoonError(data: CleanedData, index: nat): Option<Message> {
    SegmentError(Lookup(data, AfternoonBegin, index), Lookup(data, AfternoonEnd, index), AfternoonOrderMessage, AfternoonPairMessage)
  }

  function EveningError(data: CleanedData, index: nat): Option<Message> {
    SegmentError(Lookup(data, EveningBegin, index), Lookup(data, EveningEnd, index), EveningOrderMessage, EveningPairMessage)
  }

  /** The errors one day adds, each on the begin field of its segment. */
  function DayErrors(data: CleanedData, index: nat): (r: seq<FormError>)
    ensures forall e :: e in r ==> e.field.1 == index
  {
    ErrorsOf((MorningBegin, index), MorningError(data, index))
    + ErrorsOf((AfternoonBegin, index), AfternoonError(data, index))
    + ErrorsOf((EveningBegin, index), EveningError(data, index))
  }

  /** The loop breaks after a day whose evening pair and morning begin are all present. */
  predicate Stops(data: CleanedData, index: nat) {
    Lookup(data, EveningBegin, index).Some? && Lookup(data, EveningEnd, index).Some?
    && Lookup(data, MorningBegin, index).Some?
  }

  /**
   * A loop over the days `from`..12 that adds `day(i)` for each visited day
   * and breaks after the first day for which `stops` holds.
   */
  function Walk(day: nat -> seq<FormError>, stops: nat -> bool, from: nat): seq<FormError>
    requires from <= VisitedDays
    decreases VisitedDays - from
  {
    if from == VisitedDays then []
    else day(from) + (if stops(from) then [] else Walk(day, stops, from + 1))
  }

  /** The errors `clean` adds from day `from` on. */
  function ErrorsFrom(data: CleanedData, from: nat): seq<FormError>
    requires from <= VisitedDays
  {
    Walk((i: nat) => DayErrors(data, i), (i: nat) => Stops(data, i), from)
  }

  /** The walk holds exactly the elements of the days it reaches before a break. */
  lemma {:induction false} WalkMembers(day: nat -> seq<FormError>, stops: nat -> bool, from: nat, e: FormError)
    requires from <= VisitedDays
    requires forall i: nat, x :: x in day(i) ==> x.field.1 == i
    ensures e in Walk(day, stops, from) <==>
              from <= e.field.1 < VisitedDays && (forall j: nat :: from <= j < e.field.1 ==> !stops(j)) && e in day(e.field.1)
  {
    if e in Walk(day, stops, from) {
      WalkOrigin(day, stops, from, e);
    }
    if from <= e.field.1 < VisitedDays && (forall j: nat :: from <= j < e.field.1 ==> !stops(j)) && e in day(e.field.1) {
      WalkReaches(day, stops, from, e.field.1, e);
    }
  }

  /** An element of the walk comes from a day reached without a break. */
  lemma {:induction false} WalkOrigin(day: nat -> seq<FormError>, stops: nat -> bool, from: nat, e: FormError)
    requires from <= VisitedDays
    requires forall i: nat, x :: x in day(i) ==> x.field.1 == i
    requires e in Walk(day, stops, from)
    ensures from <= e.field.1 < VisitedDays && e in day(e.field.1)
    ensures forall j: nat :: from <= j < e.field.1 ==> !stops(j)
    decreases VisitedDays - from
  {
    assert from < VisitedDays;
    var rest := if stops(from) then [] else Walk(day, stops, from + 1);
    InAppend(day(from), rest, e);
    if e in day(from) {
      assert e.field.1 == from;
    } else {
      assert !stops(from);
      WalkOrigin(day, stops, from + 1, e);
      NoStopExtend(stops, from, e.field.1);
    }
  }

  /** No break at `from` and none in `[from + 1, k)` is none in `[from, k)`. */
  lemma NoStopExtend(stops: nat -> bool, from: nat, k: nat)
    requires !stops(from)
    requires forall j: nat :: from + 1 <= j < k ==> !stops(j)
    ensures forall j: nat :: from <= j < k ==> !stops(j)
  {
  }

  /** An element of a day `k` reached without a break is in the walk. */
  lemma {:induction false} WalkReaches(day: nat -> seq<FormError>, stops: nat -> bool, from: nat, k: nat, e: FormError)
    requires from <= k < VisitedDays && e in day(k)
    requires forall j: nat :: from <= j < k ==> !stops(j)
    ensures e in Walk(day, stops, from)
    decreases k - from
  {
    var rest := if stops(from) then [] else Walk(day, stops, from + 1);
    if k != from {
      assert !stops(from);
      WalkReaches(day, stops, from + 1, k, e);
    }
    InAppend(day(from), rest, e);
  }

  /** Day `index` is visited when no earlier day from `from` on broke the loop. */
  predicate Reached(data: CleanedData, from: nat, index: nat) {
    forall j: nat :: from <= j < index ==> !Stops(data, j)
  }

  /**
   * An error is reported exactly when its day is visited (below 13 and not
   * after a break) and its segment is invalid.
   */
  lemma ErrorsFromMembers(data: CleanedData, from: nat, e: FormError)
    requires from <= VisitedDays
    ensures e in ErrorsFrom(data, from) <==>
              from <= e.field.1 < VisitedDays && Reached(data, from, e.field.1) && e in DayErrors(data, e.field.1)
  {
    var day := (i: nat) => DayErrors(data, i);
    var stops := (i: nat) => Stops(data, i);
    forall j: nat ensures stops(j) == Stops(data, j) {
    }
    forall i: nat ensures day(i) == DayErrors(data, i) {
    }
    WalkMembers(day, stops, from, e);
  }

  /** One step of `clean`'s loop. */
  lemma ErrorsFromStep(data: CleanedData, index: nat)
    requires index < VisitedDays
    ensures ErrorsFrom(data, index)
            == DayErrors(data, index) + (if Stops(data, index) then [] else ErrorsFrom(data, index + 1))
  {
  }

  /** One pass of `clean`'s loop: the errors still to come shrink by the day just checked. */
  lemma CleanStep(data: CleanedData, index: nat, target: seq<FormError>, before: seq<FormError>, after: seq<FormError>)
    requires index < VisitedDays
    requires target == before + ErrorsFrom(data, index)
    requires after == before + DayErrors(data, index)
    ensures Stops(data, index) ==> target == after
    ensures !Stops(data, index) ==> target == after + ErrorsFrom(data, index + 1)
  {
    ErrorsFromStep(data, index);
    AppendNil(DayErrors(data, index));
    AppendAssoc(before, DayErrors(data, index), ErrorsFrom(data, index + 1));
  }

  /** After the last visited day no errors are left to come. */
  lemma ErrorsFromEnd(data: CleanedData, target: seq<FormError>, errors: seq<FormError>)
    requires target == errors + ErrorsFrom(data, VisitedDays)
    ensures target == errors
  {
    assert ErrorsFrom(data, VisitedDays) == [];
    AppendNil(errors);
  }

  /** The errors of one day: which segments get which message. */
  lemma DayErrorMembers(data: CleanedData, index: nat, e: FormError)
    ensures e in DayErrors(data, index) <==>
              (e.field == (MorningBegin, index) && MorningError(data, index) == Some(e.message))
              || (e.field == (AfternoonBegin, index) && AfternoonError(data, index) == Some(e.message))
              || (e.field == (EveningBegin, index) && EveningError(data, index) == Some(e.message))
  {
  }

  /** Index 13, the last day of a period, is never validated: changing its fields changes nothing. */
  lemma {:induction false} LastDayIgnored(data: CleanedData, other: CleanedData, from: nat)
    requires from <= VisitedDays
    requires forall p: Part, i :: from <= i < VisitedDays ==> Lookup(data, p, i) == Lookup(other, p, i)
    ensures ErrorsFrom(data, from) == ErrorsFrom(other, from)
    decreases VisitedDays - from
  {
    if from < VisitedDays {
      LastDayIgnored(data, other, from + 1);
      assert DayErrors(data, from) == DayErrors(other, from) by {
        assert MorningError(data, from) == MorningError(other, from);
        assert AfternoonError(data, from) == AfternoonError(other, from);
        assert EveningError(data, from) == EveningError(other, from);
      }
      assert Stops(data, from) == Stops(other, from);
    }
  }

  /** A day whose evening pair and morning begin are present ends the validation. */
  lemma NothingAfterBreak(data: CleanedData, k: nat, e: FormError)
    requires k < VisitedDays && Stops(data, k)
    requires e in ErrorsFrom(data, 0)
    ensures e.field.1 <= k
  {
    ErrorsFromMembers(data, 0, e);
  }

  class TimeSheetDayForm {
    var errors: seq<FormError>

    constructor()
      ensures errors == []
    {
      errors := [];
    }

    /** `add_error` on one field. */
    method AddError(field: Field, message: Message)
      modifies this
      ensures errors == old(errors) + [FormError(field, message)]
    {
      errors := errors + [FormError(field, message)];
    }

    /** One segment's check: the error, if any, goes on the segment's begin field. */
    method CheckSegment(begin: Option<int>, end: Option<int>, field: Field, orderMessage: Message, pairMessage: Message)
      requires orderMessage != pairMessage
      modifies this
      ensures errors == old(errors) + ErrorsOf(field, SegmentError(begin, end, orderMessage, pairMessage))
    {
      if begin.Some? && end.Some? {
        if begin.value != IntNullTime && end.value != IntNullTime {
          if end.value <= begin.value {
            AddError(field, orderMessage);
          }
        } else if !(begin.value == IntNullTime && end.value == IntNullTime) {
          AddError(field, pairMessage);
        }
      }
    }

    /** The body of `clean`'s loop for one day: the three segment checks, then whether to break. */
    method CheckDay(data: CleanedData, index: nat) returns (stop: bool)
      modifies this
      ensures errors == old(errors) + DayErrors(data, index)
      ensures stop == Stops(data, index)
    {
      var morningBegin := Lookup(data, MorningBegin, index);
      var morningEnd := Lookup(data, MorningEnd, index);
      var afternoonBegin := Lookup(data, AfternoonBegin, index);
      var afternoonEnd := Lookup(data, AfternoonEnd, index);
      var eveningBegin := Lookup(data, EveningBegin, index);
      var eveningEnd := Lookup(data, EveningEnd, index);
      CheckSegment(morningBegin, morningEnd, (MorningBegin, index), MorningOrderMessage, MorningPairMessage);
      CheckSegment(afternoonBegin, afternoonEnd, (AfternoonBegin, index), AfternoonOrderMessage, AfternoonPairMessage);
      CheckSegment(eveningBegin, eveningEnd, (EveningBegin, index), EveningOrderMessage, EveningPairMessage);
      stop := eveningBegin.Some? && eveningEnd.Some? && morningBegin.Some?;
    }

    /** One pass of `clean`'s loop: checks day `index` and says whether the loop breaks after it. */
    method CleanDay(data: CleanedData, index: nat, ghost target: seq<FormError>) returns (stop: bool)
      requires index < VisitedDays
      requires target == errors + ErrorsFrom(data, index)
      modifies this
      ensures stop == Stops(data, index)
      ensures stop ==> target == errors
      ensures !stop ==> target == errors + ErrorsFrom(data, index + 1)
    {
      ghost var before := errors;
      stop := CheckDay(data, index);
      CleanStep(data, index, target, before, errors);
    }

    /**
     * `clean`: validates the days 0..12 in order, stopping after the first day
     * that `Stops`; the flag `stop` plays the part of the source's `break`.
     */
    method Clean(data: CleanedData)
      modifies this
      ensures errors == old(errors) + ErrorsFrom(data, 0)
    {
      var index := 0;
      var stop := false;
      ghost var target := errors + ErrorsFrom(data, 0);
      while index < VisitedDays && !stop
        invariant 0 <= index <= VisitedDays
        invariant stop ==> target == errors
        invariant !stop ==> target == errors + ErrorsFrom(data, index)
      {
        stop := CleanDay(data, index, target);
        index := index + 1;
      }
      if !stop {
        ErrorsFromEnd(data, target, errors);
      }
    }
  }

  // ---------------------------------------------------------------------
  // SearchTimesheet.clean
  // ---------------------------------------------------------------------

  const FutureDateMessage := "Incorrect data received, did u select a future date?"

  /** The error the search form's date gets: a missing date counts as today. */
  function SearchDateError(date: Option<int>, today: int): (r: Option<string>)
    ensures r.Some? <==> date.Some? && date.value > today
    ensures r.Some? ==> r.value == FutureDateMessage
  {
    var day := if date.None? then today else date.value;
    if day > today then Some(FutureDateMessage) else None
  }

  class SearchTimesheet {
    var errors: seq<(string, string)>

    constructor()
      ensures errors == []
    {
      errors := [];
    }

    /** `clean`: adds the future-date error to the `date` field. */
    method Clean(date: Option<int>, today: int)
      modifies this
      ensures SearchDateError(date, today).Some? ==> errors == old(errors) + [("date", FutureDateMessage)]
      ensures SearchDateError(date, today).None? ==> errors == old(errors)
    {
      var dateData := date;
      if dateData.None? {
        dateData := Some(today);
      }
      if dateData.value > today {
        errors := errors + [("date", FutureDateMessage)];
      }
    }
  }
}
