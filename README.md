# Success Center — a verified model

This project models the core of the Success Center site of the CAE Center at
Western Michigan University. The site has three parts:

- a **timesheet** application, where student employees enter two weeks of
  morning, afternoon and evening shifts from drop-down time presets, sign on a
  canvas, and have the hours checked, stored and totalled;
- a **user** layer (`cae_home`), which keeps the site's Django users, WMU
  user records, majors and group memberships in step with the campus
  directory (LDAP) and the advising data;
- the **front-end scripts** shared across the site (status messages, page
  tabbing, select2 set-up) and small helpers: slugs, custom model fields,
  template tags, logging set-up, e-mail helpers, test helpers, decorators and
  admin actions.

Each source file of the core has one Dafny module, named after it:

- `TimesheetCalc`, `TimesheetDist`: the browser-side total and delete scripts;
- `TimesheetModels`, `TimesheetForms`, `TimesheetViews`, `TimesheetShiftData`:
  pay periods, shifts and their validation, the form clean-up and the views
  that turn posted presets into stored shifts;
- `Slug`, `CodeFields`, `WmuModels`, `UserModels`: the user models;
- `AdvBackend`, `SettingsAdvBackend`, `WmuBackend`, `SettingsWmuBackend`,
  `SettingsWmuAuth`, `LdapValues`, `BaseAuth`, `SettingsBackends`: the
  directory and advising back ends;
- `TemplateTags`, `LoggingSetup`, `TestUtils`, `Admin`, `SuccessCenterCore`,
  `Decorators`, `EmailUtils`, `SeedOutput`: the helpers;
- `Select2`, `StatusMessages`, `PageTabbing`: the shared scripts.

`Wrappers` (Option and Result), `Text` (character and string helpers) and
`Queries` (the ORM's `get`: not found, found, or several found) are shared
helpers with no source counterpart of their own.

The repository carries the authentication back end three times:
`workspace/ldap_backends/base_auth.py`, `settings/ldap_backends/base_auth.py`
and `settings/backends.py`. Their permission rules, username handling and
attribute normalisation agree line for line. One set of `BaseAuth` and
`LdapValues` members models all three, and the table below cites whichever
copy each member follows. The same holds for the backup-name helpers, which
appear in the two `wmu_backend.py` files and in `settings/ldap_backends/wmu_auth.py`.

The database and the directory are inputs: a table is a sequence of rows,
a directory answer is a map from attribute names to lists of values, and the
clock is a parameter. Objects whose fields the source updates in place (the
pay periods, the timesheet forms, the status-message area, the page
tabs, the user records during a directory sync) are classes with `modifies`
clauses. Time presets are the integers 0 to 39 of the timesheet's drop-down
lists, dates are day numbers and instants are seconds.

## Model

| member | source | states |
|---|---|---|
| TimesheetCalc.IsCanvasBlank | success_center_timesheets/static/success_center_timesheets/js/timesheets_js.js:44-61 | the canvas counts as blank exactly when it exists and its data URL equals the one captured at load |
| TimesheetCalc.CalculateTotal | success_center_timesheets/static/success_center_timesheets/js/timesheets_js.js:65-191 | over the 14 rows: each day total is the clamped segment sum, the grand total is their sum, week one is days 0-6 and week two the rest, `all_valid[i]` is the sticky-flag conjunction after day i, and submit ends enabled iff every recorded day is valid, the canvas is not blank and the grand total is positive |
| TimesheetCalc.CalculateDay | success_center_timesheets/static/success_center_timesheets/js/timesheets_js.js:95-155 | one iteration: the three flags move by the segment rule and the day total is the clamped sum |
| TimesheetCalc.HandleSubmit | success_center_timesheets/static/success_center_timesheets/js/timesheets_js.js:193-212 | the form goes through iff the user confirms and the signature differs from the untouched canvas; a confirmed refusal shows "Please enter a valid number", a confirmed submit clears the error, a cancel leaves it |
| TimesheetCalc.WeekTwoIsSecondWeek | success_center_timesheets/static/success_center_timesheets/js/timesheets_js.js:173-179 | week two, written as grand total minus week one, is the sum of days 7-13 |
| TimesheetCalc.SumHoursNonNegative | success_center_timesheets/static/success_center_timesheets/js/timesheets_js.js:153-155 | no running or grand total is negative, since each day total is clamped |
| TimesheetCalc.DayHoursIsClampedSum | success_center_timesheets/static/success_center_timesheets/js/timesheets_js.js:153-154 | a day total is the raw segment sum when that is non-negative, else 0, and never below the raw sum |
| TimesheetCalc.DecimalIsZeroString | success_center_timesheets/static/success_center_timesheets/js/timesheets_js.js:99 | the option string equals '0' exactly for the code 0 |
| TimesheetCalc.StringOrderOnTwoDigits | success_center_timesheets/static/success_center_timesheets/js/timesheets_js.js:124 | the string comparison `end > begin` agrees with numeric order when both codes have two digits |
| TimesheetCalc.StringOrderDisagreesAcrossLengths | success_center_timesheets/static/success_center_timesheets/js/timesheets_js.js:146 | across lengths it does not: "13" does not compare greater than "9" |
| TimesheetCalc.NextFlagOnChoices | success_center_timesheets/static/success_center_timesheets/js/timesheets_js.js:97-150 | on the offered codes a set segment's flag is its own validity (both ends set, positive length), and an unset segment keeps the previous flag |
| TimesheetCalc.StepOnChoices | success_center_timesheets/static/success_center_timesheets/js/timesheets_js.js:97-150 | a valid day keeps all-true flags all true, and all-true flags after a day mean that day is valid |
| TimesheetCalc.FlagsStayTrue | success_center_timesheets/static/success_center_timesheets/js/timesheets_js.js:75-77 | the flags start true and stay true while every day is valid |
| TimesheetCalc.AllRecordedValidIffEveryDayOk | success_center_timesheets/static/success_center_timesheets/js/timesheets_js.js:159-162 | on the offered codes every recorded flag is true exactly when every day is valid on its own values |
| TimesheetCalc.UnsetSegmentInheritsFlag | success_center_timesheets/static/success_center_timesheets/js/timesheets_js.js:98-105 | a day whose morning is unset inherits the previous day's morning flag |
| TimesheetCalc.EmptyDayAfterInvalidMorning | success_center_timesheets/static/success_center_timesheets/js/timesheets_js.js:98-105 | an empty day after an invalid morning is itself recorded invalid |
| TimesheetCalc.SubmitGate | success_center_timesheets/static/success_center_timesheets/js/timesheets_js.js:162-189 | the submit button ends enabled iff every day is valid, the canvas is not blank and the hours sum to more than 0 |
| TimesheetDist.ScanDeleteBoxes | success_center_timesheets/static/success_center_timesheets/js/dist/success_center_timesheets.js:12-16 | `del_bool` ends true iff it was already true or some delete box is checked |
| TimesheetDist.ConfirmDelete | success_center_timesheets/static/success_center_timesheets/js/dist/success_center_timesheets.js:10-24 | as written: no checked box and no earlier click does nothing, a confirmed delete submits the form, and a cancelled one throws ReferenceError on the undeclared `i`, leaving the boxes as they were. In the bundle this handler is never attached: module 2 assigns `window.onload` again (line 34), replacing module 1's (line 4), and module 1's own onload would throw ReferenceError at its strict-mode assignment to the undeclared `delete_box` (line 5) first, so the page submits a delete with no dialog |
| TimesheetDist.ConfirmDeleteFixed | success_center_timesheets/static/success_center_timesheets/js/dist/success_center_timesheets.js:17-22 | corrected: a cancelled delete unchecks every box and submits nothing; otherwise the boxes are untouched and only a confirmed delete submits |
| TimesheetModels.PayPeriod.constructor | success_center_timesheets/models.py:16-28 | a period holds the given start date and optional end date |
| TimesheetModels.PayPeriod.Clean | success_center_timesheets/models.py:38-45 | an unset end date becomes the start plus 13 days; a set end and the start are kept |
| TimesheetModels.GetPayPeriod | success_center_timesheets/models.py:72-98 | no argument looks up today, a datetime or date its day, anything else raises ValidationError; the result is the one stored period covering the day, DoesNotExist exactly when none covers it, MultipleObjectsReturned otherwise |
| TimesheetModels.PresetTimeStr | success_center_timesheets/models.py:286-373 | codes 0..39 encode (0 as "-"), every other integer raises ValueError |
| TimesheetModels.FirstAccepting | success_center_timesheets/models.py:382-463 | the if/elif chain: the first code whose branch holds, and none exactly when no branch holds |
| TimesheetModels.PresetTimeInt | success_center_timesheets/models.py:376-463 | the decoder returns a code in 0..39 or raises ValueError |
| TimesheetModels.PresetTimeIntAccepts | success_center_timesheets/models.py:382-461 | the decoder returns n exactly when n's branch accepts the string and no earlier branch does |
| TimesheetModels.PresetTimeIntRejects | success_center_timesheets/models.py:462-463 | the decoder raises ValueError exactly on strings no branch accepts |
| TimesheetModels.TimeTextInjective | success_center_timesheets/models.py:286-371 | distinct half-hour slots have distinct labels |
| TimesheetModels.LabelSpellsOnly | success_center_timesheets/models.py:382-461 | a preset's own label is accepted by no other code's branch |
| TimesheetModels.PresetRoundTrip | success_center_timesheets/models.py:286-463 | decoding the label of any code 0..39 gives the code back |
| TimesheetModels.PresetDecodeEncode | success_center_timesheets/models.py:376-463 | whatever the decoder accepts is the code's label or that code's padded upper-case spelling |
| TimesheetModels.MorningLabelExamples | success_center_timesheets/models.py:294-319 | code 1 is "6:00 am" and code 13 is "12:00 pm" |
| TimesheetModels.MidnightLabelExamples | success_center_timesheets/models.py:366-371 | codes 37 and 39 are "12:00 am" and "1:00 am" |
| TimesheetModels.PaddedSpellingAccepted | success_center_timesheets/models.py:384-385 | "06:00 AM" and "01:00 AM" are accepted by their codes' branches |
| TimesheetModels.PaddedSpellingRejected | success_center_timesheets/models.py:448-459 | from 10:00 pm to 12:30 am the padded spelling is refused |
| TimesheetModels.CleanShift | success_center_timesheets/models.py:197-257 | corrected clean: it passes exactly on a valid shift; clock out not after clock in raises the order error first; an overlap raises the overlap error (or ValueError for a None query value); an unsigned shift never passes |
| TimesheetModels.CleanShiftAsWritten | success_center_timesheets/models.py:250-257 | as written: where the corrected clean would raise "Signature is required!", the except clause raises AttributeError; every other outcome is the same |
| TimesheetModels.UnsignedShiftRaisesAttributeError | success_center_timesheets/models.py:250-257 | an unsigned shift inside its pay period reaches the signature check and the as-written clean raises AttributeError |
| TimesheetModels.Trunc | success_center_timesheets/models.py:279-281 | math.trunc rounds toward zero |
| TimesheetModels.TimeWorkedHmsDecomposes | success_center_timesheets/models.py:267-283 | hours, minutes and seconds recombine to the given seconds, minutes and seconds stay within a minute or hour, signed toward zero |
| TimesheetModels.TimeWorkedDefaultAsWritten | success_center_timesheets/models.py:273-281 | as written, the no-argument call truncates a timedelta and raises TypeError |
| TimesheetModels.TimeWorkedDefault | success_center_timesheets/models.py:273-283 | corrected: with both clocks set the breakdown recombines to clock out minus clock in; a missing clock raises TypeError |
| TimesheetForms.Run | success_center_timesheets/forms.py:44-140 | the labelled rows of a choice table are the consecutive codes of its range, each with its preset label |
| TimesheetForms.ChoiceTableContents | success_center_timesheets/forms.py:44-140 | a table starts with (0, "-"), labels every code with its preset string, and offers exactly the empty code and its range |
| TimesheetForms.ChoiceLabelsDecode | success_center_timesheets/forms.py:44-140 | every label of a table decodes back to its code |
| TimesheetForms.ChoiceDomains | success_center_timesheets/forms.py:44-147 | the morning, afternoon and evening fields offer exactly the codes the browser-side calculator assumes |
| TimesheetForms.SegmentError | success_center_timesheets/forms.py:189-217 | a present pair of set codes out of order gets the order message, a pair with exactly one end set gets the pair message, and every other pair no error |
| TimesheetForms.DayErrors | success_center_timesheets/forms.py:189-217 | every error a day adds is on a field of that day |
| TimesheetForms.WalkMembers | success_center_timesheets/forms.py:168-220 | the loop reports an element exactly when its day is visited before any break and that day produced it |
| TimesheetForms.ErrorsFromMembers | success_center_timesheets/forms.py:161-220 | an error is reported exactly when its day is below 13, is reached before a break, and has an invalid segment |
| TimesheetForms.ErrorsFromStep | success_center_timesheets/forms.py:168-220 | one loop step: the day's errors, then the rest unless the loop breaks |
| TimesheetForms.DayErrorMembers | success_center_timesheets/forms.py:189-217 | each segment's error goes on that segment's begin field with its own message |
| TimesheetForms.LastDayIgnored | success_center_timesheets/forms.py:168 | index 13 is never validated: changing its fields changes no error |
| TimesheetForms.NothingAfterBreak | success_center_timesheets/forms.py:209-220 | after a day whose evening pair and morning begin are present no later day is checked |
| TimesheetForms.TimeSheetDayForm.constructor | success_center_timesheets/forms.py:149-159 | a new form has no errors |
| TimesheetForms.TimeSheetDayForm.AddError | success_center_timesheets/forms.py:194 | add_error appends the field and message |
| TimesheetForms.TimeSheetDayForm.CheckSegment | success_center_timesheets/forms.py:189-197 | one segment's check appends exactly its error, if any |
| TimesheetForms.TimeSheetDayForm.CheckDay | success_center_timesheets/forms.py:170-220 | one day appends that day's errors and reports whether the loop breaks |
| TimesheetForms.TimeSheetDayForm.Clean | success_center_timesheets/forms.py:161-222 | clean appends exactly the errors of the visited days, in order |
| TimesheetForms.SearchDateError | success_center_timesheets/forms.py:245-261 | a date gets the future-date error exactly when it is later than today, and a missing date counts as today |
| TimesheetForms.SearchTimesheet.constructor | success_center_timesheets/forms.py:241-243 | a new search form has no errors |
| TimesheetForms.SearchTimesheet.Clean | success_center_timesheets/forms.py:245-261 | clean adds the future-date error to the date field exactly when the date is in the future, and otherwise leaves the errors alone |
| TimesheetViews.Created | success_center_timesheets/models.py:38-45 | a created period starts on the given day, ends 13 days later, and covers exactly the 14 days from its start |
| TimesheetViews.Latest | success_center_timesheets/views.py:62 | latest('date_start') is a stored period with no later start |
| TimesheetViews.PayPeriodTable.constructor | success_center_timesheets/views.py:29-44 | the table holds the given stored periods |
| TimesheetViews.PayPeriodTable.Populate | success_center_timesheets/views.py:29-74 | populate_pay_periods appends exactly the periods its lookups call for, in order, or raises the lookup's error and adds nothing |
| TimesheetViews.FirstPeriodWhenEmpty | success_center_timesheets/views.py:66-68 | with no stored period the first period created starts on 2015-05-25 |
| TimesheetViews.NothingCreatedWhenBothCovered | success_center_timesheets/views.py:48-59 | when today and today plus 14 each lie in exactly one period nothing is created |
| TimesheetViews.GeneratedAreConsecutive | success_center_timesheets/views.py:71-73 | generated periods are 14-day blocks, each starting the day after the previous one ends |
| TimesheetViews.GeneratedCoversTarget | success_center_timesheets/views.py:71-73 | generation stops at the first period reaching today plus 14, which then covers it; nothing is generated when the last period already reaches it |
| TimesheetViews.DayFormFields.constructor | success_center_timesheets/views.py:799 | the form holds the given fields |
| TimesheetViews.DayFormFields.Rename | success_center_timesheets/views.py:800-801 | one move: the field goes to its suffixed name with its value, and a missing field raises KeyError and changes nothing |
| TimesheetViews.DayFormFields.RenameForUniqueness | success_center_timesheets/views.py:799-813 | the six fields are moved in order, stopping at the first missing one |
| TimesheetViews.SuffixedIsNew | success_center_timesheets/views.py:799-813 | a suffixed name is never one of the six base names |
| TimesheetViews.SuffixedInjective | success_center_timesheets/views.py:799-813 | different fields get different suffixed names |
| TimesheetViews.RenameMovesFields | success_center_timesheets/views.py:799-813 | with the six fields present every one moves to its suffixed name with its value, and all other fields stay |
| TimesheetViews.FormStep | success_center_timesheets/views.py:612-684 | after a form, shifts exist iff some error-free pair was filled so far, and each segment's sticky flag stays on iff no filled pair of it was misordered |
| TimesheetViews.ValidateForms | success_center_timesheets/views.py:605-702 | the loop marks exactly the forms the sticky flags lock (never for an admin) and computes the submit flag of lines 775-778 |
| TimesheetViews.AdminAlwaysSubmits | success_center_timesheets/views.py:685-702 | an admin's forms never lock, so an admin always sees submit |
| TimesheetViews.MisorderedBlocksLaterLocks | success_center_timesheets/views.py:634-684 | a misordered pair turns its flag off for the rest of the loop, so no later form locks |
| TimesheetViews.SubmitHiddenIff | success_center_timesheets/views.py:775-778 | for a non-admin, submit is hidden exactly when the last form locked and shifts exist |
| TimesheetShiftData.SlotCode | success_center_timesheets/models.py:286-371 | the preset code of a half-hour slot, when there is one, is the code whose slot it is; none exactly when no preset falls on that slot |
| TimesheetShiftData.ClockTextAligned | success_center_timesheets/views.py:889-891 | on the hour or half hour, strftime('%-I:%M %p').lower() gives the slot's preset label |
| TimesheetShiftData.SlotSpellsOnly | success_center_timesheets/models.py:382-461 | a slot's label is accepted only by its own code's branch |
| TimesheetShiftData.UnalignedSpellsNothing | success_center_timesheets/models.py:462-463 | a clock off the hour and half hour spells no preset, so the decoder raises ValueError |
| TimesheetShiftData.CodeOfInstantSpec | success_center_timesheets/views.py:889-914 | an instant reads back as the code of its slot when it is on a preset time, and raises ValueError otherwise |
| TimesheetShiftData.PresetInstantReadsBack | success_center_timesheets/views.py:889-914 | a preset's own instant reads back as that preset on any day |
| TimesheetShiftData.Classify | success_center_timesheets/views.py:886-917 | a clock in goes to the first of morning, afternoon, evening whose window holds it, and ValueError when none does |
| TimesheetShiftData.WindowsTile | success_center_timesheets/views.py:850-877 | the three windows tile 7:00 am to 1:00 am of the next day without overlapping |
| TimesheetShiftData.FormDataKeys | success_center_timesheets/views.py:922-933 | a day's form data has exactly the six fields suffixed with the day's index |
| TimesheetShiftData.ShiftsOn | success_center_timesheets/views.py:832 | the day's shifts are exactly the shifts clocking in on that day |
| TimesheetShiftData.DayShiftCodes | success_center_timesheets/views.py:884-917 | the loop over a day's shifts folds them into the six codes, or stops at the first error |
| TimesheetShiftData.BuildDay | success_center_timesheets/views.py:830-940 | one outer iteration builds that day's entry |
| TimesheetShiftData.CalculateFormShiftData | success_center_timesheets/views.py:816-944 | the outer loop returns one entry per day of the period, or the first error |
| TimesheetShiftData.FormShiftDataShape | success_center_timesheets/views.py:816-944 | the result has one entry per day, dated in order from the period's start and keyed by its position, and fails exactly when some day fails |
| TimesheetShiftData.EmptyDayIsNull | success_center_timesheets/views.py:835-845 | a day without shifts gets INT_NULL_TIME in all six fields and no shift list |
| TimesheetShiftData.UnclassifiedShiftRaises | success_center_timesheets/views.py:916-917 | a shift clocking in outside the three windows raises ValueError |
| TimesheetShiftData.ClockInstant | success_center_timesheets/views.py:974-977 | a preset's label parses to its slot's instant; the null code and unknown codes raise ValueError |
| TimesheetShiftData.AmLabelIffMorningSlot | success_center_timesheets/views.py:1191-1195 | a preset's upper-cased label ends in AM exactly when its slot is before noon |
| TimesheetShiftData.EveningLabelDays | success_center_timesheets/views.py:1190-1198 | among evening presets exactly 12:00 am, 12:30 am and 1:00 am are dated the next day |
| TimesheetShiftData.MidnightEveningBeginAsWritten | success_center_timesheets/views.py:1184-1187 | as written, an evening begin of 12:00 am or 12:30 am lands before the evening window, outside every window |
| TimesheetShiftData.EveningBeginInWindow | success_center_timesheets/views.py:1184-1198 | dated like the end, every evening begin but the last preset lies in the evening window |
| TimesheetShiftData.NewSignature | success_center_timesheets/views.py:1016-1044 | corrected: a created shift gets the stored signature first for morning and evening and the posted one first for afternoon; morning and afternoon never store a blank; the evening stores a blank exactly when both are missing |
| TimesheetShiftData.FallbackAsWrittenIsBlank | success_center_timesheets/views.py:1035-1043 | as written, the morning and afternoon fallback stores the blank posted value, so the created shift fails clean |
| TimesheetShiftData.BlankCodeSavesNothing | success_center_timesheets/views.py:957-960 | a segment with a blank begin or end saves nothing |
| TimesheetShiftData.SavedShiftIsValid | success_center_timesheets/views.py:945-1049 | corrected: whatever a save stores is a valid shift of the employee in the period covering the day with the posted clock times, and it is created exactly when no stored shift matched the lookup |
| TimesheetShiftData.SaveSegment | success_center_timesheets/views.py:945-1049 | corrected: a segment with an unset begin or end changes nothing; anything it saves is a valid shift of the employee |
| TimesheetShiftData.ExactMatchUnchanged | success_center_timesheets/views.py:1003-1014 | posting the times the one matching shift already has changes nothing |
| TimesheetShiftData.SavedShiftReadsBack | success_center_timesheets/views.py:816-944 | a shift saved from an offered begin code is filtered into its day, classified into the same segment, and reads back as the posted codes |
| TimesheetShiftData.BeginOnOwnDay | success_center_timesheets/views.py:974-977 | an offered begin code before 12:00 am is dated on the day itself |
| TimesheetShiftData.BeginClassified | success_center_timesheets/views.py:886-914 | an offered begin code before 12:00 am is classified into its own segment |
| Slug.KeepWords | cae_home/models/user.py:603 | dropping every character but word characters, whitespace and hyphens leaves only those, and leaves slug text unchanged |
| Slug.Collapse | cae_home/models/user.py:603 | each run of hyphens and whitespace becomes one hyphen: the result has slug characters only and no two hyphens in a row |
| Slug.TrimStart | cae_home/models/user.py:603 | lstrip('-_') drops a prefix and leaves no hyphen or underscore in front |
| Slug.TrimEnd | cae_home/models/user.py:603 | rstrip('-_') drops a suffix and leaves no hyphen or underscore at the end |
| Slug.Slugify | cae_home/models/user.py:603 | the slug has slug characters only, and no hyphen or underscore at either end |
| Slug.SlugifyIsSlug | cae_home/models/user.py:603 | whatever the bronco net, its slug is a slug: word characters and single hyphens, no hyphen or underscore at either end |
| Slug.SlugifyFixesSlugs | cae_home/models/user.py:603 | a slug is its own slug |
| Slug.SlugifyIdempotent | cae_home/models/user.py:603 | slugify applied twice gives what it gives once |
| CodeFields.RemoveSpace | cae_home/models/fields.py:27-28 | every whitespace character is removed and all others kept in order |
| CodeFields.NormalizeCode | cae_home/models/fields.py:27-28 | the stored code has no whitespace and no lower-case letter |
| CodeFields.NormalizeIdempotent | cae_home/models/fields.py:17-34 | normalising a stored code again changes nothing |
| CodeFields.NormalizeIgnoresCaseAndSpace | cae_home/models/fields.py:17-34 | codes differing only in case and whitespace are stored alike |
| CodeFields.CodedModel.constructor | cae_home/models/fields.py:22 | the model holds the given code attribute |
| CodeFields.PreSave | cae_home/models/fields.py:17-34 | a non-empty value is normalised, written back and returned; an empty or missing one is returned and left as it is |
| WmuModels.MajorLabelInjective | cae_home/models/wmu.py:213-214 | for codes without spaces the label "code - name" gives the code and the name back |
| WmuModels.MajorLabel | cae_home/models/wmu.py:213-214 | the label is the code, " - ", and the name, in that order |
| WmuModels.SeasonFollowsMonth | cae_home/models/wmu.py:280-288 | a later start month never gives an earlier season |
| WmuModels.SemesterNameInjective | cae_home/models/wmu.py:290 | a semester name gives back its season and the year it ends in |
| WmuModels.SemesterName | cae_home/models/wmu.py:290 | the name is the season of the start month followed by digits only |
| WmuModels.SemesterDate.constructor | cae_home/models/wmu.py:250-265 | a new semester holds the given dates, has no name and is unsaved |
| WmuModels.SemesterDate.Clean | cae_home/models/wmu.py:270-294 | with both dates set, an unsaved semester is named after its season and end year, and clean fails with the date-order error exactly when the start is not before the end; with a date missing nothing happens |
| UserModels.BeforeAt | cae_home/models/user.py:677-681 | the mailbox of an address is its longest prefix without '@', ending where the first '@' stands |
| UserModels.ShorthandEmailMailbox | cae_home/models/user.py:677-681 | the mailbox of a shorthand email is the BroncoNet it was made from |
| UserModels.Compare | cae_home/models/user.py:25-201 | the comparison fails with ValidationError exactly when neither a login User nor a WmuUser exists, and otherwise keeps which records exist |
| UserModels.ReconcileKeepsShape | cae_home/models/user.py:60-193 | which records exist never changes, nor do the BroncoNets and directory flags |
| UserModels.Reconcile | cae_home/models/user.py:60-193 | whatever else the reconciliation does, an inactive login user ends with no groups |
| UserModels.WinnoDefault | cae_home/models/user.py:37-41 | the winno ends non-empty whenever the BroncoNet is, a set winno is kept, and nothing else of the intermediary changes |
| UserModels.SyncWinno | cae_home/models/user.py:62-67 | the intermediary's winno becomes the WmuUser's when there is one; no other field or record changes |
| UserModels.NameFromUser | cae_home/models/user.py:80-84 | with a login User the intermediary takes its name for the part and nothing else changes; without one the records stay as they are |
| UserModels.NameFromWmu | cae_home/models/user.py:85-89 | with a WmuUser the intermediary takes its name for the part and nothing else changes; without one the records stay as they are |
| UserModels.SyncEmail | cae_home/models/user.py:113-121 | only the login email changes: to the WmuUser's official email when that is set and non-empty, otherwise it stays |
| UserModels.UserFlags | cae_home/models/user.py:149-166 | only the active and staff flags change: seed users are active staff, everyone else follows the group derivation |
| UserModels.SyncUserFlags | cae_home/models/user.py:123-168 | the login User, when there is one, takes the derived flags; the other records are unchanged |
| UserModels.SyncWmuActive | cae_home/models/user.py:170-181 | the WmuUser is active exactly when either directory flag says so; nothing else of it changes |
| UserModels.ClearInactiveGroups | cae_home/models/user.py:183-193 | an inactive login user's groups become empty and an active one's are kept |
| UserModels.SyncedWinno | cae_home/models/user.py:37-67 | the winno ends as the WmuUser's, or as the intermediary's (defaulted to the BroncoNet when empty) without a WmuUser |
| UserModels.NamePairValues | cae_home/models/user.py:70-79 | with both records disagreeing, a non-blank WmuUser name wins stripped and a blank one takes the User's |
| UserModels.IntermediaryFollows | cae_home/models/user.py:80-89 | after a name step the intermediary holds the WmuUser's name, else the User's |
| UserModels.LoneRecordKeepsName | cae_home/models/user.py:70-89 | a lone login User or lone WmuUser keeps its name |
| UserModels.SyncedNames | cae_home/models/user.py:69-111 | first and last names end as the pair rule says, and the intermediary ends with the WmuUser's name when there is one, else the User's |
| UserModels.NamesAgreeAfterSync | cae_home/models/user.py:69-111 | with both records and a WmuUser name without stray spaces, all three records agree afterwards |
| UserModels.NameStepsKeepRest | cae_home/models/user.py:69-111 | the name steps leave emails, groups, usernames and directory flags alone |
| UserModels.TailValues | cae_home/models/user.py:113-193 | the login email becomes a non-empty official email, the login flags follow the groups, an inactive user loses every group, and the WmuUser is active iff either directory says so |
| UserModels.SyncedEmail | cae_home/models/user.py:113-121 | the login email ends as the WmuUser's official email whenever that is set and non-empty |
| UserModels.SyncedUserFlags | cae_home/models/user.py:149-193 | the login user is active iff some group gives activity or it is a seed user, staff iff some group gives staff or it is a seed user, and keeps its groups only when active |
| UserModels.SyncedWmuActive | cae_home/models/user.py:170-181 | the WmuUser is active exactly when either directory flag says so |
| UserModels.ReconcileReports | cae_home/models/user.py:60-193 | a step that changes a record raises the updated flag and no step lowers it |
| UserModels.ChangesAreSaved | cae_home/models/user.py:195-201 | whenever a record other than the defaulted winno changed, the models are saved |
| UserModels.NameDisagreementSaved | cae_home/models/user.py:72-74 | two records that disagree on a name are always saved, even when the step changes nothing |
| UserModels.SpacedWmuNameStaysApart | cae_home/models/user.py:72-89 | a WmuUser name with a leading space never settles: the User gets it stripped, the WmuUser and intermediary keep the space, and the models are saved on every run |
| UserModels.SettledIsFixed | cae_home/models/user.py:60-193 | on settled records every step is the identity |
| UserModels.CompareSettles | cae_home/models/user.py:25-201 | what the comparison leaves is settled |
| UserModels.CompareIsIdempotent | cae_home/models/user.py:25-201 | comparing again the records a comparison produced changes nothing and saves nothing, given the settings list every staff group as active and the WmuUser holds a winno and trimmed names |
| UserModels.LoginUser.SetName | cae_home/models/user.py:77 | a name assignment changes only that name of the login User |
| UserModels.LoginUser.DeriveFlags | cae_home/models/user.py:149-166 | the group loop and seed override set the flags to the derivation from groups |
| UserModels.WmuUser.SetName | cae_home/models/user.py:79 | a name assignment changes only that name of the WmuUser |
| UserModels.WmuUser.Clean | cae_home/models/user.py:661-667 | an unset or empty official email becomes the shorthand email; a set one is kept; afterwards it is never empty |
| UserModels.UserIntermediary.SetName | cae_home/models/user.py:83 | a name assignment changes only that name of the intermediary |
| UserModels.UserIntermediary.Clean | cae_home/models/user.py:586-607 | no User and no WmuUser raises ValidationError; on creation the BroncoNet comes from the User's username, else the WmuUser's, and is slugified; afterwards a missing profile raises ValidationError |
| UserModels.UserIntermediary.SetBroncoNet | cae_home/models/user.py:597-603 | the BroncoNet is set and the slug becomes its slug |
| UserModels.IntermediarySlug | cae_home/models/user.py:603 | a new intermediary's slug is a slug, and the BroncoNet itself when that already is one |
| UserModels.SyncNameFields | cae_home/models/user.py:69-111 | the three name comparisons for one part change the models as the pure name step says |
| UserModels.SyncWinnoField | cae_home/models/user.py:62-67 | the winno comparison changes the models as the pure winno step says |
| UserModels.SyncEmailField | cae_home/models/user.py:113-121 | the email comparison changes the models as the pure email step says |
| UserModels.SyncUserFlagFields | cae_home/models/user.py:123-168 | the flag derivation changes the models as the pure flag step says |
| UserModels.SyncWmuActiveField | cae_home/models/user.py:170-181 | the WmuUser activity changes as the pure step says |
| UserModels.ClearInactiveGroupsField | cae_home/models/user.py:183-193 | an inactive login user's groups are cleared as the pure step says |
| UserModels.CompareUserAndWmuUserModels | cae_home/models/user.py:25-201 | on the models: no records raises the ValidationError after the winno default is saved; otherwise the three models end as Compare says and the result tells whether they were saved |
| UserModels.OpenGroups | cae_home/models/user.py:233-240 | the found groups are exactly the groups of the user's open memberships |
| UserModels.CloseStale | cae_home/models/user.py:237-246 | each open membership of a group the user left gets today as its leaving date; every other row is unchanged |
| UserModels.Joined | cae_home/models/user.py:248-253 | each added row is a new open membership of the user for a held group not found open, joined today |
| UserModels.SyncedOpenGroups | cae_home/models/user.py:221-253 | afterwards the user has an open membership of a group exactly when they hold it |
| UserModels.SyncedKeepsHistory | cae_home/models/user.py:221-253 | rows of other users and closed rows are untouched, an open row at most gets today's leaving date, and every added row is a new open membership joined today |
| UserModels.SyncedMembershipsIdempotent | cae_home/models/user.py:221-253 | running the membership check twice with the same groups changes nothing the second time |
| UserModels.MembershipTable.CheckUserGroupMembership | cae_home/models/user.py:221-253 | a username without a login User raises DoesNotExist and changes nothing; otherwise the table ends as the spec of the two loops says |
| UserModels.MembershipTable.CloseLeftGroups | cae_home/models/user.py:237-246 | the first loop closes the memberships of groups left and collects the groups found open |
| UserModels.MembershipTable.JoinMissingGroups | cae_home/models/user.py:248-253 | the second loop appends a membership for each held group not found open |
| UserModels.MajorRelationship.constructor | cae_home/models/user.py:374-376 | a relationship remembers its active flag as loaded |
| UserModels.MajorRelationship.Clean | cae_home/models/user.py:378-386 | switching from active to inactive records now as the stop date; anything else leaves the stop date alone |
| UserModels.FontSize | cae_home/models/user.py:794-809 | the size name is "base" exactly for values other than 0, 1, 3, 4, 5 |
| UserModels.FontSizesDistinct | cae_home/models/user.py:794-809 | the listed choices each have their own size name |
| UserModels.ProfileFontSize | cae_home/models/user.py:811-825 | an omitted value means the profile's stored size |
| UserModels.StateLabel | cae_home/models/user.py:850-907 | STATE_CHOICES[value][1] is the label at that index, counts from the end for a negative index, and raises IndexError out of range |
| UserModels.ChoiceLabelParts | cae_home/models/user.py:944-964 | label[5:] is the state name and label[:2] its abbreviation |
| UserModels.StateLabelsSplit | cae_home/models/user.py:944-964 | for any index Python accepts, the label is the two-letter abbreviation, " - ", and the name |
| UserModels.StateExamples | cae_home/models/user.py:850-907 | Montana is MT, Alaska AK, Michigan MI and Wyoming WY at the indexes the address tests use |
| AdvBackend.ThreePartLevel | workspace/ldap_backends/wmu_auth/adv_backend.py:352-366 | a three-part code is decided by its middle part alone: PHD, MS, BS, AS prefixes, else Unknown |
| AdvBackend.ThreePartSplit | workspace/ldap_backends/wmu_auth/adv_backend.py:352-355 | a code built as campus-key-major with dash-free parts splits back into those three parts |
| AdvBackend.TwoPartLevel | workspace/ldap_backends/wmu_auth/adv_backend.py:368-383 | a two-part code is decided by characters 1 and 2 of its first part |
| AdvBackend.OnePartLevel | workspace/ldap_backends/wmu_auth/adv_backend.py:385-410 | a dash-free code of four characters is decided by its last character (P, J, M or Q, D), any other length is Unknown |
| AdvBackend.ManyPartLevel | workspace/ldap_backends/wmu_auth/adv_backend.py:412-415 | four or more dash-separated parts give Unknown |
| AdvBackend.MiddlePartLevels | workspace/ldap_backends/wmu_auth/adv_backend.py:357-366 | each degree prefix of the middle part gives its own level |
| AdvBackend.BachelorsThreePartExample | workspace/ldap_backends/wmu_auth/adv_backend.py:361-362 | a three-part code with a BS middle part is Bachelors |
| AdvBackend.MastersThreePartExample | workspace/ldap_backends/wmu_auth/adv_backend.py:359-360 | a three-part code with an MS middle part is Masters |
| AdvBackend.PhdThreePartExample | workspace/ldap_backends/wmu_auth/adv_backend.py:357-358 | a three-part code with a PHD middle part is Phd |
| AdvBackend.BachelorsTwoPartExample | workspace/ldap_backends/wmu_auth/adv_backend.py:372-379 | a two-part code whose first part reads xBS is Bachelors |
| AdvBackend.MastersTwoPartExample | workspace/ldap_backends/wmu_auth/adv_backend.py:372-377 | a two-part code whose first part reads xMS is Masters |
| AdvBackend.OnePartExample | workspace/ldap_backends/wmu_auth/adv_backend.py:390-401 | four-character codes ending in P, J, M and D are Associates, Bachelors, Masters and Phd |
| AdvBackend.FirstValue | workspace/ldap_backends/wmu_auth/adv_backend.py:304 | the first value of an attribute, stripped; a missing attribute raises KeyError and an empty one IndexError |
| AdvBackend.MajorDisplayName | workspace/ldap_backends/wmu_auth/adv_backend.py:296-311 | displayName, else title, else wmuStudentMajor; only a missing attribute moves on, an empty one raises |
| AdvBackend.TitleFallback | workspace/ldap_backends/wmu_auth/adv_backend.py:305-308 | without displayName the title is used |
| AdvBackend.CodeFallback | workspace/ldap_backends/wmu_auth/adv_backend.py:309-311 | without displayName and title the student major code is used |
| AdvBackend.SelectProgramCode | workspace/ldap_backends/wmu_auth/adv_backend.py:324-333 | of two or more codes, the first with three dash parts is taken, else the first, stripped |
| AdvBackend.MajorProgramCode | workspace/ldap_backends/wmu_auth/adv_backend.py:313-342 | the program code from wmuProgramCode when present (an empty list raises IndexError), otherwise wmuStudentMajor's first value |
| AdvBackend.MajorDepartment | workspace/ldap_backends/wmu_auth/adv_backend.py:271-294 | the department named by the entry, or na-unknown when either attribute is missing or empty |
| AdvBackend.DeactivationDate | workspace/ldap_backends/wmu_auth/adv_backend.py:428-439 | the stop date is an inactive login user's last login, else an inactive WmuUser's last change without a login user, else now |
| AdvBackend.LinksOf | workspace/ldap_backends/wmu_auth/adv_backend.py:426 | the positions listed are exactly the user's relations to the major, in order |
| AdvBackend.ReturnedMajorCannotBeDropped | workspace/ldap_backends/wmu_auth/adv_backend.py:426 | a major dropped, taken up again and dropped once more makes the deactivation raise MultipleObjectsReturned |
| AdvBackend.DeactivationDateIgnored | workspace/ldap_backends/wmu_auth/adv_backend.py:440-446 | even a single relation ends with now as its stop date, whatever date was computed, because saving the relation rewrites it |
| AdvBackend.DeactivateOthers | workspace/ldap_backends/wmu_auth/adv_backend.py:156-164 | corrected: every active relation whose major was not returned stops on the date, and nothing else changes |
| AdvBackend.AddMissingKeeps | workspace/ldap_backends/wmu_auth/adv_backend.py:122-131 | corrected: a relation is added for exactly each returned major the user is not actively pursuing, each added one active and open, and the earlier relations are kept |
| AdvBackend.InactiveUserDropsMajors | workspace/ldap_backends/wmu_auth/adv_backend.py:105-113 | corrected: an inactive WmuUser keeps no active major and gains no relation |
| AdvBackend.SyncedActiveMajors | workspace/ldap_backends/wmu_auth/adv_backend.py:97-164 | corrected: for an active WmuUser a major is active afterwards exactly when the directory returned it, except that a lone Unknown with active majors present drops them all instead |
| AdvBackend.SyncedKeepsHistory | workspace/ldap_backends/wmu_auth/adv_backend.py:97-164 | corrected: earlier relations are only ever switched off, and added ones are active and open |
| AdvBackend.UnknownMajorToggles | workspace/ldap_backends/wmu_auth/adv_backend.py:138-148 | corrected: a lone Unknown is dropped while it is the only active major and added back on the next run |
| AdvBackend.MajorRelations.constructor | workspace/ldap_backends/wmu_auth/adv_backend.py:103 | the relations start as given for the user |
| AdvBackend.MajorRelations.DeactivateUnhandled | workspace/ldap_backends/wmu_auth/adv_backend.py:156-164 | corrected: the loop leaves the relations as the pure deactivation says |
| AdvBackend.MajorRelations.AddMissingMajors | workspace/ldap_backends/wmu_auth/adv_backend.py:122-131 | corrected: the loop leaves the relations as the pure addition says |
| AdvBackend.MajorRelations.HasActiveMajor | cae_home/models/user.py:397-409 | true exactly when some relation of the user to the major is active |
| AdvBackend.MajorRelations.HasAnyActive | workspace/ldap_backends/wmu_auth/adv_backend.py:140-141 | corrected: true exactly when some relation is active |
| AdvBackend.MajorRelations.AddOrUpdateMajor | workspace/ldap_backends/wmu_auth/adv_backend.py:97-164 | corrected: the relations end as the intended synchronisation says |
| AdvBackend.ActiveMajors | workspace/ldap_backends/wmu_auth/adv_backend.py:158 | the majors listed are exactly those with an active relation, never more entries than relations |
| AdvBackend.FilterActive | workspace/ldap_backends/wmu_auth/adv_backend.py:108 | as written, `major.filter(is_active=True)` names a field Major lacks and raises FieldError; filtering the relation rows instead lists exactly the actively pursued majors |
| AdvBackend.CreateReturnedAsWritten | workspace/ldap_backends/wmu_auth/adv_backend.py:122-131 | as written, the loop over returned majors either leaves the relations unchanged or raises FieldError in the log line before its first create |
| AdvBackend.AddOrUpdateAlwaysRaises | workspace/ldap_backends/wmu_auth/adv_backend.py:97-164 | as written, add_or_update_major raises FieldError on every input, so no relation is ever added or switched off |
| AdvBackend.CreateReturnedIntended | workspace/ldap_backends/wmu_auth/adv_backend.py:122-131 | corrected: with the relation-row filter the loop adds exactly the missing majors, as AddMissing does |
| AdvBackend.CreateStepIntended | workspace/ldap_backends/wmu_auth/adv_backend.py:126-131 | corrected: one iteration adds the major exactly when it is not actively pursued |
| AdvBackend.AddOrUpdateIntended | workspace/ldap_backends/wmu_auth/adv_backend.py:97-164 | corrected: with the relation-row filter the whole function ends with the relations of the intended synchronisation |
| SettingsAdvBackend.DegreeLevelVersionsAgree | settings/ldap_backends/wmu_auth/adv_backend.py:328-393 | the two versions agree except on dash-free codes not four long, where the older one gives nothing |
| SettingsAdvBackend.SplitHasSeveral | settings/ldap_backends/wmu_auth/adv_backend.py:335-336 | text holding a dash splits into at least two pieces |
| SettingsAdvBackend.SettingsMajorDepartment | settings/ldap_backends/wmu_auth/adv_backend.py:258-278 | the older department reads only the department name, and falls back to na-unknown |
| SettingsAdvBackend.DepartmentVersionsAgree | settings/ldap_backends/wmu_auth/adv_backend.py:258-278 | wherever the newer version finds a named department, the older one finds the same name |
| SettingsAdvBackend.AddedMajorsNeverDrop | settings/ldap_backends/wmu_auth/adv_backend.py:99-146 | every returned major is active afterwards, and no active relation is ever switched off |
| SettingsAdvBackend.AddOnlyMajors | settings/ldap_backends/wmu_auth/adv_backend.py:99-146 | the older add_or_update_major only adds a relation per returned major not actively pursued |
| LdapValues.GetLdapUserAttribute | workspace/ldap_backends/base_auth.py:397-442 | a non-string or blank attribute name raises ValidationError; no search result gives nothing; one value comes back stripped, several as the list, none as the empty string |
| LdapValues.AttributeValueNormalised | settings/ldap_backends/base_auth.py:375-392 | a successful read never keeps surrounding whitespace on a single value, and a list it returns always has several values |
| LdapValues.FormatBackupName | workspace/ldap_backends/wmu_auth/wmu_backend.py:864-887 | a list gives its first value, a non-empty text is stripped, and anything else gives nothing |
| LdapValues.FormattedNameStripped | settings/ldap_backends/wmu_auth.py:420-443 | a formatted name carries no surrounding whitespace |
| LdapValues.BackupLdapName | workspace/ldap_backends/wmu_auth/wmu_backend.py:825-862 | the first usable name among givenName or sn, displayName, gecos and cn, else the uid; never empty for a non-empty uid |
| LdapValues.FirstUsable | workspace/ldap_backends/wmu_auth/wmu_backend.py:835-860 | the value found is the formatted value of some attribute in the list that gives a usable name |
| LdapValues.FirstUsableIsEarliest | settings/ldap_backends/wmu_auth/wmu_backend.py:504-540 | the value found belongs to the earliest attribute whose formatted value is usable, and there is none when no attribute gives one |
| LdapValues.BackupNameIsFirstUsable | workspace/ldap_backends/wmu_auth/wmu_backend.py:825-862 | the chain is the first usable name among the attributes in order, else the uid |
| WmuBackend.StatusField | workspace/ldap_backends/wmu_auth/wmu_backend.py:600-645 | the first value of a status field, stripped and lower-cased, or nothing when the key or its first value is missing |
| WmuBackend.Expiration | workspace/ldap_backends/wmu_auth/wmu_backend.py:651-697 | a missing expiration field gives nothing, an unreadable one the ValueError of the date parse |
| WmuBackend.VerifyUserLdapStatus | workspace/ldap_backends/wmu_auth/wmu_backend.py:584-702 | enrolled gives (True, True); an inactive inet or Kerberos status (False, False); an employee expiration not yet past (True, True); an expiration within 365 days (False, True); otherwise (False, False); the first part never holds without the second |
| WmuBackend.StatusDecays | workspace/ldap_backends/wmu_auth/wmu_backend.py:584-702 | whatever status holds on a later day held on every earlier day too |
| WmuBackend.ParseUserLdapField | workspace/ldap_backends/wmu_auth/wmu_backend.py:745-771 | nothing for missing info, a blank name, a missing key or no values; the value for one value; the list for several |
| WmuBackend.OfficialEmail | workspace/ldap_backends/wmu_auth/wmu_backend.py:429-432 | the directory's mail value when it has one, otherwise the shorthand address of the uid |
| WmuBackend.NewUserName | workspace/ldap_backends/wmu_auth/wmu_backend.py:226-246 | a login User's non-empty name wins, else the directory name, else the backup-name chain; never empty |
| WmuBackend.NewWmuUserFields | workspace/ldap_backends/wmu_auth/wmu_backend.py:201-261 | without a winno from the caller or the directory creation raises ValidationError; otherwise the new WmuUser has the uid, that winno, names as above and the mail or shorthand address |
| WmuBackend.NamesFallBackToUid | workspace/ldap_backends/wmu_auth/wmu_backend.py:226-246 | with no name in the login User or the entry, both names are the uid |
| WmuBackend.UpdateUserEmailFields | workspace/ldap_backends/wmu_auth/wmu_backend.py:421-453 | the official email goes to the WmuUser and to the login User when one exists, and the pair returned is (official, shorthand); a mail attribute with several values fails the email validation on save, raising ValidationError with nothing stored |
| SettingsWmuBackend.StampExpiration | settings/ldap_backends/wmu_auth/wmu_backend.py:375-409 | an expiration is read as a full timestamp without stripping; a missing field gives nothing |
| SettingsWmuBackend.SettingsLdapStatus | settings/ldap_backends/wmu_auth/wmu_backend.py:332-409 | enrolled gives (True, True); inactive inet status (False, False); an employee expiration not past (True, True); within 365 days (False, True); otherwise (False, False) |
| SettingsWmuBackend.StatusVersionsAgree | settings/ldap_backends/wmu_auth/wmu_backend.py:332-409 | with an active Kerberos status and expirations falling at midnight, the newer decision agrees with this one |
| SettingsWmuBackend.ExpirationAtMidnight | settings/ldap_backends/wmu_auth/wmu_backend.py:375-409 | one expiration field read by both versions gives the same day |
| SettingsWmuBackend.MidnightOrder | settings/ldap_backends/wmu_auth/wmu_backend.py:375-409 | comparing midnights is comparing days |
| SettingsWmuBackend.VerifyUserLdapStatusAsWritten | settings/ldap_backends/wmu_auth/wmu_backend.py:313-330 | as written, setting the active fields raises DoesNotExist when no login User has the uid, and otherwise FieldError from the lookup by a field WmuUser lacks; without the active fields the status is returned |
| SettingsWmuBackend.MissingUserNeverDeactivated | settings/ldap_backends/wmu_auth/wmu_backend.py:313-330 | as written, a user the directory no longer knows is never marked inactive: the call raises DoesNotExist without a login User and FieldError with one |
| SettingsWmuBackend.VerifyUserLdapStatus | settings/ldap_backends/wmu_auth/wmu_backend.py:276-330 | corrected: with the intended lookup and the `is_active` fields, the status goes to the login User's and the WmuUser's active flags, and a user the directory does not return is made inactive in both |
| SettingsWmuAuth.ReadName | settings/ldap_backends/wmu_auth.py:340-350 | a name read from the directory, or the backup-name chain when the read is empty |
| SettingsWmuAuth.NewUserNeverCreated | settings/ldap_backends/wmu_auth.py:357-367 | as written, no new WmuUser is ever created: a missing winno raises ValidationError, a missing Unknown major DoesNotExist, and otherwise `create` refuses the many-to-many `major=` with TypeError; a stored user is handled as intended |
| SettingsWmuAuth.UpdateOrCreateWmuUserModel | settings/ldap_backends/wmu_auth.py:317-380 | corrected: a stored WmuUser is kept; a new one without a winno raises ValidationError; a missing Profile raises ValueError; otherwise the new WmuUser gets the directory names or the backup chain and the mail or shorthand address, and the Profile the home phone when one is read |
| SettingsWmuAuth.NamesFromEmptyDirectory | settings/ldap_backends/wmu_auth.py:317-380 | corrected: when the directory has nothing for the user, a new WmuUser is named after the uid and mailed at the shorthand address |
| BaseAuth.AlnumPrefix | workspace/ldap_backends/base_auth.py:40 | the length found is the longest run of ASCII letters and digits at the start of the text |
| BaseAuth.MatchesUsernameIsPattern | workspace/ldap_backends/base_auth.py:40 | the username pattern matches exactly when a non-empty alphanumeric prefix is followed by the end of the text or by the university domain; backtracking never matters |
| BaseAuth.ParseUsername | workspace/ldap_backends/base_auth.py:143-171 | a name outside the pattern gives nothing; an accepted one is stripped and lower-cased, and looked up by email when it holds an '@' that validates as an email, else by username |
| BaseAuth.LdapUid | settings/backends.py:127-131 | the directory uid is the mailbox of an email login and the username itself otherwise |
| BaseAuth.StrippedLogin | settings/ldap_backends/base_auth.py:127-131 | stripping an accepted name only drops the final newline the pattern's end lets through |
| BaseAuth.BareNameLogin | workspace/ldap_backends/base_auth.py:143-171 | a bare name, optionally followed by a newline, is looked up as the lower-cased name |
| BaseAuth.DomainLogin | workspace/ldap_backends/base_auth.py:143-202 | a name with the domain is looked up by email when validation accepts it, with the lower-cased name before the '@' as directory uid; otherwise the whole lower-cased text is username and uid |
| BaseAuth.UserCanAuthenticate | workspace/ldap_backends/base_auth.py:222-229 | true exactly when is_active is true or the user has no such attribute |
| BaseAuth.Authenticate | settings/ldap_backends/base_auth.py:71-113 | a refused name gives no user; a stored User logs in only with the right password and when it may authenticate; an unknown one is passed to the directory under its uid |
| BaseAuth.InactiveNeverLogsIn | workspace/ldap_backends/base_auth.py:98-119 | an inactive stored User never logs in, whatever the password |
| BaseAuth.BareNameReachesDirectory | workspace/ldap_backends/base_auth.py:76-141 | a new bare name goes to the directory as its lower-cased alphanumeric uid |
| BaseAuth.UpToDot | workspace/ldap_backends/base_auth.py:362 | the text before the first '.', and whether there is one |
| BaseAuth.ModulePrefix | workspace/ldap_backends/base_auth.py:362 | the app label before the first '.', or nothing where index raises |
| BaseAuth.ModulePrefixOfName | workspace/ldap_backends/base_auth.py:362 | a permission name built from an app label gives that label back |
| BaseAuth.ModulePermsIff | settings/ldap_backends/base_auth.py:308-317 | some permission name's prefix is the app exactly when some permission belongs to the app |
| BaseAuth.PermissionUser.constructor | workspace/ldap_backends/base_auth.py:297-314 | a user starts with the given flags, permissions and empty caches |
| BaseAuth.GetPermissions | workspace/ldap_backends/base_auth.py:297-314 | an inactive or anonymous user or an object check gets nothing; otherwise the names the database gives, all of them for a superuser, cached after the first call |
| BaseAuth.GetAllPermissions | settings/backends.py:302-315 | the user's own and group permission names, nothing when excluded, cached in the permission cache |
| BaseAuth.HasPerm | settings/backends.py:317-323 | true exactly when the user is active and holds the permission name |
| BaseAuth.HasModulePerms | workspace/ldap_backends/base_auth.py:355-364 | true exactly when the user is active and holds some permission of the app |
| BaseAuth.LdapInfoRequest | settings/ldap_backends/base_auth.py:323-336 | no attributes means all attributes, a list or the all-attributes text is accepted, and anything else raises ValidationError |
| SettingsBackends.ParseUsername | settings/backends.py:72-95 | the older parser only strips the name; no pattern, no lower-casing |
| SettingsBackends.Authenticate | settings/backends.py:31-70 | every login name reaches the lookup; a stored User needs the right password and may not be inactive, and an unknown one goes to the directory under its uid |
| SettingsBackends.StrictAgreesOnLowerCase | settings/backends.py:72-95 | on a lower-case name the pattern accepts, the strict parser agrees with this one |
| SettingsBackends.StrictLoginAgreesOnLowerCase | settings/backends.py:31-70 | so do the two logins, which differ only in the parser |
| SettingsBackends.InnerSpaceReachesLookup | settings/backends.py:72-95 | a name the strict parser refuses, two words around a space, still reaches the lookup here unchanged |
| TemplateTags.Trunc | cae_home/templatetags/cae_home_tags.py:71 | int() drops the fraction toward zero: the floor of a non-negative value and the ceiling of a negative one |
| TemplateTags.TruncDiv | cae_home/templatetags/cae_home_tags.py:72-74 | int(a / d) is the quotient truncated toward zero |
| TemplateTags.ElapsedTime | cae_home/templatetags/cae_home_tags.py:63-80 | the displayed hours, minutes and seconds lie in their ranges and the totals are consistent |
| TemplateTags.ElapsedDecomposes | cae_home/templatetags/cae_home_tags.py:63-80 | for a time in the past the displayed parts add back up to the whole seconds that passed |
| TemplateTags.DaysText | cae_home/templatetags/cae_home_tags.py:83-85 | the days text is empty exactly when no whole day passed |
| TemplateTags.DaysShownIffDayPassed | cae_home/templatetags/cae_home_tags.py:54-97 | the text mentions days exactly when a whole day has passed |
| TemplateTags.SecondsShownIffAsked | cae_home/templatetags/cae_home_tags.py:54-97 | the text mentions seconds exactly when they are asked for |
| TemplateTags.DictKey | cae_home/templatetags/cae_home_tags.py:100-116 | the value under the key, '' for a missing key, and a TypeError for anything but a dict |
| TemplateTags.IsList | cae_home/templatetags/cae_home_tags.py:127-132 | true exactly for lists and tuples |
| TemplateTags.FilterRange | cae_home/templatetags/cae_home_tags.py:135-144 | the range 1 to n inclusive |
| TemplateTags.FilterRangeMembers | cae_home/templatetags/cae_home_tags.py:135-144 | the range holds exactly 1 to n, each once, in increasing order |
| LoggingSetup.AuthFiltersComplement | settings/logging.py:523-550 | the auth log and the other logs split the records between them: each record goes to exactly one |
| LoggingSetup.FiltersNest | settings/logging.py:470-521 | the below-level filters nest, and CHANNELS is dropped only by its own filter among those that could see it |
| LoggingSetup.MethodName | settings/logging.py:443-444 | the method name is the one given, or the lower-cased level name when none is given |
| LoggingSetup.StillUnused | settings/logging.py:446-451 | adding a level with other names leaves other unused names unused |
| LoggingSetup.LoggingState.constructor | settings/logging.py:25-38 | logging starts uninitialised with no custom level |
| LoggingSetup.LoggingState.AddLoggingLevel | settings/logging.py:419-467 | a level or method name already defined raises AttributeError and changes nothing; otherwise the level number gets the name and the module and logger class gain the level and its method |
| LoggingSetup.LoggingState.AddCustomLevels | settings/logging.py:71-74 | the four custom levels CHANNELS 21, AUTH_INFO 25, AUTH_WARNING 35 and AUTH_ERROR 45 are added in order, stopping at the first that raises |
| LoggingSetup.LoggingState.InitializeLoggerSettings | settings/logging.py:41-89 | a missing directory is refused; otherwise the custom levels are added and the first-call flag is cleared |
| LoggingSetup.LoggingState.GetLogger | settings/logging.py:25-38 | initialisation runs on the first call only, and the caller's logger is returned |
| TestUtils.ReplaceChar | cae_home/tests/utils.py:1127-1176 | every copy of the character is replaced and every other character kept, in order |
| TestUtils.ReplaceText | cae_home/tests/utils.py:772 | a literal pattern is replaced left to right without overlaps, and text without it is unchanged |
| TestUtils.Collapse | cae_home/tests/utils.py:775 | every run of whitespace becomes one plain space: the result has no other whitespace, never two spaces in a row, and keeps a non-space first character |
| TestUtils.CollapseTidy | cae_home/tests/utils.py:775 | text already single-spaced with plain spaces collapses to itself |
| TestUtils.Entity | cae_home/tests/utils.py:1127-1176 | each special character maps to its own numeric character reference |
| TestUtils.EntityTable | cae_home/tests/utils.py:1127-1176 | the references are the ones the escape writes out |
| TestUtils.EscapeSpecialRegexChars | cae_home/tests/utils.py:1127-1176 | one replacement pass per special character, in list order, yields each character replaced by its reference |
| TestUtils.EscapedIsClean | cae_home/tests/utils.py:1127-1176 | no special character survives the escape |
| TestUtils.EscapedKeepsPlainText | cae_home/tests/utils.py:1127-1176 | text without special characters is left as it is |
| TestUtils.EscapedAppend | cae_home/tests/utils.py:1127-1176 | the escape works character by character, so it distributes over concatenation |
| TestUtils.FirstFrom | cae_home/tests/utils.py:1118 | the first occurrence of the pattern at or after a position, and none when there is none |
| TestUtils.LastBefore | cae_home/tests/utils.py:1118 | the last occurrence of the pattern starting before a position, and none when there is none |
| TestUtils.TitleMatchBounds | cae_home/tests/utils.py:1118 | the title pattern matches exactly when the first title tag comes before the last closing tag with room for one character |
| TestUtils.TitleGroup | cae_home/tests/utils.py:1118 | the group runs from the first title tag to the last closing tag; no match raises AttributeError |
| TestUtils.RemoveLineBreaks | cae_home/tests/utils.py:1122 | no carriage return or newline is left, and every other character is kept in order |
| TestUtils.GetPageTitle | cae_home/tests/utils.py:1110-1125 | a page without a title element raises AttributeError; otherwise the title is tidied |
| TestUtils.TitleIsTidy | cae_home/tests/utils.py:1110-1125 | whatever the page holds, a returned title has plain single spaces and none at either end |
| TestUtils.TidyTitleKeepsTidy | cae_home/tests/utils.py:1122-1125 | a tidy title is returned as it stands |
| TestUtils.TitleOfBarePage | cae_home/tests/utils.py:1110-1125 | a page that is exactly one title element yields that title, tidied |
| TestUtils.PatternIsJoin | cae_home/tests/utils.py:783-792 | the pattern is the pieces joined by the any-whitespace group, with one more at either end |
| TestUtils.ExpectedContentPattern | cae_home/tests/utils.py:770-792 | the loop builds the pattern from the expected text split on spaces after the entity, whitespace and anchor replacements |
| TestUtils.PatternPiecesArePlain | cae_home/tests/utils.py:770-792 | no literal piece of the pattern holds whitespace, a dollar sign or a caret, so the page may space its words freely |
| TestUtils.ContextValueText | cae_home/tests/utils.py:82-84 | a value of at most 80 characters is shown whole; a longer one as its first and last 40 characters in quotes around an ellipsis |
| TestUtils.GetUser | cae_home/tests/utils.py:285-322 | a list, tuple or QuerySet raises TypeError; a User is returned as is; a username is returned when stored and raises DoesNotExist otherwise |
| TestUtils.PostData | cae_home/tests/utils.py:612-621 | the data sent is never empty: missing or empty data becomes a single UnitTest flag, and other data is sent as given |
| Admin.DistinctIsFirstSeen | cae_home/admin.py:378-384 | the de-duplicated list holds each value exactly once, in the order of first occurrence |
| Admin.SemesterYearLookups | cae_home/admin.py:374-384 | the choices are the distinct semester start years in first-seen order |
| Admin.SemesterYearQueryset | cae_home/admin.py:386-392 | an empty parameter filters nothing; any other filters on that start year |
| Admin.SemesterChoiceSelects | cae_home/admin.py:374-392 | choosing a listed year keeps the semesters that start in it |
| Admin.ExpiryYears | cae_home/admin.py:440-446 | the years of the expirations that are set, in order |
| Admin.SoftwareExpiryLookups | cae_home/admin.py:436-451 | the choices are the no-expiry choice first when some expiration is unset, then the distinct expiration years |
| Admin.ExpiryLookupsChoices | cae_home/admin.py:436-451 | each choice is listed once, the no-expiry choice only at the head, and exactly for what the expirations hold |
| Admin.SoftwareExpiryQueryset | cae_home/admin.py:453-463 | an empty parameter filters nothing, None keeps the unset expirations, and anything else filters on the year |
| Admin.ExpiryChoiceSelects | cae_home/admin.py:436-463 | every listed choice, once chosen, keeps the software details it was listed for |
| Admin.GetDepartments | cae_home/admin.py:1213-1220 | the department names, each followed by a spaced bar with the last separator cut off, so the names joined by the separator |
| Admin.PresentAnchors | cae_home/admin.py:795-830 | one anchor per related object that exists, in order |
| Admin.RelatedModels | cae_home/admin.py:795-830 | the anchors of the existing related objects joined by the separator |
| Admin.UserRelatedModels | cae_home/admin.py:546-583 | the WmuUser, UserIntermediary and Profile links that exist joined by the separator, always starting and ending with an anchor |
| Admin.HasDegree | cae_home/admin.py:1058-1077 | a degree is recorded exactly when its GPA is not zero |
| Admin.WithoutCounts | cae_home/admin.py:489-493 | removing a value takes out every copy of it and keeps every other value as often as it occurred |
| Admin.RemoveUserPermissions | cae_home/admin.py:488-494 | the fieldset keeps every field but user_permissions, in order |
| SuccessCenterCore.StepGroupsOf | success_center_core/views.py:40-46 | the user's groups that are STEP location groups, in database order |
| SuccessCenterCore.RemoveFirst | success_center_core/views.py:87-88 | removing a present value drops its first copy and keeps the rest in order |
| SuccessCenterCore.RemoveAppended | success_center_core/views.py:75-88 | appending a value the list lacks and removing it again gives the list back |
| SuccessCenterCore.RemoveAppendedPresent | success_center_core/views.py:75-88 | when the list already has the value, append-then-remove moves it to the end instead |
| SuccessCenterCore.AdminsSeeAllOpen | success_center_core/views.py:65-91 | admins, and users with no location group, see every open log |
| SuccessCenterCore.SscSeesBothSites | success_center_core/views.py:73-88 | an SSC employee sees the open logs of both SSC sites |
| SuccessCenterCore.StepGroupMap.constructor | success_center_core/views.py:48-54 | the map starts as STEP_GROUP_MAP is defined |
| SuccessCenterCore.StepGroupMap.FilterStudentsByLocation | success_center_core/views.py:65-91 | the open logs the employee may see are returned and the shared map is back as it was afterwards |
| SuccessCenterCore.StepGroupMap.CheckinLocation | success_center_core/views.py:161-169 | the first location of the employee's first STEP group, or the profile's default tutor location without one |
| SuccessCenterCore.StepGroupMap.CheckInSite | success_center_core/views.py:316-330 | the first location of the employee's first STEP group when it is a stored tutor location, and none otherwise |
| SuccessCenterCore.InitialSites | success_center_core/views.py:48-54 | Eldridge and Floyd employees check in at their own site |
| SuccessCenterCore.TruncateIdentifier | success_center_core/views.py:188-189 | an identifier over 10 characters keeps characters 1 to 9; a shorter one is kept whole |
| SuccessCenterCore.TruncateIdempotent | success_center_core/views.py:188-189 | a truncated identifier passes unchanged |
| SuccessCenterCore.Earliest | success_center_core/views.py:269-270 | the earliest open log by check-in, the first listed among ties |
| SuccessCenterCore.EarliestLog | success_center_core/views.py:272-285 | the walk keeps the earliest log |
| SuccessCenterCore.DropDuplicates | success_center_core/views.py:272-282 | the rows left are those that are not duplicates of the reference, in order |
| SuccessCenterCore.UsageTable.constructor | success_center_core/views.py:256-258 | the table starts empty |
| SuccessCenterCore.UsageTable.DeleteDuplicates | success_center_core/views.py:268-285 | every open log of the student within ten minutes after the earliest is deleted and nothing else |
| SuccessCenterCore.UsageTable.OpenUsage | success_center_core/views.py:256-297 | no open log gives none, one gives it, several are deduplicated and looked up again |
| SuccessCenterCore.UsageTable.CheckIn | success_center_core/views.py:304-330 | a student with an open log is refused; without a location nothing is logged; otherwise one open log at that site is added |
| SuccessCenterCore.UsageTable.StudentCheckout | success_center_core/views.py:215-225 | exactly the open log gets now as its check-out and every other log is unchanged; DoesNotExist and MultipleObjectsReturned leave the table alone |
| SuccessCenterCore.UsageTable.CheckOut | success_center_core/views.py:331-350 | no open log reports already checked out and changes nothing; one is closed with now as its check-out and every other log is unchanged; several raise MultipleObjectsReturned |
| SuccessCenterCore.UsageTable.StudentApprove | success_center_core/views.py:811-823 | the log with the id is approved and nothing else of any log changes; an unknown id raises DoesNotExist and changes nothing |
| SuccessCenterCore.UsageTable.StudentApproveAjax | success_center_core/views.py:828-849 | the log's approval becomes whether check_value is 'true' and nothing else changes; a missing or unknown id raises DoesNotExist and changes nothing |
| SuccessCenterCore.UsageTable.StudentApproveAll | success_center_core/views.py:854-860 | exactly the logs whose ids were submitted are approved, nothing else changes |
| SuccessCenterCore.DeduplicatedLeavesEarliest | success_center_core/views.py:268-288 | when every open log is within ten minutes of the earliest, exactly the earliest stays open |
| SuccessCenterCore.DeduplicatedCanLeaveSeveral | success_center_core/views.py:268-288 | an open log more than ten minutes after the earliest survives, so the second lookup raises MultipleObjectsReturned |
| SuccessCenterCore.TwoOpenLogs | success_center_core/views.py:258-268 | two different open logs of the student make the lookup raise MultipleObjectsReturned |
| Decorators.FlattenMembers | cae_home/decorators.py:56-63 | a group is required exactly when some argument names it directly or lists it |
| Decorators.ValidateGroup | cae_home/decorators.py:74-90 | a Group model is used as is; a name is stripped and looked up, and an unknown one raises DoesNotExist |
| Decorators.ValidateAllSpec | cae_home/decorators.py:55-63 | validation succeeds exactly when every group does, and then yields each group in place |
| Decorators.RequiredGroupSet | cae_home/decorators.py:55-63 | the loop builds the validated flattened groups, or stops with the first failure |
| Decorators.ValidateEach | cae_home/decorators.py:59-60 | the inner loop appends each validated group of one list argument |
| Decorators.GroupRequired | cae_home/decorators.py:45-69 | an unauthenticated user is sent to log in; an unknown group raises; then superusers and members of a required group reach the view, and everyone else gets PermissionDenied |
| Decorators.SharesGroupOf | cae_home/decorators.py:66 | true exactly when the user holds some required group |
| Decorators.ListIsFlattened | cae_home/decorators.py:57-60 | a list argument requires the same groups as passing its members one by one |
| Decorators.UnknownGroupBeatsSuperuser | cae_home/decorators.py:55-66 | an unknown group name refuses even a superuser |
| EmailUtils.Sender | cae_tools/utils.py:21-25 | a non-empty sender string is used; otherwise DEFAULT_FROM_EMAIL, unless that is blank or Django's default, which raises ValueError |
| EmailUtils.SubjectAndMessage | cae_tools/utils.py:36-49 | a non-string subject or body raises ValueError and an empty one TypeError |
| EmailUtils.SingleEmail | cae_tools/utils.py:12-60 | sender, recipient, subject and body are checked in that order, and the message sent goes to the one recipient |
| EmailUtils.Strings | cae_tools/utils.py:85-89 | a list passes only when every element is a non-empty string |
| EmailUtils.MassRecipients | cae_tools/utils.py:85-100 | a list or tuple must hold only non-empty strings, a non-empty string becomes a one-element list, an empty one raises ValueError, anything else TypeError |
| EmailUtils.MassEmail | cae_tools/utils.py:63-127 | sender, recipients, subject and body are checked in that order |
| EmailUtils.MassOfOneIsSingle | cae_tools/utils.py:12-127 | a single recipient given to the mass helper sends the same message as the single helper |
| EmailUtils.MassToListKeepsAddresses | cae_tools/utils.py:85-123 | a list of recipient strings is sent to exactly those addresses |
| EmailUtils.SecondItem | cae_tools/utils.py:188 | the address of one ADMINS entry, or the error indexing raises |
| EmailUtils.AdminAddresses | cae_tools/utils.py:185-192 | the admins' addresses in order, stopping with ValueError at the first entry without a non-empty address |
| EmailUtils.TestMassEmailRecipients | cae_tools/utils.py:168-195 | development URLs must be on, the default sender usable and ADMINS a non-empty list of entries with addresses |
| EmailUtils.TestSingleEmailRecipient | cae_tools/utils.py:130-165 | development URLs must be on and the default sender usable; it is also the recipient |
| EmailUtils.AdminPairsGiveAddresses | cae_tools/utils.py:185-192 | well-formed name and address pairs give their addresses in order |
| EmailUtils.TestSingleMeetsSingle | cae_tools/utils.py:130-161 | whenever the test helper accepts the settings, the single helper sends from and to that default sender for any non-empty subject and body |
| SeedOutput.DisplaySeedOutput | cae_home/management/utils.py:21-42 | no failures prints only the populated line; all failing raises ValidationError; at least half failing adds an error line, fewer a warning line |
| SeedOutput.SeverityMonotone | cae_home/management/utils.py:26-40 | among partial failures of the same run size, more failures never give a milder report |
| SeedOutput.ThresholdExamples | cae_home/management/utils.py:31-40 | one failure out of three or more is only a warning, and one short of all is an error |
| Select2.MatchCustom | cae_home/static/cae_home/js/select2.js:11-34 | a blank term keeps every option; an option without text is hidden; otherwise it is kept exactly when the untrimmed term occurs in its text or its id |
| Select2.TextMatchShows | cae_home/static/cae_home/js/select2.js:23-25 | a term occurring in the option's text always shows it, whatever its id |
| Select2.CaseSensitive | cae_home/static/cae_home/js/select2.js:23-29 | matching is case-sensitive: an upper-case term does not find its lower-case spelling |
| Select2.KeptOptionsContainTerm | cae_home/static/cae_home/js/select2.js:11-34 | every option kept for a non-blank term contains the term in its text or its id |
| StatusMessages.StatusArea.constructor | cae_home/static/cae_home/js/status_messages.js:74 | the page starts with the given containers |
| StatusMessages.StatusArea.GenerateStatusMessage | cae_home/static/cae_home/js/status_messages.js:55-88 | corrected: an unknown type returns the error string and changes nothing; a known type adds the new item to every container and returns nothing |
| StatusMessages.StatusArea.AppendToEach | cae_home/static/cae_home/js/status_messages.js:82-87 | every container gains its own copy of the item at its end and keeps what it held |
| StatusMessages.AppendMovedAsWritten | cae_home/static/cae_home/js/status_messages.js:82-87 | appending the one element in turn moves it, so only the last container keeps it |
| StatusMessages.FirstContainerMissesMessage | cae_home/static/cae_home/js/status_messages.js:82-87 | with two containers, the first never shows the new message |
| StatusMessages.PaddedTypeAccepted | cae_home/static/cae_home/js/status_messages.js:60-71 | a known type is accepted under surrounding white space and any upper case |
| StatusMessages.TypesAreTrimmedLowerCase | cae_home/static/cae_home/js/status_messages.js:61-69 | each accepted type is a non-empty run of lower-case letters |
| StatusMessages.TrimAround | cae_home/static/cae_home/js/status_messages.js:60 | trimming removes exactly the white space around a text whose ends are not white space |
| PageTabbing.Step | cae_home/static/cae_home/js/page_tabbing.js:66-96 | one pass files a kept child under All and under the header in force, which an H2 changes first |
| PageTabbing.Run | cae_home/static/cae_home/js/page_tabbing.js:61-97 | the loop over the children in document order |
| PageTabbing.OrderingListsHeaders | cae_home/static/cae_home/js/page_tabbing.js:77-89 | the ordering lists every tab-opening header in document order, a repeated header once per occurrence |
| PageTabbing.CurrentIsLatestHeader | cae_home/static/cae_home/js/page_tabbing.js:62-89 | the header being filled is always the most recent H2's, or Other before any |
| PageTabbing.AllCollectsKept | cae_home/static/cae_home/js/page_tabbing.js:71-93 | unless a header is itself called All, the All list gains every non-blank child, in document order |
| PageTabbing.ChildStaysUnderHeader | cae_home/static/cae_home/js/page_tabbing.js:84-95 | a kept child stays under the header in force when it was read, as long as no later header of that name clears it |
| PageTabbing.StepFilesUnderCurrent | cae_home/static/cae_home/js/page_tabbing.js:93-95 | a kept node is filed under the header in force after it |
| PageTabbing.StepKeepsListed | cae_home/static/cae_home/js/page_tabbing.js:84-95 | a step keeps every filing except under the header it clears |
| PageTabbing.StepFilesOnlyItsNode | cae_home/static/cae_home/js/page_tabbing.js:71-95 | a step files nothing but the node it reads, and that only when it is kept |
| PageTabbing.OnlyKeptChildrenListed | cae_home/static/cae_home/js/page_tabbing.js:42-97 | from the reset state, every listed node is a non-blank child |
| PageTabbing.WithoutFirstOther | cae_home/static/cae_home/js/page_tabbing.js:113-119 | the gate counts the ordering without its first Other |
| PageTabbing.TabGateMeansTwoNames | cae_home/static/cae_home/js/page_tabbing.js:111-126 | the corrected gate opens exactly when two different header names other than Other are listed |
| PageTabbing.RepeatedHeaderOpensTabs | cae_home/static/cae_home/js/page_tabbing.js:84-85 | two H2s of one name open tabs as written, though there is one name, and the first section is cleared from its tab |
| PageTabbing.StepHeader | cae_home/static/cae_home/js/page_tabbing.js:77-85 | a tab-opening header clears its own list and files itself there alone |
| PageTabbing.StepPlain | cae_home/static/cae_home/js/page_tabbing.js:93-95 | any other kept node is appended under the header in force |
| PageTabbing.GatesAgreeWithoutRepeats | cae_home/static/cae_home/js/page_tabbing.js:111-126 | the corrected gate agrees with the written one whenever no header name repeats and Other appears at most once |
| PageTabbing.PageTabs.constructor | cae_home/static/cae_home/js/page_tabbing.js:42-46 | the reset before each container: All and Other are empty and the ordering is empty |
| PageTabbing.PageTabs.PopulatePageTabVariables | cae_home/static/cae_home/js/page_tabbing.js:61-103 | the loop leaves the lists and ordering as the pure run says, with Other listed at the end when anything was filed under it |
| PageTabbing.PageTabs.FileChildren | cae_home/static/cae_home/js/page_tabbing.js:62-97 | after the loop over the children, the lists and ordering are those of the pure run from the reset state |
| PageTabbing.PageTabs.FileChild | cae_home/static/cae_home/js/page_tabbing.js:68-95 | one pass of the loop changes the state as one step says |
| PageTabbing.PageTabs.GeneratePageTabs | cae_home/static/cae_home/js/page_tabbing.js:109-126 | corrected: tabs are generated exactly when two different header names besides Other are listed |
| PageTabbing.SlugifyText | cae_home/static/cae_home/js/page_tabbing.js:280-282 | every space becomes a dash and every other character is lower-cased, so no space is left and the length is kept |
| PageTabbing.SlugifyIdempotent | cae_home/static/cae_home/js/page_tabbing.js:280-282 | a slug is its own slug |

## Left out

- Database and directory access: queries, saves and LDAP searches are modelled as input tables, maps and functions, so connection errors, transactions and concurrent writers are not modelled.
- Sessions, Django messages, redirects and template rendering: the views are modelled up to the values they hand to these layers.
- The directory lookup in the timesheet `Index.dispatch` is left out because it is only network I/O. Its outcome enters the model as an input.
- The create, edit and delete views that only pass a form to the ORM (the admin panels, `student_add`, `student_delete` and similar) are left out. They hold no logic of their own beyond the form checks that are modelled.
- Sending e-mail and writing log records are left out. The e-mail helpers are modelled up to the message they build and the logging set-up up to the configuration it produces.
- Directory creation and the `dictConfig` call in the logging set-up are file-system and library I/O.
- `close_old_db_connections` only closes connections, so it has no observable result to model.
- DOM element identity: clones made by the front-end scripts are modelled as values.
- The colours and styles the jQuery scripts set are left out because they carry no logic.
- Time zones: `localize` and `pytz` conversions are taken as a fixed local time.
- Elapsed times are whole seconds, so floating-point rounding of hours is not modelled.
- Lower-casing in JavaScript `toLowerCase` and Python `lower()` is modelled for ASCII letters only.
- The rendering of a non-string `status_type` through `String(...)` is left out; the type arrives as a string.
- The formatted values inside `ValueError` messages are left out; the model keeps the error kind and its fixed text.
- Page tabbing's `page_tabbable_topics` test on an element's inner HTML is modelled as a flag on the element, not as a substring search.
- Decorators.GroupRequired: nested group lists are flattened one level, as the source does; deeper nesting is not modelled.
- The `<br>` replacement in the test helpers' response-content cleaning is left out because it is a plain text substitution with no checked property.
- BaseAuth.Authenticate: models the path where the Django user's password is checked. The workspace setting `AUTH_BACKEND_USE_DJANGO_USER_PASSWORDS = False`, which checks the password against the directory on every login, is left out because it is a directory bind, which is I/O.
- The template tags `render_model_docstring`, `site_mode_is_debug`, `has_group` and `define` are left out. They only read settings or docstrings, or return their argument.
- `_create_new_user_from_ldap` is left out because it is outside the modelled core.
- `handle_grad_apps_membership` and the creation of a `SuccessCtrProfile` during the user comparison are left out. Both are optional extras for other applications.
- The directory searches inside `get_student_major` are I/O. Their results enter as inputs.
- `_update_user_phone_fields` is left out because it only copies a directory field.
- The `last_ldap_check` stamp written by `_update_wmu_user_model` is a clock value, so the model does not keep it.
- AddMissing, AddMissingKeeps: proved about the corrected lookup; as written the log line before the first create raises FieldError (AdvBackend.CreateReturnedAsWritten), so the source never adds a relation.
- InactiveUserDropsMajors: proved about the corrected lookup; as written line 108 raises FieldError for an inactive user and nothing is switched off (AdvBackend.AddOrUpdateAlwaysRaises).
- SyncedKeepsHistory: proved about the corrected synchronisation; as written add_or_update_major raises FieldError before changing any relation.
- UnknownMajorToggles: proved about the corrected lookup; as written the lone-Unknown path raises FieldError at line 141.
- DeactivateOthers: the corrected deactivation; as written the loop at line 158 raises FieldError, so no relation is stopped.
- SyncedActiveMajors: proved about the corrected synchronisation; as written add_or_update_major raises FieldError on every input.
- DeactivateUnhandled (AdvBackend.MajorRelations): the corrected loop; as written its filter at line 158 raises FieldError.
- AddMissingMajors (AdvBackend.MajorRelations): the corrected loop; as written the log line at 130 raises FieldError before any create.
- HasAnyActive (AdvBackend.MajorRelations): the corrected test; as written `major.filter(is_active=True)` at line 141 raises FieldError.
- AddOrUpdateMajor (AdvBackend.MajorRelations): the corrected synchronisation; as written the source raises FieldError on every input (AdvBackend.AddOrUpdateAlwaysRaises).
- Text.IsSpace, Text.IsRegexSpace: ASCII whitespace only; Python's `strip()`, `split()` and the regular expression `\s` also match `\x1c`-`\x1f`, `\x85`, `\xa0`, `\u2000`-`\u200a`, `\u3000` and other Unicode spaces, which the model does not treat as whitespace.
- Slug.KeepWords, Slug.Slugify: ASCII word characters only; Python 3's `\w` also keeps non-ASCII letters and digits, which the model drops.
- Text.Upper: ASCII letters only, as for lower-casing.
- BaseAuth.Authenticate, SettingsBackends.Authenticate: the lookup of a user by email is modelled as found or not found; the MultipleObjectsReturned that `.get(email=...)` raises when two users share an address is left out.
- TimesheetViews.ValidateForms: posted values arrive as numbers; the ValueError that `int(...)` raises on non-numeric posted data is left out.
- TimesheetViews.PayPeriodTable.Populate: creating a period never fails in the model; the database's unique-constraint errors are left out.
- SettingsWmuAuth.UpdateOrCreateWmuUserModel: the home phone is kept as read; the parse errors of `PhoneNumber.from_string` are left out.
- PageTabbing.PageTabs.PopulatePageTabVariables: every H2 is taken to have a text first child; the TypeError on an empty H2 (`firstChild` null) and the null name of a non-text first child (page_tabbing.js:78) are left out.
- StatusMessages.StatusArea.GenerateStatusMessage: the message is kept as text; that the script inserts it as HTML (status_messages.js:78), so markup in it is interpreted, is left out.
- SuccessCenterCore.StepGroupMap.FilterStudentsByLocation: the map is an object of one request; that `STEP_GROUP_MAP` is a module-level list every request mutates, so threaded requests interleave their changes, is left out.
- TemplateTags.DictKey: the TypeError's text carries the type name only; the source's message also renders the value and `type(...)` of it.
- EmailUtils.SecondItem: there is no dict value in the model; a dict entry of `ADMINS` would raise KeyError in Python (or give the value under key 1), and the model has only non-subscriptable other values.

## Findings

| source | as written | input that shows it | evidently intended | confidence | as-written member | corrected member |
|---|---|---|---|---|---|---|
| success_center_timesheets/static/success_center_timesheets/js/dist/success_center_timesheets.js:17-22 | when the delete is cancelled, the handler indexes `delete_box[i]` with an `i` that was never declared, so it throws a ReferenceError; moreover, in this bundle module 2 assigns `window.onload` again (line 34), replacing module 1's handler (line 4), and module 1's onload would throw ReferenceError at its strict-mode assignment to the undeclared `delete_box` (line 5) before attaching anything, so the page submits a delete with no dialog at all | one box checked, then Cancel in the confirm dialog | a cancelled delete clears the delete boxes and submits nothing | not executed | TimesheetDist.ConfirmDelete | TimesheetDist.ConfirmDeleteFixed |
| success_center_timesheets/models.py:250-257 | the `except` clause names `TimesheetShift.signature.RelatedObjectDoesNotExist`, an attribute that the field's descriptor does not have, so evaluating it raises AttributeError | a shift with an empty signature inside its pay period | an unsigned shift fails validation with the signature message | not executed | TimesheetModels.UnsignedShiftRaisesAttributeError | TimesheetModels.CleanShift |
| success_center_timesheets/models.py:273-281 | with no argument, `get_time_worked_as_hms` calls `math.trunc` on a `timedelta`, which raises TypeError | any shift, method called with no argument | the shift's own length split into hours, minutes and seconds | not executed | TimesheetModels.TimeWorkedDefaultAsWritten | TimesheetModels.TimeWorkedDefault |
| success_center_timesheets/views.py:1035-1043 | the fallback is written `1 if None else POST.get('signature')`; `None` is false, so it always takes the posted signature, which is blank on this path (the same code is at lines 1139-1147) | a new morning shift posted with a blank signature, no signature stored for that day | the fallback stores the default signature `1`, so the new shift is signed | not executed | TimesheetShiftData.FallbackAsWrittenIsBlank | TimesheetShiftData.NewSignature |
| success_center_timesheets/views.py:1184-1187 | an evening begin of 12:00 am or 12:30 am (presets 37 and 38) is dated on the shift's own day rather than the day after, so it falls before the evening window | day d, evening begin preset 37 | the begin instant lies inside the evening window of day d | not executed | TimesheetShiftData.MidnightEveningBeginAsWritten | TimesheetShiftData.EveningBeginInWindow |
| workspace/ldap_backends/wmu_auth/adv_backend.py:426-446 | the dropped major is fetched with `.get` on the user and major, which raises MultipleObjectsReturned once the student has an old inactive link and a current one; the save then runs `clean`, which overwrites the given stop date with now | links `cs` inactive and `cs` active, `cs` dropped | the active link of a dropped major is stopped on the computed date (last login, last change or now); this code is reached only once the lookup of the next row is corrected | not executed | AdvBackend.ReturnedMajorCannotBeDropped, AdvBackend.DeactivationDateIgnored | AdvBackend.DeactivateOthers, AdvBackend.SyncedActiveMajors |
| settings/ldap_backends/wmu_auth/wmu_backend.py:300-328 | setting the active fields first gets the login User by username (lines 300, 319), which raises DoesNotExist for a user without one; the WMU user is then filtered by `bronconet=`, but the field is `bronco_net`, so the lookup raises FieldError (lines 301, 320); and the writes that follow go to `.active` (lines 304-305, 323-324), which neither model has, their field being `is_active` | any user, with active fields to be set | the user's WMU record is found by its Bronco NET id and its active flags updated | not executed | SettingsWmuBackend.VerifyUserLdapStatusAsWritten, SettingsWmuBackend.MissingUserNeverDeactivated | SettingsWmuBackend.VerifyUserLdapStatus |
| cae_home/static/cae_home/js/page_tabbing.js:84-85 | every H2 appends its name to the tab order, even a name already seen, so a repeated heading makes two tabs for one section and discards the first section's content (the gate at lines 113-126 counts names, not distinct names) | H2 "Intro", a paragraph, H2 "Intro", a paragraph | one tab per distinct heading, generated only when there are at least two distinct headings | not executed | PageTabbing.RepeatedHeaderOpensTabs | PageTabbing.TabGateMeansTwoNames |
| cae_home/static/cae_home/js/status_messages.js:82-87 | one element is appended to every matched container, and jQuery moves rather than copies it, so only the last container keeps the message | two status containers on one page | every container shows the new message | not executed | StatusMessages.FirstContainerMissesMessage | StatusMessages.StatusArea.AppendToEach |
| workspace/ldap_backends/wmu_auth/adv_backend.py:108-158 | `wmu_user.major.filter(is_active=True)` (lines 108, 130, 141, 154, 158) filters the Major model, which has `active` and no `is_active`, so every call raises FieldError before any relation is added or switched off | any WmuUser, any returned majors | the filter goes through the relation rows (`wmuusermajorrelationship__is_active=True`), so the user's majors are synchronised with the directory | not executed | AdvBackend.AddOrUpdateAlwaysRaises | AdvBackend.AddOrUpdateIntended, AdvBackend.MajorRelations.AddOrUpdateMajor |
| settings/ldap_backends/wmu_auth.py:357-367 | a new WmuUser needs `Major.objects.get(slug='unk')`, which raises DoesNotExist when that major is absent, and is then created with `major=major`; `major` is a many-to-many field with its own relation model, which `create` refuses with TypeError | a uid with no stored WmuUser and a winno | the WmuUser is created with the directory's fields and then given the Unknown major through the relation model | not executed | SettingsWmuAuth.NewUserNeverCreated | SettingsWmuAuth.UpdateOrCreateWmuUserModel |
