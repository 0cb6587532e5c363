/**
 * The site's template tags and filters: elapsed-time text, dictionary access
 * from templates, type tests and a one-based range.
 */
module TemplateTags {
  import opened Wrappers
  import opened Text

  // ---------------------------------------------------------------------
  // datetime_as_time_passed
  // ---------------------------------------------------------------------

  /** Python's `int(x)` on a float: truncation toward zero. */
  function Trunc(x: real): (r: int)
    ensures 0.0 <= x ==> r as real <= x < r as real + 1.0
    ensures x < 0.0 ==> r as real - 1.0 < x <= r as real
  {
    if x >= 0.0 then x.Floor else -((-x).Floor)
  }

  /** `int(a / d)`: true division, then truncation toward zero. */
  function TruncDiv(a: int, d: int): (r: int)
    requires d > 0
    ensures a >= 0 ==> 0 <= r && r * d <= a < (r + 1) * d
    ensures a < 0 ==> r <= 0 && (r - 1) * d < a <= r * d
  {
    if a >= 0 then
      QuotientBounds(a, d);
      a / d
    else
      QuotientBounds(-a, d);
      -((-a) / d)
  }

  /** Floor division of a non-negative number: the quotient's multiple is at most it, the next one above it. */
  lemma QuotientBounds(n: nat, d: int)
    requires d > 0
    ensures 0 <= n / d && (n / d) * d <= n < (n / d + 1) * d
    ensures (-(n / d)) * d == -((n / d) * d) && (-(n / d) - 1) * d == -((n / d) * d) - d
  {
    var q, m := n / d, n % d;
    assert n == q * d + m && 0 <= m < d;
    assert (q + 1) * d == q * d + d;
    assert (-q) * d == -(q * d);
    assert (-q - 1) * d == -(q * d) - d;
  }

  /** The totals and the displayed remainders of an elapsed time. */
  datatype Elapsed = Elapsed(totalSeconds: int, totalMinutes: int, totalHours: int, days: int, hours: int, minutes: int, seconds: int)

  /** Seconds, minutes, hours and days by truncating division; the display keeps totals modulo 24, 60 and 60. */
  function ElapsedTime(passed: real): (e: Elapsed)
    ensures 0 <= e.hours < 24 && 0 <= e.minutes < 60 && 0 <= e.seconds < 60
    ensures e.totalSeconds == Trunc(passed)
  {
    var s := Trunc(passed);
    var m := TruncDiv(s, 60);
    var h := TruncDiv(m, 60);
    var d := TruncDiv(h, 24);
    Elapsed(s, m, h, d, h % 24, m % 60, s % 60)
  }

  /** For a time in the past the displayed parts add back up to the whole seconds that passed. */
  lemma ElapsedDecomposes(passed: real)
    requires passed >= 0.0
    ensures var e := ElapsedTime(passed);
            e.days >= 0 && e.totalSeconds == ((e.days * 24 + e.hours) * 60 + e.minutes) * 60 + e.seconds
  {
    var e := ElapsedTime(passed);
    var s, m, h := e.totalSeconds, e.totalMinutes, e.totalHours;
    assert s == m * 60 + e.seconds;
    assert m == h * 60 + e.minutes;
    assert h == e.days * 24 + e.hours;
  }

  /** `'{0} Days '` when any whole day passed, otherwise nothing. */
  function DaysText(days: int): (r: string)
    ensures days > 0 ==> r == Decimal(days) + " Days "
    ensures days <= 0 ==> r == ""
  {
    if days > 0 then Decimal(days) + " Days " else ""
  }

  /** `' {0} Seconds'` when seconds are displayed, otherwise nothing. */
  function SecondsText(seconds: nat, display: bool): string {
    if display then " " + Decimal(seconds) + " Seconds" else ""
  }

  /** `datetime_as_time_passed`: `value` and `now` are the two timestamps in seconds. */
  function DatetimeAsTimePassed(value: real, now: real, displaySeconds: bool): string {
    var e := ElapsedTime(now - value);
    DaysText(e.days) + Decimal(e.hours) + " Hours " + Decimal(e.minutes) + " Minutes" + SecondsText(e.seconds, displaySeconds)
  }

  lemma DigitsLack(c: char, n: nat)
    requires !('0' <= c <= '9')
    ensures c !in Decimal(n)
  {
  }

  lemma ConcatLacks(c: char, a: string, b: string)
    requires c !in a && c !in b
    ensures c !in a + b
  {
  }

  /** The text mentions days exactly when a whole day has passed. */
  lemma DaysShownIffDayPassed(value: real, now: real, displaySeconds: bool)
    ensures 'D' in DatetimeAsTimePassed(value, now, displaySeconds) <==> ElapsedTime(now - value).days > 0
  {
    var e := ElapsedTime(now - value);
    var rest := Decimal(e.hours) + " Hours " + Decimal(e.minutes) + " Minutes" + SecondsText(e.seconds, displaySeconds);
    assert 'D' !in rest by {
      DigitsLack('D', e.hours);
      DigitsLack('D', e.minutes);
      DigitsLack('D', e.seconds);
      assert 'D' !in " Hours ";
      assert 'D' !in " Minutes";
      assert 'D' !in " Seconds";
      ConcatLacks('D', Decimal(e.hours), " Hours ");
      ConcatLacks('D', Decimal(e.hours) + " Hours ", Decimal(e.minutes));
      ConcatLacks('D', Decimal(e.hours) + " Hours " + Decimal(e.minutes), " Minutes");
      if displaySeconds {
        ConcatLacks('D', " ", Decimal(e.seconds));
        ConcatLacks('D', " " + Decimal(e.seconds), " Seconds");
      }
      ConcatLacks('D', Decimal(e.hours) + " Hours " + Decimal(e.minutes) + " Minutes", SecondsText(e.seconds, displaySeconds));
    }
    if e.days > 0 {
      var d := Decimal(e.days) + " Days ";
      assert d[|Decimal(e.days)| + 1] == 'D';
      assert (d + rest)[|Decimal(e.days)| + 1] == 'D';
    } else {
      assert DaysText(e.days) + rest == rest;
    }
  }

  /** The text mentions seconds exactly when they are asked for. */
  lemma SecondsShownIffAsked(value: real, now: real, displaySeconds: bool)
    ensures 'S' in DatetimeAsTimePassed(value, now, displaySeconds) <==> displaySeconds
  {
    var e := ElapsedTime(now - value);
    var head := DaysText(e.days) + Decimal(e.hours) + " Hours " + Decimal(e.minutes) + " Minutes";
    assert 'S' !in head by {
      DigitsLack('S', e.hours);
      DigitsLack('S', e.minutes);
      assert 'S' !in " Days ";
      assert 'S' !in " Hours ";
      assert 'S' !in " Minutes";
      if e.days > 0 {
        DigitsLack('S', e.days);
        ConcatLacks('S', Decimal(e.days), " Days ");
      }
      ConcatLacks('S', DaysText(e.days), Decimal(e.hours));
      ConcatLacks('S', DaysText(e.days) + Decimal(e.hours), " Hours ");
      ConcatLacks('S', DaysText(e.days) + Decimal(e.hours) + " Hours ", Decimal(e.minutes));
      ConcatLacks('S', DaysText(e.days) + Decimal(e.hours) + " Hours " + Decimal(e.minutes), " Minutes");
    }
    var tail := SecondsText(e.seconds, displaySeconds);
    if displaySeconds {
      assert tail[|Decimal(e.seconds)| + 2] == 'S';
      assert (head + tail)[|head| + |Decimal(e.seconds)| + 2] == 'S';
    } else {
      assert head + tail == head;
    }
  }

  // ---------------------------------------------------------------------
  // Filters
  // ---------------------------------------------------------------------

  /** A template value, as far as the filters below look at it. */
  datatype TemplateValue =
    | Dict(entries: map<string, string>)
    | ListValue(items: seq<string>)
    | TupleValue(items: seq<string>)
    | Text(text: string)
    | NoneValue

  function TypeName(v: TemplateValue): string {
    match v
    case Dict(_) => "dict"
    case ListValue(_) => "list"
    case TupleValue(_) => "tuple"
    case Text(_) => "str"
    case NoneValue => "NoneType"
  }

  /** `dict_key`: the value under `key`, '' for a missing key, and a TypeError for anything but a dict. */
  function DictKey(dictionary: TemplateValue, key: string): (r: Result<string>)
    ensures r.Err? <==> !dictionary.Dict?
    ensures r.Err? ==> r.error.TypeError?
    ensures dictionary.Dict? && key in dictionary.entries ==> r == Ok(dictionary.entries[key])
    ensures dictionary.Dict? && key !in dictionary.entries ==> r == Ok("")
  {
    match dictionary
    case Dict(entries) => Ok(if key in entries then entries[key] else "")
    case _ => Err(TypeError("Template attempting to get dictionary value, but the value is type " + TypeName(dictionary) + ", not dict."))
  }

  /** `is_string`. */
  predicate IsString(v: TemplateValue) {
    v.Text?
  }

  /** `is_list`: lists and tuples. */
  function IsList(v: TemplateValue): (b: bool)
    ensures b <==> v.ListValue? || v.TupleValue?
    ensures b ==> !IsString(v) && DictKey(v, "").Err?
  {
    v.ListValue? || v.TupleValue?
  }

  /** `filter_range`: `range(1, n + 1)`. */
  function FilterRange(n: int): (r: seq<int>)
    ensures |r| == if n > 0 then n else 0
    ensures forall i :: 0 <= i < |r| ==> r[i] == i + 1
  {
    if n <= 0 then [] else FilterRange(n - 1) + [n]
  }

  /** The range holds exactly 1 to `n`, each once, in increasing order. */
  lemma FilterRangeMembers(n: int, x: int)
    ensures x in FilterRange(n) <==> 1 <= x <= n
    ensures forall i, j :: 0 <= i < j < |FilterRange(n)| ==> FilterRange(n)[i] < FilterRange(n)[j]
  {
    var r := FilterRange(n);
    if 1 <= x <= n {
      assert r[x - 1] == x;
    }
  }
}
