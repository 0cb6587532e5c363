/** The university models: a major's display string and a semester's name and date check. */
module WmuModels {
  import opened Wrappers
  import opened Text

  /** `Major.__str__`: "code - name". */
  function MajorLabel(code: string, name: string): (r: string)
    ensures |r| == |code| + 3 + |name|
    ensures r[..|code|] == code && r[|code|..|code| + 3] == " - " && r[|code| + 3..] == name
  {
    code + " - " + name
  }

  /** For codes without spaces the label tells the code and the name apart. */
  lemma MajorLabelInjective(c1: string, n1: string, c2: string, n2: string)
    requires ' ' !in c1 && ' ' !in c2
    requires MajorLabel(c1, n1) == MajorLabel(c2, n2)
    ensures c1 == c2 && n1 == n2
  {
    AppendAssoc(c1, " - ", n1);
    AppendAssoc(c2, " - ", n2);
    FirstSpaceSplit(c1, " - " + n1, c2, " - " + n2);
    assert n1 == (" - " + n1)[3..];
  }

  /**
   * Two strings `a + x == b + y` where `a` and `b` have no character `stop`
   * holds and `x` and `y` start with one: the split points agree.
   */
  lemma SplitAtFirst(a: string, x: string, b: string, y: string, stop: char -> bool)
    requires forall i :: 0 <= i < |a| ==> !stop(a[i])
    requires forall i :: 0 <= i < |b| ==> !stop(b[i])
    requires x != [] && y != [] && stop(x[0]) && stop(y[0])
    requires a + x == b + y
    ensures a == b && x == y
  {
    assert a == (a + x)[..|a|];
    assert b == (b + y)[..|b|];
    assert x == (a + x)[|a|..];
    assert y == (b + y)[|b|..];
  }

  predicate IsDigit(c: char) {
    '0' <= c <= '9'
  }

  lemma FirstSpaceSplit(c1: string, x: string, c2: string, y: string)
    requires ' ' !in c1 && ' ' !in c2
    requires x != [] && y != [] && x[0] == ' ' && y[0] == ' '
    requires c1 + x == c2 + y
    ensures c1 == c2 && x == y
  {
    SplitAtFirst(c1, x, c2, y, c => c == ' ');
  }

  /** A calendar date; Python compares dates chronologically. */
  datatype Date = Date(year: nat, month: nat, day: nat)

  predicate Before(a: Date, b: Date) {
    a.year < b.year
    || (a.year == b.year && (a.month < b.month || (a.month == b.month && a.day < b.day)))
  }

  /** The season a semester starting in `month` belongs to. */
  function Season(month: nat): (r: string)
    ensures r in ["Spring_", "Summer_I_", "Summer_II_", "Fall_"]
  {
    if month < 4 then "Spring_"
    else if month < 6 then "Summer_I_"
    else if month < 8 then "Summer_II_"
    else "Fall_"
  }

  /** The name a new semester gets: its season, then the year it ends in. */
  function SemesterName(start: Date, end: Date): (r: string)
    ensures var season := Season(start.month);
      season < r && |r| > |season|
      && forall i :: |season| <= i < |r| ==> IsDigit(r[i])
  {
    Season(start.month) + Decimal(end.year)
  }

  /** Later start months never give an earlier season. */
  lemma SeasonFollowsMonth(m1: nat, m2: nat)
    requires m1 <= m2
    ensures SeasonRank(Season(m1)) <= SeasonRank(Season(m2))
  {
  }

  function SeasonRank(season: string): nat {
    if season == "Spring_" then 0
    else if season == "Summer_I_" then 1
    else if season == "Summer_II_" then 2
    else 3
  }

  lemma {:induction false} DecimalInjective(a: nat, b: nat)
    requires Decimal(a) == Decimal(b)
    ensures a == b
  {
    if a >= 10 && b >= 10 {
      var da := Decimal(a);
      assert da == Decimal(a / 10) + [DigitChar(a % 10)];
      assert Decimal(b) == Decimal(b / 10) + [DigitChar(b % 10)];
      assert Decimal(a / 10) == da[..|da| - 1];
      assert Decimal(b / 10) == da[..|da| - 1];
      DecimalInjective(a / 10, b / 10);
    }
  }

  /** A semester name gives back its season and its end year. */
  lemma SemesterNameInjective(s1: Date, e1: Date, s2: Date, e2: Date)
    requires SemesterName(s1, e1) == SemesterName(s2, e2)
    ensures Season(s1.month) == Season(s2.month) && e1.year == e2.year
  {
    // Seasons contain no digit and years are all digits, so the first digit marks the split.
    SplitAtFirst(Season(s1.month), Decimal(e1.year), Season(s2.month), Decimal(e2.year), IsDigit);
    DecimalInjective(e1.year, e2.year);
  }

  const DateOrderMessage := "Start date must be before end date."

  /** A semester's dates and name; `saved` says the row has a primary key already. */
  class SemesterDate {
    var name: Option<string>
    var startDate: Option<Date>
    var endDate: Option<Date>
    var saved: bool

    constructor (startDate: Option<Date>, endDate: Option<Date>)
      ensures this.startDate == startDate && this.endDate == endDate
      ensures name.None? && !saved
    {
      this.startDate := startDate;
      this.endDate := endDate;
      name := None;
      saved := false;
    }

    /**
     * `SemesterDate.clean`: with both dates present, a new semester is named
     * after its season and end year, and a start not before the end is refused.
     */
    method Clean() returns (r: Result<()>)
      modifies this`name
      ensures startDate.None? || endDate.None? ==> r == Ok(()) && name == old(name)
      ensures startDate.Some? && endDate.Some? ==>
                name == (if saved then old(name) else Some(SemesterName(startDate.value, endDate.value)))
                && (r.Ok? <==> Before(startDate.value, endDate.value))
                && (r.Err? ==> r.error == ValidationError(DateOrderMessage))
    {
      if startDate.Some? && endDate.Some? {
        if !saved {
          name := Some(SemesterName(startDate.value, endDate.value));
        }
        if !Before(startDate.value, endDate.value) {
          return Err(ValidationError(DateOrderMessage));
        }
      }
      r := Ok(());
    }
  }
}
