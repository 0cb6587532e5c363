/** The report a seeding command prints once it has generated a model's instances. */
module SeedOutput {
  import opened Wrappers
  import Text

  /** One line written to the command's output, with its style. */
  datatype Line = ErrorLine(text: string) | WarningLine(text: string) | PlainLine(text: string)

  /** An integer as Python's `format` prints it. */
  function IntText(n: int): string {
    if n < 0 then "-" + Text.Decimal(-n) else Text.Decimal(n)
  }

  function FailedText(modelName: string, modelCount: int, failCount: int): string {
    "Failed to generate " + IntText(failCount) + "/" + IntText(modelCount) + " " + modelName + " seed instances."
  }

  function PopulatedText(modelName: string): string {
    "Populated " + modelName + " models.\n"
  }

  /**
   * `display_seed_output`: no failures prints only the populated line; all
   * failing raises ValidationError; at least half failing (true division)
   * adds an error line, fewer a warning line.
   */
  function DisplaySeedOutput(modelName: string, modelCount: int, failCount: int): (r: Result<seq<Line>>)
    ensures failCount <= 0 ==> r == Ok([PlainLine(PopulatedText(modelName))])
    ensures r.Err? <==> failCount > 0 && failCount == modelCount
    ensures r.Err? ==> r.error.ValidationError?
    ensures r.Ok? && failCount > 0 ==> |r.value| == 2 && r.value[1] == PlainLine(PopulatedText(modelName))
    ensures r.Ok? && failCount > 0 ==> (r.value[0].ErrorLine? <==> 2 * failCount >= modelCount)
    ensures r.Ok? && failCount > 0 ==> (r.value[0].WarningLine? <==> 2 * failCount < modelCount)
    ensures r.Ok? && failCount > 0 ==> r.value[0].text == FailedText(modelName, modelCount, failCount)
  {
    var populated := PlainLine(PopulatedText(modelName));
    if failCount > 0 then
      if failCount == modelCount then Err(ValidationError("Failed to generate any " + modelName + " seed instances."))
      else if 2 * failCount >= modelCount then Ok([ErrorLine(FailedText(modelName, modelCount, failCount)), populated])
      else Ok([WarningLine(FailedText(modelName, modelCount, failCount)), populated])
    else Ok([populated])
  }

  /** How bad a report is: 0 clean, 1 warning, 2 error, 3 raised. */
  function Severity(r: Result<seq<Line>>): nat {
    if r.Err? then 3
    else if exists l :: l in r.value && l.ErrorLine? then 2
    else if exists l :: l in r.value && l.WarningLine? then 1
    else 0
  }

  /** Among partial failures of the same run size, more failures never give a milder report. */
  lemma SeverityMonotone(modelName: string, modelCount: int, fewer: int, more: int)
    requires fewer <= more < modelCount
    ensures Severity(DisplaySeedOutput(modelName, modelCount, fewer)) <= Severity(DisplaySeedOutput(modelName, modelCount, more))
  {
    var a, b := DisplaySeedOutput(modelName, modelCount, fewer), DisplaySeedOutput(modelName, modelCount, more);
    if fewer > 0 {
      assert a.value[0] in a.value && a.value[1] in a.value;
      assert forall l :: l in a.value ==> l == a.value[0] || l == a.value[1];
    }
    if more > 0 {
      assert b.value[0] in b.value;
      assert forall l :: l in b.value ==> l == b.value[0] || l == b.value[1];
    }
  }

  /** With a positive run size, exactly one failure out of three or more is only a warning, and the last one short of all an error. */
  lemma ThresholdExamples(modelName: string, modelCount: int)
    requires modelCount >= 3
    ensures DisplaySeedOutput(modelName, modelCount, 1).value[0].WarningLine?
    ensures DisplaySeedOutput(modelName, modelCount, modelCount - 1).value[0].ErrorLine?
  {
  }
}
