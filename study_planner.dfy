/** The study-planner tool that reports credits: every listed module is worth six
    credits, out of sixty for the programme. */
module StudyPlanner {
  const CreditsPerModule: int := 6
  const ProgrammeCredits: int := 60

  datatype Credits = Credits(taken: int, remaining: int)

  /** `extract_credits_taken_and_remaining` on the state's taken-module list. */
  function CreditsTakenAndRemaining(takenModules: seq<string>): (c: Credits)
    ensures c.taken + c.remaining == ProgrammeCredits
    ensures c.taken == CreditsPerModule * |takenModules|
  {
    var taken := |takenModules| * CreditsPerModule;
    Credits(taken, ProgrammeCredits - taken)
  }

  /** The remaining credits are not clamped: they are negative exactly when more than
      ten modules are listed, and zero at exactly ten. */
  lemma RemainingSign(takenModules: seq<string>)
    ensures CreditsTakenAndRemaining(takenModules).remaining < 0 <==> |takenModules| > 10
    ensures CreditsTakenAndRemaining(takenModules).remaining == 0 <==> |takenModules| == 10
  {
  }

  /** A module listed twice counts twice: the count is the list's length, not the
      number of distinct titles. */
  lemma DuplicatesCountTwice(takenModules: seq<string>, m: string)
    ensures CreditsTakenAndRemaining(takenModules + [m]).taken
         == CreditsTakenAndRemaining(takenModules).taken + CreditsPerModule
  {
  }
}
