/** The submit-time check of the student-career form: the taken courses may number at
    most ten, and at most six of them may be free (non-mandatory) modules, so that the
    four mandatory modules still fit. A submission that passes both checks is meant to be
    turned into a student record and saved; as written, building that record raises a
    TypeError (see SubmitAsWritten), and Submit models the intended save. */
module StudentCareer {
  import opened Sequences

  const MandatoryModules: seq<string> := [
    "Alignment of Business and IT",
    "Business Intelligence",
    "Business Process Management",
    "Strategic Business Innovation"
  ]
  /** At most ten modules (60 credits). */
  const MaxModules: nat := 10
  /** At most six free modules (36 credits). */
  const MaxFreeModules: nat := 6

  predicate IsMandatory(m: string) { m in MandatoryModules }

  /** The taken courses that are not mandatory, in input order. */
  function FreeSelected(taken: seq<string>): seq<string> {
    Filter(taken, m => !IsMandatory(m))
  }

  /** The taken courses that are mandatory, in input order. */
  function MandatorySelected(taken: seq<string>): seq<string> {
    Filter(taken, m => IsMandatory(m))
  }

  /** The mandatory modules absent from the taken courses, in the order of `MandatoryModules`. */
  function MissingMandatory(taken: seq<string>): seq<string> {
    Filter(MandatoryModules, m => m !in taken)
  }

  datatype Verdict =
    | TooManyModules
    | TooManyFreeModules(freeCount: nat, missing: seq<string>)
    | Accepted

  /** The if/elif/else chain: the ten-module cap first, then the six-free-module cap. */
  function Validate(taken: seq<string>): Verdict {
    if |taken| > MaxModules then TooManyModules
    else if |FreeSelected(taken)| > MaxFreeModules then
      TooManyFreeModules(|FreeSelected(taken)|, MissingMandatory(taken))
    else Accepted
  }

  /** The decimal digits of `n`, as Python's `str` writes an integer: they spell `n`,
      with no leading zero. */
  function DecimalString(n: nat): (r: string)
    ensures |r| >= 1
    ensures forall i :: 0 <= i < |r| ==> '0' <= r[i] <= '9'
    ensures DigitsValue(r) == n
    ensures |r| > 1 ==> r[0] != '0'
  {
    if n < 10 then
      assert [Digit(n)][..0] == [];
      [Digit(n)]
    else
      var init := DecimalString(n / 10);
      assert (init + [Digit(n % 10)])[..|init|] == init;
      init + [Digit(n % 10)]
  }

  function Digit(d: nat): (c: char)
    requires d < 10
    ensures '0' <= c <= '9'
    ensures c as int - '0' as int == d
  {
    ('0' as int + d) as char
  }

  /** The number a string of decimal digits spells. */
  function DigitsValue(s: string): nat
    requires forall i :: 0 <= i < |s| ==> '0' <= s[i] <= '9'
  {
    if s == [] then 0
    else 10 * DigitsValue(s[..|s| - 1]) + (s[|s| - 1] as int - '0' as int)
  }

  /** The error shown for a rejected submission. */
  function ErrorMessage(v: Verdict): string
    requires !v.Accepted?
  {
    match v
    case TooManyModules =>
      "Submission failed: You cannot select more than 10 modules (60 credits)."
    case TooManyFreeModules(n, missing) =>
      "Submission failed: You have selected " + DecimalString(n) + " free modules. "
        + "This leaves insufficient space for all mandatory modules: " + Join(missing, ", ")
  }

  /** What pressing "Submit" does: an error message, the student record saved with the
      taken courses (the form's other fields are carried unchanged and not modelled), or
      the TypeError of a constructor call whose arguments do not match its parameters. */
  datatype Outcome = Rejected(message: string) | Saved(takenCourses: seq<string>) | ConstructorTypeError

  /** The parameters of `Student.__init__` besides `self`: there is none for full-time study. */
  const StudentParameters: nat := 11
  /** The positional arguments the form passes to `Student(...)`, `not part_time` among them. */
  const StudentArguments: nat := 12

  /** Calling `Student(...)` with `args` positional arguments: Python raises a TypeError
      unless the count matches the parameters. */
  function NewStudent(args: nat, taken: seq<string>): (r: Outcome)
    ensures r == ConstructorTypeError <==> args != StudentParameters
    ensures r != ConstructorTypeError ==> r == Saved(taken)
  {
    if args == StudentParameters then Saved(taken) else ConstructorTypeError
  }

  /** The submit branch as written: an accepted submission reaches the constructor call. */
  function SubmitAsWritten(taken: seq<string>): Outcome {
    var v := Validate(taken);
    if v.Accepted? then NewStudent(StudentArguments, taken) else Rejected(ErrorMessage(v))
  }

  /** The submit branch as intended: the constructor takes the full-time flag as well, so an
      accepted submission is saved. */
  function Submit(taken: seq<string>): Outcome {
    var v := Validate(taken);
    if v.Accepted? then NewStudent(StudentParameters, taken) else Rejected(ErrorMessage(v))
  }

  // ---------------------------------------------------------------------------
  // Properties.

  /** The free selection is exactly the non-mandatory taken courses, each as often as taken. */
  lemma FreeSelectedExactly(taken: seq<string>, m: string)
    ensures multiset(FreeSelected(taken))[m] == if IsMandatory(m) then 0 else multiset(taken)[m]
    ensures m in FreeSelected(taken) <==> m in taken && !IsMandatory(m)
  {
    FilterCounts(taken, m => !IsMandatory(m), m);
    FilterMembers(taken, m => !IsMandatory(m), m);
  }

  /** The free selection keeps the input order: taking courses `a` then `b` selects
      the free ones of `a` then those of `b`. */
  lemma FreeSelectedInOrder(a: seq<string>, b: seq<string>)
    ensures FreeSelected(a + b) == FreeSelected(a) + FreeSelected(b)
  {
    FilterConcat(a, b, m => !IsMandatory(m));
  }

  /** Free and mandatory selections partition the taken courses. */
  lemma SelectionsPartition(taken: seq<string>)
    ensures |FreeSelected(taken)| + |MandatorySelected(taken)| == |taken|
  {
    FilterPartition(taken, m => !IsMandatory(m), m => IsMandatory(m));
  }

  /** The missing mandatory modules are those not taken, each listed once. */
  lemma MissingMandatoryExactly(taken: seq<string>)
    ensures forall m :: m in MissingMandatory(taken) <==> IsMandatory(m) && m !in taken
    ensures NoDuplicates(MissingMandatory(taken))
  {
    forall m ensures m in MissingMandatory(taken) <==> IsMandatory(m) && m !in taken {
      FilterMembers(MandatoryModules, m => m !in taken, m);
    }
    FilterKeepsDistinct(MandatoryModules, m => m !in taken);
  }

  /** More than ten courses are rejected whatever they are, with the module-cap message. */
  lemma OverCapAlwaysRejected(taken: seq<string>)
    requires |taken| > MaxModules
    ensures Submit(taken) == Rejected("Submission failed: You cannot select more than 10 modules (60 credits).")
  {
  }

  /** The verdicts, case by case: the module cap takes precedence over the free-module cap. */
  lemma ValidateCases(taken: seq<string>)
    ensures Validate(taken).TooManyModules? <==> |taken| > MaxModules
    ensures Validate(taken).TooManyFreeModules? <==>
      |taken| <= MaxModules && |FreeSelected(taken)| > MaxFreeModules
    ensures Validate(taken).Accepted? <==>
      |taken| <= MaxModules && |FreeSelected(taken)| <= MaxFreeModules
  {
  }

  /** As intended, a record is saved exactly when both checks pass, and it holds the taken
      courses; a rejection carries the message of the failed check. */
  lemma SavedOnlyWhenAccepted(taken: seq<string>)
    ensures Submit(taken).Saved? <==> Validate(taken) == Accepted
    ensures Submit(taken).Saved? ==> Submit(taken).takenCourses == taken
    ensures !Submit(taken).Saved? ==> Submit(taken) == Rejected(ErrorMessage(Validate(taken)))
  {
  }

  /** As written, no submission is ever saved: every accepted one raises the TypeError of
      the constructor call, and the rejections are those of the intended branch. */
  lemma AcceptedSubmissionRaises(taken: seq<string>)
    ensures !SubmitAsWritten(taken).Saved?
    ensures SubmitAsWritten(taken) == ConstructorTypeError <==> Validate(taken) == Accepted
    ensures Validate(taken) != Accepted ==> SubmitAsWritten(taken) == Submit(taken)
  {
  }

  /** The empty selection passes both checks, yet as written it raises instead of saving. */
  lemma EmptySelectionRaises()
    ensures Validate([]) == Accepted
    ensures SubmitAsWritten([]) == ConstructorTypeError
    ensures Submit([]) == Saved([])
  {
    assert FreeSelected([]) == [];
  }

  /** An accepted submission leaves room for the four mandatory modules within the cap. */
  lemma AcceptedLeavesRoomForMandatory(taken: seq<string>)
    requires Validate(taken) == Accepted
    ensures |FreeSelected(taken)| + |MandatoryModules| <= MaxModules
  {
  }

  /** With no course taken twice, an accepted submission plus its missing mandatory
      modules still fits within the ten-module cap. */
  lemma AcceptedDistinctFitsMissing(taken: seq<string>)
    requires NoDuplicates(taken)
    requires Validate(taken) == Accepted
    ensures |taken| + |MissingMandatory(taken)| <= MaxModules
  {
    SelectionsPartition(taken);
    FilterPartition(MandatoryModules, m => m in taken, m => m !in taken);
    MandatoryTakenCount(taken);
  }

  /** Without repeats, the mandatory courses taken are as many as the mandatory
      modules that occur among the taken courses. */
  lemma MandatoryTakenCount(taken: seq<string>)
    requires NoDuplicates(taken)
    ensures |MandatorySelected(taken)| == |Filter(MandatoryModules, m => m in taken)|
  {
    var chosen := MandatorySelected(taken);
    var present := Filter(MandatoryModules, m => m in taken);
    FilterKeepsDistinct(taken, m => IsMandatory(m));
    FilterKeepsDistinct(MandatoryModules, m => m in taken);
    forall m ensures m in chosen <==> m in present {
      FilterMembers(taken, m => IsMandatory(m), m);
      FilterMembers(MandatoryModules, m => m in taken, m);
    }
    SameElementsSameSize(chosen, present);
  }
}
