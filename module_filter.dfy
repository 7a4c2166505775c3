/** The module list offered for planning: every module of the graph except the
    thesis-related ones, which the programme schedules on its own. */
module ModuleFilter {
  import opened Sequences

  const ExcludedModules: set<string> := {
    "Research Methods in Information Systems",
    "Master Thesis Proposal",
    "Master Thesis"
  }

  predicate Kept(m: string) { m !in ExcludedModules }

  /** `get_filtered_modules`, with the titles `get_modules` reads from the graph as input. */
  function FilteredModules(allModules: seq<string>): seq<string> {
    Filter(allModules, Kept)
  }

  /** No excluded title survives; every other title is kept as often as it occurs. */
  lemma FilteredModulesExactly(allModules: seq<string>, m: string)
    ensures m in FilteredModules(allModules) <==> m in allModules && m !in ExcludedModules
    ensures multiset(FilteredModules(allModules))[m] ==
      if m in ExcludedModules then 0 else multiset(allModules)[m]
  {
    FilterCounts(allModules, Kept, m);
    FilterMembers(allModules, Kept, m);
  }

  /** The thesis modules never appear in the result. */
  lemma ThesisModulesDropped(allModules: seq<string>)
    ensures "Research Methods in Information Systems" !in FilteredModules(allModules)
    ensures "Master Thesis Proposal" !in FilteredModules(allModules)
    ensures "Master Thesis" !in FilteredModules(allModules)
  {
    FilteredModulesExactly(allModules, "Research Methods in Information Systems");
    FilteredModulesExactly(allModules, "Master Thesis Proposal");
    FilteredModulesExactly(allModules, "Master Thesis");
  }

  /** Kept titles keep their input order: the filter distributes over concatenation. */
  lemma FilteredModulesInOrder(a: seq<string>, b: seq<string>)
    ensures FilteredModules(a + b) == FilteredModules(a) + FilteredModules(b)
  {
    FilterConcat(a, b, Kept);
  }

  /** Filtering twice is filtering once, and never lengthens the list. */
  lemma FilteredModulesIdempotent(allModules: seq<string>)
    ensures FilteredModules(FilteredModules(allModules)) == FilteredModules(allModules)
    ensures |FilteredModules(allModules)| <= |allModules|
  {
    FilterIdempotent(allModules, Kept);
  }

  /** A list without thesis modules comes back unchanged. */
  lemma NothingToExclude(allModules: seq<string>)
    requires forall i :: 0 <= i < |allModules| ==> allModules[i] !in ExcludedModules
    ensures FilteredModules(allModules) == allModules
  {
    FilterKeepsAll(allModules, Kept);
  }
}
