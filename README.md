# iModuleBuddy core, modelled in Dafny

iModuleBuddy is a study assistant for a master's programme. This project models
the parts of it that compute something, and proves properties of them:

- **The occupation ranker** (`JobRanker.rank_jobs`), in `job_ranker.dfy`. It keeps the
  jobs that ended within the last `max_experience_years` years, folds them into one
  aggregate per title (work periods, least time since last work, full-time if any job
  was), and merges each title's periods. It then normalises total duration and recency
  against the maxima over all titles, scores each title by a weighted sum, and sorts the
  titles by descending score, keeping ties in order. The class keeps the constructor's
  two fields. Every loop of the source is a `method` with its invariants, proved equal
  to a reference function (`Rank`). The supporting modules are:
  - `calendar.dfy`: year-month arithmetic and Gregorian day counts;
  - `intervals.dfy`: the sort-then-sweep merge of work periods;
  - `sorting.dfy`: Python's stable `sorted`;
  - `real_bounds.dfy`: bounds on real arithmetic.
- **The student-career submit check**, in `student_career.dfy`: at most ten taken
  courses, and at most six free (non-mandatory) ones. It yields the exact error
  messages. An accepted submission as written raises a TypeError when it builds the
  student record; the intended save is modelled as well (see "## Findings").
- **The credit report of the study planner**, in `study_planner.dfy`.
- **The module filter** that drops the three thesis-related modules, in `module_filter.dfy`.
- **The weekly schedule formatter**, in `weekly_schedule.dfy`. Its nested loops file each
  teaching session under a week in a dictionary. It then writes a Markdown heading per
  week, in string order, and a bullet per session. A missing key gives the error text.
- **The ESCO occupation builder** (`extract_skills`, `build_occupation`), in `esco.dfy`.
- **The learning-outcome ID-to-URI rewrite**, in `esco_uri_mapping.dfy`. It covers
  Python's `split(',')` and `strip()`, the S/K lookup, the `KeyError` on a missing ID,
  and the `AttributeError` that `.split` raises on an empty promoted cell, which
  pandas reads as NaN.

`sequences.dfy` holds list comprehensions with a condition (`Filter`), dictionary key
order (`Firsts`), and `str.join`. `wrappers.dfy` holds `Option` and `Result`.

Several inputs become parameters. The clock reading `datetime.now()` is an `Instant`
passed to `RankJobs`. The graph's module list is the input of `FilteredModules`. The
API record is an `OccupationRecord`. The CSV tables are `Row` sequences and two maps.

The duration sub-score is the title's total of days divided by 30, then divided by the
largest total of days over all titles (utils/job_ranker.py:109-113). It therefore lies in
[0, 1/30]. The model computes it this way, and `JobRankingProperties.SubScoreBounds`
states that bound.

## Model

| member | source | states |
|---|---|---|
| Calendar.MonthIndex | utils/job_ranker.py:41 | a "%Y-%m" date becomes a month index whose year and month of year are the parsed ones |
| Calendar.DaysInMonth | utils/job_ranker.py:98 | every month has 28 to 31 days, and 29 exactly in February of a Gregorian leap year |
| Calendar.DaysBetweenBounds | utils/job_ranker.py:97-99 | the day difference between two month starts `n` months apart lies between 28n and 31n |
| Calendar.StartAfterCutoff | utils/job_ranker.py:36-41 | the first of a month is after `now` minus n years iff the month is later than now's month minus 12n, whatever the day and time of now |
| Intervals.ByStartIsTotalPreorder | utils/job_ranker.py:60 | comparing periods by start month is total and transitive, so the sort by start is well defined |
| Intervals.SortByStartFacts | utils/job_ranker.py:60 | sorting periods by start gives a permutation, sorted by start |
| Intervals.MergePeriods | utils/job_ranker.py:60-88 | the sweep loop returns exactly the merge of the title's periods (sort, then join periods that overlap or touch within one month) |
| Intervals.MergedSortedAndSeparated | utils/job_ranker.py:60-88 | merged periods are sorted by start, and each begins more than one month after the previous one ends |
| Intervals.MergedCoversSameMonths | utils/job_ranker.py:65-88 | a month is covered by the merged periods iff it is covered by the original ones |
| Intervals.MergedContainsEach | utils/job_ranker.py:65-88 | every original period lies inside some merged period |
| Intervals.WithinExactlyOne | utils/job_ranker.py:65-88 | a well-formed original period lies inside exactly one merged period |
| Intervals.MergedLength | utils/job_ranker.py:65-88 | there are never more merged periods than originals, and none only when there were none |
| Intervals.MergedValid | utils/job_ranker.py:65-88 | merging periods that end no earlier than they start yields such periods |
| Intervals.SeparatedDisjoint | utils/job_ranker.py:72-81 | in a sorted, separated list no month lies in two different periods |
| JobRanking.RecentKeeps | utils/job_ranker.py:36-42 | a job survives the filter iff its end month is later than now's month minus 12 times the maximum years; its start plays no part |
| JobRanking.RecentKeepsOrder | utils/job_ranker.py:39-42 | the filter keeps the input order (it distributes over concatenation) |
| JobRanking.MinSince | utils/job_ranker.py:54 | the folded time since last work is attained by a job of the title and is at most that of every job of the title |
| JobRanking.PeriodsOf | utils/job_ranker.py:53 | a period is among a title's collected periods iff some job of that title has it |
| JobRanking.FoldStep | utils/job_ranker.py:45-56 | one more job leaves other titles' entries alone, and for its own title it appends the period, lowers the time since last work and sets "full-time" if the job is full-time (a new title starts from no periods, infinity and "part-time") |
| JobRanking.AggregateByTitle | utils/job_ranker.py:29-56 | the fold loop yields keys in first-insertion order, exactly the titles of the jobs, each holding its reference aggregate |
| JobRanking.MergeAllPeriods | utils/job_ranker.py:59-90 | the loop over the dictionary replaces each title's periods by their merge and changes nothing else |
| JobRanking.TotalDaysNonNegative | utils/job_ranker.py:97-101 | a title's total of days over well-formed periods is not negative |
| JobRanking.MaxDuration | utils/job_ranker.py:93-101 | the largest total of days is at least 0, bounds every title's total, and is 0 or attained by a title |
| JobRanking.MaxRecency | utils/job_ranker.py:94-102 | the largest time since last work is at least 0, bounds every title's, and is 0 or attained by a title |
| JobRanking.NormalizationFactors | utils/job_ranker.py:92-102 | the accumulation loop yields those two maxima |
| JobRanking.ScoresOf | utils/job_ranker.py:105-125 | one (title, score) pair per title, in dictionary order |
| JobRanking.ScoreTitles | utils/job_ranker.py:105-125 | the scoring loop yields exactly those pairs |
| JobRanking.ByScoreDescendingIsTotalPreorder | utils/job_ranker.py:128 | "score at least as high" is a total preorder, so the descending sort is well defined |
| JobRanking.JobRanker.constructor | utils/job_ranker.py:7-16 | the ranker keeps its weights and maximum years (15 by default) |
| JobRanking.JobRanker.RankJobs | utils/job_ranker.py:18-131 | rank_jobs returns exactly the reference ranking `Rank` for the ranker's weights and years, the jobs and the clock reading |
| JobRankingProperties.MergedTableEntry | utils/job_ranker.py:29-90 | a surviving title's entry holds the least time since last work among its jobs; "full-time" iff one of its jobs is full-time, else "part-time"; merged periods covering exactly the months its jobs cover |
| JobRankingProperties.RecentEmpty | utils/job_ranker.py:36-42 | when every job ended too long ago, nothing survives the filter |
| JobRankingProperties.UnsortedTitles | utils/job_ranker.py:107-125 | before sorting, the scores list the surviving titles in dictionary order |
| JobRankingProperties.RankHasSameEntries | utils/job_ranker.py:128 | the ranking holds exactly the (title, score) pairs computed before sorting |
| JobRankingProperties.RankTitlesDistinct | utils/job_ranker.py:45-131 | no title appears twice in the ranking |
| JobRankingProperties.RankedTitleSurvives | utils/job_ranker.py:36-131 | every ranked title is the title of a job that survives the filter |
| JobRankingProperties.SurvivingTitleRanked | utils/job_ranker.py:36-131 | every surviving job's title is ranked |
| JobRankingProperties.RankTitlesAreSurvivingTitles | utils/job_ranker.py:36-131 | the set of ranked titles equals the set of titles of jobs whose end month is recent enough |
| JobRankingProperties.RankIsDescending | utils/job_ranker.py:128-131 | scores do not increase along the ranking |
| JobRankingProperties.RankIsStable | utils/job_ranker.py:128-131 | titles with equal scores keep their relative order, which is the order of the titles' first jobs |
| JobRankingProperties.RankOfNothingIsEmpty | utils/job_ranker.py:36-131 | no job, or none recent enough, gives an empty ranking |
| JobRankingProperties.SubScoreBounds | utils/job_ranker.py:105-119 | normalised duration lies in [0, 1/30]; normalised recency lies in [0, 1] and is 0 when the largest recency is 0; the job-type score is 1.0 for full-time and 0.5 otherwise |
| JobRankingProperties.ScoreBounds | utils/job_ranker.py:121-124 | with non-negative weights summing to at most 1, the score of an aggregate within the two maxima lies in [0, 1] |
| JobRankingProperties.RankScoresBounded | utils/job_ranker.py:18-131 | with non-negative weights summing to at most 1, well-formed periods and non-negative times since last work, every score in the ranking lies in [0, 1] |
| Sorting.SortByPermutes | utils/job_ranker.py:128 | `sorted` returns a permutation of its input |
| Sorting.SortBySorts | utils/job_ranker.py:128 | `sorted` returns its input ordered by the key comparison |
| Sorting.SortByIsStable | utils/job_ranker.py:128 | `sorted` keeps the input order of elements with equal keys |
| Sorting.SortByKeepsDistinct | utils/job_ranker.py:128 | sorting keeps distinct keys distinct |
| Sequences.Firsts | utils/job_ranker.py:52 | dictionary keys are the inserted keys, each once, and every inserted key is one |
| Sequences.FirstsInOrderOfFirstOccurrence | utils/job_ranker.py:52 | dictionary keys come out in the order of their first insertion |
| Sequences.FilterCounts | utils/neo4j_methods.py:43 | a comprehension with a condition keeps every passing element as often as it occurs, and no other |
| Sequences.FilterConcat | utils/neo4j_methods.py:43 | a comprehension with a condition keeps the input order |
| StudentCareer.FreeSelectedExactly | user_pages/student_career.py:99 | the free selection holds exactly the taken courses outside the four mandatory titles, each as often as taken |
| StudentCareer.FreeSelectedInOrder | user_pages/student_career.py:99 | the free selection keeps the input order |
| StudentCareer.SelectionsPartition | user_pages/student_career.py:99-100 | free and mandatory selections together are as long as the taken list |
| StudentCareer.MissingMandatoryExactly | user_pages/student_career.py:101 | a title is missing iff it is mandatory and not taken; none is listed twice |
| StudentCareer.OverCapAlwaysRejected | user_pages/student_career.py:104-105 | more than ten courses are rejected with the ten-module message, whatever they are |
| StudentCareer.ValidateCases | user_pages/student_career.py:103-113 | the verdict is the ten-module error iff more than 10 courses; the free-module error iff at most 10 and more than 6 free; acceptance otherwise |
| StudentCareer.NewStudent | utils/models.py:5-16 | calling the `Student` constructor raises a TypeError iff the number of positional arguments differs from its 11 parameters, and otherwise builds the record with the taken courses |
| StudentCareer.AcceptedSubmissionRaises | user_pages/student_career.py:112-128 | as written, no submission is ever saved: the TypeError arises exactly when both checks pass, and every rejection carries the check's message |
| StudentCareer.EmptySelectionRaises | user_pages/student_career.py:112-128 | the empty selection passes both checks; as written it raises the TypeError, as intended it is saved with no courses |
| StudentCareer.SavedOnlyWhenAccepted | user_pages/student_career.py:102-129 | with the constructor taking the full-time flag, a record is saved iff both checks pass, it holds the taken courses, and otherwise the message of the failed check is shown |
| StudentCareer.AcceptedLeavesRoomForMandatory | user_pages/student_career.py:12-13 | after acceptance, the free courses plus the four mandatory ones fit in ten |
| StudentCareer.AcceptedDistinctFitsMissing | user_pages/student_career.py:99-113 | after acceptance of courses without repeats, the taken courses plus the missing mandatory ones fit in ten |
| StudentCareer.MandatoryTakenCount | user_pages/student_career.py:100-101 | without repeats, the mandatory courses taken are as many as the mandatory titles not missing |
| StudentCareer.DecimalString | user_pages/student_career.py:109 | the free-module count is written as decimal digits that spell it, with no leading zero |
| StudyPlanner.CreditsTakenAndRemaining | assistant/agents/study_planner_agent.py:53-60 | taken credits are 6 per listed module, and taken plus remaining is always 60 |
| StudyPlanner.RemainingSign | assistant/agents/study_planner_agent.py:59 | remaining credits are not clamped: negative iff more than ten modules, zero iff exactly ten |
| StudyPlanner.DuplicatesCountTwice | assistant/agents/study_planner_agent.py:57-58 | each listed module, repeated or not, adds 6 credits |
| ModuleFilter.FilteredModulesExactly | utils/neo4j_methods.py:36-43 | a title is kept iff it is not one of the three excluded titles; a kept title keeps its number of occurrences |
| ModuleFilter.ThesisModulesDropped | utils/neo4j_methods.py:36-43 | the three thesis-related titles never appear in the result |
| ModuleFilter.FilteredModulesInOrder | utils/neo4j_methods.py:43 | kept titles keep their input order |
| ModuleFilter.FilteredModulesIdempotent | utils/neo4j_methods.py:42-45 | filtering twice equals filtering once, and the result is no longer than the input |
| ModuleFilter.NothingToExclude | utils/neo4j_methods.py:43 | a list without excluded titles comes back unchanged |
| WeeklySchedule.FormatWeeklySchedule | assistant/agents/weekly_study_scheduler_agent.py:7-44 | the formatter returns exactly `Render(plan)`: the warning, the error text of the first missing key, or the heading followed by one section per week |
| WeeklySchedule.FileSessions | assistant/agents/weekly_study_scheduler_agent.py:24-31 | filing a module's sessions keeps the dictionary equal to the bullets per week, with keys in first-insertion order |
| WeeklySchedule.FileLine | assistant/agents/weekly_study_scheduler_agent.py:25-31 | filing one session appends its bullet under its week and adds the week as the last key if it is new |
| WeeklySchedule.WriteSchedule | assistant/agents/weekly_study_scheduler_agent.py:33-41 | the output loop writes the heading, then each week in sorted order with its bullets |
| WeeklySchedule.AppendBullets | assistant/agents/weekly_study_scheduler_agent.py:37-38 | the inner output loop appends one "- " line per session text, in order |
| WeeklySchedule.FirstMissingKeyNoneIff | assistant/agents/weekly_study_scheduler_agent.py:22-24 | no key error is raised iff every module record has both "module" and "teaching_session" |
| WeeklySchedule.FirstMissingKeyAt | assistant/agents/weekly_study_scheduler_agent.py:22-24 | the key error names the first malformed record's missing key, "module" checked before "teaching_session" |
| WeeklySchedule.RenderCases | assistant/agents/weekly_study_scheduler_agent.py:12-44 | a missing or empty plan gives the warning; a malformed plan gives the error text; a well-formed plan gives output that begins with the heading |
| WeeklySchedule.MissingFieldsReadNA | assistant/agents/weekly_study_scheduler_agent.py:25-30 | a session without week, day, time and location is filed under "Week N/A" and printed with "N/A" for each field |
| WeeklySchedule.LinesLength | assistant/agents/weekly_study_scheduler_agent.py:22-31 | every session of every module produces one line |
| WeeklySchedule.EveryBulletWrittenOnce | assistant/agents/weekly_study_scheduler_agent.py:22-38 | the bullets written under all headings number exactly the sessions of the plan |
| WeeklySchedule.ModuleOrderWithinWeek | assistant/agents/weekly_study_scheduler_agent.py:22-31 | within a week, the bullets of earlier modules come before those of later ones |
| WeeklySchedule.SessionOrderWithinWeek | assistant/agents/weekly_study_scheduler_agent.py:24-31 | within a week and a module, the bullets follow the order of the sessions |
| WeeklySchedule.SortedWeeksAreTheWeeks | assistant/agents/weekly_study_scheduler_agent.py:26-36 | there is one heading per week some session falls in and no other, and the headings strictly ascend in string order |
| WeeklySchedule.ByWeekIsTotalPreorder | assistant/agents/weekly_study_scheduler_agent.py:35 | Python's string order is total and transitive |
| WeeklySchedule.LexAntisymmetric | assistant/agents/weekly_study_scheduler_agent.py:35 | two strings that are each at most the other are equal |
| Esco.ExtractSkills | esco/esco.py:44-56 | the loop returns the skills of the link list under the key, in order (`SkillsOf`) |
| Esco.BuildOccupation | esco/esco.py:59-69 | build_occupation returns `OccupationOf(json)`: title, English description, essential and optional skills, uri |
| Esco.ClassifyExactly | esco/esco.py:50-54 | a link becomes a skill iff its type is the ESCO skill or knowledge type URI; it keeps title and uri; it is typed 'skill' iff of the skill type and 'knowledge' iff of the knowledge type |
| Esco.SkillsOfLength | esco/esco.py:50-54 | links of other or missing types are dropped, so there are at most as many skills as links |
| Esco.SkillsOfConcat | esco/esco.py:47-54 | skills keep the order of the link list |
| Esco.SkillsOfMembers | esco/esco.py:47-54 | every skill comes from a link of the list, and every classifiable link yields its skill |
| Esco.MissingKeyNoSkills | esco/esco.py:47 | a missing link key yields no skills |
| Esco.OccupationDefaults | esco/esco.py:60-64 | a missing English literal gives description "", a missing uri gives "", and the title is copied |
| Esco.SkillsFromTheirOwnKey | esco/esco.py:66-67 | essential skills depend only on "hasEssentialSkill" links, and optional skills only on "hasOptionalSkill" links |
| EscoUriMapping.Split | esco/map_ids_to_uris.py:22 | `split` always yields at least one piece |
| EscoUriMapping.SplitJoinRoundTrip | esco/map_ids_to_uris.py:22 | joining the pieces with the separator gives back the field |
| EscoUriMapping.SplitPiecesLackSeparator | esco/map_ids_to_uris.py:22 | no piece contains a comma |
| EscoUriMapping.SplitCount | esco/map_ids_to_uris.py:22 | there is one more piece than there are commas |
| EscoUriMapping.StripTrimsBothEnds | esco/map_ids_to_uris.py:28 | `strip` returns a slice of the piece; only whitespace is cut off; the result neither starts nor ends with whitespace |
| EscoUriMapping.StripIdempotent | esco/map_ids_to_uris.py:28 | stripping twice equals stripping once |
| EscoUriMapping.ResolveOne | esco/map_ids_to_uris.py:28-34 | a stripped S-ID gives its skill URI, a K-ID its knowledge URI, an ID missing from its index a KeyError, and any other piece nothing |
| EscoUriMapping.ResolveFailsIff | esco/map_ids_to_uris.py:27-34 | a row fails iff one of its pieces is an S-ID missing from the skills index or a K-ID missing from the knowledge index |
| EscoUriMapping.ResolveErrNamesFirst | esco/map_ids_to_uris.py:27-34 | the KeyError names the first such piece, stripped |
| EscoUriMapping.ResolveConcat | esco/map_ids_to_uris.py:27-34 | resolved URIs keep the order of the pieces |
| EscoUriMapping.ResolveLength | esco/map_ids_to_uris.py:27-34 | a row never yields more URIs than pieces |
| EscoUriMapping.MapRow | esco/map_ids_to_uris.py:19-41 | the per-row loop returns `RowOf`: the row's title and outcome with the URIs joined by ", ", the AttributeError of an empty promoted cell, or the first KeyError |
| EscoUriMapping.RowOfFailsIff | esco/map_ids_to_uris.py:19-41 | an empty promoted cell (read as NaN) always fails; otherwise the row fails iff resolving its pieces fails; a produced row copies title and outcome |
| EscoUriMapping.MapRows | esco/map_ids_to_uris.py:18-41 | the row loop returns `RowsOf`: all output rows, or the first KeyError, which ends the script |
| EscoUriMapping.RowsOfOnePerRow | esco/map_ids_to_uris.py:18-41 | one output row per input row, in order, with module title and learning outcome copied |
| EscoUriMapping.RowsOfFailsIff | esco/map_ids_to_uris.py:18-41 | the table is produced iff every row resolves |

## Findings

| source | as written | input that shows it | evidently intended | confidence | as-written member | corrected member |
|---|---|---|---|---|---|---|
| user_pages/student_career.py:115-128 | the accepted branch passes 12 positional arguments (`not part_time` second) to `Student.__init__` (utils/models.py:5-16), which takes 11 and has no full-time parameter; `to_dict` (utils/models.py:33) also reads a `full_time` field no constructor sets | `taken = []` passes both checks, and the constructor call then raises a TypeError, so nothing is saved (StudentCareer.EmptySelectionRaises) | `Student` takes the full-time flag as its second parameter, so an accepted submission builds the record and saves it | high, not executed | StudentCareer.AcceptedSubmissionRaises | StudentCareer.SavedOnlyWhenAccepted |

## Left out

- Clock, I/O and foreign calls. The clock `datetime.now()` is a parameter. Not modelled: `print`, the Streamlit UI, the Supabase and Neo4j calls (the intended `Student` record is only its taken courses), the HTTP fetch of ESCO records (`fetch_occupation_json`, `gather_occupations`) and the CSV reading and writing.
- Parse errors. strptime errors on malformed "%Y-%m" strings and dates outside datetime's year range are not modelled: dates are already month indices. A job whose record lacks a key is not modelled either.
- Floating point. Weights and sub-scores are `real`: no rounding, no NaN, no infinity other than the fold's initial `float('inf')`. A new title takes the first job's value directly, which is what `min(inf, x)` gives.
- `relativedelta` clamping 29 February to the 28th only moves the cutoff within its month. The model keeps the position as an abstract tick, and `Calendar.StartAfterCutoff` shows that the tick does not matter for month starts.
- Week values are text. A session's week is held as the text Python's f-string writes for it, so integer and string weeks are not told apart. Weeks are sorted as strings, as the source does ("Week 10" before "Week 2").
- The weekly formatter's error branch covers the `KeyError` of a missing "module" or "teaching_session" key only. Other exceptions (a non-iterable session list, a non-dict record) are not modelled.
- Empty module-title or learning-outcome cells are held as text. pandas reads them as NaN and copies them into the output row, which the model does not represent.
- ESCO link lists under a key that holds `null`, and non-string field values, are not modelled.
- StudentCareer.MissingMandatoryExactly: states membership and no repeats only. The order of the missing titles (that of the mandatory list) is given by the definition of `MissingMandatory`, a filter over that list, with no separate lemma.
- The semester study-plan rules live only in prompt text; they are not part of this model.
- Of utils/models.py only the arity of `Student.__init__` is modelled (`StudentCareer.NewStudent`); its fields, `to_dict` and the agents' calls to a ranker method the class does not define (`get_ranked_jobs`) are not part of this model.
