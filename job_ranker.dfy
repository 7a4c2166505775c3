/** The occupation ranker: filters a user's job records to a recent window, folds
    them into one aggregate per title, merges each title's work periods, normalises
    duration and recency against the maxima over all titles, scores each title with
    a weighted sum and sorts the titles by descending score (stably). */
module JobRanking {
  import opened Calendar
  import opened Intervals
  import opened Sequences
  import Sorting
  import RealBounds

  /** One job record; `jobType` is the record's free text ("full-time", "part-time", ...). */
  datatype Job = Job(title: string, period: Period, timeSinceLastWork: int, jobType: string)

  /** The weights of the three sub-scores ("work_period", "recency", "job_type"). */
  datatype Weights = Weights(workPeriod: real, recency: real, jobType: real)

  /** The per-title aggregate kept in the ranker's dictionary. */
  datatype Aggregate = Aggregate(periods: seq<Period>, timeSinceLastWork: int, jobType: string)

  datatype ScoredTitle = ScoredTitle(title: string, score: real)

  const FullTime: string := "full-time"
  const PartTime: string := "part-time"

  // ---------------------------------------------------------------------------
  // Step 2: the recency window.

  /** The jobs whose end month, read as midnight on its first day, lies after the cutoff. */
  function Recent(jobs: seq<Job>, cutoff: Instant): seq<Job> {
    if jobs == [] then []
    else (if After(StartOf(jobs[0].period.end), cutoff) then [jobs[0]] else []) + Recent(jobs[1..], cutoff)
  }

  /** A job survives the filter exactly when its end month is later than the month `n`
      years before now; its start month plays no part. */
  lemma {:induction false} RecentKeeps(jobs: seq<Job>, now: Instant, n: int, j: Job)
    ensures j in Recent(jobs, YearsBefore(now, n)) <==> j in jobs && j.period.end > now.month - 12 * n
  {
    StartAfterCutoff(j.period.end, now, n);
    if jobs != [] {
      RecentKeeps(jobs[1..], now, n, j);
      assert j in jobs <==> j == jobs[0] || j in jobs[1..];
    }
  }

  /** The filter keeps the input order: it distributes over concatenation. */
  lemma {:induction false} RecentKeepsOrder(a: seq<Job>, b: seq<Job>, cutoff: Instant)
    ensures Recent(a + b, cutoff) == Recent(a, cutoff) + Recent(b, cutoff)
  {
    if a == [] {
      assert a + b == b;
    } else {
      assert (a + b)[1..] == a[1..] + b;
      RecentKeepsOrder(a[1..], b, cutoff);
    }
  }

  // ---------------------------------------------------------------------------
  // Step 3: the fold into one aggregate per title (reference definitions).

  function TitleSeq(jobs: seq<Job>): (r: seq<string>)
    ensures |r| == |jobs| && forall i :: 0 <= i < |jobs| ==> r[i] == jobs[i].title
  {
    seq(|jobs|, i requires 0 <= i < |jobs| => jobs[i].title)
  }

  /** The distinct titles in the order they are first inserted into the dictionary. */
  function Titles(jobs: seq<Job>): seq<string> {
    Firsts(TitleSeq(jobs))
  }

  predicate HasTitle(jobs: seq<Job>, t: string) {
    exists i :: 0 <= i < |jobs| && jobs[i].title == t
  }

  /** The work periods of the jobs titled `t`, in input order. */
  function PeriodsOf(jobs: seq<Job>, t: string): (r: seq<Period>)
    ensures forall p :: p in r <==> exists i :: 0 <= i < |jobs| && jobs[i].title == t && jobs[i].period == p
  {
    if jobs == [] then []
    else
      var n := |jobs| - 1;
      assert forall i :: 0 <= i < n ==> jobs[..n][i] == jobs[i];
      PeriodsOf(jobs[..n], t) + (if jobs[n].title == t then [jobs[n].period] else [])
  }

  lemma {:induction false} PeriodsOfAbsent(jobs: seq<Job>, t: string)
    requires !HasTitle(jobs, t)
    ensures PeriodsOf(jobs, t) == []
  {
    if jobs != [] {
      var n := |jobs| - 1;
      assert forall i :: 0 <= i < n ==> jobs[..n][i] == jobs[i];
      PeriodsOfAbsent(jobs[..n], t);
    }
  }

  /** The least time since last work among the jobs titled `t`. */
  function MinSince(jobs: seq<Job>, t: string): (r: int)
    requires HasTitle(jobs, t)
    ensures exists i :: 0 <= i < |jobs| && jobs[i].title == t && jobs[i].timeSinceLastWork == r
    ensures forall i :: 0 <= i < |jobs| && jobs[i].title == t ==> r <= jobs[i].timeSinceLastWork
  {
    var n := |jobs| - 1;
    assert forall i :: 0 <= i < n ==> jobs[..n][i] == jobs[i];
    if jobs[n].title != t then MinSince(jobs[..n], t)
    else if HasTitle(jobs[..n], t) then Min(MinSince(jobs[..n], t), jobs[n].timeSinceLastWork)
    else jobs[n].timeSinceLastWork
  }

  function Min(a: int, b: int): int { if a <= b then a else b }

  /** Some job titled `t` is full-time. */
  predicate AnyFullTime(jobs: seq<Job>, t: string) {
    exists i :: 0 <= i < |jobs| && jobs[i].title == t && jobs[i].jobType == FullTime
  }

  /** What the dictionary holds for `t` once every job has been folded in. */
  function AggregateOf(jobs: seq<Job>, t: string): Aggregate
    requires HasTitle(jobs, t)
  {
    Aggregate(PeriodsOf(jobs, t), MinSince(jobs, t), if AnyFullTime(jobs, t) then FullTime else PartTime)
  }

  lemma TitleSeqPrefix(jobs: seq<Job>, i: nat)
    requires i < |jobs|
    ensures TitleSeq(jobs[..i + 1]) == TitleSeq(jobs[..i]) + [jobs[i].title]
  {
  }

  lemma {:induction false} TitlesAreHasTitle(jobs: seq<Job>, t: string)
    ensures t in Titles(jobs) <==> HasTitle(jobs, t)
  {
    var ks := TitleSeq(jobs);
    if t in Titles(jobs) {
      var k :| 0 <= k < |Titles(jobs)| && Titles(jobs)[k] == t;
      var i :| 0 <= i < |ks| && ks[i] == t;
    }
    if HasTitle(jobs, t) {
      var i :| 0 <= i < |jobs| && jobs[i].title == t;
      assert ks[i] == t;
    }
  }

  lemma TitlesStep(jobs: seq<Job>, i: nat)
    requires i < |jobs|
    ensures Titles(jobs[..i + 1]) ==
      if jobs[i].title in Titles(jobs[..i]) then Titles(jobs[..i]) else Titles(jobs[..i]) + [jobs[i].title]
  {
    var ks := TitleSeq(jobs[..i + 1]);
    assert ks[..|ks| - 1] == TitleSeq(jobs[..i]);
  }

  /** How one more job changes what the dictionary holds for title `t`. */
  lemma FoldStep(jobs: seq<Job>, i: nat, t: string)
    requires i < |jobs|
    ensures HasTitle(jobs[..i + 1], t) <==> HasTitle(jobs[..i], t) || t == jobs[i].title
    ensures t != jobs[i].title && HasTitle(jobs[..i], t) ==>
      AggregateOf(jobs[..i + 1], t) == AggregateOf(jobs[..i], t)
    ensures t == jobs[i].title && HasTitle(jobs[..i], t) ==>
      var a := AggregateOf(jobs[..i], t);
      AggregateOf(jobs[..i + 1], t) ==
        Aggregate(a.periods + [jobs[i].period], Min(a.timeSinceLastWork, jobs[i].timeSinceLastWork),
                  if jobs[i].jobType == FullTime then FullTime else a.jobType)
    ensures t == jobs[i].title && !HasTitle(jobs[..i], t) ==>
      AggregateOf(jobs[..i + 1], t) ==
        Aggregate([jobs[i].period], jobs[i].timeSinceLastWork,
                  if jobs[i].jobType == FullTime then FullTime else PartTime)
  {
    var before, after := jobs[..i], jobs[..i + 1];
    assert after[..i] == before;
    assert forall k :: 0 <= k < i ==> after[k] == before[k];
    assert after[i] == jobs[i];
    if t != jobs[i].title {
      assert AnyFullTime(after, t) <==> AnyFullTime(before, t);
    } else {
      assert AnyFullTime(after, t) <==> AnyFullTime(before, t) || jobs[i].jobType == FullTime;
      if !HasTitle(before, t) {
        PeriodsOfAbsent(before, t);
        assert PeriodsOf(after, t) == [jobs[i].period];
      }
    }
  }

  /** The fold loop: one dictionary entry per title, created on first sight with no
      periods, an infinite time since last work and "part-time"; each job appends its
      period, lowers the time since last work and may set "full-time". */
  method AggregateByTitle(jobs: seq<Job>) returns (order: seq<string>, merged: map<string, Aggregate>)
    ensures order == Titles(jobs)
    ensures forall t :: t in merged <==> HasTitle(jobs, t)
    ensures forall t :: t in merged ==> merged[t] == AggregateOf(jobs, t)
  {
    order := [];
    merged := map[];
    for i := 0 to |jobs|
      invariant order == Titles(jobs[..i])
      invariant forall t :: t in merged <==> HasTitle(jobs[..i], t)
      invariant forall t :: t in merged ==> merged[t] == AggregateOf(jobs[..i], t)
    {
      var job := jobs[i];
      var title := job.title;
      TitlesStep(jobs, i);
      TitlesAreHasTitle(jobs[..i], title);
      var before := merged;
      if title in merged {
        var m := merged[title];
        merged := merged[title := Aggregate(m.periods + [job.period], Min(m.timeSinceLastWork, job.timeSinceLastWork),
                                            if job.jobType == FullTime then FullTime else m.jobType)];
      } else {
        // a fresh entry: min(inf, x) is x
        order := order + [title];
        merged := merged[title := Aggregate([job.period], job.timeSinceLastWork,
                                            if job.jobType == FullTime then FullTime else PartTime)];
      }
      assert merged == before[title := Absorb(before, job)];
      FoldKeepsInvariant(jobs, i, before, merged);
    }
    assert jobs[..|jobs|] == jobs;
  }

  /** The entry for `job.title` once `job` is folded in: appended period, lower time since
      last work, "full-time" once any job is full-time; a title not yet seen starts from no
      periods, an infinite time since last work and "part-time". */
  function Absorb(before: map<string, Aggregate>, job: Job): Aggregate {
    if job.title in before then
      var m := before[job.title];
      Aggregate(m.periods + [job.period], Min(m.timeSinceLastWork, job.timeSinceLastWork),
                if job.jobType == FullTime then FullTime else m.jobType)
    else
      Aggregate([job.period], job.timeSinceLastWork, if job.jobType == FullTime then FullTime else PartTime)
  }

  /** One pass of the fold loop keeps its dictionary invariant. */
  lemma FoldKeepsInvariant(jobs: seq<Job>, i: nat, before: map<string, Aggregate>, after: map<string, Aggregate>)
    requires i < |jobs|
    requires forall t :: t in before <==> HasTitle(jobs[..i], t)
    requires forall t :: t in before ==> before[t] == AggregateOf(jobs[..i], t)
    requires after == before[jobs[i].title := Absorb(before, jobs[i])]
    ensures forall t :: t in after <==> HasTitle(jobs[..i + 1], t)
    ensures forall t :: t in after ==> after[t] == AggregateOf(jobs[..i + 1], t)
  {
    forall t ensures (t in after <==> HasTitle(jobs[..i + 1], t))
      && (t in after ==> after[t] == AggregateOf(jobs[..i + 1], t))
    {
      FoldStep(jobs, i, t);
    }
  }

  // ---------------------------------------------------------------------------
  // Step 3b: merging each title's periods.

  /** A title's aggregate once its periods have been merged. */
  function MergedAggregateOf(jobs: seq<Job>, t: string): Aggregate
    requires HasTitle(jobs, t)
  {
    AggregateOf(jobs, t).(periods := Merged(PeriodsOf(jobs, t)))
  }

  /** Replaces, title by title in dictionary order, the periods by their merge. */
  method MergeAllPeriods(order: seq<string>, merged: map<string, Aggregate>) returns (result: map<string, Aggregate>)
    requires NoDuplicates(order)
    requires forall t :: t in merged <==> t in order
    ensures forall t :: t in result <==> t in merged
    ensures forall t :: t in merged ==> result[t] == merged[t].(periods := Merged(merged[t].periods))
  {
    result := merged;
    for k := 0 to |order|
      invariant forall t :: t in result <==> t in merged
      invariant forall t :: t in merged ==>
        result[t] == if t in order[..k] then merged[t].(periods := Merged(merged[t].periods)) else merged[t]
    {
      var title := order[k];
      assert title !in order[..k];
      var periods := MergePeriods(result[title].periods);
      result := result[title := result[title].(periods := periods)];
      assert order[..k + 1] == order[..k] + [title];
    }
    assert order[..|order|] == order;
  }

  // ---------------------------------------------------------------------------
  // Step 4: normalisation factors.

  /** Total days worked in the periods: the sum of `(end - start).days`. */
  function TotalDays(ps: seq<Period>): int {
    if ps == [] then 0 else DaysBetween(ps[0].start, ps[0].end) + TotalDays(ps[1..])
  }

  lemma {:induction false} TotalDaysNonNegative(ps: seq<Period>)
    requires forall p :: p in ps ==> Valid(p)
    ensures TotalDays(ps) >= 0
  {
    if ps != [] {
      assert ps[0] in ps;
      DaysBetweenBounds(ps[0].start, ps[0].end);
      assert forall p :: p in ps[1..] ==> p in ps;
      TotalDaysNonNegative(ps[1..]);
    }
  }

  /** The largest total of days over the titles, starting from 0. */
  function MaxDuration(ts: seq<string>, m: map<string, Aggregate>): (r: int)
    requires forall t :: t in ts ==> t in m
    ensures r >= 0
    ensures forall t :: t in ts ==> TotalDays(m[t].periods) <= r
    ensures r == 0 || exists t :: t in ts && TotalDays(m[t].periods) == r
  {
    if ts == [] then 0
    else
      var n := |ts| - 1;
      assert forall t :: t in ts <==> t in ts[..n] || t == ts[n];
      Max(MaxDuration(ts[..n], m), TotalDays(m[ts[n]].periods))
  }

  /** The largest time since last work over the titles, starting from 0. */
  function MaxRecency(ts: seq<string>, m: map<string, Aggregate>): (r: int)
    requires forall t :: t in ts ==> t in m
    ensures r >= 0
    ensures forall t :: t in ts ==> m[t].timeSinceLastWork <= r
    ensures r == 0 || exists t :: t in ts && m[t].timeSinceLastWork == r
  {
    if ts == [] then 0
    else
      var n := |ts| - 1;
      assert forall t :: t in ts <==> t in ts[..n] || t == ts[n];
      Max(MaxRecency(ts[..n], m), m[ts[n]].timeSinceLastWork)
  }

  /** The loop that accumulates the two maxima over the dictionary. */
  method NormalizationFactors(order: seq<string>, merged: map<string, Aggregate>) returns (maxDuration: int, maxRecency: int)
    requires forall t :: t in order ==> t in merged
    ensures maxDuration == MaxDuration(order, merged)
    ensures maxRecency == MaxRecency(order, merged)
  {
    maxDuration, maxRecency := 0, 0;
    for k := 0 to |order|
      invariant maxDuration == MaxDuration(order[..k], merged)
      invariant maxRecency == MaxRecency(order[..k], merged)
    {
      var data := merged[order[k]];
      assert order[..k + 1][..k] == order[..k];
      maxDuration := Max(maxDuration, TotalDays(data.periods));
      maxRecency := Max(maxRecency, data.timeSinceLastWork);
    }
    assert order[..|order|] == order;
  }

  // ---------------------------------------------------------------------------
  // Step 5: scores.

  /** Days worked divided by 30, then divided by the largest total of days (0 if that is 0). */
  function NormalizedDuration(a: Aggregate, maxDuration: int): real {
    var total := (TotalDays(a.periods) as real) / 30.0;
    if maxDuration > 0 then total / (maxDuration as real) else 0.0
  }

  function NormalizedRecency(a: Aggregate, maxRecency: int): real {
    if maxRecency > 0 then ((maxRecency - a.timeSinceLastWork) as real) / (maxRecency as real) else 0.0
  }

  function JobTypeScore(a: Aggregate): real {
    if a.jobType == FullTime then 1.0 else 0.5
  }

  function Score(a: Aggregate, maxDuration: int, maxRecency: int, w: Weights): real {
    RealBounds.WeightedSum(w.workPeriod, NormalizedDuration(a, maxDuration),
                           w.recency, NormalizedRecency(a, maxRecency),
                           w.jobType, JobTypeScore(a))
  }

  function ScoresOf(order: seq<string>, m: map<string, Aggregate>, maxDuration: int, maxRecency: int, w: Weights): (r: seq<ScoredTitle>)
    requires forall t :: t in order ==> t in m
    ensures |r| == |order|
    ensures forall i :: 0 <= i < |r| ==> r[i].title == order[i]
  {
    seq(|order|, i requires 0 <= i < |order| => ScoredTitle(order[i], Score(m[order[i]], maxDuration, maxRecency, w)))
  }

  lemma ScoresOfAt(order: seq<string>, m: map<string, Aggregate>, maxDuration: int, maxRecency: int, w: Weights, i: nat)
    requires forall t :: t in order ==> t in m
    requires i < |order|
    ensures ScoresOf(order, m, maxDuration, maxRecency, w)[i] == ScoredTitle(order[i], Score(m[order[i]], maxDuration, maxRecency, w))
  {
  }

  /** The loop that appends one (title, score) pair per title, in dictionary order. */
  method ScoreTitles(order: seq<string>, merged: map<string, Aggregate>, maxDuration: int, maxRecency: int, w: Weights)
    returns (scores: seq<ScoredTitle>)
    requires forall t :: t in order ==> t in merged
    ensures scores == ScoresOf(order, merged, maxDuration, maxRecency, w)
  {
    scores := [];
    for k := 0 to |order|
      invariant scores == ScoresOf(order[..k], merged, maxDuration, maxRecency, w)
    {
      var title := order[k];
      var score := Score(merged[title], maxDuration, maxRecency, w);
      scores := scores + [ScoredTitle(title, score)];
    }
    assert order[..|order|] == order;
  }

  // ---------------------------------------------------------------------------
  // Steps 7-8: the descending stable sort, and the whole ranking.

  function ByScoreDescending(): (ScoredTitle, ScoredTitle) -> bool {
    (a: ScoredTitle, b: ScoredTitle) => a.score >= b.score
  }

  lemma ByScoreDescendingIsTotalPreorder()
    ensures Sorting.TotalPreorder(ByScoreDescending())
  {
  }

  /** The dictionary after the fold and the merge. */
  function MergedTable(recent: seq<Job>): (m: map<string, Aggregate>)
    ensures forall t :: t in m <==> t in Titles(recent)
  {
    assert forall t :: t in Titles(recent) <==> HasTitle(recent, t) by {
      forall t { TitlesAreHasTitle(recent, t); }
    }
    map t | t in Titles(recent) :: MergedAggregateOf(recent, t)
  }

  /** The keys the fold leaves are exactly the titles in dictionary order. */
  lemma AggregatedKeys(recent: seq<Job>, order: seq<string>, aggregated: map<string, Aggregate>)
    requires order == Titles(recent)
    requires forall t :: t in aggregated <==> HasTitle(recent, t)
    ensures NoDuplicates(order)
    ensures forall t :: t in aggregated <==> t in order
  {
    forall t ensures t in aggregated <==> t in order {
      TitlesAreHasTitle(recent, t);
    }
  }

  /** A dictionary with one merged aggregate per title is `MergedTable`. */
  lemma MergedIsTable(recent: seq<Job>, merged: map<string, Aggregate>)
    requires forall t :: t in merged <==> HasTitle(recent, t)
    requires forall t :: t in merged ==> merged[t] == MergedAggregateOf(recent, t)
    ensures merged == MergedTable(recent)
  {
    var table := MergedTable(recent);
    TableKeys(recent);
    assert merged.Keys == table.Keys;
    forall t | t in merged ensures merged[t] == table[t] {
      TableEntry(recent, t);
    }
  }

  lemma TableKeys(recent: seq<Job>)
    ensures forall t :: t in MergedTable(recent) <==> HasTitle(recent, t)
  {
    forall t ensures t in MergedTable(recent) <==> HasTitle(recent, t) {
      TitlesAreHasTitle(recent, t);
    }
  }

  lemma TableEntry(recent: seq<Job>, t: string)
    requires HasTitle(recent, t)
    ensures t in MergedTable(recent) && MergedTable(recent)[t] == MergedAggregateOf(recent, t)
  {
    TitlesAreHasTitle(recent, t);
  }

  /** The scores in dictionary order, before sorting. */
  function UnsortedScores(w: Weights, years: int, jobs: seq<Job>, now: Instant): seq<ScoredTitle> {
    var recent := Recent(jobs, YearsBefore(now, years));
    var order := Titles(recent);
    var m := MergedTable(recent);
    ScoresOf(order, m, MaxDuration(order, m), MaxRecency(order, m), w)
  }

  /** What rank_jobs returns. */
  function Rank(w: Weights, years: int, jobs: seq<Job>, now: Instant): seq<ScoredTitle> {
    Sorting.SortBy(UnsortedScores(w, years, jobs, now), ByScoreDescending())
  }

  class JobRanker {
    const weights: Weights
    const maxExperienceYears: int

    constructor(weights: Weights, maxExperienceYears: int := 15)
      ensures this.weights == weights && this.maxExperienceYears == maxExperienceYears
    {
      this.weights := weights;
      this.maxExperienceYears := maxExperienceYears;
    }

    /** Ranks the titles of `jobs`; `now` stands for the clock reading `datetime.now()`. */
    method RankJobs(jobs: seq<Job>, now: Instant) returns (ranked: seq<ScoredTitle>)
      ensures ranked == Rank(weights, maxExperienceYears, jobs, now)
    {
      var cutoff := YearsBefore(now, maxExperienceYears);
      var filtered := Recent(jobs, cutoff);
      var order, merged := AggregateByTitle(filtered);
      AggregatedKeys(filtered, order, merged);
      merged := MergeAllPeriods(order, merged);
      MergedIsTable(filtered, merged);
      var maxDuration, maxRecency := NormalizationFactors(order, merged);
      var scores := ScoreTitles(order, merged, maxDuration, maxRecency, weights);
      ranked := Sorting.SortBy(scores, ByScoreDescending());
    }
  }
}

/** Properties of the ranking as a whole. */
module JobRankingProperties {
  import opened Calendar
  import opened Intervals
  import opened Sequences
  import opened JobRanking
  import Sorting
  import RealBounds

  /** What the dictionary holds for a surviving title after the fold and the merge:
      the least time since last work among its jobs, "full-time" exactly when one of its
      jobs is full-time (else "part-time"), and merged periods that cover exactly the
      months its jobs cover. */
  lemma MergedTableEntry(recent: seq<Job>, t: string, month: int)
    requires t in MergedTable(recent)
    ensures exists i :: 0 <= i < |recent| && recent[i].title == t
              && recent[i].timeSinceLastWork == MergedTable(recent)[t].timeSinceLastWork
    ensures forall i :: 0 <= i < |recent| && recent[i].title == t
              ==> MergedTable(recent)[t].timeSinceLastWork <= recent[i].timeSinceLastWork
    ensures MergedTable(recent)[t].jobType == FullTime <==>
              exists i :: 0 <= i < |recent| && recent[i].title == t && recent[i].jobType == FullTime
    ensures MergedTable(recent)[t].jobType != FullTime ==> MergedTable(recent)[t].jobType == PartTime
    ensures CoveredBy(MergedTable(recent)[t].periods, month) <==>
              exists i :: 0 <= i < |recent| && recent[i].title == t && Covers(recent[i].period, month)
  {
    TitlesAreHasTitle(recent, t);
    var ps := PeriodsOf(recent, t);
    MergedCoversSameMonths(ps, month);
    if CoveredBy(ps, month) {
      var p :| p in ps && Covers(p, month);
    }
    if exists i :: 0 <= i < |recent| && recent[i].title == t && Covers(recent[i].period, month) {
      var i :| 0 <= i < |recent| && recent[i].title == t && Covers(recent[i].period, month);
      assert recent[i].period in ps;
    }
  }

  function TitleOf(e: ScoredTitle): string { e.title }

  lemma {:induction false} RecentEmpty(jobs: seq<Job>, now: Instant, n: int)
    requires forall job :: job in jobs ==> job.period.end <= now.month - 12 * n
    ensures Recent(jobs, YearsBefore(now, n)) == []
  {
    if jobs != [] {
      StartAfterCutoff(jobs[0].period.end, now, n);
      assert forall job :: job in jobs[1..] ==> job in jobs;
      RecentEmpty(jobs[1..], now, n);
    }
  }

  /** The unsorted scores list the surviving titles in dictionary order. */
  lemma UnsortedTitles(w: Weights, years: int, jobs: seq<Job>, now: Instant)
    ensures var u := UnsortedScores(w, years, jobs, now);
      var order := Titles(Recent(jobs, YearsBefore(now, years)));
      |u| == |order| && forall i :: 0 <= i < |u| ==> u[i].title == order[i]
  {
  }

  lemma RankHasSameEntries(w: Weights, years: int, jobs: seq<Job>, now: Instant, e: ScoredTitle)
    ensures e in Rank(w, years, jobs, now) <==> e in UnsortedScores(w, years, jobs, now)
  {
    var u := UnsortedScores(w, years, jobs, now);
    Sorting.SortByPermutes(u, ByScoreDescending());
    assert e in Rank(w, years, jobs, now) <==> e in multiset(Rank(w, years, jobs, now));
  }

  /** No title appears twice in the ranking. */
  lemma RankTitlesDistinct(w: Weights, years: int, jobs: seq<Job>, now: Instant)
    ensures Sorting.DistinctBy(Rank(w, years, jobs, now), TitleOf)
  {
    var u := UnsortedScores(w, years, jobs, now);
    var order := Titles(Recent(jobs, YearsBefore(now, years)));
    UnsortedTitles(w, years, jobs, now);
    assert Sorting.DistinctBy(u, TitleOf) by {
      forall i, j | 0 <= i < j < |u| ensures TitleOf(u[i]) != TitleOf(u[j]) {
        assert u[i].title == order[i] && u[j].title == order[j];
      }
    }
    Sorting.SortByKeepsDistinct(u, ByScoreDescending(), TitleOf);
  }

  /** The surviving job that puts `e`'s title in the ranking. */
  lemma RankedTitleSurvives(w: Weights, years: int, jobs: seq<Job>, now: Instant, e: ScoredTitle) returns (job: Job)
    requires e in Rank(w, years, jobs, now)
    ensures job in jobs && job.period.end > now.month - 12 * years && job.title == e.title
  {
    var recent := Recent(jobs, YearsBefore(now, years));
    var u := UnsortedScores(w, years, jobs, now);
    var order := Titles(recent);
    UnsortedTitles(w, years, jobs, now);
    RankHasSameEntries(w, years, jobs, now, e);
    var a :| 0 <= a < |u| && u[a] == e;
    TitlesAreHasTitle(recent, order[a]);
    var k :| 0 <= k < |recent| && recent[k].title == e.title;
    job := recent[k];
    RecentKeeps(jobs, now, years, job);
  }

  /** The ranking entry of a surviving job's title. */
  lemma SurvivingTitleRanked(w: Weights, years: int, jobs: seq<Job>, now: Instant, job: Job) returns (e: ScoredTitle)
    requires job in jobs && job.period.end > now.month - 12 * years
    ensures e in Rank(w, years, jobs, now) && e.title == job.title
  {
    var recent := Recent(jobs, YearsBefore(now, years));
    var u := UnsortedScores(w, years, jobs, now);
    var order := Titles(recent);
    UnsortedTitles(w, years, jobs, now);
    RecentKeeps(jobs, now, years, job);
    var k :| 0 <= k < |recent| && recent[k] == job;
    TitlesAreHasTitle(recent, job.title);
    var a :| 0 <= a < |order| && order[a] == job.title;
    e := u[a];
    RankHasSameEntries(w, years, jobs, now, e);
  }

  /** The ranked titles are exactly the titles of the jobs that survive the filter. */
  lemma RankTitlesAreSurvivingTitles(w: Weights, years: int, jobs: seq<Job>, now: Instant)
    ensures (set e | e in Rank(w, years, jobs, now) :: e.title)
         == (set job | job in jobs && job.period.end > now.month - 12 * years :: job.title)
  {
    var r := Rank(w, years, jobs, now);
    var bound := now.month - 12 * years;
    forall e | e in r ensures exists job :: job in jobs && job.period.end > bound && job.title == e.title {
      var job := RankedTitleSurvives(w, years, jobs, now, e);
    }
    forall job | job in jobs && job.period.end > bound ensures exists e :: e in r && e.title == job.title {
      var e := SurvivingTitleRanked(w, years, jobs, now, job);
    }
    SameTitleSets(r, jobs, bound);
  }

  lemma SameTitleSets(r: seq<ScoredTitle>, jobs: seq<Job>, bound: int)
    requires forall e :: e in r ==> exists job :: job in jobs && job.period.end > bound && job.title == e.title
    requires forall job :: job in jobs && job.period.end > bound ==> exists e :: e in r && e.title == job.title
    ensures (set e | e in r :: e.title) == (set job | job in jobs && job.period.end > bound :: job.title)
  {
  }

  /** The ranking is ordered by non-increasing score. */
  lemma RankIsDescending(w: Weights, years: int, jobs: seq<Job>, now: Instant)
    ensures var r := Rank(w, years, jobs, now);
      forall i, j :: 0 <= i < j < |r| ==> r[i].score >= r[j].score
  {
    ByScoreDescendingIsTotalPreorder();
    Sorting.SortBySorts(UnsortedScores(w, years, jobs, now), ByScoreDescending());
  }

  /** Titles with equal scores keep the order in which they were first inserted. */
  lemma RankIsStable(w: Weights, years: int, jobs: seq<Job>, now: Instant, z: ScoredTitle)
    ensures Sorting.Ties(Rank(w, years, jobs, now), z, ByScoreDescending())
         == Sorting.Ties(UnsortedScores(w, years, jobs, now), z, ByScoreDescending())
    ensures var u := UnsortedScores(w, years, jobs, now);
      var recent := Recent(jobs, YearsBefore(now, years));
      forall i, j :: 0 <= i < j < |u| ==>
        FirstIndex(TitleSeq(recent), u[i].title) < FirstIndex(TitleSeq(recent), u[j].title)
  {
    ByScoreDescendingIsTotalPreorder();
    Sorting.SortByIsStable(UnsortedScores(w, years, jobs, now), z, ByScoreDescending());
    FirstsInOrderOfFirstOccurrence(TitleSeq(Recent(jobs, YearsBefore(now, years))));
  }

  /** No job, or no job recent enough, gives an empty ranking. */
  lemma RankOfNothingIsEmpty(w: Weights, years: int, jobs: seq<Job>, now: Instant)
    requires forall job :: job in jobs ==> job.period.end <= now.month - 12 * years
    ensures Rank(w, years, jobs, now) == []
  {
    RecentEmpty(jobs, now, years);
    assert Titles([]) == [];
  }

  /** The sub-scores of a title against maxima that bound it: normalised duration within
      [0, 1/30] (days/30 over a maximum counted in days), normalised recency within [0, 1]
      and 0 when the largest recency is 0, job-type score 1.0 for full-time, 0.5 otherwise. */
  lemma SubScoreBounds(a: Aggregate, maxDuration: int, maxRecency: int)
    requires forall p :: p in a.periods ==> Valid(p)
    requires TotalDays(a.periods) <= maxDuration
    requires 0 <= a.timeSinceLastWork <= maxRecency
    ensures 0.0 <= NormalizedDuration(a, maxDuration) <= 1.0 / 30.0
    ensures 0.0 <= NormalizedRecency(a, maxRecency) <= 1.0
    ensures maxRecency == 0 ==> NormalizedRecency(a, maxRecency) == 0.0
    ensures JobTypeScore(a) == (if a.jobType == FullTime then 1.0 else 0.5)
  {
    var d := TotalDays(a.periods);
    TotalDaysNonNegative(a.periods);
    if maxDuration > 0 {
      RealBounds.ScaledRatioBounds(d as real, maxDuration as real, 30.0);
    }
    if maxRecency > 0 {
      RealBounds.RatioBounds((maxRecency - a.timeSinceLastWork) as real, maxRecency as real);
    }
  }

  /** With non-negative weights summing to at most 1, the score lies in [0, 1]. */
  lemma ScoreBounds(a: Aggregate, maxDuration: int, maxRecency: int, w: Weights)
    requires forall p :: p in a.periods ==> Valid(p)
    requires TotalDays(a.periods) <= maxDuration
    requires 0 <= a.timeSinceLastWork <= maxRecency
    requires w.workPeriod >= 0.0 && w.recency >= 0.0 && w.jobType >= 0.0
    requires w.workPeriod + w.recency + w.jobType <= 1.0
    ensures 0.0 <= Score(a, maxDuration, maxRecency, w) <= 1.0
  {
    var duration, recency, jobType := NormalizedDuration(a, maxDuration), NormalizedRecency(a, maxRecency), JobTypeScore(a);
    SubScoreBounds(a, maxDuration, maxRecency);
    RealBounds.WeightedSumBounds(w.workPeriod, duration, w.recency, recency, w.jobType, jobType);
  }

  /** Every score in the ranking lies in [0, 1] when the weights are non-negative and sum
      to at most 1, every work period ends no earlier than it starts, and no job reports a
      negative time since last work. */
  lemma RankScoresBounded(w: Weights, years: int, jobs: seq<Job>, now: Instant, e: ScoredTitle)
    requires forall job :: job in jobs ==> Valid(job.period) && job.timeSinceLastWork >= 0
    requires w.workPeriod >= 0.0 && w.recency >= 0.0 && w.jobType >= 0.0
    requires w.workPeriod + w.recency + w.jobType <= 1.0
    requires e in Rank(w, years, jobs, now)
    ensures 0.0 <= e.score <= 1.0
  {
    var recent := Recent(jobs, YearsBefore(now, years));
    var order := Titles(recent);
    var m := MergedTable(recent);
    var md, mr := MaxDuration(order, m), MaxRecency(order, m);
    var u := UnsortedScores(w, years, jobs, now);
    assert u == ScoresOf(order, m, md, mr, w);
    RankHasSameEntries(w, years, jobs, now, e);
    var i :| 0 <= i < |u| && u[i] == e;
    var t := order[i];
    ScoresOfAt(order, m, md, mr, w, i);
    TitlesAreHasTitle(recent, t);
    TableEntry(recent, t);
    var a := MergedAggregateOf(recent, t);
    forall p | p in PeriodsOf(recent, t) ensures Valid(p) {
      var k :| 0 <= k < |recent| && recent[k].title == t && recent[k].period == p;
      RecentKeeps(jobs, now, years, recent[k]);
    }
    MergedValid(PeriodsOf(recent, t));
    var k :| 0 <= k < |recent| && recent[k].title == t && recent[k].timeSinceLastWork == a.timeSinceLastWork;
    RecentKeeps(jobs, now, years, recent[k]);
    ScoreBounds(a, md, mr, w);
  }
}
