/** Work periods of one job title and the sort-then-sweep merge that joins
    overlapping or adjacent periods (a gap of at most one month). */
module Intervals {
  import opened Calendar
  import opened Wrappers
  import Sorting

  datatype Period = Period(start: Month, end: Month)

  predicate Valid(p: Period) { p.start <= p.end }

  /** Month `m` lies in the period (both ends included). */
  predicate Covers(p: Period, m: int) { p.start <= m <= p.end }

  predicate CoveredBy(ps: seq<Period>, m: int) {
    exists p :: p in ps && Covers(p, m)
  }

  /** `p` lies inside `q`. */
  predicate Within(p: Period, q: Period) { q.start <= p.start && p.end <= q.end }

  predicate StartsSorted(ps: seq<Period>) {
    forall i, j :: 0 <= i < j < |ps| ==> ps[i].start <= ps[j].start
  }

  /** Each period starts more than one month after the previous one ends. */
  predicate Separated(ps: seq<Period>) {
    forall i :: 0 <= i < |ps| - 1 ==> ps[i].end + 1 < ps[i + 1].start
  }

  function ByStart(): (Period, Period) -> bool {
    (a: Period, b: Period) => a.start <= b.start
  }

  lemma ByStartIsTotalPreorder()
    ensures Sorting.TotalPreorder(ByStart())
  {
  }

  /** `sorted(periods, key=start)`. */
  function SortByStart(ps: seq<Period>): seq<Period> {
    Sorting.SortBy(ps, ByStart())
  }

  function Max(a: int, b: int): int { if a >= b then a else b }

  /** The sweep over periods sorted by start: `cur` is the span being grown and
      `done` the spans already closed. A period that starts no later than the month
      after `cur` ends joins `cur`; any other closes `cur` and opens a new span. */
  function SweepFrom(done: seq<Period>, cur: Period, rest: seq<Period>): seq<Period>
    decreases |rest|
  {
    if rest == [] then done + [cur]
    else if rest[0].start <= cur.end + 1 then
      SweepFrom(done, Period(cur.start, Max(cur.end, rest[0].end)), rest[1..])
    else
      SweepFrom(done + [cur], rest[0], rest[1..])
  }

  function Sweep(ps: seq<Period>): seq<Period> {
    if ps == [] then [] else SweepFrom([], ps[0], ps[1..])
  }

  /** A title's merged work periods. */
  function Merged(ps: seq<Period>): seq<Period> {
    Sweep(SortByStart(ps))
  }

  /** The merge loop of the ranker: sort by start, then sweep once, with
      `current` standing for the pair (current_start, current_end), None at first. */
  method MergePeriods(periods: seq<Period>) returns (merged: seq<Period>)
    ensures merged == Merged(periods)
  {
    var sorted := SortByStart(periods);
    merged := [];
    var current: Option<Period> := None;
    for i := 0 to |sorted|
      invariant current.None? <==> i == 0
      invariant current.None? ==> merged == []
      invariant current.Some? ==> Sweep(sorted) == SweepFrom(merged, current.value, sorted[i..])
    {
      var period := sorted[i];
      if current.None? {
        assert sorted[i..] == [period] + sorted[i + 1..];
        current := Some(period);
      } else if period.start <= current.value.end + 1 {
        current := Some(Period(current.value.start, Max(current.value.end, period.end)));
      } else {
        merged := merged + [current.value];
        current := Some(period);
      }
    }
    if current.Some? {
      merged := merged + [current.value];
    }
  }

  // ---------------------------------------------------------------------------
  // Properties of the sweep, stated for any state of the loop.

  lemma {:induction false} SweepFromShape(done: seq<Period>, cur: Period, rest: seq<Period>)
    requires StartsSorted(done) && Separated(done)
    requires forall d :: d in done ==> d.start <= cur.start
    requires done != [] ==> done[|done| - 1].end + 1 < cur.start
    requires StartsSorted(rest)
    requires forall p :: p in rest ==> cur.start <= p.start
    ensures StartsSorted(SweepFrom(done, cur, rest)) && Separated(SweepFrom(done, cur, rest))
    decreases |rest|
  {
    if rest == [] {
      CloseKeepsShape(done, cur);
    } else {
      assert forall p :: p in rest[1..] ==> p in rest;
      if rest[0].start <= cur.end + 1 {
        SweepFromShape(done, Period(cur.start, Max(cur.end, rest[0].end)), rest[1..]);
      } else {
        var done' := done + [cur];
        CloseKeepsShape(done, cur);
        assert forall d :: d in done' ==> d in done || d == cur;
        SweepFromShape(done', rest[0], rest[1..]);
      }
    }
  }

  /** Closing `cur` after the spans already closed keeps them sorted and separated. */
  lemma CloseKeepsShape(done: seq<Period>, cur: Period)
    requires StartsSorted(done) && Separated(done)
    requires forall d :: d in done ==> d.start <= cur.start
    requires done != [] ==> done[|done| - 1].end + 1 < cur.start
    ensures StartsSorted(done + [cur]) && Separated(done + [cur])
  {
    var s := done + [cur];
    forall i, j | 0 <= i < j < |s| ensures s[i].start <= s[j].start {
      if j == |done| {
        assert s[i] in done;
      }
    }
  }

  lemma {:induction false} SweepFromCoverage(done: seq<Period>, cur: Period, rest: seq<Period>, m: int)
    requires StartsSorted(rest)
    requires forall p :: p in rest ==> cur.start <= p.start
    ensures CoveredBy(SweepFrom(done, cur, rest), m) <==>
      CoveredBy(done, m) || Covers(cur, m) || CoveredBy(rest, m)
    decreases |rest|
  {
    if rest == [] {
      assert forall d :: d in done + [cur] <==> d in done || d == cur;
    } else {
      var p := rest[0];
      assert forall q :: q in rest <==> q == p || q in rest[1..];
      FirstSortedIsLeast(rest);
      if p.start <= cur.end + 1 {
        var cur' := Period(cur.start, Max(cur.end, p.end));
        assert Covers(cur', m) <==> Covers(cur, m) || Covers(p, m);
        SweepFromCoverage(done, cur', rest[1..], m);
      } else {
        assert forall d :: d in done + [cur] <==> d in done || d == cur;
        SweepFromCoverage(done + [cur], p, rest[1..], m);
      }
    }
  }

  lemma {:induction false} SweepFromContains(done: seq<Period>, cur: Period, rest: seq<Period>)
    requires StartsSorted(rest)
    requires forall p :: p in rest ==> cur.start <= p.start
    ensures forall d :: d in done ==> d in SweepFrom(done, cur, rest)
    ensures exists q :: q in SweepFrom(done, cur, rest) && Within(cur, q)
    ensures forall p :: p in rest ==> exists q :: q in SweepFrom(done, cur, rest) && Within(p, q)
    decreases |rest|
  {
    var r := SweepFrom(done, cur, rest);
    if rest == [] {
      assert cur in r && Within(cur, cur);
    } else {
      var p := rest[0];
      assert forall q :: q in rest <==> q == p || q in rest[1..];
      FirstSortedIsLeast(rest);
      if p.start <= cur.end + 1 {
        var cur' := Period(cur.start, Max(cur.end, p.end));
        SweepFromContains(done, cur', rest[1..]);
        var q :| q in r && Within(cur', q);
        assert Within(cur, q) && Within(p, q);
      } else {
        SweepFromContains(done + [cur], p, rest[1..]);
        assert cur in done + [cur];
        assert Within(cur, cur);
      }
    }
  }

  lemma {:induction false} SweepFromValid(done: seq<Period>, cur: Period, rest: seq<Period>)
    requires forall d :: d in done ==> Valid(d)
    requires Valid(cur)
    requires forall p :: p in rest ==> Valid(p)
    ensures forall q :: q in SweepFrom(done, cur, rest) ==> Valid(q)
    decreases |rest|
  {
    if rest != [] {
      assert forall q :: q in rest[1..] ==> q in rest;
      if rest[0].start <= cur.end + 1 {
        SweepFromValid(done, Period(cur.start, Max(cur.end, rest[0].end)), rest[1..]);
      } else {
        SweepFromValid(done + [cur], rest[0], rest[1..]);
      }
    }
  }

  lemma {:induction false} SweepFromLength(done: seq<Period>, cur: Period, rest: seq<Period>)
    ensures |done| < |SweepFrom(done, cur, rest)| <= |done| + 1 + |rest|
    decreases |rest|
  {
    if rest != [] {
      if rest[0].start <= cur.end + 1 {
        SweepFromLength(done, Period(cur.start, Max(cur.end, rest[0].end)), rest[1..]);
      } else {
        SweepFromLength(done + [cur], rest[0], rest[1..]);
      }
    }
  }

  // ---------------------------------------------------------------------------
  // Properties of a title's merged periods.

  lemma SortByStartFacts(ps: seq<Period>)
    ensures multiset(SortByStart(ps)) == multiset(ps)
    ensures forall p :: p in SortByStart(ps) <==> p in ps
    ensures |SortByStart(ps)| == |ps|
    ensures StartsSorted(SortByStart(ps))
  {
    Sorting.SortByPermutes(ps, ByStart());
    Sorting.SortByLength(ps, ByStart());
    ByStartIsTotalPreorder();
    Sorting.SortBySorts(ps, ByStart());
    var s := SortByStart(ps);
    assert forall p :: p in s <==> p in multiset(s);
  }

  lemma FirstSortedIsLeast(s: seq<Period>)
    requires s != [] && StartsSorted(s)
    ensures StartsSorted(s[1..])
    ensures forall p :: p in s[1..] ==> s[0].start <= p.start
  {
    forall p | p in s[1..] ensures s[0].start <= p.start {
      var k :| 0 <= k < |s[1..]| && s[1..][k] == p;
      assert s[k + 1] == p;
    }
  }

  /** Merged periods are sorted by start, and each starts more than a month after the previous ends. */
  lemma MergedSortedAndSeparated(ps: seq<Period>)
    ensures StartsSorted(Merged(ps)) && Separated(Merged(ps))
  {
    var s := SortByStart(ps);
    SortByStartFacts(ps);
    if s != [] {
      FirstSortedIsLeast(s);
      SweepFromShape([], s[0], s[1..]);
    }
  }

  /** Merging loses no covered month and adds none. */
  lemma MergedCoversSameMonths(ps: seq<Period>, m: int)
    ensures CoveredBy(Merged(ps), m) <==> CoveredBy(ps, m)
  {
    var s := SortByStart(ps);
    SortByStartFacts(ps);
    if s != [] {
      FirstSortedIsLeast(s);
      SweepFromCoverage([], s[0], s[1..], m);
      assert forall q :: q in s <==> q == s[0] || q in s[1..];
    }
  }

  /** Every original period lies inside some merged period. */
  lemma MergedContainsEach(ps: seq<Period>)
    ensures forall p :: p in ps ==> exists q :: q in Merged(ps) && Within(p, q)
  {
    var s := SortByStart(ps);
    SortByStartFacts(ps);
    if s != [] {
      FirstSortedIsLeast(s);
      SweepFromContains([], s[0], s[1..]);
      assert forall q :: q in s <==> q == s[0] || q in s[1..];
    }
  }

  /** Merging never yields more periods than it was given, and yields none only from none. */
  lemma MergedLength(ps: seq<Period>)
    ensures |Merged(ps)| <= |ps|
    ensures Merged(ps) == [] <==> ps == []
  {
    var s := SortByStart(ps);
    SortByStartFacts(ps);
    if s != [] {
      SweepFromLength([], s[0], s[1..]);
    }
  }

  /** Merging well-formed periods yields well-formed periods. */
  lemma MergedValid(ps: seq<Period>)
    requires forall p :: p in ps ==> Valid(p)
    ensures forall q :: q in Merged(ps) ==> Valid(q)
  {
    var s := SortByStart(ps);
    SortByStartFacts(ps);
    if s != [] {
      assert forall q :: q in s[1..] ==> q in s;
      SweepFromValid([], s[0], s[1..]);
    }
  }

  /** In a sorted, separated list no month lies in two different periods. */
  lemma SeparatedDisjoint(qs: seq<Period>, i: nat, j: nat, m: int)
    requires StartsSorted(qs) && Separated(qs)
    requires i < j < |qs|
    ensures !(Covers(qs[i], m) && Covers(qs[j], m))
  {
    assert qs[i].end + 1 < qs[i + 1].start <= qs[j].start;
  }

  /** A well-formed original period lies inside exactly one merged period. */
  lemma WithinExactlyOne(ps: seq<Period>, p: Period)
    requires p in ps && Valid(p)
    ensures exists k :: 0 <= k < |Merged(ps)| && Within(p, Merged(ps)[k])
    ensures forall k1, k2 ::
              0 <= k1 < |Merged(ps)| && 0 <= k2 < |Merged(ps)| &&
              Within(p, Merged(ps)[k1]) && Within(p, Merged(ps)[k2])
              ==> k1 == k2
  {
    var qs := Merged(ps);
    MergedContainsEach(ps);
    MergedSortedAndSeparated(ps);
    var q :| q in qs && Within(p, q);
    var k :| 0 <= k < |qs| && qs[k] == q;
    forall k1, k2 | 0 <= k1 < |qs| && 0 <= k2 < |qs| && Within(p, qs[k1]) && Within(p, qs[k2])
      ensures k1 == k2
    {
      if k1 < k2 {
        SeparatedDisjoint(qs, k1, k2, p.start);
      } else if k2 < k1 {
        SeparatedDisjoint(qs, k2, k1, p.start);
      }
    }
  }
}
