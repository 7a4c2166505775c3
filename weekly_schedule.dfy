/** The weekly study schedule: the teaching sessions of the planned modules, bucketed
    by week, written as Markdown with one heading per week (weeks in ascending string
    order) and one bullet per session (in module order, then session order). */
module WeeklySchedule {
  import opened Wrappers
  import opened Sequences
  import Sorting

  /** One teaching session; each field may be absent from the record. The week is
      held as the text Python's formatting writes for it. */
  datatype Session = Session(week: Option<string>, day: Option<string>, time: Option<string>, location: Option<string>)

  /** One planned module: its "module" name and its "teaching_session" list, either
      of which may be missing from the record. */
  datatype PlannedModule = PlannedModule(name: Option<string>, teachingSession: Option<seq<Session>>)

  const NoPlanWarning: string := "\U{26A0}\U{FE0F} No study plan found. Please generate a study plan first."
  const Heading: string := "## \U{1F4C6} Weekly Study Schedule\n\n"

  /** The text returned when a record lacks `key` (a `KeyError` caught by the handler). */
  function ErrorText(key: string): string {
    "\U{26A0}\U{FE0F} Error while generating the weekly schedule: '" + key + "'"
  }

  /** `ts.get(field, 'N/A')`. */
  function OrNA(v: Option<string>): string { v.GetOr("N/A") }

  function WeekKey(ts: Session): string { "Week " + OrNA(ts.week) }

  function Bullet(name: string, ts: Session): string {
    "\U{1F4CC} **" + name + "**: " + OrNA(ts.day) + " at " + OrNA(ts.time) + " in " + OrNA(ts.location)
  }

  predicate WellFormed(m: PlannedModule) { m.name.Some? && m.teachingSession.Some? }

  predicate AllWellFormed(plan: seq<PlannedModule>) {
    forall i :: 0 <= i < |plan| ==> WellFormed(plan[i])
  }

  /** The key whose absence stops the loop first, if any: "module" is read before
      "teaching_session", module by module. */
  function FirstMissingKey(plan: seq<PlannedModule>): Option<string> {
    if plan == [] then None
    else if plan[0].name.None? then Some("module")
    else if plan[0].teachingSession.None? then Some("teaching_session")
    else FirstMissingKey(plan[1..])
  }

  /** A bullet filed under its week heading. */
  datatype Line = Line(week: string, text: string)

  /** The lines of one module's sessions, in session order. */
  function SessionLines(name: string, sessions: seq<Session>): seq<Line> {
    if sessions == [] then []
    else
      var ts := sessions[|sessions| - 1];
      SessionLines(name, sessions[..|sessions| - 1]) + [Line(WeekKey(ts), Bullet(name, ts))]
  }

  /** The lines of all sessions, in module order, then session order. */
  function Lines(plan: seq<PlannedModule>): seq<Line>
    requires AllWellFormed(plan)
  {
    if plan == [] then []
    else
      var m := plan[|plan| - 1];
      Lines(plan[..|plan| - 1]) + SessionLines(m.name.value, m.teachingSession.value)
  }

  function WeekSeq(lines: seq<Line>): seq<string> {
    if lines == [] then [] else WeekSeq(lines[..|lines| - 1]) + [lines[|lines| - 1].week]
  }

  /** The bullets filed under `week`, in the order they were appended. */
  function TextsFor(lines: seq<Line>, week: string): seq<string> {
    if lines == [] then []
    else
      var l := lines[|lines| - 1];
      TextsFor(lines[..|lines| - 1], week) + (if l.week == week then [l.text] else [])
  }

  /** Python's string order: code point by code point, a proper prefix first. */
  predicate LexLe(a: string, b: string) {
    a == [] || (b != [] && (a[0] < b[0] || (a[0] == b[0] && LexLe(a[1..], b[1..]))))
  }

  function ByWeek(): (string, string) -> bool {
    (a: string, b: string) => LexLe(a, b)
  }

  /** The week keys, in the order of `sorted(weekly_schedule.items())`. */
  function SortedWeeks(lines: seq<Line>): seq<string> {
    Sorting.SortBy(Firsts(WeekSeq(lines)), ByWeek())
  }

  function Bullets(texts: seq<string>): string {
    if texts == [] then "" else Bullets(texts[..|texts| - 1]) + "- " + texts[|texts| - 1] + "\n"
  }

  function Section(week: string, texts: seq<string>): string {
    "### " + week + "\n" + Bullets(texts) + "\n"
  }

  function Sections(weeks: seq<string>, lines: seq<Line>): string {
    if weeks == [] then ""
    else
      var w := weeks[|weeks| - 1];
      Sections(weeks[..|weeks| - 1], lines) + Section(w, TextsFor(lines, w))
  }

  /** What `format_weekly_schedule` returns for the state's "teaching_sessions_modules"
      entry (`None` when the state has none). */
  function Render(plan: Option<seq<PlannedModule>>): string {
    if plan.None? || plan.value == [] then NoPlanWarning
    else
      match FirstMissingKey(plan.value)
      case Some(key) => ErrorText(key)
      case None =>
        FirstMissingKeyNone(plan.value);
        var lines := Lines(plan.value);
        Heading + Sections(SortedWeeks(lines), lines)
  }

  // ---------------------------------------------------------------------------
  // The formatter.

  /** The dictionary `weekly` (keys in insertion order `weeks`) holds, for each week,
      the bullets of `lines` filed under it. */
  ghost predicate Bucketed(weekly: map<string, seq<string>>, weeks: seq<string>, lines: seq<Line>) {
    && weeks == Firsts(WeekSeq(lines))
    && (forall w :: w in weekly <==> w in weeks)
    && (forall w :: w in weekly ==> weekly[w] == TextsFor(lines, w))
  }

  method FormatWeeklySchedule(plan: Option<seq<PlannedModule>>) returns (out: string)
    ensures out == Render(plan)
  {
    if plan.None? || plan.value == [] {
      return NoPlanWarning;
    }
    var modules := plan.value;
    var weekly: map<string, seq<string>> := map[];
    var weeks: seq<string> := [];
    ghost var lines: seq<Line> := [];
    for i := 0 to |modules|
      invariant AllWellFormed(modules[..i])
      invariant lines == Lines(modules[..i])
      invariant Bucketed(weekly, weeks, lines)
    {
      var m := modules[i];
      if m.name.None? {
        FirstMissingKeyAfter(modules, i);
        return ErrorText("module");
      }
      if m.teachingSession.None? {
        FirstMissingKeyAfter(modules, i);
        return ErrorText("teaching_session");
      }
      weekly, weeks, lines := FileSessions(m.name.value, m.teachingSession.value, weekly, weeks, lines);
      LinesStep(modules, i);
    }
    assert modules[..|modules|] == modules;
    FirstMissingKeyNoneIff(modules);
    out := WriteSchedule(weekly, weeks, lines);
  }

  /** The inner loop: files one module's sessions under their weeks. */
  method FileSessions(name: string, sessions: seq<Session>,
                      weekly0: map<string, seq<string>>, weeks0: seq<string>, ghost lines0: seq<Line>)
    returns (weekly: map<string, seq<string>>, weeks: seq<string>, ghost lines: seq<Line>)
    requires Bucketed(weekly0, weeks0, lines0)
    ensures lines == lines0 + SessionLines(name, sessions)
    ensures Bucketed(weekly, weeks, lines)
  {
    weekly, weeks, lines := weekly0, weeks0, lines0;
    for j := 0 to |sessions|
      invariant lines == lines0 + SessionLines(name, sessions[..j])
      invariant Bucketed(weekly, weeks, lines)
    {
      var ts := sessions[j];
      var week, text := WeekKey(ts), Bullet(name, ts);
      ghost var before, keysBefore := weekly, weeks;
      if week !in weekly {
        weekly := weekly[week := []];
        weeks := weeks + [week];
      }
      ghost var withKey := weekly;
      weekly := weekly[week := weekly[week] + [text]];
      FileLine(before, keysBefore, lines, Line(week, text), withKey, weekly, weeks);
      SessionLinesStep(name, sessions, j);
      AppendAssoc(lines0, SessionLines(name, sessions[..j]), [Line(week, text)]);
      lines := lines + [Line(week, text)];
    }
    assert sessions[..|sessions|] == sessions;
  }

  /** The output loop: the heading, then each week in sorted order with its bullets. */
  method WriteSchedule(weekly: map<string, seq<string>>, weeks: seq<string>, ghost lines: seq<Line>)
    returns (out: string)
    requires Bucketed(weekly, weeks, lines)
    ensures out == Heading + Sections(SortedWeeks(lines), lines)
  {
    var sorted := Sorting.SortBy(weeks, ByWeek());
    out := Heading;
    for k := 0 to |sorted|
      invariant out == Heading + Sections(sorted[..k], lines)
    {
      var week := sorted[k];
      Sorting.SortByMembers(weeks, ByWeek(), week);
      ghost var before := out;
      out := out + "### " + week + "\n";
      out := AppendBullets(out, weekly[week]);
      out := out + "\n";
      SectionAppended(before, week, weekly[week]);
      SectionsStep(sorted, k, lines);
      AppendAssoc(Heading, Sections(sorted[..k], lines), Section(week, weekly[week]));
    }
    assert sorted[..|sorted|] == sorted;
  }

  /** The inner output loop: one bullet line per session text. */
  method AppendBullets(out0: string, texts: seq<string>) returns (out: string)
    ensures out == out0 + Bullets(texts)
  {
    out := out0;
    for j := 0 to |texts|
      invariant out == out0 + Bullets(texts[..j])
    {
      BulletsStep(out0, texts, j);
      out := out + "- " + texts[j] + "\n";
    }
    assert texts[..|texts|] == texts;
  }

  // ---------------------------------------------------------------------------
  // Steps of the loops.

  /** Filing one line keeps the dictionary and its key order in step with the lines. */
  lemma FileLine(weekly0: map<string, seq<string>>, weeks0: seq<string>, lines: seq<Line>, line: Line,
                 withKey: map<string, seq<string>>, weekly: map<string, seq<string>>, weeks: seq<string>)
    requires Bucketed(weekly0, weeks0, lines)
    requires withKey == if line.week in weekly0 then weekly0 else weekly0[line.week := []]
    requires weeks == if line.week in weekly0 then weeks0 else weeks0 + [line.week]
    requires weekly == withKey[line.week := withKey[line.week] + [line.text]]
    ensures Bucketed(weekly, weeks, lines + [line])
  {
    AppendLine(lines, line);
    FirstsAppend(WeekSeq(lines), line.week);
    forall w | w in weekly ensures weekly[w] == TextsFor(lines + [line], w) {
      if w != line.week {
        assert weekly[w] == weekly0[w];
      } else if w !in weekly0 {
        NoTextsForAbsentWeek(lines, w);
      }
    }
  }

  /** A week no line is filed under has no bullets. */
  lemma {:induction false} NoTextsForAbsentWeek(lines: seq<Line>, w: string)
    requires w !in WeekSeq(lines)
    ensures TextsFor(lines, w) == []
  {
    if lines != [] {
      assert WeekSeq(lines) == WeekSeq(lines[..|lines| - 1]) + [lines[|lines| - 1].week];
      NoTextsForAbsentWeek(lines[..|lines| - 1], w);
    }
  }

  lemma SessionLinesStep(name: string, sessions: seq<Session>, j: nat)
    requires j < |sessions|
    ensures SessionLines(name, sessions[..j + 1]) ==
      SessionLines(name, sessions[..j]) + [Line(WeekKey(sessions[j]), Bullet(name, sessions[j]))]
  {
    assert sessions[..j + 1][..j] == sessions[..j];
  }

  lemma BulletsStep(prefix: string, texts: seq<string>, j: nat)
    requires j < |texts|
    ensures prefix + Bullets(texts[..j + 1]) == prefix + Bullets(texts[..j]) + "- " + texts[j] + "\n"
  {
    assert texts[..j + 1][..j] == texts[..j];
  }

  lemma SectionAppended(prefix: string, week: string, texts: seq<string>)
    ensures prefix + "### " + week + "\n" + Bullets(texts) + "\n" == prefix + Section(week, texts)
  {
  }

  lemma SectionsStep(weeks: seq<string>, k: nat, lines: seq<Line>)
    requires k < |weeks|
    ensures Sections(weeks[..k + 1], lines) == Sections(weeks[..k], lines) + Section(weeks[k], TextsFor(lines, weeks[k]))
  {
    assert weeks[..k + 1][..k] == weeks[..k];
  }

  /** Appending one line adds its text under its own week and its week, if new, at the end of the keys. */
  lemma AppendLine(lines: seq<Line>, line: Line)
    ensures WeekSeq(lines + [line]) == WeekSeq(lines) + [line.week]
    ensures forall w :: (TextsFor(lines + [line], w) ==
      TextsFor(lines, w) + (if line.week == w then [line.text] else []))
  {
    assert (lines + [line])[..|lines|] == lines;
  }

  lemma LinesStep(plan: seq<PlannedModule>, i: nat)
    requires i < |plan| && AllWellFormed(plan[..i + 1])
    ensures AllWellFormed(plan[..i])
    ensures Lines(plan[..i + 1]) ==
      Lines(plan[..i]) + SessionLines(plan[i].name.value, plan[i].teachingSession.value)
  {
    assert plan[..i + 1][..i] == plan[..i];
    assert forall k :: 0 <= k < i ==> plan[..i][k] == plan[..i + 1][k];
  }

  lemma {:induction false} FirstMissingKeyAfter(plan: seq<PlannedModule>, i: nat)
    requires i < |plan| && AllWellFormed(plan[..i])
    ensures FirstMissingKey(plan) == FirstMissingKey(plan[i..])
  {
    if i > 0 {
      assert plan[0] == plan[..i][0];
      assert plan[1..][i - 1..] == plan[i..];
      assert plan[1..][..i - 1] == plan[..i][1..];
      FirstMissingKeyAfter(plan[1..], i - 1);
    }
  }

  lemma FirstMissingKeyNone(plan: seq<PlannedModule>)
    requires FirstMissingKey(plan).None?
    ensures AllWellFormed(plan)
  {
    FirstMissingKeyNoneIff(plan);
  }

  // ---------------------------------------------------------------------------
  // Properties.

  /** No missing key is reported exactly when every record has both keys. */
  lemma {:induction false} FirstMissingKeyNoneIff(plan: seq<PlannedModule>)
    ensures FirstMissingKey(plan).None? <==> AllWellFormed(plan)
  {
    if plan != [] {
      FirstMissingKeyNoneIff(plan[1..]);
      assert AllWellFormed(plan) <==> WellFormed(plan[0]) && AllWellFormed(plan[1..]) by {
        assert forall k :: 0 <= k < |plan| - 1 ==> plan[1..][k] == plan[k + 1];
      }
    }
  }

  /** The reported key belongs to the first record that lacks one, "module" checked first. */
  lemma FirstMissingKeyAt(plan: seq<PlannedModule>, i: nat)
    requires i < |plan| && AllWellFormed(plan[..i]) && !WellFormed(plan[i])
    ensures FirstMissingKey(plan) == Some(if plan[i].name.None? then "module" else "teaching_session")
  {
    FirstMissingKeyAfter(plan, i);
  }

  /** What the formatter returns, case by case. */
  lemma RenderCases(plan: Option<seq<PlannedModule>>)
    ensures plan.None? || plan.value == [] ==> Render(plan) == NoPlanWarning
    ensures plan.Some? && plan.value != [] && FirstMissingKey(plan.value).Some? ==>
      Render(plan) == ErrorText(FirstMissingKey(plan.value).value)
    ensures plan.Some? && plan.value != [] && AllWellFormed(plan.value) ==>
      Render(plan) == Heading + Sections(SortedWeeks(Lines(plan.value)), Lines(plan.value))
  {
    if plan.Some? {
      FirstMissingKeyNoneIff(plan.value);
    }
  }

  /** Missing fields of a session are written as "N/A". */
  lemma MissingFieldsReadNA(name: string, ts: Session)
    requires ts.week.None? && ts.day.None? && ts.time.None? && ts.location.None?
    ensures WeekKey(ts) == "Week N/A"
    ensures Bullet(name, ts) == "\U{1F4CC} **" + name + "**: N/A at N/A in N/A"
  {
  }

  // Session count.

  function SessionCount(plan: seq<PlannedModule>): nat
    requires AllWellFormed(plan)
  {
    if plan == [] then 0
    else SessionCount(plan[..|plan| - 1]) + |plan[|plan| - 1].teachingSession.value|
  }

  lemma {:induction false} SessionLinesLength(name: string, sessions: seq<Session>)
    ensures |SessionLines(name, sessions)| == |sessions|
  {
    if sessions != [] {
      SessionLinesLength(name, sessions[..|sessions| - 1]);
    }
  }

  /** One line per session of every module. */
  lemma {:induction false} LinesLength(plan: seq<PlannedModule>)
    requires AllWellFormed(plan)
    ensures |Lines(plan)| == SessionCount(plan)
  {
    if plan != [] {
      var m := plan[|plan| - 1];
      LinesLength(plan[..|plan| - 1]);
      SessionLinesLength(m.name.value, m.teachingSession.value);
    }
  }

  // Order within a week.

  lemma {:induction false} WeekSeqConcat(x: seq<Line>, y: seq<Line>)
    ensures WeekSeq(x + y) == WeekSeq(x) + WeekSeq(y)
  {
    if y != [] {
      assert (x + y)[..|x + y| - 1] == x + y[..|y| - 1];
      WeekSeqConcat(x, y[..|y| - 1]);
    } else {
      assert x + y == x;
    }
  }

  lemma {:induction false} TextsForConcat(x: seq<Line>, y: seq<Line>, w: string)
    ensures TextsFor(x + y, w) == TextsFor(x, w) + TextsFor(y, w)
  {
    if y != [] {
      assert (x + y)[..|x + y| - 1] == x + y[..|y| - 1];
      TextsForConcat(x, y[..|y| - 1], w);
    } else {
      assert x + y == x;
    }
  }

  lemma {:induction false} LinesConcat(a: seq<PlannedModule>, b: seq<PlannedModule>)
    requires AllWellFormed(a) && AllWellFormed(b)
    ensures AllWellFormed(a + b)
    ensures Lines(a + b) == Lines(a) + Lines(b)
  {
    assert forall k :: 0 <= k < |a + b| ==> (a + b)[k] == if k < |a| then a[k] else b[k - |a|];
    if b != [] {
      var b0 := b[..|b| - 1];
      assert AllWellFormed(b0) by {
        assert forall k :: 0 <= k < |b0| ==> b0[k] == b[k];
      }
      assert (a + b)[..|a + b| - 1] == a + b0;
      LinesConcat(a, b0);
    } else {
      assert a + b == a;
    }
  }

  /** Under each week, the bullets of earlier modules come before those of later ones:
      the plan `a + b` lists `a`'s bullets for a week, then `b`'s. */
  lemma ModuleOrderWithinWeek(a: seq<PlannedModule>, b: seq<PlannedModule>, w: string)
    requires AllWellFormed(a) && AllWellFormed(b)
    ensures AllWellFormed(a + b)
    ensures TextsFor(Lines(a + b), w) == TextsFor(Lines(a), w) + TextsFor(Lines(b), w)
  {
    LinesConcat(a, b);
    TextsForConcat(Lines(a), Lines(b), w);
  }

  /** Within one module, the bullets of a week follow the order of its sessions. */
  lemma {:induction false} SessionOrderWithinWeek(name: string, x: seq<Session>, y: seq<Session>, w: string)
    ensures TextsFor(SessionLines(name, x + y), w) ==
      TextsFor(SessionLines(name, x), w) + TextsFor(SessionLines(name, y), w)
  {
    SessionLinesConcat(name, x, y);
    TextsForConcat(SessionLines(name, x), SessionLines(name, y), w);
  }

  lemma {:induction false} SessionLinesConcat(name: string, x: seq<Session>, y: seq<Session>)
    ensures SessionLines(name, x + y) == SessionLines(name, x) + SessionLines(name, y)
  {
    if y != [] {
      assert (x + y)[..|x + y| - 1] == x + y[..|y| - 1];
      SessionLinesConcat(name, x, y[..|y| - 1]);
    } else {
      assert x + y == x;
    }
  }

  // The week headings.

  lemma {:induction false} LexTotal(a: string, b: string)
    ensures LexLe(a, b) || LexLe(b, a)
  {
    if a != [] && b != [] && a[0] == b[0] {
      LexTotal(a[1..], b[1..]);
    }
  }

  lemma {:induction false} LexTransitive(a: string, b: string, c: string)
    requires LexLe(a, b) && LexLe(b, c)
    ensures LexLe(a, c)
  {
    if a != [] && b != [] && c != [] && a[0] == b[0] && b[0] == c[0] {
      LexTransitive(a[1..], b[1..], c[1..]);
    }
  }

  lemma {:induction false} LexAntisymmetric(a: string, b: string)
    requires LexLe(a, b) && LexLe(b, a)
    ensures a == b
  {
    if a != [] && b != [] {
      LexAntisymmetric(a[1..], b[1..]);
      assert a == [a[0]] + a[1..] && b == [b[0]] + b[1..];
    }
  }

  lemma ByWeekIsTotalPreorder()
    ensures Sorting.TotalPreorder(ByWeek())
  {
    forall a, b ensures ByWeek()(a, b) || ByWeek()(b, a) {
      LexTotal(a, b);
    }
    forall a, b, c | ByWeek()(a, b) && ByWeek()(b, c) ensures ByWeek()(a, c) {
      LexTransitive(a, b, c);
    }
  }

  /** One heading per week that some session falls in, and no other; the headings
      strictly ascend in string order. */
  lemma SortedWeeksAreTheWeeks(lines: seq<Line>)
    ensures forall w :: w in SortedWeeks(lines) <==> w in WeekSeq(lines)
    ensures forall i, j :: 0 <= i < j < |SortedWeeks(lines)| ==>
      LexLe(SortedWeeks(lines)[i], SortedWeeks(lines)[j]) && SortedWeeks(lines)[i] != SortedWeeks(lines)[j]
  {
    var keys := Firsts(WeekSeq(lines));
    var sorted := SortedWeeks(lines);
    forall w ensures w in sorted <==> w in WeekSeq(lines) {
      Sorting.SortByMembers(keys, ByWeek(), w);
    }
    ByWeekIsTotalPreorder();
    Sorting.SortBySorts(keys, ByWeek());
    assert Sorting.DistinctBy(keys, (w: string) => w);
    Sorting.SortByKeepsDistinct(keys, ByWeek(), (w: string) => w);
  }

  // Every bullet is written once.

  /** The number of bullets written under the headings `weeks`. */
  function BulletCount(weeks: seq<string>, lines: seq<Line>): nat {
    if weeks == [] then 0
    else BulletCount(weeks[..|weeks| - 1], lines) + |TextsFor(lines, weeks[|weeks| - 1])|
  }

  function Occurrences(weeks: seq<string>, w: string): nat {
    if weeks == [] then 0
    else Occurrences(weeks[..|weeks| - 1], w) + (if weeks[|weeks| - 1] == w then 1 else 0)
  }

  lemma {:induction false} BulletCountEmpty(weeks: seq<string>)
    ensures BulletCount(weeks, []) == 0
  {
    if weeks != [] {
      BulletCountEmpty(weeks[..|weeks| - 1]);
    }
  }

  lemma {:induction false} BulletCountAppend(weeks: seq<string>, lines: seq<Line>, line: Line)
    ensures BulletCount(weeks, lines + [line]) == BulletCount(weeks, lines) + Occurrences(weeks, line.week)
  {
    AppendLine(lines, line);
    if weeks != [] {
      BulletCountAppend(weeks[..|weeks| - 1], lines, line);
    }
  }

  lemma {:induction false} OccursOnce(weeks: seq<string>, w: string)
    requires NoDuplicates(weeks) && w in weeks
    ensures Occurrences(weeks, w) == 1
  {
    var init := weeks[..|weeks| - 1];
    assert NoDuplicates(init) by {
      assert forall k :: 0 <= k < |init| ==> init[k] == weeks[k];
    }
    if weeks[|weeks| - 1] == w {
      assert w !in init by {
        assert forall k :: 0 <= k < |init| ==> init[k] == weeks[k];
      }
      OccursNot(init, w);
    } else {
      assert w in init by {
        var k :| 0 <= k < |weeks| && weeks[k] == w;
        assert init[k] == w;
      }
      OccursOnce(init, w);
    }
  }

  lemma {:induction false} OccursNot(weeks: seq<string>, w: string)
    requires w !in weeks
    ensures Occurrences(weeks, w) == 0
  {
    if weeks != [] {
      var init := weeks[..|weeks| - 1];
      assert forall k :: 0 <= k < |init| ==> init[k] == weeks[k];
      OccursNot(init, w);
    }
  }

  lemma {:induction false} BulletCountCoversLines(weeks: seq<string>, lines: seq<Line>)
    requires NoDuplicates(weeks)
    requires forall i :: 0 <= i < |lines| ==> lines[i].week in weeks
    ensures BulletCount(weeks, lines) == |lines|
  {
    if lines == [] {
      BulletCountEmpty(weeks);
    } else {
      var init := lines[..|lines| - 1];
      var last := lines[|lines| - 1];
      assert forall i :: 0 <= i < |init| ==> init[i] == lines[i];
      BulletCountCoversLines(weeks, init);
      assert lines == init + [last];
      BulletCountAppend(weeks, init, last);
      OccursOnce(weeks, last.week);
    }
  }

  lemma {:induction false} WeekSeqWeeks(lines: seq<Line>)
    ensures |WeekSeq(lines)| == |lines|
    ensures forall i :: 0 <= i < |lines| ==> WeekSeq(lines)[i] == lines[i].week
  {
    if lines != [] {
      WeekSeqWeeks(lines[..|lines| - 1]);
    }
  }

  /** Every session of a well-formed plan becomes exactly one bullet of the schedule:
      the bullets under all the headings number as many as the sessions. */
  lemma EveryBulletWrittenOnce(plan: seq<PlannedModule>)
    requires AllWellFormed(plan)
    ensures BulletCount(SortedWeeks(Lines(plan)), Lines(plan)) == SessionCount(plan)
  {
    var lines := Lines(plan);
    var headings := SortedWeeks(lines);
    SortedWeeksAreTheWeeks(lines);
    assert NoDuplicates(headings);
    WeekSeqWeeks(lines);
    forall i | 0 <= i < |lines| ensures lines[i].week in headings {
      assert WeekSeq(lines)[i] == lines[i].week;
    }
    LinesLength(plan);
    BulletCountCoversLines(headings, lines);
  }
}
