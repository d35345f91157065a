/** backend/handlers/dashboard_handler.go: the dashboard (days until the exam,
    global topic counts, overall progress, today's plan, progress per subject)
    and the progress report. The environment, the clock and store failures are
    parameters. */
module DashboardHandler {
  import opened Wrappers
  import opened Seqs
  import opened Dates
  import opened Models
  import opened Database
  import opened Aggregate
  import StudyPlanHandler

  // ---------------------------------------------------------------------------
  // The exam date

  /** The date used when `EXAM_DATE` is unset or empty. */
  function DefaultExamDateText(): string { "2026-02-11" }

  function DefaultExamDate(): Date { Date(2026, 2, 11) }

  /** The reported exam date: the raw `EXAM_DATE` value, or the default when
      it is empty; it is reported even when it does not parse. */
  function ExamDateString(env: string): (r: string)
    ensures env == "" ==> r == DefaultExamDateText()
    ensures env != "" ==> r == env
  {
    if env == "" then DefaultExamDateText() else env
  }

  /** The date counted to: the parsed value, or 11 February 2026 when it does
      not parse. */
  function ExamDate(s: string): (d: Date)
    ensures ValidDate(d)
    ensures ParseIsoDate(s).Some? ==> d == ParseIsoDate(s).value
    ensures ParseIsoDate(s).None? ==> d == DefaultExamDate()
  {
    match ParseIsoDate(s)
    case Some(d) => d
    case None => DefaultExamDate()
  }

  // ---------------------------------------------------------------------------
  // Days until the exam. Instants are seconds on the scale of `DayNumber`
  // read in UTC: UTC midnight at the start of day `n` is second `n * 86400`.
  // The server's zone is `offset` seconds ahead of UTC, so local midnight of
  // day `n` is second `n * 86400 - offset`.

  /** The clock GetDashboard reads: `time.Now()` as a UTC instant, and the
      offset of `time.Local` from UTC. */
  datatype Clock = Clock(now: int, offset: int)

  /** UTC midnight at the start of `d`: what `time.Parse("2006-01-02", s)` returns. */
  function UtcMidnight(d: Date): int { DayNumber(d) * 86400 }

  /** Local midnight at the start of `d`, as `time.Date(..., 0, 0, 0, 0, time.Local)`. */
  function LocalMidnight(d: Date, offset: int): int { UtcMidnight(d) - offset }

  /** The instant counted to: a parsed `EXAM_DATE` is UTC midnight of its day,
      and the fallback for a value that does not parse is local midnight of
      11 February 2026. */
  function ExamInstant(s: string, offset: int): (r: int)
    ensures ParseIsoDate(s).Some? ==> r == UtcMidnight(ExamDate(s))
    ensures ParseIsoDate(s).None? ==> r == LocalMidnight(DefaultExamDate(), offset)
  {
    match ParseIsoDate(s)
    case Some(d) => UtcMidnight(d)
    case None => LocalMidnight(DefaultExamDate(), offset)
  }

  /** `int(diff.Hours() / 24)`: Go's conversion truncates toward zero. */
  function WholeDays(seconds: int): (r: int)
    ensures seconds >= 0 ==> 0 <= r && r * 86400 <= seconds < r * 86400 + 86400
    ensures seconds < 0 ==> r <= 0 && r * 86400 - 86400 < seconds <= r * 86400
  {
    if seconds >= 0 then seconds / 86400 else -((-seconds) / 86400)
  }

  /** The days-until-exam figure: whole days left before the instant `exam`,
      and 0 once that instant is less than a day away or past. */
  function DaysUntil(exam: int, now: int): (r: int)
    ensures r >= 0
    ensures exam - now < 86400 ==> r == 0
    ensures r * 86400 <= exam - now || r == 0
    ensures exam - now < r * 86400 + 86400 || exam <= now
  {
    var days := WholeDays(exam - now);
    if days < 0 then 0 else days
  }

  /** The default text names the fallback's calendar day. Yet an unset
      variable counts to UTC midnight of that day and an unparsable one to
      local midnight, so the two agree only on a server that runs on UTC. */
  lemma DefaultExamDateAgrees(bad: string, clock: Clock)
    requires ParseIsoDate(bad).None?
    ensures ParseIsoDate(DefaultExamDateText()) == Some(DefaultExamDate())
    ensures ExamInstant(ExamDateString(""), clock.offset) == ExamInstant(bad, clock.offset) + clock.offset
    ensures clock.offset == 0 ==>
      DaysUntil(ExamInstant(ExamDateString(""), 0), clock.now) == DaysUntil(ExamInstant(bad, 0), clock.now)
  {
    assert DefaultExamDateText()[..4] == "2026" && DefaultExamDateText()[5..7] == "02" && DefaultExamDateText()[8..] == "11";
    assert Text.DigitsValue("2026") == 2026 by {
      assert "2026"[..3] == "202" && "202"[..2] == "20" && "20"[..1] == "2";
    }
    assert Text.DigitsValue("02") == 2 by { assert "02"[..1] == "0"; }
    assert Text.DigitsValue("11") == 11 by { assert "11"[..1] == "1"; }
  }

  /** A later exam instant never gives fewer days, and one less than a day
      later gives at most one day more. */
  lemma DaysUntilShift(a: int, b: int, now: int)
    requires a <= b < a + 86400
    ensures DaysUntil(a, now) <= DaysUntil(b, now) <= DaysUntil(a, now) + 1
  {
  }

  /** Counting to UTC midnight instead of local midnight moves the figure by
      at most one day: up east of UTC, down west of it, not at all on UTC. */
  lemma UtcAgainstLocal(exam: Date, clock: Clock)
    requires -86400 < clock.offset < 86400
    ensures var utc, local := DaysUntil(UtcMidnight(exam), clock.now), DaysUntil(LocalMidnight(exam, clock.offset), clock.now);
      && (clock.offset >= 0 ==> local <= utc <= local + 1)
      && (clock.offset <= 0 ==> utc <= local <= utc + 1)
      && (clock.offset == 0 ==> utc == local)
  {
    if clock.offset >= 0 {
      DaysUntilShift(LocalMidnight(exam, clock.offset), UtcMidnight(exam), clock.now);
    } else {
      DaysUntilShift(UtcMidnight(exam), LocalMidnight(exam, clock.offset), clock.now);
    }
  }

  /** During the local exam day or after it, the count is 0, whether the exam
      is counted to its local or to its UTC midnight. */
  lemma DaysUntilPassed(exam: Date, today: Date, secondsIntoDay: int, offset: int)
    requires ValidDate(exam) && ValidDate(today) && 0 <= secondsIntoDay < 86400
    requires -86400 < offset < 86400
    requires !DateBefore(today, exam)
    ensures DaysUntil(LocalMidnight(exam, offset), LocalMidnight(today, offset) + secondsIntoDay) == 0
    ensures DaysUntil(UtcMidnight(exam), LocalMidnight(today, offset) + secondsIntoDay) == 0
  {
    DayNumberOrder(exam, today);
    if !DateBefore(exam, today) {
      assert exam == today;
    }
  }

  /** Before the exam day, counted to local midnight (the fallback date), the
      count is the number of days between the two dates, less the part of
      today already gone. */
  lemma DaysUntilAhead(exam: Date, today: Date, secondsIntoDay: int, offset: int)
    requires ValidDate(exam) && ValidDate(today) && 0 <= secondsIntoDay < 86400
    requires DateBefore(today, exam)
    ensures DayNumber(exam) > DayNumber(today)
    ensures DaysUntil(LocalMidnight(exam, offset), LocalMidnight(today, offset) + secondsIntoDay)
         == if secondsIntoDay == 0 then DayNumber(exam) - DayNumber(today) else DayNumber(exam) - DayNumber(today) - 1
  {
    DayNumberOrder(today, exam);
    var k := DayNumber(exam) - DayNumber(today);
    var diff := LocalMidnight(exam, offset) - (LocalMidnight(today, offset) + secondsIntoDay);
    assert diff == k * 86400 - secondsIntoDay;
    if secondsIntoDay == 0 {
      assert diff / 86400 == k;
    } else {
      assert diff == (k - 1) * 86400 + (86400 - secondsIntoDay);
      assert diff / 86400 == k - 1;
    }
  }

  /** Two days before the exam at 20:00 on a server five hours behind UTC: an
      exam date that parses (the default among them) shows 0 days left, while
      the fallback for one that does not parse shows 1. */
  lemma ParsedAndFallbackDiffer(exam: Date, today: Date)
    requires DayNumber(exam) == DayNumber(today) + 2
    ensures var clock := Clock(LocalMidnight(today, -18000) + 72000, -18000);
      && DaysUntil(UtcMidnight(exam), clock.now) == 0
      && DaysUntil(LocalMidnight(exam, clock.offset), clock.now) == 1
  {
    assert UtcMidnight(exam) - (LocalMidnight(today, -18000) + 72000) == 82800;
    assert LocalMidnight(exam, -18000) - (LocalMidnight(today, -18000) + 72000) == 100800;
  }

  // ---------------------------------------------------------------------------
  // The response

  /** One row of today's plan. */
  datatype TodayPlanItem = TodayPlanItem(subjectId: int, subjectName: string, subjectColor: string, hoursPlanned: real, hoursCompleted: real)

  /** One row of the per-subject progress. */
  datatype SubjectProgressItem = SubjectProgressItem(
    id: int, name: string, color: string, totalTopics: nat, completedTopics: nat, weakTopics: nat, progress: real)

  datatype DashboardData = DashboardData(
    daysUntilExam: int, examDate: string,
    totalSubjects: nat, totalTopics: nat, completedTopics: nat, weakTopics: nat,
    overallProgress: real,
    todaysPlan: seq<TodayPlanItem>, subjectProgress: seq<SubjectProgressItem>)

  /** Which of the dashboard's six queries fail. A failing `QueryRow(...).Scan`
      leaves its counter at 0; a failing `Query` leaves its list empty. */
  datatype Faults = Faults(
    subjectCount: bool, topicCount: bool, completedCount: bool, weakCount: bool,
    todayQuery: bool, progressQuery: bool)

  function NoFaults(): Faults { Faults(false, false, false, false, false, false) }

  function TodayItem(x: StudyPlan): TodayPlanItem {
    TodayPlanItem(x.subjectId, x.subjectName, x.subjectColor, x.hoursPlanned, x.hoursCompleted)
  }

  /** The rows of the today query: the join on today's date, in table order. */
  function TodayItems(t: Tables, today: string): (r: seq<TodayPlanItem>)
    ensures |r| == |StudyPlanHandler.TodayPlans(t, today)|
  {
    var rows := StudyPlanHandler.TodayPlans(t, today);
    seq(|rows|, i requires 0 <= i < |rows| => TodayItem(rows[i]))
  }

  /** A result row of the grouped query, with its progress. */
  function ProgressItem(s: Subject, c: Counts): SubjectProgressItem {
    SubjectProgressItem(s.id, s.name, s.color, c.total, c.completed, c.weak, Percent(c.completed, c.total))
  }

  /** The rows of the grouped query: one per subject, in id order, with the
      counts of its own topics. */
  function ProgressItems(t: Tables): (r: seq<SubjectProgressItem>)
    ensures |r| == |t.subjects|
    ensures forall i :: 0 <= i < |r| ==>
      && r[i].id == t.subjects[i].id && r[i].name == t.subjects[i].name && r[i].color == t.subjects[i].color
      && Counts(r[i].totalTopics, r[i].completedTopics, r[i].weakTopics) == SubjectCounts(t.topics, t.subjects[i].id)
      && r[i].progress == Progress(SubjectCounts(t.topics, t.subjects[i].id))
  {
    var rows := PerSubject(t.subjects, t.topics);
    seq(|rows|, i requires 0 <= i < |rows| => ProgressItem(rows[i].0, rows[i].1))
  }

  /** What GetDashboard answers, given `EXAM_DATE`, the clock and the failing
      queries; it always answers 200. */
  function Dashboard(t: Tables, env: string, clock: Clock, today: string, f: Faults): DashboardData {
    var examText := ExamDateString(env);
    var all := CountTopics(t.topics);
    var total := if f.topicCount then 0 else all.total;
    var completed := if f.completedCount then 0 else all.completed;
    var weak := if f.weakCount then 0 else all.weak;
    DashboardData(
      DaysUntil(ExamInstant(examText, clock.offset), clock.now), examText,
      if f.subjectCount then 0 else |t.subjects|, total, completed, weak,
      Percent(completed, total),
      if f.todayQuery then [] else TodayItems(t, today),
      if f.progressQuery then [] else ProgressItems(t))
  }

  method GetDashboard(db: Store, env: string, clock: Clock, today: string, f: Faults) returns (d: DashboardData)
    ensures d == Dashboard(db.State(), env, clock, today, f)
  {
    var examDateStr, daysUntilExam := Countdown(env, clock);
    var totalSubjects, totalTopics, completedTopics, weakTopics, overallProgress := Totals(db, f);

    var todaysPlan: seq<TodayPlanItem> := [];
    if !f.todayQuery {
      todaysPlan := TodayRows(db, today);
    }

    var subjectProgress: seq<SubjectProgressItem> := [];
    if !f.progressQuery {
      subjectProgress := ProgressRows(db);
    }

    d := DashboardData(daysUntilExam, examDateStr, totalSubjects, totalTopics, completedTopics, weakTopics,
                       overallProgress, todaysPlan, subjectProgress);
  }

  /** The first half of GetDashboard: the reported exam date and the whole
      days left until its midnight, clamped at 0. */
  method Countdown(env: string, clock: Clock) returns (examDateStr: string, daysUntilExam: int)
    ensures examDateStr == ExamDateString(env)
    ensures daysUntilExam == DaysUntil(ExamInstant(examDateStr, clock.offset), clock.now)
  {
    examDateStr := env;
    if examDateStr == "" {
      examDateStr := DefaultExamDateText();
    }
    var examDate := ParseExamDate(examDateStr, clock.offset);
    daysUntilExam := WholeDays(examDate - clock.now);
    if daysUntilExam < 0 {
      daysUntilExam := 0;
    }
  }

  /** `time.Parse`, and the local-midnight fallback when it fails. */
  method ParseExamDate(examDateStr: string, offset: int) returns (examDate: int)
    ensures examDate == ExamInstant(examDateStr, offset)
  {
    var parsed := ParseIsoDate(examDateStr);
    if parsed.Some? {
      examDate := UtcMidnight(parsed.value);
    } else {
      examDate := LocalMidnight(DefaultExamDate(), offset);
    }
  }

  /** The four count queries, each read as 0 when it fails, and the overall
      percentage of the two topic counts. */
  method Totals(db: Store, f: Faults)
    returns (totalSubjects: nat, totalTopics: nat, completedTopics: nat, weakTopics: nat, overallProgress: real)
    ensures var all := CountTopics(db.topics);
      && totalSubjects == (if f.subjectCount then 0 else |db.subjects|)
      && totalTopics == (if f.topicCount then 0 else all.total)
      && completedTopics == (if f.completedCount then 0 else all.completed)
      && weakTopics == (if f.weakCount then 0 else all.weak)
      && overallProgress == Percent(completedTopics, totalTopics)
  {
    var all := CountTopics(db.topics);
    totalSubjects, totalTopics, completedTopics, weakTopics := 0, 0, 0, 0;
    if !f.subjectCount { totalSubjects := |db.subjects|; }
    if !f.topicCount { totalTopics := all.total; }
    if !f.completedCount { completedTopics := all.completed; }
    if !f.weakCount { weakTopics := all.weak; }

    overallProgress := 0.0;
    if totalTopics > 0 {
      overallProgress := completedTopics as real / totalTopics as real * 100.0;
    }
  }

  /** The loop over today's rows. */
  method TodayRows(db: Store, today: string) returns (items: seq<TodayPlanItem>)
    ensures items == TodayItems(db.State(), today)
  {
    var rows := StudyPlanHandler.TodayPlans(db.State(), today);
    items := [];
    var i := 0;
    while i < |rows|
      invariant 0 <= i <= |rows|
      invariant items == TodayItems(db.State(), today)[..i]
    {
      items := items + [TodayItem(rows[i])];
      i := i + 1;
    }
    assert TodayItems(db.State(), today)[..i] == TodayItems(db.State(), today);
  }

  /** The loop over the grouped rows: each row's progress is set only when it
      has topics. */
  method ProgressRows(db: Store) returns (items: seq<SubjectProgressItem>)
    ensures items == ProgressItems(db.State())
  {
    var rows := PerSubject(db.subjects, db.topics);
    ghost var want := ProgressItems(db.State());
    items := [];
    var i := 0;
    while i < |rows|
      invariant 0 <= i <= |rows|
      invariant items == want[..i]
    {
      var item := ProgressRow(rows[i].0, rows[i].1);
      ProgressItemsAt(db.State(), i);
      assert want[..i + 1] == want[..i] + [item];
      items := items + [item];
      i := i + 1;
    }
    assert want[..i] == want;
  }

  lemma ProgressItemsAt(t: Tables, i: int)
    requires 0 <= i < |t.subjects|
    ensures var row := PerSubject(t.subjects, t.topics)[i];
      ProgressItems(t)[i] == ProgressItem(row.0, row.1)
  {
  }

  /** One pass of the row loop: progress stays 0 unless the subject has topics. */
  method ProgressRow(s: Subject, c: Counts) returns (item: SubjectProgressItem)
    ensures item == ProgressItem(s, c)
  {
    item := SubjectProgressItem(s.id, s.name, s.color, c.total, c.completed, c.weak, 0.0);
    if item.totalTopics > 0 {
      item := item.(progress := item.completedTopics as real / item.totalTopics as real * 100.0);
    }
  }

  // ---------------------------------------------------------------------------
  // What the dashboard promises

  /** With every query answering, the global counts are those of the topics
      table, the overall figure is their percentage, and the per-subject
      totals add up to the global ones (each topic has its subject). */
  lemma DashboardCounts(t: Tables, env: string, clock: Clock, today: string)
    requires Consistent(t)
    ensures var d := Dashboard(t, env, clock, today, NoFaults());
      && d.totalSubjects == |t.subjects|
      && Counts(d.totalTopics, d.completedTopics, d.weakTopics) == CountTopics(t.topics)
      && d.completedTopics <= d.totalTopics && d.weakTopics <= d.totalTopics
      && d.overallProgress == Progress(CountTopics(t.topics))
      && 0.0 <= d.overallProgress <= 100.0
      && (d.totalTopics == 0 ==> d.overallProgress == 0.0)
      && Sum(PerSubject(t.subjects, t.topics)) == Counts(d.totalTopics, d.completedTopics, d.weakTopics)
  {
    SumPerSubject(t);
  }

  /** Every subject has exactly one progress row, in ascending id order, with
      its own counts; completed and weak topics never outnumber all topics,
      and a subject without topics shows zeros. */
  lemma DashboardSubjects(t: Tables, env: string, clock: Clock, today: string, f: Faults)
    requires Consistent(t) && !f.progressQuery
    ensures var items := Dashboard(t, env, clock, today, f).subjectProgress;
      && |items| == |t.subjects|
      && (forall i, j :: 0 <= i < j < |items| ==> items[i].id < items[j].id)
      && (forall i :: 0 <= i < |items| ==>
            && items[i].id == t.subjects[i].id && items[i].name == t.subjects[i].name && items[i].color == t.subjects[i].color
            && Counts(items[i].totalTopics, items[i].completedTopics, items[i].weakTopics) == SubjectCounts(t.topics, t.subjects[i].id)
            && items[i].completedTopics <= items[i].totalTopics && items[i].weakTopics <= items[i].totalTopics
            && 0.0 <= items[i].progress <= 100.0
            && (items[i].totalTopics == 0 ==> items[i].progress == 0.0))
      && (forall s :: s in t.subjects ==> exists i :: 0 <= i < |items| && items[i].id == s.id)
      && (forall i :: 0 <= i < |items| && (forall x :: x in t.topics ==> x.subjectId != items[i].id) ==>
            items[i].totalTopics == 0 && items[i].completedTopics == 0 && items[i].weakTopics == 0 && items[i].progress == 0.0)
  {
    assert Dashboard(t, env, clock, today, f).subjectProgress == ProgressItems(t);
    ProgressItemsOrder(t);
    ProgressItemsRows(t);
  }

  /** The progress rows follow the subjects table: ascending ids, and each
      subject has its row. */
  lemma ProgressItemsOrder(t: Tables)
    requires Consistent(t)
    ensures var items := ProgressItems(t);
      && |items| == |t.subjects|
      && (forall i, j :: 0 <= i < j < |items| ==> items[i].id < items[j].id)
      && (forall s :: s in t.subjects ==> exists i :: 0 <= i < |items| && items[i].id == s.id)
  {
    var items := ProgressItems(t);
    forall i, j | 0 <= i < j < |items| ensures items[i].id < items[j].id {
      assert Keys(t.subjects, SubjectKey)[i] < Keys(t.subjects, SubjectKey)[j];
    }
    forall s | s in t.subjects ensures exists i :: 0 <= i < |items| && items[i].id == s.id {
      var i :| 0 <= i < |t.subjects| && t.subjects[i] == s;
      assert items[i].id == s.id;
    }
  }

  /** Each progress row carries its subject's own counts and a percentage in
      range, zero for a subject without topics. */
  lemma ProgressItemsRows(t: Tables)
    ensures var items := ProgressItems(t);
      && |items| == |t.subjects|
      && (forall i :: 0 <= i < |items| ==>
            && items[i].id == t.subjects[i].id && items[i].name == t.subjects[i].name && items[i].color == t.subjects[i].color
            && Counts(items[i].totalTopics, items[i].completedTopics, items[i].weakTopics) == SubjectCounts(t.topics, t.subjects[i].id)
            && items[i].completedTopics <= items[i].totalTopics && items[i].weakTopics <= items[i].totalTopics
            && 0.0 <= items[i].progress <= 100.0
            && (items[i].totalTopics == 0 ==> items[i].progress == 0.0))
      && (forall i :: 0 <= i < |items| && (forall x :: x in t.topics ==> x.subjectId != items[i].id) ==>
            items[i].totalTopics == 0 && items[i].completedTopics == 0 && items[i].weakTopics == 0 && items[i].progress == 0.0)
  {
  }

  /** Today's plan holds one row per plan row dated `today`, in table order,
      each with its own subject's name and color. */
  lemma DashboardToday(t: Tables, env: string, clock: Clock, today: string, f: Faults)
    requires Consistent(t) && !f.todayQuery
    ensures var items := Dashboard(t, env, clock, today, f).todaysPlan;
      var dated := Filter(t.plans, StudyPlanHandler.OnDate(today));
      && |items| == |dated|
      && (forall p :: p in dated <==> p in t.plans && p.studyDate == today)
      && forall i :: 0 <= i < |items| ==>
           var s := Find(t.subjects, SubjectKey, dated[i].subjectId).value;
           && s in t.subjects && s.id == dated[i].subjectId
           && items[i] == TodayPlanItem(dated[i].subjectId, s.name, s.color, dated[i].hoursPlanned, dated[i].hoursCompleted)
  {
    assert Dashboard(t, env, clock, today, f).todaysPlan == TodayItems(t, today);
    TodayItemsMeaning(t, today);
  }

  lemma TodayItemsMeaning(t: Tables, today: string)
    requires Consistent(t)
    ensures var items := TodayItems(t, today);
      var dated := Filter(t.plans, StudyPlanHandler.OnDate(today));
      && |items| == |dated|
      && forall i :: 0 <= i < |items| ==>
           var s := Find(t.subjects, SubjectKey, dated[i].subjectId).value;
           && s in t.subjects && s.id == dated[i].subjectId
           && items[i] == TodayPlanItem(dated[i].subjectId, s.name, s.color, dated[i].hoursPlanned, dated[i].hoursCompleted)
  {
    var dated := Filter(t.plans, StudyPlanHandler.OnDate(today));
    forall x | x in dated ensures StudyPlanHandler.HasSubject(t.subjects)(x) {
      assert x in t.plans;
    }
    FilterAll(dated, StudyPlanHandler.HasSubject(t.subjects));
    forall i | 0 <= i < |dated| ensures dated[i].subjectId in t.SubjectIds() {
      assert dated[i] in dated;
    }
  }

  /** A failing query never turns the dashboard into an error: a failed count
      reads 0, a failed list is empty, and a failed topic count leaves the
      overall figure at 0 whatever the completed count says. The exam date is
      reported as given and the day count is never negative. */
  lemma DashboardFaults(t: Tables, env: string, clock: Clock, today: string, f: Faults)
    ensures var d := Dashboard(t, env, clock, today, f);
      && d.examDate == ExamDateString(env)
      && d.daysUntilExam >= 0
      && (f.subjectCount ==> d.totalSubjects == 0)
      && (f.topicCount ==> d.totalTopics == 0 && d.overallProgress == 0.0)
      && (f.completedCount ==> d.completedTopics == 0 && d.overallProgress == 0.0)
      && (f.weakCount ==> d.weakTopics == 0)
      && (f.todayQuery ==> d.todaysPlan == [])
      && (f.progressQuery ==> d.subjectProgress == [])
      && (!f.topicCount && !f.completedCount ==> d.overallProgress == Progress(CountTopics(t.topics)))
  {
  }

  // ---------------------------------------------------------------------------
  // GetProgress

  /** GetProgress: the per-subject rows, or a 500 when the query fails. */
  function ProgressReport(t: Tables, fails: bool): (r: Outcome<seq<SubjectProgressItem>>)
    ensures fails <==> r == Err(Internal)
    ensures !fails ==> r == Ok(ProgressItems(t))
  {
    if fails then Err(Internal) else Ok(ProgressItems(t))
  }

  /** The report lists the same rows as the dashboard when both queries
      succeed, and unlike the dashboard it reports a failure. */
  lemma ProgressAgrees(t: Tables, env: string, clock: Clock, today: string, f: Faults)
    requires !f.progressQuery
    ensures ProgressReport(t, f.progressQuery) == Ok(Dashboard(t, env, clock, today, f).subjectProgress)
    ensures ProgressReport(t, true).Err? && Dashboard(t, env, clock, today, f.(progressQuery := true)).subjectProgress == []
  {
  }

  method GetProgress(db: Store, fails: bool) returns (r: Outcome<seq<SubjectProgressItem>>)
    ensures r == ProgressReport(db.State(), fails)
  {
    if fails {
      return Err(Internal);
    }
    var items := ProgressRows(db);
    r := Ok(items);
  }
}
