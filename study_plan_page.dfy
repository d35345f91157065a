/** frontend/src/pages/StudyPlan.jsx: the page sorts the served plans into
    today's, upcoming and past sessions by comparing their "YYYY-MM-DD" dates
    as strings with the browser's date of today, shows at most five past
    sessions with a count of the rest, and draws each plan's completion bar. */
module StudyPlanPage {
  import opened Seqs
  import opened Text
  import opened Models
  import opened Database
  import opened StudyPlanHandler

  /** `p.study_date === today`. */
  function IsToday(today: string): StudyPlan -> bool { (p: StudyPlan) => p.studyDate == today }

  /** `p.study_date > today`. */
  function IsUpcoming(today: string): StudyPlan -> bool { (p: StudyPlan) => StrLess(today, p.studyDate) }

  /** `p.study_date < today`. */
  function IsPast(today: string): StudyPlan -> bool { (p: StudyPlan) => StrLess(p.studyDate, today) }

  /** todayPlans, upcomingPlans and pastPlans. */
  function Buckets(plans: seq<StudyPlan>, today: string): (seq<StudyPlan>, seq<StudyPlan>, seq<StudyPlan>) {
    (Filter(plans, IsToday(today)), Filter(plans, IsUpcoming(today)), Filter(plans, IsPast(today)))
  }

  /** Every plan falls in exactly one bucket: today's, upcoming or past. */
  lemma BucketOfPlan(p: StudyPlan, today: string)
    ensures || (IsToday(today)(p) && !IsUpcoming(today)(p) && !IsPast(today)(p))
            || (!IsToday(today)(p) && IsUpcoming(today)(p) && !IsPast(today)(p))
            || (!IsToday(today)(p) && !IsUpcoming(today)(p) && IsPast(today)(p))
  {
    StrLessTrichotomy(p.studyDate, today);
  }

  /** The three buckets split the plans: no plan is in two of them, and
      together they hold every plan as many times as the list does. The
      header's session count is the sum of the three bucket sizes. */
  lemma BucketsPartition(plans: seq<StudyPlan>, today: string)
    ensures var (now, upcoming, past) := Buckets(plans, today);
      && |now| + |upcoming| + |past| == |plans|
      && multiset(now) + multiset(upcoming) + multiset(past) == multiset(plans)
      && (forall x :: x in now ==> x !in upcoming && x !in past)
      && (forall x :: x in upcoming ==> x !in past)
  {
    forall x | x in plans
      ensures || (IsToday(today)(x) && !IsUpcoming(today)(x) && !IsPast(today)(x))
              || (!IsToday(today)(x) && IsUpcoming(today)(x) && !IsPast(today)(x))
              || (!IsToday(today)(x) && !IsUpcoming(today)(x) && IsPast(today)(x))
    {
      BucketOfPlan(x, today);
    }
    FilterSplit3(plans, IsToday(today), IsUpcoming(today), IsPast(today));
    var (now, upcoming, past) := Buckets(plans, today);
    forall x | x in now ensures x !in upcoming && x !in past {
      BucketOfPlan(x, today);
    }
    forall x | x in upcoming ensures x !in past {
      BucketOfPlan(x, today);
    }
  }

  /** Each bucket lists its plans in their order in the served list. */
  lemma BucketsKeepOrder(plans: seq<StudyPlan>, today: string)
    ensures var (now, upcoming, past) := Buckets(plans, today);
      IsSubsequence(now, plans) && IsSubsequence(upcoming, plans) && IsSubsequence(past, plans)
  {
    FilterIsSubsequence(plans, IsToday(today));
    FilterIsSubsequence(plans, IsUpcoming(today));
    FilterIsSubsequence(plans, IsPast(today));
  }

  /** On the list GET /study-plan serves (latest date first), the past
      sessions are listed most recent first, and so are the upcoming ones. */
  lemma ServedBucketsLatestFirst(t: Tables, today: string)
    ensures Chain(Filter(AllPlans(t), IsPast(today)), LaterFirst)
    ensures Chain(Filter(AllPlans(t), IsUpcoming(today)), LaterFirst)
  {
    var r := AllPlans(t);
    assert Chain(r, LaterFirst);
    FilterChain(r, IsPast(today), LaterFirst);
    FilterChain(r, IsUpcoming(today), LaterFirst);
  }

  /** `pastPlans.slice(0, 5)`. */
  function ShownPast(past: seq<StudyPlan>): (r: seq<StudyPlan>)
    ensures |r| == if |past| < 5 then |past| else 5
    ensures forall i :: 0 <= i < |r| ==> r[i] == past[i]
  {
    if |past| < 5 then past else past[..5]
  }

  /** The number in "... and N more past sessions", when that line is shown. */
  function MoreCount(past: seq<StudyPlan>): (n: nat) {
    if |past| > 5 then |past| - 5 else 0
  }

  /** The line appears only with more than five past sessions, and every past
      session is either shown or counted in it, never both. */
  lemma ShownOrCounted(past: seq<StudyPlan>)
    ensures MoreCount(past) > 0 <==> |past| > 5
    ensures |ShownPast(past)| + MoreCount(past) == |past|
    ensures MoreCount(past) == 0 ==> ShownPast(past) == past
  {
  }

  /** The width of a plan's completion bar, in percent. */
  function CompletionWidth(p: StudyPlan): real {
    if p.hoursPlanned > 0.0 then (p.hoursCompleted / p.hoursPlanned) * 100.0 else 0.0
  }

  /** No division by zero: a plan with no (or negative) planned hours draws an
      empty bar. Within the input's bounds `0 <= completed <= planned` the bar
      is between 0 and 100 percent, full exactly when all hours are done. */
  lemma CompletionWidthBounds(p: StudyPlan)
    ensures p.hoursPlanned <= 0.0 ==> CompletionWidth(p) == 0.0
    ensures 0.0 <= p.hoursCompleted <= p.hoursPlanned && p.hoursPlanned > 0.0 ==>
      && 0.0 <= CompletionWidth(p) <= 100.0
      && (CompletionWidth(p) == 100.0 <==> p.hoursCompleted == p.hoursPlanned)
  {
    if 0.0 <= p.hoursCompleted <= p.hoursPlanned && p.hoursPlanned > 0.0 {
      var q := p.hoursCompleted / p.hoursPlanned;
      assert q * p.hoursPlanned == p.hoursCompleted;
      assert q <= 1.0;
      if q == 1.0 { assert p.hoursCompleted == p.hoursPlanned; }
    }
  }
}
