/** frontend/src/pages/Progress.jsx: the overview computed from the rows
    GET /progress serves. Three `reduce` folds sum the per-subject counts, the
    overall figure is the share of the summed counts, and each subject shows
    how many of its topics remain. */
module ProgressPage {
  import opened Models
  import opened Database
  import opened Aggregate
  import opened DashboardHandler

  /** The three counts a served row carries. */
  function ItemCounts(s: SubjectProgressItem): Counts {
    Counts(s.totalTopics, s.completedTopics, s.weakTopics)
  }

  /** `progress.reduce((sum, s) => sum + s.total_topics, 0)` and its two
      siblings at once: a left fold from zero. */
  function Totals(items: seq<SubjectProgressItem>): Counts {
    if items == [] then Zero() else Add(Totals(items[..|items| - 1]), ItemCounts(items[|items| - 1]))
  }

  /** `totalTopics > 0 ? (completedTopics / totalTopics) * 100 : 0`. */
  function Overall(items: seq<SubjectProgressItem>): real {
    Percent(Totals(items).completed, Totals(items).total)
  }

  /** "Remaining": `subject.total_topics - subject.completed_topics`. */
  function Remaining(s: SubjectProgressItem): int {
    s.totalTopics - s.completedTopics
  }

  /** Rows whose counts are consistent, as the server sends them. */
  predicate WellCounted(items: seq<SubjectProgressItem>) {
    forall i :: 0 <= i < |items| ==> items[i].completedTopics <= items[i].totalTopics && items[i].weakTopics <= items[i].totalTopics
  }

  /** With no rows every total is 0 and so is the overall figure. */
  lemma EmptyOverview()
    ensures Totals([]) == Zero() && Overall([]) == 0.0
  {
  }

  /** Summed counts of consistent rows are consistent: completed and weak
      never exceed the total. */
  lemma {:induction false} TotalsWellCounted(items: seq<SubjectProgressItem>)
    requires WellCounted(items)
    ensures Totals(items).completed <= Totals(items).total && Totals(items).weak <= Totals(items).total
  {
    if items != [] {
      var init := items[..|items| - 1];
      assert WellCounted(init) by {
        forall i | 0 <= i < |init| ensures init[i] == items[i] { }
      }
      TotalsWellCounted(init);
    }
  }

  /** The overall figure lies in [0, 100], and is 100 exactly when some topic
      exists and every one is completed. */
  lemma OverallInRange(items: seq<SubjectProgressItem>)
    requires WellCounted(items)
    ensures 0.0 <= Overall(items) <= 100.0
    ensures Overall(items) == 100.0 <==> Totals(items).total > 0 && Totals(items).completed == Totals(items).total
  {
    TotalsWellCounted(items);
    var c := Totals(items);
    if c.total > 0 && c.completed < c.total {
      PercentRatio(c.completed, c.total);
    }
  }

  /** The overall figure weighs subjects by their topics, not the mean of the
      subjects' own percentages: a subject with 1 of 1 topics done and one
      with 0 of 3 give 25, where the mean of 100 and 0 would be 50. */
  lemma SummedNotAveraged(a: SubjectProgressItem, b: SubjectProgressItem)
    requires ItemCounts(a) == Counts(1, 1, 0) && ItemCounts(b) == Counts(3, 0, 0)
    requires a.progress == Percent(1, 1) && b.progress == Percent(0, 3)
    ensures Overall([a, b]) == 25.0
    ensures (a.progress + b.progress) / 2.0 == 50.0
  {
    assert [a, b][..1] == [a];
    assert Totals([a]) == Counts(1, 1, 0) by {
      assert [a][..0] == [];
    }
  }

  /** What remains of a consistent row is never negative and completes the total. */
  lemma RemainingCompletes(s: SubjectProgressItem)
    requires s.completedTopics <= s.totalTopics
    ensures Remaining(s) >= 0 && Remaining(s) + s.completedTopics == s.totalTopics
  {
  }

  /** The folds over rows that carry given counts sum those counts. */
  lemma {:induction false} TotalsOfRows(rows: seq<(Subject, Counts)>, items: seq<SubjectProgressItem>)
    requires |items| == |rows|
    requires forall i :: 0 <= i < |rows| ==> ItemCounts(items[i]) == rows[i].1
    ensures Totals(items) == Sum(rows)
  {
    if rows != [] {
      var k := |rows| - 1;
      assert ItemCounts(items[k]) == rows[k].1;
      TotalsOfRows(rows[..k], items[..k]);
    }
  }

  /** On the rows the backend serves, the page's totals are the counts over
      the whole topics table and its overall figure is the dashboard's
      overall_progress: no topic is lost or counted twice in the per-subject
      rows. */
  lemma OverviewMatchesServer(t: Tables)
    requires Consistent(t)
    ensures Totals(ProgressItems(t)) == CountTopics(t.topics)
    ensures Overall(ProgressItems(t)) == Progress(CountTopics(t.topics))
    ensures WellCounted(ProgressItems(t))
  {
    ServedCounts(t);
    TotalsOfRows(PerSubject(t.subjects, t.topics), ProgressItems(t));
    SumPerSubject(t);
  }

  /** Each served row carries its group's counts, and those are consistent. */
  lemma ServedCounts(t: Tables)
    ensures var items, rows := ProgressItems(t), PerSubject(t.subjects, t.topics);
      && |items| == |rows| && WellCounted(items)
      && forall i :: 0 <= i < |rows| ==> ItemCounts(items[i]) == rows[i].1
  {
    var items, rows := ProgressItems(t), PerSubject(t.subjects, t.topics);
    forall i | 0 <= i < |rows| ensures ItemCounts(items[i]) == rows[i].1 {
      assert rows[i] == (t.subjects[i], SubjectCounts(t.topics, t.subjects[i].id));
    }
  }
}
