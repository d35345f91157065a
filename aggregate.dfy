/** Topic counting and percentages: the `COUNT(t.id)` / `SUM(CASE WHEN ...)`
    aggregates the backend's queries compute per subject and over all topics,
    and the `completed / total * 100` percentage with its zero guard. */
module Aggregate {
  import opened Seqs
  import opened Models
  import opened Database

  function IsCompleted(t: Topic): bool { t.isCompleted }
  function IsWeak(t: Topic): bool { t.isWeak }

  /** Numbers of topics: all of them, the completed ones and the weak ones. */
  datatype Counts = Counts(total: nat, completed: nat, weak: nat)

  function Zero(): Counts { Counts(0, 0, 0) }

  function Add(a: Counts, b: Counts): Counts {
    Counts(a.total + b.total, a.completed + b.completed, a.weak + b.weak)
  }

  /** What one topic contributes: completion and weakness are counted
      independently, so a topic may count as both. */
  function Tally(t: Topic): Counts {
    Counts(1, if t.isCompleted then 1 else 0, if t.isWeak then 1 else 0)
  }

  /** `COUNT(*)`, `COUNT(*) WHERE is_completed` and `COUNT(*) WHERE is_weak`
      over `topics`. */
  function CountTopics(topics: seq<Topic>): (c: Counts)
    ensures c.total == |topics|
    ensures c.completed <= c.total && c.weak <= c.total
  {
    Counts(|topics|, |Filter(topics, IsCompleted)|, |Filter(topics, IsWeak)|)
  }

  /** The counts of a concatenation add up. */
  lemma CountTopicsAppend(a: seq<Topic>, b: seq<Topic>)
    ensures CountTopics(a + b) == Add(CountTopics(a), CountTopics(b))
  {
    FilterAppend(a, b, IsCompleted);
    FilterAppend(a, b, IsWeak);
  }

  /** The counts of one topic are its tally. */
  lemma CountTopicsOne(t: Topic)
    ensures CountTopics([t]) == Tally(t)
  {
    assert [t][1..] == [];
  }

  /** CountTopics adds up the tallies of the topics, one at a time. */
  lemma CountTopicsSnoc(s: seq<Topic>, t: Topic)
    ensures CountTopics(s + [t]) == Add(CountTopics(s), Tally(t))
  {
    CountTopicsAppend(s, [t]);
    CountTopicsOne(t);
  }

  /** `float64(part) / float64(whole) * 100` behind an `if whole > 0` guard:
      0 when there is nothing to count. */
  function Percent(part: nat, whole: nat): (r: real)
    ensures whole == 0 ==> r == 0.0
    ensures part <= whole ==> 0.0 <= r <= 100.0
    ensures whole > 0 && part == whole ==> r == 100.0
  {
    if whole > 0 then part as real / whole as real * 100.0 else 0.0
  }

  /** The percentage is the share itself: `r` is to 100 as `part` is to `whole`. */
  lemma PercentRatio(part: nat, whole: nat)
    requires whole > 0
    ensures Percent(part, whole) * whole as real == 100.0 * part as real
  {
  }

  /** The share of completed topics among `c`. */
  function Progress(c: Counts): (r: real)
    requires c.completed <= c.total
    ensures 0.0 <= r <= 100.0
    ensures c.total == 0 ==> r == 0.0
  {
    Percent(c.completed, c.total)
  }

  // ---------------------------------------------------------------------------
  // Per subject: `FROM subjects s LEFT JOIN topics t ON s.id = t.subject_id
  // GROUP BY s.id ORDER BY s.id`

  /** The aggregates of the group of subject `id`; a subject no topic joins
      forms a group of its own with zero counts. */
  function SubjectCounts(topics: seq<Topic>, id: int): (c: Counts)
    ensures (forall x :: x in topics ==> x.subjectId != id) ==> c == Zero()
  {
    FilterEmpty(topics, TopicOf(id));
    CountTopics(Filter(topics, TopicOf(id)))
  }

  /** One result row per subject, in the order of the table, which is id order. */
  function PerSubject(subjects: seq<Subject>, topics: seq<Topic>): (r: seq<(Subject, Counts)>)
    ensures |r| == |subjects|
    ensures forall i :: 0 <= i < |r| ==> r[i] == (subjects[i], SubjectCounts(topics, subjects[i].id))
  {
    seq(|subjects|, i requires 0 <= i < |subjects| => (subjects[i], SubjectCounts(topics, subjects[i].id)))
  }

  /** A left fold of Add over the counts of `rows`, as a running total over the
      result rows. */
  function Sum(rows: seq<(Subject, Counts)>): Counts {
    if rows == [] then Zero() else Add(Sum(rows[..|rows| - 1]), rows[|rows| - 1].1)
  }

  /** A subject's counts after one more topic: that topic's tally is added
      when it belongs to the subject. */
  lemma SubjectCountsSnoc(topics: seq<Topic>, x: Topic, id: int)
    ensures SubjectCounts(topics + [x], id)
         == Add(SubjectCounts(topics, id), if x.subjectId == id then Tally(x) else Zero())
  {
    FilterAppend(topics, [x], TopicOf(id));
    assert Filter([x], TopicOf(id)) == if x.subjectId == id then [x] else [] by {
      assert [x][1..] == [];
    }
    CountTopicsAppend(Filter(topics, TopicOf(id)), Filter([x], TopicOf(id)));
    if x.subjectId == id {
      CountTopicsOne(x);
    }
  }

  lemma SumSnoc(subjects: seq<Subject>, topics: seq<Topic>)
    requires subjects != []
    ensures Sum(PerSubject(subjects, topics))
         == Add(Sum(PerSubject(subjects[..|subjects| - 1], topics)), SubjectCounts(topics, subjects[|subjects| - 1].id))
  {
    assert PerSubject(subjects, topics)[..|subjects| - 1] == PerSubject(subjects[..|subjects| - 1], topics);
  }

  /** The keys of all but the last row ascend, and omit the last key. */
  lemma AscendingInit(subjects: seq<Subject>)
    requires subjects != [] && Ascending(Keys(subjects, SubjectKey))
    ensures var init := subjects[..|subjects| - 1];
      && Ascending(Keys(init, SubjectKey))
      && subjects[|subjects| - 1].id !in Keys(init, SubjectKey)
      && Keys(subjects, SubjectKey) == Keys(init, SubjectKey) + [subjects[|subjects| - 1].id]
  {
    var init := subjects[..|subjects| - 1];
    forall i | 0 <= i < |init| ensures Keys(init, SubjectKey)[i] < subjects[|subjects| - 1].id {
      assert Keys(subjects, SubjectKey)[i] < Keys(subjects, SubjectKey)[|subjects| - 1];
    }
    forall i, j | 0 <= i < j < |init| ensures Keys(init, SubjectKey)[i] < Keys(init, SubjectKey)[j] {
      assert Keys(subjects, SubjectKey)[i] < Keys(subjects, SubjectKey)[j];
    }
  }

  lemma AddRegroup(a: Counts, b: Counts, c: Counts, d: Counts)
    ensures Add(Add(a, b), Add(c, d)) == Add(Add(a, c), Add(b, d))
    ensures Add(a, Zero()) == a && Add(Zero(), a) == a
  {
  }

  /** A tally that goes to at most one of two places. */
  lemma TallySplit(inFirst: bool, inSecond: bool, x: Topic)
    requires !(inFirst && inSecond)
    ensures (if inFirst || inSecond then Tally(x) else Zero())
         == Add(if inFirst then Tally(x) else Zero(), if inSecond then Tally(x) else Zero())
  {
  }

  /** Adding a topic to the table adds its tally to the group of its subject,
      and to no other one. */
  lemma {:induction false} SumAddTopic(subjects: seq<Subject>, topics: seq<Topic>, x: Topic)
    requires Ascending(Keys(subjects, SubjectKey))
    ensures Sum(PerSubject(subjects, topics + [x]))
         == Add(Sum(PerSubject(subjects, topics)), if x.subjectId in Keys(subjects, SubjectKey) then Tally(x) else Zero())
  {
    if subjects != [] {
      var init := subjects[..|subjects| - 1];
      var s := subjects[|subjects| - 1];
      AscendingInit(subjects);
      SumAddTopic(init, topics, x);
      SumSnoc(subjects, topics + [x]);
      SumSnoc(subjects, topics);
      SubjectCountsSnoc(topics, x, s.id);
      var e := if x.subjectId in Keys(init, SubjectKey) then Tally(x) else Zero();
      var d := if x.subjectId == s.id then Tally(x) else Zero();
      var a, c := Sum(PerSubject(init, topics)), SubjectCounts(topics, s.id);
      assert Sum(PerSubject(init, topics + [x])) == Add(a, e);
      assert SubjectCounts(topics + [x], s.id) == Add(c, d);
      assert Sum(PerSubject(subjects, topics + [x])) == Add(Add(a, e), Add(c, d));
      assert Sum(PerSubject(subjects, topics)) == Add(a, c);
      assert x.subjectId in Keys(subjects, SubjectKey) <==> x.subjectId in Keys(init, SubjectKey) || x.subjectId == s.id;
      TallySplit(x.subjectId in Keys(init, SubjectKey), x.subjectId == s.id, x);
      AddRegroup(a, e, c, d);
    } else {
      assert PerSubject(subjects, topics + [x]) == [] && PerSubject(subjects, topics) == [];
    }
  }

  /** With every topic belonging to one of the subjects, and subject ids
      unique, the per-subject counts add up to the counts over all topics:
      no topic is counted twice and none is missed. */
  lemma {:induction false} SumPerSubjectCounts(subjects: seq<Subject>, topics: seq<Topic>)
    requires Ascending(Keys(subjects, SubjectKey))
    requires forall x :: x in topics ==> x.subjectId in Keys(subjects, SubjectKey)
    ensures Sum(PerSubject(subjects, topics)) == CountTopics(topics)
  {
    if topics == [] {
      SumZero(subjects);
    } else {
      var init := topics[..|topics| - 1];
      var x := topics[|topics| - 1];
      assert topics == init + [x];
      assert x in topics;
      SumPerSubjectCounts(subjects, init);
      SumAddTopic(subjects, init, x);
      CountTopicsSnoc(init, x);
    }
  }

  lemma {:induction false} SumZero(subjects: seq<Subject>)
    ensures Sum(PerSubject(subjects, [])) == Zero()
  {
    if subjects != [] {
      SumZero(subjects[..|subjects| - 1]);
      assert PerSubject(subjects, [])[..|subjects| - 1] == PerSubject(subjects[..|subjects| - 1], []);
    }
  }

  /** In every consistent database, the per-subject groups partition the topics. */
  lemma SumPerSubject(t: Tables)
    requires Consistent(t)
    ensures Sum(PerSubject(t.subjects, t.topics)) == CountTopics(t.topics)
  {
    SumPerSubjectCounts(t.subjects, t.topics);
  }
}
