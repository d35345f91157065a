/** frontend/src/pages/Topics.jsx: the figures shown above a subject's
    topics, and the guard and form reset of the create form. */
module TopicsPage {
  import opened Wrappers
  import opened Seqs
  import opened Text
  import opened Models
  import opened Database
  import opened Aggregate

  /** `topics.filter(t => t.is_completed).length`. */
  function CompletedCount(topics: seq<Topic>): (n: nat)
    ensures n <= |topics|
    ensures n == 0 <==> forall x :: x in topics ==> !x.isCompleted
    ensures n == |topics| <==> forall x :: x in topics ==> x.isCompleted
  {
    FilterFull(topics, IsCompleted);
    FilterEmpty(topics, IsCompleted);
    |Filter(topics, IsCompleted)|
  }

  /** `topics.filter(t => t.is_weak).length`, counted apart from completion. */
  function WeakCount(topics: seq<Topic>): (n: nat)
    ensures n <= |topics|
    ensures n == 0 <==> forall x :: x in topics ==> !x.isWeak
    ensures n == |topics| <==> forall x :: x in topics ==> x.isWeak
  {
    FilterFull(topics, IsWeak);
    FilterEmpty(topics, IsWeak);
    |Filter(topics, IsWeak)|
  }

  /** `Math.round` on an exact real: the nearest integer, halves rounded up. */
  function Round(x: real): (r: int)
    ensures r as real - 0.5 <= x < r as real + 0.5
  {
    (x + 0.5).Floor
  }

  /** `topics.length > 0 ? Math.round((completedCount / topics.length) * 100) : 0`. */
  function ShownProgress(topics: seq<Topic>): int {
    if |topics| > 0 then Round(Percent(CompletedCount(topics), |topics|)) else 0
  }

  /** The shown percentage is a whole number in [0, 100], within a half of
      the exact share; 0 with no topics. */
  lemma ShownProgressBounds(topics: seq<Topic>)
    ensures 0 <= ShownProgress(topics) <= 100
    ensures |topics| == 0 ==> ShownProgress(topics) == 0
    ensures |topics| > 0 ==>
      var exact := Percent(CompletedCount(topics), |topics|);
      ShownProgress(topics) as real - 0.5 <= exact < ShownProgress(topics) as real + 0.5
  {
    if |topics| > 0 {
      var exact := Percent(CompletedCount(topics), |topics|);
      assert 0.0 <= exact <= 100.0;
    }
  }

  /** All topics completed shows 100; none completed shows 0. */
  lemma ShownProgressEnds(topics: seq<Topic>)
    ensures |topics| > 0 && (forall x :: x in topics ==> x.isCompleted) ==> ShownProgress(topics) == 100
    ensures (forall x :: x in topics ==> !x.isCompleted) ==> ShownProgress(topics) == 0
  {
    if |topics| > 0 && forall x :: x in topics ==> x.isCompleted {
      assert Percent(CompletedCount(topics), |topics|) == 100.0;
    }
  }

  /** On the list GET /subjects/:id/topics serves, the page shows the same
      counts as the subject listing computes for that subject. */
  lemma PageCountsMatchServer(t: Tables, id: int)
    ensures var topics := Filter(t.topics, TopicOf(id));
      Counts(|topics|, CompletedCount(topics), WeakCount(topics)) == SubjectCounts(t.topics, id)
  {
  }

  /** `if (!newTopicName.trim()) return;` and otherwise the body sent to
      createTopic: the page's subject id and the name as typed, untrimmed. */
  function CreateRequest(name: string, subjectId: int): (r: Option<CreateTopicInput>)
    ensures r.None? <==> forall i :: 0 <= i < |name| ==> IsJsWhitespace(name[i])
    ensures r.Some? ==> r.value == CreateTopicInput(subjectId, name) && Required(name)
  {
    TrimEmpty(name);
    if Trim(name) == "" then None else Some(CreateTopicInput(subjectId, name))
  }

  /** The page is stricter than the server: a name of blanks only passes the
      handler's `binding:"required"` check but is never sent. */
  lemma GuardStricterThanServer()
    ensures Required(" ") && CreateRequest(" ", 1).None?
  {
  }

  /** handleCreateTopic: the request sent, if any, and the name field
      afterwards, given whether the create call succeeds. */
  function SubmitCreate(name: string, subjectId: int, succeeds: bool): (Option<CreateTopicInput>, string) {
    var request := CreateRequest(name, subjectId);
    (request, if request.Some? && succeeds then "" else name)
  }

  /** The field is cleared exactly when a request was sent and succeeded;
      a refused or failed create leaves what was typed. */
  lemma SubmitClearsOnlyOnSuccess(name: string, subjectId: int, succeeds: bool)
    ensures var (request, after) := SubmitCreate(name, subjectId, succeeds);
      && (request.Some? && succeeds ==> after == "")
      && (request.None? || !succeeds ==> after == name)
      && (after == "" <==> (request.Some? && succeeds) || name == "")
  {
  }
}
