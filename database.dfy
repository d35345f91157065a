/** The PostgreSQL store of backend/database/connection.go: the four tables
    `InitTables` declares, the rules their declarations impose on every insert,
    update and delete (column defaults, VARCHAR limits, foreign keys, ON DELETE
    CASCADE and ON DELETE SET NULL, SERIAL ids), and `SeedSubjects`.
    Rows are kept in ascending id order, the order a SERIAL column hands them out. */
module Database {
  import opened Wrappers
  import opened Seqs
  import opened Text
  import opened Dates
  import opened Models

  const DefaultColor: string := "#3498db"
  const DefaultHoursPlanned: real := 1.0
  const DefaultHoursCompleted: real := 0.0

  const SubjectNameLength: nat := 100
  const ColorLength: nat := 7
  const TopicNameLength: nat := 200
  const NoteTitleLength: nat := 200

  /** The range of a Postgres INTEGER (and SERIAL) column. A route id outside
      it makes the store reject the statement before any row is looked at. */
  const MinInteger: int := -0x8000_0000
  const MaxInteger: int := 0x7fff_ffff

  predicate IsInteger(n: int) {
    MinInteger <= n <= MaxInteger
  }

  /** Storing `s` in a VARCHAR(n) column: a longer value is an error unless the
      characters past the limit are all spaces, which are then cut off. */
  function Varchar(s: string, n: nat): (r: Option<string>)
    ensures r.None? <==> |s| > n && exists i :: n <= i < |s| && s[i] != ' '
    ensures r.Some? ==> |r.value| <= n && StartsWith(s, r.value)
    ensures r.Some? ==> forall i :: |r.value| <= i < |s| ==> s[i] == ' '
    ensures |s| <= n ==> r == Some(s)
  {
    if |s| <= n then Some(s)
    else if forall i :: n <= i < |s| ==> s[i] == ' ' then Some(s[..n])
    else None
  }

  /** A value a DATE column takes in and serves back unchanged by
      `Format("2006-01-02")`: a well-formed "YYYY-MM-DD" date from year 1 on. */
  predicate IsStoredDate(s: string) {
    var d := ParseIsoDate(s);
    d.Some? && d.value.year >= 1
  }

  /** `COALESCE(NULLIF($k, ''), column)`: the supplied string, unless it is
      empty, in which case the column keeps its value. */
  function Coalesce(value: string, current: string): string {
    if value == "" then current else value
  }

  function SubjectKey(s: Subject): int { s.id }
  function TopicKey(t: Topic): int { t.id }
  function NoteKey(n: Note): int { n.id }
  function PlanKey(p: PlanRow): int { p.id }

  function TopicOf(subjectId: int): Topic -> bool { (t: Topic) => t.subjectId == subjectId }
  function NoteOf(subjectId: int): Note -> bool { (n: Note) => n.subjectId == subjectId }
  function PlanOf(subjectId: int): PlanRow -> bool { (p: PlanRow) => p.subjectId == subjectId }

  /** The contents of the database, with the next value of each SERIAL sequence. */
  datatype Tables = Tables(
    subjects: seq<Subject>, topics: seq<Topic>, notes: seq<Note>, plans: seq<PlanRow>,
    nextSubjectId: int, nextTopicId: int, nextNoteId: int, nextPlanId: int)
  {
    function SubjectIds(): seq<int> { Keys(subjects, SubjectKey) }
    function TopicIds(): seq<int> { Keys(topics, TopicKey) }
    function NoteIds(): seq<int> { Keys(notes, NoteKey) }
    function PlanIds(): seq<int> { Keys(plans, PlanKey) }
  }

  /** A freshly created database. */
  const Empty: Tables := Tables([], [], [], [], 1, 1, 1, 1)

  ghost predicate IdsBelow(k: seq<int>, next: int) {
    next >= 1 && forall i :: 0 <= i < |k| ==> 1 <= k[i] < next
  }

  ghost predicate SubjectsConsistent(t: Tables) {
    && Ascending(t.SubjectIds()) && IdsBelow(t.SubjectIds(), t.nextSubjectId)
    && forall s :: s in t.subjects ==> |s.name| <= SubjectNameLength && |s.color| <= ColorLength
  }

  ghost predicate TopicsConsistent(t: Tables) {
    && Ascending(t.TopicIds()) && IdsBelow(t.TopicIds(), t.nextTopicId)
    && forall x :: x in t.topics ==> x.subjectId in t.SubjectIds() && |x.name| <= TopicNameLength
  }

  ghost predicate NotesConsistent(t: Tables) {
    && Ascending(t.NoteIds()) && IdsBelow(t.NoteIds(), t.nextNoteId)
    && forall n :: n in t.notes ==>
         && n.subjectId in t.SubjectIds()
         && (n.topicId.Some? ==> n.topicId.value in t.TopicIds())
         && |n.title| <= NoteTitleLength
  }

  ghost predicate PlansConsistent(t: Tables) {
    && Ascending(t.PlanIds()) && IdsBelow(t.PlanIds(), t.nextPlanId)
    && forall p :: p in t.plans ==> p.subjectId in t.SubjectIds() && IsStoredDate(p.studyDate)
  }

  /** What the schema guarantees of every reachable database: ids ascend and
      lie below their sequence, every foreign key names an existing row, and
      every value fits its column. */
  ghost predicate Consistent(t: Tables) {
    SubjectsConsistent(t) && TopicsConsistent(t) && NotesConsistent(t) && PlansConsistent(t)
  }

  lemma EmptyConsistent()
    ensures Consistent(Empty)
  {
  }

  // ---------------------------------------------------------------------------
  // Inserts: the new row takes the next SERIAL id and the column defaults, and
  // the statement fails (None) when a value does not fit or a foreign key
  // names no row.

  function InsertSubject(t: Tables, name: string, description: string, color: string): (r: Option<Tables>)
  {
    var n, c := Varchar(name, SubjectNameLength), Varchar(color, ColorLength);
    if n.None? || c.None? then None
    else Some(t.(subjects := t.subjects + [Subject(t.nextSubjectId, n.value, description, c.value)],
                 nextSubjectId := t.nextSubjectId + 1))
  }

  /** `INSERT INTO subjects`: fails exactly when the name or the color is too
      long; otherwise it adds one row, last, with a fresh id, and touches nothing else. */
  lemma InsertSubjectEffect(t: Tables, name: string, description: string, color: string)
    requires Consistent(t)
    ensures var r := InsertSubject(t, name, description, color);
      && (r.None? <==> Varchar(name, SubjectNameLength).None? || Varchar(color, ColorLength).None?)
      && (r.Some? ==>
        && Consistent(r.value)
        && r.value.subjects[..|t.subjects|] == t.subjects
        && |r.value.subjects| == |t.subjects| + 1
        && (var s := r.value.subjects[|t.subjects|];
           s.id == t.nextSubjectId && s.id !in t.SubjectIds() && s.description == description)
        && r.value.topics == t.topics && r.value.notes == t.notes && r.value.plans == t.plans)
  {
    var r := InsertSubject(t, name, description, color);
    if r.Some? {
      var s := r.value.subjects[|t.subjects|];
      assert r.value.subjects == t.subjects + [s];
      KeysAppend(t.subjects, s, SubjectKey);
      AscendingAppend(t.SubjectIds(), s.id);
      InsertPreservesForeignKeys(t, r.value);
    }
  }

  function InsertTopic(t: Tables, subjectId: int, name: string): (r: Option<Tables>)
  {
    var n := Varchar(name, TopicNameLength);
    if n.None? || subjectId !in t.SubjectIds() then None
    else Some(t.(topics := t.topics + [Topic(t.nextTopicId, subjectId, n.value, false, false)],
                 nextTopicId := t.nextTopicId + 1))
  }

  /** `INSERT INTO topics (subject_id, name)`: fails exactly when the name is too
      long or the subject does not exist; the new topic starts neither completed
      nor weak. */
  lemma InsertTopicEffect(t: Tables, subjectId: int, name: string)
    requires Consistent(t)
    ensures var r := InsertTopic(t, subjectId, name);
      && (r.None? <==> Varchar(name, TopicNameLength).None? || subjectId !in t.SubjectIds())
      && (r.Some? ==>
        && Consistent(r.value)
        && r.value.topics[..|t.topics|] == t.topics
        && |r.value.topics| == |t.topics| + 1
        && (var x := r.value.topics[|t.topics|];
           x.id == t.nextTopicId && x.id !in t.TopicIds() && x.subjectId == subjectId
           && !x.isCompleted && !x.isWeak)
        && r.value.subjects == t.subjects && r.value.notes == t.notes && r.value.plans == t.plans)
  {
    var r := InsertTopic(t, subjectId, name);
    if r.Some? {
      var x := r.value.topics[|t.topics|];
      assert r.value.topics == t.topics + [x];
      KeysAppend(t.topics, x, TopicKey);
      AscendingAppend(t.TopicIds(), x.id);
      InsertPreservesForeignKeys(t, r.value);
    }
  }

  function InsertNote(t: Tables, subjectId: int, topicId: Option<int>, title: string, content: string, now: int): (r: Option<Tables>)
  {
    var n := Varchar(title, NoteTitleLength);
    if n.None? || subjectId !in t.SubjectIds() || (topicId.Some? && topicId.value !in t.TopicIds()) then None
    else Some(t.(notes := t.notes + [Note(t.nextNoteId, subjectId, topicId, n.value, content, now)],
                 nextNoteId := t.nextNoteId + 1))
  }

  /** `INSERT INTO notes`: fails exactly when the title is too long or the
      subject or the given topic does not exist; `updated_at` defaults to now. */
  lemma InsertNoteEffect(t: Tables, subjectId: int, topicId: Option<int>, title: string, content: string, now: int)
    requires Consistent(t)
    ensures var r := InsertNote(t, subjectId, topicId, title, content, now);
      && (r.None? <==> Varchar(title, NoteTitleLength).None? || subjectId !in t.SubjectIds()
                       || (topicId.Some? && topicId.value !in t.TopicIds()))
      && (r.Some? ==>
        && Consistent(r.value)
        && r.value.notes[..|t.notes|] == t.notes
        && |r.value.notes| == |t.notes| + 1
        && (var x := r.value.notes[|t.notes|];
           x.id == t.nextNoteId && x.id !in t.NoteIds() && x.subjectId == subjectId
           && x.topicId == topicId && x.content == content && x.updatedAt == now)
        && r.value.subjects == t.subjects && r.value.topics == t.topics && r.value.plans == t.plans)
  {
    var r := InsertNote(t, subjectId, topicId, title, content, now);
    if r.Some? {
      var x := r.value.notes[|t.notes|];
      assert r.value.notes == t.notes + [x];
      KeysAppend(t.notes, x, NoteKey);
      AscendingAppend(t.NoteIds(), x.id);
      InsertPreservesForeignKeys(t, r.value);
    }
  }

  function InsertPlan(t: Tables, subjectId: int, studyDate: string, hoursPlanned: real, notes: string): (r: Option<Tables>)
  {
    if !IsStoredDate(studyDate) || subjectId !in t.SubjectIds() then None
    else Some(t.(plans := t.plans + [PlanRow(t.nextPlanId, subjectId, studyDate, hoursPlanned, DefaultHoursCompleted, notes)],
                 nextPlanId := t.nextPlanId + 1))
  }

  /** `INSERT INTO study_plan (subject_id, study_date, hours_planned, notes)`:
      fails exactly when the date is not a date or the subject does not exist;
      `hours_completed` takes its default 0.0. */
  lemma InsertPlanEffect(t: Tables, subjectId: int, studyDate: string, hoursPlanned: real, notes: string)
    requires Consistent(t)
    ensures var r := InsertPlan(t, subjectId, studyDate, hoursPlanned, notes);
      && (r.None? <==> !IsStoredDate(studyDate) || subjectId !in t.SubjectIds())
      && (r.Some? ==>
        && Consistent(r.value)
        && r.value.plans[..|t.plans|] == t.plans
        && |r.value.plans| == |t.plans| + 1
        && (var x := r.value.plans[|t.plans|];
           x.id == t.nextPlanId && x.id !in t.PlanIds() && x.subjectId == subjectId
           && x.studyDate == studyDate && x.hoursPlanned == hoursPlanned
           && x.hoursCompleted == 0.0 && x.notes == notes)
        && r.value.subjects == t.subjects && r.value.topics == t.topics && r.value.notes == t.notes)
  {
    var r := InsertPlan(t, subjectId, studyDate, hoursPlanned, notes);
    if r.Some? {
      var x := r.value.plans[|t.plans|];
      assert r.value.plans == t.plans + [x];
      KeysAppend(t.plans, x, PlanKey);
      AscendingAppend(t.PlanIds(), x.id);
      InsertPreservesForeignKeys(t, r.value);
    }
  }

  /** Growing the tables by appending keeps every key present, so foreign keys
      that held before still hold. */
  lemma InsertPreservesForeignKeys(t: Tables, u: Tables)
    requires t.subjects <= u.subjects && t.topics <= u.topics
    ensures forall k :: k in t.SubjectIds() ==> k in u.SubjectIds()
    ensures forall k :: k in t.TopicIds() ==> k in u.TopicIds()
  {
    forall k | k in t.SubjectIds() ensures k in u.SubjectIds() {
      var i :| 0 <= i < |t.subjects| && t.SubjectIds()[i] == k;
      assert u.subjects[i] == t.subjects[i];
      assert u.SubjectIds()[i] == k;
    }
    forall k | k in t.TopicIds() ensures k in u.TopicIds() {
      var i :| 0 <= i < |t.topics| && t.TopicIds()[i] == k;
      assert u.topics[i] == t.topics[i];
      assert u.TopicIds()[i] == k;
    }
  }

  // ---------------------------------------------------------------------------
  // Updates: `UPDATE <table> SET ... WHERE id = $n` rewrites the columns of the
  // one row with that id and leaves its id, and every other row, alone.

  function SetSubject(t: Tables, id: int, name: string, description: string, color: string): Tables {
    t.(subjects := UpdateWhere(t.subjects, SubjectKey, id,
         (s: Subject) => s.(name := name, description := description, color := color)))
  }

  function SetTopic(t: Tables, id: int, name: string, isCompleted: bool, isWeak: bool): Tables {
    t.(topics := UpdateWhere(t.topics, TopicKey, id,
         (x: Topic) => x.(name := name, isCompleted := isCompleted, isWeak := isWeak)))
  }

  function SetNote(t: Tables, id: int, title: string, content: string, topicId: Option<int>, updatedAt: int): Tables {
    t.(notes := UpdateWhere(t.notes, NoteKey, id,
         (n: Note) => n.(title := title, content := content, topicId := topicId, updatedAt := updatedAt)))
  }

  function SetPlan(t: Tables, id: int, hoursPlanned: real, hoursCompleted: real, notes: string): Tables {
    t.(plans := UpdateWhere(t.plans, PlanKey, id,
         (p: PlanRow) => p.(hoursPlanned := hoursPlanned, hoursCompleted := hoursCompleted, notes := notes)))
  }

  /** Rewriting a subject with values that fit keeps the schema invariant. */
  lemma SetSubjectConsistent(t: Tables, id: int, name: string, description: string, color: string)
    requires Consistent(t) && |name| <= SubjectNameLength && |color| <= ColorLength
    ensures Consistent(SetSubject(t, id, name, description, color))
  {
    var r := SetSubject(t, id, name, description, color);
    UpdateWhereKeys(t.subjects, SubjectKey, id, (s: Subject) => s.(name := name, description := description, color := color));
    assert r.SubjectIds() == t.SubjectIds();
    forall s | s in r.subjects ensures |s.name| <= SubjectNameLength && |s.color| <= ColorLength {
      var i :| 0 <= i < |r.subjects| && r.subjects[i] == s;
      assert t.subjects[i] in t.subjects;
    }
  }

  /** Rewriting a topic with a name that fits keeps the schema invariant. */
  lemma SetTopicConsistent(t: Tables, id: int, name: string, isCompleted: bool, isWeak: bool)
    requires Consistent(t) && |name| <= TopicNameLength
    ensures Consistent(SetTopic(t, id, name, isCompleted, isWeak))
  {
    var r := SetTopic(t, id, name, isCompleted, isWeak);
    UpdateWhereKeys(t.topics, TopicKey, id, (x: Topic) => x.(name := name, isCompleted := isCompleted, isWeak := isWeak));
    assert r.TopicIds() == t.TopicIds();
    forall x | x in r.topics ensures x.subjectId in r.SubjectIds() && |x.name| <= TopicNameLength {
      var i :| 0 <= i < |r.topics| && r.topics[i] == x;
      assert t.topics[i] in t.topics;
    }
  }

  /** Rewriting a note with a title that fits and an existing topic (or none)
      keeps the schema invariant. */
  lemma SetNoteConsistent(t: Tables, id: int, title: string, content: string, topicId: Option<int>, updatedAt: int)
    requires Consistent(t) && |title| <= NoteTitleLength
    requires topicId.Some? ==> topicId.value in t.TopicIds()
    ensures Consistent(SetNote(t, id, title, content, topicId, updatedAt))
  {
    var r := SetNote(t, id, title, content, topicId, updatedAt);
    UpdateWhereKeys(t.notes, NoteKey, id, (n: Note) => n.(title := title, content := content, topicId := topicId, updatedAt := updatedAt));
    assert r.NoteIds() == t.NoteIds();
    forall n | n in r.notes
      ensures n.subjectId in r.SubjectIds() && (n.topicId.Some? ==> n.topicId.value in r.TopicIds()) && |n.title| <= NoteTitleLength
    {
      var i :| 0 <= i < |r.notes| && r.notes[i] == n;
      assert t.notes[i] in t.notes;
    }
  }

  /** Rewriting the hours and notes of a study-plan entry keeps the schema invariant. */
  lemma SetPlanConsistent(t: Tables, id: int, hoursPlanned: real, hoursCompleted: real, notes: string)
    requires Consistent(t)
    ensures Consistent(SetPlan(t, id, hoursPlanned, hoursCompleted, notes))
  {
    var r := SetPlan(t, id, hoursPlanned, hoursCompleted, notes);
    UpdateWhereKeys(t.plans, PlanKey, id, (p: PlanRow) => p.(hoursPlanned := hoursPlanned, hoursCompleted := hoursCompleted, notes := notes));
    assert r.PlanIds() == t.PlanIds();
    forall p | p in r.plans ensures p.subjectId in r.SubjectIds() && IsStoredDate(p.studyDate) {
      var i :| 0 <= i < |r.plans| && r.plans[i] == p;
      assert t.plans[i] in t.plans;
    }
  }

  /** How a handler answers after `Exec`: a store error (None) is a 500, no
      affected row a 404 with `missing`, and otherwise the statement's tables
      are kept. */
  function Answer(t: Tables, run: Option<(Tables, nat)>, missing: Message): (r: (Tables, Outcome<()>))
    ensures r.1.Err? ==> r.0 == t
    ensures r.1 == Ok(()) <==> run.Some? && run.value.1 > 0
    ensures r.1.Ok? ==> run.Some? && r.0 == run.value.0
    ensures run.None? ==> r.1 == Err(Internal)
    ensures run.Some? && run.value.1 == 0 ==> r.1 == Err(NotFound(missing))
  {
    match run
    case None => (t, Err(Internal))
    case Some((u, affected)) => if affected == 0 then (t, Err(NotFound(missing))) else (u, Ok(()))
  }

  // ---------------------------------------------------------------------------
  // Deletes

  /** ON DELETE SET NULL: the notes that reference one of `gone` lose their topic. */
  function ReleaseTopics(notes: seq<Note>, gone: seq<int>): (r: seq<Note>)
    ensures |r| == |notes|
    ensures forall i :: 0 <= i < |notes| ==>
      r[i] == if notes[i].topicId.Some? && notes[i].topicId.value in gone then notes[i].(topicId := None) else notes[i]
  {
    seq(|notes|, i requires 0 <= i < |notes| =>
      if notes[i].topicId.Some? && notes[i].topicId.value in gone then notes[i].(topicId := None) else notes[i])
  }

  lemma ReleaseTopicsKeys(notes: seq<Note>, gone: seq<int>)
    ensures Keys(ReleaseTopics(notes, gone), NoteKey) == Keys(notes, NoteKey)
  {
  }

  /** `DELETE FROM topics WHERE id = $1`, with the SET NULL rule of notes.topic_id. */
  function DeleteTopic(t: Tables, id: int): Tables {
    t.(topics := Filter(t.topics, KeyIsNot(TopicKey, id)), notes := ReleaseTopics(t.notes, [id]))
  }

  /** Deleting a topic removes that topic and nothing else: every note is kept,
      and exactly the notes that referenced it now have no topic. */
  lemma DeleteTopicEffect(t: Tables, id: int)
    requires Ascending(t.TopicIds())
    ensures var r := DeleteTopic(t, id);
      && (forall x :: x in r.topics <==> x in t.topics && x.id != id)
      && |r.topics| == (if id in t.TopicIds() then |t.topics| - 1 else |t.topics|)
      && |r.notes| == |t.notes| && r.NoteIds() == t.NoteIds()
      && (forall i :: 0 <= i < |t.notes| ==>
            if t.notes[i].topicId == Some(id) then r.notes[i] == t.notes[i].(topicId := None)
            else r.notes[i] == t.notes[i])
      && r.subjects == t.subjects && r.plans == t.plans
  {
    if id in t.TopicIds() { RemoveOne(t.topics, TopicKey, id); }
    else { FilterAll(t.topics, KeyIsNot(TopicKey, id)); }
    ReleaseTopicsKeys(t.notes, [id]);
  }

  /** The schema invariant survives the deletion of a topic. */
  lemma DeleteTopicConsistent(t: Tables, id: int)
    requires Consistent(t)
    ensures Consistent(DeleteTopic(t, id))
  {
    var r := DeleteTopic(t, id);
    var keep := KeyIsNot(TopicKey, id);
    FilterAscending(t.topics, keep, TopicKey);
    FilterKeys(t.topics, keep, TopicKey);
    IdsBelowSubset(r.TopicIds(), t.TopicIds(), t.nextTopicId);
    assert TopicsConsistent(r);
    ReleaseTopicsKeys(t.notes, [id]);
    assert NotesConsistent(r) by {
      forall n | n in r.notes
        ensures n.subjectId in r.SubjectIds() && |n.title| <= NoteTitleLength
        ensures n.topicId.Some? ==> n.topicId.value in r.TopicIds()
      {
        var i :| 0 <= i < |r.notes| && r.notes[i] == n;
        assert t.notes[i] in t.notes;
        if n.topicId.Some? {
          var k := n.topicId.value;
          KeysMember(t.topics, TopicKey, k);
          var x :| x in t.topics && x.id == k;
          assert x in r.topics;
          KeyOf(r.topics, TopicKey, x);
        }
      }
    }
  }

  lemma IdsBelowSubset(a: seq<int>, b: seq<int>, next: int)
    requires IdsBelow(b, next)
    requires forall k :: k in a ==> k in b
    ensures IdsBelow(a, next)
  {
    forall i | 0 <= i < |a| ensures 1 <= a[i] < next {
      assert a[i] in a;
      var j :| 0 <= j < |b| && b[j] == a[i];
    }
  }

  /** `DELETE FROM subjects WHERE id = $1`, with every cascade the schema
      declares: the subject's topics, notes and study-plan rows go with it, and
      notes of other subjects that referenced one of its topics lose that topic. */
  function DeleteSubject(t: Tables, id: int): Tables {
    var gone := Keys(Filter(t.topics, TopicOf(id)), TopicKey);
    t.(subjects := Filter(t.subjects, KeyIsNot(SubjectKey, id)),
       topics := Filter(t.topics, Not(TopicOf(id))),
       notes := ReleaseTopics(Filter(t.notes, Not(NoteOf(id))), gone),
       plans := Filter(t.plans, Not(PlanOf(id))))
  }

  /** Deleting a subject leaves exactly the other subjects, and of the topics
      and study-plan rows exactly those of other subjects. */
  lemma DeleteSubjectEffect(t: Tables, id: int)
    requires Ascending(t.SubjectIds())
    ensures var r := DeleteSubject(t, id);
      && (forall s :: s in r.subjects <==> s in t.subjects && s.id != id)
      && |r.subjects| == (if id in t.SubjectIds() then |t.subjects| - 1 else |t.subjects|)
      && (forall x :: x in r.topics <==> x in t.topics && x.subjectId != id)
      && (forall p :: p in r.plans <==> p in t.plans && p.subjectId != id)
  {
    if id in t.SubjectIds() { RemoveOne(t.subjects, SubjectKey, id); }
    else { FilterAll(t.subjects, KeyIsNot(SubjectKey, id)); }
  }

  /** Of the notes, deleting a subject keeps exactly those of other subjects,
      in order; a kept note loses its topic only when that topic was deleted
      with the subject. */
  lemma DeleteSubjectNotes(t: Tables, id: int)
    requires Ascending(t.TopicIds())
    ensures var r := DeleteSubject(t, id);
      var kept := Filter(t.notes, Not(NoteOf(id)));
      && r.NoteIds() == Keys(kept, NoteKey)
      && (forall n :: n in r.notes ==> n.subjectId != id)
      && (forall i :: 0 <= i < |r.notes| ==>
            r.notes[i] == kept[i]
            || (r.notes[i] == kept[i].(topicId := None) && kept[i].topicId.Some?
                && kept[i].topicId.value !in r.TopicIds()))
  {
    var r := DeleteSubject(t, id);
    var kept := Filter(t.notes, Not(NoteOf(id)));
    var gone := Keys(Filter(t.topics, TopicOf(id)), TopicKey);
    ReleaseTopicsKeys(kept, gone);
    forall n | n in r.notes ensures n.subjectId != id {
      var i :| 0 <= i < |r.notes| && r.notes[i] == n;
      assert kept[i] in kept;
    }
    forall i | 0 <= i < |r.notes| && r.notes[i] != kept[i]
      ensures kept[i].topicId.Some? && kept[i].topicId.value !in r.TopicIds()
    {
      var k := kept[i].topicId.value;
      KeysMember(Filter(t.topics, TopicOf(id)), TopicKey, k);
      var x :| x in Filter(t.topics, TopicOf(id)) && x.id == k;
      if k in r.TopicIds() {
        KeysMember(r.topics, TopicKey, k);
        assert false;
      }
    }
  }

  /** The schema invariant survives the deletion of a subject and its cascades. */
  lemma DeleteSubjectConsistent(t: Tables, id: int)
    requires Consistent(t)
    ensures Consistent(DeleteSubject(t, id))
  {
    DeleteSubjectKeepsSubjects(t, id);
    DeleteSubjectKeepsTopics(t, id);
    DeleteSubjectKeepsPlans(t, id);
    DeleteSubjectKeepsNotes(t, id);
  }

  lemma DeleteSubjectKeepsSubjects(t: Tables, id: int)
    requires Consistent(t)
    ensures SubjectsConsistent(DeleteSubject(t, id))
  {
    var r := DeleteSubject(t, id);
    FilterAscending(t.subjects, KeyIsNot(SubjectKey, id), SubjectKey);
    FilterKeys(t.subjects, KeyIsNot(SubjectKey, id), SubjectKey);
    IdsBelowSubset(r.SubjectIds(), t.SubjectIds(), t.nextSubjectId);
  }

  lemma DeleteSubjectKeepsTopics(t: Tables, id: int)
    requires Consistent(t)
    ensures TopicsConsistent(DeleteSubject(t, id))
  {
    var r := DeleteSubject(t, id);
    FilterAscending(t.topics, Not(TopicOf(id)), TopicKey);
    FilterKeys(t.topics, Not(TopicOf(id)), TopicKey);
    IdsBelowSubset(r.TopicIds(), t.TopicIds(), t.nextTopicId);
    forall x | x in r.topics ensures x.subjectId in r.SubjectIds() {
      KeysMember(t.subjects, SubjectKey, x.subjectId);
      var s :| s in t.subjects && s.id == x.subjectId;
      KeyOf(r.subjects, SubjectKey, s);
    }
  }

  lemma DeleteSubjectKeepsPlans(t: Tables, id: int)
    requires Consistent(t)
    ensures PlansConsistent(DeleteSubject(t, id))
  {
    var r := DeleteSubject(t, id);
    FilterAscending(t.plans, Not(PlanOf(id)), PlanKey);
    FilterKeys(t.plans, Not(PlanOf(id)), PlanKey);
    IdsBelowSubset(r.PlanIds(), t.PlanIds(), t.nextPlanId);
    forall p | p in r.plans ensures p.subjectId in r.SubjectIds() {
      KeysMember(t.subjects, SubjectKey, p.subjectId);
      var s :| s in t.subjects && s.id == p.subjectId;
      KeyOf(r.subjects, SubjectKey, s);
    }
  }

  lemma DeleteSubjectKeepsNotes(t: Tables, id: int)
    requires Consistent(t)
    ensures NotesConsistent(DeleteSubject(t, id))
  {
    var r := DeleteSubject(t, id);
    var kept := Filter(t.notes, Not(NoteOf(id)));
    var gone := Keys(Filter(t.topics, TopicOf(id)), TopicKey);
    FilterAscending(t.notes, Not(NoteOf(id)), NoteKey);
    FilterKeys(t.notes, Not(NoteOf(id)), NoteKey);
    ReleaseTopicsKeys(kept, gone);
    IdsBelowSubset(r.NoteIds(), t.NoteIds(), t.nextNoteId);
    forall n | n in r.notes
      ensures n.subjectId in r.SubjectIds() && |n.title| <= NoteTitleLength
      ensures n.topicId.Some? ==> n.topicId.value in r.TopicIds()
    {
      var i :| 0 <= i < |r.notes| && r.notes[i] == n;
      var m := kept[i];
      assert m in kept;
      KeysMember(t.subjects, SubjectKey, n.subjectId);
      var s :| s in t.subjects && s.id == n.subjectId;
      KeyOf(r.subjects, SubjectKey, s);
      if n.topicId.Some? {
        var k := n.topicId.value;
        assert k !in gone;
        KeysMember(t.topics, TopicKey, k);
        var x :| x in t.topics && x.id == k;
        if x.subjectId == id {
          KeyOf(Filter(t.topics, TopicOf(id)), TopicKey, x);
        }
        KeyOf(r.topics, TopicKey, x);
      }
    }
  }

  /** `DELETE FROM notes WHERE id = $1` and `DELETE FROM study_plan WHERE id = $1`:
      nothing references these rows, so nothing cascades. */
  function DeleteNote(t: Tables, id: int): Tables {
    t.(notes := Filter(t.notes, KeyIsNot(NoteKey, id)))
  }

  function DeletePlan(t: Tables, id: int): Tables {
    t.(plans := Filter(t.plans, KeyIsNot(PlanKey, id)))
  }

  /** Deleting a note removes that note alone. */
  lemma DeleteNoteEffect(t: Tables, id: int)
    requires Consistent(t)
    ensures var r := DeleteNote(t, id);
      && Consistent(r)
      && (forall n :: n in r.notes <==> n in t.notes && n.id != id)
      && |r.notes| == (if id in t.NoteIds() then |t.notes| - 1 else |t.notes|)
      && r.subjects == t.subjects && r.topics == t.topics && r.plans == t.plans
  {
    var r := DeleteNote(t, id);
    if id in t.NoteIds() { RemoveOne(t.notes, NoteKey, id); }
    else { FilterAll(t.notes, KeyIsNot(NoteKey, id)); }
    FilterAscending(t.notes, KeyIsNot(NoteKey, id), NoteKey);
    FilterKeys(t.notes, KeyIsNot(NoteKey, id), NoteKey);
    IdsBelowSubset(r.NoteIds(), t.NoteIds(), t.nextNoteId);
  }

  /** Deleting a study-plan entry removes that entry alone. */
  lemma DeletePlanEffect(t: Tables, id: int)
    requires Consistent(t)
    ensures var r := DeletePlan(t, id);
      && Consistent(r)
      && (forall p :: p in r.plans <==> p in t.plans && p.id != id)
      && |r.plans| == (if id in t.PlanIds() then |t.plans| - 1 else |t.plans|)
      && r.subjects == t.subjects && r.topics == t.topics && r.notes == t.notes
  {
    var r := DeletePlan(t, id);
    if id in t.PlanIds() { RemoveOne(t.plans, PlanKey, id); }
    else { FilterAll(t.plans, KeyIsNot(PlanKey, id)); }
    FilterAscending(t.plans, KeyIsNot(PlanKey, id), PlanKey);
    FilterKeys(t.plans, KeyIsNot(PlanKey, id), PlanKey);
    IdsBelowSubset(r.PlanIds(), t.PlanIds(), t.nextPlanId);
  }

  // ---------------------------------------------------------------------------
  // SeedSubjects

  /** A subject SeedSubjects makes sure exists. */
  datatype Seed = Seed(name: string, description: string, color: string)

  /** The five subjects connection.go seeds, in order. */
  function Seeds(): seq<Seed> {
    [
      Seed("Flutter", "Mobile app development with Flutter framework", "#02569B"),
      Seed("Research Methodology", "Research methods and academic writing", "#9C27B0"),
      Seed("Linux", "Linux operating system and administration", "#FCC624"),
      Seed("Oracle", "Oracle database management and SQL", "#F80000"),
      Seed("Microprocessor", "Microprocessor architecture and programming", "#00897B")
    ]
  }

  /** Every seed's name and color fit their columns. */
  predicate Fits(seeds: seq<Seed>) {
    forall k :: 0 <= k < |seeds| ==> |seeds[k].name| <= SubjectNameLength && |seeds[k].color| <= ColorLength
  }

  /** The seed list fits the subjects table, so inserting a seed never fails on a constraint. */
  lemma SeedsFit()
    ensures Fits(Seeds())
  {
    var seeds := Seeds();
    forall k | 0 <= k < |seeds| ensures |seeds[k].name| <= SubjectNameLength && |seeds[k].color| <= ColorLength {
      assert k == 0 || k == 1 || k == 2 || k == 3 || k == 4;
    }
  }

  function NameIs(name: string): Subject -> bool { (s: Subject) => s.name == name }

  /** `SELECT COUNT(*) FROM subjects WHERE name = $1`. */
  function CountNamed(subjects: seq<Subject>, name: string): (n: nat)
    ensures n == 0 <==> !HasName(subjects, name)
  {
    FilterEmpty(subjects, NameIs(name));
    |Filter(subjects, NameIs(name))|
  }

  predicate HasName(subjects: seq<Subject>, name: string) {
    exists s :: s in subjects && s.name == name
  }

  /** SeedSubjects over `seeds` from seed `k` on. `countFails` and
      `insertFails` hold the positions of the seeds whose COUNT query or
      INSERT meets a store error; the first error ends the run and is returned. */
  function SeedRun(t: Tables, seeds: seq<Seed>, k: nat, countFails: set<nat>, insertFails: set<nat>): (Tables, Option<Failure>)
    decreases |seeds| - k
  {
    if k >= |seeds| then (t, None)
    else if k in countFails then (t, Some(Internal))
    else if HasName(t.subjects, seeds[k].name) then SeedRun(t, seeds, k + 1, countFails, insertFails)
    else if k in insertFails then (t, Some(Internal))
    else match InsertSubject(t, seeds[k].name, seeds[k].description, seeds[k].color)
      case None => (t, Some(Internal))
      case Some(u) => SeedRun(u, seeds, k + 1, countFails, insertFails)
  }

  /** One pass of the loop body that meets no store error: insert the seed
      when no subject has its name. */
  function SeedStep(t: Tables, seed: Seed): Tables {
    if HasName(t.subjects, seed.name) then t
    else match InsertSubject(t, seed.name, seed.description, seed.color)
      case None => t
      case Some(u) => u
  }

  /** The tables after the first `k` seeds have been processed without error. */
  function SeedFirst(t: Tables, seeds: seq<Seed>, k: nat): Tables
    requires k <= |seeds|
  {
    if k == 0 then t else SeedStep(SeedFirst(t, seeds, k - 1), seeds[k - 1])
  }

  lemma SeedFirstNext(t: Tables, seeds: seq<Seed>, j: nat)
    requires j < |seeds|
    ensures SeedFirst(t, seeds, j + 1) == SeedStep(SeedFirst(t, seeds, j), seeds[j])
  {
  }

  /** The tables after an error-free SeedSubjects. */
  function Seeded(t: Tables, seeds: seq<Seed>): Tables {
    SeedFirst(t, seeds, |seeds|)
  }

  /** A fitting seed is always inserted when its name is missing. */
  lemma SeedFits(t: Tables, seeds: seq<Seed>, k: nat)
    requires Fits(seeds) && k < |seeds|
    ensures InsertSubject(t, seeds[k].name, seeds[k].description, seeds[k].color).Some?
  {
    assert |seeds[k].name| <= SubjectNameLength && |seeds[k].color| <= ColorLength;
  }

  /** Over a fault-free seed with fitting columns, the run goes on from the next seed after one error-free step. */
  lemma SeedRunStep(v: Tables, seeds: seq<Seed>, j: nat, countFails: set<nat>, insertFails: set<nat>)
    requires Fits(seeds) && j < |seeds| && j !in countFails && j !in insertFails
    ensures SeedRun(v, seeds, j, countFails, insertFails) == SeedRun(SeedStep(v, seeds[j]), seeds, j + 1, countFails, insertFails)
  {
    SeedFits(v, seeds, j);
  }

  lemma {:induction false} SeedRunFrom(t: Tables, seeds: seq<Seed>, j: nat, k: nat, countFails: set<nat>, insertFails: set<nat>)
    requires Fits(seeds) && j <= k <= |seeds|
    requires forall i :: j <= i < k ==> i !in countFails && i !in insertFails
    ensures SeedRun(SeedFirst(t, seeds, j), seeds, j, countFails, insertFails)
         == SeedRun(SeedFirst(t, seeds, k), seeds, k, countFails, insertFails)
    decreases k - j
  {
    if j < k {
      SeedRunStep(SeedFirst(t, seeds, j), seeds, j, countFails, insertFails);
      SeedFirstNext(t, seeds, j);
      SeedRunFrom(t, seeds, j + 1, k, countFails, insertFails);
    }
  }

  /** With no store error, SeedSubjects reports success and leaves `Seeded(t)`. */
  lemma SeedWithoutFaults(t: Tables)
    ensures SeedRun(t, Seeds(), 0, {}, {}) == (Seeded(t, Seeds()), None)
  {
    SeedsFit();
    SeedRunFrom(t, Seeds(), 0, |Seeds()|, {}, {});
  }

  /** SeedSubjects stops at the first store error and returns it: the seeds
      before it have been processed, the one that failed and those after it
      have not. */
  lemma SeedStopsAtFirstFault(t: Tables, k: nat, countFails: set<nat>, insertFails: set<nat>)
    requires k < |Seeds()|
    requires forall i :: 0 <= i < k ==> i !in countFails && i !in insertFails
    requires k in countFails || (k in insertFails && !HasName(SeedFirst(t, Seeds(), k).subjects, Seeds()[k].name))
    ensures SeedRun(t, Seeds(), 0, countFails, insertFails) == (SeedFirst(t, Seeds(), k), Some(Internal))
  {
    SeedsFit();
    SeedRunFrom(t, Seeds(), 0, k, countFails, insertFails);
  }

  /** Seeding only appends subjects: existing rows are neither removed nor
      altered, the other tables are untouched, and the schema invariant holds. */
  lemma {:induction false} SeedFirstGrows(t: Tables, seeds: seq<Seed>, k: nat)
    requires k <= |seeds| && Consistent(t)
    ensures var u := SeedFirst(t, seeds, k);
      && Consistent(u) && t.subjects <= u.subjects
      && u.topics == t.topics && u.notes == t.notes && u.plans == t.plans
  {
    if k > 0 {
      var v := SeedFirst(t, seeds, k - 1);
      SeedFirstGrows(t, seeds, k - 1);
      InsertSubjectEffect(v, seeds[k - 1].name, seeds[k - 1].description, seeds[k - 1].color);
    }
  }

  /** A name present stays present while seeding. */
  lemma {:induction false} SeedKeepsName(t: Tables, seeds: seq<Seed>, j: nat, k: nat, name: string)
    requires j <= k <= |seeds| && HasName(SeedFirst(t, seeds, j).subjects, name)
    ensures HasName(SeedFirst(t, seeds, k).subjects, name)
    decreases k - j
  {
    if j < k {
      SeedStepKeepsName(SeedFirst(t, seeds, j), seeds[j], name);
      SeedFirstNext(t, seeds, j);
      SeedKeepsName(t, seeds, j + 1, k, name);
    }
  }

  /** One seeding step keeps every name already present. */
  lemma SeedStepKeepsName(v: Tables, seed: Seed, name: string)
    requires HasName(v.subjects, name)
    ensures HasName(SeedStep(v, seed).subjects, name)
  {
    var s :| s in v.subjects && s.name == name;
    var w := SeedStep(v, seed);
    if w != v {
      assert w.subjects == v.subjects + [w.subjects[|v.subjects|]];
    }
    assert s in w.subjects;
  }

  /** After seeding, every seed name is present. */
  lemma SeededHasAllNames(t: Tables, seeds: seq<Seed>)
    requires Fits(seeds)
    ensures forall k :: 0 <= k < |seeds| ==> HasName(Seeded(t, seeds).subjects, seeds[k].name)
  {
    forall k | 0 <= k < |seeds| ensures HasName(Seeded(t, seeds).subjects, seeds[k].name) {
      SeedHasName(t, seeds, k);
      SeedKeepsName(t, seeds, k + 1, |seeds|, seeds[k].name);
    }
  }

  /** Right after its own step, a seed's name is present. */
  lemma SeedHasName(t: Tables, seeds: seq<Seed>, k: nat)
    requires Fits(seeds) && k < |seeds|
    ensures HasName(SeedFirst(t, seeds, k + 1).subjects, seeds[k].name)
  {
    var v := SeedFirst(t, seeds, k);
    var w := SeedFirst(t, seeds, k + 1);
    if !HasName(v.subjects, seeds[k].name) {
      SeedFits(v, seeds, k);
      assert w.subjects[|v.subjects|].name == seeds[k].name;
      assert w.subjects[|v.subjects|] in w.subjects;
    }
  }

  /** When every seed name is already present, seeding changes nothing. */
  lemma {:induction false} SeedAllPresent(t: Tables, seeds: seq<Seed>, k: nat)
    requires k <= |seeds|
    requires forall i :: 0 <= i < |seeds| ==> HasName(t.subjects, seeds[i].name)
    ensures SeedFirst(t, seeds, k) == t
  {
    if k > 0 {
      var v := SeedFirst(t, seeds, k - 1);
      SeedAllPresent(t, seeds, k - 1);
      assert v == t;
      assert SeedFirst(t, seeds, k) == SeedStep(v, seeds[k - 1]);
    }
  }

  /** Seeding is idempotent: seeding a seeded database changes nothing. */
  lemma SeededIdempotent(t: Tables)
    ensures Seeded(Seeded(t, Seeds()), Seeds()) == Seeded(t, Seeds())
  {
    SeedsFit();
    SeededHasAllNames(t, Seeds());
    SeedAllPresent(Seeded(t, Seeds()), Seeds(), |Seeds()|);
  }

  /** A seed is inserted exactly when no subject has its name yet. */
  lemma SeedStepInsertsOnlyMissing(t: Tables, seeds: seq<Seed>, k: nat)
    requires Fits(seeds) && k < |seeds|
    ensures var u := SeedStep(t, seeds[k]);
      && (HasName(t.subjects, seeds[k].name) ==> u == t)
      && (!HasName(t.subjects, seeds[k].name) ==>
            |u.subjects| == |t.subjects| + 1 && u.subjects[..|t.subjects|] == t.subjects
            && u.subjects[|t.subjects|] == Subject(t.nextSubjectId, seeds[k].name, seeds[k].description, seeds[k].color))
  {
    SeedFits(t, seeds, k);
  }

  // ---------------------------------------------------------------------------
  // The store object

  /** database.DB: the tables the handlers query and change in place. */
  class Store {
    var subjects: seq<Subject>
    var topics: seq<Topic>
    var notes: seq<Note>
    var plans: seq<PlanRow>
    var nextSubjectId: int
    var nextTopicId: int
    var nextNoteId: int
    var nextPlanId: int

    function State(): Tables
      reads this
    {
      Tables(subjects, topics, notes, plans, nextSubjectId, nextTopicId, nextNoteId, nextPlanId)
    }

    ghost predicate Valid()
      reads this
    {
      Consistent(State())
    }

    /** The database right after `InitTables`: four empty tables. */
    constructor ()
      ensures Valid() && State() == Empty
    {
      subjects, topics, notes, plans := [], [], [], [];
      nextSubjectId, nextTopicId, nextNoteId, nextPlanId := 1, 1, 1, 1;
    }

    /** Make the tables equal to `t`: the effect of one statement, computed by
        the functions above. */
    method Commit(t: Tables)
      requires Consistent(t)
      modifies this
      ensures Valid() && State() == t
    {
      subjects, topics, notes, plans := t.subjects, t.topics, t.notes, t.plans;
      nextSubjectId, nextTopicId, nextNoteId, nextPlanId := t.nextSubjectId, t.nextTopicId, t.nextNoteId, t.nextPlanId;
    }
  }

  /** connection.go's SeedSubjects: for each seed in turn, count the subjects
      with its name and insert it when there are none; the first store error
      ends the loop and is returned. */
  method SeedSubjects(db: Store, countFails: set<nat>, insertFails: set<nat>) returns (err: Option<Failure>)
    requires db.Valid()
    modifies db
    ensures db.Valid()
    ensures (db.State(), err) == SeedRun(old(db.State()), Seeds(), 0, countFails, insertFails)
  {
    var seeds := Seeds();
    var i := 0;
    while i < |seeds|
      invariant 0 <= i <= |seeds|
      invariant db.Valid()
      invariant SeedRun(db.State(), seeds, i, countFails, insertFails) == SeedRun(old(db.State()), seeds, 0, countFails, insertFails)
    {
      err := SeedOne(db, seeds, i, countFails, insertFails);
      if err.Some? {
        return;
      }
      i := i + 1;
    }
    return None;
  }

  /** One pass of SeedSubjects' loop body, for seed `i`: either an error that
      ends the run, or the run goes on from the next seed. */
  method SeedOne(db: Store, seeds: seq<Seed>, i: nat, countFails: set<nat>, insertFails: set<nat>) returns (err: Option<Failure>)
    requires db.Valid() && i < |seeds|
    modifies db
    ensures db.Valid()
    ensures err.Some? ==> SeedRun(old(db.State()), seeds, i, countFails, insertFails) == (db.State(), err)
    ensures err.None? ==> SeedRun(old(db.State()), seeds, i, countFails, insertFails)
                          == SeedRun(db.State(), seeds, i + 1, countFails, insertFails)
  {
    var seed := seeds[i];
    if i in countFails {
      return Some(Internal);
    }
    var count := CountNamed(db.subjects, seed.name);
    if count == 0 {
      if i in insertFails {
        return Some(Internal);
      }
      var inserted := InsertSubject(db.State(), seed.name, seed.description, seed.color);
      if inserted.None? {
        return Some(Internal);
      }
      InsertSubjectEffect(db.State(), seed.name, seed.description, seed.color);
      db.Commit(inserted.value);
    }
    return None;
  }
}
